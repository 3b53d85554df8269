/**
 The red-black tree of uv/tree.h:298-768, with parent links.

 The conditions are stated at each node, over the set of all nodes: its links agree with those of its neighbours, its
 key lies in the interval that its ancestors leave for it, and the black counts below it are equal. The ghost fields
 `lo`, `hi` and `bh` of a node hold that interval and that count. Each rotation, splice and recoloring is one method,
 and a two-state lemma says which of these conditions it keeps.
 */
module RbTrees {

  datatype Color = Red | Black

  class Node {
    const key: int
    var left: Node?
    var right: Node?
    var parent: Node?
    var color: Color
    ghost var lo: int
    ghost var hi: int
    ghost var bh: nat

    constructor (key: int)
      ensures this.key == key
    {
      this.key := key;
      left, right, parent, color := null, null, null, Red;
    }
  }

  function Blackness(c: Color): nat {
    if c.Black? then 1 else 0
  }

  // ---------- Trees as values ----------

  datatype Tree = Leaf | Fork(left: Tree, node: Node, color: Color, right: Tree)

  function InOrder(t: Tree): seq<Node> {
    match t
    case Leaf => []
    case Fork(l, x, _, r) => InOrder(l) + [x] + InOrder(r)
  }

  predicate Sorted(s: seq<Node>) {
    forall i, j :: 0 <= i < j < |s| ==> s[i].key < s[j].key
  }

  lemma SortedJoin(a: seq<Node>, x: Node, b: seq<Node>)
    requires Sorted(a) && Sorted(b)
    requires forall y :: y in a ==> y.key < x.key
    requires forall y :: y in b ==> x.key < y.key
    ensures Sorted(a + [x] + b)
  {
    var s := a + [x] + b;
    forall i, j | 0 <= i < j < |s| ensures s[i].key < s[j].key {
      assert i < |a| ==> s[i] in a;
      assert j > |a| ==> s[j] in b;
    }
  }

  function SortedInsert(s: seq<Node>, x: Node): seq<Node> {
    if s == [] || x.key < s[0].key then [x] + s else [s[0]] + SortedInsert(s[1..], x)
  }

  function Without(s: seq<Node>, x: Node): seq<Node> {
    if s == [] then [] else if s[0] == x then s[1..] else [s[0]] + Without(s[1..], x)
  }

  lemma SortedHead(s: seq<Node>)
    requires Sorted(s) && s != []
    ensures Sorted(s[1..])
    ensures forall y :: y in s ==> y == s[0] || y in s[1..]
    ensures forall y :: y in s[1..] ==> y in s
    ensures forall y :: y in s[1..] ==> s[0].key < y.key
  {
    assert s == [s[0]] + s[1..];
  }

  lemma SortedCons(x: Node, s: seq<Node>)
    requires Sorted(s) && forall y :: y in s ==> x.key < y.key
    ensures Sorted([x] + s)
  {
    var t := [x] + s;
    forall i, j | 0 <= i < j < |t| ensures t[i].key < t[j].key {
      assert t[j] in s;
    }
  }

  lemma {:induction false} SortedInsertSorted(s: seq<Node>, x: Node)
    requires Sorted(s) && forall y :: y in s ==> y.key != x.key
    ensures Sorted(SortedInsert(s, x))
    ensures forall y :: y in SortedInsert(s, x) ==> y in s || y == x
    ensures x in SortedInsert(s, x) && forall y :: y in s ==> y in SortedInsert(s, x)
  {
    if s == [] {
    } else if x.key < s[0].key {
      SortedHead(s);
      SortedCons(x, s);
    } else {
      SortedHead(s);
      SortedInsertSorted(s[1..], x);
      assert s[0] in s;
      SortedCons(s[0], SortedInsert(s[1..], x));
    }
  }

  lemma {:induction false} WithoutSorted(s: seq<Node>, x: Node)
    requires Sorted(s)
    ensures Sorted(Without(s, x))
    ensures forall y :: y in Without(s, x) ==> y in s && y != x
    ensures forall y :: y in s && y != x ==> y in Without(s, x)
  {
    if s != [] {
      SortedHead(s);
      if s[0] != x {
        WithoutSorted(s[1..], x);
        SortedCons(s[0], Without(s[1..], x));
      } else {
        assert x !in s[1..];
      }
    }
  }

  /** A strictly sorted sequence is determined by its elements. */
  lemma {:induction false} SortedUnique(s: seq<Node>, t: seq<Node>)
    requires Sorted(s) && Sorted(t)
    requires (forall y :: y in s ==> y in t) && (forall y :: y in t ==> y in s)
    ensures s == t
  {
    assert s != [] ==> s[0] in s && s[0] in t;
    assert t != [] ==> t[0] in t && t[0] in s;
    if s != [] {
      SortedHead(s);
      SortedHead(t);
      SortedUnique(s[1..], t[1..]);
    }
  }

  lemma InsertedOnce(before: seq<Node>, elements: set<Node>, x: Node, after: seq<Node>)
    requires Sorted(before) && forall y :: y in before <==> y in elements
    requires Sorted(after) && forall y :: y in after <==> y in elements + {x}
    requires forall y :: y in elements ==> y.key != x.key
    ensures after == SortedInsert(before, x)
  {
    SortedInsertSorted(before, x);
    SortedUnique(after, SortedInsert(before, x));
  }

  lemma RemovedOnce(before: seq<Node>, elements: set<Node>, x: Node, after: seq<Node>)
    requires Sorted(before) && forall y :: y in before <==> y in elements
    requires Sorted(after) && forall y :: y in after <==> y in elements - {x}
    ensures after == Without(before, x)
  {
    WithoutSorted(before, x);
    SortedUnique(after, Without(before, x));
  }

  lemma SortedSnoc(s: seq<Node>, x: Node)
    requires Sorted(s) && forall y :: y in s ==> y.key < x.key
    ensures Sorted(s + [x])
  {
    SortedJoin(s, x, []);
    assert s + [x] + [] == s + [x];
  }

  lemma {:induction false} SortedSize(s: seq<Node>, elements: set<Node>)
    requires Sorted(s) && forall x :: x in s <==> x in elements
    ensures |s| == |elements|
  {
    if s != [] {
      assert s == [s[0]] + s[1..];
      assert s[0] !in s[1..];
      SortedSize(s[1..], elements - {s[0]});
    } else {
      assert elements == {};
    }
  }

  // ---------- The red-black conditions ----------

  predicate RedRoot(t: Tree) {
    t.Fork? && t.color.Red?
  }

  /** Every path from the root down to a leaf passes `h` black nodes. */
  predicate BlackOnAllPaths(t: Tree, h: int) {
    match t
    case Leaf => h == 0
    case Fork(l, _, c, r) =>
      BlackOnAllPaths(l, h - Blackness(c)) && BlackOnAllPaths(r, h - Blackness(c))
  }

  predicate RedHasBlackChildren(t: Tree) {
    match t
    case Leaf => true
    case Fork(l, _, c, r) =>
      && RedHasBlackChildren(l) && RedHasBlackChildren(r)
      && (c.Red? ==> !RedRoot(l) && !RedRoot(r))
  }

  /** The conditions listed at the top of uv/tree.h, with a black root. */
  ghost predicate RedBlack(t: Tree) {
    RedHasBlackChildren(t) && !RedRoot(t) && exists h :: BlackOnAllPaths(t, h)
  }

  function Height(t: Tree): nat {
    match t
    case Leaf => 0
    case Fork(l, _, _, r) => 1 + if Height(l) < Height(r) then Height(r) else Height(l)
  }

  function Pow2(n: nat): nat {
    if n == 0 then 1 else 2 * Pow2(n - 1)
  }

  lemma {:induction false} Pow2Sum(a: nat, b: nat)
    ensures Pow2(a + b) == Pow2(a) * Pow2(b)
  {
    if a > 0 {
      Pow2Sum(a - 1, b);
    }
  }

  lemma {:induction false} Pow2Grows(a: nat, b: nat)
    requires a <= b
    ensures Pow2(a) <= Pow2(b)
  {
    if a < b {
      Pow2Grows(a, b - 1);
    }
  }

  lemma {:induction false} BlackHeightBounds(t: Tree, h: int)
    requires RedHasBlackChildren(t) && BlackOnAllPaths(t, h)
    ensures h >= 0 && Pow2(h) <= |InOrder(t)| + 1
    ensures Height(t) <= 2 * h + (if RedRoot(t) then 1 else 0)
  {
    if t.Fork? {
      BlackHeightBounds(t.left, h - Blackness(t.color));
      BlackHeightBounds(t.right, h - Blackness(t.color));
    }
  }

  /** The height of a red-black tree of n nodes is at most 2 lg(n + 1). */
  lemma HeightBound(t: Tree)
    requires RedBlack(t)
    ensures Pow2(Height(t)) <= (|InOrder(t)| + 1) * (|InOrder(t)| + 1)
  {
    var h :| BlackOnAllPaths(t, h);
    BlackHeightBounds(t, h);
    Pow2Grows(Height(t), h + h);
    Pow2Sum(h, h);
    SquareGrows(Pow2(h), |InOrder(t)| + 1);
  }

  lemma SquareGrows(p: nat, q: nat)
    requires p <= q
    ensures p * p <= q * q
  {
    assert p * p <= p * q;
    assert p * q <= q * q;
  }

  class RbTree {
    var root: Node?
    ghost var nodes: set<Node>
    ghost var low: int
    ghost var high: int

    /** RB_INIT */
    constructor ()
      ensures Valid() && nodes == {}
    {
      root := null;
      nodes, low, high := {}, 0, 0;
    }

    /** The links of `x` and of its neighbours agree. */
    ghost predicate Linked(x: Node)
      reads this, nodes, x
    {
      && (x.left != null ==> x.left in nodes && x.left.parent == x)
      && (x.right != null ==> x.right in nodes && x.right.parent == x)
      && (x.left != null ==> x.left != x.right)
      && (if x.parent == null then x == root
          else x.parent in nodes && (x.parent.left == x || x.parent.right == x))
    }

    /** The keys below `x` lie strictly between `x.lo` and `x.hi`. */
    ghost predicate Ranged(x: Node)
      reads this, nodes, x
    {
      && low <= x.lo < x.key < x.hi <= high
      && (x.left != null && x.left in nodes ==> x.left.lo == x.lo && x.left.hi == x.key)
      && (x.right != null && x.right in nodes ==> x.right.lo == x.key && x.right.hi == x.hi)
    }

    static ghost predicate Unique(x: Node, y: Node) {
      x.key == y.key ==> x == y
    }

    ghost predicate Shaped()
      reads this, nodes
    {
      && (root == null ==> nodes == {})
      && (root != null ==> root in nodes && root.parent == null && root.lo == low && root.hi == high)
      && (forall x {:trigger Linked(x)} :: x in nodes ==> Linked(x))
      && (forall x {:trigger Ranged(x)} :: x in nodes ==> Ranged(x))
      && (forall x, y {:trigger Unique(x, y)} :: x in nodes && y in nodes ==> Unique(x, y))
    }

    ghost function Bh(n: Node?): nat
      reads this, nodes
    {
      if n != null && n in nodes then n.bh else 0
    }

    ghost predicate IsRed(n: Node?)
      reads this, nodes
    {
      n != null && n in nodes && n.color.Red?
    }

    /** Both subtrees of `x` have the same black height, and `x.bh` is the black height at `x`. */
    ghost predicate Balanced(x: Node)
      reads this, nodes, x
    {
      Bh(x.left) == Bh(x.right) && x.bh == Bh(x.left) + Blackness(x.color)
    }

    ghost predicate Colored(x: Node)
      reads this, nodes, x
    {
      Balanced(x) && (x.color.Red? ==> !IsRed(x.left) && !IsRed(x.right))
    }

    /** The color conditions hold at every node except possibly `q`. */
    ghost predicate ColoredBut(q: Node?)
      reads this, nodes
    {
      forall x {:trigger Colored(x)} :: x in nodes && x != q ==> Colored(x)
    }

    /** Only colors and black heights changed. */
    twostate predicate SameLinks()
      reads this, nodes
    {
      && nodes == old(nodes) && low == old(low) && high == old(high) && root == old(root)
      && (forall x :: x in nodes ==>
            && x.left == old(x.left) && x.right == old(x.right) && x.parent == old(x.parent)
            && x.lo == old(x.lo) && x.hi == old(x.hi))
    }

    twostate lemma SameLinksShaped()
      requires old(Shaped()) && SameLinks()
      ensures Shaped()
    {
      forall x | x in nodes
        ensures Linked(x) == Ranged(x) == true
      {
        assert old(Linked(x)) == old(Ranged(x)) == true;
      }
    }

    // ---------- Rotations ----------

    /** Every link after the right child of `elm` was rotated above it. */
    twostate predicate RotatedLeft(elm: Node)
      requires old(elm.right) != null
      reads this, nodes
    {
      var tmp := old(elm.right);
      && nodes == old(nodes) && low == old(low) && high == old(high)
      && elm in nodes && tmp in nodes
      && (forall x :: x in nodes ==> (x.left ==
            if x == tmp then elm else if x == old(elm.parent) && old(x.left) == elm then tmp else old(x.left)))
      && (forall x :: x in nodes ==> (x.right ==
            if x == elm then old(tmp.left)
            else if x == old(elm.parent) && old(x.left) != elm then tmp else old(x.right)))
      && (forall x :: x in nodes ==> (x.parent ==
            if x == elm then tmp else if x == tmp then old(elm.parent)
            else if x == old(tmp.left) then elm else old(x.parent)))
      && root == if old(elm.parent) == null then tmp else old(root)
    }

    /** The key intervals that go with `RotatedLeft`. */
    twostate predicate RerangedLeft(elm: Node)
      requires old(elm.right) != null
      reads this, nodes
    {
      var tmp := old(elm.right);
      && nodes == old(nodes) && low == old(low) && high == old(high)
      && (forall x :: x in nodes ==> x.lo == if x == tmp then old(elm.lo) else old(x.lo))
      && (forall x :: x in nodes ==> x.hi == if x == elm then tmp.key else old(x.hi))
    }

    twostate lemma RotatedLeftLinked(elm: Node)
      requires old(Shaped()) && old(elm.right) != null && RotatedLeft(elm)
      ensures forall x {:trigger Linked(x)} :: x in nodes ==> Linked(x)
    {
      ghost var tmp := old(elm.right);
      ghost var p, b := old(elm.parent), old(tmp.left);
      assert old(Linked(elm)) == old(Linked(tmp)) == true;
      assert old(Ranged(elm)) == old(Ranged(tmp)) == true;
      assert p != null ==> old(Linked(p)) == old(Ranged(p)) == true;
      assert b != null ==> old(Linked(b)) == old(Ranged(b)) == true;
      forall x | x in nodes
        ensures Linked(x) == true
      {
        assert old(Linked(x)) == true;
      }
    }

    twostate lemma RotatedLeftRanged(elm: Node)
      requires old(Shaped()) && old(elm.right) != null && RotatedLeft(elm) && RerangedLeft(elm)
      ensures forall x {:trigger Ranged(x)} :: x in nodes ==> Ranged(x)
    {
      ghost var tmp := old(elm.right);
      ghost var p, b := old(elm.parent), old(tmp.left);
      assert old(Linked(elm)) == old(Linked(tmp)) == true;
      assert old(Ranged(elm)) == old(Ranged(tmp)) == true;
      assert p != null ==> old(Linked(p)) == old(Ranged(p)) == true;
      forall x | x in nodes
        ensures Ranged(x) == true
      {
        assert old(Linked(x)) == old(Ranged(x)) == true;
      }
    }

    twostate lemma RotatedLeftShaped(elm: Node)
      requires old(Shaped()) && old(elm.right) != null && RotatedLeft(elm) && RerangedLeft(elm)
      ensures Shaped()
    {
      RotatedLeftLinked(elm);
      RotatedLeftRanged(elm);
      ghost var tmp := old(elm.right);
      assert old(Linked(elm)) == old(Linked(tmp)) == old(Ranged(elm)) == true;
    }

    /**
     If the rotated pair satisfies the color conditions and looks the same from above, then these
     conditions hold wherever they held before.
     */
    twostate lemma RotatedLeftColored(elm: Node, new q: Node?)
      requires old(Shaped()) && old(elm.right) != null && RotatedLeft(elm)
      requires forall x {:trigger old(Colored(x))} ::
        x in old(nodes) && x != q && x != elm && x != old(elm.right) ==> old(Colored(x))
      requires var tmp := old(elm.right);
        && (forall x :: x in nodes && x != elm && x != tmp && x != old(tmp.right) ==>
              x.bh == old(x.bh) && x.color == old(x.color))
        && (forall x :: x in nodes && x == old(tmp.right) ==>
              (x.bh == old(x.bh) && x.color == old(x.color)) || Colored(x))
        && tmp.bh == old(elm.bh) && (tmp.color.Red? ==> old(elm.color.Red?))
        && (elm == q || Colored(elm)) && (tmp == q || Colored(tmp))
      ensures ColoredBut(q)
    {
      ghost var tmp := old(elm.right);
      ghost var p, b := old(elm.parent), old(tmp.left);
      assert old(Linked(elm)) == old(Linked(tmp)) == true;
      assert old(Ranged(elm)) == old(Ranged(tmp)) == true;
      forall x | x in nodes && x != q
        ensures Colored(x) == true
      {
        assert old(Linked(x)) == true;
        assert x != elm && x != tmp ==> old(Colored(x)) == true;
      }
    }

    method RelinkLeft(elm: Node) returns (tmp: Node)
      requires Shaped() && elm in nodes && elm.right != null
      modifies this`root, nodes`left, nodes`right, nodes`parent
      ensures tmp == old(elm.right) && RotatedLeft(elm)
    {
      assert Linked(elm) == Linked(elm.right) == true;
      assert Ranged(elm) == Ranged(elm.right) == true;
      assert elm.parent != null ==> Linked(elm.parent) == Ranged(elm.parent) == true;
      tmp := elm.right;
      elm.right := tmp.left;
      if tmp.left != null {
        tmp.left.parent := elm;
      }
      tmp.parent := elm.parent;
      if tmp.parent != null {
        if elm == elm.parent.left {
          elm.parent.left := tmp;
        } else {
          elm.parent.right := tmp;
        }
      } else {
        root := tmp;
      }
      tmp.left := elm;
      elm.parent := tmp;
    }

    method RotateLeft(elm: Node) returns (tmp: Node)
      requires Shaped() && elm in nodes && elm.right != null
      modifies this`root, nodes`left, nodes`right, nodes`parent, nodes`lo, nodes`hi
      ensures tmp == old(elm.right) && RotatedLeft(elm) && RerangedLeft(elm) && Shaped()
    {
      assert Linked(elm) == true;
      assert Linked(elm.right) == true;
      tmp := RelinkLeft(elm);
      tmp.lo, elm.hi := elm.lo, tmp.key;
      RotatedLeftShaped(elm);
    }

    /** Every link after the left child of `elm` was rotated above it. */
    twostate predicate RotatedRight(elm: Node)
      requires old(elm.left) != null
      reads this, nodes
    {
      var tmp := old(elm.left);
      && nodes == old(nodes) && low == old(low) && high == old(high)
      && elm in nodes && tmp in nodes
      && (forall x :: x in nodes ==> (x.right ==
            if x == tmp then elm else if x == old(elm.parent) && old(x.left) != elm then tmp else old(x.right)))
      && (forall x :: x in nodes ==> (x.left ==
            if x == elm then old(tmp.right)
            else if x == old(elm.parent) && old(x.left) == elm then tmp else old(x.left)))
      && (forall x :: x in nodes ==> (x.parent ==
            if x == elm then tmp else if x == tmp then old(elm.parent)
            else if x == old(tmp.right) then elm else old(x.parent)))
      && root == if old(elm.parent) == null then tmp else old(root)
    }

    /** The key intervals that go with `RotatedRight`. */
    twostate predicate RerangedRight(elm: Node)
      requires old(elm.left) != null
      reads this, nodes
    {
      var tmp := old(elm.left);
      && nodes == old(nodes) && low == old(low) && high == old(high)
      && (forall x :: x in nodes ==> x.hi == if x == tmp then old(elm.hi) else old(x.hi))
      && (forall x :: x in nodes ==> x.lo == if x == elm then tmp.key else old(x.lo))
    }

    twostate lemma RotatedRightLinked(elm: Node)
      requires old(Shaped()) && old(elm.left) != null && RotatedRight(elm)
      ensures forall x {:trigger Linked(x)} :: x in nodes ==> Linked(x)
    {
      ghost var tmp := old(elm.left);
      ghost var p, b := old(elm.parent), old(tmp.right);
      assert old(Linked(elm)) == old(Linked(tmp)) == true;
      assert old(Ranged(elm)) == old(Ranged(tmp)) == true;
      assert p != null ==> old(Linked(p)) == old(Ranged(p)) == true;
      assert b != null ==> old(Linked(b)) == old(Ranged(b)) == true;
      forall x | x in nodes
        ensures Linked(x) == true
      {
        assert old(Linked(x)) == true;
      }
    }

    twostate lemma RotatedRightRanged(elm: Node)
      requires old(Shaped()) && old(elm.left) != null && RotatedRight(elm) && RerangedRight(elm)
      ensures forall x {:trigger Ranged(x)} :: x in nodes ==> Ranged(x)
    {
      ghost var tmp := old(elm.left);
      ghost var p, b := old(elm.parent), old(tmp.right);
      assert old(Linked(elm)) == old(Linked(tmp)) == true;
      assert old(Ranged(elm)) == old(Ranged(tmp)) == true;
      assert p != null ==> old(Linked(p)) == old(Ranged(p)) == true;
      forall x | x in nodes
        ensures Ranged(x) == true
      {
        assert old(Linked(x)) == old(Ranged(x)) == true;
      }
    }

    twostate lemma RotatedRightShaped(elm: Node)
      requires old(Shaped()) && old(elm.left) != null && RotatedRight(elm) && RerangedRight(elm)
      ensures Shaped()
    {
      RotatedRightLinked(elm);
      RotatedRightRanged(elm);
      ghost var tmp := old(elm.left);
      assert old(Linked(elm)) == old(Linked(tmp)) == old(Ranged(elm)) == true;
    }

    /**
     If the rotated pair satisfies the color conditions and looks the same from above, then these
     conditions hold wherever they held before.
     */
    twostate lemma RotatedRightColored(elm: Node, new q: Node?)
      requires old(Shaped()) && old(elm.left) != null && RotatedRight(elm)
      requires forall x {:trigger old(Colored(x))} ::
        x in old(nodes) && x != q && x != elm && x != old(elm.left) ==> old(Colored(x))
      requires var tmp := old(elm.left);
        && (forall x :: x in nodes && x != elm && x != tmp && x != old(tmp.left) ==>
              x.bh == old(x.bh) && x.color == old(x.color))
        && (forall x :: x in nodes && x == old(tmp.left) ==>
              (x.bh == old(x.bh) && x.color == old(x.color)) || Colored(x))
        && tmp.bh == old(elm.bh) && (tmp.color.Red? ==> old(elm.color.Red?))
        && (elm == q || Colored(elm)) && (tmp == q || Colored(tmp))
      ensures ColoredBut(q)
    {
      ghost var tmp := old(elm.left);
      ghost var p, b := old(elm.parent), old(tmp.right);
      assert old(Linked(elm)) == old(Linked(tmp)) == true;
      assert old(Ranged(elm)) == old(Ranged(tmp)) == true;
      forall x | x in nodes && x != q
        ensures Colored(x) == true
      {
        assert old(Linked(x)) == true;
        assert x != elm && x != tmp ==> old(Colored(x)) == true;
      }
    }

    method RelinkRight(elm: Node) returns (tmp: Node)
      requires Shaped() && elm in nodes && elm.left != null
      modifies this`root, nodes`right, nodes`left, nodes`parent
      ensures tmp == old(elm.left) && RotatedRight(elm)
    {
      assert Linked(elm) == Linked(elm.left) == true;
      assert Ranged(elm) == Ranged(elm.left) == true;
      assert elm.parent != null ==> Linked(elm.parent) == Ranged(elm.parent) == true;
      tmp := elm.left;
      elm.left := tmp.right;
      if tmp.right != null {
        tmp.right.parent := elm;
      }
      tmp.parent := elm.parent;
      if tmp.parent != null {
        if elm == elm.parent.left {
          elm.parent.left := tmp;
        } else {
          elm.parent.right := tmp;
        }
      } else {
        root := tmp;
      }
      tmp.right := elm;
      elm.parent := tmp;
    }

    method RotateRight(elm: Node) returns (tmp: Node)
      requires Shaped() && elm in nodes && elm.left != null
      modifies this`root, nodes`right, nodes`left, nodes`parent, nodes`hi, nodes`lo
      ensures tmp == old(elm.left) && RotatedRight(elm) && RerangedRight(elm) && Shaped()
    {
      assert Linked(elm) == true;
      assert Linked(elm.left) == true;
      tmp := RelinkRight(elm);
      tmp.hi, elm.lo := elm.hi, tmp.key;
      RotatedRightShaped(elm);
    }

    // ---------- The tree that the nodes form ----------

    ghost function TreeOf(n: Node?): Tree
      requires Shaped() && (n == null || n in nodes)
      reads this, nodes
      decreases if n == null then 0 else n.hi - n.lo
    {
      if n == null then Leaf
      else
        assert Linked(n) && Ranged(n);
        assert (n.left != null ==> Ranged(n.left)) && (n.right != null ==> Ranged(n.right));
        Fork(TreeOf(n.left), n, n.color, TreeOf(n.right))
    }

    ghost function Contents(): seq<Node>
      requires Shaped()
      reads this, nodes
    {
      InOrder(TreeOf(root))
    }

    lemma {:induction false} TreeSorted(n: Node?)
      requires Shaped() && (n == null || n in nodes)
      ensures Sorted(InOrder(TreeOf(n)))
      ensures forall x :: x in InOrder(TreeOf(n)) ==> n != null && x in nodes && n.lo < x.key < n.hi
      decreases if n == null then 0 else n.hi - n.lo
    {
      if n != null {
        assert Linked(n) == Ranged(n) == true;
        assert n.left != null ==> Ranged(n.left) == true;
        assert n.right != null ==> Ranged(n.right) == true;
        TreeSorted(n.left);
        TreeSorted(n.right);
        SortedJoin(InOrder(TreeOf(n.left)), n, InOrder(TreeOf(n.right)));
      }
    }

    lemma {:induction false} Climb(n: Node, x: Node)
      requires Shaped() && n in nodes && x in InOrder(TreeOf(n))
      ensures root != null && x in InOrder(TreeOf(root))
      decreases high - low - (n.hi - n.lo)
    {
      assert Linked(n) == Ranged(n) == true;
      if n.parent != null {
        assert Linked(n.parent) == Ranged(n.parent) == true;
        Climb(n.parent, x);
      }
    }

    /** The tree holds exactly the nodes. */
    lemma ContentsNodes()
      requires Shaped()
      ensures Sorted(Contents())
      ensures forall x :: x in Contents() ==> x in nodes
      ensures forall x :: x in nodes ==> x in Contents()
    {
      TreeSorted(root);
      forall x | x in nodes ensures x in Contents() {
        Climb(x, x);
      }
    }

    /** A node whose key lies in the interval of `n` is below `n`. */
    lemma {:induction false} Covers(n: Node, x: Node)
      requires Shaped() && n in nodes && x in nodes && n.lo < x.key < n.hi
      ensures x in InOrder(TreeOf(n))
      decreases high - low - (n.hi - n.lo)
    {
      assert Linked(n) == Ranged(n) == true;
      var p := n.parent;
      if p == null {
        ContentsNodes();
      } else {
        assert Linked(p) == Ranged(p) == true;
        Covers(p, x);
        TreeSorted(p.left);
        TreeSorted(p.right);
      }
    }

    /** Where `n` has no left child, no node has a key between `n.lo` and `n.key`. */
    lemma GapLeft(n: Node, x: Node)
      requires Shaped() && n in nodes && x in nodes && n.left == null
      ensures !(n.lo < x.key < n.key)
    {
      assert Linked(n) == Ranged(n) == true;
      if n.lo < x.key < n.key {
        Covers(n, x);
        TreeSorted(n.right);
      }
    }

    lemma GapRight(n: Node, x: Node)
      requires Shaped() && n in nodes && x in nodes && n.right == null
      ensures !(n.key < x.key < n.hi)
    {
      assert Linked(n) == Ranged(n) == true;
      if n.key < x.key < n.hi {
        Covers(n, x);
        TreeSorted(n.left);
      }
    }

    lemma {:induction false} TreeColored(n: Node?)
      requires Shaped() && (n == null || n in nodes) && ColoredBut(null)
      ensures RedHasBlackChildren(TreeOf(n)) && BlackOnAllPaths(TreeOf(n), Bh(n))
      ensures RedRoot(TreeOf(n)) == IsRed(n)
      decreases if n == null then 0 else n.hi - n.lo
    {
      if n != null {
        assert Linked(n) == Ranged(n) == Colored(n) == true;
        assert n.left != null ==> Ranged(n.left) == true;
        assert n.right != null ==> Ranged(n.right) == true;
        TreeColored(n.left);
        TreeColored(n.right);
      }
    }

    /** What the operations keep. */
    ghost predicate Valid()
      reads this, nodes
    {
      Shaped() && ColoredBut(null) && !IsRed(root)
    }

    /** A valid structure is a red-black search tree in the sense of uv/tree.h:53-61. */
    lemma ValidIsRedBlack()
      requires Valid()
      ensures RedBlack(TreeOf(root)) && Sorted(Contents())
      ensures Pow2(Height(TreeOf(root))) <= (|nodes| + 1) * (|nodes| + 1)
    {
      TreeColored(root);
      ContentsNodes();
      HeightBound(TreeOf(root));
      SortedSize(Contents(), nodes);
    }

    // ---------- Insertion ----------

    /** The color conditions at `x`, were its child `elm` black. */
    ghost predicate ColoredSave(x: Node, elm: Node)
      reads this, nodes, x
    {
      && Balanced(x)
      && (x.color.Red? ==> (x.left == elm || !IsRed(x.left)) && (x.right == elm || !IsRed(x.right)))
    }

    /** The tree is red-black, except that the red node `elm` may be the root or have a red parent. */
    ghost predicate RedAt(elm: Node)
      reads this, nodes
    {
      && Shaped() && elm in nodes && elm.color.Red?
      && ColoredBut(elm.parent)
      && (elm.parent != null && elm.parent in nodes ==> ColoredSave(elm.parent, elm))
      && (root != elm ==> !IsRed(root))
    }

    /** RB_SET_BLACKRED */
    method SetBlackRed(black: Node, red: Node)
      requires black in nodes && red in nodes && black != red
      modifies black`color, red`color
      ensures black.color.Black? && red.color.Red?
    {
      black.color := Black;
      red.color := Red;
    }

    /** The colors after the red of `tmp` and its sibling moved up to their parent. */
    twostate predicate Flipped(tmp: Node)
      reads this, nodes
    {
      var gparent := old(tmp.parent);
      && SameLinks()
      && gparent != null && gparent in nodes && tmp in nodes && gparent.left != null && gparent.right != null
      && (forall x :: x in nodes ==>
            x.color == if x == gparent.left || x == gparent.right then Black
                       else if x == gparent then Red else old(x.color))
      && (forall x :: x in nodes ==>
            x.bh == if x == gparent.left || x == gparent.right then old(x.bh) + 1 else old(x.bh))
    }

    twostate lemma FlippedColored(tmp: Node)
      requires old(Shaped()) && Flipped(tmp)
      requires var gparent := old(tmp.parent);
        && old(IsRed(gparent.left) && Balanced(gparent.left))
        && old(IsRed(gparent.right) && Balanced(gparent.right))
        && (forall x {:trigger old(Colored(x))} ::
              x in old(nodes) && x != old(gparent.left) && x != old(gparent.right) ==> old(Colored(x)))
      ensures ColoredBut(old(tmp.parent.parent))
      ensures var q := old(tmp.parent.parent); q != null && q in nodes ==> ColoredSave(q, old(tmp.parent))
    {
      ghost var gparent := old(tmp.parent);
      ghost var q := gparent.parent;
      ghost var l, r := old(gparent.left), old(gparent.right);
      assert old(Linked(gparent)) == old(Linked(l)) == old(Linked(r)) == true;
      assert old(Ranged(gparent)) == old(Colored(gparent)) == true;
      assert old(Ranged(l)) == old(Ranged(r)) == true;
      assert q != null ==> old(Linked(q)) == old(Ranged(q)) == old(Colored(q)) == true;
      forall x | x in nodes && x != q
        ensures Colored(x) == true
      {
        assert old(Linked(x)) == true;
        assert x != l && x != r ==> old(Colored(x)) == true;
      }
    }

    /** The uncle is red: the red of `parent` and of `tmp` moves up to the grandparent. */
    method FlipColors(elm: Node, parent: Node, tmp: Node, gparent: Node)
      requires RedAt(elm) && parent == elm.parent && gparent == parent.parent && parent.color.Red?
      requires (parent == gparent.left && tmp == gparent.right) || (parent == gparent.right && tmp == gparent.left)
      requires tmp.color.Red?
      modifies nodes`color, nodes`bh
      ensures RedAt(gparent) && SameLinks()
    {
      assert Linked(elm) == Linked(parent) == Linked(gparent) == true;
      assert Ranged(elm) == Ranged(parent) == Ranged(gparent) == true;
      assert Colored(gparent) == Colored(tmp) == true;
      tmp.color := Black;
      tmp.bh, parent.bh := tmp.bh + 1, parent.bh + 1;
      SetBlackRed(parent, gparent);
      SameLinksShaped();
      FlippedColored(tmp);
      assert root != gparent ==> root != parent && root != tmp && !IsRed(root);
    }

    /** The colors and black heights after `gparent` turned red and its left child black. */
    twostate predicate RecoloredLeft(gparent: Node)
      requires old(gparent.left) != null
      reads this, nodes
    {
      var parent := old(gparent.left);
      && nodes == old(nodes) && parent in nodes && gparent in nodes
      && (forall x :: x in nodes ==>
            x.color == if x == parent then Black else if x == gparent then Red else old(x.color))
      && (forall x :: x in nodes ==>
            x.bh == if x == parent then old(gparent.bh) else if x == gparent then old(parent.bh) else old(x.bh))
    }

    twostate lemma RaisedLeftColored(gparent: Node, new q: Node?)
      requires old(Shaped()) && old(gparent.left) != null && RotatedRight(gparent) && RecoloredLeft(gparent)
      requires var parent := old(gparent.left);
        old(Colored(gparent) && Balanced(parent) && IsRed(parent) && !IsRed(parent.right) && !IsRed(gparent.right))
      requires forall x {:trigger old(Colored(x))} ::
        x in old(nodes) && x != q && x != old(gparent.left) ==> old(Colored(x))
      ensures ColoredBut(q)
    {
      ghost var parent := old(gparent.left);
      ghost var elm, s, u := old(parent.left), old(parent.right), old(gparent.right);
      assert old(Linked(parent)) == old(Linked(gparent)) == true;
      assert old(Ranged(parent)) == old(Ranged(gparent)) == true;
      assert gparent.left == s && gparent.right == u && parent.left == elm && parent.right == gparent;
      assert s != null ==> old(Linked(s)) == true;
      assert u != null ==> old(Linked(u)) == true;
      assert elm != null ==> old(Linked(elm)) == true;
      assert Bh(s) == old(Bh(s)) && Bh(u) == old(Bh(u)) && Bh(elm) == old(Bh(elm));
      RotatedRightColored(gparent, q);
    }

    /** RB_SET_BLACKRED and RB_ROTATE_RIGHT at the grandparent: `parent` rises above `gparent`. */
    method RaiseLeft(elm: Node, parent: Node, gparent: Node)
      requires RedAt(elm) && parent == elm.parent && gparent == parent.parent
      requires parent.left == elm && gparent.left == parent && parent.color.Red? && !IsRed(gparent.right)
      modifies this`root, nodes
      ensures RedAt(elm) && parent == elm.parent && parent.color.Black?
    {
      assert Linked(elm) == Linked(parent) == Linked(gparent) == true;
      assert Ranged(elm) == Ranged(parent) == Ranged(gparent) == true;
      assert Colored(gparent) == true;
      SetBlackRed(parent, gparent);
      parent.bh, gparent.bh := gparent.bh, parent.bh;
      SameLinksShaped();
      var tmp := RotateRight(gparent);
      RaisedLeftColored(gparent, null);
      assert elm.parent == parent && elm.color.Red? && elm in nodes;
      assert Colored(parent) == true;
      assert !IsRed(root);
    }

    /** RB_ROTATE_LEFT at the red parent: `elm` and `parent` change places. */
    method StraightenLeft(elm: Node, parent: Node)
      requires RedAt(elm) && parent == elm.parent && parent.right == elm && parent.color.Red?
      modifies this`root, nodes`left, nodes`right, nodes`parent, nodes`lo, nodes`hi
      ensures RedAt(parent) && elm == parent.parent && elm.color.Red? && elm.left == parent
      ensures elm.parent == old(parent.parent)
      ensures elm.parent != null && elm.parent in nodes && old(parent.parent.left == parent) ==>
        elm.parent.left == elm && elm.parent.right == old(parent.parent.right)
      ensures forall x :: x in nodes && x != elm && x != parent ==> x.lo == old(x.lo) && x.hi == old(x.hi)
    {
      assert Linked(elm) == Linked(parent) == true;
      assert Ranged(elm) == Ranged(parent) == true;
      assert Colored(elm) == true;
      assert parent.parent != null ==> Linked(parent.parent) == Colored(parent.parent) == true;
      var tmp := RotateLeft(parent);
      RotatedLeftColored(parent, elm);
    }

    /** The colors and black heights after `gparent` turned red and its right child black. */
    twostate predicate RecoloredRight(gparent: Node)
      requires old(gparent.right) != null
      reads this, nodes
    {
      var parent := old(gparent.right);
      && nodes == old(nodes) && parent in nodes && gparent in nodes
      && (forall x :: x in nodes ==>
            x.color == if x == parent then Black else if x == gparent then Red else old(x.color))
      && (forall x :: x in nodes ==>
            x.bh == if x == parent then old(gparent.bh) else if x == gparent then old(parent.bh) else old(x.bh))
    }

    twostate lemma RaisedRightColored(gparent: Node, new q: Node?)
      requires old(Shaped()) && old(gparent.right) != null && RotatedLeft(gparent) && RecoloredRight(gparent)
      requires var parent := old(gparent.right);
        old(Colored(gparent) && Balanced(parent) && IsRed(parent) && !IsRed(parent.left) && !IsRed(gparent.left))
      requires forall x {:trigger old(Colored(x))} ::
        x in old(nodes) && x != q && x != old(gparent.right) ==> old(Colored(x))
      ensures ColoredBut(q)
    {
      ghost var parent := old(gparent.right);
      ghost var elm, s, u := old(parent.right), old(parent.left), old(gparent.left);
      assert old(Linked(parent)) == old(Linked(gparent)) == true;
      assert old(Ranged(parent)) == old(Ranged(gparent)) == true;
      assert gparent.right == s && gparent.left == u && parent.right == elm && parent.left == gparent;
      assert s != null ==> old(Linked(s)) == true;
      assert u != null ==> old(Linked(u)) == true;
      assert elm != null ==> old(Linked(elm)) == true;
      assert Bh(s) == old(Bh(s)) && Bh(u) == old(Bh(u)) && Bh(elm) == old(Bh(elm));
      RotatedLeftColored(gparent, q);
    }

    /** RB_SET_BLACKRED and RB_ROTATE_LEFT at the grandparent: `parent` rises above `gparent`. */
    method RaiseRight(elm: Node, parent: Node, gparent: Node)
      requires RedAt(elm) && parent == elm.parent && gparent == parent.parent
      requires parent.right == elm && gparent.right == parent && parent.color.Red? && !IsRed(gparent.left)
      modifies this`root, nodes
      ensures RedAt(elm) && parent == elm.parent && parent.color.Black?
    {
      assert Linked(elm) == Linked(parent) == Linked(gparent) == true;
      assert Ranged(elm) == Ranged(parent) == Ranged(gparent) == true;
      assert Colored(gparent) == true;
      SetBlackRed(parent, gparent);
      parent.bh, gparent.bh := gparent.bh, parent.bh;
      SameLinksShaped();
      var tmp := RotateLeft(gparent);
      RaisedRightColored(gparent, null);
      assert elm.parent == parent && elm.color.Red? && elm in nodes;
      assert Colored(parent) == true;
      assert !IsRed(root);
    }

    /** RB_ROTATE_RIGHT at the red parent: `elm` and `parent` change places. */
    method StraightenRight(elm: Node, parent: Node)
      requires RedAt(elm) && parent == elm.parent && parent.left == elm && parent.color.Red?
      modifies this`root, nodes`right, nodes`left, nodes`parent, nodes`hi, nodes`lo
      ensures RedAt(parent) && elm == parent.parent && elm.color.Red? && elm.right == parent
      ensures elm.parent == old(parent.parent)
      ensures elm.parent != null && elm.parent in nodes && old(parent.parent.right == parent) ==>
        elm.parent.right == elm && elm.parent.left == old(parent.parent.left)
      ensures forall x :: x in nodes && x != elm && x != parent ==> x.hi == old(x.hi) && x.lo == old(x.lo)
    {
      assert Linked(elm) == Linked(parent) == true;
      assert Ranged(elm) == Ranged(parent) == true;
      assert Colored(elm) == true;
      assert parent.parent != null ==> Linked(parent.parent) == Colored(parent.parent) == true;
      var tmp := RotateRight(parent);
      RotatedRightColored(parent, elm);
    }

    /** RB_COLOR(head->rbh_root) = RB_BLACK */
    method BlackenRoot()
      requires Shaped() && ColoredBut(null) && root != null
      modifies root`color, root`bh
      ensures Shaped() && ColoredBut(null) && !IsRed(root)
    {
      assert Linked(root) == Colored(root) == true;
      root.bh := root.bh + (if root.color.Red? then 1 else 0);
      root.color := Black;
      SameLinksShaped();
      forall x | x in nodes
        ensures Colored(x) == true
      {
        assert old(Linked(x)) == old(Colored(x)) == true;
      }
    }

    /** RB_INSERT_COLOR */
    method InsertColor(inserted: Node)
      requires RedAt(inserted)
      modifies this`root, nodes
      ensures Shaped() && ColoredBut(null) && !IsRed(root)
    {
      var elm: Node := inserted;
      while elm.parent != null && elm.parent.color.Red?
        invariant RedAt(elm)
        decreases if elm.parent != null && elm.parent.color.Red? then high - low - (elm.hi - elm.lo) else -1
      {
        var parent := elm.parent;
        assert Linked(elm) == Linked(parent) == Ranged(elm) == Ranged(parent) == true;
        var gparent := parent.parent;
        assert gparent != null;
        assert Linked(gparent) == Ranged(gparent) == true;
        if parent == gparent.left {
          var tmp := gparent.right;
          if tmp != null && tmp.color.Red? {
            FlipColors(elm, parent, tmp, gparent);
            elm := gparent;
            continue;
          }
          if parent.right == elm {
            StraightenLeft(elm, parent);
            elm, parent := parent, elm;
          }
          RaiseLeft(elm, parent, gparent);
        } else {
          var tmp := gparent.left;
          if tmp != null && tmp.color.Red? {
            FlipColors(elm, parent, tmp, gparent);
            elm := gparent;
            continue;
          }
          if parent.left == elm {
            StraightenRight(elm, parent);
            elm, parent := parent, elm;
          }
          RaiseRight(elm, parent, gparent);
        }
      }
      assert Linked(elm) == true;
      assert elm.parent != null ==> Colored(elm.parent) == true;
      BlackenRoot();
    }

    /** Makes room for the key `k` between `low` and `high`. */
    ghost method Widen(k: int)
      requires Shaped()
      modifies this`low, this`high, nodes`lo, nodes`hi
      ensures Shaped() && low < k < high
      ensures old(ColoredBut(null)) ==> ColoredBut(null)
      ensures forall x :: x in nodes ==> x.lo == (if old(x.lo == low) then low else old(x.lo))
      ensures forall x :: x in nodes ==> x.hi == (if old(x.hi == high) then high else old(x.hi))
    {
      var l, h := if k <= low then k - 1 else low, if high <= k then k + 1 else high;
      forall x | x in nodes {
        x.lo := if x.lo == low then l else x.lo;
      }
      forall x | x in nodes {
        x.hi := if x.hi == high then h else x.hi;
      }
      low, high := l, h;
      forall x | x in nodes
        ensures Linked(x) == Ranged(x) == true
        ensures old(ColoredBut(null)) ==> Colored(x) == true
      {
        assert old(Linked(x)) == old(Ranged(x)) == true;
        assert old(ColoredBut(null)) ==> old(Colored(x)) == true;
      }
    }

    /** `elm` became a red leaf in a free place below `elm.parent`. */
    twostate predicate Attached(elm: Node)
      reads this, nodes, elm
    {
      var parent := elm.parent;
      && elm !in old(nodes) && nodes == old(nodes) + {elm} && low == old(low) && high == old(high)
      && elm.left == null && elm.right == null && elm.color.Red? && elm.bh == 0
      && (if parent == null then
            root == elm && old(root) == null && elm.lo == low && elm.hi == high
          else
            && parent in old(nodes) && root == old(root)
            && (if elm.key < parent.key then
                  old(parent.left) == null && elm.lo == parent.lo && elm.hi == parent.key
                else old(parent.right) == null && elm.lo == parent.key && elm.hi == parent.hi))
      && elm.lo < elm.key < elm.hi
      && (forall x :: x in old(nodes) ==> x.key != elm.key && x.lo == old(x.lo) && x.hi == old(x.hi))
      && (forall x :: x in old(nodes) ==>
            x.left == if x == parent && elm.key < x.key then elm else old(x.left))
      && (forall x :: x in old(nodes) ==>
            x.right == if x == parent && x.key < elm.key then elm else old(x.right))
      && (forall x :: x in old(nodes) ==>
            x.parent == old(x.parent) && x.color == old(x.color) && x.bh == old(x.bh))
    }

    twostate lemma AttachedShaped(elm: Node)
      requires old(Valid()) && Attached(elm)
      ensures Shaped()
    {
      ghost var p := elm.parent;
      assert p != null ==> old(Linked(p)) == old(Ranged(p)) == true;
      forall x | x in nodes
        ensures Linked(x) == Ranged(x) == true
      {
        assert x != elm ==> old(Linked(x)) == old(Ranged(x)) == true;
      }
    }

    twostate lemma AttachedRedAt(elm: Node)
      requires old(Valid()) && Attached(elm)
      ensures RedAt(elm)
    {
      AttachedShaped(elm);
      ghost var p := elm.parent;
      assert p != null ==> old(Linked(p)) == old(Colored(p)) == true;
      assert old(root) != null ==> old(Linked(root)) == true;
      forall x | x in nodes
        ensures x != p ==> Colored(x) == true
        ensures x == p ==> ColoredSave(x, elm) == true
      {
        assert x != elm ==> old(Linked(x)) == old(Colored(x)) == true;
      }
    }

    /** RB_SET and the hook below `parent`, on the side that `comp` tells. */
    method Attach(elm: Node, parent: Node?, comp: int)
      requires Valid() && elm !in nodes && low < elm.key < high
      requires forall x :: x in nodes ==> x.key != elm.key
      requires parent == null ==> root == null
      requires parent != null ==> parent in nodes && parent.lo < elm.key < parent.hi && comp != 0
      requires parent != null && comp < 0 ==> elm.key < parent.key && parent.left == null
      requires parent != null && comp > 0 ==> parent.key < elm.key && parent.right == null
      modifies this`root, this`nodes, elm, if parent == null then {} else {parent}
      ensures nodes == old(nodes) + {elm} && RedAt(elm)
    {
      elm.parent := parent;
      elm.left, elm.right := null, null;
      elm.color := Red;
      elm.bh := 0;
      if parent != null {
        if comp < 0 {
          parent.left := elm;
          elm.lo, elm.hi := parent.lo, parent.key;
        } else {
          parent.right := elm;
          elm.lo, elm.hi := parent.key, parent.hi;
        }
      } else {
        root := elm;
        elm.lo, elm.hi := low, high;
      }
      nodes := nodes + {elm};
      AttachedRedAt(elm);
    }

    /** The part of RB_INSERT after the search: `elm` belongs in the free place below `parent`. */
    method InsertBelow(elm: Node, parent: Node?, comp: int)
      requires Valid() && elm !in nodes
      requires forall x :: x in nodes ==> x.key != elm.key
      requires parent == null ==> root == null
      requires parent != null ==> parent in nodes && comp == elm.key - parent.key
      requires parent != null ==> (if comp < 0 then parent.left else parent.right) == null
      requires parent != null ==> parent.lo < elm.key || parent.lo == low
      requires parent != null ==> elm.key < parent.hi || parent.hi == high
      modifies this, nodes, elm
      ensures Valid() && nodes == old(nodes) + {elm}
      ensures Contents() == SortedInsert(old(Contents()), elm)
    {
      ghost var before, olds := Contents(), nodes;
      ContentsNodes();
      Widen(elm.key);
      Attach(elm, parent, comp);
      InsertColor(elm);
      ContentsNodes();
      InsertedOnce(before, olds, elm, Contents());
    }

    /** RB_INSERT */
    method Insert(elm: Node) returns (r: Node?)
      requires Valid()
      modifies this, nodes, elm
      ensures Valid()
      ensures r != null ==> r in nodes && r.key == elm.key && unchanged(this, old(nodes), elm)
      ensures r == null ==>
        && (forall x :: x in old(nodes) ==> x.key != elm.key)
        && nodes == old(nodes) + {elm}
        && Contents() == SortedInsert(old(Contents()), elm)
    {
      var parent: Node? := null;
      var comp := 0;
      var tmp := root;
      while tmp != null
        invariant tmp != null ==> tmp in nodes
        invariant tmp != null ==> (tmp.lo < elm.key || tmp.lo == low) && (elm.key < tmp.hi || tmp.hi == high)
        invariant parent == null ==> tmp == root
        invariant parent != null ==>
          && parent in nodes && comp == elm.key - parent.key != 0
          && tmp == (if comp < 0 then parent.left else parent.right)
          && (parent.lo < elm.key || parent.lo == low) && (elm.key < parent.hi || parent.hi == high)
        decreases if tmp == null then 0 else tmp.hi - tmp.lo
      {
        assert Linked(tmp) == Ranged(tmp) == true;
        parent := tmp;
        comp := elm.key - parent.key;
        if comp < 0 {
          tmp := tmp.left;
        } else if comp > 0 {
          tmp := tmp.right;
        } else {
          return tmp;
        }
        assert tmp != null ==> Ranged(tmp) == true;
      }
      forall x | x in nodes ensures x.key != elm.key {
        assert Ranged(x) == true;
        if parent != null && comp < 0 {
          GapLeft(parent, x);
        } else if parent != null {
          GapRight(parent, x);
        }
      }
      InsertBelow(elm, parent, comp);
      return null;
    }

    // ---------- Queries ----------

    /** No node has a key strictly between `a` and `b`. */
    ghost predicate Gap(a: int, b: int)
      reads this, nodes
    {
      forall x :: x in nodes ==> x.key <= a || b <= x.key
    }

    lemma LeftGap(n: Node)
      requires Shaped() && n in nodes && n.left == null
      ensures Gap(n.lo, n.key)
    {
      forall x | x in nodes ensures x.key <= n.lo || n.key <= x.key {
        GapLeft(n, x);
      }
    }

    lemma RightGap(n: Node)
      requires Shaped() && n in nodes && n.right == null
      ensures Gap(n.key, n.hi)
    {
      forall x | x in nodes ensures x.key <= n.key || n.hi <= x.key {
        GapRight(n, x);
      }
    }

    lemma AllRanged()
      requires Shaped()
      ensures forall x :: x in nodes ==> low < x.key < high
    {
      forall x | x in nodes ensures low < x.key < high {
        assert Ranged(x) == true;
      }
    }

    lemma StepsBound(steps: nat)
      requires Valid() && steps <= HeightAt(root)
      ensures Pow2(steps) <= (|nodes| + 1) * (|nodes| + 1)
    {
      ValidIsRedBlack();
      Pow2Grows(steps, Height(TreeOf(root)));
    }

    ghost function HeightAt(n: Node?): nat
      requires Shaped() && (n == null || n in nodes)
      reads this, nodes
    {
      Height(TreeOf(n))
    }

    lemma LowerBelow(n: Node)
      requires Shaped() && n in nodes
      ensures n.left != null ==> n.left in nodes
      ensures n.right != null ==> n.right in nodes
      ensures HeightAt(n.left) < HeightAt(n) && HeightAt(n.right) < HeightAt(n)
    {
      assert Linked(n) == true;
    }

    /** RB_FIND; `steps` counts the rounds of its loop. */
    method Find(elm: Node) returns (r: Node?, ghost steps: nat)
      requires Valid()
      ensures r != null ==> r in nodes && r.key == elm.key
      ensures r == null ==> forall x :: x in nodes ==> x.key != elm.key
      ensures Pow2(steps) <= (|nodes| + 1) * (|nodes| + 1)
    {
      AllRanged();
      steps := 0;
      ghost var total := HeightAt(root);
      ghost var left := total;
      ghost var a, b := low, high;
      var tmp := root;
      while tmp != null
        invariant tmp != null ==> tmp in nodes && tmp.lo == a && tmp.hi == b
        invariant tmp == null ==> Gap(a, b)
        invariant (a < elm.key || a == low) && (elm.key < b || b == high)
        invariant left == HeightAt(tmp) && steps + left <= total
        decreases left
      {
        assert Linked(tmp) == Ranged(tmp) == true;
        LowerBelow(tmp);
        steps := steps + 1;
        var comp := elm.key - tmp.key;
        if comp == 0 {
          StepsBound(steps);
          return tmp, steps;
        }
        if comp < 0 {
          b := tmp.key;
          if tmp.left == null {
            LeftGap(tmp);
          }
          tmp := tmp.left;
        } else {
          a := tmp.key;
          if tmp.right == null {
            RightGap(tmp);
          }
          tmp := tmp.right;
        }
        left := HeightAt(tmp);
      }
      StepsBound(steps);
      return null, steps;
    }

    /** RB_NFIND: the least node that is not below the key of `elm`. */
    method NFind(elm: Node) returns (res: Node?)
      requires Valid()
      ensures res == null ==> forall x :: x in nodes ==> x.key < elm.key
      ensures res != null ==> res in nodes && elm.key <= res.key
      ensures res != null ==> forall x :: x in nodes ==> x.key < elm.key || res.key <= x.key
    {
      AllRanged();
      ghost var a, b := low, high;
      var tmp := root;
      res := null;
      while tmp != null
        invariant tmp != null ==> tmp in nodes && tmp.lo == a && tmp.hi == b
        invariant tmp == null ==> Gap(a, b)
        invariant (a < elm.key || a == low) && (elm.key < b || b == high)
        invariant if res == null then b == high else res in nodes && res.key == b && elm.key < b
        decreases if tmp == null then 0 else tmp.hi - tmp.lo
      {
        assert Linked(tmp) == Ranged(tmp) == true;
        var comp := elm.key - tmp.key;
        if comp < 0 {
          res := tmp;
          b := tmp.key;
          if tmp.left == null {
            LeftGap(tmp);
          }
          tmp := tmp.left;
        } else if comp > 0 {
          a := tmp.key;
          if tmp.right == null {
            RightGap(tmp);
          }
          tmp := tmp.right;
        } else {
          return tmp;
        }
      }
    }

    /** RB_MINMAX */
    method MinMax(val: int) returns (parent: Node?)
      requires Valid()
      ensures parent == null <==> nodes == {}
      ensures parent != null ==> parent in nodes
      ensures parent != null && val < 0 ==> forall x :: x in nodes ==> parent.key <= x.key
      ensures parent != null && val >= 0 ==> forall x :: x in nodes ==> x.key <= parent.key
    {
      AllRanged();
      var tmp := root;
      parent := null;
      while tmp != null
        invariant tmp != null ==> tmp in nodes && (if val < 0 then tmp.lo == low else tmp.hi == high)
        invariant parent == null ==> tmp == root
        invariant parent != null ==>
          parent in nodes && (if val < 0 then parent.lo == low else parent.hi == high)
        invariant parent != null ==> tmp == if val < 0 then parent.left else parent.right
        decreases if tmp == null then 0 else tmp.hi - tmp.lo
      {
        assert Linked(tmp) == Ranged(tmp) == true;
        parent := tmp;
        if val < 0 {
          tmp := tmp.left;
        } else {
          tmp := tmp.right;
        }
      }
      if parent != null && val < 0 {
        LeftGap(parent);
      } else if parent != null {
        RightGap(parent);
      }
    }

    /** RB_NEXT: the least node above `start`. */
    method Next(start: Node) returns (elm: Node?)
      requires Valid() && start in nodes
      ensures elm == null ==> forall x :: x in nodes ==> x.key <= start.key
      ensures elm != null ==> elm in nodes && start.key < elm.key && Gap(start.key, elm.key)
    {
      AllRanged();
      assert Linked(start) == Ranged(start) == true;
      if start.right != null {
        elm := start.right;
        while elm.left != null
          invariant elm != null && elm in nodes && elm.lo == start.key
          decreases elm.hi - elm.lo
        {
          assert Linked(elm) == Ranged(elm) == true;
          elm := elm.left;
        }
        assert Ranged(elm) == true;
        LeftGap(elm);
      } else {
        RightGap(start);
        if start.parent != null && start == start.parent.left {
          assert Ranged(start.parent) == true;
          elm := start.parent;
        } else {
          elm := start;
          while elm.parent != null && elm == elm.parent.right
            invariant elm != null && elm in nodes && elm.hi == start.hi
            decreases high - low - (elm.hi - elm.lo)
          {
            assert Linked(elm) == Linked(elm.parent) == Ranged(elm.parent) == Ranged(elm) == true;
            elm := elm.parent;
          }
          assert Linked(elm) == true;
          assert elm.parent != null ==> Ranged(elm.parent) == true;
          elm := elm.parent;
        }
      }
    }

    /** RB_PREV: the greatest node below `start`. */
    method Prev(start: Node) returns (elm: Node?)
      requires Valid() && start in nodes
      ensures elm == null ==> forall x :: x in nodes ==> start.key <= x.key
      ensures elm != null ==> elm in nodes && elm.key < start.key && Gap(elm.key, start.key)
    {
      AllRanged();
      assert Linked(start) == Ranged(start) == true;
      if start.left != null {
        elm := start.left;
        while elm.right != null
          invariant elm != null && elm in nodes && elm.hi == start.key
          decreases elm.hi - elm.lo
        {
          assert Linked(elm) == Ranged(elm) == true;
          elm := elm.right;
        }
        assert Ranged(elm) == true;
        RightGap(elm);
      } else {
        LeftGap(start);
        if start.parent != null && start == start.parent.right {
          assert Ranged(start.parent) == true;
          elm := start.parent;
        } else {
          elm := start;
          while elm.parent != null && elm == elm.parent.left
            invariant elm != null && elm in nodes && elm.lo == start.lo
            decreases high - low - (elm.hi - elm.lo)
          {
            assert Linked(elm) == Linked(elm.parent) == Ranged(elm.parent) == Ranged(elm) == true;
            elm := elm.parent;
          }
          assert Linked(elm) == true;
          assert elm.parent != null ==> Ranged(elm.parent) == true;
          elm := elm.parent;
        }
      }
    }

    /** RB_FOREACH visits the contents in order, each node once. */
    method ForEach() returns (visited: seq<Node>)
      requires Valid()
      ensures visited == Contents()
    {
      AllRanged();
      ContentsNodes();
      visited := [];
      var x := MinMax(-1);
      while x != null
        invariant x != null ==> x in nodes
        invariant Sorted(visited)
        invariant forall y :: y in visited ==> y in nodes && (x != null ==> y.key < x.key)
        invariant forall y :: y in nodes && (x != null ==> y.key < x.key) ==> y in visited
        decreases if x == null then 0 else high - x.key
      {
        SortedSnoc(visited, x);
        visited := visited + [x];
        var y := Next(x);
        forall z | z in nodes && (y != null ==> z.key < y.key) ensures z in visited {
          assert Linked(z) == true;
          assert z.key == x.key ==> Unique(z, x);
        }
        x := y;
      }
      SortedUnique(visited, Contents());
    }

    /** RB_PREV undoes RB_NEXT: only one node is next below `z`. */
    lemma AdjacentUnique(x: Node, y: Node, z: Node)
      requires Shaped() && x in nodes && y in nodes
      requires x.key < z.key && Gap(x.key, z.key)
      requires y.key < z.key && Gap(y.key, z.key)
      ensures x == y
    {
      assert Unique(x, y);
    }

    /** RB_PREV behind RB_NEXT, and RB_NEXT behind RB_PREV, give back the node they started from. */
    method ThereAndBack(x: Node) returns (next: Node?, back: Node?, prev: Node?, forth: Node?)
      requires Valid() && x in nodes
      ensures if next == null then forall y :: y in nodes ==> y.key <= x.key else x.key < next.key && back == x
      ensures if prev == null then forall y :: y in nodes ==> x.key <= y.key else prev.key < x.key && forth == x
    {
      back, forth := null, null;
      next := Next(x);
      if next != null {
        back := Prev(next);
        assert back != null;
        AdjacentUnique(back, x, next);
      }
      prev := Prev(x);
      if prev != null {
        forth := Next(prev);
        assert forth != null && Unique(forth, x);
      }
    }

    // ---------- Removal: restoring the colors ----------

    /** The paths through the left child of `x` lack one black node. */
    ghost predicate LacksLeft(x: Node)
      reads this, nodes, x
    {
      && Bh(x.left) + 1 == Bh(x.right) && x.bh == Bh(x.right) + Blackness(x.color)
      && (x.color.Red? ==> !IsRed(x.right))
    }

    ghost predicate LacksRight(x: Node)
      reads this, nodes, x
    {
      && Bh(x.right) + 1 == Bh(x.left) && x.bh == Bh(x.left) + Blackness(x.color)
      && (x.color.Red? ==> !IsRed(x.left))
    }

    /**
     The tree is red-black, except that the paths through `elm` (possibly no node), a child of `parent`,
     lack one black node, and that `elm` may be red next to a red node.
     */
    ghost predicate Lacking(parent: Node?, elm: Node?)
      reads this, nodes
    {
      && Shaped()
      && (elm != null ==> elm in nodes && Balanced(elm))
      && (forall x {:trigger Colored(x)} :: x in nodes && x != parent && x != elm ==> Colored(x))
      && (if parent == null then root == elm
          else
            && parent in nodes && !IsRed(root)
            && ((parent.left == elm && LacksLeft(parent)) || (parent.right == elm && LacksRight(parent))))
    }

    /** `tmp` turned red, and it and its parent lost one black node. */
    twostate predicate PushedUp(tmp: Node)
      reads this, nodes
    {
      && SameLinks() && tmp in nodes
      && (forall x :: x in nodes ==> x.color == if x == tmp then Red else old(x.color))
      && (forall x :: x in nodes ==> x.bh == if x == tmp || x == old(tmp.parent) then old(x.bh) - 1 else old(x.bh))
    }

    /** Black `tmp`, with black children, is the sibling of a black child that lacks one black node. */
    ghost predicate FaintSibling(tmp: Node)
      requires tmp.parent != null
      reads this, nodes, tmp, tmp.parent
    {
      && Balanced(tmp) && tmp.color.Black? && !IsRed(tmp.left) && !IsRed(tmp.right)
      && ((tmp.parent.right == tmp && LacksLeft(tmp.parent) && !IsRed(tmp.parent.left))
          || (tmp.parent.left == tmp && LacksRight(tmp.parent) && !IsRed(tmp.parent.right)))
    }

    twostate lemma PushedUpColored(tmp: Node)
      requires old(Shaped()) && PushedUp(tmp) && old(tmp.parent) != null && old(FaintSibling(tmp))
      requires forall x {:trigger old(Colored(x))} ::
        x in old(nodes) && x != old(tmp.parent) ==> old(Colored(x))
      ensures forall x {:trigger Colored(x)} ::
        x in nodes && x != old(tmp.parent) && x != old(tmp.parent.parent) ==> Colored(x)
    {
      ghost var parent := old(tmp.parent);
      ghost var q := parent.parent;
      assert old(Linked(parent)) == old(Linked(tmp)) == old(Ranged(parent)) == old(Ranged(tmp)) == true;
      forall x | x in nodes && x != q && x != parent
        ensures Colored(x) == true
      {
        assert old(Linked(x)) == old(Colored(x)) == true;
      }
    }

    twostate lemma PushedUpLacking(tmp: Node)
      requires old(Shaped()) && PushedUp(tmp) && old(tmp.parent) != null && old(FaintSibling(tmp))
      requires old(!IsRed(root))
      requires forall x {:trigger old(Colored(x))} ::
        x in old(nodes) && x != old(tmp.parent) ==> old(Colored(x))
      ensures Lacking(old(tmp.parent.parent), old(tmp.parent))
    {
      SameLinksShaped();
      PushedUpColored(tmp);
      ghost var parent := old(tmp.parent);
      ghost var q := parent.parent;
      assert old(Linked(parent)) == old(Linked(tmp)) == old(Ranged(parent)) == old(Ranged(tmp)) == true;
      assert q != null ==> old(Linked(q)) == old(Ranged(q)) == old(Colored(q)) == true;
      assert parent.left != null ==> old(Linked(parent.left)) == true;
      assert parent.right != null ==> old(Linked(parent.right)) == true;
      assert Balanced(parent);
      assert q != null ==> if q.left == parent then LacksLeft(q) else LacksRight(q);
    }

    /** The sibling of `elm` turns red: now all paths through `parent` lack one black node. */
    method PushUp(parent: Node, elm: Node?, tmp: Node)
      requires Lacking(parent, elm) && !IsRed(elm) && tmp in nodes && tmp.color.Black?
      requires (parent.left == elm && parent.right == tmp) || (parent.right == elm && parent.left == tmp)
      requires !IsRed(tmp.left) && !IsRed(tmp.right)
      modifies tmp`color, tmp`bh, parent`bh
      ensures Lacking(parent.parent, parent) && SameLinks() && parent.color == old(parent.color)
    {
      assert Linked(parent) == Linked(tmp) == true;
      assert elm != null ==> Linked(elm) == Colored(elm) == true;
      assert Colored(tmp) == true;
      assert FaintSibling(tmp) == true;
      tmp.color := Red;
      tmp.bh, parent.bh := tmp.bh - 1, parent.bh - 1;
      PushedUpLacking(tmp);
    }

    /** `elm` turns black at the end of RB_REMOVE_COLOR. */
    method Blacken(ghost parent: Node?, elm: Node?)
      requires Lacking(parent, elm) && (IsRed(elm) || elm == root)
      modifies if elm == null then {} else {elm}
      ensures Shaped() && ColoredBut(null) && !IsRed(root)
    {
      if elm != null {
        assert Linked(elm) == Ranged(elm) == true;
        assert parent != null ==> Linked(parent) == Ranged(parent) == true;
        elm.bh := elm.bh + (if elm.color.Red? then 1 else 0);
        elm.color := Black;
        SameLinksShaped();
        forall x | x in nodes
          ensures Colored(x) == true
        {
          assert old(Linked(x)) == true;
          assert x != elm && x != parent ==> old(Colored(x)) == true;
        }
      }
    }

    twostate lemma RaisedSiblingLeftColored(parent: Node)
      requires old(Shaped()) && old(parent.right) != null && RotatedLeft(parent) && RecoloredRight(parent)
      requires var tmp := old(parent.right);
        old(LacksLeft(parent) && IsRed(tmp) && Colored(tmp) && !IsRed(parent.left))
      requires forall x {:trigger old(Colored(x))} :: x in old(nodes) && x != parent ==> old(Colored(x))
      ensures ColoredBut(parent) && LacksLeft(parent)
    {
      ghost var tmp := old(parent.right);
      ghost var elm, b, d := old(parent.left), old(tmp.left), old(tmp.right);
      assert old(Linked(parent)) == old(Linked(tmp)) == true;
      assert old(Ranged(parent)) == old(Ranged(tmp)) == true;
      assert parent.left == elm && parent.right == b && tmp.left == parent && tmp.right == d;
      assert elm != null ==> old(Linked(elm)) == true;
      assert b != null ==> old(Linked(b)) == true;
      assert d != null ==> old(Linked(d)) == true;
      assert Bh(b) == old(Bh(b)) && Bh(d) == old(Bh(d)) && Bh(elm) == old(Bh(elm));
      RotatedLeftColored(parent, parent);
    }

    /** The sibling of `elm` is red: it rises above `parent`, and `elm` gets a black sibling. */
    method RaiseSiblingLeft(parent: Node, elm: Node?)
      requires Lacking(parent, elm) && !IsRed(elm) && parent.left == elm && IsRed(parent.right)
      modifies this`root, nodes
      ensures Lacking(parent, elm) && !IsRed(elm) && parent.left == elm && parent.color.Red?
    {
      var tmp := parent.right;
      assert Linked(parent) == Linked(tmp) == true;
      assert Ranged(parent) == Ranged(tmp) == true;
      assert Colored(tmp) == true;
      assert elm != null ==> Linked(elm) == Colored(elm) == true;
      SetBlackRed(tmp, parent);
      tmp.bh, parent.bh := parent.bh, tmp.bh;
      SameLinksShaped();
      tmp := RotateLeft(parent);
      RaisedSiblingLeftColored(parent);
      assert elm != null ==> elm in nodes && Colored(elm) == true;
      assert !IsRed(root);
    }

    /** The nearer child of the sibling is red: it rises above the sibling. */
    method TurnSiblingLeft(parent: Node, elm: Node?, tmp: Node)
      requires Lacking(parent, elm) && !IsRed(elm) && parent.left == elm && parent.right == tmp
      requires tmp.color.Black? && IsRed(tmp.left) && !IsRed(tmp.right)
      modifies this`root, nodes
      ensures Lacking(parent, elm) && !IsRed(elm) && parent.left == elm && !IsRed(parent.right)
      ensures parent.right != null && IsRed(parent.right.right)
    {
      assert Linked(parent) == Linked(tmp) == true;
      assert Ranged(parent) == Ranged(tmp) == true;
      assert Colored(tmp) == true;
      assert elm != null ==> Linked(elm) == Colored(elm) == true;
      var oleft := tmp.left;
      assert Linked(oleft) == Colored(oleft) == Ranged(oleft) == true;
      if oleft != null {
        oleft.color := Black;
      }
      tmp.color := Red;
      oleft.bh, tmp.bh := tmp.bh, oleft.bh;
      SameLinksShaped();
      oleft := RotateRight(tmp);
      RaisedLeftColored(tmp, parent);
      assert parent.right == oleft && oleft.right == tmp;
      assert elm != null ==> elm in nodes && Colored(elm) == true;
      assert LacksLeft(parent) == true;
      assert !IsRed(root);
    }

    /** The colors and black heights after the last rotation, for a missing black on the left. */
    twostate predicate RecoloredLastLeft(parent: Node)
      requires old(parent.right) != null && old(parent.right.right) != null
      reads this, nodes
    {
      var tmp := old(parent.right);
      var far := old(tmp.right);
      && nodes == old(nodes) && parent in nodes && tmp in nodes && far in nodes
      && (forall x :: x in nodes ==>
            x.color == if x == tmp then old(parent.color) else if x == parent || x == far then Black else old(x.color))
      && (forall x :: x in nodes ==>
            x.bh == if x == tmp then old(parent.bh) else if x == parent then old(tmp.bh)
                    else if x == far then old(x.bh) + 1 else old(x.bh))
    }

    twostate lemma LastLeftColored(parent: Node)
      requires old(Shaped()) && old(parent.right) != null && old(parent.right.right) != null
      requires RotatedLeft(parent) && RecoloredLastLeft(parent)
      requires var tmp := old(parent.right);
        old(LacksLeft(parent) && !IsRed(tmp) && IsRed(tmp.right))
      requires forall x {:trigger old(Colored(x))} :: x in old(nodes) && x != parent ==> old(Colored(x))
      ensures ColoredBut(null)
    {
      ghost var tmp := old(parent.right);
      ghost var elm, b, far := old(parent.left), old(tmp.left), old(tmp.right);
      assert old(Linked(parent)) == old(Linked(tmp)) == old(Linked(far)) == true;
      assert old(Ranged(parent)) == old(Ranged(tmp)) == old(Ranged(far)) == true;
      assert old(Colored(tmp)) == old(Colored(far)) == true;
      assert parent.left == elm && parent.right == b && tmp.left == parent && tmp.right == far;
      assert elm != null ==> old(Linked(elm)) == true;
      assert b != null ==> old(Linked(b)) == true;
      assert Bh(b) == old(Bh(b)) && Bh(elm) == old(Bh(elm));
      assert Colored(parent) == Colored(tmp) == true;
      ghost var m, n := far.left, far.right;
      assert m == old(far.left) && n == old(far.right);
      assert m != null ==> old(Linked(m)) == true;
      assert n != null ==> old(Linked(n)) == true;
      assert Colored(far) == true;
      RotatedLeftColored(parent, null);
    }

    /** The recoloring before the last rotation. */
    method PaintLastLeft(parent: Node, tmp: Node)
      requires Shaped() && parent in nodes && tmp in nodes && parent.right == tmp && tmp.right != null
      modifies nodes`color, nodes`bh
      ensures SameLinks() && RecoloredLastLeft(parent) && Shaped()
    {
      assert Linked(parent) == Linked(tmp) == true;
      assert Ranged(parent) == Ranged(tmp) == true;
      tmp.color := parent.color;
      parent.color := Black;
      if tmp.right != null {
        tmp.right.color := Black;
      }
      tmp.right.bh := tmp.right.bh + 1;
      tmp.bh, parent.bh := parent.bh, tmp.bh;
      SameLinksShaped();
    }

    /** The farther child of the sibling is red: one rotation restores all colors. */
    method LastLeft(parent: Node, elm: Node?, tmp: Node)
      requires Lacking(parent, elm) && !IsRed(elm) && parent.left == elm && parent.right == tmp
      requires tmp.color.Black? && IsRed(tmp.right)
      modifies this`root, nodes
      ensures Shaped() && ColoredBut(null) && !IsRed(root)
    {
      assert Linked(parent) == Linked(tmp) == true;
      assert elm != null ==> Linked(elm) == Colored(elm) == true;
      PaintLastLeft(parent, tmp);
      var upper := RotateLeft(parent);
      LastLeftColored(parent);
      assert !IsRed(root);
    }

    twostate lemma RaisedSiblingRightColored(parent: Node)
      requires old(Shaped()) && old(parent.left) != null && RotatedRight(parent) && RecoloredLeft(parent)
      requires var tmp := old(parent.left);
        old(LacksRight(parent) && IsRed(tmp) && Colored(tmp) && !IsRed(parent.right))
      requires forall x {:trigger old(Colored(x))} :: x in old(nodes) && x != parent ==> old(Colored(x))
      ensures ColoredBut(parent) && LacksRight(parent)
    {
      ghost var tmp := old(parent.left);
      ghost var elm, b, d := old(parent.right), old(tmp.right), old(tmp.left);
      assert old(Linked(parent)) == old(Linked(tmp)) == true;
      assert old(Ranged(parent)) == old(Ranged(tmp)) == true;
      assert parent.right == elm && parent.left == b && tmp.right == parent && tmp.left == d;
      assert elm != null ==> old(Linked(elm)) == true;
      assert b != null ==> old(Linked(b)) == true;
      assert d != null ==> old(Linked(d)) == true;
      assert Bh(b) == old(Bh(b)) && Bh(d) == old(Bh(d)) && Bh(elm) == old(Bh(elm));
      RotatedRightColored(parent, parent);
    }

    /** The sibling of `elm` is red: it rises above `parent`, and `elm` gets a black sibling. */
    method RaiseSiblingRight(parent: Node, elm: Node?)
      requires Lacking(parent, elm) && !IsRed(elm) && parent.right == elm && IsRed(parent.left)
      modifies this`root, nodes
      ensures Lacking(parent, elm) && !IsRed(elm) && parent.right == elm && parent.color.Red?
    {
      var tmp := parent.left;
      assert Linked(parent) == Linked(tmp) == true;
      assert Ranged(parent) == Ranged(tmp) == true;
      assert Colored(tmp) == true;
      assert elm != null ==> Linked(elm) == Colored(elm) == true;
      SetBlackRed(tmp, parent);
      tmp.bh, parent.bh := parent.bh, tmp.bh;
      SameLinksShaped();
      tmp := RotateRight(parent);
      RaisedSiblingRightColored(parent);
      assert elm != null ==> elm in nodes && Colored(elm) == true;
      assert !IsRed(root);
    }

    /** The nearer child of the sibling is red: it rises above the sibling. */
    method TurnSiblingRight(parent: Node, elm: Node?, tmp: Node)
      requires Lacking(parent, elm) && !IsRed(elm) && parent.right == elm && parent.left == tmp
      requires tmp.color.Black? && IsRed(tmp.right) && !IsRed(tmp.left)
      modifies this`root, nodes
      ensures Lacking(parent, elm) && !IsRed(elm) && parent.right == elm && !IsRed(parent.left)
      ensures parent.left != null && IsRed(parent.left.left)
    {
      assert Linked(parent) == Linked(tmp) == true;
      assert Ranged(parent) == Ranged(tmp) == true;
      assert Colored(tmp) == true;
      assert elm != null ==> Linked(elm) == Colored(elm) == true;
      var oleft := tmp.right;
      assert Linked(oleft) == Colored(oleft) == Ranged(oleft) == true;
      if oleft != null {
        oleft.color := Black;
      }
      tmp.color := Red;
      oleft.bh, tmp.bh := tmp.bh, oleft.bh;
      SameLinksShaped();
      oleft := RotateLeft(tmp);
      RaisedRightColored(tmp, parent);
      assert parent.left == oleft && oleft.left == tmp;
      assert elm != null ==> elm in nodes && Colored(elm) == true;
      assert LacksRight(parent) == true;
      assert !IsRed(root);
    }

    /** The colors and black heights after the last rotation, for a missing black on the right. */
    twostate predicate RecoloredLastRight(parent: Node)
      requires old(parent.left) != null && old(parent.left.left) != null
      reads this, nodes
    {
      var tmp := old(parent.left);
      var far := old(tmp.left);
      && nodes == old(nodes) && parent in nodes && tmp in nodes && far in nodes
      && (forall x :: x in nodes ==>
            x.color == if x == tmp then old(parent.color) else if x == parent || x == far then Black else old(x.color))
      && (forall x :: x in nodes ==>
            x.bh == if x == tmp then old(parent.bh) else if x == parent then old(tmp.bh)
                    else if x == far then old(x.bh) + 1 else old(x.bh))
    }

    twostate lemma LastRightColored(parent: Node)
      requires old(Shaped()) && old(parent.left) != null && old(parent.left.left) != null
      requires RotatedRight(parent) && RecoloredLastRight(parent)
      requires var tmp := old(parent.left);
        old(LacksRight(parent) && !IsRed(tmp) && IsRed(tmp.left))
      requires forall x {:trigger old(Colored(x))} :: x in old(nodes) && x != parent ==> old(Colored(x))
      ensures ColoredBut(null)
    {
      ghost var tmp := old(parent.left);
      ghost var elm, b, far := old(parent.right), old(tmp.right), old(tmp.left);
      assert old(Linked(parent)) == old(Linked(tmp)) == old(Linked(far)) == true;
      assert old(Ranged(parent)) == old(Ranged(tmp)) == old(Ranged(far)) == true;
      assert old(Colored(tmp)) == old(Colored(far)) == true;
      assert parent.right == elm && parent.left == b && tmp.right == parent && tmp.left == far;
      assert elm != null ==> old(Linked(elm)) == true;
      assert b != null ==> old(Linked(b)) == true;
      assert Bh(b) == old(Bh(b)) && Bh(elm) == old(Bh(elm));
      assert Colored(parent) == Colored(tmp) == true;
      ghost var m, n := far.right, far.left;
      assert m == old(far.right) && n == old(far.left);
      assert m != null ==> old(Linked(m)) == true;
      assert n != null ==> old(Linked(n)) == true;
      assert Colored(far) == true;
      RotatedRightColored(parent, null);
    }

    /** The recoloring before the last rotation. */
    method PaintLastRight(parent: Node, tmp: Node)
      requires Shaped() && parent in nodes && tmp in nodes && parent.left == tmp && tmp.left != null
      modifies nodes`color, nodes`bh
      ensures SameLinks() && RecoloredLastRight(parent) && Shaped()
    {
      assert Linked(parent) == Linked(tmp) == true;
      assert Ranged(parent) == Ranged(tmp) == true;
      tmp.color := parent.color;
      parent.color := Black;
      if tmp.left != null {
        tmp.left.color := Black;
      }
      tmp.left.bh := tmp.left.bh + 1;
      tmp.bh, parent.bh := parent.bh, tmp.bh;
      SameLinksShaped();
    }

    /** The farther child of the sibling is red: one rotation restores all colors. */
    method LastRight(parent: Node, elm: Node?, tmp: Node)
      requires Lacking(parent, elm) && !IsRed(elm) && parent.right == elm && parent.left == tmp
      requires tmp.color.Black? && IsRed(tmp.left)
      modifies this`root, nodes
      ensures Shaped() && ColoredBut(null) && !IsRed(root)
    {
      assert Linked(parent) == Linked(tmp) == true;
      assert elm != null ==> Linked(elm) == Colored(elm) == true;
      PaintLastRight(parent, tmp);
      var upper := RotateRight(parent);
      LastRightColored(parent);
      assert !IsRed(root);
    }

    /** RB_REMOVE_COLOR */
    method RemoveColor(parent0: Node?, elm0: Node?)
      requires Lacking(parent0, elm0)
      modifies this`root, nodes
      ensures Shaped() && ColoredBut(null) && !IsRed(root)
    {
      var parent, elm := parent0, elm0;
      ghost var lacking := parent;
      while (elm == null || elm.color.Black?) && elm != root
        invariant Lacking(parent, elm) && lacking == parent
        decreases if !((elm == null || elm.color.Black?) && elm != root) then -1
                  else if elm == null then high - low + 1 else high - low - (elm.hi - elm.lo)
      {
        assert parent != null && Linked(parent) == Ranged(parent) == true;
        assert elm != null ==> Linked(elm) == Ranged(elm) == true;
        if parent.left == elm {
          var tmp := parent.right;
          if tmp.color.Red? {
            RaiseSiblingLeft(parent, elm);
            tmp := parent.right;
          }
          assert Linked(parent) == Linked(tmp) == Ranged(parent) == Colored(tmp) == true;
          if (tmp.left == null || tmp.left.color.Black?) && (tmp.right == null || tmp.right.color.Black?) {
            PushUp(parent, elm, tmp);
            elm := parent;
            parent := elm.parent;
            lacking := parent;
          } else {
            if tmp.right == null || tmp.right.color.Black? {
              TurnSiblingLeft(parent, elm, tmp);
              tmp := parent.right;
              assert Linked(parent) == Linked(tmp) == true;
            }
            LastLeft(parent, elm, tmp);
            elm := root;
            lacking := null;
            assert root != null ==> Colored(root) == true;
            break;
          }
        } else {
          var tmp := parent.left;
          if tmp.color.Red? {
            RaiseSiblingRight(parent, elm);
            tmp := parent.left;
          }
          assert Linked(parent) == Linked(tmp) == Ranged(parent) == Colored(tmp) == true;
          if (tmp.left == null || tmp.left.color.Black?) && (tmp.right == null || tmp.right.color.Black?) {
            PushUp(parent, elm, tmp);
            elm := parent;
            parent := elm.parent;
            lacking := parent;
          } else {
            if tmp.left == null || tmp.left.color.Black? {
              TurnSiblingRight(parent, elm, tmp);
              tmp := parent.left;
              assert Linked(parent) == Linked(tmp) == true;
            }
            LastRight(parent, elm, tmp);
            elm := root;
            lacking := null;
            assert root != null ==> Colored(root) == true;
            break;
          }
        }
      }
      Blacken(lacking, elm);
    }

    // ---------- Removal: taking a node out ----------

    /** `y`, with at most one child, was taken out and its child hangs in its place. */
    twostate predicate Spliced(y: Node)
      reads this, nodes
    {
      var child := if old(y.left) == null then old(y.right) else old(y.left);
      var parent := old(y.parent);
      && y in old(nodes) && nodes == old(nodes) - {y} && low == old(low) && high == old(high)
      && (old(y.left) == null || old(y.right) == null)
      && (forall x :: x in nodes ==>
            x.left == if x == parent && old(x.left) == y then child else old(x.left))
      && (forall x :: x in nodes ==>
            x.right == if x == parent && old(x.left) != y then child else old(x.right))
      && (forall x :: x in nodes ==> x.parent == if x == child then parent else old(x.parent))
      && (forall x :: x in nodes ==> x.color == old(x.color) && x.bh == old(x.bh))
      && (forall x :: x in nodes ==>
            x.lo == if old(y.left) == null && old(x.lo) == y.key then old(y.lo) else old(x.lo))
      && (forall x :: x in nodes ==>
            x.hi == if old(y.left) != null && old(x.hi) == y.key then old(y.hi) else old(x.hi))
      && root == if parent == null then child else old(root)
    }

    twostate lemma SplicedLinked(y: Node)
      requires old(Shaped()) && Spliced(y)
      ensures forall x {:trigger Linked(x)} :: x in nodes ==> Linked(x)
    {
      ghost var p := old(y.parent);
      ghost var c := if old(y.left) == null then old(y.right) else old(y.left);
      assert old(Linked(y)) == old(Ranged(y)) == true;
      assert p != null ==> old(Linked(p)) == old(Ranged(p)) == true;
      assert c != null ==> old(Linked(c)) == old(Ranged(c)) == true;
      forall x | x in nodes
        ensures Linked(x) == true
      {
        assert old(Linked(x)) == true;
      }
    }

    twostate lemma SplicedRanged(y: Node)
      requires old(Shaped()) && Spliced(y)
      ensures forall x {:trigger Ranged(x)} :: x in nodes ==> Ranged(x)
    {
      ghost var p := old(y.parent);
      ghost var c := if old(y.left) == null then old(y.right) else old(y.left);
      assert old(Linked(y)) == old(Ranged(y)) == true;
      assert p != null ==> old(Linked(p)) == old(Ranged(p)) == true;
      assert c != null ==> old(Linked(c)) == true;
      forall x | x in nodes
        ensures Ranged(x) == true
      {
        assert old(Linked(x)) == old(Ranged(x)) == true;
        assert Unique(x, y);
      }
    }

    twostate lemma SplicedShaped(y: Node)
      requires old(Shaped()) && Spliced(y)
      requires old(y.parent == null && y.left == null && y.right == null) ==> old(nodes) == {y}
      ensures Shaped()
    {
      SplicedLinked(y);
      SplicedRanged(y);
      ghost var c := if old(y.left) == null then old(y.right) else old(y.left);
      assert old(Linked(y)) == old(Ranged(y)) == true;
      assert c != null ==> old(Linked(c)) == old(Ranged(c)) == true;
    }

    twostate lemma SplicedColored(y: Node)
      requires old(Valid()) && Spliced(y) && Shaped()
      ensures var child := if old(y.left) == null then old(y.right) else old(y.left);
        if old(y.color).Black? then Lacking(old(y.parent), child) else ColoredBut(null) && !IsRed(root)
    {
      ghost var p := old(y.parent);
      ghost var c := if old(y.left) == null then old(y.right) else old(y.left);
      assert old(Linked(y)) == old(Ranged(y)) == old(Colored(y)) == true;
      assert p != null ==> old(Linked(p)) == old(Ranged(p)) == old(Colored(p)) == true;
      assert c != null ==> old(Linked(c)) == old(Ranged(c)) == true;
      assert old(root) != null ==> old(Linked(root)) == true;
      forall x | x in nodes
        ensures x != p ==> Colored(x) == true
      {
        assert old(Linked(x)) == old(Colored(x)) == true;
      }
      assert old(Bh(y)) == Bh(c) + Blackness(old(y.color));
      if p != null {
        assert old(y.color).Red? ==> Colored(p) == true;
        assert old(y.color).Black? && p.left == c && old(p.left) == y ==> LacksLeft(p) == true;
        assert old(y.color).Black? && old(p.left) != y ==> LacksRight(p) == true;
      }
    }

    lemma LonelyRoot(y: Node)
      requires Shaped() && y in nodes && y.parent == null && y.left == null && y.right == null
      ensures nodes == {y}
    {
      assert Linked(y) == true;
      ContentsNodes();
      assert TreeOf(y) == Fork(Leaf, y, y.color, Leaf);
      assert InOrder(Leaf) == [];
      assert InOrder(Fork(Leaf, y, y.color, Leaf)) == [y];
      forall x | x in nodes ensures x == y {
        assert x in Contents();
      }
    }

    /** Puts `child`, the only child of `elm`, in the place of `elm`. */
    method Splice(elm: Node, child: Node?, parent: Node?)
      requires Valid() && elm in nodes && parent == elm.parent
      requires elm.left == null || elm.right == null
      requires child == if elm.left == null then elm.right else elm.left
      modifies this`root, this`nodes, nodes
      ensures Shaped() && Spliced(elm)
      ensures if old(elm.color).Black? then Lacking(parent, child) else ColoredBut(null) && !IsRed(root)
      ensures elm.left == old(elm.left) && elm.right == old(elm.right) && elm.parent == old(elm.parent)
    {
      if parent == null && child == null {
        LonelyRoot(elm);
      }
      SpliceLinks(elm, child, parent);
      ghost var a, b := elm.lo, elm.hi;
      if elm.left == null {
        forall x | x in nodes {
          x.lo := if x.lo == elm.key then a else x.lo;
        }
      } else {
        forall x | x in nodes {
          x.hi := if x.hi == elm.key then b else x.hi;
        }
      }
      nodes := nodes - {elm};
      SplicedShaped(elm);
      SplicedColored(elm);
    }

    method SpliceLinks(elm: Node, child: Node?, parent: Node?)
      requires Valid() && elm in nodes && parent == elm.parent
      requires elm.left == null || elm.right == null
      requires child == if elm.left == null then elm.right else elm.left
      modifies this`root, nodes`left, nodes`right, nodes`parent
      ensures forall x :: x in nodes && x != elm ==>
        x.left == if x == parent && old(x.left) == elm then child else old(x.left)
      ensures forall x :: x in nodes && x != elm ==>
        x.right == if x == parent && old(x.left) != elm then child else old(x.right)
      ensures forall x :: x in nodes && x != elm ==>
        x.parent == if x == child then parent else old(x.parent)
      ensures elm.left == old(elm.left) && elm.right == old(elm.right) && elm.parent == old(elm.parent)
      ensures root == if parent == null then child else old(root)
    {
      assert Linked(elm) == Ranged(elm) == true;
      assert parent != null ==> Linked(parent) == Ranged(parent) == true;
      assert child != null ==> Linked(child) == Ranged(child) == true;
      if child != null {
        child.parent := parent;
      }
      if parent != null {
        if parent.left == elm {
          parent.left := child;
        } else {
          parent.right := child;
        }
      } else {
        root := child;
      }
    }

    /** `elm` took over the place, the color and the black height of `node`. */
    twostate predicate Replaced(node: Node, new elm: Node)
      reads this, nodes
    {
      && node in old(nodes) && elm !in old(nodes) && nodes == old(nodes) - {node} + {elm}
      && low == old(low) && high == old(high)
      && elm.left == old(node.left) && elm.right == old(node.right) && elm.parent == old(node.parent)
      && elm.color == old(node.color) && elm.bh == old(node.bh) && elm.lo == old(node.lo) && elm.hi == old(node.hi)
      && (forall x :: x in nodes && x != elm ==>
            x.left == if x == old(node.parent) && old(x.left) == node then elm else old(x.left))
      && (forall x :: x in nodes && x != elm ==>
            x.right == if x == old(node.parent) && old(x.left) != node then elm else old(x.right))
      && (forall x :: x in nodes && x != elm ==>
            x.parent == if x == old(node.left) || x == old(node.right) then elm else old(x.parent))
      && (forall x :: x in nodes && x != elm ==> x.color == old(x.color) && x.bh == old(x.bh))
      && (forall x :: x in nodes && x != elm ==> x.lo == if old(x.lo) == node.key then elm.key else old(x.lo))
      && (forall x :: x in nodes && x != elm ==> x.hi == if old(x.hi) == node.key then elm.key else old(x.hi))
      && root == if old(node.parent) == null then elm else old(root)
    }

    twostate lemma ReplacedLinked(node: Node, new elm: Node)
      requires old(Shaped()) && Replaced(node, elm)
      ensures forall x {:trigger Linked(x)} :: x in nodes ==> Linked(x)
    {
      ghost var p, l, r := old(node.parent), old(node.left), old(node.right);
      assert old(Linked(node)) == old(Ranged(node)) == true;
      assert p != null ==> old(Linked(p)) == old(Ranged(p)) == true;
      assert l != null ==> old(Linked(l)) == old(Ranged(l)) == true;
      assert r != null ==> old(Linked(r)) == old(Ranged(r)) == true;
      forall x | x in nodes
        ensures Linked(x) == true
      {
        assert x != elm ==> old(Linked(x)) == true;
      }
    }

    twostate lemma ReplacedRanged(node: Node, new elm: Node)
      requires old(Shaped()) && Replaced(node, elm)
      requires old(node.lo) < elm.key < old(node.hi)
      requires forall x :: x in old(nodes) ==> x.key <= node.key < elm.key || node.key < elm.key < x.key
      ensures forall x {:trigger Ranged(x)} :: x in nodes ==> Ranged(x)
    {
      ghost var p, l, r := old(node.parent), old(node.left), old(node.right);
      assert old(Linked(node)) == old(Ranged(node)) == true;
      assert p != null ==> old(Linked(p)) == old(Ranged(p)) == true;
      forall x | x in nodes
        ensures Ranged(x) == true
      {
        assert x != elm ==> old(Linked(x)) == old(Ranged(x)) == true;
        assert Unique(x, node);
      }
    }

    twostate lemma ReplacedShaped(node: Node, new elm: Node)
      requires old(Shaped()) && Replaced(node, elm)
      requires old(node.lo) < elm.key < old(node.hi)
      requires forall x :: x in old(nodes) ==> x.key <= node.key < elm.key || node.key < elm.key < x.key
      ensures Shaped()
    {
      ReplacedLinked(node, elm);
      ReplacedRanged(node, elm);
      assert old(Linked(node)) == old(Ranged(node)) == true;
      assert old(Linked(root)) == old(Ranged(root)) == true;
      forall x, y | x in nodes && y in nodes
        ensures Unique(x, y)
      {
        assert x != elm && y != elm ==> Unique(x, y);
      }
    }

    /** The color conditions move along. */
    twostate lemma ReplacedColored(node: Node, new elm: Node)
      requires old(Shaped()) && Replaced(node, elm)
      ensures forall x :: x in nodes && x != elm ==>
        && (old(Colored(x)) ==> Colored(x)) && (old(Balanced(x)) ==> Balanced(x))
        && (old(LacksLeft(x)) ==> LacksLeft(x)) && (old(LacksRight(x)) ==> LacksRight(x))
      ensures
        && (old(Colored(node)) ==> Colored(elm)) && (old(Balanced(node)) ==> Balanced(elm))
        && (old(LacksLeft(node)) ==> LacksLeft(elm)) && (old(LacksRight(node)) ==> LacksRight(elm))
      ensures IsRed(root) == old(IsRed(root))
    {
      ghost var l, r := old(node.left), old(node.right);
      assert old(Linked(node)) == old(Ranged(node)) == true;
      assert l != null ==> old(Linked(l)) == true;
      assert r != null ==> old(Linked(r)) == true;
      assert Bh(l) == old(Bh(l)) && IsRed(l) == old(IsRed(l));
      assert Bh(r) == old(Bh(r)) && IsRed(r) == old(IsRed(r));
      assert old(root) != null ==> old(Linked(root)) == true;
      forall x | x in nodes && x != elm
        ensures Bh(x.left) == old(Bh(x.left)) && Bh(x.right) == old(Bh(x.right))
        ensures IsRed(x.left) == old(IsRed(x.left)) && IsRed(x.right) == old(IsRed(x.right))
      {
        assert old(Linked(x)) == true;
      }
    }

    method ReplaceLinks(node: Node, elm: Node)
      requires Shaped() && node in nodes && elm !in nodes && node.left != null
      modifies this`root, nodes`left, nodes`right, nodes`parent, elm
      ensures elm.left == old(node.left) && elm.right == old(node.right)
      ensures elm.parent == old(node.parent) && elm.color == old(node.color)
      ensures forall x :: x in nodes && x != node ==>
        x.left == if x == old(node.parent) && old(x.left) == node then elm else old(x.left)
      ensures forall x :: x in nodes && x != node ==>
        x.right == if x == old(node.parent) && old(x.left) != node then elm else old(x.right)
      ensures forall x :: x in nodes && x != node ==>
        x.parent == if x == old(node.left) || x == old(node.right) then elm else old(x.parent)
      ensures root == if old(node.parent) == null then elm else old(root)
    {
      assert Linked(node) == Ranged(node) == true;
      assert node.parent != null ==> Linked(node.parent) == Ranged(node.parent) == true;
      assert Linked(node.left) == Ranged(node.left) == true;
      assert node.right != null ==> Linked(node.right) == Ranged(node.right) == true;
      elm.left, elm.right := node.left, node.right;
      elm.parent, elm.color := node.parent, node.color;
      if node.parent != null {
        if node.parent.left == node {
          node.parent.left := elm;
        } else {
          node.parent.right := elm;
        }
      } else {
        root := elm;
      }
      node.left.parent := elm;
      if node.right != null {
        node.right.parent := elm;
      }
    }

    /** Puts `elm` in the place of `node`. */
    method TakePlace(node: Node, elm: Node)
      requires Shaped() && node in nodes && elm !in nodes && node.left != null
      requires node.lo < elm.key < node.hi
      requires forall x :: x in nodes ==> x.key <= node.key < elm.key || node.key < elm.key < x.key
      modifies this`root, this`nodes, nodes, elm
      ensures Shaped() && Replaced(node, elm)
    {
      ReplaceLinks(node, elm);
      elm.bh, elm.lo, elm.hi := node.bh, node.lo, node.hi;
      forall x | x in nodes {
        x.lo := if x.lo == node.key then elm.key else x.lo;
      }
      forall x | x in nodes {
        x.hi := if x.hi == node.key then elm.key else x.hi;
      }
      nodes := nodes - {node} + {elm};
      ReplacedShaped(node, elm);
    }

    /** Puts `elm` in the place of `node`; the missing black, if any, stays where it is. */
    method Replace(node: Node, elm: Node, ghost black: bool, ghost parent: Node, ghost child: Node?)
      requires Shaped() && node in nodes && elm !in nodes && node.left != null && child != node
      requires node.lo < elm.key < node.hi
      requires forall x :: x in nodes ==> x.key <= node.key < elm.key || node.key < elm.key < x.key
      requires if black then Lacking(parent, child) else ColoredBut(null) && !IsRed(root)
      modifies this`root, this`nodes, nodes, elm
      ensures Shaped() && nodes == old(nodes) - {node} + {elm}
      ensures if black then Lacking(if parent == node then elm else parent, child)
              else ColoredBut(null) && !IsRed(root)
    {
      assert Linked(node) == true;
      TakePlace(node, elm);
      ReplacedColored(node, elm);
      ghost var q := if parent == node then elm else parent;
      if black {
        assert child != null ==> old(Balanced(child)) == true;
        assert parent != node ==> old(Colored(node)) == true;
        assert old(parent.left) == child && old(LacksLeft(parent)) ==> q.left == child && LacksLeft(q) == true;
        assert old(parent.right) == child && old(LacksRight(parent)) ==> q.right == child && LacksRight(q) == true;
      }
      forall x | x in nodes
        ensures !black ==> Colored(x) == true
        ensures black && x != child && x != q ==> Colored(x) == true
      {
        assert !black ==> old(Colored(if x == elm then node else x)) == true;
        assert black && x != elm && x != child && x != parent ==> old(Colored(x)) == true;
      }
    }

    /** RB_REMOVE */
    method Remove(z: Node) returns (r: Node)
      requires Valid() && z in nodes
      modifies this, nodes
      ensures Valid() && r == z && nodes == old(nodes) - {z}
      ensures Contents() == Without(old(Contents()), z)
    {
      ghost var before, olds := Contents(), nodes;
      ContentsNodes();
      var child, parent, color;
      var elm := z;
      assert Linked(z) == Ranged(z) == true;
      if elm.left == null {
        child := elm.right;
      } else if elm.right == null {
        child := elm.left;
      } else {
        RemoveInner(z);
        ContentsNodes();
        RemovedOnce(before, olds, z, Contents());
        return z;
      }
      parent := elm.parent;
      color := elm.color;
      Splice(elm, child, parent);
      if color == Black {
        RemoveColor(parent, child);
      }
      ContentsNodes();
      RemovedOnce(before, olds, z, Contents());
      return z;
    }

    /** The loop of RB_REMOVE that looks for the successor of `z`. */
    method Successor(z: Node) returns (elm: Node)
      requires Valid() && z in nodes && z.right != null
      ensures elm in nodes && elm.left == null && elm.parent != null
      ensures elm != z && elm != z.left && elm.right != z
      ensures z.key < elm.key < z.hi
      ensures forall x :: x in nodes ==> x == elm || x.key <= z.key || elm.key < x.key
    {
      assert Linked(z) == Ranged(z) == true;
      elm := z.right;
      while elm.left != null
        invariant elm in nodes && elm.lo == z.key && elm.hi <= z.hi
        decreases elm.hi - elm.lo
      {
        assert Linked(elm) == Ranged(elm) == true;
        elm := elm.left;
      }
      assert Linked(elm) == Ranged(elm) == true;
      assert elm.right != null ==> Ranged(elm.right) == true;
      assert z.left != null ==> Ranged(z.left) == true;
      LeftGap(elm);
      forall x | x in nodes ensures x == elm || x.key <= z.key || elm.key < x.key {
        assert Unique(x, elm);
      }
    }

    /** The branch of RB_REMOVE for a node with two children: its successor takes its place. */
    method RemoveInner(z: Node)
      requires Valid() && z in nodes && z.left != null && z.right != null
      modifies this`root, this`nodes, nodes
      ensures Valid() && nodes == old(nodes) - {z}
    {
      assert Linked(z) == Ranged(z) == true;
      var elm := Successor(z);
      assert Linked(elm) == true;
      var child := elm.right;
      var parent: Node := elm.parent;
      var color := elm.color;
      Splice(elm, child, parent);
      assert Ranged(z) == true;
      ghost var above := parent;
      if elm.parent == z {
        parent := elm;
      }
      Replace(z, elm, color == Black, above, child);
      if color == Black {
        RemoveColor(parent, child);
      }
    }
  }
}
