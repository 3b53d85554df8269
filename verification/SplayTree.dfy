/**
 The top-down splay tree of uv/tree.h:64-295.

 While a splay runs, the nodes hang in three trees: the tree below the current root, a left tree of
 smaller nodes that grows at the end of its right spine, and a right tree of larger nodes that grows
 at the end of its left spine. `Spine` describes the two side trees, the most recent end first.
 */
module SplayTrees {

  class Node {
    const key: int
    var left: Node?
    var right: Node?

    constructor (key: int)
      ensures this.key == key && left == null && right == null
    {
      this.key := key;
      left, right := null, null;
    }
  }

  datatype Tree = Leaf | Fork(left: Tree, node: Node, right: Tree)

  /** A side tree: the node at the tip of its spine, what hangs behind that node, and the rest. */
  datatype Spine = End(header: Node) | Link(node: Node, side: Tree, up: Spine)

  function RootOf(t: Tree): Node? {
    if t.Leaf? then null else t.node
  }

  function Size(t: Tree): nat {
    if t.Leaf? then 0 else Size(t.left) + 1 + Size(t.right)
  }

  function InOrder(t: Tree): seq<Node> {
    if t.Leaf? then [] else InOrder(t.left) + [t.node] + InOrder(t.right)
  }

  function LeftOrder(s: Spine): seq<Node> {
    if s.End? then [] else LeftOrder(s.up) + InOrder(s.side) + [s.node]
  }

  function RightOrder(s: Spine): seq<Node> {
    if s.End? then [] else [s.node] + InOrder(s.side) + RightOrder(s.up)
  }

  /** The left tree with `t` hung at the end of its spine. */
  function PlugLeft(s: Spine, t: Tree): Tree
    decreases s
  {
    if s.End? then t else PlugLeft(s.up, Fork(s.side, s.node, t))
  }

  function PlugRight(s: Spine, t: Tree): Tree
    decreases s
  {
    if s.End? then t else PlugRight(s.up, Fork(t, s.node, s.side))
  }

  lemma {:induction false} PlugLeftOrder(s: Spine, t: Tree)
    ensures InOrder(PlugLeft(s, t)) == LeftOrder(s) + InOrder(t)
    decreases s
  {
    if s.Link? {
      PlugLeftOrder(s.up, Fork(s.side, s.node, t));
      SeqOut(LeftOrder(s.up), InOrder(s.side), [s.node], InOrder(t));
    }
  }

  lemma {:induction false} PlugRightOrder(s: Spine, t: Tree)
    ensures InOrder(PlugRight(s, t)) == InOrder(t) + RightOrder(s)
    decreases s
  {
    if s.Link? {
      PlugRightOrder(s.up, Fork(t, s.node, s.side));
      SeqOut(RightOrder(s.up), InOrder(t), [s.node], InOrder(s.side));
    }
  }

  function RotatedLeft(t: Tree): Tree
    requires t.Fork? && t.right.Fork?
  {
    Fork(Fork(t.left, t.node, t.right.left), t.right.node, t.right.right)
  }

  function RotatedRight(t: Tree): Tree
    requires t.Fork? && t.left.Fork?
  {
    Fork(t.left.left, t.left.node, Fork(t.left.right, t.node, t.right))
  }

  /** The outcome of one round of a splay: whether it was the last one, the root tree, a side tree. */
  datatype Round = Round(stop: bool, tree: Tree, side: Spine)

  /** One round for a key below the root. */
  function RoundLeft(k: int, t: Tree, rs: Spine): Round
    requires t.Fork?
  {
    if t.left.Leaf? then Round(true, t, rs)
    else if k >= t.left.node.key then Round(false, t.left, Link(t.node, t.right, rs))
    else
      var u := RotatedRight(t);
      if u.left.Leaf? then Round(true, u, rs) else Round(false, u.left, Link(u.node, u.right, rs))
  }

  /** One round for a key above the root. */
  function RoundRight(k: int, t: Tree, ls: Spine): Round
    requires t.Fork?
  {
    if t.right.Leaf? then Round(true, t, ls)
    else if k <= t.right.node.key then Round(false, t.right, Link(t.node, t.left, ls))
    else
      var u := RotatedLeft(t);
      if u.right.Leaf? then Round(true, u, ls) else Round(false, u.right, Link(u.node, u.left, ls))
  }

  /** What a splay makes of a tree: what stands on either side of the node that goes to the root, and its rounds. */
  datatype Parts = Parts(left: Tree, node: Node, right: Tree, rounds: nat)

  /** A splay as recursion: two steps in the same direction are taken in one round, and turn the tree. */
  function Split(k: int, t: Tree): Parts
    requires t.Fork?
    decreases t
  {
    var (l, x, r) := (t.left, t.node, t.right);
    if k < x.key && l.Fork? && k < l.node.key then
      var turned := Fork(l.right, x, r);
      if l.left.Leaf? then Parts(Leaf, l.node, turned, 1)
      else var p := Split(k, l.left); Parts(p.left, p.node, Fork(p.right, l.node, turned), p.rounds + 1)
    else if k < x.key && l.Fork? then
      var p := Split(k, l); Parts(p.left, p.node, Fork(p.right, x, r), p.rounds + 1)
    else if k > x.key && r.Fork? && k > r.node.key then
      var turned := Fork(l, x, r.left);
      if r.right.Leaf? then Parts(turned, r.node, Leaf, 1)
      else var p := Split(k, r.right); Parts(Fork(turned, r.node, p.left), p.node, p.right, p.rounds + 1)
    else if k > x.key && r.Fork? then
      var p := Split(k, r); Parts(Fork(l, x, p.left), p.node, p.right, p.rounds + 1)
    else Parts(l, x, r, if k == x.key then 0 else 1)
  }

  function Splayed(k: int, t: Tree): Tree {
    if t.Leaf? then Leaf else var p := Split(k, t); Fork(p.left, p.node, p.right)
  }

  function Rounds(k: int, t: Tree): nat {
    if t.Leaf? then 0 else Split(k, t).rounds
  }

  /** What is still to come of a splay. */
  function Rest(stop: bool, k: int, t: Tree): Parts
    requires t.Fork?
  {
    if stop then Parts(t.left, t.node, t.right, 0) else Split(k, t)
  }

  lemma RoundLeftSplits(k: int, t: Tree, rs: Spine)
    requires t.Fork? && k < t.node.key
    ensures
      var r := RoundLeft(k, t, rs);
      && r.tree.Fork?
      && var p, q := Rest(r.stop, k, r.tree), Split(k, t);
         && q.left == p.left && q.node == p.node && q.rounds == p.rounds + 1
         && PlugRight(r.side, p.right) == PlugRight(rs, q.right)
  {
  }

  /** At the key the splay is over. */
  lemma SplitEnds(k: int, t: Tree)
    requires t.Fork?
    ensures k == t.node.key ==> Split(k, t) == Rest(true, k, t)
  {
  }

  lemma RoundRightSplits(k: int, t: Tree, ls: Spine)
    requires t.Fork? && k > t.node.key
    ensures
      var r := RoundRight(k, t, ls);
      && r.tree.Fork?
      && var p, q := Rest(r.stop, k, r.tree), Split(k, t);
         && q.right == p.right && q.node == p.node && q.rounds == p.rounds + 1
         && PlugLeft(r.side, p.left) == PlugLeft(ls, q.left)
  {
  }

  /** An insertion: a new node becomes the root, and the old root goes to one side with its own side. */
  function Inserted(t: Tree, x: Node): Tree {
    if t.Leaf? then Fork(Leaf, x, Leaf)
    else
      var s := Splayed(x.key, t);
      if s.node.key == x.key then s
      else if x.key < s.node.key then Fork(s.left, x, Fork(Leaf, s.node, s.right))
      else Fork(Fork(s.left, s.node, Leaf), x, s.right)
  }

  /** A removal: the smaller nodes are splayed once more, and the larger ones go below their last one. */
  function Removed(t: Tree, k: int): Tree {
    if t.Leaf? then Leaf
    else
      var s := Splayed(k, t);
      if s.node.key != k then s
      else if s.left.Leaf? then s.right
      else var u := Splayed(k, s.left); Fork(u.left, u.node, s.right)
  }

  function RemovalRounds(t: Tree, k: int): nat {
    var s := Splayed(k, t);
    Rounds(k, t) + if s.Fork? && s.node.key == k then Rounds(k, s.left) else 0
  }

  lemma RotatedLeftOrder(t: Tree)
    requires t.Fork? && t.right.Fork?
    ensures InOrder(RotatedLeft(t)) == InOrder(t) && Size(RotatedLeft(t)) == Size(t)
  {
    var a, b, d := InOrder(t.left), InOrder(t.right.left), InOrder(t.right.right);
    assert InOrder(RotatedLeft(t)) == (a + [t.node] + b) + [t.right.node] + d;
    assert InOrder(t) == a + [t.node] + (b + [t.right.node] + d);
  }

  lemma RotatedRightOrder(t: Tree)
    requires t.Fork? && t.left.Fork?
    ensures InOrder(RotatedRight(t)) == InOrder(t) && Size(RotatedRight(t)) == Size(t)
  {
    RotatedLeftOrder(RotatedRight(t));
  }

  lemma SeqRegroup<T>(a: seq<T>, b: seq<T>, c: seq<T>, d: seq<T>, e: seq<T>)
    ensures a + b + (c + d + e) == a + (b + c + d) + e
    ensures (a + b + c) + d + e == a + (b + c + d) + e
  {
    assert a + b + (c + d + e) == a + (b + c + d) + e;
    assert (a + b + c) + d + e == a + (b + c + d) + e;
  }

  lemma SeqAround<T>(a: seq<T>, b: seq<T>, c: seq<T>, d: seq<T>, e: seq<T>)
    ensures (a + b) + c + (d + e) == a + (b + c + d) + e
  {
  }

  lemma SeqOut<T>(a: seq<T>, b: seq<T>, c: seq<T>, d: seq<T>)
    ensures a + (b + c + d) == a + b + c + d
    ensures (b + c + d) + a == b + (c + d + a)
  {
  }

  // ---------- Nodes and keys ----------

  function Nodes(t: Tree): set<Node> {
    if t.Leaf? then {} else Nodes(t.left) + {t.node} + Nodes(t.right)
  }

  lemma RotatedLeftNodes(t: Tree)
    requires t.Fork? && t.right.Fork?
    ensures Nodes(RotatedLeft(t)) == Nodes(t)
    ensures t.node in Nodes(t) && t.right.node in Nodes(t)
  {
    var u := RotatedLeft(t);
    assert Nodes(t.right) == Nodes(t.right.left) + {t.right.node} + Nodes(t.right.right);
    assert Nodes(u.left) == Nodes(t.left) + {t.node} + Nodes(t.right.left);
  }

  lemma RotatedRightNodes(t: Tree)
    requires t.Fork? && t.left.Fork?
    ensures Nodes(RotatedRight(t)) == Nodes(t)
    ensures t.node in Nodes(t) && t.left.node in Nodes(t)
  {
    var u := RotatedRight(t);
    assert Nodes(t.left) == Nodes(t.left.left) + {t.left.node} + Nodes(t.left.right);
    assert Nodes(u.right) == Nodes(t.left.right) + {t.node} + Nodes(t.right);
  }

  function SpineNodes(s: Spine): set<Node> {
    if s.End? then {} else {s.node} + Nodes(s.side) + SpineNodes(s.up)
  }

  lemma {:induction false} PlugLeftNodes(s: Spine, t: Tree)
    ensures Nodes(PlugLeft(s, t)) == SpineNodes(s) + Nodes(t)
    decreases s
  {
    if s.Link? {
      PlugLeftNodes(s.up, Fork(s.side, s.node, t));
    }
  }

  lemma {:induction false} PlugRightNodes(s: Spine, t: Tree)
    ensures Nodes(PlugRight(s, t)) == SpineNodes(s) + Nodes(t)
    decreases s
  {
    if s.Link? {
      PlugRightNodes(s.up, Fork(t, s.node, s.side));
    }
  }

  /** The root of `t` has the key `k`, or is the nearest node above or below it. */
  predicate Near(t: Tree, k: int) {
    && t.Fork?
    && (k < t.node.key ==> forall x :: x in Nodes(t.left) ==> x.key < k)
    && (t.node.key < k ==> forall x :: x in Nodes(t.right) ==> k < x.key)
  }

  /** The keys of `t` are in search order and lie strictly between `lo` and `hi`. */
  predicate Bounded(t: Tree, lo: int, hi: int) {
    t.Fork? ==>
      lo < t.node.key < hi && Bounded(t.left, lo, t.node.key) && Bounded(t.right, t.node.key, hi)
  }

  lemma BoundedFork(t: Tree, lo: int, hi: int)
    requires t.Fork? && Bounded(t, lo, hi)
    ensures lo < t.node.key < hi && Bounded(t.left, lo, t.node.key) && Bounded(t.right, t.node.key, hi)
  {
  }

  function EndKey(s: Spine, default: int): int {
    if s.End? then default else s.node.key
  }

  predicate BoundedLeft(s: Spine, lo: int, hi: int) {
    s.Link? ==>
      && lo < s.node.key < hi && Bounded(s.side, EndKey(s.up, lo), s.node.key)
      && BoundedLeft(s.up, lo, s.node.key)
  }

  predicate BoundedRight(s: Spine, lo: int, hi: int) {
    s.Link? ==>
      && lo < s.node.key < hi && Bounded(s.side, s.node.key, EndKey(s.up, hi))
      && BoundedRight(s.up, s.node.key, hi)
  }

  lemma {:induction false} BoundedNodes(t: Tree, lo: int, hi: int)
    requires Bounded(t, lo, hi)
    ensures forall x :: x in Nodes(t) ==> lo < x.key < hi
    ensures t.Fork? ==> t.node !in Nodes(t.left) && t.node !in Nodes(t.right)
  {
    if t.Fork? {
      BoundedNodes(t.left, lo, t.node.key);
      BoundedNodes(t.right, t.node.key, hi);
    }
  }

  lemma {:induction false} BoundedLeftNodes(s: Spine, lo: int, hi: int)
    requires BoundedLeft(s, lo, hi)
    ensures forall x :: x in SpineNodes(s) ==> lo < x.key < hi
  {
    if s.Link? {
      BoundedLeftNodes(s.up, lo, s.node.key);
      BoundedNodes(s.side, EndKey(s.up, lo), s.node.key);
    }
  }

  lemma {:induction false} BoundedRightNodes(s: Spine, lo: int, hi: int)
    requires BoundedRight(s, lo, hi)
    ensures forall x :: x in SpineNodes(s) ==> lo < x.key < hi
  {
    if s.Link? {
      BoundedRightNodes(s.up, s.node.key, hi);
      BoundedNodes(s.side, s.node.key, EndKey(s.up, hi));
    }
  }

  lemma {:induction false} PlugLeftBounded(s: Spine, t: Tree, lo: int, hi: int)
    requires BoundedLeft(s, lo, hi) && Bounded(t, EndKey(s, lo), hi)
    ensures Bounded(PlugLeft(s, t), lo, hi)
    decreases s
  {
    if s.Link? {
      WiderLeft(s.up, lo, s.node.key, hi);
      PlugLeftBounded(s.up, Fork(s.side, s.node, t), lo, hi);
    }
  }

  lemma {:induction false} PlugRightBounded(s: Spine, t: Tree, lo: int, hi: int)
    requires BoundedRight(s, lo, hi) && Bounded(t, lo, EndKey(s, hi))
    ensures Bounded(PlugRight(s, t), lo, hi)
    decreases s
  {
    if s.Link? {
      WiderRight(s.up, s.node.key, lo, hi);
      PlugRightBounded(s.up, Fork(t, s.node, s.side), lo, hi);
    }
  }

  lemma WiderLeft(s: Spine, lo: int, hi: int, hi': int)
    requires BoundedLeft(s, lo, hi) && hi <= hi'
    ensures BoundedLeft(s, lo, hi')
  {
  }

  lemma WiderRight(s: Spine, lo: int, lo': int, hi: int)
    requires BoundedRight(s, lo, hi) && lo' <= lo
    ensures BoundedRight(s, lo', hi)
  {
  }

  lemma WiderLeftTo(s: Spine, lo: int, hi: int, hi': int)
    requires BoundedLeft(s, lo, hi) && EndKey(s, lo) < hi'
    ensures BoundedLeft(s, lo, hi')
  {
  }

  lemma WiderRightTo(s: Spine, lo: int, lo': int, hi: int)
    requires BoundedRight(s, lo, hi) && lo' < EndKey(s, hi)
    ensures BoundedRight(s, lo', hi)
  {
  }

  lemma {:induction false} Wider(t: Tree, lo: int, hi: int, lo': int, hi': int)
    requires Bounded(t, lo, hi) && lo' <= lo && hi <= hi'
    ensures Bounded(t, lo', hi')
  {
    if t.Fork? {
      Wider(t.left, lo, t.node.key, lo', t.node.key);
      Wider(t.right, t.node.key, hi, t.node.key, hi');
    }
  }

  // ---------- Linked representation ----------

  ghost predicate Linked(t: Tree)
    reads Nodes(t)
  {
    t.Fork? ==>
      t.node.left == RootOf(t.left) && t.node.right == RootOf(t.right) && Linked(t.left) && Linked(t.right)
  }

  /** The node on whose free link the next node of a side tree is hung. */
  function Tip(s: Spine): Node {
    if s.End? then s.header else s.node
  }

  function Header(s: Spine): Node {
    if s.End? then s.header else Header(s.up)
  }

  /** The left tree hangs on the right link of its header; the right link of its tip is free. */
  ghost predicate LinkedLeft(s: Spine)
    reads SpineNodes(s), Header(s)`right
  {
    s.Link? ==>
      assert Tip(s.up) in SpineNodes(s.up) || Tip(s.up) == Header(s);
      s.node.left == RootOf(s.side) && Linked(s.side) && Tip(s.up).right == s.node && LinkedLeft(s.up)
  }

  /** The right tree hangs on the left link of its header; the left link of its tip is free. */
  ghost predicate LinkedRight(s: Spine)
    reads SpineNodes(s), Header(s)`left
  {
    s.Link? ==>
      assert Tip(s.up) in SpineNodes(s.up) || Tip(s.up) == Header(s);
      s.node.right == RootOf(s.side) && Linked(s.side) && Tip(s.up).left == s.node && LinkedRight(s.up)
  }

  lemma LinkedFork(t: Tree)
    requires t.Fork? && Linked(t)
    ensures t.node.left == RootOf(t.left) && t.node.right == RootOf(t.right)
    ensures Linked(t.left) && Linked(t.right)
  {
  }

  lemma LinkedFromParts(t: Tree)
    requires t.Fork? && Linked(t.left) && Linked(t.right)
    requires t.node.left == RootOf(t.left) && t.node.right == RootOf(t.right)
    ensures Linked(t)
  {
  }

  twostate lemma {:induction false} LinkedFrame(t: Tree)
    requires old(Linked(t))
    requires forall x :: x in Nodes(t) && old(allocated(x)) ==> x.left == old(x.left) && x.right == old(x.right)
    ensures Linked(t)
  {
    if t.Fork? {
      LinkedFrame(t.left);
      LinkedFrame(t.right);
    }
  }

  twostate lemma {:induction false} LinkedLeftFrame(s: Spine)
    requires old(LinkedLeft(s)) && Header(s).right == old(Header(s).right)
    requires forall x :: x in SpineNodes(s) && old(allocated(x)) ==> x.left == old(x.left) && x.right == old(x.right)
    ensures LinkedLeft(s)
  {
    if s.Link? {
      LinkedFrame(s.side);
      LinkedLeftFrame(s.up);
    }
  }

  twostate lemma {:induction false} LinkedRightFrame(s: Spine)
    requires old(LinkedRight(s)) && Header(s).left == old(Header(s).left)
    requires forall x :: x in SpineNodes(s) && old(allocated(x)) ==> x.left == old(x.left) && x.right == old(x.right)
    ensures LinkedRight(s)
  {
    if s.Link? {
      LinkedFrame(s.side);
      LinkedRightFrame(s.up);
    }
  }

  lemma {:induction false} PlugLeftLinked(s: Spine, t: Tree)
    requires LinkedLeft(s) && Linked(t) && Tip(s).right == RootOf(t)
    ensures Linked(PlugLeft(s, t)) && Header(s).right == RootOf(PlugLeft(s, t))
    decreases s
  {
    if s.Link? {
      PlugLeftLinked(s.up, Fork(s.side, s.node, t));
    }
  }

  lemma {:induction false} PlugRightLinked(s: Spine, t: Tree)
    requires LinkedRight(s) && Linked(t) && Tip(s).left == RootOf(t)
    ensures Linked(PlugRight(s, t)) && Header(s).left == RootOf(PlugRight(s, t))
    decreases s
  {
    if s.Link? {
      PlugRightLinked(s.up, Fork(t, s.node, s.side));
    }
  }

  // ---------- Sorted contents ----------

  predicate Increasing(s: seq<Node>) {
    forall i, j :: 0 <= i < j < |s| ==> s[i].key < s[j].key
  }

  lemma {:induction false} OrderNodes(t: Tree)
    ensures forall x :: x in InOrder(t) ==> x in Nodes(t)
    ensures forall x :: x in Nodes(t) ==> x in InOrder(t)
  {
    if t.Fork? {
      OrderNodes(t.left);
      OrderNodes(t.right);
    }
  }

  lemma {:induction false} OrderIncreasing(t: Tree, lo: int, hi: int)
    requires Bounded(t, lo, hi)
    ensures Increasing(InOrder(t))
    ensures forall x :: x in InOrder(t) ==> lo < x.key < hi
  {
    if t.Fork? {
      OrderIncreasing(t.left, lo, t.node.key);
      OrderIncreasing(t.right, t.node.key, hi);
      var a, b := InOrder(t.left), InOrder(t.right);
      forall i, j | 0 <= i < j < |InOrder(t)|
        ensures InOrder(t)[i].key < InOrder(t)[j].key
      {
        assert i < |a| ==> a[i] in a && InOrder(t)[i] == a[i];
        assert j > |a| ==> b[j - |a| - 1] in b && InOrder(t)[j] == b[j - |a| - 1];
      }
    }
  }

  lemma RootInNodes(t: Tree)
    ensures t.Fork? ==> t.node in Nodes(t)
  {
  }

  lemma Alone(x: Node, lo: int, hi: int)
    requires lo < x.key < hi && x.left == null && x.right == null
    ensures InOrder(Fork(Leaf, x, Leaf)) == [x] && Bounded(Fork(Leaf, x, Leaf), lo, hi)
    ensures Linked(Fork(Leaf, x, Leaf))
  {
    assert InOrder(Leaf) == [];
    assert Bounded(Leaf, lo, x.key) && Bounded(Leaf, x.key, hi);
    assert Linked(Leaf);
  }

  lemma AfterRoot(t: Tree, i: nat)
    requires t.Fork? && i == |InOrder(t.left)|
    ensures i < |InOrder(t)| && InOrder(t)[i] == t.node
    ensures if t.right.Leaf? then i + 1 == |InOrder(t)|
            else i + 1 < |InOrder(t)| && InOrder(t.right) != [] && InOrder(t)[i + 1] == InOrder(t.right)[0]
  {
  }

  /** After a splay the key is at the root or nowhere. */
  lemma NearFinds(t: Tree, lo: int, hi: int, k: int)
    requires Bounded(t, lo, hi) && Near(t, k)
    ensures k != t.node.key ==> forall x :: x in Nodes(t) ==> x.key != k
    ensures k != t.node.key ==> forall x :: x in InOrder(t) ==> x.key != k
    ensures t.node in InOrder(t)
  {
    OrderNodes(t);
    BoundedNodes(t.left, lo, t.node.key);
    BoundedNodes(t.right, t.node.key, hi);
  }

  lemma SameKey(t: Tree, lo: int, hi: int, x: Node)
    requires Bounded(t, lo, hi) && Near(t, x.key) && x in Nodes(t)
    ensures t.node == x
  {
    NearFinds(t, lo, hi, x.key);
    BoundedNodes(t.left, lo, t.node.key);
    BoundedNodes(t.right, t.node.key, hi);
  }

  /** A root nearest to the lower or the upper bound is the first or the last node. */
  lemma NearEdge(t: Tree, lo: int, hi: int, k: int)
    requires Bounded(t, lo, hi) && Near(t, k) && (k == lo || k == hi)
    ensures InOrder(t) != [] && t.node == InOrder(t)[if k == lo then 0 else |InOrder(t)| - 1]
  {
    BoundedNodes(t.left, lo, t.node.key);
    BoundedNodes(t.right, t.node.key, hi);
    RootInNodes(t.left);
    RootInNodes(t.right);
  }

  lemma NearMax(t: Tree, k: int)
    requires Near(t, k) && forall x :: x in Nodes(t) ==> x.key < k
    ensures t.right.Leaf? && t.node.key < k
  {
    RootInNodes(t.right);
  }

  /** A subtree stays in bounds when a bound moves closer without passing a key. */
  lemma {:induction false} NearBound(t: Tree, lo: int, hi: int, k: int)
    requires Bounded(t, lo, hi)
    ensures (forall x :: x in Nodes(t) ==> x.key < k) ==> Bounded(t, lo, k)
    ensures (forall x :: x in Nodes(t) ==> k < x.key) ==> Bounded(t, k, hi)
  {
    if t.Fork? {
      NearBound(t.left, lo, t.node.key, k);
      NearBound(t.right, t.node.key, hi, k);
    }
  }

  lemma SplitBefore(l: Tree, x: Node, r: Tree, elm: Node)
    ensures InOrder(Fork(l, elm, Fork(Leaf, x, r)))
      == InOrder(Fork(l, x, r))[..|InOrder(l)|] + [elm] + InOrder(Fork(l, x, r))[|InOrder(l)|..]
  {
    assert InOrder(Leaf) == [];
    var s := InOrder(Fork(l, x, r));
    assert s[..|InOrder(l)|] == InOrder(l);
    assert s[|InOrder(l)|..] == [] + [x] + InOrder(r);
  }

  lemma SplitAfter(l: Tree, x: Node, r: Tree, elm: Node)
    ensures InOrder(Fork(Fork(l, x, Leaf), elm, r))
      == InOrder(Fork(l, x, r))[..|InOrder(l)| + 1] + [elm] + InOrder(Fork(l, x, r))[|InOrder(l)| + 1..]
  {
    assert InOrder(Leaf) == [];
    var s := InOrder(Fork(l, x, r));
    assert s[..|InOrder(l)| + 1] == InOrder(l) + [x] + [];
    assert s[|InOrder(l)| + 1..] == InOrder(r);
  }

  class SplayTree {
    var root: Node?
    ghost var tree: Tree
    ghost var low: int
    ghost var high: int

    ghost predicate Valid()
      reads this, Nodes(tree)
    {
      root == RootOf(tree) && Linked(tree) && Bounded(tree, low, high)
    }

    /** The three trees of a running splay, in the heap. */
    ghost predicate Parted(ls: Spine, t: Tree, rs: Spine)
      reads this, Header(ls), Header(rs), SpineNodes(ls), Nodes(t), SpineNodes(rs)
    {
      root == RootOf(t) && Linked(t) && LinkedLeft(ls) && LinkedRight(rs)
    }

    /** The keys of the three trees follow each other, and the header is a node of its own. */
    ghost predicate Keyed(ls: Spine, t: Tree, rs: Spine)
      reads this`low, this`high
    {
      && Bounded(t, EndKey(ls, low), EndKey(rs, high))
      && BoundedLeft(ls, low, EndKey(rs, high)) && BoundedRight(rs, EndKey(ls, low), high)
      && EndKey(ls, low) < EndKey(rs, high)
      && Header(ls) == Header(rs)
      && Header(ls) !in SpineNodes(ls) && Header(ls) !in Nodes(t) && Header(ls) !in SpineNodes(rs)
    }

    lemma PartedKeys(ls: Spine, t: Tree, rs: Spine)
      requires Keyed(ls, t, rs)
      ensures forall x :: x in SpineNodes(ls) ==> low < x.key <= EndKey(ls, low)
      ensures forall x :: x in Nodes(t) ==> EndKey(ls, low) < x.key < EndKey(rs, high)
      ensures forall x :: x in SpineNodes(rs) ==> EndKey(rs, high) <= x.key < high
    {
      BoundedNodes(t, EndKey(ls, low), EndKey(rs, high));
      if ls.Link? {
        BoundedLeftNodes(ls.up, low, ls.node.key);
        BoundedNodes(ls.side, EndKey(ls.up, low), ls.node.key);
      }
      if rs.Link? {
        BoundedRightNodes(rs.up, rs.node.key, high);
        BoundedNodes(rs.side, rs.node.key, EndKey(rs.up, high));
      }
    }

    // ---------- Rotations and links ----------

    lemma RotatedRightKeyed(ls: Spine, t: Tree, rs: Spine)
      requires Keyed(ls, t, rs) && t.Fork? && t.left.Fork?
      ensures Keyed(ls, RotatedRight(t), rs)
    {
      var u := RotatedRight(t);
      var lo, hi := EndKey(ls, low), EndKey(rs, high);
      BoundedFork(t, lo, hi);
      BoundedFork(t.left, lo, t.node.key);
      assert Bounded(u.right, u.node.key, hi);
      RotatedRightNodes(t);
    }

    lemma RotatedLeftKeyed(ls: Spine, t: Tree, rs: Spine)
      requires Keyed(ls, t, rs) && t.Fork? && t.right.Fork?
      ensures Keyed(ls, RotatedLeft(t), rs)
    {
      var u := RotatedLeft(t);
      var lo, hi := EndKey(ls, low), EndKey(rs, high);
      BoundedFork(t, lo, hi);
      BoundedFork(t.right, t.node.key, hi);
      assert Bounded(u.left, lo, u.node.key);
      RotatedLeftNodes(t);
    }

    /** No other part of the three trees holds the two topmost nodes. */
    lemma TopTwoLeft(ls: Spine, t: Tree, rs: Spine)
      requires Keyed(ls, t, rs) && t.Fork? && t.left.Fork?
      ensures forall x :: x in SpineNodes(ls) || x in SpineNodes(rs) ==> x != t.node && x != t.left.node
      ensures forall x :: x in Nodes(t.left.left) || x in Nodes(t.left.right) ==> x != t.node && x != t.left.node
      ensures forall x :: x in Nodes(t.right) ==> x != t.node && x != t.left.node
      ensures t.node != t.left.node && Header(ls) != t.node && Header(ls) != t.left.node
    {
      var lo, hi := EndKey(ls, low), EndKey(rs, high);
      PartedKeys(ls, t, rs);
      BoundedFork(t, lo, hi);
      BoundedFork(t.left, lo, t.node.key);
      BoundedNodes(t.left.left, lo, t.left.node.key);
      BoundedNodes(t.left.right, t.left.node.key, t.node.key);
      BoundedNodes(t.right, t.node.key, hi);
      RotatedRightNodes(t);
    }

    lemma TopTwoRight(ls: Spine, t: Tree, rs: Spine)
      requires Keyed(ls, t, rs) && t.Fork? && t.right.Fork?
      ensures forall x :: x in SpineNodes(ls) || x in SpineNodes(rs) ==> x != t.node && x != t.right.node
      ensures forall x :: x in Nodes(t.right.left) || x in Nodes(t.right.right) ==> x != t.node && x != t.right.node
      ensures forall x :: x in Nodes(t.left) ==> x != t.node && x != t.right.node
      ensures t.node != t.right.node && Header(ls) != t.node && Header(ls) != t.right.node
    {
      var lo, hi := EndKey(ls, low), EndKey(rs, high);
      PartedKeys(ls, t, rs);
      BoundedFork(t, lo, hi);
      BoundedFork(t.right, t.node.key, hi);
      BoundedNodes(t.right.right, t.right.node.key, hi);
      BoundedNodes(t.right.left, t.node.key, t.right.node.key);
      BoundedNodes(t.left, lo, t.node.key);
      RotatedLeftNodes(t);
    }

    /** SPLAY_ROTATE_RIGHT */
    method RotateRight(tmp: Node, ghost ls: Spine, ghost t: Tree, ghost rs: Spine)
      requires Parted(ls, t, rs) && Keyed(ls, t, rs) && t.Fork? && t.left.Fork? && tmp == t.left.node
      modifies this`root, t.node`left, tmp`right
      ensures Parted(ls, RotatedRight(t), rs)
    {
      LinkedFork(t);
      LinkedFork(t.left);
      TopTwoLeft(ls, t, rs);
      root.left := tmp.right;
      tmp.right := root;
      root := tmp;
      LinkedLeftFrame(ls);
      LinkedRightFrame(rs);
      LinkedFrame(t.left.left);
      LinkedFrame(t.left.right);
      LinkedFrame(t.right);
      LinkedFromParts(RotatedRight(t).right);
    }

    /** SPLAY_ROTATE_LEFT */
    method RotateLeft(tmp: Node, ghost ls: Spine, ghost t: Tree, ghost rs: Spine)
      requires Parted(ls, t, rs) && Keyed(ls, t, rs) && t.Fork? && t.right.Fork? && tmp == t.right.node
      modifies this`root, t.node`right, tmp`left
      ensures Parted(ls, RotatedLeft(t), rs)
    {
      LinkedFork(t);
      LinkedFork(t.right);
      TopTwoRight(ls, t, rs);
      root.right := tmp.left;
      tmp.left := root;
      root := tmp;
      LinkedLeftFrame(ls);
      LinkedRightFrame(rs);
      LinkedFrame(t.right.left);
      LinkedFrame(t.right.right);
      LinkedFrame(t.left);
      LinkedFromParts(RotatedLeft(t).left);
    }

    lemma LinkedLeftKeyed(ls: Spine, t: Tree, rs: Spine)
      requires Keyed(ls, t, rs) && t.Fork?
      ensures Keyed(ls, t.left, Link(t.node, t.right, rs))
    {
      PartedKeys(ls, t, rs);
      BoundedFork(t, EndKey(ls, low), EndKey(rs, high));
      WiderLeftTo(ls, low, EndKey(rs, high), t.node.key);
      WiderRightTo(rs, EndKey(ls, low), t.node.key, high);
    }

    lemma LinkedRightKeyed(ls: Spine, t: Tree, rs: Spine)
      requires Keyed(ls, t, rs) && t.Fork?
      ensures Keyed(Link(t.node, t.left, ls), t.right, rs)
    {
      PartedKeys(ls, t, rs);
      BoundedFork(t, EndKey(ls, low), EndKey(rs, high));
      WiderLeftTo(ls, low, EndKey(rs, high), t.node.key);
      WiderRightTo(rs, EndKey(ls, low), t.node.key, high);
    }

    /** No other part of the three trees holds the tip of the right tree. */
    lemma RightTipApart(ls: Spine, t: Tree, rs: Spine)
      requires Keyed(ls, t, rs)
      ensures forall x :: x in SpineNodes(ls) || x in Nodes(t) ==> x != Tip(rs)
      ensures rs.Link? ==> forall x :: x in SpineNodes(rs.up) || x in Nodes(rs.side) ==> x != rs.node
      ensures rs.Link? ==> Header(rs) != rs.node
    {
      PartedKeys(ls, t, rs);
      if rs.Link? {
        BoundedRightNodes(rs.up, rs.node.key, high);
        BoundedNodes(rs.side, rs.node.key, EndKey(rs.up, high));
      }
    }

    lemma LeftTipApart(ls: Spine, t: Tree, rs: Spine)
      requires Keyed(ls, t, rs)
      ensures forall x :: x in SpineNodes(rs) || x in Nodes(t) ==> x != Tip(ls)
      ensures ls.Link? ==> forall x :: x in SpineNodes(ls.up) || x in Nodes(ls.side) ==> x != ls.node
      ensures ls.Link? ==> Header(ls) != ls.node
    {
      PartedKeys(ls, t, rs);
      if ls.Link? {
        BoundedLeftNodes(ls.up, low, ls.node.key);
        BoundedNodes(ls.side, EndKey(ls.up, low), ls.node.key);
      }
    }

    /** SPLAY_LINKLEFT */
    method LinkLeft(tmp: Node, ghost ls: Spine, ghost t: Tree, ghost rs: Spine) returns (tip: Node)
      requires Parted(ls, t, rs) && Keyed(ls, t, rs) && t.Fork? && tmp == Tip(rs)
      modifies this`root, tmp`left
      ensures Parted(ls, t.left, Link(t.node, t.right, rs)) && tip == t.node
    {
      RightTipApart(ls, t, rs);
      tmp.left := root;
      tip := root;
      root := root.left;
      LinkedLeftFrame(ls);
      LinkedFrame(t);
      LinkedFork(t);
      if rs.Link? {
        LinkedRightFrame(rs.up);
        LinkedFrame(rs.side);
      }
    }

    /** SPLAY_LINKRIGHT */
    method LinkRight(tmp: Node, ghost ls: Spine, ghost t: Tree, ghost rs: Spine) returns (tip: Node)
      requires Parted(ls, t, rs) && Keyed(ls, t, rs) && t.Fork? && tmp == Tip(ls)
      modifies this`root, tmp`right
      ensures Parted(Link(t.node, t.left, ls), t.right, rs) && tip == t.node
    {
      LeftTipApart(ls, t, rs);
      tmp.right := root;
      tip := root;
      root := root.right;
      LinkedRightFrame(rs);
      LinkedFrame(t);
      LinkedFork(t);
      if ls.Link? {
        LinkedLeftFrame(ls.up);
        LinkedFrame(ls.side);
      }
    }

    function Assembled(ls: Spine, t: Tree, rs: Spine): Tree
      requires t.Fork?
    {
      Fork(PlugLeft(ls, t.left), t.node, PlugRight(rs, t.right))
    }

    /** The first half of SPLAY_ASSEMBLE: the subtrees of the root go to the tips of the side trees. */
    method HangTips(header: Node, left: Node, right: Node, ghost ls: Spine, ghost t: Tree, ghost rs: Spine)
      requires Parted(ls, t, rs) && Keyed(ls, t, rs) && t.Fork?
      requires header == Header(ls) && left == Tip(ls) && right == Tip(rs)
      modifies left`right, right`left
      ensures Linked(PlugLeft(ls, t.left)) && header.right == RootOf(PlugLeft(ls, t.left))
      ensures Linked(PlugRight(rs, t.right)) && header.left == RootOf(PlugRight(rs, t.right))
    {
      LinkedFork(t);
      LeftTipApart(ls, t, rs);
      RightTipApart(ls, t, rs);
      left.right := root.left;
      right.left := root.right;
      LinkedFrame(t.left);
      LinkedFrame(t.right);
      if ls.Link? {
        LinkedLeftFrame(ls.up);
        LinkedFrame(ls.side);
      }
      if rs.Link? {
        LinkedRightFrame(rs.up);
        LinkedFrame(rs.side);
      }
      PlugLeftLinked(ls, t.left);
      PlugRightLinked(rs, t.right);
    }

    /** SPLAY_ASSEMBLE */
    method Assemble(header: Node, left: Node, right: Node, ghost ls: Spine, ghost t: Tree, ghost rs: Spine)
      requires Parted(ls, t, rs) && Keyed(ls, t, rs) && t.Fork?
      requires header == Header(ls) && left == Tip(ls) && right == Tip(rs)
      modifies left`right, right`left, t.node
      ensures root == t.node && Linked(Assembled(ls, t, rs))
      ensures Bounded(Assembled(ls, t, rs), low, high)
      ensures InOrder(Assembled(ls, t, rs)) == LeftOrder(ls) + InOrder(t) + RightOrder(rs)
    {
      AssembledKeys(ls, t, rs);
      AssembledOrder(ls, t, rs);
      HangTips(header, left, right, ls, t, rs);
      label Hung:
      root.left := header.right;
      root.right := header.left;
      LinkedFrame@Hung(PlugLeft(ls, t.left));
      LinkedFrame@Hung(PlugRight(rs, t.right));
    }

    lemma AssembledKeys(ls: Spine, t: Tree, rs: Spine)
      requires Keyed(ls, t, rs) && t.Fork?
      ensures Bounded(Assembled(ls, t, rs), low, high)
      ensures t.node !in Nodes(PlugLeft(ls, t.left)) && t.node !in Nodes(PlugRight(rs, t.right))
      ensures t.node != Header(ls)
    {
      BoundedFork(t, EndKey(ls, low), EndKey(rs, high));
      WiderLeftTo(ls, low, EndKey(rs, high), t.node.key);
      WiderRightTo(rs, EndKey(ls, low), t.node.key, high);
      PlugLeftBounded(ls, t.left, low, t.node.key);
      PlugRightBounded(rs, t.right, t.node.key, high);
      EndKeyBounds(ls, rs);
      BoundedNodes(PlugLeft(ls, t.left), low, t.node.key);
      BoundedNodes(PlugRight(rs, t.right), t.node.key, high);
    }

    lemma EndKeyBounds(ls: Spine, rs: Spine)
      requires BoundedLeft(ls, low, EndKey(rs, high)) && BoundedRight(rs, EndKey(ls, low), high)
      ensures low <= EndKey(ls, low) && EndKey(rs, high) <= high
    {
    }

    lemma AssembledOrder(ls: Spine, t: Tree, rs: Spine)
      requires t.Fork?
      ensures InOrder(Assembled(ls, t, rs)) == LeftOrder(ls) + InOrder(t) + RightOrder(rs)
    {
      PlugLeftOrder(ls, t.left);
      PlugRightOrder(rs, t.right);
      SeqAround(LeftOrder(ls), InOrder(t.left), [t.node], InOrder(t.right), RightOrder(rs));
    }

    // ---------- Splaying ----------

    /** The three trees hold `order`, with the key `k` between the side trees. */
    ghost predicate Between(k: int, order: seq<Node>, ls: Spine, t: Tree, rs: Spine)
      reads this`low, this`high
    {
      && t.Fork? && Keyed(ls, t, rs)
      && LeftOrder(ls) + InOrder(t) + RightOrder(rs) == order
      && (ls.Link? ==> ls.node.key < k) && (rs.Link? ==> k < rs.node.key)
    }

    lemma RotatedRightBetween(k: int, order: seq<Node>, ls: Spine, t: Tree, rs: Spine)
      requires Between(k, order, ls, t, rs) && t.left.Fork?
      ensures Between(k, order, ls, RotatedRight(t), rs)
      ensures Nodes(RotatedRight(t)) == Nodes(t) && Size(RotatedRight(t)) == Size(t)
      ensures t.node in Nodes(t) && t.left.node in Nodes(t)
    {
      RotatedRightKeyed(ls, t, rs);
      RotatedRightNodes(t);
      RotatedRightOrder(t);
    }

    lemma RotatedLeftBetween(k: int, order: seq<Node>, ls: Spine, t: Tree, rs: Spine)
      requires Between(k, order, ls, t, rs) && t.right.Fork?
      ensures Between(k, order, ls, RotatedLeft(t), rs)
      ensures Nodes(RotatedLeft(t)) == Nodes(t) && Size(RotatedLeft(t)) == Size(t)
      ensures t.node in Nodes(t) && t.right.node in Nodes(t)
    {
      RotatedLeftKeyed(ls, t, rs);
      RotatedLeftNodes(t);
      RotatedLeftOrder(t);
    }

    lemma LinkLeftBetween(k: int, order: seq<Node>, ls: Spine, t: Tree, rs: Spine)
      requires Between(k, order, ls, t, rs) && t.left.Fork? && k < t.node.key
      ensures Between(k, order, ls, t.left, Link(t.node, t.right, rs)) && Size(t.left) < Size(t)
      ensures SpineNodes(ls) + Nodes(t.left) + SpineNodes(Link(t.node, t.right, rs))
           == SpineNodes(ls) + Nodes(t) + SpineNodes(rs)
    {
      LinkedLeftKeyed(ls, t, rs);
      SeqRegroup(LeftOrder(ls), InOrder(t.left), [t.node], InOrder(t.right), RightOrder(rs));
    }

    lemma LinkRightBetween(k: int, order: seq<Node>, ls: Spine, t: Tree, rs: Spine)
      requires Between(k, order, ls, t, rs) && t.right.Fork? && t.node.key < k
      ensures Between(k, order, Link(t.node, t.left, ls), t.right, rs) && Size(t.right) < Size(t)
      ensures SpineNodes(Link(t.node, t.left, ls)) + Nodes(t.right) + SpineNodes(rs)
           == SpineNodes(ls) + Nodes(t) + SpineNodes(rs)
    {
      LinkedRightKeyed(ls, t, rs);
      SeqRegroup(LeftOrder(ls), InOrder(t.left), [t.node], InOrder(t.right), RightOrder(rs));
    }

    lemma AssembledNear(k: int, ls: Spine, t: Tree, rs: Spine)
      requires Keyed(ls, t, rs) && t.Fork?
      requires (ls.Link? ==> ls.node.key < k) && (rs.Link? ==> k < rs.node.key)
      requires k == t.node.key || (k < t.node.key && t.left.Leaf?) || (t.node.key < k && t.right.Leaf?)
      ensures Near(Assembled(ls, t, rs), k)
    {
      PartedKeys(ls, t, rs);
      PlugLeftNodes(ls, t.left);
      PlugRightNodes(rs, t.right);
    }

    lemma RoundLeftBetween(k: int, order: seq<Node>, ls: Spine, t: Tree, rs: Spine, r: Round)
      requires Between(k, order, ls, t, rs) && k < t.node.key && r == RoundLeft(k, t, rs)
      ensures Between(k, order, ls, r.tree, r.side)
      ensures SpineNodes(ls) + Nodes(r.tree) + SpineNodes(r.side) == SpineNodes(ls) + Nodes(t) + SpineNodes(rs)
      ensures if r.stop then k < r.tree.node.key && r.tree.left.Leaf? else Size(r.tree) < Size(t)
    {
      if t.left.Fork? && k < t.left.node.key {
        RotatedRightBetween(k, order, ls, t, rs);
        BoundedFork(t, EndKey(ls, low), EndKey(rs, high));
        if t.left.left.Fork? {
          LinkLeftBetween(k, order, ls, RotatedRight(t), rs);
        }
      } else if t.left.Fork? {
        LinkLeftBetween(k, order, ls, t, rs);
      }
    }

    lemma RoundRightBetween(k: int, order: seq<Node>, ls: Spine, t: Tree, rs: Spine, r: Round)
      requires Between(k, order, ls, t, rs) && t.node.key < k && r == RoundRight(k, t, ls)
      ensures Between(k, order, r.side, r.tree, rs)
      ensures SpineNodes(r.side) + Nodes(r.tree) + SpineNodes(rs) == SpineNodes(ls) + Nodes(t) + SpineNodes(rs)
      ensures if r.stop then r.tree.node.key < k && r.tree.right.Leaf? else Size(r.tree) < Size(t)
    {
      if t.right.Fork? && t.right.node.key < k {
        RotatedLeftBetween(k, order, ls, t, rs);
        BoundedFork(t, EndKey(ls, low), EndKey(rs, high));
        if t.right.right.Fork? {
          LinkRightBetween(k, order, ls, RotatedLeft(t), rs);
        }
      } else if t.right.Fork? {
        LinkRightBetween(k, order, ls, t, rs);
      }
    }

    /** The branch of name_SPLAY for a key below the root. */
    method StepLeft(elm: Node, right: Node, ghost ls: Spine, ghost t: Tree, ghost rs: Spine)
      returns (stop: bool, tip: Node, ghost r: Round)
      requires Parted(ls, t, rs) && Keyed(ls, t, rs) && right == Tip(rs) && t.Fork? && elm.key < t.node.key
      modifies this`root, Nodes(t)`left, Nodes(t)`right, right`left
      ensures r == RoundLeft(elm.key, t, rs) && stop == r.stop
      ensures Parted(ls, r.tree, r.side) && tip == Tip(r.side)
    {
      ghost var t' := t;
      r, tip, stop := Round(true, t, rs), right, false;
      LinkedFork(t);
      var tmp := root.left;
      if tmp == null {
        stop := true;
      } else if elm.key < tmp.key {
        RotatedRightKeyed(ls, t, rs);
        RotatedRightNodes(t);
        RotateRight(tmp, ls, t, rs);
        t' := RotatedRight(t);
        r := Round(true, t', rs);
        LinkedFork(t');
        stop := root.left == null;
      }
      if !stop {
        tip := LinkLeft(right, ls, t', rs);
        r := Round(false, t'.left, Link(t'.node, t'.right, rs));
      }
    }

    /** The branch of name_SPLAY for a key above the root. */
    method StepRight(elm: Node, left: Node, ghost ls: Spine, ghost t: Tree, ghost rs: Spine)
      returns (stop: bool, tip: Node, ghost r: Round)
      requires Parted(ls, t, rs) && Keyed(ls, t, rs) && left == Tip(ls) && t.Fork? && t.node.key < elm.key
      modifies this`root, Nodes(t)`left, Nodes(t)`right, left`right
      ensures r == RoundRight(elm.key, t, ls) && stop == r.stop
      ensures Parted(r.side, r.tree, rs) && tip == Tip(r.side)
    {
      ghost var t' := t;
      r, tip, stop := Round(true, t, ls), left, false;
      LinkedFork(t);
      var tmp := root.right;
      if tmp == null {
        stop := true;
      } else if elm.key > tmp.key {
        RotatedLeftKeyed(ls, t, rs);
        RotatedLeftNodes(t);
        RotateLeft(tmp, ls, t, rs);
        t' := RotatedLeft(t);
        r := Round(true, t', ls);
        LinkedFork(t');
        stop := root.right == null;
      }
      if !stop {
        tip := LinkRight(left, ls, t', rs);
        r := Round(false, t'.right, Link(t'.node, t'.left, ls));
      }
    }

    /** The end of name_SPLAY. */
    method Finish(header: Node, left: Node, right: Node,
                  ghost k: int, ghost order: seq<Node>, ghost ls: Spine, ghost t: Tree, ghost rs: Spine)
      requires Parted(ls, t, rs) && Between(k, order, ls, t, rs)
      requires header == Header(ls) && left == Tip(ls) && right == Tip(rs)
      requires k == t.node.key || (k < t.node.key && t.left.Leaf?) || (t.node.key < k && t.right.Leaf?)
      modifies this`tree, left`right, right`left, t.node
      ensures Valid() && InOrder(tree) == order && Near(tree, k)
      ensures Nodes(tree) == SpineNodes(ls) + Nodes(t) + SpineNodes(rs) && tree == Assembled(ls, t, rs)
    {
      AssembledNear(k, ls, t, rs);
      AssembledNodes(ls, t, rs);
      Assemble(header, left, right, ls, t, rs);
      tree := Assembled(ls, t, rs);
    }

    /** What the loop of name_SPLAY keeps: the state, the header and the tips, the set of nodes. */
    ghost predicate Running(k: int, order: seq<Node>, all: set<Node>,
                            header: Node, left: Node, right: Node, ls: Spine, t: Tree, rs: Spine)
      reads this, Header(ls), Header(rs), SpineNodes(ls), Nodes(t), SpineNodes(rs)
    {
      && Parted(ls, t, rs) && Between(k, order, ls, t, rs)
      && header == Header(ls) && left == Tip(ls) && right == Tip(rs)
      && SpineNodes(ls) + Nodes(t) + SpineNodes(rs) == all
    }

    /** The tree in which the splay ends. */
    function Ending(stop: bool, k: int, ls: Spine, t: Tree, rs: Spine): Tree
      requires t.Fork?
    {
      var p := Rest(stop, k, t);
      Fork(PlugLeft(ls, p.left), p.node, PlugRight(rs, p.right))
    }

    /** One round of the loop of name_SPLAY. */
    method SplayRound(elm: Node, header: Node, left: Node, right: Node,
                      ghost order: seq<Node>, ghost all: set<Node>, ghost ls: Spine, ghost t: Tree, ghost rs: Spine)
      returns (stop: bool, left': Node, right': Node, ghost ls': Spine, ghost t': Tree, ghost rs': Spine)
      requires Running(elm.key, order, all, header, left, right, ls, t, rs) && elm.key != t.node.key
      modifies this`root, Nodes(t)`left, Nodes(t)`right, left`right, right`left
      ensures Running(elm.key, order, all, header, left', right', ls', t', rs')
      ensures if stop then (elm.key < t'.node.key && t'.left.Leaf?) || (t'.node.key < elm.key && t'.right.Leaf?)
              else Size(t') < Size(t)
      ensures Ending(stop, elm.key, ls', t', rs') == Ending(false, elm.key, ls, t, rs)
      ensures Rest(stop, elm.key, t').rounds + 1 == Split(elm.key, t).rounds
    {
      hide Split, Splayed;
      ghost var r;
      left', right', ls', rs' := left, right, ls, rs;
      if elm.key < root.key {
        stop, right', r := StepLeft(elm, right, ls, t, rs);
        RoundLeftBetween(elm.key, order, ls, t, rs, r);
        RoundLeftSplits(elm.key, t, rs);
        rs' := r.side;
      } else {
        stop, left', r := StepRight(elm, left, ls, t, rs);
        RoundRightBetween(elm.key, order, ls, t, rs, r);
        RoundRightSplits(elm.key, t, ls);
        ls' := r.side;
      }
      t' := r.tree;
    }

    /** name_SPLAY */
    method Splay(elm: Node) returns (ghost rounds: nat)
      requires Valid() && root != null
      modifies this`root, this`tree, Nodes(tree)
      ensures Valid() && InOrder(tree) == old(InOrder(tree)) && Nodes(tree) == old(Nodes(tree))
      ensures Near(tree, elm.key)
      ensures tree == Splayed(elm.key, old(tree)) && rounds == Rounds(elm.key, old(tree))
    {
      hide Split;
      rounds := 0;
      ghost var order, all := InOrder(tree), Nodes(tree);
      assert allocated(all);
      var header := new Node(0);
      var left, right := header, header;
      ghost var ls, t, rs := End(header), tree, End(header);
      assert LeftOrder(ls) + InOrder(t) + RightOrder(rs) == order;
      var stop := false;
      while !stop && elm.key != root.key
        invariant Running(elm.key, order, all, header, left, right, ls, t, rs) == true
        invariant stop ==> (elm.key < t.node.key && t.left.Leaf?) || (t.node.key < elm.key && t.right.Leaf?)
        invariant Ending(stop, elm.key, ls, t, rs) == Splayed(elm.key, old(tree))
        invariant rounds + Rest(stop, elm.key, t).rounds == Rounds(elm.key, old(tree))
        decreases !stop, Size(t)
      {
        stop, left, right, ls, t, rs := SplayRound(elm, header, left, right, order, all, ls, t, rs);
        rounds := rounds + 1;
      }
      SplitEnds(elm.key, t);
      Finish(header, left, right, elm.key, order, ls, t, rs);
    }

    lemma AssembledNodes(ls: Spine, t: Tree, rs: Spine)
      requires t.Fork?
      ensures Nodes(Assembled(ls, t, rs)) == SpineNodes(ls) + Nodes(t) + SpineNodes(rs)
    {
      PlugLeftNodes(ls, t.left);
      PlugRightNodes(rs, t.right);
    }

    // ---------- The set operations ----------

    /** SPLAY_INIT */
    constructor ()
      ensures Valid() && Contents() == []
    {
      root := null;
      tree, low, high := Leaf, 0, 0;
    }

    ghost function Contents(): seq<Node>
      reads this`tree
    {
      InOrder(tree)
    }

    lemma ContentsSorted()
      requires Valid()
      ensures Increasing(Contents())
    {
      OrderIncreasing(tree, low, high);
    }

    /** name_SPLAY_FIND */
    method Find(elm: Node) returns (r: Node?, ghost rounds: nat)
      requires Valid()
      modifies this`root, this`tree, Nodes(tree)
      ensures Valid() && Contents() == old(Contents()) && Nodes(tree) == old(Nodes(tree))
      ensures tree == Splayed(elm.key, old(tree)) && rounds == Rounds(elm.key, old(tree))
      ensures r != null ==> r in Contents() && r.key == elm.key
      ensures r == null ==> forall x :: x in Contents() ==> x.key != elm.key
    {
      if root == null {
        return null, 0;
      }
      rounds := Splay(elm);
      NearFinds(tree, low, high, elm.key);
      if elm.key == root.key {
        return root, rounds;
      }
      return null, rounds;
    }

    /** name_SPLAY_NEXT: the node behind `start`. */
    method Next(start: Node) returns (elm: Node?, ghost i: nat)
      requires Valid() && start in Contents()
      modifies this`root, this`tree, Nodes(tree)
      ensures Valid() && Contents() == old(Contents()) && Nodes(tree) == old(Nodes(tree))
      ensures i < |Contents()| && Contents()[i] == start
      ensures elm == if i + 1 < |Contents()| then Contents()[i + 1] else null
    {
      OrderNodes(tree);
      ghost var rounds := Splay(start);
      SameKey(tree, low, high, start);
      LinkedFork(tree);
      i := |InOrder(tree.left)|;
      AfterRoot(tree, i);
      label Splayed:
      if start.right != null {
        elm := Leftmost(start.right, tree.right);
        LinkedFrame@Splayed(tree);
      } else {
        elm := null;
      }
      assert Valid() == true;
    }

    /** The loop of name_SPLAY_NEXT */
    method Leftmost(start: Node, ghost sub: Tree) returns (elm: Node)
      requires sub.Fork? && Linked(sub) && start == sub.node
      ensures InOrder(sub) != [] && elm == InOrder(sub)[0]
    {
      elm := start;
      ghost var t := sub;
      while elm.left != null
        invariant t.Fork? && elm == t.node && Linked(t) && InOrder(t)[0] == InOrder(sub)[0]
        decreases t
      {
        LinkedFork(t);
        elm := elm.left;
        t := t.left;
      }
      LinkedFork(t);
    }

    /** One round of name_SPLAY_MINMAX towards the minimum: no key is below `low`. */
    method MinRound(right: Node, ghost ls: Spine, ghost t: Tree, ghost rs: Spine)
      returns (stop: bool, tip: Node, ghost r: Round)
      requires Parted(ls, t, rs) && Keyed(ls, t, rs) && right == Tip(rs) && t.Fork? && ls.End?
      modifies this`root, Nodes(t)`left, Nodes(t)`right, right`left
      ensures r == RoundLeft(low, t, rs) && stop == r.stop
      ensures Parted(ls, r.tree, r.side) && tip == Tip(r.side)
    {
      ghost var t' := t;
      r, tip, stop := Round(true, t, rs), right, false;
      LinkedFork(t);
      var tmp := root.left;
      if tmp == null {
        stop := true;
      } else {
        BoundedFork(t, low, EndKey(rs, high));
        RotatedRightKeyed(ls, t, rs);
        RotatedRightNodes(t);
        RotateRight(tmp, ls, t, rs);
        t' := RotatedRight(t);
        r := Round(true, t', rs);
        LinkedFork(t');
        stop := root.left == null;
      }
      if !stop {
        tip := LinkLeft(right, ls, t', rs);
        r := Round(false, t'.left, Link(t'.node, t'.right, rs));
      }
    }

    /** One round of name_SPLAY_MINMAX towards the maximum: no key is above `high`. */
    method MaxRound(left: Node, ghost ls: Spine, ghost t: Tree, ghost rs: Spine)
      returns (stop: bool, tip: Node, ghost r: Round)
      requires Parted(ls, t, rs) && Keyed(ls, t, rs) && left == Tip(ls) && t.Fork? && rs.End?
      modifies this`root, Nodes(t)`left, Nodes(t)`right, left`right
      ensures r == RoundRight(high, t, ls) && stop == r.stop
      ensures Parted(r.side, r.tree, rs) && tip == Tip(r.side)
    {
      ghost var t' := t;
      r, tip, stop := Round(true, t, ls), left, false;
      LinkedFork(t);
      var tmp := root.right;
      if tmp == null {
        stop := true;
      } else {
        BoundedFork(t, EndKey(ls, low), high);
        RotatedLeftKeyed(ls, t, rs);
        RotatedLeftNodes(t);
        RotateLeft(tmp, ls, t, rs);
        t' := RotatedLeft(t);
        r := Round(true, t', ls);
        LinkedFork(t');
        stop := root.right == null;
      }
      if !stop {
        tip := LinkRight(left, ls, t', rs);
        r := Round(false, t'.right, Link(t'.node, t'.left, ls));
      }
    }

    /** name_SPLAY_MINMAX with `comp` below zero */
    method SplayMin() returns (ghost rounds: nat)
      requires Valid() && root != null
      modifies this`root, this`tree, Nodes(tree)
      ensures Valid() && InOrder(tree) == old(InOrder(tree)) && Nodes(tree) == old(Nodes(tree))
      ensures Near(tree, low)
      ensures tree == Splayed(low, old(tree)) && rounds == Rounds(low, old(tree))
    {
      hide Split;
      rounds := 0;
      ghost var order, all := InOrder(tree), Nodes(tree);
      assert allocated(all);
      var header := new Node(0);
      var right := header;
      ghost var ls, t, rs := End(header), tree, End(header);
      assert LeftOrder(ls) + InOrder(t) + RightOrder(rs) == order;
      var stop := false;
      while !stop
        invariant Parted(ls, t, rs) && Between(low, order, ls, t, rs)
        invariant header == Header(ls) && right == Tip(rs) && ls.End?
        invariant SpineNodes(ls) + Nodes(t) + SpineNodes(rs) == all
        invariant stop ==> t.left.Leaf?
        invariant Ending(stop, low, ls, t, rs) == Splayed(low, old(tree))
        invariant rounds + Rest(stop, low, t).rounds == Rounds(low, old(tree))
        decreases !stop, Size(t)
      {
        ghost var r;
        stop, right, r := MinRound(right, ls, t, rs);
        BoundedFork(t, EndKey(ls, low), EndKey(rs, high));
        RoundLeftBetween(low, order, ls, t, rs, r);
        RoundLeftSplits(low, t, rs);
        rounds := rounds + 1;
        t, rs := r.tree, r.side;
      }
      Finish(header, header, right, low, order, ls, t, rs);
    }

    /** name_SPLAY_MINMAX with `comp` above zero */
    method SplayMax() returns (ghost rounds: nat)
      requires Valid() && root != null
      modifies this`root, this`tree, Nodes(tree)
      ensures Valid() && InOrder(tree) == old(InOrder(tree)) && Nodes(tree) == old(Nodes(tree))
      ensures Near(tree, high)
      ensures tree == Splayed(high, old(tree)) && rounds == Rounds(high, old(tree))
    {
      hide Split;
      rounds := 0;
      ghost var order, all := InOrder(tree), Nodes(tree);
      assert allocated(all);
      var header := new Node(0);
      var left := header;
      ghost var ls, t, rs := End(header), tree, End(header);
      assert LeftOrder(ls) + InOrder(t) + RightOrder(rs) == order;
      var stop := false;
      while !stop
        invariant Parted(ls, t, rs) && Between(high, order, ls, t, rs)
        invariant header == Header(ls) && left == Tip(ls) && rs.End?
        invariant SpineNodes(ls) + Nodes(t) + SpineNodes(rs) == all
        invariant stop ==> t.right.Leaf?
        invariant Ending(stop, high, ls, t, rs) == Splayed(high, old(tree))
        invariant rounds + Rest(stop, high, t).rounds == Rounds(high, old(tree))
        decreases !stop, Size(t)
      {
        ghost var r;
        stop, left, r := MaxRound(left, ls, t, rs);
        BoundedFork(t, EndKey(ls, low), EndKey(rs, high));
        RoundRightBetween(high, order, ls, t, rs, r);
        RoundRightSplits(high, t, ls);
        rounds := rounds + 1;
        t, ls := r.tree, r.side;
      }
      Finish(header, left, header, high, order, ls, t, rs);
    }

    /** SPLAY_MIN and SPLAY_MAX: the first or the last node, which becomes the root. */
    method MinMax(comp: int) returns (r: Node?, ghost rounds: nat)
      requires Valid() && comp != 0
      modifies this`root, this`tree, Nodes(tree)
      ensures Valid() && Contents() == old(Contents()) && Nodes(tree) == old(Nodes(tree)) && r == root
      ensures r == null <==> Contents() == []
      ensures r != null ==> r == Contents()[if comp < 0 then 0 else |Contents()| - 1]
      ensures var k := if comp < 0 then low else high; tree == Splayed(k, old(tree)) && rounds == Rounds(k, old(tree))
    {
      if root == null {
        return null, 0;
      }
      if comp < 0 {
        rounds := SplayMin();
        NearEdge(tree, low, high, low);
      } else {
        rounds := SplayMax();
        NearEdge(tree, low, high, high);
      }
      return root, rounds;
    }

    /** Makes room for the key of `elm`. */
    ghost method Widen(elm: Node)
      requires Valid()
      modifies this`low, this`high
      ensures Valid() && low < elm.key < high
    {
      var lo, hi := low, high;
      low := if elm.key <= low then elm.key - 1 else low;
      high := if elm.key >= high then elm.key + 1 else high;
      Wider(tree, lo, hi, low, high);
      LinkedFrame(tree);
      assert Valid() == true;
    }

    /** name_SPLAY_INSERT: `at` is the place where `elm` goes. */
    method Insert(elm: Node) returns (r: Node?, ghost at: nat, ghost rounds: nat)
      requires Valid()
      modifies this, Nodes(tree), elm
      ensures Valid() && tree == Inserted(old(tree), elm) && rounds == Rounds(elm.key, old(tree))
      ensures r != null ==> r in Contents() && r.key == elm.key && Contents() == old(Contents())
      ensures r == null ==>
        && (forall x :: x in old(Contents()) ==> x.key != elm.key)
        && at <= |old(Contents())| && Contents() == old(Contents()[..at] + [elm] + Contents()[at..])
    {
      hide Split;
      Widen(elm);
      at, rounds := 0, 0;
      if root == null {
        elm.left, elm.right := null, null;
        tree := Fork(Leaf, elm, Leaf);
        Alone(elm, low, high);
      } else {
        rounds := Splay(elm);
        NearFinds(tree, low, high, elm.key);
        if elm.key == root.key {
          return root, 0, rounds;
        }
        at := Hang(elm);
      }
      label Hung:
      root := elm;
      LinkedFrame@Hung(tree);
      assert Valid() == true;
      return null, at, rounds;
    }

    /** The branches of name_SPLAY_INSERT for a new key. */
    method Hang(elm: Node) returns (ghost at: nat)
      requires Valid() && root != null && Near(tree, elm.key) && low < elm.key < high && elm.key != root.key
      modifies this`tree, tree.node, elm
      ensures RootOf(tree) == elm && Linked(tree) == true && Bounded(tree, low, high) == true
      ensures
        var l, x, r := old(tree.left), old(tree.node), old(tree.right);
        tree == if elm.key < x.key then Fork(l, elm, Fork(Leaf, x, r)) else Fork(Fork(l, x, Leaf), elm, r)
      ensures at <= |old(InOrder(tree))|
      ensures InOrder(tree) == old(InOrder(tree))[..at] + [elm] + old(InOrder(tree))[at..]
    {
      if elm.key < root.key {
        at := HangBefore(elm);
      } else {
        at := HangAfter(elm);
      }
    }

    /** The branch of name_SPLAY_INSERT for a key below the root. */
    method HangBefore(elm: Node) returns (ghost at: nat)
      requires Valid() && root != null && Near(tree, elm.key) && low < elm.key < root.key
      modifies this`tree, tree.node, elm
      ensures RootOf(tree) == elm && Linked(tree) && Bounded(tree, low, high)
      ensures tree == Fork(old(tree.left), elm, Fork(Leaf, old(tree.node), old(tree.right)))
      ensures at <= |old(InOrder(tree))|
      ensures InOrder(tree) == old(InOrder(tree))[..at] + [elm] + old(InOrder(tree))[at..]
    {
      ghost var l, x, r := tree.left, tree.node, tree.right;
      NearFinds(tree, low, high, elm.key);
      LinkedFork(tree);
      BoundedFork(tree, low, high);
      BoundedNodes(tree, low, high);
      NearBound(l, low, x.key, elm.key);
      elm.left := root.left;
      elm.right := root;
      root.left := null;
      LinkedFrame(l);
      LinkedFrame(r);
      LinkedFromParts(Fork(Leaf, x, r));
      at := |InOrder(l)|;
      tree := Fork(l, elm, Fork(Leaf, x, r));
      SplitBefore(l, x, r, elm);
    }

    /** The branch of name_SPLAY_INSERT for a key above the root. */
    method HangAfter(elm: Node) returns (ghost at: nat)
      requires Valid() && root != null && Near(tree, elm.key) && root.key < elm.key < high
      modifies this`tree, tree.node, elm
      ensures RootOf(tree) == elm && Linked(tree) && Bounded(tree, low, high)
      ensures tree == Fork(Fork(old(tree.left), old(tree.node), Leaf), elm, old(tree.right))
      ensures at <= |old(InOrder(tree))|
      ensures InOrder(tree) == old(InOrder(tree))[..at] + [elm] + old(InOrder(tree))[at..]
    {
      ghost var l, x, r := tree.left, tree.node, tree.right;
      NearFinds(tree, low, high, elm.key);
      LinkedFork(tree);
      BoundedFork(tree, low, high);
      BoundedNodes(tree, low, high);
      NearBound(r, x.key, high, elm.key);
      elm.right := root.right;
      elm.left := root;
      root.right := null;
      LinkedFrame(l);
      LinkedFrame(r);
      LinkedFromParts(Fork(l, x, Leaf));
      at := |InOrder(l)| + 1;
      tree := Fork(Fork(l, x, Leaf), elm, r);
      SplitAfter(l, x, r, elm);
    }

    /** name_SPLAY_REMOVE: the node with the key of `elm` leaves; `at` was its place. */
    method Remove(elm: Node) returns (r: Node?, ghost at: nat, ghost rounds: nat)
      requires Valid()
      modifies this, Nodes(tree)
      ensures tree == Removed(old(tree), elm.key) && rounds == RemovalRounds(old(tree), elm.key)
      ensures Valid() && r == if exists x :: x in old(Contents()) && x.key == elm.key then elm else null
      ensures r == null ==> Contents() == old(Contents())
      ensures r != null ==>
        && at < |old(Contents())| && old(Contents())[at].key == elm.key
        && Contents() == old(Contents())[..at] + old(Contents())[at + 1..]
    {
      hide Split;
      if root == null {
        return null, 0, 0;
      }
      rounds := Splay(elm);
      NearFinds(tree, low, high, elm.key);
      if elm.key == root.key {
        assert root in old(Contents());
        at := |InOrder(tree.left)|;
        AfterRoot(tree, at);
        ghost var more := RemoveRoot(elm);
        return elm, at, rounds + more;
      }
      return null, 0, rounds;
    }

    /** The branches of name_SPLAY_REMOVE that take the root out. */
    method RemoveRoot(elm: Node) returns (ghost rounds: nat)
      requires Valid() && root != null && root.key == elm.key
      modifies this`root, this`tree, Nodes(tree)
      ensures Valid() == true && InOrder(tree) == old(InOrder(tree.left)) + old(InOrder(tree.right))
      ensures rounds == Rounds(elm.key, old(tree.left))
      ensures
        var l, r := old(tree.left), old(tree.right);
        tree == if l.Leaf? then r else var u := Splayed(elm.key, l); Fork(u.left, u.node, r)
    {
      hide Split;
      if root.left == null {
        DropRoot();
        rounds := 0;
      } else {
        rounds := JoinHalves(elm);
      }
    }

    /** The branch of name_SPLAY_REMOVE for a root without a left child. */
    method DropRoot()
      requires Valid() && root != null && root.left == null
      modifies this`root, this`tree
      ensures Valid() && InOrder(tree) == old(InOrder(tree.left)) + old(InOrder(tree.right))
      ensures old(tree.left).Leaf? && tree == old(tree.right)
    {
      LinkedFork(tree);
      BoundedFork(tree, low, high);
      Wider(tree.right, root.key, high, low, high);
      assert InOrder(Leaf) == [];
      root := root.right;
      tree := tree.right;
      LinkedFrame(tree);
      assert Valid() == true;
    }

    /** The branch of name_SPLAY_REMOVE for a root with a left child. */
    method JoinHalves(elm: Node) returns (ghost rounds: nat)
      requires Valid() && root != null && root.key == elm.key && root.left != null
      modifies this`root, this`tree, Nodes(tree)
      ensures Valid() && InOrder(tree) == old(InOrder(tree.left)) + old(InOrder(tree.right))
      ensures old(tree.left).Fork? && rounds == Rounds(elm.key, old(tree.left))
      ensures var u := Splayed(elm.key, old(tree.left)); tree == Fork(u.left, u.node, old(tree.right))
    {
      hide Split;
      ghost var l, k, r := tree.left, tree.node.key, tree.right;
      LinkedFork(tree);
      BoundedFork(tree, low, high);
      BoundedNodes(l, low, k);
      BoundedNodes(r, k, high);
      Wider(l, low, k, low, high);
      var tmp := root.right;
      root := root.left;
      tree := l;
      assert Valid();
      rounds := Splay(elm);
      LinkedFrame(r);
      NearMax(tree, k);
      HangRight(tmp, r, k);
    }

    /** The end of name_SPLAY_REMOVE: the larger nodes go below the largest smaller one. */
    method HangRight(tmp: Node?, ghost r: Tree, ghost k: int)
      requires Valid() && root != null && tree.right.Leaf? && tree.node.key < k
      requires Linked(r) && Bounded(r, k, high) && tmp == RootOf(r) && tree.node !in Nodes(r)
      modifies this`tree, tree.node
      ensures Valid() && InOrder(tree) == old(InOrder(tree)) + InOrder(r)
      ensures tree == Fork(old(tree.left), old(tree.node), r)
    {
      ghost var l, x := tree.left, tree.node;
      LinkedFork(tree);
      BoundedFork(tree, low, high);
      BoundedNodes(l, low, x.key);
      Wider(r, k, high, x.key, high);
      root.right := tmp;
      LinkedFrame(l);
      LinkedFrame(r);
      LinkedFromParts(Fork(l, x, r));
      assert InOrder(Leaf) == [];
      tree := Fork(l, x, r);
    }
  }
}
