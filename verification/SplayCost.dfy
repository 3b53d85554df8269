/**
 The amortized cost of the splay tree: the header of uv/tree.h promises that every operation takes logarithmic time on
 average. Costs are rounds of the loop of a splay; the potential of a tree is the sum of the ranks of its subtrees.
 */
module SplayCosts {

  import opened SplayTrees

  // ---------- Ranks ----------

  /** The logarithm of base 2, rounded down. */
  function Rank(n: nat): nat {
    if n <= 1 then 0 else 1 + Rank(n / 2)
  }

  lemma {:induction false} RankGrows(a: nat, b: nat)
    requires a <= b
    ensures Rank(a) <= Rank(b)
  {
    if a > 1 {
      RankGrows(a / 2, b / 2);
    }
  }

  /** Two parts of a whole cannot both have its rank. */
  lemma {:induction false} RankOfParts(a: nat, b: nat, c: nat)
    requires a >= 1 && b >= 1 && a + b <= c
    ensures Rank(a) + Rank(b) + 1 <= 2 * Rank(c)
  {
    if a == 1 || b == 1 {
      RankGrows(a, c);
      RankGrows(b, c);
      RankGrows(2, c);
    } else {
      RankOfParts(a / 2, b / 2, c / 2);
    }
  }

  /** The rank is the logarithm: powers of two. */
  function Power(k: nat): nat {
    if k == 0 then 1 else 2 * Power(k - 1)
  }

  lemma {:induction false} RankIsLog(n: nat)
    requires n >= 1
    ensures Power(Rank(n)) <= n < Power(Rank(n) + 1)
  {
    if n > 1 {
      RankIsLog(n / 2);
    }
  }

  function Potential(t: Tree): nat {
    if t.Leaf? then 0 else Rank(Size(t)) + Potential(t.left) + Potential(t.right)
  }

  lemma SizeOf(t: Tree)
    ensures t.Leaf? ==> Size(t) == 0 && Potential(t) == 0
    ensures t.Fork? ==>
      && Size(t) == Size(t.left) + 1 + Size(t.right)
      && Potential(t) == Rank(Size(t)) + Potential(t.left) + Potential(t.right)
  {
  }

  lemma RankOfTwo()
    ensures Rank(2) == 1
  {
  }

  // ---------- One splay ----------

  lemma {:induction false} SplitSize(k: int, t: Tree)
    requires t.Fork?
    ensures Size(Split(k, t).left) + 1 + Size(Split(k, t).right) == Size(t)
    decreases t
  {
    if k < t.node.key && t.left.Fork? {
      if k < t.left.node.key {
        if t.left.left.Fork? {
          SplitSize(k, t.left.left);
        }
      } else {
        SplitSize(k, t.left);
      }
    } else if k > t.node.key && t.right.Fork? {
      if k > t.right.node.key {
        if t.right.right.Fork? {
          SplitSize(k, t.right.right);
        }
      } else {
        SplitSize(k, t.right);
      }
    }
  }

  /** The next round goes two steps in one direction. */
  predicate Straight(k: int, t: Tree)
    requires t.Fork?
  {
    || (k < t.node.key && t.left.Fork? && k < t.left.node.key)
    || (k > t.node.key && t.right.Fork? && k > t.right.node.key)
  }

  /** What the rest of a splay costs, with the change of potential on both sides of the new root. */
  predicate Affordable(k: int, t: Tree)
    requires t.Fork?
  {
    var p := Split(k, t);
    p.rounds + 2 * (Potential(p.left) + Potential(p.right))
      <= 2 * Potential(t) + 4 * Rank(Size(t)) + if Straight(k, t) then 0 else 1
  }

  lemma {:induction false} SplitIsAffordable(k: int, t: Tree)
    requires t.Fork?
    ensures Affordable(k, t)
    decreases t
  {
    if k < t.node.key && t.left.Fork? {
      if k < t.left.node.key {
        if t.left.left.Fork? {
          SplitIsAffordable(k, t.left.left);
        }
        StraightLeft(k, t);
      } else if k == t.left.node.key || t.left.right.Leaf? || Straight(k, t.left) {
        SplitIsAffordable(k, t.left);
        BentLeft(k, t);
      } else {
        SplitIsAffordable(k, t.left.right);
        ZigZagLeft(k, t);
      }
    } else if k > t.node.key && t.right.Fork? {
      if k > t.right.node.key {
        if t.right.right.Fork? {
          SplitIsAffordable(k, t.right.right);
        }
        StraightRight(k, t);
      } else if k == t.right.node.key || t.right.left.Leaf? || Straight(k, t.right) {
        SplitIsAffordable(k, t.right);
        BentRight(k, t);
      } else {
        SplitIsAffordable(k, t.right.left);
        ZigZagRight(k, t);
      }
    }
  }

  /** Two steps to the left in one round. */
  lemma StraightLeft(k: int, t: Tree)
    requires t.Fork? && t.left.Fork? && k < t.left.node.key && k < t.node.key
    requires t.left.left.Fork? ==> Affordable(k, t.left.left)
    ensures Affordable(k, t)
  {
    hide Rank, Size, Potential, Split;
    StraightLeftIs(k, t);
    var y, z := t.left, Fork(t.left.right, t.node, t.right);
    SizeOf(t);
    SizeOf(y);
    SizeOf(z);
    RankGrows(Size(y), Size(t));
    RankGrows(Size(z), Size(t));
    if y.left.Fork? {
      var p := Split(k, y.left);
      SplitSize(k, y.left);
      SizeOf(Fork(p.right, y.node, z));
      SizeOf(y.left);
      RankGrows(Size(p.right) + 1 + Size(z), Size(t));
      RankGrows(Size(y.left), Size(y));
      RankOfParts(Size(y.left), Size(z), Size(t));
    } else {
      SizeOf(y.left);
      RankGrows(2, Size(t));
      RankOfTwo();
    }
  }

  lemma StraightLeftIs(k: int, t: Tree)
    requires t.Fork? && t.left.Fork? && k < t.left.node.key && k < t.node.key
    ensures
      var y, z := t.left, Fork(t.left.right, t.node, t.right);
      Split(k, t) ==
        if y.left.Leaf? then Parts(Leaf, y.node, z, 1)
        else
          var p := Split(k, y.left);
          Parts(p.left, p.node, Fork(p.right, y.node, z), p.rounds + 1)
  {
  }

  /** One step to the left, and then the splay ends or goes straight. */
  lemma BentLeft(k: int, t: Tree)
    requires t.Fork? && t.left.Fork? && t.left.node.key <= k < t.node.key
    requires k == t.left.node.key || t.left.right.Leaf? || Straight(k, t.left)
    requires Affordable(k, t.left)
    ensures Affordable(k, t)
  {
    hide Rank, Size, Potential, Split;
    BentLeftIs(k, t);
    var p := Split(k, t.left);
    SplitSize(k, t.left);
    SizeOf(t);
    SizeOf(t.left);
    SizeOf(Fork(p.right, t.node, t.right));
    RankGrows(Size(p.right) + 1 + Size(t.right), Size(t));
    RankGrows(Size(t.left), Size(t));
    RankGrows(2, Size(t));
    RankOfTwo();
  }

  lemma BentLeftIs(k: int, t: Tree)
    requires t.Fork? && t.left.Fork? && t.left.node.key <= k < t.node.key
    ensures
      var p := Split(k, t.left);
      Split(k, t) == Parts(p.left, p.node, Fork(p.right, t.node, t.right), p.rounds + 1)
    ensures k == t.left.node.key || t.left.right.Leaf? ==>
      var p := Split(k, t.left);
      p.rounds <= 1 && p.left == t.left.left && p.right == t.left.right
  {
  }

  /** One step to the left and one to the right. */
  lemma ZigZagLeft(k: int, t: Tree)
    requires t.Fork? && t.left.Fork? && t.left.node.key < k < t.node.key && t.left.right.Fork?
    requires k <= t.left.right.node.key && Affordable(k, t.left.right)
    ensures Affordable(k, t)
  {
    hide Rank, Size, Potential, Split;
    ZigZagLeftIs(k, t);
    var y, m := t.left, t.left.right;
    var p := Split(k, m);
    SplitSize(k, m);
    SizeOf(t);
    SizeOf(y);
    SizeOf(m);
    SizeOf(Fork(y.left, y.node, p.left));
    SizeOf(Fork(p.right, t.node, t.right));
    RankOfParts(Size(y.left) + 1 + Size(p.left), Size(p.right) + 1 + Size(t.right), Size(t));
    RankGrows(Size(m), Size(y));
    RankGrows(Size(y), Size(t));
  }

  lemma ZigZagLeftIs(k: int, t: Tree)
    requires t.Fork? && t.left.Fork? && t.left.node.key < k < t.node.key && t.left.right.Fork?
    requires k <= t.left.right.node.key
    ensures
      var y, p := t.left, Split(k, t.left.right);
      Split(k, t) == Parts(Fork(y.left, y.node, p.left), p.node, Fork(p.right, t.node, t.right), p.rounds + 2)
  {
  }

  /** Two steps to the right in one round. */
  lemma StraightRight(k: int, t: Tree)
    requires t.Fork? && t.right.Fork? && t.right.node.key < k && t.node.key < k
    requires t.right.right.Fork? ==> Affordable(k, t.right.right)
    ensures Affordable(k, t)
  {
    hide Rank, Size, Potential, Split;
    StraightRightIs(k, t);
    var y, z := t.right, Fork(t.left, t.node, t.right.left);
    SizeOf(t);
    SizeOf(y);
    SizeOf(z);
    RankGrows(Size(y), Size(t));
    RankGrows(Size(z), Size(t));
    if y.right.Fork? {
      var p := Split(k, y.right);
      SplitSize(k, y.right);
      SizeOf(Fork(z, y.node, p.left));
      SizeOf(y.right);
      RankGrows(Size(z) + 1 + Size(p.left), Size(t));
      RankGrows(Size(y.right), Size(y));
      RankOfParts(Size(y.right), Size(z), Size(t));
    } else {
      SizeOf(y.right);
      RankGrows(2, Size(t));
      RankOfTwo();
    }
  }

  lemma StraightRightIs(k: int, t: Tree)
    requires t.Fork? && t.right.Fork? && t.right.node.key < k && t.node.key < k
    ensures
      var y, z := t.right, Fork(t.left, t.node, t.right.left);
      Split(k, t) ==
        if y.right.Leaf? then Parts(z, y.node, Leaf, 1)
        else
          var p := Split(k, y.right);
          Parts(Fork(z, y.node, p.left), p.node, p.right, p.rounds + 1)
  {
  }

  lemma BentRight(k: int, t: Tree)
    requires t.Fork? && t.right.Fork? && t.node.key < k <= t.right.node.key
    requires k == t.right.node.key || t.right.left.Leaf? || Straight(k, t.right)
    requires Affordable(k, t.right)
    ensures Affordable(k, t)
  {
    hide Rank, Size, Potential, Split;
    BentRightIs(k, t);
    var p := Split(k, t.right);
    SplitSize(k, t.right);
    SizeOf(t);
    SizeOf(t.right);
    SizeOf(Fork(t.left, t.node, p.left));
    RankGrows(Size(t.left) + 1 + Size(p.left), Size(t));
    RankGrows(Size(t.right), Size(t));
    RankGrows(2, Size(t));
    RankOfTwo();
  }

  lemma BentRightIs(k: int, t: Tree)
    requires t.Fork? && t.right.Fork? && t.node.key < k <= t.right.node.key
    ensures
      var p := Split(k, t.right);
      Split(k, t) == Parts(Fork(t.left, t.node, p.left), p.node, p.right, p.rounds + 1)
    ensures k == t.right.node.key || t.right.left.Leaf? ==>
      var p := Split(k, t.right);
      p.rounds <= 1 && p.left == t.right.left && p.right == t.right.right
  {
  }

  lemma ZigZagRight(k: int, t: Tree)
    requires t.Fork? && t.right.Fork? && t.node.key < k < t.right.node.key && t.right.left.Fork?
    requires t.right.left.node.key <= k && Affordable(k, t.right.left)
    ensures Affordable(k, t)
  {
    hide Rank, Size, Potential, Split;
    ZigZagRightIs(k, t);
    var y, m := t.right, t.right.left;
    var p := Split(k, m);
    SplitSize(k, m);
    SizeOf(t);
    SizeOf(y);
    SizeOf(m);
    SizeOf(Fork(p.right, y.node, y.right));
    SizeOf(Fork(t.left, t.node, p.left));
    RankOfParts(Size(t.left) + 1 + Size(p.left), Size(p.right) + 1 + Size(y.right), Size(t));
    RankGrows(Size(m), Size(y));
    RankGrows(Size(y), Size(t));
  }

  lemma ZigZagRightIs(k: int, t: Tree)
    requires t.Fork? && t.right.Fork? && t.node.key < k < t.right.node.key && t.right.left.Fork?
    requires t.right.left.node.key <= k
    ensures
      var y, p := t.right, Split(k, t.right.left);
      Split(k, t) == Parts(Fork(t.left, t.node, p.left), p.node, Fork(p.right, y.node, y.right), p.rounds + 2)
  {
  }

  /** The access lemma: a splay costs a logarithm, after what it takes out of the potential. */
  lemma SplayIsAffordable(k: int, t: Tree)
    ensures Rounds(k, t) + 2 * Potential(Splayed(k, t)) <= 2 * Potential(t) + 6 * Rank(Size(t)) + 1
    ensures Size(Splayed(k, t)) == Size(t)
  {
    hide Rank, Size, Potential, Split;
    SizeOf(t);
    SizeOf(Splayed(k, t));
    if t.Fork? {
      SplitIsAffordable(k, t);
      SplitSize(k, t);
    }
  }

  // ---------- Runs of operations ----------

  /** SPLAY_MIN and SPLAY_MAX splay for a key beyond all others, and SPLAY_NEXT for that of its node. */
  datatype Operation = DoFind(key: int) | DoInsert(node: Node) | DoRemove(key: int)

  function After(t: Tree, op: Operation): Tree {
    match op
    case DoFind(k) => Splayed(k, t)
    case DoInsert(x) => Inserted(t, x)
    case DoRemove(k) => Removed(t, k)
  }

  function Cost(t: Tree, op: Operation): nat {
    match op
    case DoFind(k) => Rounds(k, t)
    case DoInsert(x) => Rounds(x.key, t)
    case DoRemove(k) => RemovalRounds(t, k)
  }

  function AfterAll(t: Tree, ops: seq<Operation>): Tree
    decreases |ops|
  {
    if ops == [] then t else AfterAll(After(t, ops[0]), ops[1..])
  }

  function TotalCost(t: Tree, ops: seq<Operation>): nat
    decreases |ops|
  {
    if ops == [] then 0 else Cost(t, ops[0]) + TotalCost(After(t, ops[0]), ops[1..])
  }

  lemma InsertIsAffordable(t: Tree, x: Node)
    ensures
      Rounds(x.key, t) + 2 * Potential(Inserted(t, x)) <= 2 * Potential(t) + 8 * Rank(Size(t) + 1) + 1
    ensures Size(Inserted(t, x)) <= Size(t) + 1
  {
    hide Rank, Size, Potential, Split, Splayed;
    SplayIsAffordable(x.key, t);
    SizeOf(Leaf);
    SizeOf(t);
    RankGrows(Size(t), Size(t) + 1);
    var s, u := Splayed(x.key, t), Inserted(t, x);
    SplayedForks(x.key, t);
    SizeOf(u);
    if t.Fork? {
      SizeOf(s);
      if x.key < s.node.key {
        SizeOf(u.right);
        RankGrows(Size(u.right), Size(s));
      } else if x.key > s.node.key {
        SizeOf(u.left);
        RankGrows(Size(u.left), Size(s));
      }
    }
  }

  lemma SplayedForks(k: int, t: Tree)
    ensures Splayed(k, t).Fork? <==> t.Fork?
    ensures t.Leaf? ==> Rounds(k, t) == 0
  {
  }

  lemma RemoveIsAffordable(t: Tree, k: int)
    ensures
      RemovalRounds(t, k) + 2 * Potential(Removed(t, k)) <= 2 * Potential(t) + 12 * Rank(Size(t)) + 2
    ensures Size(Removed(t, k)) <= Size(t)
  {
    hide Rank, Size, Potential, Split, Splayed;
    SplayIsAffordable(k, t);
    SplayedForks(k, t);
    SizeOf(t);
    var s := Splayed(k, t);
    SizeOf(s);
    SizeOf(Removed(t, k));
    if t.Fork? && s.node.key == k {
      SplayIsAffordable(k, s.left);
      SplayedForks(k, s.left);
      SizeOf(s.left);
      SizeOf(s.right);
      var u := Splayed(k, s.left);
      SizeOf(u);
      RankGrows(Size(s.left), Size(s));
      if u.Fork? {
        RankGrows(Size(u.left) + 1 + Size(s.right), Size(s));
      }
    }
  }

  function Inserts(ops: seq<Operation>): nat {
    if ops == [] then 0 else (if ops[0].DoInsert? then 1 else 0) + Inserts(ops[1..])
  }

  lemma IsAffordable(t: Tree, op: Operation)
    ensures
      var n := Size(t) + Inserts([op]);
      && Cost(t, op) + 2 * Potential(After(t, op)) <= 2 * Potential(t) + 12 * Rank(n) + 2
      && Size(After(t, op)) <= n
  {
    hide Rank, Size, Potential, Splayed, Inserted, Removed, RemovalRounds;
    assert [op][1..] == [];
    match op {
      case DoFind(k) => SplayIsAffordable(k, t);
      case DoInsert(x) => InsertIsAffordable(t, x);
      case DoRemove(k) => RemoveIsAffordable(t, k);
    }
  }

  lemma {:induction false} AllAreAffordable(t: Tree, ops: seq<Operation>, n: nat, c: nat)
    requires Size(t) + Inserts(ops) <= n && c == 12 * Rank(n) + 2
    ensures TotalCost(t, ops) + 2 * Potential(AfterAll(t, ops)) <= 2 * Potential(t) + |ops| * c
    decreases |ops|
  {
    hide Rank, Size, Potential, Cost, After;
    if ops != [] {
      IsAffordable(t, ops[0]);
      assert [ops[0]][1..] == [];
      RankGrows(Size(t) + Inserts([ops[0]]), n);
      AllAreAffordable(After(t, ops[0]), ops[1..], n, c);
      assert |ops| * c == c + |ops[1..]| * c;
    }
  }

  lemma {:induction false} PotentialIsSmall(t: Tree, n: nat)
    requires Size(t) <= n
    ensures Potential(t) <= Size(t) * Rank(n)
    decreases t
  {
    hide Rank, Size, Potential;
    SizeOf(t);
    if t.Fork? {
      SizeOf(t.left);
      SizeOf(t.right);
      PotentialIsSmall(t.left, n);
      PotentialIsSmall(t.right, n);
      RankGrows(Size(t), n);
      Distributes(Size(t.left), Size(t.right), Rank(n));
    }
  }

  lemma Distributes(a: nat, b: nat, r: nat)
    ensures (a + 1 + b) * r == a * r + r + b * r
  {
  }

  /**
   The promise of the header: all operations together take a number of rounds that is logarithmic for each, in the size
   that the tree can have at most, and once 2 n lg n for the tree of size n that they start with.
   */
  lemma AmortizedCost(t: Tree, ops: seq<Operation>)
    ensures TotalCost(t, ops)
      <= |ops| * (12 * Rank(Size(t) + Inserts(ops)) + 2) + 2 * (Size(t) * Rank(Size(t)))
  {
    hide Rank, Potential, TotalCost, Size, Inserts;
    var n := Size(t) + Inserts(ops);
    AllAreAffordable(t, ops, n, 12 * Rank(n) + 2);
    PotentialIsSmall(t, Size(t));
  }

  /** The Balance Theorem, for a tree that is empty at first. */
  lemma BalanceTheorem(ops: seq<Operation>)
    ensures TotalCost(Leaf, ops) <= |ops| * (12 * Rank(Inserts(ops)) + 2)
  {
    hide Rank, TotalCost, Inserts;
    AmortizedCost(Leaf, ops);
  }
}
