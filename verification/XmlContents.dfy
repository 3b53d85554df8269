/**
 The arrays behind the contents of an element in xmlParser.cpp, and the functions that keep pOrder. The three
 arrays hold values of one type here; the type in pOrder says what a value is. A null array has no elements.
 */
module XmlContents {

  import opened ContentIndex

  // ---------- Growing ----------

  /** The length after myRealloc. */
  function NewLength(length: nat, newsize: nat, memInc: nat): nat {
    if length == 0 then if memInc > 0 then memInc else 1
    else if memInc == 0 || newsize % memInc == 0 then newsize + memInc
    else length
  }

  /** With this much memory for `used` elements, growing by `memInc` never runs out of it. */
  predicate Room(length: nat, used: nat, memInc: nat) {
    used <= length && (length > 0 && memInc > 1 ==> (used / memInc + 1) * memInc <= length)
  }

  lemma QuotientStep(used: nat, memInc: nat)
    requires memInc > 1
    ensures (used + 1) / memInc == used / memInc + if (used + 1) % memInc == 0 then 1 else 0
    ensures used < (used / memInc + 1) * memInc
    ensures (used + 1) % memInc == 0 ==> ((used + 1) / memInc + 1) * memInc == used + 1 + memInc
  {
    var q, r := used / memInc, used % memInc;
    assert used == q * memInc + r;
    if r + 1 == memInc {
      assert used + 1 == (q + 1) * memInc;
      QuotientIs(used + 1, memInc, q + 1, 0);
    } else {
      QuotientIs(used + 1, memInc, q, r + 1);
    }
  }

  lemma QuotientIs(n: nat, m: nat, q: nat, r: nat)
    requires m > 0 && n == q * m + r && r < m
    ensures n / m == q && n % m == r
  {
    var d, e := n / m, n % m;
    assert n == d * m + e;
    if d > q {
      MulOrder(q + 1, d, m);
    } else if d < q {
      MulOrder(d + 1, q, m);
    }
  }

  lemma MulOrder(a: nat, b: nat, m: nat)
    requires a <= b
    ensures a * m <= b * m
  {
  }

  /** There is room for one more element after myRealloc, and for the next steps. */
  lemma RoomForOneMore(length: nat, used: nat, memInc: nat)
    requires Room(length, used, memInc)
    ensures Room(NewLength(length, used + 1, memInc), used + 1, memInc)
    ensures used + 1 <= NewLength(length, used + 1, memInc)
  {
    if memInc > 1 {
      QuotientStep(used, memInc);
      if length == 0 {
        QuotientIs(1, memInc, 0, 1);
      }
    } else if memInc == 1 {
      assert (used + 1) % memInc == 0;
    }
  }

  /** The memory of an array to which elements are added one by one. */
  function LengthFor(n: nat, memInc: nat): nat {
    if n == 0 then 0 else NewLength(LengthFor(n - 1, memInc), n, memInc)
  }

  /** It grows in steps of `memInc`, and is moved only when a step is full. */
  lemma {:induction false} GrowsInSteps(n: nat, memInc: nat)
    requires n > 0 && memInc > 1
    ensures LengthFor(n, memInc) == (n / memInc + 1) * memInc
  {
    QuotientStep(n - 1, memInc);
    if n > 1 {
      GrowsInSteps(n - 1, memInc);
    } else {
      QuotientIs(1, memInc, 0, 1);
    }
  }

  lemma RoomForOneLess(length: nat, used: nat, memInc: nat)
    requires Room(length, used, memInc) && used > 0
    ensures Room(length, used - 1, memInc)
  {
    if memInc > 1 {
      QuotientStep(used - 1, memInc);
      MulOrder((used - 1) / memInc + 1, used / memInc + 1, memInc);
    }
  }

  /** myRealloc: behind the elements that are kept, the contents are arbitrary. */
  method MyRealloc<T(0)>(p: array<T>, newsize: nat, memInc: nat) returns (q: array<T>)
    ensures q == p || fresh(q)
    ensures q.Length == NewLength(p.Length, newsize, memInc)
    ensures forall k :: 0 <= k < p.Length && k < q.Length ==> q[k] == p[k]
  {
    if p.Length == 0 {
      q := new T[if memInc > 0 then memInc else 1];
    } else if memInc == 0 || newsize % memInc == 0 {
      q := new T[newsize + memInc];
      forall k | 0 <= k < p.Length && k < q.Length {
        q[k] := p[k];
      }
    } else {
      q := p;
    }
  }

  // ---------- The index in place ----------

  /** The memmove at the start of addToOrder. */
  method OpenGap(o: array<int>, n: nat, i: nat)
    requires i < n < o.Length
    modifies o
    ensures o[..n + 1] == Doubled(old(o[..n]), i)
  {
    ghost var before := o[..n];
    forall k | i < k <= n {
      o[k] := o[k - 1];
    }
    assert o[..n + 1] == Doubled(before, i);
  }

  /** The search for an entry of type `t` behind the gap. */
  method FindEntry(o: array<int>, n: nat, i: nat, t: ElementType) returns (pos: nat)
    requires i <= n < o.Length
    ensures pos == FirstOf(o[..n + 1], i, n, t)
  {
    pos := i;
    while pos < n && o[pos] % 4 != t
      invariant i <= pos <= n && FirstOf(o[..n + 1], i, n, t) == FirstOf(o[..n + 1], pos, n, t)
    {
      pos := pos + 1;
    }
  }

  /** The index part of addToOrder: `o` holds `n` entries and has room for one more. */
  method InsertEntry(o: array<int>, n: nat, pos0: int, nc: nat, t: ElementType) returns (pos: int)
    requires n < o.Length
    modifies o
    ensures (o[..n + 1], pos) == AddToOrder(old(o[..n]), pos0, nc, t)
  {
    hide FirstOf, Doubled, Shift;
    ghost var before := o[..n];
    if pos0 < 0 || pos0 >= n {
      o[n] := Code(t, nc);
      assert o[..n + 1] == before + [Code(t, nc)];
      return nc;
    }
    OpenGap(o, n, pos0);
    ghost var w := o[..n + 1];
    var p := FindEntry(o, n, pos0, t);
    if p == n {
      o[n] := Code(t, nc);
      assert o[..n + 1] == w[n := Code(t, nc)];
      return nc;
    }
    o[pos0] := o[p];
    assert o[..n + 1] == w[pos0 := w[p]];
    ShiftEntries(o, n + 1, p + 1, t, 1);
    pos := o[p] / 4;
    ShiftKeeps(w[pos0 := w[p]], p + 1, t, 1, p);
    assert o[p] == o[..n + 1][p];
  }

  lemma ShiftKeeps(o: seq<int>, from: nat, t: ElementType, step: int, k: nat)
    requires k < |o| && k < from
    ensures Shift(o, from, t, step)[k] == o[k]
  {
  }

  /** The loops that move the entries of a type by one. */
  method ShiftEntries(o: array<int>, n: nat, from: nat, t: ElementType, step: int)
    requires from <= n <= o.Length
    modifies o
    ensures o[..n] == Shift(old(o[..n]), from, t, step)
  {
    ghost var before := o[..n];
    var i := from;
    while i < n
      invariant from <= i <= n
      invariant forall k :: 0 <= k < n ==>
        o[k] == if k < i then Shift(before, from, t, step)[k] else before[k]
    {
      if o[i] % 4 == t {
        o[i] := o[i] + 4 * step;
      }
      i := i + 1;
    }
    assert o[..n] == Shift(before, from, t, step);
  }

  /** The loops of removeOrderElement; the result is the new number of entries, not the place of the old one. */
  method RemoveFromOrder(o: array<int>, n: nat, i: nat, t: ElementType) returns (r: nat)
    requires i <= n < o.Length
    modifies o
    ensures o[..n] == RemoveEntry(old(o[..n + 1]), i, t) && r == n
  {
    ghost var before := o[..n + 1];
    forall k | i <= k < n {
      o[k] := o[k + 1];
    }
    assert o[..n] == before[..i] + before[i + 1..];
    ShiftEntries(o, n, i, t, -1);
    return n;
  }

  /** The memmove at the end of addToOrder. */
  method OpenItemGap<T>(q: array<T>, nc: nat, pos: nat)
    requires pos <= nc < q.Length
    modifies q
    ensures q[..pos] == old(q[..pos]) && q[pos + 1..nc + 1] == old(q[pos..nc])
  {
    forall k | pos < k <= nc {
      q[k] := q[k - 1];
    }
  }

  lemma ItemCount<T>(s: Contents<T>)
    requires Good(s)
    ensures |s.items| == 4
  {
  }

  /** One item out of an array, which is given back when it was the last one; `n` items stay. */
  method CloseItemGap<T(0)>(p: array<T>, n: nat, i: nat, ghost memInc: nat) returns (q: array<T>)
    requires i <= n < p.Length && Room(p.Length, n, memInc)
    modifies p
    ensures q == p || fresh(q)
    ensures n <= q.Length && Room(q.Length, n, memInc)
    ensures q[..n] == RemoveAt(old(p[..n + 1]), i)
  {
    ghost var before := p[..n + 1];
    if n == 0 {
      q := new T[0];
      return;
    }
    q := p;
    forall k | i <= k < n {
      q[k] := q[k + 1];
    }
    assert q[..n] == RemoveAt(before, i);
  }

  method IndexOf<T(==)>(p: array<T>, n: nat, x: T) returns (i: nat)
    requires n <= p.Length && x in p[..n]
    ensures i < n && p[i] == x && x !in p[..i]
  {
    i := 0;
    while p[i] != x
      invariant i < n && x !in p[..i] && x in p[i..n]
      decreases n - i
    {
      i := i + 1;
    }
  }

  // ---------- The element ----------

  lemma Inserted<T>(a: seq<T>, n: nat, items: seq<T>, at: nat, x: T)
    requires at <= |items| && n == |items| + 1 <= |a| && a[..at] == items[..at] && a[at] == x
    requires a[at + 1..n] == items[at..]
    ensures a[..n] == InsertAt(items, at, x)
  {
    assert a[..n] == a[..at] + [a[at]] + a[at + 1..n];
  }

  class XmlNodeData<T(0, ==)> {

    var pChild: array<T>
    var pText: array<T>
    var pClear: array<T>
    var nChild: nat
    var nText: nat
    var nClear: nat
    var pOrder: array<int>

    constructor ()
      ensures forall m :: Valid(m)
      ensures State() == Contents([], [[], [], [], []])
      ensures fresh(pChild) && fresh(pText) && fresh(pClear) && fresh(pOrder)
    {
      pChild, pText, pClear := new T[0], new T[0], new T[0];
      nChild, nText, nClear := 0, 0, 0;
      pOrder := new int[0];
    }

    /** The number of entries in the index. */
    function Size(): nat
      reads this
    {
      nChild + nText + nClear
    }

    /** The arrays have the room that growing by `m` relies on. */
    ghost predicate Valid(m: nat)
      reads this
    {
      && nChild <= pChild.Length && nText <= pText.Length && nClear <= pClear.Length && Size() <= pOrder.Length
      && Room(pChild.Length, nChild, m) && Room(pText.Length, nText, m) && Room(pClear.Length, nClear, m)
      && Room(pOrder.Length, Size(), 3 * m)
      && pChild != pText && pChild != pClear && pText != pClear
      && pOrder as object != pChild && pOrder as object != pText && pOrder as object != pClear
    }

    ghost function State(): Contents<T>
      requires nChild <= pChild.Length && nText <= pText.Length && nClear <= pClear.Length
      requires Size() <= pOrder.Length
      reads this, pChild, pText, pClear, pOrder
    {
      Contents(pOrder[..Size()], [pChild[..nChild], [], pText[..nText], pClear[..nClear]])
    }

    /** addToOrder: the place for the new item, and the array with a gap there. */
    method MakeRoom(m: nat, pos0: int, nc: nat, p: array<T>, t: ElementType) returns (pos: nat, q: array<T>)
      requires Size() <= pOrder.Length && Room(pOrder.Length, Size(), 3 * m)
      requires nc <= p.Length && Room(p.Length, nc, m)
      requires 0 <= AddToOrder(pOrder[..Size()], pos0, nc, t).1 <= nc
      requires p as object != pOrder
      modifies this`pOrder, pOrder, p
      ensures pOrder == old(pOrder) || fresh(pOrder)
      ensures Size() + 1 <= pOrder.Length && Room(pOrder.Length, Size() + 1, 3 * m)
      ensures (pOrder[..Size() + 1], pos) == AddToOrder(old(pOrder[..Size()]), pos0, nc, t)
      ensures (q == p || fresh(q)) && q as object != pOrder
      ensures nc + 1 <= q.Length && Room(q.Length, nc + 1, m) && pos <= nc
      ensures q[..pos] == old(p[..pos]) && q[pos + 1..nc + 1] == old(p[pos..nc])
    {
      hide Room, NewLength, AddToOrder;
      ghost var items := p[..nc];
      q := GrowBoth(m, nc, p);
      pos := InsertEntry(pOrder, Size(), pos0, nc, t);
      assert q[..nc] == items;
      OpenItemGap(q, nc, pos);
    }

    /** The two calls of myRealloc at the start of addToOrder. */
    method GrowBoth(m: nat, nc: nat, p: array<T>) returns (q: array<T>)
      requires Size() <= pOrder.Length && Room(pOrder.Length, Size(), 3 * m)
      requires nc <= p.Length && Room(p.Length, nc, m)
      requires p as object != pOrder
      modifies this`pOrder
      ensures pOrder == old(pOrder) || fresh(pOrder)
      ensures Size() + 1 <= pOrder.Length && Room(pOrder.Length, Size() + 1, 3 * m)
      ensures pOrder[..Size()] == old(pOrder[..Size()])
      ensures (q == p || fresh(q)) && q as object != pOrder
      ensures nc + 1 <= q.Length && Room(q.Length, nc + 1, m) && q[..nc] == p[..nc]
    {
      hide Room, NewLength;
      RoomForOneMore(p.Length, nc, m);
      RoomForOneMore(pOrder.Length, Size(), 3 * m);
      q := MyRealloc(p, nc + 1, m);
      ghost var order := pOrder[..Size()];
      pOrder := MyRealloc(pOrder, Size() + 1, 3 * m);
      assert pOrder[..Size()] == order;
    }

    /** addChild_priv */
    method AddChild(memoryIncrease: nat, value: T, pos: int)
      requires Valid(memoryIncrease) && Good(State())
      modifies this`pChild, this`nChild, this`pOrder, pChild, pOrder
      ensures Valid(memoryIncrease) && State() == Add(old(State()), CHILD, value, pos)
      ensures (pChild == old(pChild) || fresh(pChild)) && (pOrder == old(pOrder) || fresh(pOrder))
    {
      hide AddToOrder, Room, Good, Add, Rank, InsertAt;
      ghost var s := State();
      AddedInArray(s, CHILD, pos);
      ItemCount(s);
      var at;
      at, pChild := MakeRoom(memoryIncrease, pos, nChild, pChild, CHILD);
      pChild[at] := value;
      nChild := nChild + 1;
      AddIs(s, CHILD, value, pos, at);
      Inserted(pChild[..], nChild, s.items[CHILD], at, value);
      assert State().items == s.items[CHILD := InsertAt(s.items[CHILD], at, value)];
    }

    /** addText_priv */
    method AddText(memoryIncrease: nat, value: T, pos: int)
      requires Valid(memoryIncrease) && Good(State())
      modifies this`pText, this`nText, this`pOrder, pText, pOrder
      ensures Valid(memoryIncrease) && State() == Add(old(State()), TEXT, value, pos)
      ensures (pText == old(pText) || fresh(pText)) && (pOrder == old(pOrder) || fresh(pOrder))
    {
      hide AddToOrder, Room, Good, Add, Rank, InsertAt;
      ghost var s := State();
      AddedInArray(s, TEXT, pos);
      ItemCount(s);
      var at;
      at, pText := MakeRoom(memoryIncrease, pos, nText, pText, TEXT);
      pText[at] := value;
      nText := nText + 1;
      AddIs(s, TEXT, value, pos, at);
      Inserted(pText[..], nText, s.items[TEXT], at, value);
      assert State().items == s.items[TEXT := InsertAt(s.items[TEXT], at, value)];
    }

    /** addClear_priv */
    method AddClear(memoryIncrease: nat, value: T, pos: int)
      requires Valid(memoryIncrease) && Good(State())
      modifies this`pClear, this`nClear, this`pOrder, pClear, pOrder
      ensures Valid(memoryIncrease) && State() == Add(old(State()), CLEAR, value, pos)
      ensures (pClear == old(pClear) || fresh(pClear)) && (pOrder == old(pOrder) || fresh(pOrder))
    {
      hide AddToOrder, Room, Good, Add, Rank, InsertAt;
      ghost var s := State();
      AddedInArray(s, CLEAR, pos);
      ItemCount(s);
      var at;
      at, pClear := MakeRoom(memoryIncrease, pos, nClear, pClear, CLEAR);
      pClear[at] := value;
      nClear := nClear + 1;
      AddIs(s, CLEAR, value, pos, at);
      Inserted(pClear[..], nClear, s.items[CLEAR], at, value);
      assert State().items == s.items[CLEAR := InsertAt(s.items[CLEAR], at, value)];
    }

    /** findPosition, with -1 for a negative index; the item must stand in the index, which is that of `s`. */
    method FindPosition(index: int, t: ElementType, ghost s: Contents<T>) returns (i: int)
      requires Good(s) && |s.order| <= pOrder.Length && s.order == pOrder[..|s.order|] && index < |s.items[t]|
      ensures i == if index < 0 then -1 else Position(s, t, index)
    {
      hide Good;
      if index < 0 {
        return -1;
      }
      i := 0;
      var j := Code(t, index);
      ghost var p := Position(s, t, index);
      while pOrder[i] != j
        invariant 0 <= i <= p && p < |s.order| && pOrder[p] == j
        invariant forall k :: 0 <= k < i ==> pOrder[k] != j
        decreases p - i
      {
        i := i + 1;
      }
    }

    /** removeOrderElement, called when the item is no longer counted. It returns the new number of entries. */
    method RemoveOrderElement(t: ElementType, index: nat, ghost s: Contents<T>) returns (r: int)
      requires Good(s) && |s.order| == Size() + 1 <= pOrder.Length && s.order == pOrder[..Size() + 1]
      requires index < |s.items[t]|
      modifies pOrder
      ensures pOrder[..Size()] == Delete(s, t, index).order && r == Size()
    {
      hide Good;
      var i := FindPosition(index, t, s);
      r := RemoveFromOrder(pOrder, Size(), i, t);
    }

    /** deleteText, which leaves the element alone if there is no item `i` */
    method DeleteText(i: int, ghost memoryIncrease: nat)
      requires Valid(memoryIncrease) && Good(State())
      modifies this`pText, this`nText, pText, pOrder
      ensures Valid(memoryIncrease) && Good(State()) && State() == Delete(old(State()), TEXT, i)
      ensures pText == old(pText) || fresh(pText)
    {
      hide Room, Good, Delete, RemoveAt, RemoveEntry, Position;
      ghost var s := State();
      ItemCount(s);
      DeleteIsGood(s, TEXT, i);
      DeleteIs(s, TEXT, i);
      if i < 0 || i >= nText {
        return;
      }
      RoomForOneLess(pText.Length, nText, memoryIncrease);
      RoomForOneLess(pOrder.Length, Size(), 3 * memoryIncrease);
      nText := nText - 1;
      pText := CloseItemGap(pText, nText, i, memoryIncrease);
      assert Valid(memoryIncrease);
      assert pText[..nText] == RemoveAt(s.items[TEXT], i);
      var _ := RemoveOrderElement(TEXT, i, s);
      assert State().items == s.items[TEXT := RemoveAt(s.items[TEXT], i)];
    }

    /** deleteClear, which leaves the element alone if there is no item `i` */
    method DeleteClear(i: int, ghost memoryIncrease: nat)
      requires Valid(memoryIncrease) && Good(State())
      modifies this`pClear, this`nClear, pClear, pOrder
      ensures Valid(memoryIncrease) && Good(State()) && State() == Delete(old(State()), CLEAR, i)
      ensures pClear == old(pClear) || fresh(pClear)
    {
      hide Room, Good, Delete, RemoveAt, RemoveEntry, Position;
      ghost var s := State();
      ItemCount(s);
      DeleteIsGood(s, CLEAR, i);
      DeleteIs(s, CLEAR, i);
      if i < 0 || i >= nClear {
        return;
      }
      RoomForOneLess(pClear.Length, nClear, memoryIncrease);
      RoomForOneLess(pOrder.Length, Size(), 3 * memoryIncrease);
      nClear := nClear - 1;
      pClear := CloseItemGap(pClear, nClear, i, memoryIncrease);
      assert Valid(memoryIncrease);
      assert pClear[..nClear] == RemoveAt(s.items[CLEAR], i);
      var _ := RemoveOrderElement(CLEAR, i, s);
      assert State().items == s.items[CLEAR := RemoveAt(s.items[CLEAR], i)];
    }

    /** detachFromParent, for a child that stands in the array; the result is how many entries are left. */
    method DetachChild(child: T, ghost memoryIncrease: nat) returns (r: int, ghost i: nat)
      requires Valid(memoryIncrease) && Good(State()) && child in pChild[..nChild]
      modifies this`pChild, this`nChild, pChild, pOrder
      ensures i < old(nChild) && old(pChild[i]) == child && child !in old(pChild[..i])
      ensures Valid(memoryIncrease) && Good(State()) && State() == Delete(old(State()), CHILD, i)
      ensures pChild == old(pChild) || fresh(pChild)
      ensures r == Size()
    {
      var at := IndexOf(pChild, nChild, child);
      i := at;
      r := TakeChild(at, memoryIncrease);
    }

    /** The rest of detachFromParent, behind the search. */
    method TakeChild(i: nat, ghost memoryIncrease: nat) returns (r: int)
      requires Valid(memoryIncrease) && Good(State()) && i < nChild
      modifies this`pChild, this`nChild, pChild, pOrder
      ensures Valid(memoryIncrease) && Good(State()) && State() == Delete(old(State()), CHILD, i)
      ensures pChild == old(pChild) || fresh(pChild)
      ensures r == Size()
    {
      hide Room, Good, Delete, RemoveAt, RemoveEntry, Position;
      ghost var s := State();
      ItemCount(s);
      DeleteIsGood(s, CHILD, i);
      DeleteIs(s, CHILD, i);
      RoomForOneLess(pChild.Length, nChild, memoryIncrease);
      RoomForOneLess(pOrder.Length, Size(), 3 * memoryIncrease);
      nChild := nChild - 1;
      pChild := CloseItemGap(pChild, nChild, i, memoryIncrease);
      assert Valid(memoryIncrease);
      r := RemoveOrderElement(CHILD, i, s);
      assert State().items == s.items[CHILD := RemoveAt(s.items[CHILD], i)];
    }
  }
}
