/**
 The index pOrder of xmlParser.cpp: children, texts and clear nodes of an element stand in three arrays, and
 pOrder interleaves them. An entry of pOrder is four times the index in its array, plus the type.
 */
module ContentIndex {

  /** eNodeChild, eNodeText and eNodeClear; 1 is eNodeAttribute, which pOrder does not hold. */
  type ElementType = t: int | t == 0 || t == 2 || t == 3

  const CHILD: ElementType := 0
  const TEXT: ElementType := 2
  const CLEAR: ElementType := 3

  function Code(t: ElementType, index: nat): (code: nat)
    ensures code % 4 == t && code / 4 == index
  {
    index * 4 + t
  }

  // ---------- Well-formed index ----------

  /** How many of the first `i` entries have type `t`. */
  function Rank(o: seq<int>, i: nat, t: int): nat
    requires i <= |o|
  {
    if i == 0 then 0 else Rank(o, i - 1, t) + if o[i - 1] % 4 == t then 1 else 0
  }

  /** The entry at `i` names the next item of its type. */
  ghost predicate Entry(o: seq<int>, i: nat)
    requires i < |o|
  {
    o[i] % 4 != 1 && o[i] / 4 == Rank(o, i, o[i] % 4)
  }

  /** Every code stands exactly once, and the indices of each type increase. */
  ghost predicate Indexed(o: seq<int>) {
    forall i :: 0 <= i < |o| ==> Entry(o, i)
  }

  lemma {:induction false} RankGrows(o: seq<int>, i: nat, j: nat, t: int)
    requires i <= j <= |o|
    ensures Rank(o, i, t) <= Rank(o, j, t)
  {
    if i < j {
      RankGrows(o, i, j - 1, t);
    }
  }

  lemma RankPasses(o: seq<int>, i: nat, j: nat)
    requires i < j <= |o|
    ensures Rank(o, i, o[i] % 4) < Rank(o, j, o[i] % 4)
  {
    RankGrows(o, i + 1, j, o[i] % 4);
  }

  lemma {:induction false} RankLocal(o: seq<int>, p: seq<int>, i: nat, t: int)
    requires i <= |o| && i <= |p| && forall j :: 0 <= j < i ==> o[j] % 4 == p[j] % 4
    ensures Rank(o, i, t) == Rank(p, i, t)
  {
    if i > 0 {
      RankLocal(o, p, i - 1, t);
    }
  }

  /** In a well-formed index no code stands twice. */
  lemma NoDuplicate(o: seq<int>, i: nat, j: nat)
    requires i < j < |o| && o[i] == o[j]
    ensures !(Entry(o, i) && Entry(o, j))
  {
    RankPasses(o, i, j);
  }

  /** In a well-formed index every code of an item stands somewhere. */
  lemma {:induction false} Occurs(o: seq<int>, k: nat, t: ElementType, index: nat) returns (i: nat)
    requires Indexed(o) && k <= |o| && index < Rank(o, k, t)
    ensures i < k && o[i] == Code(t, index)
  {
    if index < Rank(o, k - 1, t) {
      i := Occurs(o, k - 1, t, index);
    } else {
      i := k - 1;
      assert Entry(o, i);
    }
  }

  // ---------- The operations on the index ----------

  /** The entries of type `t` from `from` on move by `step` in their array. */
  function Shift(o: seq<int>, from: nat, t: ElementType, step: int): (r: seq<int>)
    ensures |r| == |o|
    ensures forall k :: 0 <= k < |o| ==> r[k] == if k >= from && o[k] % 4 == t then o[k] + 4 * step else o[k]
  {
    seq(|o|, k requires 0 <= k < |o| => if k >= from && o[k] % 4 == t then o[k] + 4 * step else o[k])
  }

  /** The first place from `p` on, but in front of `n`, with an entry of type `t`; `n` if there is none. */
  function FirstOf(o: seq<int>, p: nat, n: nat, t: ElementType): (r: nat)
    requires p <= n <= |o|
    ensures p <= r <= n && (forall k :: p <= k < r ==> o[k] % 4 != t) && (r < n ==> o[r] % 4 == t)
    decreases n - p
  {
    if p == n || o[p] % 4 == t then p else FirstOf(o, p + 1, n, t)
  }

  /** The entry at `pos` twice. */
  function Doubled(o: seq<int>, pos: nat): (r: seq<int>)
    requires pos < |o|
    ensures |r| == |o| + 1 && forall k :: 0 <= k < |r| ==> r[k] == if k <= pos then o[k] else o[k - 1]
  {
    o[..pos + 1] + o[pos..]
  }

  /** addToOrder: the new index, and the place in the array of the new item, where `nc` items are. */
  function AddToOrder(o: seq<int>, pos: int, nc: nat, t: ElementType): (r: (seq<int>, int))
    ensures |r.0| == |o| + 1
  {
    if pos < 0 || pos >= |o| then (o + [Code(t, nc)], nc)
    else
      var w := Doubled(o, pos);
      var p := FirstOf(w, pos, |o|, t);
      if p == |o| then (w[p := Code(t, nc)], nc)
      else (Shift(w[pos := w[p]], p + 1, t, 1), w[p] / 4)
  }

  /** removeOrderElement for the entry at `i`. */
  function RemoveEntry(o: seq<int>, i: nat, t: ElementType): (r: seq<int>)
    requires i < |o|
    ensures |r| == |o| - 1
  {
    Shift(o[..i] + o[i + 1..], i, t, -1)
  }

  // ---------- When the index stays well-formed ----------

  /** In front of an entry of the same type, the new item takes that entry's place in the array. */
  lemma AddInFront(o: seq<int>, pos: nat, nc: nat, t: ElementType)
    requires pos < |o| && o[pos] % 4 == t
    ensures
      var (r, at) := AddToOrder(o, pos, nc, t);
      && at == o[pos] / 4
      && forall k :: 0 <= k <= |o| ==> r[k] == if k <= pos then o[k] else Moved(o[k - 1], t)
  {
    var w := Doubled(o, pos);
    assert FirstOf(w, pos, |o|, t) == pos;
    assert w[pos := w[pos]] == w;
  }

  lemma AddInFrontAt(o: seq<int>, pos: nat, nc: nat, t: ElementType, k: nat)
    requires pos < |o| && o[pos] % 4 == t && k <= |o|
    ensures
      var (r, at) := AddToOrder(o, pos, nc, t);
      |r| == |o| + 1 && at == o[pos] / 4 && r[k] == if k <= pos then o[k] else Moved(o[k - 1], t)
  {
    hide Moved;
    AddInFront(o, pos, nc, t);
  }

  function Moved(code: int, t: ElementType): (r: int)
    ensures r % 4 == code % 4
  {
    if code % 4 == t then code + 4 else code
  }

  lemma MovedBy(code: int, t: ElementType)
    ensures Moved(code, t) % 4 == code % 4 && Moved(code, t) / 4 == code / 4 + if code % 4 == t then 1 else 0
  {
  }

  lemma {:induction false} RankAfterAdd(o: seq<int>, pos: nat, nc: nat, t: ElementType, j: nat, u: int)
    requires pos < |o| && o[pos] % 4 == t && j <= |o| + 1
    ensures Rank(AddToOrder(o, pos, nc, t).0, j, u)
      == if j <= pos then Rank(o, j, u) else Rank(o, j - 1, u) + if u == t then 1 else 0
  {
    hide AddToOrder, Moved;
    if j > 0 {
      AddInFrontAt(o, pos, nc, t, j - 1);
      RankAfterAdd(o, pos, nc, t, j - 1, u);
    }
  }

  lemma RankOfAppended(o: seq<int>, code: int, u: int)
    ensures Rank(o + [code], |o|, u) == Rank(o, |o|, u)
    ensures Rank(o + [code], |o| + 1, u) == Rank(o, |o|, u) + if code % 4 == u then 1 else 0
  {
    RankLocal(o + [code], o, |o|, u);
  }

  lemma AppendKeeps(o: seq<int>, t: ElementType)
    requires Indexed(o)
    ensures Indexed(o + [Code(t, Rank(o, |o|, t))])
  {
    var r := o + [Code(t, Rank(o, |o|, t))];
    forall i | 0 <= i < |r| ensures Entry(r, i) {
      RankLocal(r, o, i, r[i] % 4);
      assert i < |o| ==> Entry(o, i);
    }
  }

  lemma InsertKeeps(o: seq<int>, pos: nat, nc: nat, t: ElementType)
    requires Indexed(o) && pos < |o| && o[pos] % 4 == t
    ensures Indexed(AddToOrder(o, pos, nc, t).0)
  {
    hide AddToOrder;
    AddInFront(o, pos, nc, t);
    var r := AddToOrder(o, pos, nc, t).0;
    forall i | 0 <= i < |r| ensures Entry(r, i) {
      RankAfterAdd(o, pos, nc, t, i, r[i] % 4);
      var was := if i <= pos then i else i - 1;
      assert Entry(o, was) && r[i] % 4 == o[was] % 4;
    }
  }

  lemma InsertBreaks(o: seq<int>, pos: nat, nc: nat, t: ElementType)
    requires pos < |o| - 1 && o[pos] % 4 != t
    ensures !Indexed(AddToOrder(o, pos, nc, t).0)
  {
    var w := Doubled(o, pos);
    var p := FirstOf(w, pos, |o|, t);
    var r := AddToOrder(o, pos, nc, t).0;
    NoDuplicate(r, pos, if p == |o| then pos + 1 else p);
  }

  lemma InsertBeforeLast(o: seq<int>, nc: nat, t: ElementType)
    requires |o| > 0 && o[|o| - 1] % 4 != t
    ensures AddToOrder(o, |o| - 1, nc, t) == (o + [Code(t, nc)], nc)
  {
    var w := Doubled(o, |o| - 1);
    assert FirstOf(w, |o| - 1, |o|, t) == |o|;
    assert w[|o| := Code(t, nc)] == o + [Code(t, nc)];
  }

  /** Exactly when addToOrder keeps the index well-formed. */
  lemma AddKeepsIndex(o: seq<int>, pos: int, t: ElementType)
    requires Indexed(o)
    ensures Indexed(AddToOrder(o, pos, Rank(o, |o|, t), t).0)
      <==> (0 <= pos < |o| - 1 ==> o[pos] % 4 == t)
  {
    var nc := Rank(o, |o|, t);
    AppendKeeps(o, t);
    if 0 <= pos < |o| {
      if o[pos] % 4 == t {
        InsertKeeps(o, pos, nc, t);
      } else if pos < |o| - 1 {
        InsertBreaks(o, pos, nc, t);
      } else {
        InsertBeforeLast(o, nc, t);
      }
    }
  }

  lemma {:induction false} RankAfterRemove(o: seq<int>, i: nat, t: ElementType, j: nat, u: int)
    requires i < |o| && o[i] % 4 == t && j < |o|
    ensures Rank(RemoveEntry(o, i, t), j, u)
      == if j <= i then Rank(o, j, u) else Rank(o, j + 1, u) - if u == t then 1 else 0
  {
    if j > 0 {
      RankAfterRemove(o, i, t, j - 1, u);
    }
  }

  lemma RemoveKeeps(o: seq<int>, i: nat, t: ElementType)
    requires Indexed(o) && i < |o| && o[i] % 4 == t
    ensures Indexed(RemoveEntry(o, i, t))
  {
    var r := RemoveEntry(o, i, t);
    forall j | 0 <= j < |r| ensures Entry(r, j) {
      var was := if j < i then j else j + 1;
      assert Entry(o, was) && r[j] % 4 == o[was] % 4;
      RankAfterRemove(o, i, t, j, r[j] % 4);
      if j == i {
        assert Rank(o, i + 1, r[j] % 4) == Rank(o, i, r[j] % 4) + if t == r[j] % 4 then 1 else 0;
      }
    }
  }

  // ---------- The contents of an element ----------

  /** The index and the arrays; array 1 stays empty. */
  datatype Contents<T> = Contents(order: seq<int>, items: seq<seq<T>>)

  datatype Item<T> = Item(t: int, value: T)

  ghost predicate Good<T>(s: Contents<T>) {
    && |s.items| == 4 && Indexed(s.order)
    && forall t :: 0 <= t < 4 ==> |s.items[t]| == Rank(s.order, |s.order|, t)
  }

  lemma EntryHasItem<T>(s: Contents<T>, i: nat)
    requires Good(s) && i < |s.order|
    ensures
      var code := s.order[i];
      code % 4 != 1 && code >= 0 && code / 4 < |s.items[code % 4]| && code / 4 == Rank(s.order, i, code % 4)
  {
    assert Entry(s.order, i);
    RankPasses(s.order, i, |s.order|);
  }

  /** enumContents behind the attributes: what stands at place `i`. */
  function EnumContents<T>(s: Contents<T>, i: nat): Item<T>
    requires Good(s) && i < |s.order|
  {
    var code := s.order[i];
    EntryHasItem(s, i);
    Item(code % 4, s.items[code % 4][code / 4])
  }

  /** All the contents in order. */
  function View<T>(s: Contents<T>): (v: seq<Item<T>>)
    requires Good(s)
    ensures |v| == |s.order| && forall i :: 0 <= i < |v| ==> v[i] == EnumContents(s, i)
  {
    seq(|s.order|, i requires 0 <= i < |s.order| => EnumContents(s, i))
  }

  function InsertAt<A>(v: seq<A>, k: int, x: A): seq<A>
    requires 0 <= k <= |v|
  {
    v[..k] + [x] + v[k..]
  }

  function RemoveAt<A>(v: seq<A>, k: int): seq<A>
    requires 0 <= k < |v|
  {
    v[..k] + v[k + 1..]
  }

  /** addText, addClear and addChild: position `pos` in the contents, or any other number for the end. */
  function Add<T>(s: Contents<T>, t: ElementType, x: T, pos: int): Contents<T>
    requires Good(s)
  {
    var (order, k) := AddToOrder(s.order, pos, |s.items[t]|, t);
    AddedInArray(s, t, pos);
    Contents(order, s.items[t := InsertAt(s.items[t], k, x)])
  }

  /** The place in the array exists, also when the index is not kept well-formed. */
  lemma AddedInArray<T>(s: Contents<T>, t: ElementType, pos: int)
    requires Good(s)
    ensures 0 <= AddToOrder(s.order, pos, |s.items[t]|, t).1 <= |s.items[t]|
  {
    var o := s.order;
    if 0 <= pos < |o| {
      var w := Doubled(o, pos);
      var p := FirstOf(w, pos, |o|, t);
      if p < |o| {
        EntryHasItem(s, if p <= pos then p else p - 1);
      }
    }
  }

  lemma AddIs<T>(s: Contents<T>, t: ElementType, x: T, pos: int, k: int)
    requires Good(s) && AddToOrder(s.order, pos, |s.items[t]|, t).1 == k
    ensures 0 <= k <= |s.items[t]|
    ensures Add(s, t, x, pos)
      == Contents(AddToOrder(s.order, pos, |s.items[t]|, t).0, s.items[t := InsertAt(s.items[t], k, x)])
  {
    AddedInArray(s, t, pos);
  }

  /** deleteText, deleteClear, and a child that is detached: nothing happens if there is no such item. */
  function Delete<T>(s: Contents<T>, t: ElementType, index: int): Contents<T>
    requires Good(s)
  {
    if index < 0 || index >= |s.items[t]| then s
    else Contents(RemoveEntry(s.order, Position(s, t, index), t), s.items[t := RemoveAt(s.items[t], index)])
  }

  lemma DeleteIs<T>(s: Contents<T>, t: ElementType, index: int)
    requires Good(s)
    ensures if index < 0 || index >= |s.items[t]| then Delete(s, t, index) == s
            else Delete(s, t, index).items == s.items[t := RemoveAt(s.items[t], index)]
                 && Delete(s, t, index).order == RemoveEntry(s.order, Position(s, t, index), t)
  {
  }

  /** findPosition: where item `index` of type `t` stands among the contents. */
  function Position<T>(s: Contents<T>, t: ElementType, index: nat): (i: nat)
    requires Good(s) && index < |s.items[t]|
    ensures i < |s.order| && s.order[i] == Code(t, index)
    ensures forall k :: 0 <= k < i ==> s.order[k] != Code(t, index)
  {
    Stands(s, t, index);
    PositionFrom(s.order, Code(t, index), 0)
  }

  lemma Stands<T>(s: Contents<T>, t: ElementType, index: nat)
    requires Good(s) && index < |s.items[t]|
    ensures Code(t, index) in s.order
  {
    var i := Occurs(s.order, |s.order|, t, index);
  }

  function PositionFrom(o: seq<int>, code: int, i: nat): (r: nat)
    requires i <= |o| && code in o[i..]
    ensures i <= r < |o| && o[r] == code
    ensures forall k :: i <= k < r ==> o[k] != code
    decreases |o| - i
  {
    if o[i] == code then i else PositionFrom(o, code, i + 1)
  }

  // ---------- Refinement of plain insertion and deletion ----------

  function PlainAdd<T>(v: seq<Item<T>>, x: Item<T>, pos: int): seq<Item<T>> {
    if 0 <= pos < |v| then InsertAt(v, pos, x) else v + [x]
  }

  /** Item `index` of type `t` taken out; nothing if there is none. */
  function PlainDelete<T>(v: seq<Item<T>>, t: int, index: int): seq<Item<T>> {
    if v == [] then v
    else if v[0].t != t then [v[0]] + PlainDelete(v[1..], t, index)
    else if index == 0 then v[1..]
    else [v[0]] + PlainDelete(v[1..], t, index - 1)
  }

  lemma AddIsGood<T>(s: Contents<T>, t: ElementType, x: T, pos: int)
    requires Good(s) && (0 <= pos < |s.order| ==> s.order[pos] % 4 == t)
    ensures Good(Add(s, t, x, pos))
  {
    hide AddToOrder;
    var o, nc := s.order, |s.items[t]|;
    AddKeepsIndex(o, pos, t);
    AddedInArray(s, t, pos);
    forall u | 0 <= u < 4
      ensures |Add(s, t, x, pos).items[u]| == Rank(Add(s, t, x, pos).order, |o| + 1, u)
    {
      if 0 <= pos < |o| {
        RankAfterAdd(o, pos, nc, t, |o| + 1, u);
      } else {
        AppendedOrder(o, pos, nc, t);
        RankOfAppended(o, Code(t, nc), u);
      }
    }
  }

  lemma AppendedOrder(o: seq<int>, pos: int, nc: nat, t: ElementType)
    requires pos < 0 || pos >= |o|
    ensures AddToOrder(o, pos, nc, t) == (o + [Code(t, nc)], nc)
  {
  }

  lemma InsertedAt<A>(v: seq<A>, k: nat, x: A, j: nat)
    requires k <= |v| && j <= |v|
    ensures |InsertAt(v, k, x)| == |v| + 1
    ensures InsertAt(v, k, x)[j] == if j < k then v[j] else if j == k then x else v[j - 1]
  {
  }

  /** What stands at `i` after an insertion in front of an entry of the same type. */
  lemma InsertedItem<T>(s: Contents<T>, t: ElementType, x: T, pos: nat, i: nat)
    requires Good(s) && pos < |s.order| && s.order[pos] % 4 == t && i <= |s.order|
    requires Good(Add(s, t, x, pos))
    ensures EnumContents(Add(s, t, x, pos), i)
      == if i < pos then EnumContents(s, i) else if i == pos then Item(t, x) else EnumContents(s, i - 1)
  {
    hide AddToOrder, Indexed, Moved, InsertAt, Rank;
    AddInFrontAt(s.order, pos, |s.items[t]|, t, i);
    EntryHasItem(s, pos);
    var n, k := Add(s, t, x, pos), s.order[pos] / 4;
    assert n.items == s.items[t := InsertAt(s.items[t], k, x)];
    EntryHasItem(n, i);
    if i < pos {
      EntryHasItem(s, i);
      InsertedAt(s.items[t], k, x, if s.order[i] % 4 == t then s.order[i] / 4 else k);
      if s.order[i] % 4 == t {
        RankPasses(s.order, i, pos);
      }
    } else if i == pos {
      InsertedAt(s.items[t], k, x, k);
    } else {
      EntryHasItem(s, i - 1);
      MovedBy(s.order[i - 1], t);
      InsertedAt(s.items[t], k, x, if s.order[i - 1] % 4 == t then s.order[i - 1] / 4 + 1 else k);
      RankGrows(s.order, pos, i - 1, t);
    }
  }

  lemma AppendedItem<T>(s: Contents<T>, t: ElementType, x: T, pos: int, i: nat)
    requires Good(s) && i <= |s.order|
    requires AddToOrder(s.order, pos, |s.items[t]|, t) == (s.order + [Code(t, |s.items[t]|)], |s.items[t]|)
    requires Good(Add(s, t, x, pos))
    ensures EnumContents(Add(s, t, x, pos), i) == if i < |s.order| then EnumContents(s, i) else Item(t, x)
  {
    hide AddToOrder, Indexed;
    if i < |s.order| {
      EntryHasItem(s, i);
    }
  }

  /**
   Adding at the end, or in front of an item of the same type, is insertion into the sequence of the contents.
   In front of an item of another type it never is.
   */
  lemma AddRefines<T>(s: Contents<T>, t: ElementType, x: T, pos: int)
    requires Good(s)
    ensures (Good(Add(s, t, x, pos)) && View(Add(s, t, x, pos)) == PlainAdd(View(s), Item(t, x), pos))
      <==> (0 <= pos < |View(s)| ==> View(s)[pos].t == t)
  {
    hide AddToOrder, Good, Add;
    if 0 <= pos < |s.order| {
      assert View(s)[pos].t == s.order[pos] % 4;
      if s.order[pos] % 4 == t {
        AddIsGood(s, t, x, pos);
        InsertRefines(s, t, x, pos);
      } else {
        InsertFails(s, t, x, pos);
      }
    } else {
      AddIsGood(s, t, x, pos);
      AppendRefines(s, t, x, pos);
    }
  }

  lemma InsertRefines<T>(s: Contents<T>, t: ElementType, x: T, pos: nat)
    requires Good(s) && pos < |s.order| && s.order[pos] % 4 == t
    requires Good(Add(s, t, x, pos))
    ensures View(Add(s, t, x, pos)) == PlainAdd(View(s), Item(t, x), pos)
  {
    hide AddToOrder, Good, EnumContents;
    var v, w := View(s), View(Add(s, t, x, pos));
    forall i | 0 <= i <= |v| ensures w[i] == InsertAt(v, pos, Item(t, x))[i] {
      InsertedItem(s, t, x, pos, i);
    }
  }

  lemma AppendRefines<T>(s: Contents<T>, t: ElementType, x: T, pos: int)
    requires Good(s) && (pos < 0 || pos >= |s.order|)
    requires Good(Add(s, t, x, pos))
    ensures View(Add(s, t, x, pos)) == View(s) + [Item(t, x)]
  {
    AppendedOrder(s.order, pos, |s.items[t]|, t);
    AppendView(s, t, x, pos);
  }

  lemma AppendView<T>(s: Contents<T>, t: ElementType, x: T, pos: int)
    requires Good(s)
    requires AddToOrder(s.order, pos, |s.items[t]|, t) == (s.order + [Code(t, |s.items[t]|)], |s.items[t]|)
    requires Good(Add(s, t, x, pos))
    ensures View(Add(s, t, x, pos)) == View(s) + [Item(t, x)]
  {
    hide AddToOrder, Good, EnumContents;
    var v, w := View(s), View(Add(s, t, x, pos));
    forall i | 0 <= i <= |v| ensures w[i] == (v + [Item(t, x)])[i] {
      AppendedItem(s, t, x, pos, i);
    }
  }

  lemma InsertFails<T>(s: Contents<T>, t: ElementType, x: T, pos: nat)
    requires Good(s) && pos < |s.order| && s.order[pos] % 4 != t
    ensures Good(Add(s, t, x, pos)) ==> View(Add(s, t, x, pos)) != PlainAdd(View(s), Item(t, x), pos)
  {
    hide AddToOrder, EnumContents;
    AddKeepsIndex(s.order, pos, t);
    if pos == |s.order| - 1 && Good(Add(s, t, x, pos)) {
      InsertBeforeLast(s.order, |s.items[t]|, t);
      AppendView(s, t, x, pos);
      OtherType(s, pos, t);
      assert View(Add(s, t, x, pos))[pos] == View(s)[pos];
      assert PlainAdd(View(s), Item(t, x), pos)[pos] == Item(t, x);
    }
  }

  lemma OtherType<T>(s: Contents<T>, pos: nat, t: ElementType)
    requires Good(s) && pos < |s.order| && s.order[pos] % 4 != t
    ensures View(s)[pos].t != t
  {
  }

  lemma DeleteIsGood<T>(s: Contents<T>, t: ElementType, index: int)
    requires Good(s)
    ensures Good(Delete(s, t, index))
  {
    hide Rank, Indexed, RemoveEntry, PositionFrom, Entry;
    if 0 <= index < |s.items[t]| {
      var i := Position(s, t, index);
      RemoveKeeps(s.order, i, t);
      forall u | 0 <= u < 4
        ensures |Delete(s, t, index).items[u]| == Rank(Delete(s, t, index).order, |s.order| - 1, u)
      {
        RankAfterRemove(s.order, i, t, |s.order| - 1, u);
        RankAtEnd(s.order, u);
      }
    }
  }

  lemma RankAtEnd(o: seq<int>, u: int)
    requires |o| > 0
    ensures Rank(o, |o|, u) == Rank(o, |o| - 1, u) + if o[|o| - 1] % 4 == u then 1 else 0
  {
  }

  lemma RemovedAt(o: seq<int>, i: nat, t: ElementType, k: nat)
    requires i < |o| && k < |o| - 1
    ensures RemoveEntry(o, i, t)[k] == if k < i then o[k] else if o[k + 1] % 4 == t then o[k + 1] - 4 else o[k + 1]
  {
  }

  lemma DeletedItem<T>(s: Contents<T>, t: ElementType, index: nat, i: nat)
    requires Good(s) && index < |s.items[t]| && i < |s.order| - 1 && Good(Delete(s, t, index))
    ensures
      var p := Position(s, t, index);
      EnumContents(Delete(s, t, index), i) == if i < p then EnumContents(s, i) else EnumContents(s, i + 1)
  {
    hide Indexed, RemoveEntry, Rank;
    var p := Position(s, t, index);
    var was := if i < p then i else i + 1;
    EntryHasItem(s, was);
    EntryHasItem(s, p);
    RemovedAt(s.order, p, t, i);
    if s.order[was] % 4 == t {
      if i < p {
        RankPasses(s.order, i, p);
      } else {
        RankPasses(s.order, p, i + 1);
      }
    }
  }

  /** How many of the first `i` items have type `t`. */
  function Before<T>(v: seq<Item<T>>, i: nat, t: int): nat
    requires i <= |v|
  {
    if i == 0 then 0 else (if v[0].t == t then 1 else 0) + Before(v[1..], i - 1, t)
  }

  lemma {:induction false} PlainDeleteAt<T>(v: seq<Item<T>>, i: nat)
    requires i < |v|
    ensures PlainDelete(v, v[i].t, Before(v, i, v[i].t)) == RemoveAt(v, i)
  {
    if i > 0 {
      PlainDeleteAt(v[1..], i - 1);
      assert RemoveAt(v, i) == [v[0]] + RemoveAt(v[1..], i - 1);
    }
  }

  lemma {:induction false} PlainDeleteNone<T>(v: seq<Item<T>>, t: int, index: int)
    requires index < 0 || index >= Before(v, |v|, t)
    ensures PlainDelete(v, t, index) == v
  {
    if v != [] {
      PlainDeleteNone(v[1..], t, if v[0].t == t then index - 1 else index);
    }
  }

  lemma {:induction false} BeforeMore<T>(v: seq<Item<T>>, i: nat, t: int)
    requires 0 < i <= |v|
    ensures Before(v, i, t) == Before(v, i - 1, t) + if v[i - 1].t == t then 1 else 0
  {
    if i > 1 {
      BeforeMore(v[1..], i - 1, t);
    }
  }

  lemma {:induction false} BeforeIsRank<T>(s: Contents<T>, i: nat, t: int)
    requires Good(s) && i <= |s.order|
    ensures Before(View(s), i, t) == Rank(s.order, i, t)
  {
    hide Good, Before;
    if i > 0 {
      BeforeIsRank(s, i - 1, t);
      BeforeMore(View(s), i, t);
    } else {
      assert Before(View(s), 0, t) == 0 by {
        BeforeNone(View(s), t);
      }
    }
  }

  lemma BeforeNone<T>(v: seq<Item<T>>, t: int)
    ensures Before(v, 0, t) == 0
  {
  }

  /** Deleting item `index` of a type is deletion from the sequence of the contents. */
  lemma DeleteRefines<T>(s: Contents<T>, t: ElementType, index: int)
    requires Good(s)
    ensures Good(Delete(s, t, index))
    ensures View(Delete(s, t, index)) == PlainDelete(View(s), t, index)
  {
    hide PlainDelete, EnumContents, Indexed;
    DeleteIsGood(s, t, index);
    if 0 <= index < |s.items[t]| {
      var p, v, w := Position(s, t, index), View(s), View(Delete(s, t, index));
      forall i | 0 <= i < |w| ensures w[i] == RemoveAt(v, p)[i] {
        DeletedItem(s, t, index, i);
      }
      assert w == RemoveAt(v, p);
      EntryHasItem(s, p);
      BeforeIsRank(s, p, t);
      TypeAt(s, p);
      PlainDeleteAt(v, p);
    } else {
      BeforeIsRank(s, |s.order|, t);
      PlainDeleteNone(View(s), t, index);
    }
  }

  lemma TypeAt<T>(s: Contents<T>, p: nat)
    requires Good(s) && p < |s.order|
    ensures View(s)[p].t == s.order[p] % 4
  {
  }

  // ---------- Whole runs ----------

  datatype Op<T> = OpAdd(t: ElementType, x: T, pos: int) | OpDelete(t: ElementType, index: int)

  /** The plain sequence after the operations. */
  function PlainRun<T>(v: seq<Item<T>>, ops: seq<Op<T>>): seq<Item<T>>
    decreases |ops|
  {
    if ops == [] then v
    else
      match ops[0]
      case OpAdd(t, x, pos) => PlainRun(PlainAdd(v, Item(t, x), pos), ops[1..])
      case OpDelete(t, index) => PlainRun(PlainDelete(v, t, index), ops[1..])
  }

  /** Every addition in the middle is in front of an item of the same type. */
  predicate Direct<T>(v: seq<Item<T>>, ops: seq<Op<T>>)
    decreases |ops|
  {
    ops == [] ||
    match ops[0]
    case OpAdd(t, x, pos) =>
      (0 <= pos < |v| ==> v[pos].t == t) && Direct(PlainAdd(v, Item(t, x), pos), ops[1..])
    case OpDelete(t, index) => Direct(PlainDelete(v, t, index), ops[1..])
  }

  /** The element after the operations; none when the index was no longer well-formed in front of one. */
  ghost predicate RunsTo<T>(s: Contents<T>, ops: seq<Op<T>>, end: Contents<T>)
    decreases |ops|
  {
    if ops == [] then s == end
    else
      && Good(s)
      && match ops[0]
         case OpAdd(t, x, pos) => RunsTo(Add(s, t, x, pos), ops[1..], end)
         case OpDelete(t, index) => RunsTo(Delete(s, t, index), ops[1..], end)
  }

  /** From a well-formed element, the operations act on the contents as on a plain sequence. */
  lemma {:induction false} RunRefines<T>(s: Contents<T>, ops: seq<Op<T>>) returns (end: Contents<T>)
    requires Good(s) && Direct(View(s), ops)
    ensures RunsTo(s, ops, end) && Good(end) && View(end) == PlainRun(View(s), ops)
    decreases |ops|
  {
    hide Good, View, Add, Delete, PlainAdd, PlainDelete;
    if ops == [] {
      end := s;
    } else {
      match ops[0]
      case OpAdd(t, x, pos) =>
        AddRefines(s, t, x, pos);
        end := RunRefines(Add(s, t, x, pos), ops[1..]);
      case OpDelete(t, index) =>
        DeleteRefines(s, t, index);
        end := RunRefines(Delete(s, t, index), ops[1..]);
    }
  }
}
