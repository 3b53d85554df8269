/**
 The scheduler over the broadcast channels: BroadcastManagerImplBase.cpp and BroadcastQueueInfo.cpp.

 The channels stand in a chain of groups. The first part says on values what the chain and the scheduler
 do and proves the fairness theorems over whole runs. The classes at the end are proved to follow it.
 */
module BroadcastManagers {

  import opened Options
  import opened BroadcastQueues

  class BroadcastQueueInfo {
    const pChannel: BroadcastQueue
    const uPacketQuota: nat
    var pNext: BroadcastQueueInfo?
    var pParentGroup: BroadcastQueueGroupInfo?

    constructor (pChannel: BroadcastQueue, uPacketQuota: nat)
      ensures this.pChannel == pChannel && this.uPacketQuota == uPacketQuota && pNext == null
    {
      this.pChannel := pChannel;
      this.uPacketQuota := uPacketQuota;
      pNext, pParentGroup := null, null;
    }
  }

  class BroadcastQueueGroupInfo {
    const uPriority: nat
    var pItemList: BroadcastQueueInfo?
    var pNextGroup: BroadcastQueueGroupInfo?
    ghost var items: seq<BroadcastQueueInfo>

    constructor (uPriority: nat)
      ensures this.uPriority == uPriority && pItemList == null && pNextGroup == null && items == []
    {
      this.uPriority := uPriority;
      pItemList, pNextGroup, items := null, null, [];
    }

    ghost predicate LinkedAt(i: int, all: set<BroadcastQueueInfo>)
      reads this, all
    {
      0 <= i < |items| ==> items[i] in all && items[i].pNext == InfoAt(items, i + 1)
    }

    /** The group links `items`, which are among `all`. */
    ghost predicate Linked(all: set<BroadcastQueueInfo>)
      reads this, all
    {
      && pItemList == InfoAt(items, 0) && Once(items)
      && forall i {:trigger LinkedAt(i, all)} :: 0 <= i < |items| ==> LinkedAt(i, all)
    }

    lemma Links(all: set<BroadcastQueueInfo>)
      requires Linked(all)
      ensures forall x :: x in items ==> x in all
      ensures forall i {:trigger items[i].pNext} :: 0 <= i < |items| ==> items[i].pNext == InfoAt(items, i + 1)
    {
      forall i | 0 <= i < |items|
        ensures items[i] in all && items[i].pNext == InfoAt(items, i + 1)
      {
        assert LinkedAt(i, all) == true;
      }
    }

    /** `x` was linked in at `k`. */
    twostate lemma LinkedIn(k: nat, new x: BroadcastQueueInfo, new all: set<BroadcastQueueInfo>)
      requires old(pItemList) == InfoAt(old(items), 0) && Once(old(items)) && x in all && x !in old(items)
      requires forall i {:trigger old(items[i].pNext)} :: 0 <= i < |old(items)| ==>
        old(items[i].pNext) == InfoAt(old(items), i + 1)
      requires k <= |old(items)| && items == old(items)[..k] + [x] + old(items)[k..]
      requires x.pNext == InfoAt(old(items), k) && pItemList == if k == 0 then x else old(pItemList)
      requires forall i {:trigger old(items)[i]} :: 0 <= i < |old(items)| ==>
        old(items)[i] in all && old(items)[i].pNext == if i + 1 == k then x else old(items[i].pNext)
      ensures Linked(all)
    {
      forall j | 0 <= j < |items|
        ensures LinkedAt(j, all) == true
      {
        if j != k {
          var i := if j < k then j else j - 1;
          assert items[j] == old(items)[i];
          assert old(items[i].pNext) == InfoAt(old(items), i + 1);
        }
      }
    }

    method InsertChannelInfo(pChannelInfo: BroadcastQueueInfo, ghost all: set<BroadcastQueueInfo>)
      requires Linked(all) && pChannelInfo !in items && pChannelInfo.pNext == null
      modifies this`pItemList, this`items, items`pNext, pChannelInfo
      ensures Linked(all + {pChannelInfo}) && items == InsertByQuota(old(items), pChannelInfo)
      ensures pChannelInfo.pParentGroup == this
    {
      hide InsertByQuota;
      Links(all);
      pChannelInfo.pParentGroup := this;
      ghost var k := 0;
      if pItemList == null {
        pItemList := pChannelInfo;
      } else {
        var pBefore: BroadcastQueueInfo? := null;
        var pAfter := pItemList;
        while pAfter != null
          invariant 0 <= k <= |items| && pAfter == InfoAt(items, k) && pBefore == InfoAt(items, k - 1)
          invariant forall j :: 0 <= j < k ==> items[j].uPacketQuota > pChannelInfo.uPacketQuota
          decreases |items| - k
        {
          if pChannelInfo.uPacketQuota >= pAfter.uPacketQuota {
            break;
          } else {
            pBefore := pAfter;
            pAfter := pAfter.pNext;
            k := k + 1;
          }
        }
        if pAfter == null {
          pBefore.pNext := pChannelInfo;
        } else {
          pChannelInfo.pNext := pAfter;
          if pBefore != null {
            pBefore.pNext := pChannelInfo;
          } else {
            pItemList := pChannelInfo;
          }
        }
      }
      ghost var was := items;
      InsertByQuotaAt(was, pChannelInfo, k);
      items := was[..k] + [pChannelInfo] + was[k..];
      LinkedIn(k, pChannelInfo, all + {pChannelInfo});
    }
  }

  function InfoAt(items: seq<BroadcastQueueInfo>, i: int): BroadcastQueueInfo? {
    if 0 <= i < |items| then items[i] else null
  }

  /** Every element stands at one place. */
  predicate Once(channels: seq<BroadcastQueueInfo>) {
    forall i, j :: 0 <= i < j < |channels| ==> channels[i] != channels[j]
  }

  // ---------- The chain on values ----------

  type Info = BroadcastQueueInfo

  datatype Group = Group(priority: nat, channels: seq<Info>)

  function Channels(chain: seq<Group>): seq<Info> {
    if chain == [] then [] else chain[0].channels + Channels(chain[1..])
  }

  function InsertByQuota(channels: seq<Info>, x: Info): seq<Info> {
    if channels == [] || x.uPacketQuota >= channels[0].uPacketQuota then [x] + channels
    else [channels[0]] + InsertByQuota(channels[1..], x)
  }

  function InsertChannel(chain: seq<Group>, priority: nat, x: Info): seq<Group> {
    if chain == [] || priority > chain[0].priority then [Group(priority, [x])] + chain
    else if priority == chain[0].priority then [Group(priority, InsertByQuota(chain[0].channels, x))] + chain[1..]
    else [chain[0]] + InsertChannel(chain[1..], priority, x)
  }

  lemma InsertLater(chain: seq<Group>, priority: nat, x: Info)
    requires chain != [] && priority < chain[0].priority
    ensures InsertChannel(chain, priority, x) == [chain[0]] + InsertChannel(chain[1..], priority, x)
  {
  }

  predicate QuotasDescend(channels: seq<Info>) {
    forall i, j :: 0 <= i < j < |channels| ==> channels[i].uPacketQuota >= channels[j].uPacketQuota
  }

  /** Priorities strictly decrease along the chain, quotas do not increase within a group, no group is empty. */
  predicate Ordered(chain: seq<Group>) {
    && (forall i, j :: 0 <= i < j < |chain| ==> chain[i].priority > chain[j].priority)
    && (forall i :: 0 <= i < |chain| ==> chain[i].channels != [] && QuotasDescend(chain[i].channels))
  }

  lemma PutBetween<T>(a: seq<T>, x: T, b: seq<T>)
    ensures a + ([x] + b) == a + [x] + b
  {
  }

  /** Behind the channels with larger quotas. */
  lemma {:induction false} InsertByQuotaAt(channels: seq<Info>, x: Info, k: nat)
    requires k <= |channels| && (k < |channels| ==> channels[k].uPacketQuota <= x.uPacketQuota)
    requires forall j :: 0 <= j < k ==> channels[j].uPacketQuota > x.uPacketQuota
    ensures InsertByQuota(channels, x) == channels[..k] + [x] + channels[k..]
  {
    if k == 0 {
      assert channels[..0] + [x] + channels[0..] == [x] + channels;
    } else {
      InsertByQuotaAt(channels[1..], x, k - 1);
      assert channels[..k] == [channels[0]] + channels[1..][..k - 1] && channels[1..][k - 1..] == channels[k..];
    }
  }

  /** A new channel goes in front of the first channel whose quota is not larger. */
  lemma {:induction false} InsertByQuotaPlace(channels: seq<Info>, x: Info) returns (i: nat)
    requires QuotasDescend(channels)
    ensures i <= |channels| && InsertByQuota(channels, x) == channels[..i] + [x] + channels[i..]
    ensures forall j :: 0 <= j < i ==> channels[j].uPacketQuota > x.uPacketQuota
    ensures forall j :: i <= j < |channels| ==> channels[j].uPacketQuota <= x.uPacketQuota
  {
    if channels == [] || x.uPacketQuota >= channels[0].uPacketQuota {
      i := 0;
    } else {
      i := InsertByQuotaPlace(channels[1..], x);
      assert [channels[0]] + channels[1..][..i] == channels[..i + 1];
      assert channels[1..][i..] == channels[i + 1..];
      i := i + 1;
    }
  }

  lemma InsertByQuotaOrdered(channels: seq<Info>, x: Info)
    requires QuotasDescend(channels)
    ensures QuotasDescend(InsertByQuota(channels, x))
    ensures multiset(InsertByQuota(channels, x)) == multiset(channels) + multiset{x}
  {
    var i := InsertByQuotaPlace(channels, x);
    assert channels == channels[..i] + channels[i..];
    DescendJoin(channels, x, i);
  }

  lemma DescendJoin(channels: seq<Info>, x: Info, i: nat)
    requires QuotasDescend(channels) && i <= |channels|
    requires forall j :: 0 <= j < i ==> channels[j].uPacketQuota > x.uPacketQuota
    requires forall j :: i <= j < |channels| ==> channels[j].uPacketQuota <= x.uPacketQuota
    ensures QuotasDescend(channels[..i] + [x] + channels[i..])
  {
    var r := channels[..i] + [x] + channels[i..];
    forall j | 0 <= j < |r|
      ensures r[j] == if j < i then channels[j] else if j == i then x else channels[j - 1]
    {
    }
  }

  /** A new channel keeps the order of the chain. */
  lemma {:induction false} InsertChannelOrdered(chain: seq<Group>, priority: nat, x: Info)
    requires Ordered(chain)
    ensures Ordered(InsertChannel(chain, priority, x))
    ensures forall g :: g in InsertChannel(chain, priority, x) ==> g.priority == priority || g in chain
  {
    if chain == [] || priority > chain[0].priority {
      OrderedCons(Group(priority, [x]), chain);
    } else if priority == chain[0].priority {
      InsertByQuotaOrdered(chain[0].channels, x);
      OrderedTail(chain);
      OrderedCons(Group(priority, InsertByQuota(chain[0].channels, x)), chain[1..]);
    } else {
      OrderedTail(chain);
      InsertChannelOrdered(chain[1..], priority, x);
      OrderedCons(chain[0], InsertChannel(chain[1..], priority, x));
    }
  }

  /** A new channel occurs once more; all others stay. */
  lemma {:induction false} InsertChannelContents(chain: seq<Group>, priority: nat, x: Info)
    requires Ordered(chain)
    ensures multiset(Channels(InsertChannel(chain, priority, x))) == multiset(Channels(chain)) + multiset{x}
  {
    var after := InsertChannel(chain, priority, x);
    if chain == [] || priority > chain[0].priority {
      assert after[1..] == chain;
    } else if priority == chain[0].priority {
      InsertByQuotaOrdered(chain[0].channels, x);
      assert after[1..] == chain[1..];
    } else {
      OrderedTail(chain);
      InsertChannelContents(chain[1..], priority, x);
      assert after[1..] == InsertChannel(chain[1..], priority, x);
    }
  }

  lemma OrderedTail(chain: seq<Group>)
    requires Ordered(chain) && chain != []
    ensures Ordered(chain[1..]) && forall g :: g in chain[1..] ==> g in chain && chain[0].priority > g.priority
  {
    assert chain == [chain[0]] + chain[1..];
  }

  lemma OrderedCons(g: Group, rest: seq<Group>)
    requires Ordered(rest) && g.channels != [] && QuotasDescend(g.channels)
    requires forall h :: h in rest ==> g.priority > h.priority
    ensures Ordered([g] + rest)
  {
    var chain := [g] + rest;
    forall i | 0 < i < |chain|
      ensures chain[i] == rest[i - 1] && chain[0].priority > chain[i].priority
    {
      assert rest[i - 1] in rest;
    }
  }

  // ---------- Scheduling on values ----------

  function From(channels: seq<Info>, x: Info): seq<Info> {
    if channels == [] then [] else if channels[0] == x then channels else From(channels[1..], x)
  }

  function GroupOf(chain: seq<Group>, x: Info): seq<Info> {
    if chain == [] then [] else if x in chain[0].channels then chain[0].channels else GroupOf(chain[1..], x)
  }

  /** `x` and the channels behind it in its group. */
  function Rest(chain: seq<Group>, x: Info): seq<Info> {
    From(GroupOf(chain, x), x)
  }

  function PriorityOf(chain: seq<Group>, x: Info): nat {
    if chain == [] then 0 else if x in chain[0].channels then chain[0].priority else PriorityOf(chain[1..], x)
  }

  function FirstReady(channels: seq<Info>, ready: set<Info>): (r: BroadcastQueueInfo?)
    ensures r == null <==> forall x :: x in channels ==> x !in ready
    ensures r != null ==> r in channels && r in ready
  {
    if channels == [] then null
    else if channels[0] in ready then channels[0]
    else
      assert forall x :: x in channels ==> x == channels[0] || x in channels[1..];
      FirstReady(channels[1..], ready)
  }

  lemma {:induction false} FirstReadyAt(channels: seq<Info>, ready: set<Info>, k: nat)
    requires k <= |channels| && (forall i :: 0 <= i < k ==> channels[i] !in ready)
    requires k < |channels| ==> channels[k] in ready
    ensures FirstReady(channels, ready) == InfoAt(channels, k)
  {
    if k > 0 {
      FirstReadyAt(channels[1..], ready, k - 1);
    }
  }

  function FromTop(chain: seq<Group>, ready: set<Info>): BroadcastQueueInfo? {
    if chain == [] then null
    else
      var x := FirstReady(chain[0].channels, ready);
      if x != null then x else FromTop(chain[1..], ready)
  }

  /** The channel that GetNextPacket serves when `ready` are the channels with a packet for the subscriber. */
  function Pick(chain: seq<Group>, ready: set<Info>, sink: BroadcastQueueInfo?): BroadcastQueueInfo? {
    var x := if sink == null then null else FirstReady(Rest(chain, sink), ready);
    if x != null then x else FromTop(chain, ready)
  }

  datatype Context = Context(sink: BroadcastQueueInfo?, sent: nat)

  /** What DisposePacket does to the context after a successful send of `x`. */
  function AfterSend(chain: seq<Group>, c: Context, x: Info): Context {
    if c.sink != x then Context(x, 1)
    else if c.sent + 1 != x.uPacketQuota then Context(x, c.sent + 1)
    else if |Rest(chain, x)| > 1 then Context(Rest(chain, x)[1], 0)
    else Context(null, 0)
  }

  lemma {:induction false} FromTail(channels: seq<Info>, x: Info)
    requires Once(channels) && x in channels
    ensures From(channels, x) != [] && From(channels, x)[0] == x
    ensures forall y :: y in From(channels, x) ==> y in channels
    ensures |From(channels, x)| > 1 ==> From(channels, From(channels, x)[1]) == From(channels, x)[1..]
  {
    assert channels == [channels[0]] + channels[1..];
    if channels[0] != x {
      FromTail(channels[1..], x);
      var f := From(channels[1..], x);
      if |f| > 1 {
        assert f[1] in f;
        assert f[1] != channels[0];
      }
    } else if |channels| > 1 {
      assert From(channels[1..], channels[1]) == channels[1..];
      assert channels[1] != channels[0];
    }
  }

  lemma {:induction false} FromSuffix(channels: seq<Info>, x: Info) returns (k: nat)
    requires x in channels
    ensures k < |channels| && channels[k] == x && From(channels, x) == channels[k..]
  {
    if channels[0] == x {
      k := 0;
    } else {
      k := FromSuffix(channels[1..], x);
      k := k + 1;
    }
  }

  lemma OnceParts(a: seq<Info>, b: seq<Info>)
    requires Once(a + b)
    ensures Once(a) && Once(b) && forall x :: x in a ==> x !in b
  {
    forall i, j | 0 <= i < j < |a| ensures a[i] != a[j] {
      assert (a + b)[i] == a[i] && (a + b)[j] == a[j];
    }
    forall i, j | 0 <= i < j < |b| ensures b[i] != b[j] {
      assert (a + b)[|a| + i] == b[i] && (a + b)[|a| + j] == b[j];
    }
    forall x | x in a ensures x !in b {
      var i :| 0 <= i < |a| && a[i] == x;
      forall j | 0 <= j < |b| ensures b[j] != x {
        assert (a + b)[i] == a[i] && (a + b)[|a| + j] == b[j];
      }
    }
  }

  lemma {:induction false} GroupOfParts(chain: seq<Group>, x: Info)
    requires Once(Channels(chain)) && x in Channels(chain)
    ensures Once(GroupOf(chain, x)) && x in GroupOf(chain, x)
    ensures forall y :: y in GroupOf(chain, x) ==>
      y in Channels(chain) && GroupOf(chain, y) == GroupOf(chain, x) && PriorityOf(chain, y) == PriorityOf(chain, x)
  {
    OnceParts(chain[0].channels, Channels(chain[1..]));
    if x !in chain[0].channels {
      GroupOfParts(chain[1..], x);
    }
  }

  lemma RestParts(chain: seq<Group>, x: Info)
    requires Once(Channels(chain)) && x in Channels(chain)
    ensures Rest(chain, x) != [] && Rest(chain, x)[0] == x
    ensures forall y :: y in Rest(chain, x) ==> y in Channels(chain) && PriorityOf(chain, y) == PriorityOf(chain, x)
    ensures |Rest(chain, x)| > 1 ==>
      Rest(chain, x)[1] in Channels(chain) && Rest(chain, Rest(chain, x)[1]) == Rest(chain, x)[1..]
  {
    GroupOfParts(chain, x);
    FromTail(GroupOf(chain, x), x);
    if |Rest(chain, x)| > 1 {
      assert Rest(chain, x)[1] in Rest(chain, x);
    }
  }

  /** A pick from the top takes the highest priority that has a packet. */
  lemma {:induction false} FromTopHighest(chain: seq<Group>, ready: set<Info>)
    requires Ordered(chain) && Once(Channels(chain))
    ensures FromTop(chain, ready) == null <==> forall x :: x in Channels(chain) ==> x !in ready
    ensures FromTop(chain, ready) != null ==>
      var f := FromTop(chain, ready);
      && f in ready && f in Channels(chain) && f == FirstReady(GroupOf(chain, f), ready)
      && forall x :: x in Channels(chain) && x in ready ==> PriorityOf(chain, x) <= PriorityOf(chain, f)
  {
    if chain != [] {
      OnceParts(chain[0].channels, Channels(chain[1..]));
      FromTopHighest(chain[1..], ready);
      forall x | x in Channels(chain[1..])
        ensures PriorityOf(chain, x) < chain[0].priority
      {
        PriorityIn(chain[1..], x);
      }
    }
  }

  lemma {:induction false} PriorityIn(chain: seq<Group>, x: Info)
    requires x in Channels(chain)
    ensures exists g :: g in chain && g.priority == PriorityOf(chain, x)
  {
    if x in chain[0].channels {
      assert chain[0] in chain;
    } else {
      PriorityIn(chain[1..], x);
      var g :| g in chain[1..] && g.priority == PriorityOf(chain[1..], x);
      assert g in chain;
    }
  }

  /** GetNextPacket finds a packet exactly if some channel of the chain has one. */
  lemma WorkConserving(chain: seq<Group>, ready: set<Info>, sink: BroadcastQueueInfo?)
    requires Ordered(chain) && Once(Channels(chain)) && (sink != null ==> sink in Channels(chain))
    ensures Pick(chain, ready, sink) == null <==> forall x :: x in Channels(chain) ==> x !in ready
    ensures Pick(chain, ready, sink) != null ==> Pick(chain, ready, sink) in Channels(chain)
  {
    FromTopHighest(chain, ready);
    if sink != null {
      RestParts(chain, sink);
    }
  }

  // ---------- Bounded priority inversion ----------

  /** One call of the streamer: what has packets, and whether the send succeeds. */
  datatype Turn = Turn(ready: set<Info>, success: bool)

  function Turned(chain: seq<Group>, c: Context, t: Turn): Context {
    var x := Pick(chain, t.ready, c.sink);
    if x != null && t.success then AfterSend(chain, c, x) else c
  }

  function Picks(chain: seq<Group>, c: Context, turns: seq<Turn>): (picks: seq<BroadcastQueueInfo?>)
    ensures |picks| == |turns|
    decreases |turns|
  {
    if turns == [] then []
    else [Pick(chain, turns[0].ready, c.sink)] + Picks(chain, Turned(chain, c, turns[0]), turns[1..])
  }

  function Successes(turns: seq<Turn>): nat
    decreases |turns|
  {
    if turns == [] then 0 else (if turns[0].success then 1 else 0) + Successes(turns[1..])
  }

  function Quotas(channels: seq<Info>): nat {
    if channels == [] then 0 else channels[0].uPacketQuota + Quotas(channels[1..])
  }

  /** What the current sink and the channels behind it may still send. */
  function Budget(chain: seq<Group>, c: Context): int {
    if c.sink == null then 0 else Quotas(Rest(chain, c.sink)) - c.sent
  }

  /** The sink, if its priority is below `p`, has not used up its quota. */
  predicate Sane(chain: seq<Group>, c: Context, p: nat) {
    c.sink != null ==>
      c.sink in Channels(chain) && (PriorityOf(chain, c.sink) < p ==> c.sent < c.sink.uPacketQuota)
  }

  predicate Waiting(chain: seq<Group>, ready: set<Info>, p: nat) {
    exists x :: x in ready && x in Channels(chain) && PriorityOf(chain, x) >= p
  }

  lemma {:induction false} QuotasFrom(channels: seq<Info>, x: Info)
    requires x in channels
    ensures x in From(channels, x)
    ensures Quotas(From(channels, x)) <= Quotas(channels)
    ensures channels[0] != x ==> Quotas(From(channels, x)) <= Quotas(channels) - channels[0].uPacketQuota
  {
    if channels[0] != x {
      assert x in channels[1..];
      QuotasFrom(channels[1..], x);
    }
  }

  lemma {:induction false} FromFrom(channels: seq<Info>, x: Info, y: Info)
    requires x in channels && y in From(channels, x) && Once(channels)
    ensures From(From(channels, x), y) == From(channels, y)
  {
    if channels[0] != x {
      FromTail(channels[1..], x);
      FromFrom(channels[1..], x, y);
    }
  }

  /** The context after all turns. */
  function AfterTurns(chain: seq<Group>, c: Context, turns: seq<Turn>): Context
    decreases |turns|
  {
    if turns == [] then c else AfterTurns(chain, Turned(chain, c, turns[0]), turns[1..])
  }

  /** Over every run a sink below `p` has not used up its quota, if all these quotas are at least 2. */
  lemma {:induction false} SaneForever(chain: seq<Group>, c: Context, turns: seq<Turn>, p: nat)
    requires Ordered(chain) && Once(Channels(chain)) && Sane(chain, c, p)
    requires forall x :: x in Channels(chain) && PriorityOf(chain, x) < p ==> x.uPacketQuota >= 2
    ensures Sane(chain, AfterTurns(chain, c, turns), p)
    decreases |turns|
  {
    if turns != [] {
      WorkConserving(chain, turns[0].ready, c.sink);
      var x := Pick(chain, turns[0].ready, c.sink);
      if x != null {
        RestParts(chain, x);
        assert |Rest(chain, x)| > 1 ==> Rest(chain, x)[1] in Rest(chain, x);
      }
      SaneForever(chain, Turned(chain, c, turns[0]), turns[1..], p);
    }
  }

  /** A channel of the sink's group that is not before the sink. */
  lemma BehindSink(chain: seq<Group>, sink: Info, x: Info)
    requires Once(Channels(chain)) && sink in Channels(chain) && x in Rest(chain, sink)
    ensures x in Channels(chain) && PriorityOf(chain, x) == PriorityOf(chain, sink)
    ensures Quotas(Rest(chain, x)) <= Quotas(Rest(chain, sink)) - if x == sink then 0 else sink.uPacketQuota
  {
    RestParts(chain, sink);
    GroupOfParts(chain, sink);
    FromTail(GroupOf(chain, sink), sink);
    FromFrom(GroupOf(chain, sink), sink, x);
    assert x in GroupOf(chain, sink) && GroupOf(chain, x) == GroupOf(chain, sink);
    QuotasFrom(Rest(chain, sink), x);
  }

  /** Below `p`, while `p` waits, only the channels from the sink on are served. */
  lemma InversionPick(chain: seq<Group>, c: Context, ready: set<Info>, p: nat, x: Info)
    requires Ordered(chain) && Once(Channels(chain)) && Sane(chain, c, p) && Waiting(chain, ready, p)
    requires x == Pick(chain, ready, c.sink) && PriorityOf(chain, x) < p
    ensures c.sink != null && x in Rest(chain, c.sink)
  {
    FromTopHighest(chain, ready);
  }

  /** A successful send below `p`, while `p` waits, uses up a part of the budget of the sink. */
  lemma InversionStep(chain: seq<Group>, c: Context, t: Turn, p: nat, x: Info)
    requires Ordered(chain) && Once(Channels(chain)) && Sane(chain, c, p) && Waiting(chain, t.ready, p)
    requires x == Pick(chain, t.ready, c.sink) && PriorityOf(chain, x) < p
    requires forall y :: y in Channels(chain) && PriorityOf(chain, y) < p ==> y.uPacketQuota >= 2
    ensures Sane(chain, Turned(chain, c, t), p) && c.sink != null && Budget(chain, c) >= 1
    ensures 0 <= Budget(chain, Turned(chain, c, t)) <= Budget(chain, c) - if t.success then 1 else 0
  {
    InversionPick(chain, c, t.ready, p, x);
    BehindSink(chain, c.sink, x);
    RestParts(chain, c.sink);
    RestParts(chain, x);
    assert Quotas(Rest(chain, x)) == x.uPacketQuota + Quotas(Rest(chain, x)[1..]);
    assert Quotas(Rest(chain, c.sink)) == c.sink.uPacketQuota + Quotas(Rest(chain, c.sink)[1..]);
  }

  /**
   Bounded priority inversion. If all channels below priority `p` have a quota of at least 2, then at most
   Budget successful sends below `p` happen in a row while a channel of priority `p` or above has a packet.
   */
  lemma {:induction false} BoundedInversion(chain: seq<Group>, c: Context, turns: seq<Turn>, p: nat)
    requires Ordered(chain) && Once(Channels(chain)) && Sane(chain, c, p)
    requires forall x :: x in Channels(chain) && PriorityOf(chain, x) < p ==> x.uPacketQuota >= 2
    requires forall t :: t in turns ==> Waiting(chain, t.ready, p)
    requires forall x: BroadcastQueueInfo? :: x in Picks(chain, c, turns) ==> x != null && PriorityOf(chain, x) < p
    ensures turns != [] ==> Successes(turns) <= Budget(chain, c)
    ensures turns == [] ==> Successes(turns) == 0
    decreases |turns|
  {
    if turns != [] {
      var c' := Turned(chain, c, turns[0]);
      assert Picks(chain, c, turns)[0] == Pick(chain, turns[0].ready, c.sink);
      assert turns[0] in turns;
      var x := Pick(chain, turns[0].ready, c.sink);
      assert x in Picks(chain, c, turns);
      WorkConserving(chain, turns[0].ready, c.sink);
      InversionStep(chain, c, turns[0], p, x);
      assert Picks(chain, c, turns)[1..] == Picks(chain, c', turns[1..]);
      forall x: BroadcastQueueInfo? | x in Picks(chain, c', turns[1..]) ensures x in Picks(chain, c, turns) {
      }
      BoundedInversion(chain, c', turns[1..], p);
    }
  }

  /** A sink that is past its quota keeps the subscriber for as long as it has packets. */
  lemma {:induction false} StuckSink(chain: seq<Group>, c: Context, turns: seq<Turn>)
    requires Once(Channels(chain)) && c.sink != null && c.sink in Channels(chain)
    requires c.sent >= c.sink.uPacketQuota && forall t :: t in turns ==> c.sink in t.ready
    ensures forall i :: 0 <= i < |turns| ==> Picks(chain, c, turns)[i] == c.sink
    decreases |turns|
  {
    if turns != [] {
      RestParts(chain, c.sink);
      assert turns[0] in turns;
      StuckSink(chain, Turned(chain, c, turns[0]), turns[1..]);
    }
  }

  /**
   The quota of 2 is needed: a channel with a smaller quota that is served without being the current sink
   gets its count set to 1 untested, and then starves any channel of higher priority while it has packets.
   */
  lemma UnboundedInversion(chain: seq<Group>, low: Info, high: Info, turns: seq<Turn>)
    requires Ordered(chain) && Once(Channels(chain)) && low in Channels(chain) && high in Channels(chain)
    requires PriorityOf(chain, low) < PriorityOf(chain, high) && low.uPacketQuota <= 1
    requires forall t :: t in turns ==> low in t.ready && high in t.ready
    ensures
      var picks := Picks(chain, Context(null, 0), [Turn({low}, true)] + turns);
      forall i :: 0 <= i <= |turns| ==> picks[i] == low
  {
    FromTopHighest(chain, {low});
    assert ([Turn({low}, true)] + turns)[1..] == turns;
    StuckSink(chain, Context(low, 1), turns);
  }

  /** Only channels below `p` are served, although one from `p` on has a packet in every turn. */
  ghost predicate Inverted(chain: seq<Group>, c: Context, turns: seq<Turn>, p: nat) {
    && (forall t :: t in turns ==> Waiting(chain, t.ready, p))
    && (forall i :: 0 <= i < |turns| ==>
          var x := Picks(chain, c, turns)[i];
          x != null && PriorityOf(chain, x) < p)
  }

  lemma {:induction false} QuotasOfGroup(chain: seq<Group>, x: Info)
    ensures Quotas(GroupOf(chain, x)) <= Quotas(Channels(chain))
  {
    if chain != [] {
      QuotasJoin(chain[0].channels, Channels(chain[1..]));
      QuotasOfGroup(chain[1..], x);
    }
  }

  lemma {:induction false} QuotasJoin(a: seq<Info>, b: seq<Info>)
    ensures Quotas(a + b) == Quotas(a) + Quotas(b)
  {
    if a == [] {
      assert a + b == b;
    } else {
      assert (a + b)[1..] == a[1..] + b;
      QuotasJoin(a[1..], b);
    }
  }

  function Repeated(t: Turn, n: nat): (turns: seq<Turn>)
    ensures |turns| == n && forall u :: u in turns ==> u == t
  {
    if n == 0 then [] else [t] + Repeated(t, n - 1)
  }

  lemma {:induction false} RepeatedSucceeds(t: Turn, n: nat)
    requires t.success
    ensures Successes(Repeated(t, n)) == n
  {
    if n > 0 {
      assert Repeated(t, n)[1..] == Repeated(t, n - 1);
      RepeatedSucceeds(t, n - 1);
    }
  }

  /**
   Priority inversion is bounded, after any run, exactly if every channel below the waiting priority has a quota of at
   least 2.
   */
  lemma InversionBoundedExactly(chain: seq<Group>, p: nat, high: Info)
    requires Ordered(chain) && Once(Channels(chain)) && high in Channels(chain) && PriorityOf(chain, high) >= p
    ensures
      (forall before, turns :: Inverted(chain, AfterTurns(chain, Context(null, 0), before), turns, p)
        ==> Successes(turns) <= Quotas(Channels(chain)))
      <==> forall x :: x in Channels(chain) && PriorityOf(chain, x) < p ==> x.uPacketQuota >= 2
  {
    if forall x :: x in Channels(chain) && PriorityOf(chain, x) < p ==> x.uPacketQuota >= 2 {
      forall before, turns | Inverted(chain, AfterTurns(chain, Context(null, 0), before), turns, p)
        ensures Successes(turns) <= Quotas(Channels(chain))
      {
        InversionIsBounded(chain, before, turns, p);
      }
    } else {
      var low :| low in Channels(chain) && PriorityOf(chain, low) < p && low.uPacketQuota < 2;
      InversionIsUnbounded(chain, p, low, high);
    }
  }

  lemma InversionIsBounded(chain: seq<Group>, before: seq<Turn>, turns: seq<Turn>, p: nat)
    requires Ordered(chain) && Once(Channels(chain))
    requires forall x :: x in Channels(chain) && PriorityOf(chain, x) < p ==> x.uPacketQuota >= 2
    requires Inverted(chain, AfterTurns(chain, Context(null, 0), before), turns, p)
    ensures Successes(turns) <= Quotas(Channels(chain))
  {
    var c := AfterTurns(chain, Context(null, 0), before);
    SaneForever(chain, Context(null, 0), before, p);
    BoundedInversion(chain, c, turns, p);
    if c.sink != null {
      QuotasOfGroup(chain, c.sink);
      GroupOfParts(chain, c.sink);
      QuotasFrom(GroupOf(chain, c.sink), c.sink);
    }
  }

  lemma InversionIsUnbounded(chain: seq<Group>, p: nat, low: Info, high: Info)
    requires Ordered(chain) && Once(Channels(chain)) && low in Channels(chain) && high in Channels(chain)
    requires PriorityOf(chain, low) < p <= PriorityOf(chain, high) && low.uPacketQuota < 2
    ensures
      exists before, turns :: Inverted(chain, AfterTurns(chain, Context(null, 0), before), turns, p)
        && Successes(turns) > Quotas(Channels(chain))
  {
    var start, t := Context(null, 0), Turn({low, high}, true);
    var before, turns := [Turn({low}, true)], Repeated(t, Quotas(Channels(chain)) + 1);
    FromTopHighest(chain, {low});
    var c := Turned(chain, start, before[0]);
    assert c == Context(low, 1);
    assert AfterTurns(chain, start, before) == AfterTurns(chain, c, before[1..]) == c;
    StuckSink(chain, c, turns);
    RepeatedSucceeds(t, |turns|);
    assert Inverted(chain, AfterTurns(chain, start, before), turns, p);
  }

  // ---------- Weighted round robin ----------

  function Copies(x: Info, n: nat): (r: seq<Info>)
    ensures |r| == n && forall i :: 0 <= i < n ==> r[i] == x
  {
    if n == 0 then [] else [x] + Copies(x, n - 1)
  }

  /** One round: every channel as often as its quota says. */
  function Cycle(channels: seq<Info>): seq<Info> {
    if channels == [] then [] else Copies(channels[0], channels[0].uPacketQuota) + Cycle(channels[1..])
  }

  /** The channel served at place `k` of the cycle, and how often it was served before in this cycle. */
  function Place(channels: seq<Info>, k: nat): Context {
    if channels == [] then Context(null, 0)
    else if k < channels[0].uPacketQuota then Context(channels[0], k)
    else Place(channels[1..], k - channels[0].uPacketQuota)
  }

  lemma {:induction false} PlaceInCycle(channels: seq<Info>, k: nat)
    requires k < |Cycle(channels)|
    ensures Place(channels, k).sink == Cycle(channels)[k] && Cycle(channels)[k] in channels
    ensures Place(channels, k).sent < Cycle(channels)[k].uPacketQuota
  {
    if k >= channels[0].uPacketQuota {
      PlaceInCycle(channels[1..], k - channels[0].uPacketQuota);
    }
  }

  /** How the place moves through a cycle; channels with a quota of 0 have no place in it. */
  lemma {:induction false} NextPlace(channels: seq<Info>, k: nat)
    requires Once(channels) && QuotasDescend(channels) && k < |Cycle(channels)|
    ensures
      var x := Cycle(channels)[k];
      var sent := Place(channels, k).sent;
      if sent + 1 != x.uPacketQuota then k + 1 < |Cycle(channels)| && Place(channels, k + 1) == Context(x, sent + 1)
      else if |From(channels, x)| > 1 && From(channels, x)[1].uPacketQuota > 0 then
        k + 1 < |Cycle(channels)| && Place(channels, k + 1) == Context(From(channels, x)[1], 0)
      else k + 1 == |Cycle(channels)|
  {
    var q := channels[0].uPacketQuota;
    var tail := channels[1..];
    assert forall x :: x in tail ==> x in channels;
    if k < q {
      if k + 1 == q && tail != [] {
        if tail[0].uPacketQuota == 0 {
          NoCycle(tail);
        } else {
          assert Place(tail, 0) == Context(tail[0], 0);
        }
      }
    } else {
      PlaceInCycle(tail, k - q);
      NextPlace(tail, k - q);
      assert Cycle(channels)[k] == Cycle(tail)[k - q];
      var x := Cycle(channels)[k];
      assert x in tail && x != channels[0];
    }
  }

  lemma {:induction false} NoCycle(channels: seq<Info>)
    requires QuotasDescend(channels) && (channels != [] ==> channels[0].uPacketQuota == 0)
    ensures Cycle(channels) == []
  {
    if channels != [] {
      NoCycle(channels[1..]);
    }
  }

  /** The context before the send at place `k` of the cycle. */
  function Before(channels: seq<Info>, k: nat): Context {
    if k == 0 then Context(null, 0) else Place(channels, k)
  }

  predicate AllReady(channels: seq<Info>, turns: seq<Turn>) {
    forall t :: t in turns ==> forall x :: x in channels ==> x in t.ready
  }

  /** `i` modulo `n`, by repeated subtraction. */
  function Wrapped(i: nat, n: nat): (r: nat)
    requires n > 0
    ensures r < n
  {
    if i < n then i else Wrapped(i - n, n)
  }

  lemma {:induction false} WrappedStep(i: nat, n: nat)
    requires n > 0
    ensures Wrapped(i + 1, n) == if Wrapped(i, n) + 1 == n then 0 else Wrapped(i, n) + 1
  {
    if i >= n {
      WrappedStep(i - n, n);
    } else if i + 1 == n {
      assert Wrapped(n, n) == Wrapped(0, n);
    }
  }

  lemma MultipleGap(d: int, n: int)
    requires n >= 0
    ensures d >= 1 ==> d * n >= n
    ensures d <= -1 ==> d * n <= -n
  {
    if d >= 1 {
      assert (d - 1) * n >= 0;
    } else if d <= -1 {
      assert (-1 - d) * n >= 0;
    }
  }

  lemma ModuloIs(a: int, q: int, r: int, n: int)
    requires a == q * n + r && 0 <= r < n
    ensures a % n == r
  {
    assert a == (a / n) * n + a % n;
    assert (q - a / n) * n == a % n - r;
    MultipleGap(q - a / n, n);
  }

  lemma {:induction false} WrappedIsModulo(i: nat, n: nat)
    requires n > 0
    ensures Wrapped(i, n) == i % n
  {
    if i < n {
      ModuloIs(i, 0, i, n);
    } else {
      WrappedIsModulo(i - n, n);
      var a := i - n;
      assert a == (a / n) * n + a % n;
      assert (a / n + 1) * n == (a / n) * n + n;
      ModuloIs(i, a / n + 1, a % n, n);
    }
  }

  /** The channels of the successful sends. */
  function Sent(chain: seq<Group>, c: Context, turns: seq<Turn>): seq<BroadcastQueueInfo?>
    decreases |turns|
  {
    if turns == [] then []
    else
      (if turns[0].success then [Pick(chain, turns[0].ready, c.sink)] else [])
      + Sent(chain, Turned(chain, c, turns[0]), turns[1..])
  }

  predicate KeepsReady(x: Info, turns: seq<Turn>) {
    forall t :: t in turns ==> x in t.ready
  }

  predicate AllPicked(x: Info, picks: seq<BroadcastQueueInfo?>) {
    forall i :: 0 <= i < |picks| ==> picks[i] == x
  }

  /** The sink `x` is served until its quota is used up, whatever else is ready, and then hands over. */
  lemma {:induction false} SinkServesQuota(chain: seq<Group>, sent: nat, turns: seq<Turn>, x: Info, i: nat)
    requires Once(Channels(chain)) && x in Channels(chain) && KeepsReady(x, turns) && sent < x.uPacketQuota
    requires turns != [] ==> Successes(turns[..|turns| - 1]) < x.uPacketQuota - sent
    requires i < |GroupOf(chain, x)| && GroupOf(chain, x)[i] == x && Rest(chain, x) == GroupOf(chain, x)[i..]
    ensures AllPicked(x, Picks(chain, Context(x, sent), turns))
    ensures AfterTurns(chain, Context(x, sent), turns)
      == if sent + Successes(turns) < x.uPacketQuota then Context(x, sent + Successes(turns))
         else Context(InfoAt(GroupOf(chain, x), i + 1), 0)
    decreases |turns|
  {
    hide Channels, Rest, GroupOf;
    if turns != [] {
      var c, t := Context(x, sent), turns[0];
      assert t in turns && forall u :: u in turns[1..] ==> u in turns;
      SinkFirst(chain, t.ready, x);
      if |turns| > 1 {
        assert turns[..|turns| - 1][1..] == turns[1..][..|turns[1..]| - 1];
      }
      var s := if t.success then sent + 1 else sent;
      if s < x.uPacketQuota {
        assert Turned(chain, c, t) == Context(x, s);
        SinkServesQuota(chain, s, turns[1..], x, i);
      } else {
        assert turns[1..] == [];
      }
    }
  }

  lemma SinkFirst(chain: seq<Group>, ready: set<Info>, x: Info)
    requires Rest(chain, x) != [] && Rest(chain, x)[0] == x && x in ready
    ensures Pick(chain, ready, x) == x
  {
    hide Rest;
  }

  /**
   A channel that takes over from another sink, or from none, is served for exactly its quota of successful sends, the
   first of them included, while it has packets; then the channel behind it in its group is the sink, or none if it is
   the last one.
   */
  lemma TakeOverServesQuota(chain: seq<Group>, c: Context, turns: seq<Turn>, x: Info) returns (i: nat)
    requires Once(Channels(chain)) && x in Channels(chain) && KeepsReady(x, turns) && x.uPacketQuota >= 2
    requires turns != [] && turns[0].success && c.sink != x && Pick(chain, turns[0].ready, c.sink) == x
    requires Successes(turns[..|turns| - 1]) < Successes(turns) == x.uPacketQuota
    ensures AllPicked(x, Picks(chain, c, turns))
    ensures i < |GroupOf(chain, x)| && GroupOf(chain, x)[i] == x
    ensures AfterTurns(chain, c, turns) == Context(InfoAt(GroupOf(chain, x), i + 1), 0)
  {
    hide Channels, From, GroupOf, Pick;
    GroupOfParts(chain, x);
    i := FromSuffix(GroupOf(chain, x), x);
    assert |turns| > 1;
    assert forall u :: u in turns[1..] ==> u in turns;
    assert turns[..|turns| - 1][1..] == turns[1..][..|turns[1..]| - 1];
    SinkServesQuota(chain, 1, turns[1..], x, i);
  }

  /** One successful send; behind the last place a channel with a quota of 0 becomes the sink, if there is one. */
  lemma RoundRobinStep(chain: seq<Group>, k: nat, t: Turn)
    requires Ordered(chain) && Once(Channels(chain)) && chain != [] && AllReady(chain[0].channels, [t])
    requires chain[0].channels[0].uPacketQuota >= 2 && k < |Cycle(chain[0].channels)| && t.success
    ensures
      var top := chain[0].channels;
      var x := Cycle(top)[k];
      && Pick(chain, t.ready, Before(top, k).sink) == x
      && Turned(chain, Before(top, k), t)
         == if k + 1 < |Cycle(top)| then Before(top, k + 1)
            else if |From(top, x)| > 1 then Context(From(top, x)[1], 0)
            else Context(null, 0)
  {
    var top := chain[0].channels;
    assert t in [t];
    OnceParts(top, Channels(chain[1..]));
    PlaceInCycle(top, k);
    var x := Cycle(top)[k];
    assert GroupOf(chain, x) == top;
    FromTail(top, x);
    NextPlace(top, k);
    if k == 0 {
      assert x == top[0] && |Cycle(top)| >= 2 && Place(top, 1) == Context(x, 1);
    }
  }

  /** Behind the last place stands the start again, if no quota is 0. */
  lemma CycleEnds(channels: seq<Info>, x: Info, k: nat)
    requires Once(channels) && QuotasDescend(channels) && k + 1 == |Cycle(channels)| && x == Cycle(channels)[k]
    requires forall y :: y in channels ==> y.uPacketQuota >= 1
    ensures |From(channels, x)| == 1
  {
    PlaceInCycle(channels, k);
    FromTail(channels, x);
    assert forall i :: 0 <= i < |From(channels, x)| ==> From(channels, x)[i] in channels;
    NextPlace(channels, k);
  }

  /** `picks` walks through the cycle from place `k` on. */
  predicate Follows(cycle: seq<Info>, k: nat, picks: seq<BroadcastQueueInfo?>)
    requires cycle != []
  {
    forall i :: 0 <= i < |picks| ==> picks[i] == cycle[Wrapped(k + i, |cycle|)]
  }

  lemma FollowsOn(cycle: seq<Info>, k: nat, later: seq<BroadcastQueueInfo?>)
    requires cycle != [] && Follows(cycle, k + 1, later)
    ensures Follows(cycle, k, [cycle[Wrapped(k, |cycle|)]] + later)
  {
    var picks := [cycle[Wrapped(k, |cycle|)]] + later;
    forall i | 0 <= i < |picks|
      ensures picks[i] == cycle[Wrapped(k + i, |cycle|)]
    {
      if i > 0 {
        var j := i - 1;
        assert picks[i] == later[j] && k + 1 + j == k + i;
      }
    }
  }

  lemma {:induction false} RoundRobinFrom(chain: seq<Group>, k: nat, turns: seq<Turn>)
    requires Ordered(chain) && Once(Channels(chain)) && chain != [] && AllReady(chain[0].channels, turns)
    requires chain[0].channels[0].uPacketQuota >= 2 && Cycle(chain[0].channels) != []
    requires forall x :: x in chain[0].channels ==> x.uPacketQuota >= 1
    ensures
      var cycle := Cycle(chain[0].channels);
      Follows(cycle, k, Sent(chain, Before(chain[0].channels, Wrapped(k, |cycle|)), turns))
    decreases |turns|
  {
    hide Follows, Wrapped, Ordered, Before, Cycle;
    if turns == [] {
      FollowsNone(Cycle(chain[0].channels), k);
    } else if !turns[0].success {
      RoundRobinFrom(chain, k, turns[1..]);
      var c := Before(chain[0].channels, Wrapped(k, |Cycle(chain[0].channels)|));
      assert Sent(chain, c, turns) == Sent(chain, c, turns[1..]);
    } else {
      var top := chain[0].channels;
      var cycle := Cycle(top);
      var i := Wrapped(k, |cycle|);
      assert turns[0] in turns;
      RoundRobinStep(chain, i, turns[0]);
      if i + 1 == |cycle| {
        TopParts(chain);
        CycleEnds(top, cycle[i], i);
        StartAgain(top);
      }
      WrappedStep(k, |cycle|);
      RoundRobinFrom(chain, k + 1, turns[1..]);
      FollowsOn(cycle, k, Sent(chain, Before(top, Wrapped(k + 1, |cycle|)), turns[1..]));
    }
  }

  lemma FollowsNone(cycle: seq<Info>, k: nat)
    requires cycle != []
    ensures Follows(cycle, k, [])
  {
  }

  lemma StartAgain(channels: seq<Info>)
    ensures Before(channels, 0) == Context(null, 0)
  {
  }

  lemma TopParts(chain: seq<Group>)
    requires Ordered(chain) && Once(Channels(chain)) && chain != []
    ensures chain[0].channels != [] && QuotasDescend(chain[0].channels) && Once(chain[0].channels)
  {
    OnceParts(chain[0].channels, Channels(chain[1..]));
  }

  /** The successful sends go through the cycle again and again. */
  predicate Repeats(cycle: seq<Info>, sent: seq<BroadcastQueueInfo?>)
    requires cycle != []
  {
    forall i :: 0 <= i < |sent| ==> sent[i] == cycle[i % |cycle|]
  }

  /**
   While all channels of the top group have packets, successful sends repeat the cycle for ever, with any failing
   sends in between, if the first channel, which is reached without being the sink, has a quota of 2 and no other
   has 0.
   */
  lemma RoundRobin(chain: seq<Group>, turns: seq<Turn>)
    requires Ordered(chain) && Once(Channels(chain)) && chain != [] && AllReady(chain[0].channels, turns)
    requires chain[0].channels[0].uPacketQuota >= 2
    requires forall x :: x in chain[0].channels ==> x.uPacketQuota >= 1
    ensures Cycle(chain[0].channels) != [] && Repeats(Cycle(chain[0].channels), Sent(chain, Context(null, 0), turns))
  {
    var cycle := Cycle(chain[0].channels);
    assert cycle[0] == chain[0].channels[0];
    assert Before(chain[0].channels, Wrapped(0, |cycle|)) == Context(null, 0);
    RoundRobinFrom(chain, 0, turns);
    FollowsModulo(cycle, Sent(chain, Context(null, 0), turns));
  }

  lemma FollowsModulo(cycle: seq<Info>, picks: seq<BroadcastQueueInfo?>)
    requires cycle != [] && Follows(cycle, 0, picks)
    ensures forall i :: 0 <= i < |picks| ==> picks[i] == cycle[i % |cycle|]
  {
    forall i | 0 <= i < |picks|
      ensures picks[i] == cycle[i % |cycle|]
    {
      assert picks[i] == cycle[Wrapped(0 + i, |cycle|)];
      WrappedIsModulo(i, |cycle|);
    }
  }

  /** With a smaller quota the first channel is never left, and the others of its group get nothing. */
  lemma {:induction false} RoundRobinStuck(chain: seq<Group>, turns: seq<Turn>)
    requires Ordered(chain) && Once(Channels(chain)) && chain != [] && AllReady(chain[0].channels, turns)
    requires chain[0].channels[0].uPacketQuota <= 1
    ensures forall i :: 0 <= i < |turns| ==> Picks(chain, Context(null, 0), turns)[i] == chain[0].channels[0]
    decreases |turns|
  {
    if turns != [] {
      var x := chain[0].channels[0];
      assert turns[0] in turns && x in chain[0].channels;
      if turns[0].success {
        assert Turned(chain, Context(null, 0), turns[0]) == Context(x, 1);
        StuckSink(chain, Context(x, 1), turns[1..]);
      } else {
        RoundRobinStuck(chain, turns[1..]);
      }
    }
  }

  lemma {:induction false} SentAmongPicks(chain: seq<Group>, c: Context, turns: seq<Turn>, x: Info)
    requires forall i :: 0 <= i < |turns| ==> Picks(chain, c, turns)[i] == x
    ensures forall i :: 0 <= i < |Sent(chain, c, turns)| ==> Sent(chain, c, turns)[i] == x
    decreases |turns|
  {
    if turns != [] {
      var c' := Turned(chain, c, turns[0]);
      assert Picks(chain, c, turns)[0] == x;
      forall i | 0 <= i < |turns[1..]| ensures Picks(chain, c', turns[1..])[i] == x {
        assert Picks(chain, c, turns)[i + 1] == Picks(chain, c', turns[1..])[i];
      }
      SentAmongPicks(chain, c', turns[1..], x);
    }
  }

  /** The quotas with which round robin works. */
  predicate Fair(channels: seq<Info>)
    requires channels != []
  {
    || (channels[0].uPacketQuota >= 2 && forall x :: x in channels[1..] ==> x.uPacketQuota >= 1)
    || (channels[0].uPacketQuota == 1 && forall x :: x in channels[1..] ==> x.uPacketQuota == 0)
  }

  /**
   Exactly when the successful sends repeat the cycle, for all turns in which the whole top group has packets: no
   quota is 0 and the first is at least 2, or the first is 1 and all others are 0.
   */
  lemma RoundRobinExactly(chain: seq<Group>)
    requires Ordered(chain) && Once(Channels(chain)) && chain != [] && Cycle(chain[0].channels) != []
    ensures
      (forall turns :: AllReady(chain[0].channels, turns)
        ==> Repeats(Cycle(chain[0].channels), Sent(chain, Context(null, 0), turns)))
      <==> Fair(chain[0].channels)
  {
    hide Repeats, Cycle, AllReady, Ordered;
    TopParts(chain);
    var top := chain[0].channels;
    if Fair(top) {
      forall turns | AllReady(top, turns)
        ensures Repeats(Cycle(top), Sent(chain, Context(null, 0), turns))
      {
        FairRepeats(chain, turns);
      }
    } else {
      var turns := UnfairTurns(chain);
    }
  }

  lemma FairRepeats(chain: seq<Group>, turns: seq<Turn>)
    requires Ordered(chain) && Once(Channels(chain)) && chain != [] && AllReady(chain[0].channels, turns)
    requires Cycle(chain[0].channels) != [] && Fair(chain[0].channels)
    ensures Repeats(Cycle(chain[0].channels), Sent(chain, Context(null, 0), turns))
  {
    hide AllReady, Ordered;
    TopParts(chain);
    var top := chain[0].channels;
    assert top == [top[0]] + top[1..];
    if top[0].uPacketQuota >= 2 {
      RoundRobin(chain, turns);
    } else {
      RoundRobinStuck(chain, turns);
      SentAmongPicks(chain, Context(null, 0), turns, top[0]);
      assert top[1..] != [] ==> top[1] in top[1..];
      NoCycle(top[1..]);
      assert Copies(top[0], 1) == [top[0]] && Cycle(top) == [top[0]];
    }
  }

  /** Turns that leave the cycle. */
  lemma UnfairTurns(chain: seq<Group>) returns (turns: seq<Turn>)
    requires Ordered(chain) && Once(Channels(chain)) && chain != []
    requires Cycle(chain[0].channels) != [] && !Fair(chain[0].channels)
    ensures AllReady(chain[0].channels, turns)
    ensures !Repeats(Cycle(chain[0].channels), Sent(chain, Context(null, 0), turns))
  {
    TopParts(chain);
    var top := chain[0].channels;
    var t := Turn(set x | x in top, true);
    var cycle := Cycle(top);
    if top[0].uPacketQuota == 0 {
      NoCycle(top);
    } else if top[0].uPacketQuota == 1 {
      turns := [t, t];
      SecondIsMissed(chain, t);
    } else {
      var z := FirstZero(top);
      turns := Repeated(t, |cycle| + 1);
      assert Before(top, 0) == Context(null, 0);
      ZeroReached(chain, t, 0);
      ModuloIs(|cycle|, 1, 0, |cycle|);
      assert cycle[0] == top[0];
      assert Sent(chain, Context(null, 0), turns)[|cycle|] != cycle[|cycle| % |cycle|];
    }
  }

  lemma FirstZero(channels: seq<Info>) returns (z: Info)
    requires channels != [] && channels[0].uPacketQuota >= 2 && !Fair(channels)
    ensures z in channels && z.uPacketQuota == 0
  {
    z :| z in channels[1..] && z.uPacketQuota == 0;
  }

  /** First quota 1, second not 0: the second channel is not served in its place. */
  lemma SecondIsMissed(chain: seq<Group>, t: Turn)
    requires Ordered(chain) && Once(Channels(chain)) && chain != [] && !Fair(chain[0].channels)
    requires chain[0].channels[0].uPacketQuota == 1 && AllReady(chain[0].channels, [t, t]) && t.success
    ensures Cycle(chain[0].channels) != []
    ensures !Repeats(Cycle(chain[0].channels), Sent(chain, Context(null, 0), [t, t]))
  {
    TopParts(chain);
    var top := chain[0].channels;
    var x :| x in top[1..] && x.uPacketQuota != 0;
    var a, b := top[0], top[1];
    assert b.uPacketQuota == 1;
    assert Cycle(top) == [a] + Cycle(top[1..]);
    assert Cycle(top[1..]) == [b] + Cycle(top[1..][1..]);
    RoundRobinStuck(chain, [t, t]);
    SentAmongPicks(chain, Context(null, 0), [t, t], a);
    assert [t, t][1..] == [t] && [t][1..] == [];
    var s := Sent(chain, Context(null, 0), [t, t]);
    var c := Turned(chain, Context(null, 0), t);
    assert |Sent(chain, c, [t])| == 1;
    assert |s| == 2 && s[1] == a;
    ModuloIs(1, 0, 1, |Cycle(top)|);
  }

  /** With a quota of 0 in the group, a channel of quota 0 is served behind the last place of the cycle. */
  lemma {:induction false} ZeroReached(chain: seq<Group>, t: Turn, k: nat)
    requires Ordered(chain) && Once(Channels(chain)) && chain != [] && AllReady(chain[0].channels, [t]) && t.success
    requires chain[0].channels[0].uPacketQuota >= 2 && k < |Cycle(chain[0].channels)|
    requires exists z :: z in chain[0].channels && z.uPacketQuota == 0
    ensures
      var top := chain[0].channels;
      var n := |Cycle(top)| - k;
      var s := Sent(chain, Before(top, k), Repeated(t, n + 1));
      |s| == n + 1 && s[n] != null && s[n].uPacketQuota == 0
    decreases |Cycle(chain[0].channels)| - k
  {
    hide Ordered, Cycle, Before, Turned, Pick, AllReady, Channels;
    var top := chain[0].channels;
    var n := |Cycle(top)| - k;
    RoundRobinStep(chain, k, t);
    assert Repeated(t, n + 1)[1..] == Repeated(t, n);
    if n > 1 {
      ZeroReached(chain, t, k + 1);
    } else {
      ZeroServed(chain, t, k);
      assert Repeated(t, 1)[1..] == [];
      assert Sent(chain, Turned(chain, Before(top, k), t), Repeated(t, 1))
        == [Pick(chain, t.ready, Turned(chain, Before(top, k), t).sink)];
    }
  }

  lemma ZeroServed(chain: seq<Group>, t: Turn, k: nat)
    requires Ordered(chain) && Once(Channels(chain)) && chain != [] && AllReady(chain[0].channels, [t]) && t.success
    requires chain[0].channels[0].uPacketQuota >= 2 && k + 1 == |Cycle(chain[0].channels)|
    requires exists z :: z in chain[0].channels && z.uPacketQuota == 0
    ensures
      var z := Pick(chain, t.ready, Turned(chain, Before(chain[0].channels, k), t).sink);
      z != null && z.uPacketQuota == 0
  {
    hide Ordered, Cycle, Before, Turned, Channels;
    var top := chain[0].channels;
    TopParts(chain);
    RoundRobinStep(chain, k, t);
    var x := Cycle(top)[k];
    ZeroBehind(top, k);
    PlaceInCycle(top, k);
    FromTail(top, x);
    var z := From(top, x)[1];
    assert z in From(top, x) && t in [t] && z in top;
    assert GroupOf(chain, z) == top;
    assert Rest(chain, z) == From(top, x)[1..] && Rest(chain, z)[0] == z;
  }

  /** Behind the last channel of the cycle stands one of quota 0, if there is any. */
  lemma ZeroBehind(channels: seq<Info>, k: nat)
    requires Once(channels) && QuotasDescend(channels) && k + 1 == |Cycle(channels)|
    requires exists z :: z in channels && z.uPacketQuota == 0
    ensures
      var f := From(channels, Cycle(channels)[k]);
      |f| > 1 && f[1].uPacketQuota == 0
  {
    NextPlace(channels, k);
    PlaceInCycle(channels, k);
    BehindIsThere(channels, Cycle(channels)[k]);
  }

  lemma {:induction false} BehindIsThere(channels: seq<Info>, x: Info)
    requires Once(channels) && QuotasDescend(channels) && x in channels && x.uPacketQuota > 0
    requires exists z :: z in channels && z.uPacketQuota == 0
    ensures |From(channels, x)| > 1
  {
    var z :| z in channels && z.uPacketQuota == 0;
    assert channels == [channels[0]] + channels[1..];
    if channels[0] != x {
      assert z in channels[1..];
      BehindIsThere(channels[1..], x);
    }
  }

  /** With quotas 2 and 0, the second channel is served for ever although it has no place in the cycle. */
  lemma ZeroQuotaIsServed(priority: nat, a: Info, b: Info)
    requires a != b && a.uPacketQuota == 2 && b.uPacketQuota == 0
    ensures
      var t := Turn({a, b}, true);
      && Cycle([a, b]) == [a, a]
      && Sent([Group(priority, [a, b])], Context(null, 0), [t, t, t, t]) == [a, a, b, b]
  {
    var t, chain := Turn({a, b}, true), [Group(priority, [a, b])];
    assert [a, b][1..] == [b] && [b][1..] == [] && chain[1..] == [];
    assert Copies(a, 2) == [a, a] && Cycle([b]) == [];
    assert From([a, b], a) == [a, b] && From([a, b], b) == [b];
    assert Turned(chain, Context(null, 0), t) == Context(a, 1);
    assert Turned(chain, Context(a, 1), t) == Context(b, 0);
    assert Turned(chain, Context(b, 0), t) == Context(b, 1);
    assert [t, t, t, t][1..] == [t, t, t] && [t, t, t][1..] == [t, t] && [t, t][1..] == [t] && [t][1..] == [];
    assert Sent(chain, Context(b, 1), [t]) == [b];
    assert Sent(chain, Context(b, 0), [t, t]) == [b, b];
    assert Sent(chain, Context(a, 1), [t, t, t]) == [a, b, b];
  }

  /** With quotas 1 and 1, the second channel is never served. */
  lemma OneQuotaIsStuck(priority: nat, a: Info, b: Info)
    requires a != b && a.uPacketQuota == 1 && b.uPacketQuota == 1
    ensures
      var t := Turn({a, b}, true);
      Cycle([a, b]) == [a, b] && Sent([Group(priority, [a, b])], Context(null, 0), [t, t]) == [a, a]
  {
    var t, chain := Turn({a, b}, true), [Group(priority, [a, b])];
    assert [a, b][1..] == [b] && [b][1..] == [] && chain[1..] == [];
    assert Copies(a, 1) == [a] && Copies(b, 1) == [b] && Cycle([b]) == [b];
    assert From([a, b], a) == [a, b];
    assert Turned(chain, Context(null, 0), t) == Context(a, 1);
    assert [t, t][1..] == [t] && [t][1..] == [];
    assert Sent(chain, Context(a, 1), [t]) == [a];
  }

  // ---------- The manager ----------

  /** Where a subscriber stands in the scheduling. */
  class BroadcastContext {
    var nSentPackets: nat
    var pCurrentSinkChannel: BroadcastQueueInfo?

    function Value(): Context
      reads this
    {
      Context(pCurrentSinkChannel, nSentPackets)
    }
  }

  function GroupAt(groups: seq<BroadcastQueueGroupInfo>, i: int): BroadcastQueueGroupInfo? {
    if 0 <= i < |groups| then groups[i] else null
  }

  ghost function GroupsOf(groups: seq<BroadcastQueueGroupInfo>): (chain: seq<Group>)
    reads groups
    ensures |chain| == |groups|
  {
    if groups == [] then [] else [Group(groups[0].uPriority, groups[0].items)] + GroupsOf(groups[1..])
  }

  /** The channels with a packet for `client`. */
  ghost function Ready(channels: seq<Info>, client: string): set<Info>
    reads set x | x in channels :: x.pChannel
  {
    set x | x in channels && BroadcastQueues.Next(x.pChannel.State(), client).Some?
  }

  /** Different channels share no packets. */
  ghost predicate Apart(x: Info, y: Info)
    reads x.pChannel, y.pChannel
  {
    x != y ==>
      && x.pChannel != y.pChannel
      && x.pChannel.live + x.pChannel.waiting !! y.pChannel.live + y.pChannel.waiting
  }

  /** The queues of `channels` are in order, and their packets are among `packets`. */
  ghost predicate QueuesValid(channels: seq<Info>, packets: set<PacketInfo>)
    reads packets, set x | x in channels :: x.pChannel
  {
    && (forall x :: x in channels ==>
          && (forall p :: p in x.pChannel.list ==> p in packets)
          && x.pChannel.live <= packets && x.pChannel.waiting <= packets)
    && (forall x {:trigger x.pChannel.Valid()} :: x in channels ==> x.pChannel.Valid())
    && (forall x, y {:trigger Apart(x, y)} :: x in channels && y in channels ==> Apart(x, y))
  }

  /** One call of getNextPacket leaves all other channels alone. */
  method Ask(x: Info, client: string, ghost channels: seq<Info>, ghost packets: set<PacketInfo>)
    returns (packet: OutgoingPacket?, info: PacketInfo?)
    requires QueuesValid(channels, packets) && x in channels
    modifies x.pChannel`held, x.pChannel.live`refCount
    ensures QueuesValid(channels, packets) == true
    ensures packet == null <==> BroadcastQueues.Next(x.pChannel.State(), client).None?
    ensures x.pChannel.State() == old(x.pChannel.State())
    ensures packet == null ==>
      x.pChannel.held == old(x.pChannel.held) && forall p :: p in x.pChannel.live ==> p.refCount == old(p.refCount)
    ensures packet != null ==>
      && info != null && packet == info.pPacket
      && BroadcastQueues.Next(x.pChannel.State(), client) == Some(ItemOf(info))
      && x.pChannel.held == old(x.pChannel.held) + multiset{info}
    ensures forall y :: y in channels && y != x ==> unchanged(y.pChannel)
  {
    hide BroadcastQueue.Valid, BroadcastQueues.Next;
    packet, info := x.pChannel.GetNextPacket(client);
    forall y | y in channels
      ensures y.pChannel.Valid() == true && (y != x ==> unchanged(y.pChannel))
    {
      assert old(Apart(x, y)) == true;
      if y != x {
        y.pChannel.StillValid();
      }
    }
    assert forall y, z {:trigger Apart(y, z)} :: y in channels && z in channels ==> old(Apart(y, z)) ==> Apart(y, z);
  }

  method GetPacketFromGroupChain(pStartAt: BroadcastQueueInfo?, client: string,
                                 ghost channels: seq<Info>, ghost rest: seq<Info>, ghost packets: set<PacketInfo>)
    returns (packet: OutgoingPacket?, info: PacketInfo?, found: BroadcastQueueInfo?)
    requires QueuesValid(channels, packets) && (forall x :: x in rest ==> x in channels)
    requires pStartAt == InfoAt(rest, 0)
    requires forall i {:trigger rest[i].pNext} :: 0 <= i < |rest| ==> rest[i].pNext == InfoAt(rest, i + 1)
    modifies (set x | x in channels :: x.pChannel)`held, packets`refCount
    ensures QueuesValid(channels, packets)
    ensures forall x :: x in channels ==> x.pChannel.State() == old(x.pChannel.State())
    ensures packet == null <==> FirstReady(rest, old(Ready(channels, client))) == null
    ensures packet == null ==> forall x :: x in channels ==> unchanged(x.pChannel)
    ensures packet == null ==> forall p :: p in packets ==> unchanged(p)
    ensures packet != null ==>
      && found == FirstReady(rest, old(Ready(channels, client)))
      && info != null && packet == info.pPacket
      && BroadcastQueues.Next(found.pChannel.State(), client) == Some(ItemOf(info))
      && found.pChannel.held == old(found.pChannel.held) + multiset{info}
      && forall x :: x in channels && x != found ==> x.pChannel.held == old(x.pChannel.held)
  {
    hide BroadcastQueue.Valid, BroadcastQueues.Next, FirstReady;
    var pNextChannelInfo := pStartAt;
    packet, info, found := null, null, null;
    ghost var k := 0;
    while pNextChannelInfo != null
      invariant 0 <= k <= |rest| && pNextChannelInfo == InfoAt(rest, k)
      invariant QueuesValid(channels, packets)
      invariant forall x :: x in channels ==> unchanged(x.pChannel)
      invariant forall p :: p in packets ==> unchanged(p)
      invariant forall i :: 0 <= i < k ==> rest[i] !in old(Ready(channels, client))
      decreases |rest| - k
    {
      found := pNextChannelInfo;
      packet, info := Ask(pNextChannelInfo, client, channels, packets);
      if packet != null {
        FirstReadyAt(rest, old(Ready(channels, client)), k);
        return packet, info, found;
      }
      pNextChannelInfo := pNextChannelInfo.pNext;
      k := k + 1;
    }
    FirstReadyAt(rest, old(Ready(channels, client)), k);
    return null, null, found;
  }

  lemma {:induction false} GroupOfGroups(groups: seq<BroadcastQueueGroupInfo>, x: Info) returns (g: nat)
    requires x in Channels(GroupsOf(groups))
    ensures g < |groups| && x in groups[g].items && GroupOf(GroupsOf(groups), x) == groups[g].items
  {
    if x in groups[0].items {
      g := 0;
    } else {
      g := GroupOfGroups(groups[1..], x);
      g := g + 1;
    }
  }

  lemma {:induction false} GroupsAt(groups: seq<BroadcastQueueGroupInfo>, k: nat)
    requires k <= |groups|
    ensures GroupsOf(groups)[k..] == GroupsOf(groups[k..])
    ensures k < |groups| ==> GroupsOf(groups)[k] == Group(groups[k].uPriority, groups[k].items)
  {
    if k > 0 {
      GroupsAt(groups[1..], k - 1);
      assert groups[1..][k - 1..] == groups[k..];
    }
  }

  lemma {:induction false} ItemsInChannels(groups: seq<BroadcastQueueGroupInfo>, g: nat)
    requires g < |groups|
    ensures forall x :: x in groups[g].items ==> x in Channels(GroupsOf(groups))
  {
    if g > 0 {
      ItemsInChannels(groups[1..], g - 1);
    }
  }

  class BroadcastManager {
    var pChainHead: BroadcastQueueGroupInfo?
    ghost var groups: seq<BroadcastQueueGroupInfo>
    ghost var channels: seq<Info>
    ghost var infos: set<Info>
    ghost var packets: set<PacketInfo>

    ghost predicate LinkedAt(i: int)
      reads this, groups
    {
      0 <= i < |groups| ==> groups[i].pNextGroup == GroupAt(groups, i + 1)
    }

    ghost predicate GroupValid(g: BroadcastQueueGroupInfo)
      reads this, g, infos
    {
      g.Linked(infos)
    }

    ghost predicate Chained()
      reads this, groups, infos
    {
      && pChainHead == GroupAt(groups, 0)
      && (forall i {:trigger LinkedAt(i)} :: 0 <= i < |groups| ==> LinkedAt(i))
      && (forall g {:trigger GroupValid(g)} :: g in groups ==> GroupValid(g))
    }

    /** The chain of groups on values. */
    ghost function Chain(): (chain: seq<Group>)
      reads this, groups
      ensures |chain| == |groups|
    {
      GroupsOf(groups)
    }

    ghost predicate Arranged()
      reads this, groups
    {
      channels == Channels(Chain()) && Once(channels) && Ordered(Chain())
    }

    ghost predicate Valid()
      reads this, groups, infos, packets, set x | x in channels :: x.pChannel
    {
      Chained() && Arranged() && QueuesValid(channels, packets)
    }

    constructor ()
      ensures Valid() && Chain() == []
    {
      pChainHead, groups, channels, infos, packets := null, [], [], {}, {};
    }

    /** From the sink on, the links lead through the rest of its group. */
    lemma RestLinked(sink: Info, rest: seq<Info>)
      requires Chained() && Arranged() && sink in channels && rest == Rest(Chain(), sink)
      ensures rest != [] && rest[0] == sink && forall x :: x in rest ==> x in channels
      ensures forall i {:trigger rest[i].pNext} :: 0 <= i < |rest| ==> rest[i].pNext == InfoAt(rest, i + 1)
    {
      var g := GroupOfGroups(groups, sink);
      var items := groups[g].items;
      var k := FromSuffix(items, sink);
      assert GroupValid(groups[g]) == true;
      RestParts(Chain(), sink);
      groups[g].Links(infos);
      forall i | 0 <= i < |rest|
        ensures rest[i].pNext == InfoAt(rest, i + 1)
      {
        assert rest[i] == items[k + i];
      }
    }

    /** Groups and channels are untouched. */
    twostate lemma SameGroups()
      requires old(Chained()) && groups == old(groups) && infos == old(infos) && pChainHead == old(pChainHead)
      requires unchanged(groups) && unchanged(infos)
      ensures Chained() == true && Chain() == old(Chain())
    {
      forall g | g in groups
        ensures GroupValid(g) == true
      {
        assert old(GroupValid(g)) == true;
        forall i | 0 <= i < |g.items|
          ensures g.LinkedAt(i, infos) == true
        {
          assert old(g.LinkedAt(i, infos)) == true;
        }
      }
      forall i | 0 <= i < |groups|
        ensures LinkedAt(i) == true
      {
        assert old(LinkedAt(i)) == true;
        assert groups[i] in groups;
      }
    }

    twostate lemma StillChained()
      requires unchanged(`pChainHead) && unchanged(`groups) && unchanged(`channels) && unchanged(`infos)
      requires old(Chained()) && old(Arranged()) && unchanged(groups) && unchanged(infos)
      ensures Chained() == Arranged() == true && Chain() == old(Chain())
    {
      SameGroups();
    }

    /** What the search for a packet promises: it serves `pick`, and leaves all other channels alone. */
    twostate predicate Handed(client: string, new pick: BroadcastQueueInfo?, new packet: OutgoingPacket?,
                              new info: PacketInfo?, new found: BroadcastQueueInfo?)
      reads this, set x | x in channels :: x.pChannel
    {
      && groups == old(groups) && channels == old(channels) && packets == old(packets)
      && (forall x :: x in channels ==> x.pChannel.State() == old(x.pChannel.State()))
      && (packet == null <==> pick == null)
      && (packet == null ==> forall x :: x in channels ==> x.pChannel.held == old(x.pChannel.held))
      && (packet != null ==>
            && found == pick && found in channels && info != null && packet == info.pPacket
            && BroadcastQueues.Next(found.pChannel.State(), client) == Some(ItemOf(info))
            && found.pChannel.held == old(found.pChannel.held) + multiset{info}
            && forall x :: x in channels && x != found ==> x.pChannel.held == old(x.pChannel.held))
    }

    /** Searches the channels of one group from `pStartAt` on. */
    method SearchGroup(pStartAt: BroadcastQueueInfo?, client: string, ghost rest: seq<Info>)
      returns (packet: OutgoingPacket?, info: PacketInfo?, found: BroadcastQueueInfo?)
      requires Valid() && (forall x :: x in rest ==> x in channels) && pStartAt == InfoAt(rest, 0)
      requires forall i {:trigger rest[i].pNext} :: 0 <= i < |rest| ==> rest[i].pNext == InfoAt(rest, i + 1)
      modifies (set x | x in channels :: x.pChannel)`held, packets`refCount
      ensures Valid() == true && Chain() == old(Chain())
      ensures Handed(client, FirstReady(rest, old(Ready(channels, client))), packet, info, found)
      ensures packet == null ==> unchanged(set x | x in channels :: x.pChannel) && unchanged(packets)
    {
      hide BroadcastQueue.Valid, BroadcastQueues.Next, FirstReady, QueuesValid;
      packet, info, found := GetPacketFromGroupChain(pStartAt, client, channels, rest, packets);
      StillChained();
    }

    /** How a pick from the top moves from group to group. */
    lemma TopStep(k: nat, ready: set<Info>)
      requires Chained() && Arranged() && k < |groups|
      ensures FromTop(Chain()[k..], ready) ==
        if FirstReady(groups[k].items, ready) != null then FirstReady(groups[k].items, ready)
        else FromTop(Chain()[k + 1..], ready)
      ensures groups[k].pNextGroup == GroupAt(groups, k + 1)
      ensures groups[k].pItemList == InfoAt(groups[k].items, 0) && forall x :: x in groups[k].items ==> x in channels
      ensures forall i {:trigger groups[k].items[i].pNext} :: 0 <= i < |groups[k].items| ==>
        groups[k].items[i].pNext == InfoAt(groups[k].items, i + 1)
    {
      GroupsAt(groups, k);
      assert Chain()[k..][1..] == Chain()[k + 1..];
      assert GroupValid(groups[k]) == LinkedAt(k) == true;
      ItemsInChannels(groups, k);
      groups[k].Links(infos);
    }

    lemma TopStart(ready: set<Info>)
      requires Chained()
      ensures pChainHead == GroupAt(groups, 0) && |Chain()| == |groups| && Chain()[0..] == Chain()
      ensures FromTop(Chain()[|groups|..], ready) == null
    {
    }

    /** The loop of GetNextPacket over the groups. */
    method SearchFromTop(client: string)
      returns (packet: OutgoingPacket?, info: PacketInfo?, found: BroadcastQueueInfo?)
      requires Valid()
      modifies (set x | x in channels :: x.pChannel)`held, packets`refCount
      ensures Valid() == true && Chain() == old(Chain())
      ensures Handed(client, FromTop(Chain(), old(Ready(channels, client))), packet, info, found)
    {
      hide BroadcastQueue.Valid, BroadcastQueues.Next, FirstReady, QueuesValid, FromTop, Arranged, Chained;
      packet, info, found := null, null, null;
      var pGroup := pChainHead;
      ghost var k := 0;
      ghost var ready := Ready(channels, client);
      TopStart(ready);
      while pGroup != null
        invariant 0 <= k <= |groups| && pGroup == GroupAt(groups, k)
        invariant Valid() == true && Chain() == old(Chain()) && packet == null
        invariant unchanged(set x | x in channels :: x.pChannel) && unchanged(packets)
        invariant FromTop(Chain()[k..], ready) == FromTop(Chain(), ready)
        decreases |groups| - k
      {
        TopStep(k, ready);
        packet, info, found := SearchGroup(pGroup.pItemList, client, pGroup.items);
        if packet != null {
          return;
        }
        pGroup := pGroup.pNextGroup;
        k := k + 1;
      }
    }

    /** Serves the channels from the current sink on, then the chain from its head. */
    method GetNextPacket(client: string, ctx: BroadcastContext)
      returns (packet: OutgoingPacket?, info: PacketInfo?, found: BroadcastQueueInfo?)
      requires Valid() && (ctx.pCurrentSinkChannel != null ==> ctx.pCurrentSinkChannel in channels)
      modifies (set x | x in channels :: x.pChannel)`held, packets`refCount
      ensures Valid() == true && Chain() == old(Chain())
      ensures Handed(client, Pick(Chain(), old(Ready(channels, client)), ctx.pCurrentSinkChannel), packet, info, found)
    {
      hide BroadcastQueue.Valid, BroadcastQueues.Next, FirstReady, QueuesValid, FromTop, Arranged, Chained, Rest;
      if ctx.pCurrentSinkChannel != null {
        ghost var rest := Rest(Chain(), ctx.pCurrentSinkChannel);
        RestLinked(ctx.pCurrentSinkChannel, rest);
        packet, info, found := SearchGroup(ctx.pCurrentSinkChannel, client, rest);
        if packet != null {
          return;
        }
      }
      packet, info, found := SearchFromTop(client);
    }

    /** Gives a packet back; after a successful send the context moves on. */
    method DisposePacket(info: PacketInfo, client: string, x: Info, ctx: BroadcastContext, success: bool)
      requires Valid() && x in channels && info in x.pChannel.held
      requires ctx.pCurrentSinkChannel != null ==> ctx.pCurrentSinkChannel in channels
      modifies x.pChannel, info`refCount, ctx
      ensures Valid() == true && Chain() == old(Chain())
      ensures x.pChannel.State() == Disposed(old(x.pChannel.State()), client, info.queuePosition, success)
      ensures x.pChannel.Book()
        == DisposedNode(old(x.pChannel.Book()), info, info.queuePosition, client, success)
      ensures ctx.Value() == if success then AfterSend(Chain(), old(ctx.Value()), x) else old(ctx.Value())
      ensures ctx.pCurrentSinkChannel != null ==> ctx.pCurrentSinkChannel in channels
      ensures forall y :: y in channels && y != x ==> unchanged(y.pChannel)
    {
      hide BroadcastQueue.Valid, BroadcastQueues.Next;
      GiveBackTo(x, info, client, success);
      StillChained();
      label Given:
      if success {
        MoveOn(x, ctx);
        StillChained@Given();
      }
    }

    /** The quality-of-service part of DisposePacket. */
    method MoveOn(x: Info, ctx: BroadcastContext)
      requires Chained() && Arranged() && x in channels
      requires ctx.pCurrentSinkChannel != null ==> ctx.pCurrentSinkChannel in channels
      modifies ctx
      ensures ctx.Value() == AfterSend(old(Chain()), old(ctx.Value()), x)
      ensures ctx.pCurrentSinkChannel != null ==> ctx.pCurrentSinkChannel in channels
    {
      RestLinked(x, Rest(Chain(), x));
      if ctx.pCurrentSinkChannel == x {
        ctx.nSentPackets := ctx.nSentPackets + 1;
        if ctx.nSentPackets == x.uPacketQuota {
          if x.pNext != null {
            ctx.pCurrentSinkChannel := x.pNext;
            ctx.nSentPackets := 0;
          } else {
            ctx.pCurrentSinkChannel := null;
            ctx.nSentPackets := 0;
          }
        }
      } else {
        ctx.nSentPackets := 1;
        ctx.pCurrentSinkChannel := x;
      }
    }

    /** One call of disposePacket leaves all other channels alone. */
    method GiveBackTo(x: Info, info: PacketInfo, client: string, success: bool)
      requires QueuesValid(channels, packets) && x in channels && info in x.pChannel.held
      modifies x.pChannel, info`refCount
      ensures QueuesValid(channels, packets) == true
      ensures x.pChannel.State() == Disposed(old(x.pChannel.State()), client, info.queuePosition, success)
      ensures x.pChannel.Book()
        == DisposedNode(old(x.pChannel.Book()), info, info.queuePosition, client, success)
      ensures forall y :: y in channels && y != x ==> unchanged(y.pChannel)
    {
      hide BroadcastQueue.Valid, BroadcastQueue.Book, BroadcastQueue.State, Disposed, DisposedNode;
      HeldLive(x.pChannel, info);
      x.pChannel.DisposePacket(info, client, success);
      forall y | y in channels
        ensures y.pChannel.Valid() == true && (y != x ==> unchanged(y.pChannel))
      {
        assert old(Apart(x, y)) == true;
        if y != x {
          y.pChannel.StillValid();
        }
      }
      assert forall y, z {:trigger Apart(y, z)} :: y in channels && z in channels ==> old(Apart(y, z)) ==> Apart(y, z);
    }

    lemma HeldLive(q: BroadcastQueue, info: PacketInfo)
      requires q.Valid() && info in q.held
      ensures info in q.live + q.waiting
    {
    }

    // ---------- New channels ----------

    /** The search of insertChannelIntoOrderedChain for the place of a group. */
    method FindGroup(priority: nat, ghost x: Info)
      returns (pBefore: BroadcastQueueGroupInfo?, pAfter: BroadcastQueueGroupInfo?, ghost k: nat)
      requires Chained()
      ensures k <= |groups| && pAfter == GroupAt(groups, k) && pBefore == GroupAt(groups, k - 1)
      ensures pAfter != null ==> priority >= pAfter.uPriority
      ensures InsertChannel(Chain(), priority, x) == Chain()[..k] + InsertChannel(Chain()[k..], priority, x)
    {
      pBefore := null;
      pAfter := pChainHead;
      k := 0;
      while pAfter != null
        invariant 0 <= k <= |groups| && pAfter == GroupAt(groups, k) && pBefore == GroupAt(groups, k - 1)
        invariant InsertChannel(Chain(), priority, x) == Chain()[..k] + InsertChannel(Chain()[k..], priority, x)
        decreases |groups| - k
      {
        hide InsertChannel, Chained;
        if priority >= pAfter.uPriority {
          break;
        } else {
          PassGroup(priority, x, k);
          pBefore := pAfter;
          pAfter := pAfter.pNextGroup;
          k := k + 1;
        }
      }
    }

    lemma PassGroup(priority: nat, x: Info, k: nat)
      requires Chained() && k < |groups| && priority < groups[k].uPriority
      ensures Chain()[..k] + InsertChannel(Chain()[k..], priority, x)
        == Chain()[..k + 1] + InsertChannel(Chain()[k + 1..], priority, x)
      ensures groups[k].pNextGroup == GroupAt(groups, k + 1)
    {
      hide InsertChannel;
      GroupsAt(groups, k);
      assert LinkedAt(k) == true;
      assert Chain()[..k + 1] == Chain()[..k] + [Chain()[k]] && Chain()[k..][1..] == Chain()[k + 1..];
      InsertLater(Chain()[k..], priority, x);
    }

    /** Links a new group between `pBefore` and `pAfter`. */
    method LinkGroup(priority: nat, pBefore: BroadcastQueueGroupInfo?, pAfter: BroadcastQueueGroupInfo?, ghost k: nat)
      returns (g: BroadcastQueueGroupInfo)
      requires Chained() && OnceGroups(groups)
      requires k <= |groups| && pAfter == GroupAt(groups, k) && pBefore == GroupAt(groups, k - 1)
      modifies this`pChainHead, this`groups, groups`pNextGroup
      ensures fresh(g) && g.uPriority == priority && g.items == []
      ensures groups == old(groups)[..k] + [g] + old(groups)[k..] && Chained() == OnceGroups(groups) == true
    {
      g := new BroadcastQueueGroupInfo(priority);
      if pAfter == null {
        if pBefore == null {
          pChainHead := g;
        } else {
          pBefore.pNextGroup := g;
        }
      } else {
        g.pNextGroup := pAfter;
        if pBefore != null {
          pBefore.pNextGroup := g;
        } else {
          pChainHead := g;
        }
      }
      groups := groups[..k] + [g] + groups[k..];
      forall j | 0 <= j < |groups|
        ensures LinkedAt(j) == true
      {
        if j != k {
          var i := if j < k then j else j - 1;
          assert old(LinkedAt(i)) == true;
          assert groups[j] == old(groups)[i];
        }
      }
      forall h | h in groups
        ensures GroupValid(h) == true
      {
        if h != g {
          StillGroup(h);
        }
      }
    }

    /** A group whose channels and links did not change. */
    twostate lemma StillGroup(new h: BroadcastQueueGroupInfo)
      requires h in old(groups) && old(GroupValid(h)) && old(infos) <= infos
      requires h.items == old(h.items) && h.pItemList == old(h.pItemList)
      requires forall x :: x in h.items ==> x.pNext == old(x.pNext)
      ensures GroupValid(h) == true
    {
      forall i | 0 <= i < |h.items|
        ensures h.LinkedAt(i, infos) == true
      {
        assert old(h.LinkedAt(i, infos)) == true;
        assert h.items[i] in h.items;
      }
    }

    /** Finds or makes the group of the given priority. */
    method ParentGroup(priority: nat, ghost x: Info) returns (pParentGroup: BroadcastQueueGroupInfo, ghost k: nat)
      requires Chained() && OnceGroups(groups)
      modifies this`pChainHead, this`groups, groups`pNextGroup
      ensures Chained() == OnceGroups(groups) == true
      ensures k < |groups| && groups[k] == pParentGroup && (pParentGroup.items == [] || groups == old(groups))
      ensures Chain() == old(Chain()) || pParentGroup.items == []
      ensures pParentGroup.uPriority == priority && (pParentGroup in old(groups) || fresh(pParentGroup))
      ensures forall h :: h in groups ==> h in old(groups) || h == pParentGroup
      ensures forall h :: h in old(groups) ==> h.items == old(h.items)
      ensures InsertChannel(old(Chain()), priority, x)
        == Chain()[k := Group(priority, InsertByQuota(pParentGroup.items, x))]
    {
      hide InsertChannel, InsertByQuota, Chained;
      var pBefore, pAfter;
      pBefore, pAfter, k := FindGroup(priority, x);
      ChainAt();
      if pAfter == null {
        InsertNewGroup(Chain(), k, priority, x);
        pParentGroup := LinkGroup(priority, pBefore, pAfter, k);
        GroupsSplice(k, pParentGroup);
      } else if priority == pAfter.uPriority {
        InsertOldGroup(Chain(), k, x);
        pParentGroup := pAfter;
      } else {
        InsertNewGroup(Chain(), k, priority, x);
        pParentGroup := LinkGroup(priority, pBefore, pAfter, k);
        GroupsSplice(k, pParentGroup);
      }
    }

    /** The chain with a new empty group on values. */
    twostate lemma GroupsSplice(k: nat, new g: BroadcastQueueGroupInfo)
      requires k <= |old(groups)| && groups == old(groups)[..k] + [g] + old(groups)[k..] && g.items == []
      requires forall j {:trigger old(Chain())[j]} :: 0 <= j < |old(groups)| ==>
        old(Chain())[j] == Group(old(groups)[j].uPriority, old(groups[j].items))
      requires forall h :: h in old(groups) ==> h.items == old(h.items)
      ensures Chain() == old(Chain())[..k] + [Group(g.uPriority, [])] + old(Chain())[k..]
    {
      forall i | 0 <= i < |groups|
        ensures Chain()[i] == (old(Chain())[..k] + [Group(g.uPriority, [])] + old(Chain())[k..])[i]
      {
        GroupsAt(groups, i);
        if i != k {
          var j := if i < k then i else i - 1;
          assert groups[i] == old(groups)[j] && old(groups)[j] in old(groups);
          assert old(Chain())[j] == Group(old(groups)[j].uPriority, old(groups[j].items));
        }
      }
    }

    lemma ChainAt()
      ensures forall j {:trigger Chain()[j]} :: 0 <= j < |groups| ==>
        Chain()[j] == Group(groups[j].uPriority, groups[j].items)
    {
      forall j | 0 <= j < |groups|
        ensures Chain()[j] == Group(groups[j].uPriority, groups[j].items)
      {
        GroupsAt(groups, j);
      }
    }

    /** Only the channels of the group at `k` changed. */
    twostate lemma ChainUpdated(k: nat)
      requires k < |groups| && groups == old(groups)
      requires forall j {:trigger old(Chain())[j]} :: 0 <= j < |old(groups)| ==>
        old(Chain())[j] == Group(old(groups)[j].uPriority, old(groups[j].items))
      requires forall h :: h in groups && h != groups[k] ==> h.items == old(h.items)
      requires OnceGroups(groups)
      ensures Chain() == old(Chain())[k := Group(groups[k].uPriority, groups[k].items)]
    {
      forall j | 0 <= j < |groups|
        ensures Chain()[j] == old(Chain())[k := Group(groups[k].uPriority, groups[k].items)][j]
      {
        GroupsAt(groups, j);
        assert groups[j] in groups;
        assert old(Chain())[j] == Group(old(groups)[j].uPriority, old(groups[j].items));
      }
    }

    /** Groups of the chain share no channels. */
    lemma GroupsApart()
      requires Arranged()
      ensures OnceGroups(groups)
      ensures forall g, h, x :: g in groups && h in groups && g != h && x in g.items ==> x !in h.items
      ensures forall g, x :: g in groups && x in g.items ==> x in channels
    {
      ChainAt();
      forall i, j | 0 <= i < j < |groups| ensures groups[i] != groups[j] {
        assert Chain()[i].priority > Chain()[j].priority;
      }
      forall g, h, x | g in groups && h in groups && g != h && x in g.items
        ensures x !in h.items
      {
        var i :| 0 <= i < |groups| && groups[i] == g;
        var j :| 0 <= j < |groups| && groups[j] == h;
        ItemsApart(groups, if i < j then i else j, if i < j then j else i);
      }
      forall g, x | g in groups && x in g.items
        ensures x in channels
      {
        var i :| 0 <= i < |groups| && groups[i] == g;
        ItemsInChannels(groups, i);
      }
    }

    /** Puts a new channel into its group. */
    method JoinGroup(x: Info, g: BroadcastQueueGroupInfo, ghost k: nat)
      requires Chained() && OnceGroups(groups) && k < |groups| && groups[k] == g
      requires x !in infos && x.pNext == null
      requires forall h, y :: h in groups && h != g && y in g.items ==> y !in h.items
      modifies this`infos, g`pItemList, g`items, infos`pNext, x
      ensures Chained() == true && infos == old(infos) + {x}
      ensures Chain() == old(Chain())[k := Group(g.uPriority, InsertByQuota(old(g.items), x))]
    {
      ChainAt();
      assert GroupValid(g) == true;
      g.Links(infos);
      OthersLinked(g);
      g.InsertChannelInfo(x, infos);
      infos := infos + {x};
      ChainUpdated(k);
      forall h | h in groups
        ensures GroupValid(h) == true
      {
        if h != g {
          forall y | y in h.items
            ensures y.pNext == old(y.pNext)
          {
            assert y !in old(g.items) && y in old(infos);
          }
          StillGroup(h);
        }
      }
      forall j | 0 <= j < |groups|
        ensures LinkedAt(j) == true
      {
        assert old(LinkedAt(j)) == true;
      }
    }

    /** The queues that stay are untouched, and the queue of `x` is new. */
    twostate lemma QueuesMore(new x: Info)
      requires old(QueuesValid(channels, packets)) && packets == old(packets) && x !in old(channels)
      requires forall y :: y in channels ==> y in old(channels) || y == x
      requires forall y :: y in old(channels) ==> unchanged(y.pChannel) && y.pChannel != x.pChannel
      requires unchanged(packets)
      requires x.pChannel.Valid() && x.pChannel.list == [] && x.pChannel.live == x.pChannel.waiting == {}
      ensures QueuesValid(channels, packets) == true
    {
      hide BroadcastQueue.Valid;
      forall y | y in channels
        ensures y.pChannel.Valid() == true
      {
        if y != x {
          y.pChannel.StillValid();
        }
      }
      forall y, z | y in channels && z in channels
        ensures Apart(y, z) == true
      {
        if y in old(channels) && z in old(channels) {
          assert old(Apart(y, z)) == true;
        }
      }
    }

    /** A new channel with a queue of its own. */
    method InsertChannelIntoOrderedChain(pQueue: BroadcastQueue, priority: nat, quota: nat) returns (x: Info)
      requires Valid() && pQueue.Valid() && pQueue.list == [] && pQueue.live == pQueue.waiting == {}
      requires forall y :: y in channels ==> y.pChannel != pQueue
      modifies this, groups, infos
      ensures Valid() == true && fresh(x) && x.pChannel == pQueue && x.uPacketQuota == quota
      ensures Chain() == InsertChannel(old(Chain()), priority, x) && pQueue.State() == old(pQueue.State())
    {
      hide BroadcastQueue.Valid, QueuesValid, Chained, InsertByQuota, InsertChannel;
      x := new BroadcastQueueInfo(pQueue, quota);
      StillChained();
      InsertInfo(x, priority);
      InsertedOnce(old(Chain()), priority, x);
      label Inserted:
      channels := Channels(Chain());
      SameGroups@Inserted();
      QueuesMore(x);
    }

    /** Puts a new channel into the group of its priority. */
    method InsertInfo(x: Info, priority: nat)
      requires Chained() && Arranged() && x !in infos && x.pNext == null
      modifies this`pChainHead, this`groups, this`infos, groups, infos, x
      ensures Chained() == true && Chain() == InsertChannel(old(Chain()), priority, x)
    {
      hide Chained, InsertByQuota, InsertChannel;
      GroupsApart();
      var pParentGroup;
      ghost var k;
      pParentGroup, k := ParentGroup(priority, x);
      forall h, y | h in groups && h != pParentGroup && y in pParentGroup.items
        ensures y !in h.items
      {
        assert h in old(groups) && pParentGroup in old(groups);
      }
      JoinGroup(x, pParentGroup, k);
    }

    method CreateBroadcastQueue(maxPacket: nat, requireSubscription: bool, priority: nat, quota: nat)
      returns (x: Info)
      requires Valid()
      modifies this, groups, infos
      ensures Valid() == true && fresh(x) && fresh(x.pChannel) && x.uPacketQuota == quota
      ensures Chain() == InsertChannel(old(Chain()), priority, x)
      ensures x.pChannel.State() == Queue(maxPacket, requireSubscription, [], map[])
    {
      hide Chained, Arranged, QueuesValid, InsertChannel;
      var pQueue := new BroadcastQueue(maxPacket, requireSubscription);
      label Made:
      StillServed();
      x := InsertChannelIntoOrderedChain(pQueue, priority, quota);
    }

    /** Only new objects appeared. */
    twostate lemma StillServed()
      requires old(Valid()) && unchanged(this) && unchanged(groups) && unchanged(infos) && unchanged(packets)
      requires forall y :: y in channels ==> unchanged(y.pChannel)
      ensures Valid() == true
    {
      hide BroadcastQueue.Valid;
      StillChained();
      forall y | y in channels
        ensures y.pChannel.Valid() == true
      {
        y.pChannel.StillValid();
      }
      forall y, z | y in channels && z in channels
        ensures Apart(y, z) == true
      {
        assert old(Apart(y, z)) == true;
      }
    }

    /** A push into one channel leaves the chain and all other channels alone. */
    method PushPacket(x: Info, packet: OutgoingPacket, killKey: string, objectCategory: int)
      requires Valid() && x in channels
      modifies this`packets, x.pChannel, x.pChannel.live
      ensures Valid() == true && Chain() == old(Chain())
      ensures x.pChannel.State() == Pushed(old(x.pChannel.State()), packet, killKey, objectCategory)
      ensures
        var n := |old(x.pChannel.made)|;
        && |x.pChannel.made| == n + 1 && (forall y :: y in channels ==> x.pChannel.made[n] !in old(y.pChannel.made))
        && x.pChannel.Book()
           == PushedNode(old(x.pChannel.Book()), x.pChannel.made[n], packet, killKey, objectCategory)
      ensures forall y :: y in channels && y != x ==> unchanged(y.pChannel)
    {
      hide BroadcastQueue.Valid, BroadcastQueue.Book, BroadcastQueue.State;
      hide Pushed, PushedNode, Ordered, Once, Arranged, Chained;
      x.pChannel.PushPacket(packet, killKey, objectCategory);
      packets := packets + x.pChannel.live + x.pChannel.waiting;
      PushedQueues(x);
      StillChained();
    }

    /** Removing a packet from one channel leaves the chain and all other channels alone. */
    method RemovePacket(x: Info, killKey: string, objectCategory: int)
      requires Valid() && x in channels
      modifies x.pChannel, x.pChannel.live
      ensures Valid() == true && Chain() == old(Chain())
      ensures x.pChannel.State() == Removed(old(x.pChannel.State()), killKey, objectCategory)
      ensures x.pChannel.Book() == RemovedNode(old(x.pChannel.Book()), killKey, objectCategory)
      ensures forall y :: y in channels && y != x ==> unchanged(y.pChannel)
    {
      hide BroadcastQueue.Valid, BroadcastQueue.Book, BroadcastQueue.State, Arranged, Removed, RemovedNode;
      x.pChannel.RemovePacket(killKey, objectCategory);
      OneChanged(x);
      ListedLive(x.pChannel);
      StillChained();
    }

    lemma ListedLive(q: BroadcastQueue)
      requires q.Valid()
      ensures forall p :: p in q.list ==> p in q.live
    {
      ListsSame(q.list, q.live);
    }

    /** Only the channel of `x` and its live packets changed, and it got no packet of another channel. */
    twostate lemma OneChanged(x: Info)
      requires old(Valid()) && x in old(channels) && channels == old(channels) && x.pChannel.Valid()
      requires forall y :: y in channels && y.pChannel != x.pChannel ==> unchanged(y.pChannel)
      requires forall p :: p in old(packets) && p !in old(x.pChannel.live) ==> unchanged(p)
      requires forall p :: p in x.pChannel.live + x.pChannel.waiting ==>
        p in old(x.pChannel.live + x.pChannel.waiting) || !old(allocated(p))
      ensures forall y {:trigger y.pChannel.Valid()} :: y in channels ==> y.pChannel.Valid()
      ensures forall y :: y in channels && y != x ==> unchanged(y.pChannel)
      ensures forall y, z {:trigger Apart(y, z)} :: y in channels && z in channels ==> Apart(y, z)
    {
      hide BroadcastQueue.Valid, Chained, Arranged;
      forall y | y in channels
        ensures y.pChannel.Valid() == true && (y != x ==> unchanged(y.pChannel))
      {
        assert old(Apart(x, y)) == true;
        if y != x {
          y.pChannel.StillValid();
        }
      }
      forall y, z | y in channels && z in channels
        ensures Apart(y, z) == true
      {
        assert old(Apart(y, z)) == old(Apart(x, y)) == old(Apart(x, z)) == true;
      }
    }

    /** And its packets are counted now. */
    twostate lemma PushedQueues(x: Info)
      requires old(Valid()) && x in old(channels) && channels == old(channels) && x.pChannel.Valid()
      requires forall y :: y in channels && y.pChannel != x.pChannel ==> unchanged(y.pChannel)
      requires forall p :: p in old(packets) && p !in old(x.pChannel.live) ==> unchanged(p)
      requires forall p :: p in x.pChannel.live + x.pChannel.waiting ==>
        p in old(x.pChannel.live + x.pChannel.waiting) || !old(allocated(p))
      requires packets == old(packets) + x.pChannel.live + x.pChannel.waiting
      ensures QueuesValid(channels, packets) == true
      ensures forall y :: y in channels && y != x ==> unchanged(y.pChannel)
    {
      hide BroadcastQueue.Valid, Chained, Arranged;
      OneChanged(x);
      ListedLive(x.pChannel);
      assert forall y, z {:trigger Apart(y, z)} :: y in channels && z in channels ==> Apart(y, z);
    }

    /** All groups have their channels among `infos`. */
    lemma OthersLinked(g: BroadcastQueueGroupInfo)
      requires Chained()
      ensures forall h, y :: h in groups && y in h.items ==> y in infos
    {
      forall h, y | h in groups && y in h.items
        ensures y in infos
      {
        assert GroupValid(h) == true;
        h.Links(infos);
      }
    }
  }

  lemma {:induction false} ItemsApart(groups: seq<BroadcastQueueGroupInfo>, i: nat, j: nat)
    requires Once(Channels(GroupsOf(groups))) && i < j < |groups|
    ensures forall x :: x in groups[i].items ==> x !in groups[j].items
    ensures forall x :: x in groups[j].items ==> x !in groups[i].items
  {
    OnceParts(groups[0].items, Channels(GroupsOf(groups[1..])));
    if i == 0 {
      ItemsInChannels(groups[1..], j - 1);
      assert groups[1..][j - 1] == groups[j];
    } else {
      ItemsApart(groups[1..], i - 1, j - 1);
    }
  }

  lemma InsertedOnce(chain: seq<Group>, priority: nat, x: Info)
    requires Ordered(chain) && Once(Channels(chain)) && x !in Channels(chain)
    ensures Ordered(InsertChannel(chain, priority, x)) && Once(Channels(InsertChannel(chain, priority, x)))
    ensures forall y :: y in Channels(InsertChannel(chain, priority, x)) ==> y in Channels(chain) || y == x
  {
    InsertChannelOrdered(chain, priority, x);
    InsertChannelContents(chain, priority, x);
    var before, after := Channels(chain), Channels(InsertChannel(chain, priority, x));
    OnceCounts(before);
    forall y | y in after
      ensures y in before || y == x
    {
      assert multiset(after)[y] > 0;
    }
    CountsOnce(after);
  }

  lemma {:induction false} OnceCounts(s: seq<Info>)
    requires Once(s)
    ensures forall y :: multiset(s)[y] <= 1
  {
    if s != [] {
      assert s == [s[0]] + s[1..];
      OnceCounts(s[1..]);
      assert s[0] !in s[1..];
    }
  }

  lemma {:induction false} CountsOnce(s: seq<Info>)
    requires forall y :: multiset(s)[y] <= 1
    ensures Once(s)
  {
    if s != [] {
      assert s == [s[0]] + s[1..];
      assert multiset(s) == multiset{s[0]} + multiset(s[1..]);
      forall y ensures multiset(s[1..])[y] <= 1 {
        assert multiset(s)[y] <= 1;
      }
      CountsOnce(s[1..]);
      assert multiset(s)[s[0]] <= 1;
      assert s[0] !in s[1..];
    }
  }

  /** Inserting into a new group at `k`. */
  lemma InsertNewGroup(chain: seq<Group>, k: nat, priority: nat, x: Info)
    requires k <= |chain| && (k < |chain| ==> priority > chain[k].priority)
    requires InsertChannel(chain, priority, x) == chain[..k] + InsertChannel(chain[k..], priority, x)
    ensures InsertChannel(chain, priority, x)
      == (chain[..k] + [Group(priority, [])] + chain[k..])[k := Group(priority, InsertByQuota([], x))]
  {
    PutBetween(chain[..k], Group(priority, [x]), chain[k..]);
    assert InsertByQuota([], x) == [x];
  }

  /** Inserting into the group at `k`. */
  lemma InsertOldGroup(chain: seq<Group>, k: nat, x: Info)
    requires k < |chain|
    requires InsertChannel(chain, chain[k].priority, x) == chain[..k] + InsertChannel(chain[k..], chain[k].priority, x)
    ensures InsertChannel(chain, chain[k].priority, x)
      == chain[k := Group(chain[k].priority, InsertByQuota(chain[k].channels, x))]
  {
    assert chain[k..][1..] == chain[k + 1..];
    PutBetween(chain[..k], Group(chain[k].priority, InsertByQuota(chain[k].channels, x)), chain[k + 1..]);
  }

  predicate OnceGroups(groups: seq<BroadcastQueueGroupInfo>) {
    forall i, j :: 0 <= i < j < |groups| ==> groups[i] != groups[j]
  }
}