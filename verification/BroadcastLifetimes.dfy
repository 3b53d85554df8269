/**
 How long the payloads of one broadcast manager live. A payload that is pushed belongs to the manager, which gives it to
 DeleteOutgoingPacket when a packet that carries it leaves its channel. The book of a manager says of all its channels
 where their packets are; each step of it is a step of the class `BroadcastQueue`.
 */
module BroadcastLifetimes {

  import opened BroadcastQueues

  /** The channel that a packet was pushed to, and the packet. */
  datatype Made = Made(channel: nat, item: Item)

  datatype Book<N> = Book(channels: seq<Ledger<N>>, made: map<N, Made>)

  /** The calls to a manager; a push makes the packet node `node`. */
  datatype Call<N> =
    | CreateChannel(maxPacket: nat, requireRegistration: bool)
    | PushTo(channel: nat, node: N, packet: OutgoingPacket, killKey: string, category: int)
    | RemoveFrom(channel: nat, killKey: string, category: int)
    | SubscribeTo(channel: nat, client: string)
    | UnsubscribeFrom(channel: nat, client: string)
    | GetFrom(channel: nat, client: string)
    | DisposeTo(channel: nat, node: N, client: string, success: bool)

  ghost predicate AllMatched<N>(b: Book<N>) {
    forall c :: 0 <= c < |b.channels| ==> Matched(b.channels[c])
  }

  /** A packet node is new when it is made, and only a node in the hand of a client is disposed. */
  ghost predicate Possible<N>(b: Book<N>, e: Call<N>) {
    match e
    case CreateChannel(_, _) => true
    case PushTo(c, n, _, _, _) => c < |b.channels| && n !in b.made
    case DisposeTo(c, n, _, _) => c < |b.channels| && n in b.channels[c].held && n in b.made
    case _ => e.channel < |b.channels|
  }

  /** What a call does to the channel it is for. */
  ghost function OnChannel<N>(l: Ledger<N>, e: Call<N>, made: map<N, Made>): (r: Ledger<N>)
    requires Matched(l) && !e.CreateChannel? && (e.DisposeTo? ==> e.node in made)
    ensures Matched(r)
  {
    match e
    case PushTo(_, n, p, k, o) => PushedNode(l, n, p, k, o)
    case RemoveFrom(_, k, o) => RemovedNode(l, k, o)
    case SubscribeTo(_, client) => l.(queue := l.queue.(clients := l.queue.clients[client := 0]))
    case UnsubscribeFrom(_, client) => l.(queue := l.queue.(clients := l.queue.clients - {client}))
    case GetFrom(_, client) => GotNode(l, client)
    case DisposeTo(_, n, client, ok) => DisposedNode(l, n, made[n].item.position, client, ok)
  }

  ghost function NewItem<N>(l: Ledger<N>, e: Call<N>): Item
    requires e.PushTo?
  {
    Item(NextPosition(l.queue.items), e.packet, e.killKey, e.category)
  }

  ghost function After<N>(b: Book<N>, e: Call<N>): (r: Book<N>)
    requires AllMatched(b) && Possible(b, e)
    ensures AllMatched(r)
  {
    if e.CreateChannel? then
      var q := Queue(e.maxPacket, e.requireRegistration, [], map[]);
      b.(channels := b.channels + [Ledger(q, [], multiset{}, {}, [])])
    else
      var l := b.channels[e.channel];
      Book(
        b.channels[e.channel := OnChannel(l, e, b.made)],
        if e.PushTo? then b.made[e.node := Made(e.channel, NewItem(l, e))] else b.made)
  }

  ghost predicate CanRun<N>(b: Book<N>, calls: seq<Call<N>>)
    requires AllMatched(b)
    decreases |calls|
  {
    calls == [] || (Possible(b, calls[0]) && CanRun(After(b, calls[0]), calls[1..]))
  }

  ghost function Ran<N>(b: Book<N>, calls: seq<Call<N>>): (r: Book<N>)
    requires AllMatched(b) && CanRun(b, calls)
    ensures AllMatched(r)
    decreases |calls|
  {
    if calls == [] then b else Ran(After(b, calls[0]), calls[1..])
  }

  ghost function NoChannels<N>(): (b: Book<N>)
    ensures AllMatched(b)
  {
    Book([], map[])
  }

  // ---------- Where a packet is ----------

  /** The packet is in the list, waits for its last holder, or gave its payload back. */
  ghost predicate Alive<N>(l: Ledger<N>, n: N) {
    n in l.list || n in l.waiting || n in l.returned
  }

  ghost predicate Distinct<N>(s: seq<N>) {
    forall i, j :: 0 <= i < j < |s| ==> s[i] != s[j]
  }

  /** The packets of a channel are in one place each. */
  ghost predicate Placed<N>(l: Ledger<N>) {
    && Distinct(l.list) && Distinct(l.returned)
    && (forall n :: n in l.list ==> n !in l.waiting && n !in l.returned)
    && (forall n :: n in l.waiting ==> n !in l.returned && n in l.held)
    && (forall n :: n in l.held ==> n in l.list || n in l.waiting)
  }

  /** The packets of channel `c` were made for it. */
  ghost predicate Owned<N>(l: Ledger<N>, made: map<N, Made>, c: nat) {
    && (forall n :: n in l.list ==> n in made && made[n].channel == c)
    && (forall n :: n in l.waiting ==> n in made && made[n].channel == c)
    && (forall n :: n in l.returned ==> n in made && made[n].channel == c)
  }

  /** Every packet is in one place of the channel it was made for. */
  ghost predicate Accounted<N>(b: Book<N>)
    ensures Accounted(b) ==> AllMatched(b)
  {
    forall c :: 0 <= c < |b.channels| ==>
      Matched(b.channels[c]) && Placed(b.channels[c]) && Owned(b.channels[c], b.made, c)
  }

  ghost predicate InPlay<N>(b: Book<N>, n: N) {
    n in b.made && b.made[n].channel < |b.channels| && Alive(b.channels[b.made[n].channel], n)
  }

  lemma LeavesPlaced<N>(l: Ledger<N>, i: nat)
    requires Matched(l) && Placed(l) && i < |l.list|
    ensures Placed(Leaves(l, i))
    ensures forall n :: Alive(Leaves(l, i), n) <==> Alive(l, n)
  {
    var r := Leaves(l, i);
    forall n
      ensures n in r.list <==> n in l.list && n != l.list[i]
    {
      if n in l.list && n != l.list[i] {
        var j :| 0 <= j < |l.list| && l.list[j] == n;
        assert r.list[if j < i then j else j - 1] == n;
      }
    }
  }

  lemma MorePlaced<N>(l: Ledger<N>, n: N, q: Queue)
    requires Placed(l) && !Alive(l, n)
    ensures Placed(l.(queue := q, list := l.list + [n]))
    ensures forall m :: Alive(l.(queue := q, list := l.list + [n]), m) <==> Alive(l, m) || m == n
  {
  }

  lemma PushPlaced<N>(l: Ledger<N>, n: N, p: OutgoingPacket, k: string, o: int)
    requires Matched(l) && Placed(l) && !Alive(l, n)
    ensures Placed(PushedNode(l, n, p, k, o))
    ensures forall m :: Alive(PushedNode(l, n, p, k, o), m) <==> Alive(l, m) || m == n
  {
    hide Placed, Leaves, Alive, NextPosition;
    var q := l.queue.(items := l.queue.items + [Item(NextPosition(l.queue.items), p, k, o)]);
    MorePlaced(l, n, q);
    var more := l.(queue := q, list := l.list + [n]);
    if |more.list| > l.queue.maxPacket {
      LeavesPlaced(more, 0);
    }
  }

  lemma RemovePlaced<N>(l: Ledger<N>, k: string, o: int)
    requires Matched(l) && Placed(l)
    ensures Placed(RemovedNode(l, k, o))
    ensures forall m :: Alive(RemovedNode(l, k, o), m) <==> Alive(l, m)
  {
    hide Placed, Leaves, Alive, FirstMatch;
    var i := FirstMatch(l.queue.items, k, o);
    if i < |l.list| {
      LeavesPlaced(l, i);
    }
  }

  lemma DisposePlaced<N>(l: Ledger<N>, n: N, position: int, client: string, ok: bool)
    requires Matched(l) && Placed(l) && n in l.held
    ensures Placed(DisposedNode(l, n, position, client, ok))
    ensures forall m :: Alive(DisposedNode(l, n, position, client, ok), m) ==> Alive(l, m)
  {
    var r := DisposedNode(l, n, position, client, ok);
    assert forall m :: m != n ==> (m in r.held <==> m in l.held);
  }

  lemma GetPlaced<N>(l: Ledger<N>, client: string)
    requires Matched(l) && Placed(l)
    ensures Placed(GotNode(l, client))
    ensures forall m :: Alive(GotNode(l, client), m) <==> Alive(l, m)
  {
    hide FirstBehind, Served, Reached;
    var r := GotNode(l, client);
    var i := FirstBehind(l.queue.items, Reached(l.queue, client));
    assert forall m :: m in r.held <==> m in l.held || (r != l && m == l.list[i]);
  }

  /** What a call does to the places of a channel: only its last holder takes a packet out of play. */
  lemma CallPlaced<N>(l: Ledger<N>, e: Call<N>, made: map<N, Made>)
    requires Matched(l) && Placed(l) && !e.CreateChannel?
    requires e.PushTo? ==> !Alive(l, e.node)
    requires e.DisposeTo? ==> e.node in l.held && e.node in made
    ensures Placed(OnChannel(l, e, made))
    ensures forall m :: Alive(OnChannel(l, e, made), m) ==> Alive(l, m) || (e.PushTo? && m == e.node)
    ensures !e.DisposeTo? ==> forall m :: Alive(l, m) || (e.PushTo? && m == e.node) ==> Alive(OnChannel(l, e, made), m)
  {
    hide PushedNode, RemovedNode, DisposedNode, GotNode;
    match e
    case PushTo(_, n, p, k, o) => PushPlaced(l, n, p, k, o);
    case RemoveFrom(_, k, o) => RemovePlaced(l, k, o);
    case SubscribeTo(_, client) =>
    case UnsubscribeFrom(_, client) =>
    case GetFrom(_, client) => GetPlaced(l, client);
    case DisposeTo(_, n, client, ok) => DisposePlaced(l, n, made[n].item.position, client, ok);
  }

  /** A call keeps every packet in its place, and only a push brings a packet into play. */
  lemma AfterAccounted<N>(b: Book<N>, e: Call<N>)
    requires Accounted(b) && Possible(b, e)
    ensures Accounted(After(b, e))
    ensures forall n :: n in b.made ==> n in After(b, e).made && After(b, e).made[n] == b.made[n]
    ensures forall n :: InPlay(After(b, e), n) ==> InPlay(b, n) || (e.PushTo? && n == e.node)
    ensures !e.DisposeTo? ==> (forall n :: InPlay(b, n) || (e.PushTo? && n == e.node) ==> InPlay(After(b, e), n))
  {
    hide Matched, Placed, Alive, OnChannel;
    if !e.CreateChannel? {
      var l := b.channels[e.channel];
      if e.PushTo? {
        NotAlive(l, b.made, e.channel, e.node);
      }
      CallPlaced(l, e, b.made);
      CallOwned(b, e);
    } else {
      NewChannelPlaced(After(b, e).channels[|b.channels|], b.made, |b.channels|);
    }
  }

  lemma NotAlive<N>(l: Ledger<N>, made: map<N, Made>, c: nat, n: N)
    requires Owned(l, made, c) && n !in made
    ensures !Alive(l, n)
  {
  }

  lemma NewChannelPlaced<N>(l: Ledger<N>, made: map<N, Made>, c: nat)
    requires l.list == [] && l.held == multiset{} && l.waiting == {} && l.returned == [] && l.queue.items == []
    ensures Matched(l) && Placed(l) && Owned(l, made, c) && forall n :: !Alive(l, n)
  {
  }

  lemma OwnedIf<N>(l: Ledger<N>, made: map<N, Made>, c: nat)
    requires forall n :: Alive(l, n) ==> n in made && made[n].channel == c
    ensures Owned(l, made, c)
  {
    assert forall n :: n in l.list || n in l.waiting || n in l.returned ==> Alive(l, n);
  }

  lemma CallOwned<N>(b: Book<N>, e: Call<N>)
    requires Accounted(b) && Possible(b, e) && !e.CreateChannel?
    requires forall m :: Alive(After(b, e).channels[e.channel], m) ==>
      Alive(b.channels[e.channel], m) || (e.PushTo? && m == e.node)
    ensures forall c :: 0 <= c < |b.channels| ==> Owned(After(b, e).channels[c], After(b, e).made, c)
  {
    hide Placed, OnChannel, Matched;
    var r := After(b, e);
    forall c | 0 <= c < |b.channels| ensures Owned(r.channels[c], r.made, c) {
      forall n | Alive(r.channels[c], n) ensures n in r.made && r.made[n].channel == c {
        assert c == e.channel || r.channels[c] == b.channels[c];
        assert Owned(b.channels[c], b.made, c);
      }
      OwnedIf(r.channels[c], r.made, c);
    }
  }

  // ---------- What goes wrong with a payload ----------

  ghost predicate SamePayload<N>(b: Book<N>, m: N, n: N) {
    m in b.made && n in b.made && b.made[m].item.packet == b.made[n].item.packet
  }

  /** A payload was given to DeleteOutgoingPacket twice. */
  ghost predicate GivenBackTwice<N>(b: Book<N>) {
    exists c, d, i, j ::
      && 0 <= c < |b.channels| && 0 <= d < |b.channels|
      && 0 <= i < |b.channels[c].returned| && 0 <= j < |b.channels[d].returned| && (c != d || i != j)
      && SamePayload(b, b.channels[c].returned[i], b.channels[d].returned[j])
  }

  /** The packets in the list, and those in the hands of clients. */
  ghost function InUse<N>(l: Ledger<N>): multiset<N> {
    multiset(l.list) + l.held
  }

  /** A payload was given to DeleteOutgoingPacket, and a packet that carries it is in a list or held. */
  ghost predicate GivenBackInUse<N>(b: Book<N>) {
    exists c, d, m, n ::
      && 0 <= c < |b.channels| && 0 <= d < |b.channels|
      && m in b.channels[c].returned && n in InUse(b.channels[d]) && SamePayload(b, m, n)
  }

  ghost predicate Misused<N>(b: Book<N>) {
    GivenBackTwice(b) || GivenBackInUse(b)
  }

  /** No packet of any channel that carries the payload is in a list, waits for its last holder or gave it back. */
  ghost predicate IsFresh<N>(b: Book<N>, p: OutgoingPacket) {
    forall n :: n in b.made && InPlay(b, n) ==> b.made[n].item.packet != p
  }

  /** Different packets in play carry different payloads. */
  ghost predicate Unshared<N>(b: Book<N>) {
    forall m, n :: m in b.made && n in b.made && m != n && InPlay(b, m) && InPlay(b, n) ==> !SamePayload(b, m, n)
  }

  ghost predicate AllFresh<N>(b: Book<N>, calls: seq<Call<N>>)
    requires AllMatched(b) && CanRun(b, calls)
    decreases |calls|
  {
    calls == [] ||
    ((calls[0].PushTo? ==> IsFresh(b, calls[0].packet)) && AllFresh(After(b, calls[0]), calls[1..]))
  }

  lemma UnsharedIsFine<N>(b: Book<N>)
    requires Accounted(b) && Unshared(b)
    ensures !Misused(b)
  {
    if c, d, i, j :|
      && 0 <= c < |b.channels| && 0 <= d < |b.channels|
      && 0 <= i < |b.channels[c].returned| && 0 <= j < |b.channels[d].returned| && (c != d || i != j)
      && SamePayload(b, b.channels[c].returned[i], b.channels[d].returned[j])
    {
      ReturnedAreApart(b, c, d, i, j);
    }
    if c, d, m, n :|
      && 0 <= c < |b.channels| && 0 <= d < |b.channels|
      && m in b.channels[c].returned && n in InUse(b.channels[d]) && SamePayload(b, m, n)
    {
      UsedIsApart(b, c, d, m, n);
    }
  }

  lemma ReturnedAreApart<N>(b: Book<N>, c: int, d: int, i: int, j: int)
    requires Accounted(b) && 0 <= c < |b.channels| && 0 <= d < |b.channels|
    requires 0 <= i < |b.channels[c].returned| && 0 <= j < |b.channels[d].returned| && (c != d || i != j)
    ensures var m, n := b.channels[c].returned[i], b.channels[d].returned[j]; m != n && InPlay(b, m) && InPlay(b, n)
  {
    hide Matched;
    var m, n := b.channels[c].returned[i], b.channels[d].returned[j];
    assert Owned(b.channels[c], b.made, c) == Owned(b.channels[d], b.made, d) == true;
    assert m in b.channels[c].returned && n in b.channels[d].returned;
    assert Distinct(b.channels[c].returned);
  }

  lemma UsedIsApart<N>(b: Book<N>, c: int, d: int, m: N, n: N)
    requires Accounted(b) && 0 <= c < |b.channels| && 0 <= d < |b.channels|
    requires m in b.channels[c].returned && n in InUse(b.channels[d])
    ensures m != n && InPlay(b, m) && InPlay(b, n)
  {
    hide Matched;
    assert Owned(b.channels[c], b.made, c) == Owned(b.channels[d], b.made, d) == true;
    assert Placed(b.channels[c]) == Placed(b.channels[d]) == true;
  }

  lemma AfterUnshared<N>(b: Book<N>, e: Call<N>)
    requires Accounted(b) && Possible(b, e) && Unshared(b) && (e.PushTo? ==> IsFresh(b, e.packet))
    ensures Unshared(After(b, e))
  {
    hide Accounted, InPlay, Matched, OnChannel;
    AfterAccounted(b, e);
    var r := After(b, e);
    MadeBy(b, e);
    forall m, n | m in r.made && n in r.made && m != n && InPlay(r, m) && InPlay(r, n)
      ensures !SamePayload(r, m, n)
    {
      assert InPlay(b, m) || InPlay(b, n);
      InPlayIsMade(b, m);
      InPlayIsMade(b, n);
    }
  }

  lemma InPlayIsMade<N>(b: Book<N>, n: N)
    ensures InPlay(b, n) ==> n in b.made
  {
  }

  lemma MadeBy<N>(b: Book<N>, e: Call<N>)
    requires AllMatched(b) && Possible(b, e)
    ensures e.PushTo? ==> e.node in After(b, e).made && After(b, e).made[e.node].item.packet == e.packet
    ensures e.PushTo? ==> After(b, e).made.Keys == b.made.Keys + {e.node}
    ensures !e.PushTo? ==> After(b, e).made == b.made
  {
    hide Matched, OnChannel;
  }

  /** Fresh pushes misuse no payload, whatever else is called. */
  lemma {:induction false} FreshRuns<N>(b: Book<N>, calls: seq<Call<N>>)
    requires AllMatched(b) && Accounted(b) && Unshared(b) && CanRun(b, calls) && AllFresh(b, calls)
    ensures Accounted(Ran(b, calls)) && Unshared(Ran(b, calls)) && !Misused(Ran(b, calls))
    decreases |calls|
  {
    hide Accounted, Unshared, Misused, After, Possible, IsFresh;
    if calls == [] {
      UnsharedIsFine(b);
    } else {
      AfterAccounted(b, calls[0]);
      AfterUnshared(b, calls[0]);
      FreshRuns(After(b, calls[0]), calls[1..]);
    }
  }

  // ---------- And how it comes about ----------

  /** Where the new packet is after its push. */
  lemma PushedWhere<N>(l: Ledger<N>, x: N, p: OutgoingPacket, k: string, o: int)
    requires Matched(l) && x !in l.held
    ensures
      var r := PushedNode(l, x, p, k, o);
      var i := |r.list| - 1;
      r.held == l.held && (x in r.returned || (i >= 0 && r.list[i] == x && r.queue.items[i].killKey == k))
  {
    hide NextPosition;
    var r := PushedNode(l, x, p, k, o);
    if |l.list| + 1 > l.queue.maxPacket && l.list == [] {
      assert r.returned[|l.returned|] == x;
    }
  }

  /** A removal by the key of a packet takes that packet, or one in front of it. */
  lemma RemovedWhere<N>(l: Ledger<N>, i: nat, k: string, o: int)
    requires Matched(l) && i < |l.list| && l.queue.items[i].killKey == k && l.list[i] !in l.held
    ensures
      var r := RemovedNode(l, k, o);
      && r.held == l.held
      && (l.list[i] in r.returned
          || (i > 0 && |r.list| == |l.list| - 1 && r.list[i - 1] == l.list[i] && r.queue.items[i - 1].killKey == k))
  {
    hide FirstMatch;
    var m := FirstMatch(l.queue.items, k, o);
    var r := RemovedNode(l, k, o);
    assert m <= i;
    if m == i {
      assert r.returned[|l.returned|] == l.list[i];
    }
  }

  lemma ReturnedShared<N>(b: Book<N>, c: nat, x: N, n: N)
    requires Accounted(b) && c < |b.channels| && x in b.channels[c].returned
    requires x != n && InPlay(b, n) && SamePayload(b, x, n)
    ensures Misused(b)
  {
    var d := b.made[n].channel;
    assert Placed(b.channels[d]);
    if n in b.channels[d].returned {
      var i :| 0 <= i < |b.channels[c].returned| && b.channels[c].returned[i] == x;
      var j :| 0 <= j < |b.channels[d].returned| && b.channels[d].returned[j] == n;
      assert SamePayload(b, b.channels[c].returned[i], b.channels[d].returned[j]);
    } else {
      assert n in InUse(b.channels[d]);
    }
  }

  /** Removals by the key of a packet give its payload back, while another packet that carries it is still in play. */
  lemma {:induction false} RemovedUntilShared<N>(b: Book<N>, c: nat, i: nat, k: string, o: int, n: N)
    returns (calls: seq<Call<N>>)
    requires Accounted(b) && c < |b.channels| && i < |b.channels[c].list|
    requires b.channels[c].queue.items[i].killKey == k && b.channels[c].list[i] !in b.channels[c].held
    requires b.channels[c].list[i] != n && InPlay(b, n) && SamePayload(b, b.channels[c].list[i], n)
    ensures CanRun(b, calls) && AllFresh(b, calls) && Misused(Ran(b, calls))
    decreases i
  {
    hide Accounted, InPlay, Misused, RemovedNode, Matched;
    var x := b.channels[c].list[i];
    var e: Call<N> := RemoveFrom(c, k, o);
    var r := After(b, e);
    AfterAccounted(b, e);
    RemovedWhere(b.channels[c], i, k, o);
    var rest := [];
    if x in r.channels[c].returned {
      ReturnedShared(r, c, x, n);
    } else {
      rest := RemovedUntilShared(r, c, i - 1, k, o, n);
    }
    calls := [e] + rest;
    assert calls[1..] == rest;
  }

  /** A push of a payload that is in play can be followed by calls that misuse it. */
  lemma SharedPush<N>(b: Book<N>, e: Call<N>) returns (later: seq<Call<N>>)
    requires Accounted(b) && e.PushTo? && Possible(b, e) && !IsFresh(b, e.packet)
    ensures
      var r := After(b, e);
      CanRun(r, later) && AllFresh(r, later) && Misused(Ran(r, later))
  {
    hide Accounted, InPlay, Misused, PushedNode, Matched, NextPosition;
    var n :| n in b.made && InPlay(b, n) && b.made[n].item.packet == e.packet;
    var r := After(b, e);
    AfterAccounted(b, e);
    NotHeld(b, e.channel, e.node);
    PushedWhere(b.channels[e.channel], e.node, e.packet, e.killKey, e.category);
    later := [];
    if e.node in r.channels[e.channel].returned {
      ReturnedShared(r, e.channel, e.node, n);
    } else {
      later := RemovedUntilShared(r, e.channel, |r.channels[e.channel].list| - 1, e.killKey, e.category, n);
    }
  }

  lemma NotHeld<N>(b: Book<N>, c: nat, n: N)
    requires Accounted(b) && c < |b.channels| && n !in b.made
    ensures n !in b.channels[c].held
  {
    assert Placed(b.channels[c]) && Owned(b.channels[c], b.made, c);
  }

  /**
   Exactly which pushes are safe: no packet of any channel of the manager that carries the payload is in a list, waits
   for its last holder or gave it back, if and only if, whatever is called later with fresh payloads, no payload is
   given back twice, or while a packet that carries it is in a list or in the hand of a client.
   */
  lemma FreshPushExactly<N>(b: Book<N>, e: Call<N>)
    requires Accounted(b) && Unshared(b) && e.PushTo? && Possible(b, e)
    ensures
      IsFresh(b, e.packet) <==>
      forall later :: CanRun(After(b, e), later) && AllFresh(After(b, e), later) ==> !Misused(Ran(After(b, e), later))
  {
    hide Accounted, Unshared, Misused, After, Possible, IsFresh;
    if IsFresh(b, e.packet) {
      AfterAccounted(b, e);
      AfterUnshared(b, e);
      forall later | CanRun(After(b, e), later) && AllFresh(After(b, e), later)
        ensures !Misused(Ran(After(b, e), later))
      {
        FreshRuns(After(b, e), later);
      }
    } else {
      var later := SharedPush(b, e);
      assert CanRun(After(b, e), later) && AllFresh(After(b, e), later);
    }
  }

  lemma {:induction false} PrefixFresh<N>(b: Book<N>, calls: seq<Call<N>>, k: nat)
    requires AllMatched(b) && CanRun(b, calls) && AllFresh(b, calls) && k <= |calls|
    ensures CanRun(b, calls[..k]) && AllFresh(b, calls[..k])
    decreases k
  {
    if k > 0 {
      PrefixFresh(After(b, calls[0]), calls[1..], k - 1);
      assert calls[..k][1..] == calls[1..][..k - 1];
    }
  }

  /** The first push of a payload in play, and what misuses it then. */
  lemma {:induction false} FirstSharedPush<N>(b: Book<N>, calls: seq<Call<N>>) returns (k: nat, later: seq<Call<N>>)
    requires Accounted(b) && CanRun(b, calls) && !AllFresh(b, calls)
    ensures k <= |calls| && CanRun(b, calls[..k])
    ensures
      var r := Ran(b, calls[..k]);
      CanRun(r, later) && AllFresh(r, later) && Misused(Ran(r, later))
    decreases |calls|
  {
    hide Accounted, Misused, After, Possible, IsFresh;
    var e := calls[0];
    if e.PushTo? && !IsFresh(b, e.packet) {
      later := SharedPush(b, e);
      k := 1;
      assert calls[..1] == [e] && [e][1..] == [];
      assert CanRun(After(b, e), []) && Ran(After(b, e), []) == After(b, e);
    } else {
      AfterAccounted(b, e);
      k, later := FirstSharedPush(After(b, e), calls[1..]);
      k := k + 1;
      assert calls[..k][1..] == calls[1..][..k - 1];
    }
  }

  /**
   Over all runs of a manager, on all its channels: each push is of a fresh payload if and only if at no time of the
   run a payload is misused, or could be by later calls that push fresh payloads only.
   */
  lemma {:induction false} LifetimesExactly<N>(calls: seq<Call<N>>)
    requires CanRun(NoChannels<N>(), calls)
    ensures
      var b := NoChannels<N>();
      AllFresh(b, calls) <==>
      forall k, later :: 0 <= k <= |calls| && CanRun(b, calls[..k])
        && CanRun(Ran(b, calls[..k]), later) && AllFresh(Ran(b, calls[..k]), later)
        ==> !Misused(Ran(Ran(b, calls[..k]), later))
  {
    hide Accounted, Unshared, Misused, After, Possible, IsFresh, CanRun, Ran, AllFresh;
    var b := NoChannels<N>();
    NothingYet<N>();
    if AllFresh(b, calls) {
      forall k, later | 0 <= k <= |calls| && CanRun(b, calls[..k])
        && CanRun(Ran(b, calls[..k]), later) && AllFresh(Ran(b, calls[..k]), later)
        ensures !Misused(Ran(Ran(b, calls[..k]), later))
      {
        PrefixFresh(b, calls, k);
        FreshRuns(b, calls[..k]);
        FreshRuns(Ran(b, calls[..k]), later);
      }
    } else {
      var k, later := FirstSharedPush(b, calls);
      assert CanRun(Ran(b, calls[..k]), later);
    }
  }

  lemma NothingYet<N>()
    ensures Accounted(NoChannels<N>()) && Unshared(NoChannels<N>())
  {
  }

  // ---------- The payload of a held packet ----------

  /** What becomes of one packet: it leaves its list once, to give its payload back then or never. */
  ghost predicate Moves<N>(l: Ledger<N>, r: Ledger<N>, n: N) {
    && (n in l.returned ==> n in r.returned)
    && (n in l.list && n !in r.list ==> (n in r.returned <==> n !in l.held))
    && (n !in l.list && n !in l.returned ==> n !in r.list && n !in r.returned)
  }

  lemma LeavesMoves<N>(l: Ledger<N>, i: nat, n: N)
    requires Matched(l) && i < |l.list| && (n in l.list ==> n !in l.returned)
    ensures Moves(l, Leaves(l, i), n)
  {
    var r := Leaves(l, i);
    assert l.list == l.list[..i] + [l.list[i]] + l.list[i + 1..];
    assert l.list[i] !in l.held ==> r.returned == l.returned + [l.list[i]];
  }

  lemma CallMoves<N>(l: Ledger<N>, e: Call<N>, made: map<N, Made>, n: N)
    requires Matched(l) && !e.CreateChannel? && (e.DisposeTo? ==> e.node in made)
    requires (n in l.list ==> n !in l.returned) && (e.PushTo? ==> n != e.node)
    ensures Moves(l, OnChannel(l, e, made), n)
  {
    hide FirstMatch, FirstBehind, NextPosition, Leaves, Reached, Served;
    match e
    case PushTo(_, x, p, k, o) =>
      var q := l.queue.(items := l.queue.items + [Item(NextPosition(l.queue.items), p, k, o)]);
      var more := l.(queue := q, list := l.list + [x]);
      assert n in more.list <==> n in l.list;
      if |more.list| > l.queue.maxPacket {
        LeavesMoves(more, 0, n);
      }
    case RemoveFrom(_, k, o) =>
      var i := FirstMatch(l.queue.items, k, o);
      if i < |l.list| {
        LeavesMoves(l, i, n);
      }
    case _ =>
  }

  lemma AfterMoves<N>(b: Book<N>, e: Call<N>, c: nat, n: N)
    requires Accounted(b) && Possible(b, e) && c < |b.channels| && n in b.made
    ensures c < |After(b, e).channels| && Moves(b.channels[c], After(b, e).channels[c], n)
  {
    hide Owned, OnChannel, Matched;
    assert Placed(b.channels[c]);
    if !e.CreateChannel? && e.channel == c {
      CallMoves(b.channels[c], e, b.made, n);
    }
  }

  /** A packet that is neither in its list nor gave its payload back never does. */
  lemma {:induction false} GoneForGood<N>(b: Book<N>, calls: seq<Call<N>>, c: nat, n: N)
    requires Accounted(b) && CanRun(b, calls) && c < |b.channels| && n in b.made
    requires n !in b.channels[c].list && n !in b.channels[c].returned
    ensures c < |Ran(b, calls).channels| && n !in Ran(b, calls).channels[c].returned
    decreases |calls|
  {
    hide Accounted, After, Possible;
    if calls != [] {
      AfterAccounted(b, calls[0]);
      AfterMoves(b, calls[0], c, n);
      GoneForGood(After(b, calls[0]), calls[1..], c, n);
    }
  }

  lemma {:induction false} StaysBack<N>(b: Book<N>, calls: seq<Call<N>>, c: nat, n: N)
    requires Accounted(b) && CanRun(b, calls) && c < |b.channels| && n in b.made && n in b.channels[c].returned
    ensures c < |Ran(b, calls).channels| && n in Ran(b, calls).channels[c].returned
    decreases |calls|
  {
    hide Accounted, After, Possible;
    if calls != [] {
      AfterAccounted(b, calls[0]);
      AfterMoves(b, calls[0], c, n);
      StaysBack(After(b, calls[0]), calls[1..], c, n);
    }
  }

  /**
   A packet that leaves its list gives its payload back, then or in any later run, if and only if nobody held it when it
   left: a payload that is held when its packet leaves the list is never given back.
   */
  lemma {:induction false} GivenBackExactly<N>(b: Book<N>, e: Call<N>, later: seq<Call<N>>, c: nat, n: N)
    requires Accounted(b) && Possible(b, e) && CanRun(After(b, e), later) && c < |b.channels|
    requires c < |After(b, e).channels| && n in b.channels[c].list && n !in After(b, e).channels[c].list
    ensures c < |Ran(After(b, e), later).channels|
    ensures n in Ran(After(b, e), later).channels[c].returned <==> n !in b.channels[c].held
  {
    hide Accounted, Possible, After, CanRun, Ran;
    AfterAccounted(b, e);
    ListIsMade(b, c, n);
    AfterMoves(b, e, c, n);
    if n in b.channels[c].held {
      GoneForGood(After(b, e), later, c, n);
    } else {
      StaysBack(After(b, e), later, c, n);
    }
  }

  lemma ListIsMade<N>(b: Book<N>, c: nat, n: N)
    requires Accounted(b) && c < |b.channels| && n in b.channels[c].list
    ensures n in b.made
  {
    assert Owned(b.channels[c], b.made, c);
  }

  /** Once its last holder gave such a packet back, its payload may be pushed again. */
  lemma FreshAgain<N>(b: Book<N>, e: Call<N>)
    requires Accounted(b) && Unshared(b) && e.DisposeTo? && Possible(b, e)
    requires e.node in b.channels[e.channel].waiting && b.channels[e.channel].held[e.node] == 1
    ensures IsFresh(After(b, e), b.made[e.node].item.packet)
  {
    hide Matched;
    AfterAccounted(b, e);
    var r := After(b, e);
    var x := e.node;
    assert Placed(b.channels[e.channel]) && Owned(b.channels[e.channel], b.made, e.channel);
    assert InPlay(b, x);
    forall n | n in r.made && InPlay(r, n) ensures r.made[n].item.packet != b.made[x].item.packet {
      assert n != x;
      assert !SamePayload(b, n, x);
    }
  }
}
