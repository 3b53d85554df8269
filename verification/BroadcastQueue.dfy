/**
 One broadcast channel: BroadcastQueue.cpp and the packet nodes of PacketInfo.cpp.

 A channel is a bounded doubly linked list of reference-counted packets. Every client remembers the
 position of the last packet that reached it. The state machine on values (`Queue`, `Run`) states what a
 channel promises over whole runs; the class `BroadcastQueue` is proved to follow it step by step.
 */
module BroadcastQueues {

  import opened Options

  class OutgoingPacket {
    constructor () {
    }
  }

  datatype Item = Item(position: int, packet: OutgoingPacket, killKey: string, objectCategory: int)

  /** What a channel promises about: its bound, its packets and the positions its clients have reached. */
  datatype Queue = Queue(maxPacket: nat, requireRegistration: bool, items: seq<Item>, clients: map<string, int>)

  function NextPosition(items: seq<Item>): int {
    if items == [] then 1 else items[|items| - 1].position + 1
  }

  function Pushed(q: Queue, packet: OutgoingPacket, killKey: string, objectCategory: int): Queue {
    var items := q.items + [Item(NextPosition(q.items), packet, killKey, objectCategory)];
    q.(items := if |items| > q.maxPacket then items[1..] else items)
  }

  /** The index of the first item behind the position `after`. */
  function FirstBehind(items: seq<Item>, after: int): (i: nat)
    ensures i <= |items|
    ensures i < |items| ==> items[i].position > after
    ensures forall j :: 0 <= j < i ==> items[j].position <= after
  {
    if items == [] || items[0].position > after then 0 else FirstBehind(items[1..], after) + 1
  }

  function Reached(q: Queue, client: string): int {
    if client in q.clients then q.clients[client] else 0
  }

  lemma {:induction false} FirstBehindIs(items: seq<Item>, after: int, i: nat)
    requires i <= |items| && (forall j :: 0 <= j < i ==> items[j].position <= after)
    requires i < |items| ==> items[i].position > after
    ensures FirstBehind(items, after) == i
  {
    if i > 0 {
      FirstBehindIs(items[1..], after, i - 1);
    }
  }

  predicate Served(q: Queue, client: string) {
    client in q.clients || !q.requireRegistration
  }

  /** The packet that getNextPacket hands out. */
  function Next(q: Queue, client: string): Option<Item> {
    var i := FirstBehind(q.items, Reached(q, client));
    if Served(q, client) && i < |q.items| then Some(q.items[i]) else None
  }

  function Disposed(q: Queue, client: string, position: int, success: bool): Queue {
    if success then q.(clients := q.clients[client := position]) else q
  }

  /** The index of the first item that has the kill key or the category. */
  function FirstMatch(items: seq<Item>, killKey: string, objectCategory: int): (i: nat)
    ensures i <= |items|
    ensures i < |items| ==> items[i].killKey == killKey || items[i].objectCategory == objectCategory
    ensures forall j :: 0 <= j < i ==> items[j].killKey != killKey && items[j].objectCategory != objectCategory
  {
    if items == [] || items[0].killKey == killKey || items[0].objectCategory == objectCategory then 0
    else FirstMatch(items[1..], killKey, objectCategory) + 1
  }

  lemma {:induction false} FirstMatchIs(items: seq<Item>, killKey: string, objectCategory: int, i: nat)
    requires i <= |items|
    requires forall j :: 0 <= j < i ==> items[j].killKey != killKey && items[j].objectCategory != objectCategory
    requires i < |items| ==> items[i].killKey == killKey || items[i].objectCategory == objectCategory
    ensures FirstMatch(items, killKey, objectCategory) == i
  {
    if i > 0 {
      FirstMatchIs(items[1..], killKey, objectCategory, i - 1);
    }
  }

  function Removed(q: Queue, killKey: string, objectCategory: int): Queue {
    var i := FirstMatch(q.items, killKey, objectCategory);
    if i < |q.items| then q.(items := q.items[..i] + q.items[i + 1..]) else q
  }

  // ---------- Whole runs ----------

  datatype Event =
    | Push(packet: OutgoingPacket, killKey: string, objectCategory: int)
    | Remove(killKey: string, objectCategory: int)
    | Subscribe(client: string)
    | Get(client: string)
    | Dispose(client: string, success: bool)

  datatype Delivery = Delivery(client: string, position: int)

  /**
   A channel with its history: all pushes and the positions they got, the packets handed out and not disposed, all
   deliveries.
   */
  datatype Run = Run(
    queue: Queue, pushes: seq<OutgoingPacket>, positions: seq<int>, out: map<string, Item>, delivered: seq<Delivery>)

  function Start(maxPacket: nat, requireRegistration: bool): Run {
    Run(Queue(maxPacket, requireRegistration, [], map[]), [], [], map[], [])
  }

  /** A client subscribes once and has at most one packet in hand. */
  predicate Enabled(r: Run, e: Event) {
    match e
    case Push(_, _, _) => true
    case Remove(_, _) => true
    case Subscribe(c) => c !in r.queue.clients
    case Get(c) => c !in r.out
    case Dispose(c, _) => c in r.out
  }

  function Step(r: Run, e: Event): Run
    requires Enabled(r, e)
  {
    match e
    case Push(p, k, o) =>
      r.(queue := Pushed(r.queue, p, k, o), pushes := r.pushes + [p],
         positions := r.positions + [NextPosition(r.queue.items)])
    case Remove(k, o) => r.(queue := Removed(r.queue, k, o))
    case Subscribe(c) => r.(queue := r.queue.(clients := r.queue.clients[c := 0]))
    case Get(c) =>
      var n := Next(r.queue, c);
      if n.Some? then r.(out := r.out[c := n.value]) else r
    case Dispose(c, ok) =>
      var p := r.out[c].position;
      r.(queue := Disposed(r.queue, c, p, ok), out := r.out - {c},
         delivered := if ok then r.delivered + [Delivery(c, p)] else r.delivered)
  }

  predicate Legal(r: Run, events: seq<Event>)
    decreases |events|
  {
    events == [] || (Enabled(r, events[0]) && Legal(Step(r, events[0]), events[1..]))
  }

  function Replay(r: Run, events: seq<Event>): Run
    requires Legal(r, events)
    decreases |events|
  {
    if events == [] then r else Replay(Step(r, events[0]), events[1..])
  }

  function Min(a: nat, b: nat): nat {
    if a < b then a else b
  }

  /** The channel holds exactly the last pushes, numbered by their ordinals. */
  predicate Window(q: Queue, pushes: seq<OutgoingPacket>) {
    && |q.items| == Min(|pushes|, q.maxPacket)
    && forall i :: 0 <= i < |q.items| ==>
         var ordinal := |pushes| - |q.items| + i + 1;
         q.items[i].position == ordinal && q.items[i].packet == pushes[ordinal - 1]
  }

  /** Every position a client holds or has reached is the ordinal of a push. */
  predicate Cursors(r: Run) {
    && (forall c :: c in r.queue.clients ==> 0 <= r.queue.clients[c] <= |r.pushes|)
    && (forall c :: c in r.out ==>
          && Reached(r.queue, c) < r.out[c].position <= |r.pushes|
          && r.out[c].packet == r.pushes[r.out[c].position - 1])
  }

  predicate InOrderPerClient(r: Run) {
    && (forall i :: 0 <= i < |r.delivered| ==>
          1 <= r.delivered[i].position <= Reached(r.queue, r.delivered[i].client))
    && (forall i, j :: 0 <= i < j < |r.delivered| && r.delivered[i].client == r.delivered[j].client ==>
          r.delivered[i].position < r.delivered[j].position)
  }

  predicate Sound(r: Run) {
    r.queue.maxPacket >= 1 && Window(r.queue, r.pushes) && Cursors(r) && InOrderPerClient(r)
  }

  lemma WindowNext(q: Queue, pushes: seq<OutgoingPacket>, client: string)
    requires q.maxPacket >= 1 && Window(q, pushes) && 0 <= Reached(q, client)
    ensures Next(q, client).Some? <==> Served(q, client) && Reached(q, client) < |pushes|
    ensures Next(q, client).Some? ==>
      var n := Next(q, client).value;
      var head := |pushes| - |q.items| + 1;
      && n.position == (if Reached(q, client) + 1 < head then head else Reached(q, client) + 1)
      && n.position <= |pushes| && n.packet == pushes[n.position - 1]
  {
    var after := Reached(q, client);
    var i := FirstBehind(q.items, after);
    if i < |q.items| {
      assert i > 0 ==> q.items[i - 1].position <= after;
    } else if |q.items| > 0 {
      assert q.items[|q.items| - 1].position <= after;
    }
  }

  lemma WindowNextPosition(q: Queue, pushes: seq<OutgoingPacket>)
    requires q.maxPacket >= 1 && Window(q, pushes)
    ensures NextPosition(q.items) == |pushes| + 1 && |q.items| == Min(|pushes|, q.maxPacket)
  {
    if q.items != [] {
      assert q.items[|q.items| - 1].position == |pushes|;
    }
  }

  /** The packets after a push: the new one behind the others, of which the first leaves when the channel is full. */
  lemma PushedAt(q: Queue, packet: OutgoingPacket, killKey: string, category: int)
    requires q.maxPacket >= 1
    ensures
      var items := Pushed(q, packet, killKey, category).items;
      var drop := |q.items| + 1 - |items|;
      && drop == (if |q.items| + 1 > q.maxPacket then 1 else 0)
      && items != [] && items[|items| - 1] == Item(NextPosition(q.items), packet, killKey, category)
      && forall i :: 0 <= i < |items| - 1 ==> items[i] == q.items[i + drop]
  {
    hide NextPosition;
  }

  lemma PushWindow(q: Queue, pushes: seq<OutgoingPacket>, packet: OutgoingPacket, killKey: string, category: int)
    requires q.maxPacket >= 1 && Window(q, pushes)
    ensures Window(Pushed(q, packet, killKey, category), pushes + [packet])
  {
    hide Pushed, NextPosition;
    WindowNextPosition(q, pushes);
    PushedAt(q, packet, killKey, category);
    PushedBound(q, packet, killKey, category);
    var items := Pushed(q, packet, killKey, category).items;
    var drop := |q.items| + 1 - |items|;
    forall i | 0 <= i < |items|
      ensures items[i].position == |pushes| + 1 - |items| + i + 1
      ensures items[i].packet == (pushes + [packet])[items[i].position - 1]
    {
      if i < |items| - 1 {
        assert items[i] == q.items[i + drop];
      }
    }
  }

  lemma PushedBound(q: Queue, packet: OutgoingPacket, killKey: string, category: int)
    ensures Pushed(q, packet, killKey, category).maxPacket == q.maxPacket
  {
  }

  lemma StepSound(r: Run, e: Event)
    requires Sound(r) && Enabled(r, e) && !e.Remove?
    ensures Sound(Step(r, e)) && Step(r, e).queue.maxPacket == r.queue.maxPacket
  {
    match e
    case Push(p, k, o) => PushSound(r, p, k, o);
    case Subscribe(c) => SubscribeSound(r, c);
    case Get(c) => GetSound(r, c);
    case Dispose(c, ok) => DisposeSound(r, c, ok);
  }

  lemma SubscribeSound(r: Run, c: string)
    requires Sound(r) && c !in r.queue.clients
    ensures Sound(Step(r, Subscribe(c)))
  {
    var r' := Step(r, Subscribe(c));
    forall d: string
      ensures Reached(r'.queue, d) == Reached(r.queue, d)
    {
    }
    assert Window(r'.queue, r'.pushes) == Cursors(r') == InOrderPerClient(r') == true;
  }

  lemma CursorsAreSound(r: Run)
    requires Cursors(r)
    ensures forall c :: Reached(r.queue, c) >= 0
  {
  }

  lemma GetKeeps(r: Run, c: string)
    requires c !in r.out
    ensures
      var r' := Step(r, Get(c));
      && (Window(r.queue, r.pushes) ==> Window(r'.queue, r'.pushes))
      && (InOrderPerClient(r) ==> InOrderPerClient(r'))
  {
  }

  lemma GetSound(r: Run, c: string)
    requires Sound(r) && c !in r.out
    ensures Sound(Step(r, Get(c)))
  {
    hide Window, InOrderPerClient, Next;
    CursorsAreSound(r);
    WindowNext(r.queue, r.pushes, c);
    var r' := Step(r, Get(c));
    GetKeeps(r, c);
    assert Cursors(r') == true;
  }

  lemma PushSound(r: Run, p: OutgoingPacket, k: string, o: int)
    requires Sound(r)
    ensures Sound(Step(r, Push(p, k, o)))
  {
    PushWindow(r.queue, r.pushes, p, k, o);
    var r' := Step(r, Push(p, k, o));
    forall c | c in r'.out
      ensures r'.out[c].position <= |r'.pushes| && r'.out[c].packet == r'.pushes[r'.out[c].position - 1]
    {
      assert r.out[c].packet == r.pushes[r.out[c].position - 1];
    }
  }

  lemma DisposeSound(r: Run, c: string, ok: bool)
    requires Sound(r) && c in r.out
    ensures Sound(Step(r, Dispose(c, ok)))
  {
    var r' := Step(r, Dispose(c, ok));
    forall i, j | 0 <= i < j < |r'.delivered| && r'.delivered[i].client == r'.delivered[j].client
      ensures r'.delivered[i].position < r'.delivered[j].position
    {
      assert r'.delivered[i] == r.delivered[i];
    }
    assert Window(r'.queue, r'.pushes) == Cursors(r') == true;
  }

  predicate NothingRemoved(events: seq<Event>) {
    forall e :: e in events ==> !e.Remove?
  }

  /**
   Over every run without removal by key the channel holds the last pushes, and each client gets packets in order, none
   twice. For runs with removals see PositionsAreFresh.
   */
  lemma {:induction false} RunsSound(r: Run, events: seq<Event>)
    requires Sound(r) && Legal(r, events) && NothingRemoved(events)
    ensures Sound(Replay(r, events)) && Replay(r, events).queue.maxPacket == r.queue.maxPacket
    decreases |events|
  {
    if events != [] {
      StepSound(r, events[0]);
      RunsSound(Step(r, events[0]), events[1..]);
    }
  }

  /**
   What the next get of a client returns after any run: the packet after the one it reached, or the head
   of the channel when that one was evicted. So gaps in a delivery come from eviction only.
   */
  lemma NextAfterRun(maxPacket: nat, requireRegistration: bool, events: seq<Event>, client: string)
    requires maxPacket >= 1 && Legal(Start(maxPacket, requireRegistration), events) && NothingRemoved(events)
    ensures
      var r := Replay(Start(maxPacket, requireRegistration), events);
      var next := Next(r.queue, client);
      var head := |r.pushes| - Min(|r.pushes|, maxPacket) + 1;
      && (next.Some? <==> Served(r.queue, client) && Reached(r.queue, client) < |r.pushes|)
      && (next.Some? ==>
            && next.value.position == (if Reached(r.queue, client) < head then head else Reached(r.queue, client) + 1)
            && 1 <= next.value.position <= |r.pushes|
            && next.value.packet == r.pushes[next.value.position - 1])
  {
    RunsSound(Start(maxPacket, requireRegistration), events);
    var r := Replay(Start(maxPacket, requireRegistration), events);
    WindowNext(r.queue, r.pushes, client);
  }

  function DeliveredTo(delivered: seq<Delivery>, client: string): seq<int> {
    if delivered == [] then []
    else
      var d := delivered[|delivered| - 1];
      DeliveredTo(delivered[..|delivered| - 1], client) + if d.client == client then [d.position] else []
  }

  predicate Counting(s: seq<int>) {
    forall i :: 0 <= i < |s| ==> s[i] == i + 1
  }

  /** Nothing was evicted, and the client has exactly the packets up to the one it reached. */
  predicate Complete(r: Run, client: string) {
    && Counting(DeliveredTo(r.delivered, client))
    && |DeliveredTo(r.delivered, client)| == Reached(r.queue, client)
    && (client in r.out ==> r.out[client].position == Reached(r.queue, client) + 1)
  }

  lemma StepPushes(r: Run, e: Event)
    requires Enabled(r, e)
    ensures |r.pushes| <= |Step(r, e).pushes|
  {
  }

  lemma {:induction false} ReplayPushes(r: Run, events: seq<Event>)
    requires Legal(r, events)
    ensures |r.pushes| <= |Replay(r, events).pushes|
    decreases |events|
  {
    if events != [] {
      ReplayPushes(Step(r, events[0]), events[1..]);
    }
  }

  lemma StepComplete(r: Run, e: Event, client: string)
    requires Sound(r) && Complete(r, client) && Enabled(r, e) && !e.Remove? && |r.pushes| <= r.queue.maxPacket
    ensures Complete(Step(r, e), client)
  {
    match e
    case Push(p, k, o) =>
    case Subscribe(c) =>
    case Get(c) => WindowNext(r.queue, r.pushes, c);
    case Dispose(c, ok) => DisposeComplete(r, c, ok, client);
  }

  lemma DisposeComplete(r: Run, c: string, ok: bool, client: string)
    requires Sound(r) && Complete(r, client) && c in r.out
    ensures Complete(Step(r, Dispose(c, ok)), client)
  {
    hide Sound, DeliveredTo;
    DeliveredMore(r.delivered, Delivery(c, r.out[c].position), client);
  }

  lemma DeliveredMore(delivered: seq<Delivery>, d: Delivery, client: string)
    ensures DeliveredTo(delivered + [d], client)
      == DeliveredTo(delivered, client) + if d.client == client then [d.position] else []
  {
    assert (delivered + [d])[..|delivered|] == delivered;
  }

  /** A channel that never overflows delivers to each client, in order, a prefix of the pushes: no gap, no repeat. */
  lemma {:induction false} NoLossWithoutEviction(r: Run, events: seq<Event>, client: string)
    requires Sound(r) && Complete(r, client) && Legal(r, events) && NothingRemoved(events)
    requires |Replay(r, events).pushes| <= r.queue.maxPacket
    ensures Complete(Replay(r, events), client)
    decreases |events|
  {
    if events != [] {
      ReplayPushes(Step(r, events[0]), events[1..]);
      StepPushes(r, events[0]);
      StepSound(r, events[0]);
      StepComplete(r, events[0], client);
      NoLossWithoutEviction(Step(r, events[0]), events[1..], client);
    }
  }

  // ---------- Removal by key ----------

  predicate Increasing(items: seq<Item>) {
    && (forall i :: 0 <= i < |items| ==> items[i].position >= 1)
    && (forall i, j :: 0 <= i < j < |items| ==> items[i].position < items[j].position)
  }

  /** A client can get the next pushed packet exactly if it has not reached the position the packet will take. */
  lemma PushVisible(q: Queue, packet: OutgoingPacket, killKey: string, objectCategory: int, client: string)
    requires q.maxPacket >= 1 && Increasing(q.items) && Served(q, client)
    ensures Next(Pushed(q, packet, killKey, objectCategory), client).Some?
      <==> Reached(q, client) < NextPosition(q.items)
  {
    var p := Pushed(q, packet, killKey, objectCategory);
    var i := FirstBehind(p.items, Reached(p, client));
    assert p.items[|p.items| - 1].position == NextPosition(q.items);
    if i < |p.items| {
      assert p.items[i].position <= NextPosition(q.items);
    }
  }

  lemma RemovedIncreasing(items: seq<Item>, i: nat)
    requires Increasing(items) && i < |items|
    ensures Increasing(items[..i] + items[i + 1..])
    ensures NextPosition(items[..i] + items[i + 1..]) ==
      if i + 1 < |items| then NextPosition(items) else if i == 0 then 1 else items[i - 1].position + 1
  {
    var rest := items[..i] + items[i + 1..];
    forall j | 0 <= j < |rest|
      ensures rest[j] == if j < i then items[j] else items[j + 1]
    {
    }
  }

  /** Where a client stands once the packet in its hand, if any, is delivered. */
  function Stands(r: Run, client: string): int {
    if client in r.out then r.out[client].position else Reached(r.queue, client)
  }

  /** The client delivers the packet in its hand, if any. */
  function HandDelivered(r: Run, client: string): Run {
    if client in r.out then Step(r, Dispose(client, true)) else r
  }

  lemma StandsThere(r: Run, client: string)
    ensures Reached(HandDelivered(r, client).queue, client) == Stands(r, client)
    ensures HandDelivered(r, client).queue.items == r.queue.items
    ensures client !in HandDelivered(r, client).out
    ensures Served(r.queue, client) ==> Served(HandDelivered(r, client).queue, client)
  {
  }

  /** In the run, the client gets the packet. */
  predicate Gets(r: Run, events: seq<Event>, client: string, x: Item)
    requires Legal(r, events)
    decreases |events|
  {
    events != [] &&
    ((events[0] == Get(client) && Next(r.queue, client) == Some(x)) || Gets(Step(r, events[0]), events[1..], client, x))
  }

  /** A client never gets a packet at a position that it has passed. */
  lemma {:induction false} PassedForGood(r: Run, events: seq<Event>, client: string, x: Item)
    requires Legal(r, events) && 1 <= x.position <= Reached(r.queue, client)
    requires client in r.out ==> x.position <= r.out[client].position
    ensures !Gets(r, events, client, x)
    decreases |events|
  {
    hide Pushed, Removed;
    if events != [] {
      if events[0].Push? || events[0].Remove? {
        ClientsKept(r, events[0]);
      }
      PassedForGood(Step(r, events[0]), events[1..], client, x);
    }
  }

  lemma ClientsKept(r: Run, e: Event)
    requires Enabled(r, e) && (e.Push? || e.Remove?)
    ensures Step(r, e).queue.clients == r.queue.clients && Step(r, e).out == r.out
    ensures Step(r, e).queue.requireRegistration == r.queue.requireRegistration
  {
  }

  /** A client that gets and delivers often enough gets every packet of the channel behind the one it reached. */
  lemma {:induction false} GetsItem(r: Run, client: string, x: Item) returns (events: seq<Event>)
    requires Increasing(r.queue.items) && x in r.queue.items && Reached(r.queue, client) < x.position
    requires Served(r.queue, client) && client !in r.out
    ensures Legal(r, events) && Gets(r, events, client, x)
    decreases x.position - Reached(r.queue, client)
  {
    hide Increasing, Next, Served, Reached, Step, Enabled;
    var get, dispose := Get(client), Dispose(client, true);
    NextUpTo(r.queue, client, x);
    GetAndDeliver(r, client);
    var r1 := Step(r, get);
    if Next(r.queue, client) == Some(x) {
      events := [get];
      assert events[1..] == [] && Legal(r1, []);
    } else {
      var r2 := Step(r1, dispose);
      var rest := GetsItem(r2, client, x);
      events := [get, dispose] + rest;
      assert events[1..] == [dispose] + rest && ([dispose] + rest)[1..] == rest;
      assert Legal(r1, [dispose] + rest) && Gets(r1, [dispose] + rest, client, x);
    }
  }

  lemma GetAndDeliver(r: Run, client: string)
    requires client !in r.out && Next(r.queue, client).Some?
    ensures Enabled(r, Get(client)) && Enabled(Step(r, Get(client)), Dispose(client, true))
    ensures
      var r' := Step(Step(r, Get(client)), Dispose(client, true));
      && r'.queue.items == r.queue.items && client !in r'.out && Served(r'.queue, client)
      && Reached(r'.queue, client) == Next(r.queue, client).value.position
  {
    hide FirstBehind;
  }

  lemma NextUpTo(q: Queue, client: string, x: Item)
    requires Increasing(q.items) && x in q.items && Reached(q, client) < x.position && Served(q, client)
    ensures Next(q, client).Some? && Reached(q, client) < Next(q, client).value.position <= x.position
    ensures Next(q, client).value.position == x.position ==> Next(q, client).value == x
  {
    var j :| 0 <= j < |q.items| && q.items[j] == x;
    var i := FirstBehind(q.items, Reached(q, client));
    assert i <= j;
  }

  /** Where the client and the new packet are after a removal and a push. */
  lemma RemovedAndPushed(r: Run, killKey: string, category: int,
                         packet: OutgoingPacket, killKey': string, category': int, client: string)
    requires r.queue.maxPacket >= 1 && Increasing(r.queue.items) && Served(r.queue, client)
    ensures
      var r' := Step(Step(r, Remove(killKey, category)), Push(packet, killKey', category'));
      var d := HandDelivered(r', client);
      var x := Item(NextPosition(Removed(r.queue, killKey, category).items), packet, killKey', category');
      && Increasing(d.queue.items) && x in d.queue.items && x.position >= 1
      && Served(d.queue, client) && client !in d.out && Reached(d.queue, client) == Stands(r, client)
  {
    hide FirstMatch, FirstBehind, Increasing, NextPosition, Removed, Pushed;
    var q := Removed(r.queue, killKey, category);
    RemovedItems(r.queue, killKey, category);
    RemovedBound(r.queue, killKey, category);
    PushedItems(q, packet, killKey', category');
    PushedAt(q, packet, killKey', category');
    ClientsKept(r, Remove(killKey, category));
    var r1 := Step(r, Remove(killKey, category));
    ClientsKept(r1, Push(packet, killKey', category'));
    StandsThere(Step(r1, Push(packet, killKey', category')), client);
  }

  lemma RemovedBound(q: Queue, killKey: string, category: int)
    ensures Removed(q, killKey, category).maxPacket == q.maxPacket
  {
  }

  /**
   removePacket hides the next push for good from a client that was behind it, also when the client gets the removed
   packet before the removal and delivers it after the push: the client gets the pushed packet in no later run exactly
   when the removed packet was the last one and the client stands at a position that is used again.
   */
  lemma RemovalHidesNextPush(r: Run, killKey: string, category: int,
                             packet: OutgoingPacket, killKey': string, category': int, client: string)
    requires r.queue.maxPacket >= 1 && Increasing(r.queue.items) && Served(r.queue, client)
    requires Stands(r, client) < NextPosition(r.queue.items)
    ensures
      var r' := Step(Step(r, Remove(killKey, category)), Push(packet, killKey', category'));
      var d := HandDelivered(r', client);
      var x := Item(NextPosition(Removed(r.queue, killKey, category).items), packet, killKey', category');
      (forall later :: Legal(d, later) ==> !Gets(d, later, client, x))
      <==> var items := r.queue.items;
           var i := FirstMatch(items, killKey, category);
           && i + 1 == |items|
           && Stands(r, client) >= (if i == 0 then 1 else items[i - 1].position + 1)
  {
    hide FirstMatch, FirstBehind, Increasing, Step, HandDelivered, Served, Next;
    var items := r.queue.items;
    var i := FirstMatch(items, killKey, category);
    if i < |items| {
      RemovedIncreasing(items, i);
    }
    RemovedAndPushed(r, killKey, category, packet, killKey', category', client);
    var d := HandDelivered(Step(Step(r, Remove(killKey, category)), Push(packet, killKey', category')), client);
    var x := Item(NextPosition(Removed(r.queue, killKey, category).items), packet, killKey', category');
    if Reached(d.queue, client) < x.position {
      var later := GetsItem(d, client, x);
      assert i < |items| ==> Removed(r.queue, killKey, category).items == items[..i] + items[i + 1..];
      assert exists later :: Legal(d, later) && Gets(d, later, client, x);
    } else {
      forall later | Legal(d, later) ensures !Gets(d, later, client, x) {
        PassedForGood(d, later, client, x);
      }
    }
  }

  function LosingRun(first: OutgoingPacket, second: OutgoingPacket, client: string): seq<Event> {
    [Push(first, "first", 1), Get(client), Remove("first", 1), Push(second, "second", 2), Dispose(client, true)]
  }

  /** The channel and its history after the first `k` events of that run. */
  function LosingAt(first: OutgoingPacket, second: OutgoingPacket, client: string, k: nat): Run {
    var x, y := Item(1, first, "first", 1), Item(1, second, "second", 2);
    var q := Queue(5, false, if k == 1 || k == 2 then [x] else if k >= 4 then [y] else [],
                   if k >= 5 then map[client := 1] else map[]);
    Run(q, if k == 0 then [] else if k <= 3 then [first] else [first, second],
        if k == 0 then [] else if k <= 3 then [1] else [1, 1],
        if 2 <= k <= 4 then map[client := x] else map[],
        if k >= 5 then [Delivery(client, 1)] else [])
  }

  lemma LosingStep(first: OutgoingPacket, second: OutgoingPacket, client: string, k: nat)
    requires k < 5
    ensures
      var e, r := LosingRun(first, second, client)[k], LosingAt(first, second, client, k);
      Enabled(r, e) && Step(r, e) == LosingAt(first, second, client, k + 1)
  {
    hide FirstMatch, FirstBehind, Next;
    var r := LosingAt(first, second, client, k);
    if k == 1 {
      NextOfOne(r.queue, client);
    } else if k == 2 {
      FirstMatchIs(r.queue.items, "first", 1, 0);
    } else if k == 4 {
      assert r.out - {client} == map[];
    }
  }

  lemma LosingRunEnds(first: OutgoingPacket, second: OutgoingPacket, client: string)
    ensures Legal(Start(5, false), LosingRun(first, second, client))
    ensures Replay(Start(5, false), LosingRun(first, second, client)) == LosingAt(first, second, client, 5)
  {
    hide Enabled, Step, Legal, Replay;
    var events := LosingRun(first, second, client);
    assert Start(5, false) == LosingAt(first, second, client, 0);
    forall k: nat | k < 5
      ensures Enabled(LosingAt(first, second, client, k), events[k])
      ensures Step(LosingAt(first, second, client, k), events[k]) == LosingAt(first, second, client, k + 1)
    {
      LosingStep(first, second, client, k);
    }
    FiveSteps(Start(5, false), events[0], events[1], events[2], events[3], events[4]);
  }

  lemma NextOfOne(q: Queue, client: string)
    requires |q.items| == 1 && q.items[0].position == 1 && !q.requireRegistration && client !in q.clients
    ensures Next(q, client) == Some(q.items[0])
  {
  }

  /** A client misses a packet for good that was pushed behind the one in its hand: both got position 1. */
  lemma RemovalLosesPacket(first: OutgoingPacket, second: OutgoingPacket, client: string)
    ensures
      var events := [Push(first, "first", 1), Get(client), Remove("first", 1), Push(second, "second", 2),
                     Dispose(client, true)];
      && Legal(Start(5, false), events)
      && var end := Replay(Start(5, false), events);
      && end.positions == [1, 1] && end.delivered == [Delivery(client, 1)]
      && end.queue.items == [Item(1, second, "second", 2)]
      && forall later :: Legal(end, later) ==> !Gets(end, later, client, Item(1, second, "second", 2))
  {
    hide Step, Enabled, Replay, Legal, Gets;
    LosingRunEnds(first, second, client);
    var end := Replay(Start(5, false), LosingRun(first, second, client));
    var x := Item(1, second, "second", 2);
    forall later | Legal(end, later) ensures !Gets(end, later, client, x) {
      PassedForGood(end, later, client, x);
    }
  }

  lemma FiveSteps(r: Run, e0: Event, e1: Event, e2: Event, e3: Event, e4: Event)
    requires Enabled(r, e0) && Enabled(Step(r, e0), e1) && Enabled(Step(Step(r, e0), e1), e2)
    requires Enabled(Step(Step(Step(r, e0), e1), e2), e3)
    requires Enabled(Step(Step(Step(Step(r, e0), e1), e2), e3), e4)
    ensures Legal(r, [e0, e1, e2, e3, e4])
    ensures Replay(r, [e0, e1, e2, e3, e4]) == Step(Step(Step(Step(Step(r, e0), e1), e2), e3), e4)
  {
    hide Enabled, Step;
    assert [e0, e1, e2, e3, e4][1..] == [e1, e2, e3, e4] && [e1, e2, e3, e4][1..] == [e2, e3, e4];
    assert [e2, e3, e4][1..] == [e3, e4] && [e3, e4][1..] == [e4] && [e4][1..] == [];
    var r4 := Step(Step(Step(Step(r, e0), e1), e2), e3);
    assert Legal(r4, [e4]) && Replay(r4, [e4]) == Step(r4, e4);
    var r3 := Step(Step(Step(r, e0), e1), e2);
    assert Legal(r3, [e3, e4]) && Replay(r3, [e3, e4]) == Step(r4, e4);
    var r2 := Step(Step(r, e0), e1);
    assert Legal(r2, [e2, e3, e4]) && Replay(r2, [e2, e3, e4]) == Step(r4, e4);
    var r1 := Step(r, e0);
    assert Legal(r1, [e1, e2, e3, e4]) && Replay(r1, [e1, e2, e3, e4]) == Step(r4, e4);
  }

  // ---------- Whole runs with removal by key ----------

  /** Every position but 1 was given behind the one below it. */
  predicate Grown(positions: seq<int>) {
    forall i :: 0 <= i < |positions| ==> positions[i] >= 1 && (positions[i] > 1 ==> positions[i] - 1 in positions[..i])
  }

  /** Every packet has a position that was given to a push. */
  predicate Given(items: seq<Item>, positions: seq<int>) {
    forall x :: x in items ==> x.position in positions
  }

  predicate Hands(r: Run) {
    && (forall c :: c in r.queue.clients ==> r.queue.clients[c] >= 0)
    && (forall c :: c in r.out ==> Reached(r.queue, c) < r.out[c].position)
  }

  /** What every run keeps, also with removals: each client gets increasing positions. */
  predicate Orderly(r: Run) {
    && r.queue.maxPacket >= 1 && Increasing(r.queue.items) && InOrderPerClient(r)
    && Grown(r.positions) && Given(r.queue.items, r.positions) && Hands(r)
  }

  /** A push puts the new packet behind the others, of which the first may leave. */
  lemma PushedItems(q: Queue, packet: OutgoingPacket, killKey: string, category: int)
    requires q.maxPacket >= 1 && Increasing(q.items)
    ensures
      var n := NextPosition(q.items);
      var x := Item(n, packet, killKey, category);
      var items := Pushed(q, packet, killKey, category).items;
      && Increasing(items) && n >= 1 && NextPosition(items) == n + 1
      && (forall y :: y in items ==> y in q.items || y == x)
      && Pushed(q, packet, killKey, category).maxPacket == q.maxPacket
  {
    hide Increasing;
    var x := Item(NextPosition(q.items), packet, killKey, category);
    var all := q.items + [x];
    IncreasingMore(q.items, x);
    IncreasingTail(all);
    assert q.items != [] ==> all[1..][|all| - 2] == x;
  }

  lemma IncreasingMore(items: seq<Item>, x: Item)
    requires Increasing(items) && x.position == NextPosition(items)
    ensures Increasing(items + [x]) && x.position >= 1
  {
    var all := items + [x];
    forall i, j | 0 <= i < j < |all| ensures all[i].position < all[j].position {
      assert all[i] == items[i] && (j < |items| ==> all[j] == items[j]);
      assert i < |items| - 1 ==> items[i].position < items[|items| - 1].position;
    }
    assert forall i :: 0 <= i < |items| ==> all[i] == items[i];
  }

  lemma IncreasingTail(items: seq<Item>)
    requires Increasing(items) && items != []
    ensures Increasing(items[1..])
  {
    assert forall i :: 0 <= i < |items| - 1 ==> items[1..][i] == items[i + 1];
  }

  lemma PushOrderly(r: Run, packet: OutgoingPacket, killKey: string, category: int)
    requires Orderly(r)
    ensures Orderly(Step(r, Push(packet, killKey, category)))
  {
    hide Increasing, Grown, Pushed, InOrderPerClient, Hands;
    var r' := Step(r, Push(packet, killKey, category));
    var n := NextPosition(r.queue.items);
    PushedItems(r.queue, packet, killKey, category);
    LastGiven(r.queue.items, r.positions);
    GrownMore(r.positions, n);
    assert r'.positions[|r.positions|] == n;
    PushedClients(r, packet, killKey, category);
  }

  lemma LastGiven(items: seq<Item>, positions: seq<int>)
    requires Given(items, positions)
    ensures NextPosition(items) > 1 ==> NextPosition(items) - 1 in positions
  {
    if items != [] {
      assert items[|items| - 1] in items;
    }
  }

  /** A push does not concern the clients. */
  lemma PushedClients(r: Run, packet: OutgoingPacket, killKey: string, category: int)
    requires InOrderPerClient(r) && Hands(r)
    ensures InOrderPerClient(Step(r, Push(packet, killKey, category)))
    ensures Hands(Step(r, Push(packet, killKey, category)))
  {
  }

  lemma GrownMore(positions: seq<int>, n: int)
    requires Grown(positions) && n >= 1 && (n > 1 ==> n - 1 in positions)
    ensures Grown(positions + [n])
  {
    var more := positions + [n];
    forall i | 0 <= i < |more| ensures more[i] >= 1 && (more[i] > 1 ==> more[i] - 1 in more[..i]) {
      assert i < |positions| ==> more[..i] == positions[..i] && more[i] == positions[i];
      assert i == |positions| ==> more[..i] == positions;
    }
  }

  lemma RemovedItems(q: Queue, killKey: string, category: int)
    requires Increasing(q.items)
    ensures Increasing(Removed(q, killKey, category).items)
    ensures forall y :: y in Removed(q, killKey, category).items ==> y in q.items
  {
    hide FirstMatch;
    var i := FirstMatch(q.items, killKey, category);
    if i < |q.items| {
      RemovedIncreasing(q.items, i);
    }
  }

  lemma RemoveOrderly(r: Run, killKey: string, category: int)
    requires Orderly(r)
    ensures Orderly(Step(r, Remove(killKey, category)))
  {
    hide Increasing, Grown, Removed, InOrderPerClient, Hands;
    RemovedItems(r.queue, killKey, category);
    RemovedClients(r, killKey, category);
  }

  lemma RemovedClients(r: Run, killKey: string, category: int)
    requires InOrderPerClient(r) && Hands(r)
    ensures InOrderPerClient(Step(r, Remove(killKey, category))) && Hands(Step(r, Remove(killKey, category)))
    ensures Step(r, Remove(killKey, category)).queue.maxPacket == r.queue.maxPacket
  {
  }

  lemma GetOrderly(r: Run, c: string)
    requires Orderly(r) && c !in r.out
    ensures Orderly(Step(r, Get(c)))
  {
    assert InOrderPerClient(Step(r, Get(c))) == Increasing(Step(r, Get(c)).queue.items) == true;
  }

  lemma SubscribeOrderly(r: Run, c: string)
    requires Orderly(r) && c !in r.queue.clients
    ensures Orderly(Step(r, Subscribe(c)))
  {
    var r' := Step(r, Subscribe(c));
    assert forall d: string :: Reached(r'.queue, d) == Reached(r.queue, d);
    assert InOrderPerClient(r') == true;
  }

  lemma DisposeOrderly(r: Run, c: string, ok: bool)
    requires Orderly(r) && c in r.out
    ensures Orderly(Step(r, Dispose(c, ok)))
  {
    var r' := Step(r, Dispose(c, ok));
    forall i, j | 0 <= i < j < |r'.delivered| && r'.delivered[i].client == r'.delivered[j].client
      ensures r'.delivered[i].position < r'.delivered[j].position
    {
      assert r'.delivered[i] == r.delivered[i];
    }
    assert InOrderPerClient(r') == true;
  }

  lemma StepOrderly(r: Run, e: Event)
    requires Orderly(r) && Enabled(r, e)
    ensures Orderly(Step(r, e))
  {
    hide Orderly;
    match e
    case Push(p, k, o) => PushOrderly(r, p, k, o);
    case Remove(k, o) => RemoveOrderly(r, k, o);
    case Subscribe(c) => SubscribeOrderly(r, c);
    case Get(c) => GetOrderly(r, c);
    case Dispose(c, ok) => DisposeOrderly(r, c, ok);
  }

  /** removePacket finds the last packet: p == pTail. */
  predicate TakesTail(r: Run, e: Event) {
    e.Remove? && FirstMatch(r.queue.items, e.killKey, e.objectCategory) + 1 == |r.queue.items|
  }

  /** No removal of the run takes the last packet. */
  predicate KeepsTail(r: Run, events: seq<Event>)
    requires Legal(r, events)
    decreases |events|
  {
    events == [] || (!TakesTail(r, events[0]) && KeepsTail(Step(r, events[0]), events[1..]))
  }

  /** The positions given so far, and the one that the next push gets. */
  function AllPositions(r: Run): seq<int> {
    r.positions + [NextPosition(r.queue.items)]
  }

  predicate Distinct(s: seq<int>) {
    forall i, j :: 0 <= i < j < |s| ==> s[i] != s[j]
  }

  /** At every time of the run, the next push is visible to a client that stands at any position given so far. */
  predicate AlwaysVisible(r: Run, events: seq<Event>)
    requires Legal(r, events)
    decreases |events|
  {
    && (forall i :: 0 <= i < |r.positions| ==> r.positions[i] < NextPosition(r.queue.items))
    && (events == [] || AlwaysVisible(Step(r, events[0]), events[1..]))
  }

  /** The packet is the push whose ordinal its position is. */
  predicate IsPush(x: Item, pushes: seq<OutgoingPacket>) {
    1 <= x.position <= |pushes| && x.packet == pushes[x.position - 1]
  }

  /** The positions are the ordinals of the pushes, and the last packet is the last push. */
  predicate Fresh(r: Run) {
    && |r.positions| == |r.pushes| && NextPosition(r.queue.items) == |r.pushes| + 1
    && (forall i :: 0 <= i < |r.positions| ==> r.positions[i] == i + 1)
    && (forall x :: x in r.queue.items ==> IsPush(x, r.pushes))
  }

  lemma StepFresh(r: Run, e: Event)
    requires Orderly(r) && Fresh(r) && Enabled(r, e) && !TakesTail(r, e)
    ensures Fresh(Step(r, e))
  {
    hide FirstBehind, FirstMatch, Increasing, InOrderPerClient, Grown, Hands, NextPosition;
    match e
    case Push(p, k, o) => PushFresh(r, p, k, o);
    case Remove(k, o) => RemoveFresh(r, k, o);
    case _ =>
  }

  lemma PushFresh(r: Run, p: OutgoingPacket, k: string, o: int)
    requires Orderly(r) && Fresh(r)
    ensures Fresh(Step(r, Push(p, k, o)))
  {
    hide Increasing, InOrderPerClient, Grown, Hands, NextPosition, Given, Pushed;
    PushedItems(r.queue, p, k, o);
    var r' := Step(r, Push(p, k, o));
    forall x | x in r'.queue.items ensures IsPush(x, r'.pushes) {
      assert x in r.queue.items ==> IsPush(x, r.pushes);
    }
  }

  lemma RemoveFresh(r: Run, k: string, o: int)
    requires Orderly(r) && Fresh(r) && !TakesTail(r, Remove(k, o))
    ensures Fresh(Step(r, Remove(k, o)))
  {
    hide FirstMatch, InOrderPerClient, Grown, Hands, Given, IsPush, Increasing, NextPosition;
    RemovedItems(r.queue, k, o);
    var i := FirstMatch(r.queue.items, k, o);
    if i < |r.queue.items| {
      RemovedIncreasing(r.queue.items, i);
    }
  }

  /** All positions below one that was given were given. */
  lemma {:induction false} GrownCovers(positions: seq<int>, i: nat, p: int)
    requires Grown(positions) && i < |positions| && 1 <= p <= positions[i]
    ensures p in positions
    decreases i
  {
    if p < positions[i] {
      var j :| 0 <= j < i && positions[..i][j] == positions[i] - 1;
      GrownCovers(positions, j, p);
    }
  }

  /** A removal of the last packet makes the next push use a position again. */
  lemma TailReused(r: Run, e: Event)
    requires Orderly(r) && Enabled(r, e) && TakesTail(r, e)
    ensures
      var r' := Step(r, e);
      && !Distinct(AllPositions(r'))
      && exists i :: 0 <= i < |r'.positions| && r'.positions[i] >= NextPosition(r'.queue.items)
  {
    hide FirstMatch, InOrderPerClient, Hands, NextPosition, Distinct, AllPositions, Grown, Increasing;
    var items := r.queue.items;
    var k := |items| - 1;
    TailNextPosition(items);
    assert items[k] in items;
    var i :| 0 <= i < |r.positions| && r.positions[i] == items[k].position;
    var r' := Step(r, e);
    assert r'.positions[i] >= NextPosition(r'.queue.items);
    UsedAgain(r', i);
  }

  lemma TailNextPosition(items: seq<Item>)
    requires Increasing(items) && items != []
    ensures var k := |items| - 1; 1 <= NextPosition(items[..k] + items[k + 1..]) <= items[k].position
  {
    var k := |items| - 1;
    RemovedIncreasing(items, k);
    assert k > 0 ==> items[k - 1].position < items[k].position;
  }

  /** A position below one that was given was given; so the next push uses it again. */
  lemma UsedAgain(r: Run, i: nat)
    requires Grown(r.positions) && i < |r.positions| && 1 <= NextPosition(r.queue.items) <= r.positions[i]
    ensures !Distinct(AllPositions(r))
  {
    hide Grown, NextPosition;
    var n := NextPosition(r.queue.items);
    GrownCovers(r.positions, i, n);
    var j :| 0 <= j < |r.positions| && r.positions[j] == n;
    assert AllPositions(r)[j] == AllPositions(r)[|r.positions|];
  }

  /** And that stays so. */
  lemma StillReused(r: Run, e: Event)
    requires Orderly(r) && Enabled(r, e) && !Distinct(AllPositions(r))
    ensures !Distinct(AllPositions(Step(r, e)))
  {
    hide Orderly, NextPosition, Pushed, Removed, Next, Reached;
    var r' := Step(r, e);
    var i, j :| 0 <= i < j < |AllPositions(r)| && AllPositions(r)[i] == AllPositions(r)[j];
    match e
    case Push(p, k, o) =>
      assert AllPositions(r')[i] == AllPositions(r')[j];
    case Remove(k, o) =>
      if j < |r.positions| {
        assert AllPositions(r')[i] == AllPositions(r')[j];
      } else {
        RemoveReused(r, e, i);
      }
    case _ =>
  }

  lemma RemoveReused(r: Run, e: Event, i: nat)
    requires Orderly(r) && e.Remove? && i < |r.positions| && r.positions[i] == NextPosition(r.queue.items)
    ensures !Distinct(AllPositions(Step(r, e)))
  {
    hide FirstMatch, Increasing, InOrderPerClient, Hands, Given, NextPosition, Distinct, AllPositions, Grown;
    var items := r.queue.items;
    var m := FirstMatch(items, e.killKey, e.objectCategory);
    if m < |items| {
      RestNextPosition(items, m);
    }
    NextPositive(items);
    UsedAgain(Step(r, e), i);
  }

  lemma NextPositive(items: seq<Item>)
    requires Increasing(items)
    ensures NextPosition(items) >= 1
  {
  }

  lemma RestNextPosition(items: seq<Item>, i: nat)
    requires Increasing(items) && i < |items|
    ensures 1 <= NextPosition(items[..i] + items[i + 1..]) <= NextPosition(items)
  {
    RemovedIncreasing(items, i);
    assert i > 0 ==> items[i - 1].position < items[|items| - 1].position;
  }

  lemma {:induction false} RunReused(r: Run, events: seq<Event>)
    requires Orderly(r) && Legal(r, events) && !Distinct(AllPositions(r))
    ensures Orderly(Replay(r, events)) && !Distinct(AllPositions(Replay(r, events)))
    decreases |events|
  {
    hide Orderly, Distinct, AllPositions, Step, Enabled;
    if events != [] {
      StepOrderly(r, events[0]);
      StillReused(r, events[0]);
      RunReused(Step(r, events[0]), events[1..]);
    }
  }

  lemma FreshIsDistinct(r: Run)
    requires Fresh(r)
    ensures Distinct(AllPositions(r))
    ensures forall i :: 0 <= i < |r.positions| ==> r.positions[i] < NextPosition(r.queue.items)
  {
  }

  lemma {:induction false} RunFresh(r: Run, events: seq<Event>)
    requires Orderly(r) && Fresh(r) && Legal(r, events)
    ensures
      var end := Replay(r, events);
      && Orderly(end)
      && (KeepsTail(r, events) ==> Fresh(end) && AlwaysVisible(r, events))
      && (!KeepsTail(r, events) ==> !Distinct(AllPositions(end)) && !AlwaysVisible(r, events))
    decreases |events|
  {
    hide Orderly, Fresh, Distinct, AllPositions, Step, Enabled, TakesTail;
    FreshIsDistinct(r);
    if events != [] {
      var r' := Step(r, events[0]);
      StepOrderly(r, events[0]);
      if TakesTail(r, events[0]) {
        TailReused(r, events[0]);
        RunReused(r', events[1..]);
      } else {
        StepFresh(r, events[0]);
        RunFresh(r', events[1..]);
      }
    }
  }

  /**
   Over all runs, with removals: no position is used twice, and at every time the next push is visible to every
   client, wherever it stands, exactly if no removal takes the last packet. Each client gets increasing positions in
   any case.
   */
  lemma PositionsAreFresh(maxPacket: nat, requireRegistration: bool, events: seq<Event>)
    requires maxPacket >= 1 && Legal(Start(maxPacket, requireRegistration), events)
    ensures
      var r0 := Start(maxPacket, requireRegistration);
      var r := Replay(r0, events);
      && (Distinct(AllPositions(r)) <==> KeepsTail(r0, events))
      && (AlwaysVisible(r0, events) <==> KeepsTail(r0, events))
      && InOrderPerClient(r)
  {
    hide Distinct, AllPositions;
    var r0 := Start(maxPacket, requireRegistration);
    RunFresh(r0, events);
    if KeepsTail(r0, events) {
      FreshIsDistinct(Replay(r0, events));
    }
  }

  /** What the next get returns after a run in which no removal takes the last packet: a push behind the last one. */
  lemma NextAfterRemovals(maxPacket: nat, requireRegistration: bool, events: seq<Event>, client: string)
    requires maxPacket >= 1 && Legal(Start(maxPacket, requireRegistration), events)
    requires KeepsTail(Start(maxPacket, requireRegistration), events)
    ensures
      var r := Replay(Start(maxPacket, requireRegistration), events);
      var next := Next(r.queue, client);
      && (next.Some? <==> Served(r.queue, client) && Reached(r.queue, client) < |r.pushes|)
      && (next.Some? ==>
            && Reached(r.queue, client) < next.value.position && 1 <= next.value.position <= |r.pushes|
            && next.value.packet == r.pushes[next.value.position - 1]
            && forall x :: x in r.queue.items && x.position > Reached(r.queue, client)
                 ==> next.value.position <= x.position)
  {
    hide *;
    var r0 := Start(maxPacket, requireRegistration);
    StartOrderly(maxPacket, requireRegistration);
    RunFresh(r0, events);
    NextIfFresh(Replay(r0, events), client);
  }

  lemma StartOrderly(maxPacket: nat, requireRegistration: bool)
    requires maxPacket >= 1
    ensures Orderly(Start(maxPacket, requireRegistration)) && Fresh(Start(maxPacket, requireRegistration))
  {
  }

  lemma NextIfFresh(r: Run, client: string)
    requires Orderly(r) && Fresh(r)
    ensures
      var next := Next(r.queue, client);
      && (next.Some? <==> Served(r.queue, client) && Reached(r.queue, client) < |r.pushes|)
      && (next.Some? ==>
            && Reached(r.queue, client) < next.value.position && 1 <= next.value.position <= |r.pushes|
            && next.value.packet == r.pushes[next.value.position - 1]
            && forall x :: x in r.queue.items && x.position > Reached(r.queue, client)
                 ==> next.value.position <= x.position)
  {
    hide InOrderPerClient, Grown, Given;
    var items, after := r.queue.items, Reached(r.queue, client);
    var i := FirstBehind(items, after);
    assert Reached(r.queue, client) >= 0;
    if i < |items| {
      assert items[i] in items;
      forall x | x in items && x.position > after ensures items[i].position <= x.position {
        var j :| 0 <= j < |items| && items[j] == x;
      }
    } else if items != [] {
      assert items[|items| - 1].position <= after;
    }
  }

  // ---------- Registration ----------

  predicate NeverServed(r: Run, client: string) {
    && client !in r.queue.clients && client !in r.out
    && forall d :: d in r.delivered ==> d.client != client
  }

  lemma StepNeverServed(r: Run, e: Event, client: string)
    requires r.queue.requireRegistration && NeverServed(r, client) && Enabled(r, e) && e != Subscribe(client)
    ensures NeverServed(Step(r, e), client) && Step(r, e).queue.requireRegistration
  {
    hide FirstBehind, FirstMatch, NextPosition;
  }

  lemma {:induction false} RunNeverServed(r: Run, events: seq<Event>, client: string)
    requires r.queue.requireRegistration && NeverServed(r, client) && Legal(r, events) && Subscribe(client) !in events
    ensures NeverServed(Replay(r, events), client) && Replay(r, events).queue.requireRegistration
    decreases |events|
  {
    hide Step, Enabled, NeverServed;
    if events != [] {
      StepNeverServed(r, events[0], client);
      RunNeverServed(Step(r, events[0]), events[1..], client);
    }
  }

  /**
   Over every run of a channel that requires registration: a client that never subscribed has no packet in hand, was
   delivered none, and gets none now.
   */
  lemma OnlySubscribersGet(maxPacket: nat, events: seq<Event>, client: string)
    requires Legal(Start(maxPacket, true), events) && Subscribe(client) !in events
    ensures
      var r := Replay(Start(maxPacket, true), events);
      && client !in r.out && (forall d :: d in r.delivered ==> d.client != client)
      && Next(r.queue, client).None?
  {
    RunNeverServed(Start(maxPacket, true), events, client);
  }

  lemma {:induction false} StaysSubscribed(r: Run, events: seq<Event>, client: string)
    requires Legal(r, events)
    ensures
      var end := Replay(r, events);
      && end.queue.requireRegistration == r.queue.requireRegistration
      && (client in r.queue.clients || Subscribe(client) in events ==> client in end.queue.clients)
    decreases |events|
  {
    if events != [] {
      StaysSubscribed(Step(r, events[0]), events[1..], client);
    }
  }

  /**
   A client that subscribed, or any client of a channel without registration, gets a packet if and only if it has not
   reached the last push, as long as no removal takes the last packet.
   */
  lemma SubscribersGetAll(maxPacket: nat, requireRegistration: bool, events: seq<Event>, client: string)
    requires maxPacket >= 1 && Legal(Start(maxPacket, requireRegistration), events)
    requires KeepsTail(Start(maxPacket, requireRegistration), events)
    requires requireRegistration ==> Subscribe(client) in events
    ensures
      var r := Replay(Start(maxPacket, requireRegistration), events);
      Next(r.queue, client).Some? <==> Reached(r.queue, client) < |r.pushes|
  {
    hide Next, KeepsTail, Legal, Replay;
    StaysSubscribed(Start(maxPacket, requireRegistration), events, client);
    NextAfterRemovals(maxPacket, requireRegistration, events, client);
  }

  // ---------- Where the packets of a channel are ----------

  /**
   A channel with its packet nodes: those in the list, those handed out and not given back, once for each holder, those
   that left the list and wait for their last holder, and those whose payload went to DeleteOutgoingPacket, in order.
   */
  datatype Ledger<N> = Ledger(queue: Queue, list: seq<N>, held: multiset<N>, waiting: set<N>, returned: seq<N>)

  ghost predicate Matched<N>(l: Ledger<N>) {
    |l.list| == |l.queue.items|
  }

  /** InternalRemove of the node at index `i`. */
  ghost function Leaves<N>(l: Ledger<N>, i: nat): (r: Ledger<N>)
    requires Matched(l) && i < |l.list|
    ensures Matched(r)
  {
    var q := l.queue.(items := l.queue.items[..i] + l.queue.items[i + 1..]);
    var rest := l.list[..i] + l.list[i + 1..];
    if l.list[i] in l.held then l.(queue := q, list := rest, waiting := l.waiting + {l.list[i]})
    else l.(queue := q, list := rest, returned := l.returned + [l.list[i]])
  }

  /** pushPacket, which makes the node `n`. */
  ghost function PushedNode<N>(l: Ledger<N>, n: N, packet: OutgoingPacket, killKey: string, category: int)
    : (r: Ledger<N>)
    requires Matched(l)
    ensures Matched(r)
  {
    var items := l.queue.items + [Item(NextPosition(l.queue.items), packet, killKey, category)];
    var more := l.(queue := l.queue.(items := items), list := l.list + [n]);
    if |more.list| > l.queue.maxPacket then Leaves(more, 0) else more
  }

  ghost function RemovedNode<N>(l: Ledger<N>, killKey: string, category: int): (r: Ledger<N>)
    requires Matched(l)
    ensures Matched(r)
  {
    var i := FirstMatch(l.queue.items, killKey, category);
    if i < |l.list| then Leaves(l, i) else l
  }

  ghost function GotNode<N>(l: Ledger<N>, client: string): (r: Ledger<N>)
    requires Matched(l)
    ensures Matched(r)
  {
    var i := FirstBehind(l.queue.items, Reached(l.queue, client));
    if Served(l.queue, client) && i < |l.list| then l.(held := l.held + multiset{l.list[i]}) else l
  }

  /** disposePacket of the node `n`, whose packet has the position given. */
  ghost function DisposedNode<N>(l: Ledger<N>, n: N, position: int, client: string, success: bool): (r: Ledger<N>)
    requires Matched(l)
    ensures Matched(r)
  {
    var held := l.held - multiset{n};
    l.(queue := Disposed(l.queue, client, position, success), held := held,
       waiting := if n in held then l.waiting else l.waiting - {n})
  }

  // ---------- The linked list ----------

  /** A packet of a channel; its constructor links it behind the tail of the list. */
  class PacketInfo {
    const queuePosition: int
    const pPacket: OutgoingPacket
    const killKey: string
    const objectCategory: int
    var refCount: nat
    var bWaitingForRemoval: bool
    var pPrevious: PacketInfo?
    var pNext: PacketInfo?

    constructor (pPacket: OutgoingPacket, killKey: string, objectCategory: int, pPrevious: PacketInfo?)
      modifies (if pPrevious == null then {} else {pPrevious})`pNext
      ensures this.pPacket == pPacket && this.killKey == killKey && this.objectCategory == objectCategory
      ensures this.pPrevious == pPrevious && pNext == null && refCount == 0 && !bWaitingForRemoval
      ensures queuePosition == if pPrevious == null then 1 else pPrevious.queuePosition + 1
      ensures pPrevious != null ==> pPrevious.pNext == this
    {
      this.pPrevious := pPrevious;
      queuePosition := if pPrevious == null then 1 else pPrevious.queuePosition + 1;
      pNext := null;
      this.pPacket := pPacket;
      this.objectCategory := objectCategory;
      this.killKey := killKey;
      refCount := 0;
      bWaitingForRemoval := false;
      new;
      if pPrevious != null {
        pPrevious.pNext := this;
      }
    }
  }

  function ItemOf(p: PacketInfo): Item {
    Item(p.queuePosition, p.pPacket, p.killKey, p.objectCategory)
  }

  function Items(list: seq<PacketInfo>): seq<Item> {
    seq(|list|, i requires 0 <= i < |list| => ItemOf(list[i]))
  }

  function At(list: seq<PacketInfo>, i: int): PacketInfo? {
    if 0 <= i < |list| then list[i] else null
  }

  /** `list` names every element once. */
  predicate Lists(list: seq<PacketInfo>, elements: set<PacketInfo>) {
    if list == [] then elements == {}
    else list[0] in elements && Lists(list[1..], elements - {list[0]})
  }

  lemma {:induction false} ListsSame(list: seq<PacketInfo>, elements: set<PacketInfo>)
    requires Lists(list, elements)
    ensures forall x :: x in list ==> x in elements
    ensures forall x :: x in elements ==> x in list
  {
    if list != [] {
      ListsSame(list[1..], elements - {list[0]});
      assert list == [list[0]] + list[1..];
    }
  }

  lemma {:induction false} ListsOnce(list: seq<PacketInfo>, elements: set<PacketInfo>, i: nat, j: nat)
    requires Lists(list, elements) && i < j < |list|
    ensures list[i] != list[j]
  {
    ListsSame(list[1..], elements - {list[0]});
    if i == 0 {
      assert list[1..][j - 1] == list[j];
    } else {
      ListsOnce(list[1..], elements - {list[0]}, i - 1, j - 1);
    }
  }

  lemma {:induction false} ListsCut(list: seq<PacketInfo>, elements: set<PacketInfo>, i: nat)
    requires Lists(list, elements) && i < |list|
    ensures list[i] in elements && Lists(list[..i] + list[i + 1..], elements - {list[i]})
  {
    var rest := list[..i] + list[i + 1..];
    if i == 0 {
      assert rest == list[1..];
    } else {
      ListsCut(list[1..], elements - {list[0]}, i - 1);
      assert rest[1..] == list[1..][..i - 1] + list[1..][i..];
      assert elements - {list[0]} - {list[i]} == elements - {list[i]} - {list[0]};
    }
  }

  lemma {:induction false} ListsMore(list: seq<PacketInfo>, elements: set<PacketInfo>, x: PacketInfo)
    requires Lists(list, elements) && x !in elements
    ensures Lists(list + [x], elements + {x})
  {
    if list != [] {
      ListsMore(list[1..], elements - {list[0]}, x);
      assert (list + [x])[1..] == list[1..] + [x];
      assert elements + {x} - {list[0]} == elements - {list[0]} + {x};
    } else {
      assert Lists([x][1..], {x} - {x});
    }
  }

  lemma SameIndex(list: seq<PacketInfo>, i: int, j: int)
    requires Increasing(Items(list)) && 0 <= i < |list| && 0 <= j < |list|
    ensures list[i] == list[j] ==> i == j
  {
    assert Items(list)[i].position == list[i].queuePosition;
    assert Items(list)[j].position == list[j].queuePosition;
  }

  lemma ItemsCut(list: seq<PacketInfo>, i: nat)
    requires Increasing(Items(list)) && i < |list|
    ensures Items(list[..i] + list[i + 1..]) == Items(list)[..i] + Items(list)[i + 1..]
    ensures Increasing(Items(list[..i] + list[i + 1..]))
  {
    var rest := list[..i] + list[i + 1..];
    assert Items(rest) == Items(list)[..i] + Items(list)[i + 1..];
    RemovedIncreasing(Items(list), i);
  }

  class BroadcastQueue {
    const maxPacket: nat
    const requireRegistration: bool
    var removedList: seq<PacketInfo>
    var pHead: PacketInfo?
    var pTail: PacketInfo?
    var nPackets: int
    var clientMap: map<string, int>

    /** The live packets from head to tail. */
    ghost var list: seq<PacketInfo>
    ghost var live: set<PacketInfo>
    /** The elements of `removedList`. */
    ghost var waiting: set<PacketInfo>
    /** The packets handed out by getNextPacket and not yet given back by disposePacket. */
    ghost var held: multiset<PacketInfo>
    /** The deleted packet nodes. */
    ghost var freed: set<PacketInfo>
    /** The packets that were held when they left the list. */
    ghost var parked: set<PacketInfo>
    /** The packets whose payload went to DeleteOutgoingPacket, in the order of these calls. */
    ghost var returned: seq<PacketInfo>
    /** All packets there ever were, one for each push, in order. */
    ghost var made: seq<PacketInfo>

    ghost predicate LinkedAt(i: int)
      reads this, list
    {
      0 <= i < |list| ==> list[i].pNext == At(list, i + 1) && list[i].pPrevious == At(list, i - 1)
    }

    ghost predicate Linked()
      reads this, list
    {
      && nPackets == |list| && pHead == At(list, 0) && pTail == At(list, |list| - 1)
      && Increasing(Items(list))
      && forall i {:trigger LinkedAt(i)} :: 0 <= i < |list| ==> LinkedAt(i)
    }

    /** Of a packet that is not deleted: its reference count, and whether it waits for its last holder. */
    ghost predicate Tracked(x: PacketInfo)
      reads this, x
    {
      && x.refCount == held[x] && x !in freed
      && (x.bWaitingForRemoval <==> x in waiting) && (x in parked <==> x in waiting)
      && (x in waiting ==> x.refCount > 0 && x !in live)
    }

    /** Where every packet is: live, waiting for its last holder, or deleted, with its payload or without. */
    ghost predicate Booked()
      reads this
    {
      && Lists(list, live) && Lists(removedList, waiting)
      && (forall x {:trigger held[x]} :: x in held ==> x in live || x in waiting)
      && parked <= waiting + freed
      && Lists(returned, freed - parked)
    }

    ghost predicate Counted()
      reads this, live, waiting
    {
      Booked() && forall x {:trigger Tracked(x)} :: x in live + waiting ==> Tracked(x)
    }

    ghost predicate Known()
      reads this
    {
      && (forall x :: x in live ==> x in made) && (forall x :: x in waiting ==> x in made)
      && (forall x :: x in freed ==> x in made)
    }

    ghost predicate Valid()
      reads this, list, live, waiting
    {
      Linked() && Counted() && Known() && nPackets <= maxPacket
    }

    /** What the channel promises, on values. */
    ghost function State(): Queue
      reads this
    {
      Queue(maxPacket, requireRegistration, Items(list), clientMap)
    }

    /** And where its packets are. */
    ghost function Book(): (l: Ledger<PacketInfo>)
      reads this
      ensures Matched(l)
    {
      Ledger(State(), list, held, waiting, returned)
    }

    constructor (maxPacket: nat, requireRegistration: bool)
      ensures Valid() && State() == Queue(maxPacket, requireRegistration, [], map[])
      ensures live == {} && made == [] && Book() == Ledger(State(), [], multiset{}, {}, [])
    {
      this.maxPacket := maxPacket;
      this.requireRegistration := requireRegistration;
      removedList, pHead, pTail, nPackets, clientMap := [], null, null, 0, map[];
      list, live, waiting, held, freed, parked, returned, made := [], {}, {}, multiset{}, {}, {}, [], [];
    }

    /**
     A held packet is not deleted. A payload goes to DeleteOutgoingPacket at most once, after its packet is
     deleted, and it goes there exactly if nobody held the packet when it left the list.
     */
    lemma Lifetimes()
      requires Valid()
      ensures forall x :: x in held ==> x in live + waiting && x !in freed && x !in returned
      ensures forall x :: x in returned ==> x in freed && x !in parked
      ensures forall x :: x in freed && x !in parked ==> x in returned
      ensures forall i, j :: 0 <= i < j < |returned| ==> returned[i] != returned[j]
    {
      ListsSame(returned, freed - parked);
      forall x | x in held
        ensures x in live + waiting && x !in freed
      {
        assert Tracked(x) == true;
      }
      forall i, j | 0 <= i < j < |returned|
        ensures returned[i] != returned[j]
      {
        ListsOnce(returned, freed - parked, i, j);
      }
    }

    /**
     If no payload is pushed twice, none is given back twice, or while a packet that carries it is in the list or is
     held.
     */
    lemma PayloadLifetimes()
      requires Valid() && forall i, j :: 0 <= i < j < |made| ==> made[i].pPacket != made[j].pPacket
      ensures forall i, j :: 0 <= i < j < |returned| ==> returned[i].pPacket != returned[j].pPacket
      ensures forall i, x :: 0 <= i < |returned| && (x in held || x in live) ==> returned[i].pPacket != x.pPacket
    {
      Lifetimes();
      forall i, j | 0 <= i < j < |returned|
        ensures returned[i].pPacket != returned[j].pPacket
      {
        assert returned[i] in returned && returned[j] in returned;
        OnePayload(returned[i], returned[j]);
      }
      forall i, x | 0 <= i < |returned| && (x in held || x in live)
        ensures returned[i].pPacket != x.pPacket
      {
        assert returned[i] in returned;
        assert x in live ==> Tracked(x);
        OnePayload(returned[i], x);
      }
    }

    lemma OnePayload(x: PacketInfo, y: PacketInfo)
      requires forall i, j :: 0 <= i < j < |made| ==> made[i].pPacket != made[j].pPacket
      requires x in made && y in made && x != y
      ensures x.pPacket != y.pPacket
    {
      var i :| 0 <= i < |made| && made[i] == x;
      var j :| 0 <= j < |made| && made[j] == y;
    }

    /** Only clients, counts and marks changed. */
    twostate lemma StillLinked()
      requires old(Linked()) && list == old(list) && nPackets == old(nPackets)
      requires pHead == old(pHead) && pTail == old(pTail)
      requires forall x :: x in list ==> x.pNext == old(x.pNext) && x.pPrevious == old(x.pPrevious)
      ensures Linked() == true
    {
      forall i | 0 <= i < |list|
        ensures LinkedAt(i) == true
      {
        assert old(LinkedAt(i)) == true;
      }
    }

    /** Only the counts, the mark and the place of `p` changed. */
    twostate lemma StillTracked(new p: PacketInfo)
      requires old(Counted()) && Booked() && (p in live + waiting ==> Tracked(p))
      requires live - {p} == old(live) - {p} && waiting - {p} == old(waiting) - {p}
      requires freed - {p} == old(freed) - {p} && parked - {p} == old(parked) - {p}
      requires forall x :: x in old(live) + old(waiting) && x != p ==>
        && x.refCount == old(x.refCount) && x.bWaitingForRemoval == old(x.bWaitingForRemoval)
        && held[x] == old(held)[x]
      ensures Counted() == true
    {
      forall x | x in live + waiting
        ensures Tracked(x) == true
      {
        if x != p {
          assert x in live - {p} || x in waiting - {p};
          assert old(Tracked(x)) == true;
          assert x in live <==> x in live - {p};
          assert x in waiting <==> x in waiting - {p};
          assert x in freed <==> x in freed - {p};
          assert x in parked <==> x in parked - {p};
        }
      }
    }

    /** No packet but those that there were. */
    twostate lemma StillKnown()
      requires old(Known()) && made == old(made)
      requires live <= old(live) && waiting <= old(live) + old(waiting)
      requires freed <= old(freed) + old(live) + old(waiting)
      ensures Known() == true
    {
    }

    /** `delete pPacketInfo`: only once, and never while somebody holds it. */
    ghost method Free(p: PacketInfo)
      requires p !in freed && held[p] == 0
      modifies this`freed
      ensures freed == old(freed) + {p}
    {
      freed := freed + {p};
    }

    /** Takes a packet out of the list; it is deleted at once, or waits for its last holder. */
    method InternalRemove(p: PacketInfo, ghost i: nat)
      requires Linked() && Counted() && i < |list| && list[i] == p
      modifies this, live
      ensures Linked() == Counted() == true && list == old(list)[..i] + old(list)[i + 1..]
      ensures clientMap == old(clientMap) && held == old(held) && nPackets == old(nPackets) - 1 && made == old(made)
      ensures p in old(live)
      ensures live == old(live) - {p} && waiting == (if p in held then old(waiting) + {p} else old(waiting))
      ensures freed == if p in held then old(freed) else old(freed) + {p}
      ensures returned == if p in held then old(returned) else old(returned) + [p]
    {
      hide Lists, Increasing, Linked, LinkedAt;
      ListsCut(list, live, i);
      assert Tracked(p) == true;
      Detach(p, i);
      label Detached:
      Park(p);
      StillLinked@Detached();
      StillTracked(p);
    }

    method Detach(p: PacketInfo, ghost i: nat)
      requires Linked() && Lists(list, live) && i < |list| && list[i] == p
      modifies this`list, this`live, this`pHead, this`pTail, this`nPackets, live`pNext, live`pPrevious
      ensures Linked() == true && list == old(list)[..i] + old(list)[i + 1..] && nPackets == old(nPackets) - 1
      ensures live == old(live) - {p} && Lists(list, live)
    {
      ListsSame(list, live);
      ListsCut(list, live, i);
      Unlink(p, i);
      label Unlinked:
      live := live - {p};
      StillLinked@Unlinked();
    }

    /** Takes `p` out of the linked list. */
    method Unlink(p: PacketInfo, ghost i: nat)
      requires Linked() && i < |list| && list[i] == p
      modifies this`list, this`pHead, this`pTail, this`nPackets, list`pNext, list`pPrevious
      ensures Linked() == true && list == old(list)[..i] + old(list)[i + 1..] && nPackets == old(nPackets) - 1
    {
      assert LinkedAt(i) == true;
      SameIndex(list, i, 0);
      SameIndex(list, i, |list| - 1);
      if p.pNext != null {
        p.pNext.pPrevious := p.pPrevious;
      }
      if p.pPrevious != null {
        p.pPrevious.pNext := p.pNext;
      }
      if p == pHead {
        pHead := p.pNext;
      }
      if p == pTail {
        pTail := p.pPrevious;
      }
      nPackets := nPackets - 1;
      list := list[..i] + list[i + 1..];
      Unlinked(i);
    }

    /** The links around the packet at `i` were closed. */
    twostate lemma Unlinked(i: nat)
      requires old(Linked()) && i < |old(list)| && list == old(list)[..i] + old(list)[i + 1..]
      requires nPackets == old(nPackets) - 1
      requires pHead == if i == 0 then At(old(list), 1) else old(pHead)
      requires pTail == if i + 1 == |old(list)| then At(old(list), i - 1) else old(pTail)
      requires forall x :: x in old(list) ==>
        x.pNext == if x == At(old(list), i - 1) then At(old(list), i + 1) else old(x.pNext)
      requires forall x :: x in old(list) ==>
        x.pPrevious == if x == At(old(list), i + 1) then At(old(list), i - 1) else old(x.pPrevious)
      ensures Linked() == true
    {
      ghost var was := old(list);
      ItemsCut(was, i);
      forall j | 0 <= j < |list|
        ensures LinkedAt(j) == true
      {
        var k := if j < i then j else j + 1;
        assert old(LinkedAt(k)) == true;
        assert list[j] == was[k] && was[k] in was;
        if i > 0 {
          SameIndex(was, k, i - 1);
        }
        if i + 1 < |was| {
          SameIndex(was, k, i + 1);
        }
      }
    }

    /** The end of InternalRemove. */
    method Park(p: PacketInfo)
      requires Lists(removedList, waiting) && Lists(returned, freed - parked) && parked <= waiting + freed
      requires p !in waiting && p !in parked && p !in freed && p.refCount == held[p]
      modifies this`removedList, this`waiting, this`freed, this`parked, this`returned, p`bWaitingForRemoval
      ensures Lists(removedList, waiting) && Lists(returned, freed - parked) && parked <= waiting + freed
      ensures waiting == if p in held then old(waiting) + {p} else old(waiting)
      ensures parked == if p in held then old(parked) + {p} else old(parked)
      ensures freed == if p in held then old(freed) else old(freed) + {p}
      ensures returned == if p in held then old(returned) else old(returned) + [p]
      ensures p in held ==> p.bWaitingForRemoval
    {
      if p.refCount == 0 {
        ListsMore(returned, freed - parked, p);
        returned := returned + [p];
        Free(p);
        assert freed - parked == old(freed) - old(parked) + {p};
      } else {
        ListsMore(removedList, waiting, p);
        removedList := removedList + [p];
        p.bWaitingForRemoval := true;
        waiting := waiting + {p};
        parked := parked + {p};
        assert freed - parked == old(freed) - old(parked);
      }
    }

    /** Links a new packet behind the tail. */
    method Attach(pPacket: OutgoingPacket, killKey: string, objectCategory: int) returns (p: PacketInfo)
      requires Linked()
      modifies this`list, this`pHead, this`pTail, this`nPackets, list`pNext
      ensures Linked() == true && list == old(list) + [p] && fresh(p) && p.refCount == 0 && !p.bWaitingForRemoval
      ensures ItemOf(p) == Item(NextPosition(old(Items(list))), pPacket, killKey, objectCategory)
      ensures Items(list) == old(Items(list)) + [ItemOf(p)]
    {
      if list != [] {
        assert LinkedAt(|list| - 1) == true;
        assert Items(list)[|list| - 1].position == list[|list| - 1].queuePosition;
      }
      p := new PacketInfo(pPacket, killKey, objectCategory, pTail);
      pTail := p;
      if pHead == null {
        pHead := p;
      }
      nPackets := nPackets + 1;
      list := list + [p];
      Appended(p);
    }

    method Append(pPacket: OutgoingPacket, killKey: string, objectCategory: int) returns (ghost p: PacketInfo)
      requires Linked() && Counted() && Known()
      modifies this`list, this`live, this`made, this`pHead, this`pTail, this`nPackets, live`pNext
      ensures Linked() == Counted() == Known() == true && fresh(live - old(live)) && old(live) <= live
      ensures fresh(p) && p.pPacket == pPacket && list == old(list) + [p] && made == old(made) + [p]
      ensures Items(list) ==
        old(Items(list)) + [Item(NextPosition(old(Items(list))), pPacket, killKey, objectCategory)]
    {
      ListsSame(list, live);
      p := Attach(pPacket, killKey, objectCategory);
      label Attached:
      ListsMore(old(list), live, p);
      live, made := live + {p}, made + [p];
      StillLinked@Attached();
      StillTracked(p);
    }

    /** A packet was linked behind the old tail. */
    twostate lemma Appended(new p: PacketInfo)
      requires old(Linked()) && list == old(list) + [p] && nPackets == old(nPackets) + 1
      requires pTail == p && pHead == (if old(list) == [] then p else old(pHead)) && p !in old(list)
      requires p.queuePosition == NextPosition(Items(old(list))) && p.pPrevious == old(pTail) && p.pNext == null
      requires forall x :: x in old(list) ==>
        x.pPrevious == old(x.pPrevious) && x.pNext == if x == old(pTail) then p else old(x.pNext)
      ensures Linked() == true && Items(list) == Items(old(list)) + [ItemOf(p)]
    {
      ghost var was := old(list);
      assert Items(list) == Items(was) + [ItemOf(p)];
      forall j | 0 <= j < |list|
        ensures LinkedAt(j) == true
      {
        if j < |was| {
          assert old(LinkedAt(j)) == true;
          assert list[j] == was[j] && was[j] in was;
          SameIndex(was, j, |was| - 1);
        }
      }
    }

    method PushPacket(pPacket: OutgoingPacket, killKey: string, objectCategory: int)
      requires Valid()
      modifies this, live
      ensures Valid() && State() == Pushed(old(State()), pPacket, killKey, objectCategory)
      ensures held == old(held) && fresh(live + waiting - old(live) - old(waiting))
      ensures |made| == |old(made)| + 1 && made[..|old(made)|] == old(made) && made[|old(made)|].pPacket == pPacket
      ensures fresh(made[|old(made)|])
      ensures Book() == PushedNode(old(Book()), made[|old(made)|], pPacket, killKey, objectCategory)
      ensures
        var all := old(list) + [made[|old(made)|]];
        if |all| <= maxPacket then list == all && returned == old(returned)
        else list == all[1..] && returned == old(returned) + if all[0] in held then [] else [all[0]]
    {
      hide Counted, Known, Increasing, Leaves, NextPosition;
      ghost var p := Append(pPacket, killKey, objectCategory);
      if nPackets > maxPacket {
        EvictHead();
      }
    }

    /** The packet at index `i` left the list. */
    twostate lemma BookLeaves(i: nat)
      requires i < |old(list)| && list == old(list)[..i] + old(list)[i + 1..] && Increasing(Items(old(list)))
      requires clientMap == old(clientMap) && held == old(held)
      requires
        var p := old(list)[i];
        && waiting == (if p in held then old(waiting) + {p} else old(waiting))
        && returned == if p in held then old(returned) else old(returned) + [p]
      ensures Book() == Leaves(old(Book()), i)
    {
      ItemsCut(old(list), i);
    }

    /** InternalRemove of a packet of a channel. */
    method TakeOut(p: PacketInfo, ghost i: nat)
      requires Linked() && Counted() && Known() && i < |list| && list[i] == p && nPackets <= maxPacket + 1
      modifies this, live
      ensures Valid() && Book() == Leaves(old(Book()), i)
      ensures made == old(made) && live + waiting <= old(live) + old(waiting)
    {
      hide Known, Leaves, Lists, Increasing, Booked, Counted, LinkedAt;
      ItemsCut(list, i);
      InternalRemove(p, i);
      BookLeaves(i);
      StillKnown();
    }

    method EvictHead()
      requires Linked() && Counted() && Known() && nPackets == maxPacket + 1
      modifies this, live
      ensures Valid() && Items(list) == old(Items(list))[1..] && made == old(made) && list == old(list)[1..]
      ensures returned == old(returned) + if old(list)[0] in held then [] else [old(list)[0]]
      ensures held == old(held) && clientMap == old(clientMap) && live + waiting <= old(live) + old(waiting)
      ensures Book() == Leaves(old(Book()), 0)
    {
      hide Known, Increasing, Booked, Counted;
      TakeOut(pHead, 0);
    }

    method RemovePacket(killKey: string, objectCategory: int)
      requires Valid()
      modifies this, live
      ensures Valid() && State() == Removed(old(State()), killKey, objectCategory)
      ensures held == old(held) && live + waiting <= old(live) + old(waiting) && made == old(made)
      ensures
        var i := FirstMatch(Items(old(list)), killKey, objectCategory);
        returned == old(returned) + if i < |old(list)| && old(list)[i] !in held then [old(list)[i]] else []
      ensures Book() == RemovedNode(old(Book()), killKey, objectCategory)
    {
      hide Known, Counted, FirstMatch, Increasing;
      var p := pHead;
      ghost var i := 0;
      while p != null && p.killKey != killKey && p.objectCategory != objectCategory
        invariant 0 <= i <= |list| && p == At(list, i)
        invariant forall j :: 0 <= j < i ==>
          Items(list)[j].killKey != killKey && Items(list)[j].objectCategory != objectCategory
        decreases |list| - i
      {
        assert LinkedAt(i) == true;
        p := p.pNext;
        i := i + 1;
      }
      FirstMatchIs(Items(list), killKey, objectCategory, i);
      if p != null {
        TakeOut(p, i);
      }
    }

    method SubscribeClient(clientKey: string)
      requires Valid()
      modifies this`clientMap
      ensures Valid() && State() == old(State()).(clients := old(clientMap)[clientKey := 0])
    {
      clientMap := clientMap[clientKey := 0];
      StillValid();
    }

    method UnsubscribeClient(clientKey: string)
      requires Valid()
      modifies this`clientMap
      ensures Valid() && State() == old(State()).(clients := old(clientMap) - {clientKey})
    {
      if clientKey in clientMap {
        clientMap := clientMap - {clientKey};
      }
      StillValid();
    }

    /** Only the client map changed. */
    twostate lemma StillValid()
      requires old(Valid())
      requires list == old(list) && removedList == old(removedList) && nPackets == old(nPackets)
      requires pHead == old(pHead) && pTail == old(pTail)
      requires live == old(live) && waiting == old(waiting) && held == old(held)
      requires freed == old(freed) && parked == old(parked) && returned == old(returned) && made == old(made)
      requires (forall x :: x in live ==> unchanged(x)) && (forall x :: x in waiting ==> unchanged(x))
      ensures Valid() == true
    {
      ListsSame(list, live);
      StillLinked();
      forall x | x in live + waiting
        ensures Tracked(x) == true
      {
        assert old(Tracked(x)) == true;
      }
    }

    method GetNextPacket(clientKey: string) returns (packet: OutgoingPacket?, info: PacketInfo?)
      requires Valid()
      modifies this`held, live`refCount
      ensures Valid() && State() == old(State())
      ensures packet == null <==> Next(State(), clientKey).None?
      ensures Book() == GotNode(old(Book()), clientKey)
      ensures packet == null ==>
        info == null && held == old(held) && forall x :: x in live ==> x.refCount == old(x.refCount)
      ensures packet != null ==>
        && info in live && packet == info.pPacket && Next(State(), clientKey) == Some(ItemOf(info))
        && held == old(held) + multiset{info}
        && forall x :: x in live && x != info ==> x.refCount == old(x.refCount)
    {
      hide Known, Increasing, Lists, FirstBehind;
      if clientKey !in clientMap && requireRegistration {
        return null, null;
      }
      var previouslyInsertedId := 0;
      if clientKey in clientMap {
        previouslyInsertedId := clientMap[clientKey];
      }
      info := pHead;
      ghost var i := 0;
      while info != null && info.queuePosition <= previouslyInsertedId
        invariant 0 <= i <= |list| && info == At(list, i)
        invariant forall j :: 0 <= j < i ==> Items(list)[j].position <= previouslyInsertedId
        decreases |list| - i
      {
        assert LinkedAt(i) == true;
        info := info.pNext;
        i := i + 1;
      }
      FirstBehindIs(Items(list), previouslyInsertedId, i);
      ListsSame(list, live);
      if info != null {
        Hold(info);
        return info.pPacket, info;
      }
      return null, null;
    }

    /** Counts a new holder of `p`. */
    method Hold(p: PacketInfo)
      requires Valid() && p in live
      modifies this`held, p`refCount
      ensures Valid() && held == old(held) + multiset{p}
    {
      hide Known, Lists;
      assert Tracked(p) == true;
      ListsSame(list, live);
      p.refCount := p.refCount + 1;
      held := held + multiset{p};
      StillLinked();
      StillTracked(p);
      StillKnown();
    }

    method DisposePacket(p: PacketInfo, clientKey: string, success: bool)
      requires Valid() && p in held
      modifies this, p`refCount
      ensures Valid() && list == old(list) && live + waiting <= old(live) + old(waiting)
      ensures State() == Disposed(old(State()), clientKey, p.queuePosition, success)
      ensures held == old(held) - multiset{p} && returned == old(returned) && made == old(made)
      ensures Book() == DisposedNode(old(Book()), p, p.queuePosition, clientKey, success)
      ensures freed == if p in old(waiting) && p !in held then old(freed) + {p} else old(freed)
    {
      if success {
        clientMap := clientMap[clientKey := p.queuePosition];
        StillValid();
      }
      GiveBack(p);
    }

    /** The reference count goes down before anything else looks at it. */
    method GiveBack(p: PacketInfo)
      requires Valid() && p in held
      modifies this`held, this`removedList, this`waiting, this`freed, p`refCount
      ensures Valid() == true && held == old(held) - multiset{p}
      ensures waiting == if p in held then old(waiting) else old(waiting) - {p}
      ensures freed == if p in old(waiting) && p !in held then old(freed) + {p} else old(freed)
    {
      hide Known, Lists, Increasing, LinkedAt;
      assert Tracked(p) == true;
      ListsSame(list, live);
      Release(p);
      StillLinked();
      StillTracked(p);
      StillKnown();
    }

    /** One holder less: the last one deletes a packet that waits for removal. */
    method Release(p: PacketInfo)
      requires Tracked(p) && Booked() && p in held
      modifies this`held, this`removedList, this`waiting, this`freed, p`refCount
      ensures Booked() && held == old(held) - multiset{p} && (p in live + waiting ==> Tracked(p))
      ensures waiting == if p in held then old(waiting) else old(waiting) - {p}
      ensures freed == if p in old(waiting) && p !in held then old(freed) + {p} else old(freed)
    {
      p.refCount := p.refCount - 1;
      held := held - multiset{p};
      if p.bWaitingForRemoval && p.refCount == 0 {
        DropRemoved(p);
        assert freed - parked == old(freed) - old(parked);
      }
    }

    /** The loop of disposePacket over the packets that wait for removal. */
    method DropRemoved(p: PacketInfo)
      requires Lists(removedList, waiting) && p in waiting && p !in freed && held[p] == 0
      modifies this`removedList, this`waiting, this`freed
      ensures Lists(removedList, waiting) && waiting == old(waiting) - {p} && freed == old(freed) + {p}
    {
      ListsSame(removedList, waiting);
      var i := 0;
      while i < |removedList|
        invariant 0 <= i <= |removedList| && Lists(removedList, waiting)
        invariant p in waiting ==> p in removedList[i..]
        invariant waiting == if p in waiting then old(waiting) else old(waiting) - {p}
        invariant freed == if p in waiting then old(freed) else old(freed) + {p}
        decreases |removedList| - i
      {
        ListsSame(removedList, waiting);
        if p == removedList[i] {
          ListsCut(removedList, waiting, i);
          Free(p);
          removedList, waiting := removedList[..i] + removedList[i + 1..], waiting - {p};
        } else {
          assert removedList[i..] == [removedList[i]] + removedList[i + 1..];
          i := i + 1;
        }
      }
    }
  }

  /** A payload that was pushed twice is given back while the second packet that carries it is held. */
  method DoublePushIsHeld(p: OutgoingPacket) returns (q: BroadcastQueue, info: PacketInfo?)
    ensures info != null && info in q.held && info.pPacket == p
    ensures exists x :: x in q.returned && x.pPacket == p
  {
    hide PushedNode, GotNode, Increasing, Lists;
    q := new BroadcastQueue(1, false);
    q.PushPacket(p, "", 1);
    ghost var first := q.made[0];
    q.PushPacket(p, "", 1);
    assert first in q.returned;
    var packet;
    packet, info := q.GetNextPacket("client");
  }

  method ChannelOfOne(p: OutgoingPacket) returns (q: BroadcastQueue)
    ensures q.Valid() && fresh(q) && fresh(q.live) && q.maxPacket == 1 && q.held == multiset{}
    ensures |q.list| == 1 && q.list[0].pPacket == p && Next(q.State(), "client").Some?
    ensures Next(q.State(), "client").value.packet == p
  {
    hide PushedNode, Increasing, Lists;
    q := new BroadcastQueue(1, false);
    q.PushPacket(p, "", 1);
    NextOfOne(q.State(), "client");
  }

  /** Also when the two packets are in two channels: the first one evicts it while a client of the second holds it. */
  method DoublePushInTwoChannels(p: OutgoingPacket, other: OutgoingPacket)
    returns (first: BroadcastQueue, second: BroadcastQueue, info: PacketInfo?)
    ensures info != null && info in second.held && info.pPacket == p
    ensures exists x :: x in first.returned && x.pPacket == p
  {
    hide PushedNode, GotNode, Next, Pushed, Increasing, Lists;
    first := ChannelOfOne(p);
    second := ChannelOfOne(p);
    var packet;
    packet, info := second.GetNextPacket("client");
    ghost var x := first.list[0];
    first.PushPacket(other, "", 1);
    assert x in first.returned;
  }

  /** And it is given back twice when both packets are evicted. */
  method DoublePushIsGivenBackTwice(p: OutgoingPacket, other: OutgoingPacket) returns (q: BroadcastQueue)
    ensures |q.returned| == 2 && q.returned[0] != q.returned[1]
    ensures q.returned[0].pPacket == q.returned[1].pPacket == p
  {
    hide PushedNode, GotNode;
    q := new BroadcastQueue(1, false);
    q.PushPacket(p, "", 1);
    q.PushPacket(p, "", 1);
    q.PushPacket(other, "", 1);
    q.Lifetimes();
  }
}
