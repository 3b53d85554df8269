/**
 A connection of PhysicalConnection.cpp and PhysicalConnection_Win.cpp: packets are framed into a buffer, of which
 one write at a time is under way, and closing may wait until the buffer has drained. Each method runs under the
 lock of the connection, as one step; the results of the calls to the operating system are parameters.
 */
module Connections {

  import opened Options
  import opened DataBuffers
  import opened Framing

  datatype Status = Disposable | WaitingForWrite | Connected | Attached

  /** status >= Connected */
  predicate Open(s: Status) {
    s == Connected || s == Attached
  }

  datatype SendResult = SendOK | SendRetry | SendNotOK

  /**
   What is known of a connection: the bytes to send, the write under way, the count of the workers that wait for a
   write or a receive, the receives under way, whether it is in the list of the connections without a client, and, over
   its whole life, the messages that were framed, the bytes whose sending was completed, and the first packets that
   were processed too late to attach it.
   */
  datatype Connection = Connection(
    status: Status, buffer: string, writing: bool, flight: Option<string>, workers: int, receives: nat, pending: bool,
    accepted: seq<string>, completed: string, late: nat)

  // ---------- The steps ----------

  /** WriteBytes, where `ok` tells whether WSASend could start the write. */
  function Write(c: Connection, sendSize: nat, ok: bool): Connection {
    if ok then
      c.(writing := true, workers := c.workers + 1,
         flight := Some(c.buffer[..if sendSize < |c.buffer| then sendSize else |c.buffer|]))
    else c
  }

  /** PushPacketCommon for a packet that encodes as `data`, or fails to. */
  function PushPacket(c: Connection, data: Option<string>, ok: bool, capacity: nat, sendSize: nat)
    : (Connection, SendResult)
  {
    if !Open(c.status) || data.None? then (c, SendNotOK)
    else if |c.buffer| + |data.value| + 1 > capacity then (c, SendRetry)
    else
      var d := c.(buffer := c.buffer + data.value + [NUL], accepted := c.accepted + [data.value]);
      if c.writing then (d, SendOK) else (Write(d, sendSize, ok), if ok then SendOK else SendNotOK)
  }

  /** OnSendCompleted: `n` bytes were sent. */
  function SendCompleted(c: Connection, n: nat, ok: bool, sendSize: nat): Connection
    requires n <= |c.buffer|
  {
    if c.status == Disposable then c
    else if n == |c.buffer| then
      if c.status == WaitingForWrite then c.(buffer := "", status := Disposable)
      else c.(buffer := "", writing := false)
    else Write(c.(buffer := c.buffer[n..]), sendSize, ok)
  }

  /** OnWriteComplete: `n` bytes of the write under way were sent, and its worker is given back. */
  function WriteCompleted(c: Connection, n: nat, ok: bool, sendSize: nat): Connection
    requires c.flight.Some? && n <= |c.flight.value| && n <= |c.buffer|
  {
    var d := SendCompleted(c.(flight := None, completed := c.completed + c.flight.value[..n]), n, ok, sendSize);
    d.(workers := d.workers - 1)
  }

  function Close(c: Connection, wait: bool): Connection {
    if !Open(c.status) then c
    else if wait && c.buffer != "" then c.(status := WaitingForWrite)
    else c.(status := Disposable)
  }

  /**
   The end of ProcessFirstPacket, when the packet creates a client: only a connection that is still in the list is
   attached to it; otherwise the count of the workers goes down once more.
   */
  function Attach(c: Connection): Connection {
    if c.pending then c.(pending := false, status := Attached) else c.(workers := c.workers - 1, late := c.late + 1)
  }

  /** PostReceive, where `ok` tells whether the receive could be started. */
  function PostReceive(c: Connection, ok: bool): Connection {
    if Open(c.status) && ok then c.(workers := c.workers + 1, receives := c.receives + 1) else c
  }

  /** OnReceiveComplete without its data: `arrived` unless the peer has closed, `again` if the next receive starts. */
  function ReceiveCompleted(c: Connection, arrived: bool, again: bool): Connection
    requires c.receives > 0
  {
    var d := if Open(c.status) && !arrived then Close(c, false) else PostReceive(c, again);
    d.(workers := d.workers - 1, receives := d.receives - 1)
  }

  /** CheckIfUnusedByIOWorkers: the connection may be deleted. */
  predicate Unused(c: Connection) {
    c.status == Disposable && c.workers == 0
  }

  datatype Event =
    | DoPush(data: Option<string>, ok: bool)
    | DoComplete(n: nat, ok: bool)
    | DoReceive(ok: bool)
    | DoReceived(arrived: bool, again: bool)
    | DoClose(wait: bool)
    | DoAttach

  /**
   A completion is of an operation under way. Packets are processed while a receive is; a connection that leaves the
   list does it before it is closed.
   */
  predicate Enabled(c: Connection, e: Event) {
    match e
    case DoComplete(n, _) => c.flight.Some? && n <= |c.flight.value| && n <= |c.buffer|
    case DoReceived(_, _) => c.receives > 0
    case DoAttach => c.receives > 0 && (c.pending ==> c.status == Connected)
    case _ => true
  }

  function Step(c: Connection, e: Event, capacity: nat, sendSize: nat): Connection
    requires Enabled(c, e)
  {
    match e
    case DoPush(data, ok) => PushPacket(c, data, ok, capacity, sendSize).0
    case DoComplete(n, ok) => WriteCompleted(c, n, ok, sendSize)
    case DoReceive(ok) => PostReceive(c, ok)
    case DoReceived(arrived, again) => ReceiveCompleted(c, arrived, again)
    case DoClose(wait) => Close(c, wait)
    case DoAttach => Attach(c)
  }

  // ---------- What every step keeps ----------

  /** The operations that will come back to the connection. */
  function UnderWay(c: Connection): nat {
    c.receives + if c.flight.Some? then 1 else 0
  }

  const START := Connection(Connected, "", false, None, 0, 0, true, [], "", 0)

  /**
   Every accepted byte is either completed or still in the buffer, in order, until the connection is disposable; the
   one write under way is of the first bytes in the buffer.
   */
  ghost predicate Conserves(c: Connection, capacity: nat, sendSize: nat) {
    && c.completed <= Framed(c.accepted)
    && (c.status != Disposable || c.flight.Some? ==> Framed(c.accepted) == c.completed + c.buffer)
    && |c.buffer| <= capacity
    && (c.flight.Some? ==> c.writing && c.flight.value <= c.buffer && |c.flight.value| <= sendSize)
    && (c.flight.Some? && sendSize > 0 ==> c.flight.value != "")
    && (c.status == WaitingForWrite ==> c.buffer != "")
    && c.workers + c.late == UnderWay(c)
  }

  lemma StartConserves(capacity: nat, sendSize: nat)
    ensures Conserves(START, capacity, sendSize)
  {
    assert START.completed + START.buffer == "" == Framed(START.accepted);
  }

  lemma PushConserves(c: Connection, data: Option<string>, ok: bool, capacity: nat, sendSize: nat)
    requires Conserves(c, capacity, sendSize)
    ensures Conserves(PushPacket(c, data, ok, capacity, sendSize).0, capacity, sendSize)
  {
    hide Framed;
    if Open(c.status) && data.Some? {
      FramedMore(c.accepted, data.value);
      assert c.completed + c.buffer + (data.value + [NUL]) == c.completed + (c.buffer + data.value + [NUL]);
    }
  }

  lemma CompleteConserves(c: Connection, n: nat, ok: bool, capacity: nat, sendSize: nat)
    requires Conserves(c, capacity, sendSize)
    requires c.flight.Some? && n <= |c.flight.value| && n <= |c.buffer|
    ensures Conserves(WriteCompleted(c, n, ok, sendSize), capacity, sendSize)
  {
    hide Framed;
    assert c.flight.value[..n] == c.buffer[..n];
    assert c.completed + c.buffer == c.completed + c.buffer[..n] + c.buffer[n..];
  }

  lemma ReceiveConserves(c: Connection, arrived: bool, again: bool, capacity: nat, sendSize: nat)
    requires Conserves(c, capacity, sendSize) && c.receives > 0
    ensures Conserves(ReceiveCompleted(c, arrived, again), capacity, sendSize)
  {
    hide Conserves, Close, PostReceive;
    if Open(c.status) && !arrived {
      CloseConserves(c, false, capacity, sendSize);
      OneReceiveLess(Close(c, false), capacity, sendSize);
    } else {
      PostConserves(c, again, capacity, sendSize);
      OneReceiveLess(PostReceive(c, again), capacity, sendSize);
    }
  }

  lemma CloseConserves(c: Connection, wait: bool, capacity: nat, sendSize: nat)
    requires Conserves(c, capacity, sendSize)
    ensures Conserves(Close(c, wait), capacity, sendSize) && Close(c, wait).receives == c.receives
  {
    hide Framed;
  }

  lemma PostConserves(c: Connection, ok: bool, capacity: nat, sendSize: nat)
    requires Conserves(c, capacity, sendSize)
    ensures Conserves(PostReceive(c, ok), capacity, sendSize) && PostReceive(c, ok).receives >= c.receives
  {
    hide Framed;
  }

  lemma OneReceiveLess(c: Connection, capacity: nat, sendSize: nat)
    requires Conserves(c, capacity, sendSize) && c.receives > 0
    ensures Conserves(c.(workers := c.workers - 1, receives := c.receives - 1), capacity, sendSize)
  {
    hide Framed;
  }

  lemma AttachConserves(c: Connection, capacity: nat, sendSize: nat)
    requires Conserves(c, capacity, sendSize) && (c.pending ==> c.status == Connected)
    ensures Conserves(Attach(c), capacity, sendSize)
  {
    hide Framed;
  }

  lemma StepConserves(c: Connection, e: Event, capacity: nat, sendSize: nat)
    requires Conserves(c, capacity, sendSize) && Enabled(c, e)
    ensures Conserves(Step(c, e, capacity, sendSize), capacity, sendSize)
  {
    hide Framed, Conserves;
    match e
    case DoPush(data, ok) => PushConserves(c, data, ok, capacity, sendSize);
    case DoComplete(n, ok) => CompleteConserves(c, n, ok, capacity, sendSize);
    case DoReceive(ok) => PostConserves(c, ok, capacity, sendSize);
    case DoReceived(arrived, again) => ReceiveConserves(c, arrived, again, capacity, sendSize);
    case DoClose(wait) => CloseConserves(c, wait, capacity, sendSize);
    case DoAttach => AttachConserves(c, capacity, sendSize);
  }

  /** The connection after the events; each has to be enabled when its turn comes. */
  predicate Runs(c: Connection, events: seq<Event>, capacity: nat, sendSize: nat)
    decreases |events|
  {
    events == [] ||
    (Enabled(c, events[0]) && Runs(Step(c, events[0], capacity, sendSize), events[1..], capacity, sendSize))
  }

  function Run(c: Connection, events: seq<Event>, capacity: nat, sendSize: nat): Connection
    requires Runs(c, events, capacity, sendSize)
    decreases |events|
  {
    if events == [] then c else Run(Step(c, events[0], capacity, sendSize), events[1..], capacity, sendSize)
  }

  /** In every run from the start, no byte is lost, doubled or reordered. */
  lemma {:induction false} RunConserves(c: Connection, events: seq<Event>, capacity: nat, sendSize: nat)
    requires Conserves(c, capacity, sendSize) && Runs(c, events, capacity, sendSize)
    ensures Conserves(Run(c, events, capacity, sendSize), capacity, sendSize)
    decreases |events|
  {
    hide Conserves, Step;
    if events != [] {
      StepConserves(c, events[0], capacity, sendSize);
      RunConserves(Step(c, events[0], capacity, sendSize), events[1..], capacity, sendSize);
    }
  }

  /**
   From sender to receiver: the bytes that were sent, or any first part of them, arrive split in any way, and the
   receiver takes out the first messages that were accepted, in order.
   */
  lemma EndToEnd(events: seq<Event>, capacity: nat, sendSize: nat, chunks: seq<string>, room: nat) returns (k: nat)
    requires Runs(START, events, capacity, sendSize)
    requires
      var c := Run(START, events, capacity, sendSize);
      Concat(chunks) <= c.completed && room > 0 && forall m <- c.accepted :: Clean(m) && |m| < room
    ensures
      var c := Run(START, events, capacity, sendSize);
      k <= |c.accepted| && ReceiveAll("", chunks).0 == c.accepted[..k] && |ReceiveAll("", chunks).1| < room
  {
    hide Run, Runs, Concat, ReceiveAll;
    var c := Run(START, events, capacity, sendSize);
    StartConserves(capacity, sendSize);
    RunConserves(START, events, capacity, sendSize);
    k := ChunkingIndependence(c.accepted, chunks, room);
  }

  // ---------- What is never sent ----------

  /** No run completes another byte. */
  ghost predicate SendsNoMore(c: Connection, capacity: nat, sendSize: nat) {
    forall events :: Runs(c, events, capacity, sendSize)
      ==> Run(c, events, capacity, sendSize).completed == c.completed
  }

  /** No write is under way, and none can be started: by the flag, by the status, or for want of room to push. */
  predicate Blocked(c: Connection, capacity: nat, sendSize: nat) {
    sendSize == 0 || (c.flight.None? && (c.writing || !Open(c.status) || |c.buffer| >= capacity))
  }

  lemma BlockedStep(c: Connection, e: Event, capacity: nat, sendSize: nat)
    requires Conserves(c, capacity, sendSize) && Blocked(c, capacity, sendSize) && Enabled(c, e)
    ensures
      var d := Step(c, e, capacity, sendSize);
      Blocked(d, capacity, sendSize) && d.completed == c.completed
  {
    hide Framed;
  }

  lemma {:induction false} BlockedForever(c: Connection, events: seq<Event>, capacity: nat, sendSize: nat)
    requires Conserves(c, capacity, sendSize) && Blocked(c, capacity, sendSize)
    requires Runs(c, events, capacity, sendSize)
    ensures Run(c, events, capacity, sendSize).completed == c.completed
    decreases |events|
  {
    hide Framed, Conserves, Blocked, Step;
    if events != [] {
      StepConserves(c, events[0], capacity, sendSize);
      BlockedStep(c, events[0], capacity, sendSize);
      BlockedForever(Step(c, events[0], capacity, sendSize), events[1..], capacity, sendSize);
    }
  }

  /** Two events that complete a byte, if it is possible at all. */
  lemma Progress(c: Connection, capacity: nat, sendSize: nat) returns (events: seq<Event>)
    requires Conserves(c, capacity, sendSize) && !Blocked(c, capacity, sendSize)
    ensures Runs(c, events, capacity, sendSize) && Run(c, events, capacity, sendSize).completed != c.completed
  {
    hide Framed;
    var e := DoComplete(1, true);
    if c.flight.Some? {
      events := [e];
      RunsOne(c, e, capacity, sendSize);
    } else {
      var p := DoPush(Some(""), true);
      var d := Step(c, p, capacity, sendSize);
      PushConserves(c, Some(""), true, capacity, sendSize);
      RunsOne(d, e, capacity, sendSize);
      events := [p, e];
      assert events[1..] == [e];
    }
  }

  lemma RunsOne(c: Connection, e: Event, capacity: nat, sendSize: nat)
    requires Enabled(c, e)
    ensures Runs(c, [e], capacity, sendSize)
    ensures Run(c, [e], capacity, sendSize) == Step(c, e, capacity, sendSize)
  {
    assert [e][1..] == [];
  }

  /**
   Exactly when a connection never sends another byte, whatever is called. So a push whose write could not be started
   leaves a connection that sends again only with a further push that fits, and not at all once it is closed.
   */
  lemma SendsNoMoreExactly(c: Connection, capacity: nat, sendSize: nat)
    requires Conserves(c, capacity, sendSize)
    ensures SendsNoMore(c, capacity, sendSize) <==> Blocked(c, capacity, sendSize)
  {
    hide Framed, Conserves, Blocked, Step, Run, Runs;
    if Blocked(c, capacity, sendSize) {
      forall events | Runs(c, events, capacity, sendSize)
        ensures Run(c, events, capacity, sendSize).completed == c.completed
      {
        BlockedForever(c, events, capacity, sendSize);
      }
    } else {
      var events := Progress(c, capacity, sendSize);
    }
  }

  predicate NoPush(events: seq<Event>) {
    forall e <- events :: !e.DoPush?
  }

  /** No run without a further push completes another byte. */
  ghost predicate SendsOnlyAfterPush(c: Connection, capacity: nat, sendSize: nat) {
    forall events :: Runs(c, events, capacity, sendSize) && NoPush(events)
      ==> Run(c, events, capacity, sendSize).completed == c.completed
  }

  lemma {:induction false} IdleWithoutPush(c: Connection, events: seq<Event>, capacity: nat, sendSize: nat)
    requires c.flight.None? && Runs(c, events, capacity, sendSize) && NoPush(events)
    ensures Run(c, events, capacity, sendSize).completed == c.completed
    decreases |events|
  {
    if events != [] {
      assert events[0] in events && forall e <- events[1..] :: e in events;
      IdleWithoutPush(Step(c, events[0], capacity, sendSize), events[1..], capacity, sendSize);
    }
  }

  /**
   Exactly when only a further push can make a connection send again: when no write is under way. With bytes in the
   buffer that is the state in which a push leaves it whose write could not be started.
   */
  lemma SendsOnlyAfterPushExactly(c: Connection, capacity: nat, sendSize: nat)
    requires Conserves(c, capacity, sendSize)
    ensures SendsOnlyAfterPush(c, capacity, sendSize) <==> c.flight.None? || sendSize == 0
  {
    hide Framed, Step, Runs, Run;
    if sendSize == 0 {
      SendsNoMoreExactly(c, capacity, sendSize);
    } else if c.flight.None? {
      forall events | Runs(c, events, capacity, sendSize) && NoPush(events)
        ensures Run(c, events, capacity, sendSize).completed == c.completed
      {
        IdleWithoutPush(c, events, capacity, sendSize);
      }
    } else {
      var e := DoComplete(1, true);
      StepCompletes(c, capacity, sendSize);
      RunsOne(c, e, capacity, sendSize);
      assert NoPush([e]);
    }
  }

  lemma StepCompletes(c: Connection, capacity: nat, sendSize: nat)
    requires Conserves(c, capacity, sendSize) && c.flight.Some? && sendSize > 0
    ensures Enabled(c, DoComplete(1, true))
    ensures Step(c, DoComplete(1, true), capacity, sendSize).completed != c.completed
  {
  }

  /** A push whose write cannot be started leaves its bytes to a further push. */
  lemma FailedPushWaits(c: Connection, data: string, capacity: nat, sendSize: nat)
    requires Conserves(c, capacity, sendSize) && Open(c.status) && !c.writing && sendSize > 0
    requires |c.buffer| + |data| + 1 <= capacity
    ensures
      var d := PushPacket(c, Some(data), false, capacity, sendSize).0;
      && d.buffer == c.buffer + data + [NUL] && d.accepted == c.accepted + [data]
      && SendsOnlyAfterPush(d, capacity, sendSize)
      && (SendsNoMore(d, capacity, sendSize) <==> |d.buffer| == capacity)
  {
    hide Framed, SendsOnlyAfterPush, SendsNoMore;
    var d := PushPacket(c, Some(data), false, capacity, sendSize).0;
    PushConserves(c, Some(data), false, capacity, sendSize);
    SendsOnlyAfterPushExactly(d, capacity, sendSize);
    SendsNoMoreExactly(d, capacity, sendSize);
  }

  /**
   Exactly which completions are the last one: one that leaves bytes behind if the next write cannot be started, and
   one that leaves none if the connection waits for it to close. So an open connection that has drained sends again.
   */
  lemma StallsExactly(c: Connection, n: nat, ok: bool, capacity: nat, sendSize: nat)
    requires Conserves(c, capacity, sendSize) && c.status != Disposable && sendSize > 0
    requires c.flight.Some? && n <= |c.flight.value|
    ensures SendsNoMore(WriteCompleted(c, n, ok, sendSize), capacity, sendSize)
      <==> if n < |c.buffer| then !ok else c.status == WaitingForWrite
  {
    hide Framed, SendsNoMore;
    CompleteConserves(c, n, ok, capacity, sendSize);
    SendsNoMoreExactly(WriteCompleted(c, n, ok, sendSize), capacity, sendSize);
  }

  /** Every call that starts a write succeeds in doing so. */
  predicate AllStart(events: seq<Event>) {
    forall e <- events :: (e.DoPush? ==> e.ok) && (e.DoComplete? ==> e.ok)
  }

  /** While it is open, a write is under way exactly if there are bytes to send. */
  predicate Busy(c: Connection) {
    Open(c.status) ==> (c.writing <==> c.flight.Some?) && (c.flight.Some? <==> c.buffer != "")
  }

  lemma StepBusy(c: Connection, e: Event, capacity: nat, sendSize: nat)
    requires Conserves(c, capacity, sendSize) && Enabled(c, e) && Busy(c)
    requires (e.DoPush? ==> e.ok) && (e.DoComplete? ==> e.ok)
    ensures Busy(Step(c, e, capacity, sendSize))
  {
    hide Framed;
  }

  lemma {:induction false} RunBusy(c: Connection, events: seq<Event>, capacity: nat, sendSize: nat)
    requires Conserves(c, capacity, sendSize) && Runs(c, events, capacity, sendSize) && AllStart(events) && Busy(c)
    ensures Busy(Run(c, events, capacity, sendSize))
    decreases |events|
  {
    hide Conserves, Step, Busy, Enabled;
    if events != [] {
      assert events[0] in events && forall e <- events[1..] :: e in events;
      StepConserves(c, events[0], capacity, sendSize);
      StepBusy(c, events[0], capacity, sendSize);
      RunBusy(Step(c, events[0], capacity, sendSize), events[1..], capacity, sendSize);
    }
  }

  /**
   Over every run in which all writes start: an open connection has a write under way exactly if it has bytes to send,
   and it can send again at any time.
   */
  lemma NeverStuck(events: seq<Event>, capacity: nat, sendSize: nat)
    requires Runs(START, events, capacity, sendSize) && AllStart(events) && capacity > 0 && sendSize > 0
    ensures
      var c := Run(START, events, capacity, sendSize);
      Open(c.status) ==>
        (c.flight.Some? <==> c.completed != Framed(c.accepted)) && !SendsNoMore(c, capacity, sendSize)
  {
    hide Run, Runs, Step, Framed;
    StartConserves(capacity, sendSize);
    RunConserves(START, events, capacity, sendSize);
    RunBusy(START, events, capacity, sendSize);
    var c := Run(START, events, capacity, sendSize);
    SendsNoMoreExactly(c, capacity, sendSize);
    assert c.buffer == "" ==> c.completed + c.buffer == c.completed;
    assert |c.completed + c.buffer| == |c.completed| + |c.buffer|;
  }

  // ---------- What a caller is told ----------

  /**
   The answers of a push: SendOK if and only if the packet was accepted and a write is under way or believed to be;
   SendRetry if and only if nothing changed for want of room, so that the packet is accepted once the buffer has
   drained if it fits at all; and SendNotOK if nothing changed for good, or the write of the packet did not start.
   */
  lemma PushAnswers(c: Connection, data: Option<string>, ok: bool, capacity: nat, sendSize: nat)
    requires Conserves(c, capacity, sendSize)
    ensures
      var (d, result) := PushPacket(c, data, ok, capacity, sendSize);
      && (result == SendOK <==> data.Some? && d.accepted == c.accepted + [data.value] && d.writing)
      && (result == SendRetry <==>
            d == c && Open(c.status) && data.Some? && |c.buffer| + |data.value| + 1 > capacity)
      && (result == SendRetry && |data.value| < capacity ==>
            PushPacket(c.(buffer := ""), data, ok, capacity, sendSize).0.accepted == c.accepted + [data.value])
      && (result == SendNotOK <==>
            if Open(c.status) && data.Some? then d.accepted != c.accepted && !d.writing else d == c)
      && (result == SendOK && c.flight.None? && !c.writing ==> d.flight.Some?)
  {
    hide Framed;
    assert data.Some? ==> |c.accepted + [data.value]| == |c.accepted| + 1;
  }

  /** Over every run: an open connection is attached exactly if it has left the list of those without a client. */
  lemma {:induction false} AttachedExactly(c: Connection, events: seq<Event>, capacity: nat, sendSize: nat)
    requires Runs(c, events, capacity, sendSize)
    requires (c.status == Attached ==> !c.pending) && (c.status == Connected ==> c.pending)
    ensures
      var d := Run(c, events, capacity, sendSize);
      (d.status == Attached ==> !d.pending) && (d.status == Connected ==> d.pending)
    decreases |events|
  {
    if events != [] {
      AttachedExactly(Step(c, events[0], capacity, sendSize), events[1..], capacity, sendSize);
    }
  }

  // ---------- Close at once ----------

  /** A closed connection starts no write: only the one under way can still complete, once. */
  lemma {:induction false} DisposableIsQuiet(c: Connection, events: seq<Event>, capacity: nat, sendSize: nat)
    requires Conserves(c, capacity, sendSize) && c.status == Disposable && Runs(c, events, capacity, sendSize)
    ensures
      var d := Run(c, events, capacity, sendSize);
      && d.status == Disposable && d.accepted == c.accepted
      && (if d.flight.Some? then d.flight == c.flight && d.completed == c.completed
          else d.completed <= c.completed + if c.flight.Some? then c.flight.value else "")
    decreases |events|
  {
    hide Framed, Conserves, Step;
    if events != [] {
      StepConserves(c, events[0], capacity, sendSize);
      StepIsQuiet(c, events[0], capacity, sendSize);
      DisposableIsQuiet(Step(c, events[0], capacity, sendSize), events[1..], capacity, sendSize);
    } else {
      assert c.completed + "" == c.completed;
    }
  }

  lemma StepIsQuiet(c: Connection, e: Event, capacity: nat, sendSize: nat)
    requires c.status == Disposable && Conserves(c, capacity, sendSize) && Enabled(c, e)
    ensures
      var d := Step(c, e, capacity, sendSize);
      && d.status == Disposable && d.accepted == c.accepted
      && (if d.flight.Some? then d.flight == c.flight && d.completed == c.completed
          else d.completed <= c.completed + if c.flight.Some? then c.flight.value else "")
  {
    hide Framed;
    if e.DoComplete? {
      assert c.completed + c.flight.value == c.completed + c.flight.value[..e.n] + c.flight.value[e.n..];
    }
  }

  /** A close that does not wait ends an open connection at once: only the write under way can still complete. */
  lemma CloseAtOnce(c: Connection, events: seq<Event>, capacity: nat, sendSize: nat)
    requires Conserves(c, capacity, sendSize) && Open(c.status) && Runs(Close(c, false), events, capacity, sendSize)
    ensures
      var d := Run(Close(c, false), events, capacity, sendSize);
      && d.status == Disposable && d.accepted == c.accepted
      && c.completed <= d.completed <= c.completed + (if c.flight.Some? then c.flight.value else "")
      && (c.flight.None? ==> d.flight.None?)
  {
    hide Framed, Step, Conserves, Run, Runs;
    CloseConserves(c, false, capacity, sendSize);
    DisposableIsQuiet(Close(c, false), events, capacity, sendSize);
    CompletedGrows(Close(c, false), events, capacity, sendSize);
    assert c.completed + "" == c.completed;
  }

  lemma {:induction false} CompletedGrows(c: Connection, events: seq<Event>, capacity: nat, sendSize: nat)
    requires Runs(c, events, capacity, sendSize)
    ensures c.completed <= Run(c, events, capacity, sendSize).completed
    decreases |events|
  {
    if events != [] {
      CompletedGrows(Step(c, events[0], capacity, sendSize), events[1..], capacity, sendSize);
    }
  }

  // ---------- Graceful close ----------

  /** Waiting for its writes, or disposable after the last one. */
  ghost predicate Draining(c: Connection) {
    || c.status == WaitingForWrite
    || (c.status == Disposable && c.completed == Framed(c.accepted) && c.flight.None? && c.buffer == "")
  }

  lemma DrainingStep(c: Connection, e: Event, capacity: nat, sendSize: nat)
    requires Conserves(c, capacity, sendSize) && Enabled(c, e) && Draining(c)
    ensures
      var d := Step(c, e, capacity, sendSize);
      d.accepted == c.accepted && Draining(d)
  {
    hide Framed;
    StepConserves(c, e, capacity, sendSize);
    if e.DoComplete? {
      assert c.flight.value[..e.n] == c.buffer[..e.n];
      assert e.n == |c.buffer| ==> c.buffer[..e.n] == c.buffer;
    }
  }

  lemma {:induction false} DrainingForever(c: Connection, events: seq<Event>, capacity: nat, sendSize: nat)
    requires Conserves(c, capacity, sendSize) && Runs(c, events, capacity, sendSize) && Draining(c)
    ensures
      var d := Run(c, events, capacity, sendSize);
      d.accepted == c.accepted && Draining(d)
    decreases |events|
  {
    hide Conserves, Step, Framed, Draining;
    if events != [] {
      StepConserves(c, events[0], capacity, sendSize);
      DrainingStep(c, events[0], capacity, sendSize);
      DrainingForever(Step(c, events[0], capacity, sendSize), events[1..], capacity, sendSize);
    }
  }

  /**
   A connection that waits for its writes accepts nothing more, whatever is called, and is disposable exactly when
   every accepted byte was sent.
   */
  lemma GracefulClose(c: Connection, events: seq<Event>, capacity: nat, sendSize: nat)
    requires Conserves(c, capacity, sendSize) && Runs(c, events, capacity, sendSize) && Draining(c)
    ensures
      var d := Run(c, events, capacity, sendSize);
      && d.accepted == c.accepted && (d.status == WaitingForWrite || d.status == Disposable)
      && (d.status == Disposable <==> d.completed == Framed(d.accepted))
  {
    hide Framed, Step, Run, Runs;
    DrainingForever(c, events, capacity, sendSize);
    RunConserves(c, events, capacity, sendSize);
  }

  /** Completions of at least one byte, after which the next write can be started. */
  predicate AllProgress(events: seq<Event>) {
    forall e <- events :: e.DoComplete? && e.n > 0 && e.ok
  }

  /** While it waits, each completion shortens the buffer, so that it is disposable after as many as it has bytes. */
  lemma {:induction false} Drains(c: Connection, events: seq<Event>, capacity: nat, sendSize: nat)
    requires Conserves(c, capacity, sendSize) && Runs(c, events, capacity, sendSize)
    requires c.status == WaitingForWrite && c.flight.Some? && sendSize > 0 && AllProgress(events)
    ensures
      var d := Run(c, events, capacity, sendSize);
      || (d.status == Disposable && d.completed == Framed(c.accepted))
      || (d.status == WaitingForWrite && d.flight.Some? && |d.buffer| + |events| <= |c.buffer|)
    decreases |events|
  {
    if events != [] {
      var d := Step(c, events[0], capacity, sendSize);
      assert events[0] in events;
      StepConserves(c, events[0], capacity, sendSize);
      DrainingStep(c, events[0], capacity, sendSize);
      if d.status == WaitingForWrite {
        Drains(d, events[1..], capacity, sendSize);
      } else {
        DrainingForever(d, events[1..], capacity, sendSize);
      }
    }
  }

  ghost predicate CanDrain(c: Connection, capacity: nat, sendSize: nat) {
    exists events :: Runs(c, events, capacity, sendSize) && Run(c, events, capacity, sendSize).status == Disposable
  }

  /** Completions that drain the connection. */
  lemma {:induction false} DrainingRun(c: Connection, capacity: nat, sendSize: nat) returns (events: seq<Event>)
    requires Conserves(c, capacity, sendSize) && c.status == WaitingForWrite && c.flight.Some? && sendSize > 0
    ensures Runs(c, events, capacity, sendSize) && Run(c, events, capacity, sendSize).status == Disposable
    decreases |c.buffer|
  {
    hide Framed;
    var e := DoComplete(|c.flight.value|, true);
    var d := Step(c, e, capacity, sendSize);
    StepConserves(c, e, capacity, sendSize);
    var rest := [];
    if d.status == WaitingForWrite {
      rest := DrainingRun(d, capacity, sendSize);
    }
    events := [e] + rest;
    assert events[1..] == rest;
  }

  /** A close that waits can still end, exactly if a write is under way when it is called. */
  lemma CloseDrainsExactly(c: Connection, capacity: nat, sendSize: nat)
    requires Conserves(c, capacity, sendSize) && Open(c.status) && c.buffer != ""
    ensures CanDrain(Close(c, true), capacity, sendSize) <==> c.flight.Some? && sendSize > 0
  {
    hide Framed, Step, Run, Runs;
    var d := Close(c, true);
    StepConserves(c, DoClose(true), capacity, sendSize);
    StepIsClose(c, capacity, sendSize);
    if c.flight.Some? && sendSize > 0 {
      var events := DrainingRun(d, capacity, sendSize);
    } else {
      forall events | Runs(d, events, capacity, sendSize)
        ensures Run(d, events, capacity, sendSize).status != Disposable
      {
        BlockedForever(d, events, capacity, sendSize);
        GracefulClose(d, events, capacity, sendSize);
      }
    }
  }

  lemma StepIsClose(c: Connection, capacity: nat, sendSize: nat)
    ensures Step(c, DoClose(true), capacity, sendSize) == Close(c, true)
  {
  }

  /** In the run, a write cannot be started although a completion left bytes behind. */
  predicate WriteFails(c: Connection, events: seq<Event>, capacity: nat, sendSize: nat)
    requires Runs(c, events, capacity, sendSize)
    decreases |events|
  {
    events != [] &&
    ((events[0].DoComplete? && !events[0].ok && events[0].n < |c.buffer|)
     || WriteFails(Step(c, events[0], capacity, sendSize), events[1..], capacity, sendSize))
  }

  /**
   What becomes of a close that waits with a write under way: it is stuck for ever exactly if a later write cannot be
   started; otherwise a write is under way until the last byte was sent.
   */
  lemma {:induction false} WaitingOutcome(c: Connection, events: seq<Event>, capacity: nat, sendSize: nat)
    requires Conserves(c, capacity, sendSize) && Runs(c, events, capacity, sendSize) && sendSize > 0
    requires c.status == WaitingForWrite && c.flight.Some?
    ensures
      var d := Run(c, events, capacity, sendSize);
      && (WriteFails(c, events, capacity, sendSize) <==> !CanDrain(d, capacity, sendSize))
      && (WriteFails(c, events, capacity, sendSize) || d.flight.Some? || d.completed == Framed(c.accepted))
    decreases |events|
  {
    hide Framed, CanDrain;
    if events == [] {
      CanDrainExactly(c, capacity, sendSize);
    } else {
      var d := Step(c, events[0], capacity, sendSize);
      StepConserves(c, events[0], capacity, sendSize);
      DrainingStep(c, events[0], capacity, sendSize);
      if d.flight.Some? {
        WaitingOutcome(d, events[1..], capacity, sendSize);
      } else {
        IdleOutcome(d, events[1..], capacity, sendSize);
      }
    }
  }

  lemma CanDrainExactly(c: Connection, capacity: nat, sendSize: nat)
    requires Conserves(c, capacity, sendSize) && Draining(c) && sendSize > 0
    ensures CanDrain(c, capacity, sendSize) <==> c.status == Disposable || c.flight.Some?
  {
    hide Framed, Step;
    if c.status == Disposable {
      assert Runs(c, [], capacity, sendSize);
    } else if c.flight.Some? {
      var events := DrainingRun(c, capacity, sendSize);
    } else {
      forall events | Runs(c, events, capacity, sendSize)
        ensures Run(c, events, capacity, sendSize).status != Disposable
      {
        BlockedForever(c, events, capacity, sendSize);
        GracefulClose(c, events, capacity, sendSize);
      }
    }
  }

  /** Without a write under way a draining connection does not change any more. */
  lemma {:induction false} IdleOutcome(c: Connection, events: seq<Event>, capacity: nat, sendSize: nat)
    requires Conserves(c, capacity, sendSize) && Runs(c, events, capacity, sendSize) && sendSize > 0
    requires Draining(c) && c.flight.None?
    ensures
      var d := Run(c, events, capacity, sendSize);
      && !WriteFails(c, events, capacity, sendSize)
      && (CanDrain(d, capacity, sendSize) <==> c.status == Disposable)
      && (c.status == Disposable ==> d.completed == Framed(c.accepted))
    decreases |events|
  {
    hide Framed, CanDrain;
    if events == [] {
      CanDrainExactly(c, capacity, sendSize);
    } else {
      StepConserves(c, events[0], capacity, sendSize);
      DrainingStep(c, events[0], capacity, sendSize);
      IdleOutcome(Step(c, events[0], capacity, sendSize), events[1..], capacity, sendSize);
    }
  }

  // ---------- Deletion ----------

  /**
   After any run a connection may be deleted exactly if it is disposable and as many operations are under way as first
   packets came too late. So without such packets it may be deleted exactly if nothing is under way, and then no later
   event comes back to it; after one, it may be deleted only while something is under way, and never again after that.
   */
  lemma UnusedIsIdle(events: seq<Event>, later: seq<Event>, capacity: nat, sendSize: nat)
    requires Runs(START, events, capacity, sendSize)
    requires Runs(Run(START, events, capacity, sendSize), later, capacity, sendSize)
    ensures
      var c := Run(START, events, capacity, sendSize);
      var d := Run(c, later, capacity, sendSize);
      && (Unused(c) <==> c.status == Disposable && UnderWay(c) == c.late)
      && (Unused(c) && c.late == 0 ==> Unused(d) && d.late == 0 && forall e <- later :: !ComesBack(e))
      && (c.status == Disposable && UnderWay(c) == 0 && c.late > 0 ==> !Unused(d))
  {
    hide Run, Runs, Framed, Conserves;
    StartConserves(capacity, sendSize);
    RunConserves(START, events, capacity, sendSize);
    var c := Run(START, events, capacity, sendSize);
    WorkersOf(c, capacity, sendSize);
    if c.status == Disposable && UnderWay(c) == 0 {
      IdleForever(c, later, capacity, sendSize);
    }
  }

  /** As long as no receive could be started, none is under way, and none completes. */
  lemma {:induction false} NoReceiveStarted(c: Connection, events: seq<Event>, capacity: nat, sendSize: nat)
    requires c.receives == 0 && Runs(c, events, capacity, sendSize) && forall e <- events :: e.DoReceive? ==> !e.ok
    ensures Run(c, events, capacity, sendSize).receives == 0 && forall e <- events :: !e.DoReceived?
    decreases |events|
  {
    if events != [] {
      assert events[0] in events && forall e <- events[1..] :: e in events;
      NoReceiveStarted(Step(c, events[0], capacity, sendSize), events[1..], capacity, sendSize);
      assert events == [events[0]] + events[1..];
    }
  }

  lemma WorkersOf(c: Connection, capacity: nat, sendSize: nat)
    requires Conserves(c, capacity, sendSize)
    ensures c.workers + c.late == UnderWay(c)
  {
  }

  /** The event uses the connection from an operation that was under way. */
  predicate ComesBack(e: Event) {
    e.DoComplete? || e.DoReceived? || e.DoAttach?
  }

  lemma {:induction false} IdleForever(c: Connection, events: seq<Event>, capacity: nat, sendSize: nat)
    requires c.status == Disposable && UnderWay(c) == 0 && Runs(c, events, capacity, sendSize)
    ensures
      var d := Run(c, events, capacity, sendSize);
      d.status == c.status && d.workers == c.workers && d.late == c.late && forall e <- events :: !ComesBack(e)
    decreases |events|
  {
    if events != [] {
      IdleForever(Step(c, events[0], capacity, sendSize), events[1..], capacity, sendSize);
      assert events == [events[0]] + events[1..];
    }
  }

  /** Two first packets in one receive: the connection may be deleted while that receive is still being processed. */
  lemma SecondFirstPacket(capacity: nat, sendSize: nat)
    ensures
      var events := [DoReceive(true), DoAttach, DoAttach, DoClose(false)];
      && Runs(START, events, capacity, sendSize)
      && Unused(Run(START, events, capacity, sendSize)) && Run(START, events, capacity, sendSize).receives == 1
  {
    var e0, e1, e2 := DoReceive(true), DoAttach, DoClose(false);
    var c1 := Step(START, e0, capacity, sendSize);
    var c2 := Step(c1, e1, capacity, sendSize);
    var c3 := Step(c2, e1, capacity, sendSize);
    RunsOne(c3, e2, capacity, sendSize);
    assert [e0, e1, e1, e2][1..] == [e1, e1, e2] && [e1, e1, e2][1..] == [e1, e2] && [e1, e2][1..] == [e2];
    assert Runs(c2, [e1, e2], capacity, sendSize) && Runs(c1, [e1, e1, e2], capacity, sendSize);
  }

  // ---------- The object ----------

  lemma InFlight(c: Connection, capacity: nat, sendSize: nat)
    requires Conserves(c, capacity, sendSize)
    ensures c.flight.Some? ==> c.flight.value <= c.buffer
  {
  }

  lemma FramedOne(before: string, m: string)
    ensures before + Framed([m]) == before + m + [NUL]
  {
    assert Framed([m]) == m + [NUL] + Framed([]) && Framed([]) == "";
    assert m + [NUL] + "" == m + [NUL];
  }

  class PhysicalConnection {

    var status: Status
    var inBuffer: DataBuffer
    var oBuffer: DataBuffer
    var bWriteInProgress: bool
    var m_byOutBuffer: array<char>
    var outLength: nat
    var ioWorkersReferenceCounter: int
    const uReadBufferSize: nat
    /** Whether it is in the vectPendingPhysicalConnections of ChannelFactory. */
    var pending: bool
    ghost var inFlight: bool
    ghost var receives: nat
    ghost var accepted: seq<string>
    ghost var completed: string
    ghost var late: nat

    ghost predicate Valid()
      reads this, inBuffer, oBuffer
    {
      && inBuffer.Valid() && oBuffer.Valid() && inBuffer != oBuffer
      && inBuffer.pBuffer != oBuffer.pBuffer && inBuffer.pBuffer != m_byOutBuffer && oBuffer.pBuffer != m_byOutBuffer
      && outLength <= m_byOutBuffer.Length
    }

    ghost function State(): Connection
      requires Valid()
      reads this, inBuffer, oBuffer, oBuffer.pBuffer, m_byOutBuffer
    {
      Connection(
        status, oBuffer.Contents(), bWriteInProgress, if inFlight then Some(m_byOutBuffer[..outLength]) else None,
        ioWorkersReferenceCounter, receives, pending, accepted, completed, late)
    }

    ghost predicate Conserving()
      requires Valid()
      reads this, inBuffer, oBuffer, oBuffer.pBuffer, m_byOutBuffer
    {
      Conserves(State(), oBuffer.pBuffer.Length, m_byOutBuffer.Length)
    }

    constructor (uReadBufferSize: nat, uSendBufferSize: nat, uReceiveRoom: nat, uSendRoom: nat)
      ensures Valid() && Conserving() && State() == START && inBuffer.Contents() == ""
      ensures m_byOutBuffer.Length == uSendBufferSize && this.uReadBufferSize == uReadBufferSize
      ensures inBuffer.pBuffer.Length == uReceiveRoom && oBuffer.pBuffer.Length == uSendRoom
    {
      status := Connected;
      inBuffer := new DataBuffer(uReceiveRoom);
      oBuffer := new DataBuffer(uSendRoom);
      bWriteInProgress := false;
      m_byOutBuffer := new char[uSendBufferSize];
      outLength := 0;
      ioWorkersReferenceCounter := 0;
      this.uReadBufferSize := uReadBufferSize;
      pending := true;
      inFlight, receives, accepted, completed, late := false, 0, [], "", 0;
      new;
      StartConserves(oBuffer.pBuffer.Length, m_byOutBuffer.Length);
    }

    /** WriteBytes: the bytes are copied, and no other write is under way, so that its copy is not overwritten. */
    method WriteBytes(ok: bool) returns (started: bool)
      requires Valid() && !inFlight
      modifies this`bWriteInProgress, this`outLength, this`ioWorkersReferenceCounter, this`inFlight, m_byOutBuffer
      ensures Valid() && started == ok && State() == Write(old(State()), m_byOutBuffer.Length, ok)
    {
      var dwToPick := if m_byOutBuffer.Length < oBuffer.uSize then m_byOutBuffer.Length else oBuffer.uSize;
      forall k | 0 <= k < dwToPick {
        m_byOutBuffer[k] := oBuffer.pBuffer[k];
      }
      outLength := dwToPick;
      assert m_byOutBuffer[..outLength] == oBuffer.Contents()[..dwToPick];
      if !ok {
        return false;
      }
      bWriteInProgress := true;
      inFlight := true;
      ioWorkersReferenceCounter := ioWorkersReferenceCounter + 1;
      return true;
    }

    /** PushPacket */
    method Push(data: Option<string>, ok: bool) returns (result: SendResult)
      requires Valid() && Conserving()
      modifies this`bWriteInProgress, this`outLength, this`ioWorkersReferenceCounter
      modifies this`inFlight, this`accepted, m_byOutBuffer, oBuffer`uSize, oBuffer.pBuffer
      ensures Valid() && Conserving()
      ensures (State(), result)
        == PushPacket(old(State()), data, ok, oBuffer.pBuffer.Length, m_byOutBuffer.Length)
    {
      hide Framed;
      PushConserves(State(), data, ok, oBuffer.pBuffer.Length, m_byOutBuffer.Length);
      if status == Disposable || status == WaitingForWrite {
        return SendNotOK;
      }
      if data.None? {
        return SendNotOK;
      }
      ghost var before := oBuffer.Contents();
      var framed, _ := FrameOutgoingPacket(data.value, oBuffer);
      if framed != Success {
        assert before + "" == before;
        return SendRetry;
      }
      FramedOne(before, data.value);
      accepted := accepted + [data.value];
      if !bWriteInProgress {
        var started := WriteBytes(ok);
        return if started then SendOK else SendNotOK;
      }
      return SendOK;
    }

    /** OnSendCompleted */
    method OnSendCompleted(n: nat, ok: bool) returns (bIsBufferIdle: bool)
      requires Valid() && !inFlight && n <= oBuffer.uSize
      modifies this`status, this`bWriteInProgress, this`outLength, this`ioWorkersReferenceCounter
      modifies this`inFlight, m_byOutBuffer, oBuffer`uSize, oBuffer.pBuffer
      ensures Valid() && State() == SendCompleted(old(State()), n, ok, m_byOutBuffer.Length)
      ensures old(status) != Disposable ==> bIsBufferIdle == (oBuffer.Contents() == "")
    {
      hide Write;
      if status == Disposable {
        return false;
      }
      oBuffer.Pop(n);
      bIsBufferIdle := oBuffer.uSize == 0;
      if bIsBufferIdle {
        if status == WaitingForWrite {
          status := Disposable;
        } else {
          bWriteInProgress := false;
        }
        return;
      }
      var _ := WriteBytes(ok);
    }

    /** Dispatcher::OnWriteComplete */
    method OnWriteComplete(n: nat, ok: bool) returns (bIsBufferIdle: bool)
      requires Valid() && Conserving() && inFlight && n <= outLength
      modifies this`status, this`bWriteInProgress, this`outLength, this`ioWorkersReferenceCounter
      modifies this`inFlight, this`completed, m_byOutBuffer, oBuffer`uSize, oBuffer.pBuffer
      ensures Valid() && Conserving()
      ensures State() == WriteCompleted(old(State()), n, ok, m_byOutBuffer.Length)
      ensures old(status) != Disposable ==> bIsBufferIdle == (oBuffer.Contents() == "")
    {
      hide SendCompleted, Conserves;
      ghost var c := State();
      InFlight(c, oBuffer.pBuffer.Length, m_byOutBuffer.Length);
      CompleteConserves(c, n, ok, oBuffer.pBuffer.Length, m_byOutBuffer.Length);
      inFlight, completed := false, completed + m_byOutBuffer[..n];
      assert c.flight.value[..n] == m_byOutBuffer[..n];
      bIsBufferIdle := OnSendCompleted(n, ok);
      ioWorkersReferenceCounter := ioWorkersReferenceCounter - 1;
    }

    method CloseConnection(bWaitForSendsToComplete: bool)
      requires Valid() && Conserving()
      modifies this`status
      ensures Valid() && Conserving() && State() == Close(old(State()), bWaitForSendsToComplete)
    {
      hide Framed;
      if status == Disposable || status == WaitingForWrite {
        return;
      }
      if bWaitForSendsToComplete {
        if oBuffer.uSize == 0 {
          status := Disposable;
        } else {
          status := WaitingForWrite;
        }
      } else {
        status := Disposable;
      }
    }

    /** ProcessFirstPacket from RemoveFromUnattachedList on. */
    method AttachToClient() returns (attached: bool)
      requires Valid() && Conserving() && receives > 0 && (pending ==> status == Connected)
      modifies this`status, this`pending, this`ioWorkersReferenceCounter, this`late
      ensures Valid() && Conserving() && State() == Attach(old(State())) && attached == old(pending)
    {
      hide Conserves;
      AttachConserves(State(), oBuffer.pBuffer.Length, m_byOutBuffer.Length);
      if !pending {
        ioWorkersReferenceCounter := ioWorkersReferenceCounter - 1;
        late := late + 1;
        return false;
      }
      pending := false;
      status := Attached;
      return true;
    }

    /** The most that ReadReceivedBytes asks for. */
    function MaxToPick(): nat
      requires Valid()
      reads this, inBuffer, oBuffer
    {
      if uReadBufferSize < inBuffer.RemainingSize() then uReadBufferSize else inBuffer.RemainingSize()
    }

    /** PostReceive */
    method StartReceive(ok: bool)
      requires Valid() && Conserving()
      modifies this`ioWorkersReferenceCounter, this`receives
      ensures Valid() && Conserving() && State() == PostReceive(old(State()), ok)
    {
      hide Framed;
      if status == Disposable || status == WaitingForWrite {
        return;
      }
      if ok {
        receives := receives + 1;
        ioWorkersReferenceCounter := ioWorkersReferenceCounter + 1;
      }
    }

    /**
     ReadReceivedBytes, where recv gives `arrives`: nothing when the peer has closed, or nothing was asked for. On a
     connection that is closed, or waits to be, the size stays what it was.
     */
    method ReadReceivedBytes(arrives: string, dwIoSize: nat) returns (result: Status, dwIoSize': nat)
      requires Valid() && (Open(status) ==> |arrives| <= MaxToPick())
      modifies inBuffer`uSize, inBuffer.pBuffer
      ensures Valid() && result == status && dwIoSize' == if Open(status) then |arrives| else dwIoSize
      ensures inBuffer.Contents() == old(inBuffer.Contents()) + if Open(status) then arrives else ""
    {
      if status == Disposable || status == WaitingForWrite {
        assert inBuffer.Contents() + "" == inBuffer.Contents();
        return status, dwIoSize;
      }
      inBuffer.Copy(arrives);
      inBuffer.GrowSize(|arrives|);
      return status, |arrives|;
    }

    /**
     Dispatcher::OnReceiveComplete: `handed` are the messages that are dispatched. When the buffer is full, nothing
     was asked for, and the connection is closed like one that the peer has closed.
     */
    method OnReceiveComplete(arrives: string, decodes: string -> bool) returns (handed: seq<string>)
      requires Valid() && Conserving() && receives > 0 && (Open(status) ==> |arrives| <= MaxToPick())
      modifies this`status, this`ioWorkersReferenceCounter, this`receives, inBuffer`uSize, inBuffer.pBuffer
      ensures Valid() && Conserving()
      ensures State() == ReceiveCompleted(old(State()), arrives != "", true)
      ensures Open(old(status)) && |old(inBuffer.Contents())| == inBuffer.pBuffer.Length ==> status == Disposable
      ensures
        if !Open(old(status)) then handed == [] && inBuffer.Contents() == old(inBuffer.Contents())
        else
          var s := old(inBuffer.Contents()) + arrives;
          if arrives == "" then handed == [] && inBuffer.Contents() == s
          else handed == Decodable(Frames(s), decodes) && inBuffer.Contents() == Rest(s)
    {
      hide Frames, Rest, Decodable, Conserves;
      ReceiveConserves(State(), arrives != "", true, oBuffer.pBuffer.Length, m_byOutBuffer.Length);
      var result, dwIoSize := ReadReceivedBytes(arrives, 0);
      handed := [];
      if result == Connected || result == Attached {
        if dwIoSize == 0 {
          CloseConnection(false);
        } else {
          handed := ProcessReceived(inBuffer, decodes);
          StartReceive(true);
        }
      }
      ioWorkersReferenceCounter := ioWorkersReferenceCounter - 1;
      receives := receives - 1;
    }
  }
}
