/** The framing of XMLProtocol.cpp, in which a NUL ends each message, and the receive loop of Dispatcher_Linux.cpp. */
module Framing {

  import opened DataBuffers

  const NUL := '\0'

  // ---------- Frames in a stream ----------

  predicate Clean(s: string) {
    forall j :: 0 <= j < |s| ==> s[j] != NUL
  }

  /** The place of the first NUL from `i` on, or the length. */
  function FirstNul(s: string, i: nat): (k: nat)
    requires i <= |s|
    ensures i <= k <= |s| && (k < |s| ==> s[k] == NUL) && forall j :: i <= j < k ==> s[j] != NUL
    decreases |s| - i
  {
    if i == |s| || s[i] == NUL then i else FirstNul(s, i + 1)
  }

  /** The messages that end in `s`. */
  function Frames(s: string): seq<string>
    decreases |s|
  {
    var k := FirstNul(s, 0);
    if k == |s| then [] else [s[..k]] + Frames(s[k + 1..])
  }

  /** What stands behind the last NUL. */
  function Rest(s: string): string
    decreases |s|
  {
    var k := FirstNul(s, 0);
    if k == |s| then s else Rest(s[k + 1..])
  }

  /** The messages as a stream of frames. */
  function Framed(msgs: seq<string>): string {
    if msgs == [] then "" else msgs[0] + [NUL] + Framed(msgs[1..])
  }

  lemma {:induction false} FirstNulIs(s: string, i: nat, k: nat)
    requires i <= k <= |s| && (forall j :: i <= j < k ==> s[j] != NUL) && (k < |s| ==> s[k] == NUL)
    ensures FirstNul(s, i) == k
    decreases k - i
  {
    if i < k {
      FirstNulIs(s, i + 1, k);
    }
  }

  lemma FramesOfFrame(m: string, s: string)
    requires Clean(m)
    ensures Frames(m + [NUL] + s) == [m] + Frames(s) && Rest(m + [NUL] + s) == Rest(s)
  {
    var t := m + [NUL] + s;
    assert t[..|m|] == m && t[|m| + 1..] == s && t[|m|] == NUL;
    FirstNulIs(t, 0, |m|);
  }

  lemma NoFrames(s: string)
    requires Clean(s)
    ensures Frames(s) == [] && Rest(s) == s
  {
    FirstNulIs(s, 0, |s|);
  }

  lemma FramedCons(m: string, msgs: seq<string>)
    ensures Framed([m] + msgs) == m + [NUL] + Framed(msgs)
  {
    assert ([m] + msgs)[1..] == msgs;
  }

  lemma Append3(a: string, b: string, c: string, d: string)
    ensures a + b + (c + d) == a + b + c + d
  {
  }

  lemma Take1(s: string, k: nat)
    requires k < |s| && s[k] == NUL
    ensures s == s[..k] + [NUL] + s[k + 1..]
  {
  }

  /** A stream is its frames, and a rest without NUL. */
  lemma {:induction false} FramesAndRest(s: string)
    ensures s == Framed(Frames(s)) + Rest(s) && Clean(Rest(s))
    ensures forall m <- Frames(s) :: Clean(m)
    decreases |s|
  {
    hide Framed;
    var k := FirstNul(s, 0);
    if k < |s| {
      var m, t := s[..k], s[k + 1..];
      FramesAndRest(t);
      Take1(s, k);
      FramedCons(m, Frames(t));
      Append3(m, [NUL], Framed(Frames(t)), Rest(t));
    } else {
      FramedNone(s);
    }
  }

  lemma FramedNone(s: string)
    ensures Framed([]) + s == s
  {
  }

  lemma {:induction false} FramesOfFramed(msgs: seq<string>, s: string)
    requires forall m <- msgs :: Clean(m)
    ensures Frames(Framed(msgs) + s) == msgs + Frames(s) && Rest(Framed(msgs) + s) == Rest(s)
  {
    hide Frames, Rest, FirstNul, Clean;
    if msgs == [] {
      assert Framed(msgs) + s == s && msgs + Frames(s) == Frames(s);
    } else {
      FramesOfFramed(msgs[1..], s);
      FramesOfFrame(msgs[0], Framed(msgs[1..]) + s);
      Append3(msgs[0], [NUL], Framed(msgs[1..]), s);
      assert msgs + Frames(s) == [msgs[0]] + (msgs[1..] + Frames(s));
    }
  }

  /** Framing is undone exactly when no message holds a NUL. */
  lemma FramingRoundTrip(msgs: seq<string>)
    ensures Frames(Framed(msgs)) == msgs <==> forall m <- msgs :: Clean(m)
  {
    if forall m <- msgs :: Clean(m) {
      FramesOfFramed(msgs, "");
      NoFrames("");
      assert Framed(msgs) + "" == Framed(msgs);
    }
    FramesAndRest(Framed(msgs));
  }

  /** Frames may be taken out before the rest of the stream arrives. */
  lemma FramesOfParts(a: string, b: string)
    ensures Frames(a + b) == Frames(a) + Frames(Rest(a) + b) && Rest(a + b) == Rest(Rest(a) + b)
  {
    FramesAndRest(a);
    FramesOfFramed(Frames(a), Rest(a) + b);
    assert a + b == Framed(Frames(a)) + (Rest(a) + b);
  }

  // ---------- Receiving in parts ----------

  function Concat(chunks: seq<string>): string {
    if chunks == [] then "" else chunks[0] + Concat(chunks[1..])
  }

  /** The rounds of the receive loop, one for each part that arrives: all the frames, and the buffer at the end. */
  function ReceiveAll(rest: string, chunks: seq<string>): (seq<string>, string)
    decreases |chunks|
  {
    if chunks == [] then ([], rest)
    else
      var s := rest + chunks[0];
      var (frames, end) := ReceiveAll(Rest(s), chunks[1..]);
      (Frames(s) + frames, end)
  }

  /** However the stream arrives, the same frames are taken out. */
  lemma {:induction false} ReceiveAllIs(rest: string, chunks: seq<string>)
    requires Clean(rest)
    ensures ReceiveAll(rest, chunks) == (Frames(rest + Concat(chunks)), Rest(rest + Concat(chunks)))
    decreases |chunks|
  {
    if chunks == [] {
      assert rest + "" == rest;
      NoFrames(rest);
    } else {
      var s := rest + chunks[0];
      FramesAndRest(s);
      ReceiveAllIs(Rest(s), chunks[1..]);
      FramesOfParts(s, Concat(chunks[1..]));
      assert rest + Concat(chunks) == s + Concat(chunks[1..]);
    }
  }

  lemma CleanPart(m: string, n: nat)
    requires Clean(m) && n <= |m|
    ensures Clean(m[..n])
  {
  }

  /** The part of a stream of frames that has arrived: whole messages, and the start of one. */
  lemma {:induction false} CutStream(msgs: seq<string>, n: nat) returns (k: nat)
    requires n <= |Framed(msgs)| && forall m <- msgs :: Clean(m)
    ensures k <= |msgs|
    ensures Frames(Framed(msgs)[..n]) == msgs[..k]
    ensures if k < |msgs| then Rest(Framed(msgs)[..n]) <= msgs[k] else Rest(Framed(msgs)[..n]) == ""
  {
    hide Frames, Rest, FirstNul;
    var s := Framed(msgs)[..n];
    if msgs == [] {
      NoFrames(s);
      k := 0;
    } else if n <= |msgs[0]| {
      CleanPart(msgs[0], n);
      assert s == msgs[0][..n];
      NoFrames(s);
      k := 0;
    } else {
      var m, more := msgs[0], Framed(msgs[1..]);
      var n' := n - |m| - 1;
      k := CutStream(msgs[1..], n');
      assert s == m + [NUL] + more[..n'];
      FramesOfFrame(m, more[..n']);
      assert msgs[..k + 1] == [m] + msgs[1..][..k];
      k := k + 1;
    }
  }

  /**
   However a stream of frames is split, exactly the messages that have wholly arrived are taken out, in order. If
   every message fits the buffer together with its NUL, there is room to receive more.
   */
  lemma ChunkingIndependence(msgs: seq<string>, chunks: seq<string>, capacity: nat) returns (k: nat)
    requires forall m <- msgs :: Clean(m) && |m| < capacity
    requires Concat(chunks) <= Framed(msgs) && capacity > 0
    ensures k <= |msgs| && ReceiveAll("", chunks).0 == msgs[..k]
    ensures if k < |msgs| then ReceiveAll("", chunks).1 <= msgs[k] else ReceiveAll("", chunks).1 == ""
    ensures |ReceiveAll("", chunks).1| < capacity
    ensures Concat(chunks) == Framed(msgs) ==> k == |msgs|
  {
    var s := Concat(chunks);
    assert "" + s == s && s == Framed(msgs)[..|s|];
    ReceiveAllIs("", chunks);
    k := CutStream(msgs, |s|);
    if s == Framed(msgs) {
      FramingRoundTrip(msgs);
    }
  }

  lemma {:induction false} FramedMore(msgs: seq<string>, m: string)
    ensures Framed(msgs + [m]) == Framed(msgs) + (m + [NUL])
  {
    if msgs == [] {
      assert msgs + [m] == [m] && [m][1..] == [];
    } else {
      FramedMore(msgs[1..], m);
      assert (msgs + [m])[1..] == msgs[1..] + [m];
    }
  }

  // ---------- The room in the receive buffer ----------

  /** How much one receive asks for when `rest` stands in the buffer. */
  function Asked(rest: string, readSize: nat, capacity: nat): int {
    if readSize < capacity - |rest| then readSize else capacity - |rest|
  }

  /** Every part fits what is asked for in its round, and is not empty, which would close the connection. */
  predicate Admitted(rest: string, chunks: seq<string>, readSize: nat, capacity: nat)
    decreases |chunks|
  {
    chunks == [] ||
    (&& 0 < |chunks[0]| <= Asked(rest, readSize, capacity)
     && Admitted(Rest(rest + chunks[0]), chunks[1..], readSize, capacity))
  }

  /**
   A message that does not fit fills the buffer, however it arrives behind others that do. The next round asks for
   nothing, and so takes the connection for closed by the peer.
   */
  lemma TooLongMessage(msgs: seq<string>, m: string, chunks: seq<string>, readSize: nat, capacity: nat)
    requires forall x <- msgs :: Clean(x) && |x| < capacity
    requires Clean(m) && capacity <= |m| && Concat(chunks) == Framed(msgs) + m[..capacity]
    requires Admitted("", chunks, readSize, capacity)
    ensures ReceiveAll("", chunks) == (msgs, m[..capacity]) && Asked(m[..capacity], readSize, capacity) == 0
  {
    var s := Concat(chunks);
    assert "" + s == s;
    ReceiveAllIs("", chunks);
    NoFrames(m[..capacity]);
    FramesOfFramed(msgs, m[..capacity]);
    assert msgs + [] == msgs;
  }

  /** One character at a time. */
  function Singles(s: string): (chunks: seq<string>)
    ensures |chunks| == |s|
  {
    if s == "" then [] else [s[..1]] + Singles(s[1..])
  }

  lemma {:induction false} ConcatSingles(s: string)
    ensures Concat(Singles(s)) == s
  {
    if s != "" {
      ConcatSingles(s[1..]);
      assert Singles(s)[1..] == Singles(s[1..]);
    }
  }

  lemma {:induction false} SinglesAdmitted(p: string, s: string, readSize: nat, capacity: nat)
    requires readSize > 0 && forall n :: 0 <= n < |s| ==> |Rest(p + s[..n])| < capacity
    ensures Admitted(Rest(p), Singles(s), readSize, capacity)
    decreases |s|
  {
    hide Rest;
    if s != "" {
      assert p + s[..0] == p;
      forall n | 0 <= n < |s[1..]| ensures |Rest(p + s[..1] + s[1..][..n])| < capacity {
        assert p + s[..1] + s[1..][..n] == p + s[..n + 1];
      }
      SinglesAdmitted(p + s[..1], s[1..], readSize, capacity);
      FramesOfParts(p, s[..1]);
      assert Singles(s)[1..] == Singles(s[1..]);
    }
  }

  lemma {:induction false} FramedPrefix(msgs: seq<string>, k: nat)
    requires k <= |msgs|
    ensures Framed(msgs) == Framed(msgs[..k]) + Framed(msgs[k..])
  {
    if k > 0 {
      FramedPrefix(msgs[1..], k - 1);
      assert msgs[..k][1..] == msgs[1..][..k - 1] && msgs[1..][k - 1..] == msgs[k..];
    }
  }

  /** While a message arrives behind others that fit, less than its part stands in the buffer. */
  lemma RestIsShort(msgs: seq<string>, m: string, n: nat, capacity: nat)
    requires Clean(m) && |m| == capacity && (forall x <- msgs :: Clean(x) && |x| < capacity)
    requires n < |Framed(msgs) + m|
    ensures |Rest((Framed(msgs) + m)[..n])| < capacity
  {
    hide Rest, Frames;
    var all := msgs + [m];
    FramedMore(msgs, m);
    assert (Framed(msgs) + m)[..n] == Framed(all)[..n];
    var k := CutStream(all, n);
    if k == |msgs| {
      assert all[..k] == msgs;
      FramesAndRest(Framed(all)[..n]);
    }
  }

  /** There is always room to receive more, in whatever parts the messages arrive, exactly if every message fits. */
  lemma NeverFullExactly(msgs: seq<string>, readSize: nat, capacity: nat)
    requires capacity > 0 && readSize > 0 && forall m <- msgs :: Clean(m)
    ensures
      (forall chunks :: Admitted("", chunks, readSize, capacity) && Concat(chunks) <= Framed(msgs)
        ==> Asked(ReceiveAll("", chunks).1, readSize, capacity) > 0)
      <==> forall m <- msgs :: |m| < capacity
  {
    hide Rest, Frames, Framed, Admitted, Concat, ReceiveAll;
    if forall m <- msgs :: |m| < capacity {
      forall chunks | Admitted("", chunks, readSize, capacity) && Concat(chunks) <= Framed(msgs)
        ensures Asked(ReceiveAll("", chunks).1, readSize, capacity) > 0
      {
        var k := ChunkingIndependence(msgs, chunks, capacity);
      }
    } else {
      var chunks := FillingParts(msgs, readSize, capacity);
    }
  }

  /** Parts that fill the buffer when some message does not fit. */
  lemma FillingParts(msgs: seq<string>, readSize: nat, capacity: nat) returns (chunks: seq<string>)
    requires capacity > 0 && readSize > 0 && (forall m <- msgs :: Clean(m)) && exists m <- msgs :: |m| >= capacity
    ensures Admitted("", chunks, readSize, capacity) && Concat(chunks) <= Framed(msgs)
    ensures Asked(ReceiveAll("", chunks).1, readSize, capacity) == 0
  {
    hide Rest, Frames, Admitted, Concat, ReceiveAll, Singles;
    var j := FirstLong(msgs, capacity);
    var m := msgs[j][..capacity];
    var s := Framed(msgs[..j]) + m;
    chunks := Singles(s);
    ConcatSingles(s);
    CleanPart(msgs[j], capacity);
    forall n | 0 <= n < |s| ensures |Rest("" + s[..n])| < capacity {
      RestIsShort(msgs[..j], m, n, capacity);
      assert "" + s[..n] == s[..n];
    }
    SinglesAdmitted("", s, readSize, capacity);
    NoFrames("");
    FramedPrefix(msgs, j);
    assert Framed(msgs[j..])[..capacity] == m;
    TooLongMessage(msgs[..j], msgs[j], chunks, readSize, capacity);
  }

  lemma FirstLong(msgs: seq<string>, capacity: nat) returns (j: nat)
    requires exists m <- msgs :: |m| >= capacity
    ensures j < |msgs| && |msgs[j]| >= capacity && forall x <- msgs[..j] :: |x| < capacity
  {
    j := 0;
    while |msgs[j]| < capacity
      invariant j < |msgs| && (forall x <- msgs[..j] :: |x| < capacity) && exists m <- msgs[j..] :: |m| >= capacity
      decreases |msgs| - j
    {
      j := j + 1;
    }
  }

  // ---------- The protocol object and the loop ----------

  datatype ProtocolResult = Success | InsufficientBuffer | IncompletePacket | EncodingFailure | DecodingFailure

  /** XMLProtocol::frameOutgoingPacket: the frame is appended as a whole, or not at all. */
  method FrameOutgoingPacket(data: string, buffer: DataBuffer) returns (result: ProtocolResult, nWrittenBytes: nat)
    requires buffer.Valid()
    modifies buffer`uSize, buffer.pBuffer
    ensures buffer.Valid() && nWrittenBytes == |data| + 1
    ensures result == if |data| + 1 <= old(buffer.RemainingSize()) then Success else InsufficientBuffer
    ensures buffer.Contents() == old(buffer.Contents()) + if result.Success? then Framed([data]) else ""
  {
    nWrittenBytes := |data| + 1;
    if nWrittenBytes > buffer.RemainingSize() {
      return InsufficientBuffer, nWrittenBytes;
    }
    ghost var before := buffer.Contents();
    var _ := buffer.Append(data);
    var _ := buffer.Append([NUL]);
    assert Framed([data]) == data + [NUL] + Framed([]);
    assert before + data + [NUL] == before + (data + [NUL] + "");
    return Success, nWrittenBytes;
  }

  /** XMLProtocol::tryDeframeIncomingPacket, where `decodes` tells the messages that the XML parser accepts. */
  method TryDeframeIncomingPacket(buffer: DataBuffer, decodes: string -> bool)
    returns (result: ProtocolResult, data: string, nExtractedBytes: nat)
    requires buffer.Valid()
    ensures
      var s := buffer.Contents();
      var k := FirstNul(s, 0);
      if k == |s| then result == IncompletePacket
      else
        && nExtractedBytes == k + 1 && data == s[..k]
        && result == if decodes(s[..k]) then Success else DecodingFailure
  {
    var offset := 0;
    while offset < buffer.uSize
      invariant offset <= buffer.uSize && FirstNul(buffer.Contents(), 0) == FirstNul(buffer.Contents(), offset)
    {
      if buffer.pBuffer[offset] == NUL {
        data := buffer.pBuffer[..offset];
        return if decodes(data) then Success else DecodingFailure, data, offset + 1;
      }
      offset := offset + 1;
    }
    return IncompletePacket, "", 0;
  }

  /** The messages that are handed on. */
  function Decodable(msgs: seq<string>, decodes: string -> bool): seq<string> {
    if msgs == [] then []
    else (if decodes(msgs[0]) then [msgs[0]] else []) + Decodable(msgs[1..], decodes)
  }

  lemma DecodableFirst(m: string, msgs: seq<string>, decodes: string -> bool)
    ensures Decodable([m] + msgs, decodes) == (if decodes(m) then [m] else []) + Decodable(msgs, decodes)
  {
    assert ([m] + msgs)[1..] == msgs;
  }

  /**
   The processing loop of Dispatcher::OnReceiveComplete: every frame in the buffer is popped, and handed on if it
   can be decoded.
   */
  method ProcessReceived(buffer: DataBuffer, decodes: string -> bool) returns (handed: seq<string>)
    requires buffer.Valid()
    modifies buffer`uSize, buffer.pBuffer
    ensures buffer.Valid() && buffer.Contents() == Rest(old(buffer.Contents()))
    ensures handed == Decodable(Frames(old(buffer.Contents())), decodes)
  {
    hide Frames, Rest, FirstNul, Decodable;
    ghost var s := buffer.Contents();
    handed := [];
    while true
      invariant buffer.Valid() && Rest(buffer.Contents()) == Rest(s)
      invariant handed + Decodable(Frames(buffer.Contents()), decodes) == Decodable(Frames(s), decodes)
      decreases buffer.uSize
    {
      ghost var now := buffer.Contents();
      var result, data, nExtractedBytes := TryDeframeIncomingPacket(buffer, decodes);
      HandedOn(handed, now, decodes);
      if result.IncompletePacket? {
        break;
      }
      buffer.Pop(nExtractedBytes);
      if result.Success? {
        handed := handed + [data];
      }
    }
  }

  /** What a round of the loop hands on, and what is left to hand on. */
  lemma HandedOn(handed: seq<string>, s: string, decodes: string -> bool)
    ensures
      var k := FirstNul(s, 0);
      var all := handed + Decodable(Frames(s), decodes);
      if k == |s| then Rest(s) == s && all == handed
      else
        && Rest(s) == Rest(s[k + 1..])
        && all == (if decodes(s[..k]) then handed + [s[..k]] else handed) + Decodable(Frames(s[k + 1..]), decodes)
  {
    hide Frames, Rest, FirstNul, Decodable;
    FirstFrame(s, decodes);
    var k := FirstNul(s, 0);
    if k < |s| {
      var rest := Decodable(Frames(s[k + 1..]), decodes);
      Joined(handed, if decodes(s[..k]) then [s[..k]] else [], rest);
      Joined(handed, [], rest);
    } else {
      assert handed + [] == handed;
    }
  }

  lemma Joined<T>(a: seq<T>, b: seq<T>, c: seq<T>)
    ensures a + (b + c) == a + b + c
    ensures b == [] ==> a + b == a
  {
  }

  lemma FirstFrame(s: string, decodes: string -> bool)
    ensures
      var k := FirstNul(s, 0);
      if k == |s| then Rest(s) == s && Decodable(Frames(s), decodes) == []
      else
        && Rest(s) == Rest(s[k + 1..])
        && Decodable(Frames(s), decodes)
           == (if decodes(s[..k]) then [s[..k]] else []) + Decodable(Frames(s[k + 1..]), decodes)
  {
    var k := FirstNul(s, 0);
    if k < |s| {
      DecodableFirst(s[..k], Frames(s[k + 1..]), decodes);
    }
  }
}
