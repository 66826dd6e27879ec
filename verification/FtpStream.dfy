/** The download path of one FTP tunnel connection: the server's numbering and the client's write loop. */
module FtpStream {
  import opened Bytes
  import opened FtpFrames
  import opened ReorderBuffer
  import opened ReorderRuns
  import opened Sequences

  // ---------- the server's end ----------

  /** One read from the upstream connection: bytes, or the end, or both. */
  datatype Read = Read(data: seq<byte>, ended: bool)

  function NonEmpty(data: seq<byte>): seq<seq<byte>> {
    if data == [] then [] else [data]
  }

  /** The non-empty reads, up to the one that ends. */
  function Chunks(input: seq<Read>): seq<seq<byte>> {
    if input == [] then [] else NonEmpty(input[0].data) + if input[0].ended then [] else Chunks(input[1..])
  }

  predicate Ends(input: seq<Read>) {
    exists r <- input :: r.ended
  }

  function DataFrame(connId: u32, chunks: seq<seq<byte>>, i: nat): Frame
    requires i < |chunks|
  {
    Frame(connId, TYPE_DATA, ToU32(i + 1), chunks[i])
  }

  function CloseFrame(connId: u32, n: nat): Frame {
    Frame(connId, TYPE_CLOSE, ToU32(n + 1), [])
  }

  /** Data frames numbered from 1. */
  function DataFrames(connId: u32, chunks: seq<seq<byte>>): (fs: seq<Frame>)
    ensures |fs| == |chunks| && forall i :: 0 <= i < |fs| ==> fs[i] == DataFrame(connId, chunks, i)
  {
    seq(|chunks|, i requires 0 <= i < |chunks| => DataFrame(connId, chunks, i))
  }

  /** The data frames, then the close frame. */
  function Stream(connId: u32, chunks: seq<seq<byte>>): seq<Frame> {
    DataFrames(connId, chunks) + [CloseFrame(connId, |chunks|)]
  }

  function Sent(connId: u32, input: seq<Read>): seq<Frame> {
    if Ends(input) then Stream(connId, Chunks(input)) else DataFrames(connId, Chunks(input))
  }

  /** The state of the pump: the number last used, and the frames sent for the chunks so far. */
  ghost predicate Pumped(connId: u32, chunks: seq<seq<byte>>, sendSeq: u32, frames: seq<Frame>) {
    sendSeq == ToU32(|chunks|) && frames == DataFrames(connId, chunks)
  }

  lemma ChunkPumped(connId: u32, chunks: seq<seq<byte>>, d: seq<byte>, sendSeq: u32, frames: seq<Frame>)
    requires Pumped(connId, chunks, sendSeq, frames) && d != []
    ensures var next := ToU32(sendSeq + 1);
            Pumped(connId, chunks + NonEmpty(d), next, frames + [Frame(connId, TYPE_DATA, next, d)])
  {
    ToU32Next(|chunks|);
  }

  lemma SentWhenEnded(
      connId: u32, input: seq<Read>, i: nat, chunks: seq<seq<byte>>, sendSeq: u32, frames: seq<Frame>)
    requires i < |input| && input[i].ended && Chunks(input) == chunks
    requires Pumped(connId, chunks, sendSeq, frames)
    ensures frames + [Frame(connId, TYPE_CLOSE, ToU32(sendSeq + 1), [])] == Sent(connId, input)
  {
    ToU32Next(|chunks|);
    assert input[i] in input;
    assert Frame(connId, TYPE_CLOSE, ToU32(sendSeq + 1), []) == CloseFrame(connId, |chunks|);
  }

  lemma SentWhenOpen(connId: u32, input: seq<Read>, chunks: seq<seq<byte>>, sendSeq: u32, frames: seq<Frame>)
    requires (forall j :: 0 <= j < |input| ==> !input[j].ended) && Chunks(input) == chunks + Chunks(input[|input|..])
    requires Pumped(connId, chunks, sendSeq, frames)
    ensures frames == Sent(connId, input)
  {
    assert input[|input|..] == [] && chunks + [] == chunks;
  }

  lemma ChunksTaken(input: seq<Read>, i: nat, chunks: seq<seq<byte>>)
    requires i < |input| && Chunks(input) == chunks + Chunks(input[i..])
    ensures var more := chunks + NonEmpty(input[i].data);
            Chunks(input) == if input[i].ended then more else more + Chunks(input[i + 1..])
  {
    var first := NonEmpty(input[i].data);
    assert input[i..][1..] == input[i + 1..];
    if input[i].ended {
      assert first + [] == first;
    } else {
      ConcatIsAssociative(chunks, first, Chunks(input[i + 1..]));
    }
  }

  method PumpTcp(connId: u32, input: seq<Read>) returns (frames: seq<Frame>)
    ensures frames == Sent(connId, input)
  {
    frames := [];
    var sendSeq: u32 := 0;
    ghost var chunks: seq<seq<byte>> := [];
    var i := 0;
    assert input[0..] == input;
    while i < |input|
      invariant 0 <= i <= |input|
      invariant Pumped(connId, chunks, sendSeq, frames)
      invariant Chunks(input) == chunks + Chunks(input[i..])
      invariant forall j :: 0 <= j < i ==> !input[j].ended
    {
      var r := input[i];
      ChunksTaken(input, i, chunks);
      if r.data != [] {
        ChunkPumped(connId, chunks, r.data, sendSeq, frames);
        sendSeq := ToU32(sendSeq + 1);
        frames := frames + [Frame(connId, TYPE_DATA, sendSeq, r.data)];
      } else {
        assert chunks + [] == chunks;
      }
      chunks := chunks + NonEmpty(r.data);
      if r.ended {
        SentWhenEnded(connId, input, i, chunks, sendSeq, frames);
        sendSeq := ToU32(sendSeq + 1);
        frames := frames + [Frame(connId, TYPE_CLOSE, sendSeq, [])];
        return;
      }
      i := i + 1;
    }
    SentWhenOpen(connId, input, chunks, sendSeq, frames);
  }

  /** The bytes of the reads, up to the one that ends. */
  function BytesRead(input: seq<Read>): seq<byte> {
    if input == [] then [] else input[0].data + if input[0].ended then [] else BytesRead(input[1..])
  }

  lemma {:induction false} ChunksCarryTheBytes(input: seq<Read>)
    ensures Flatten(Chunks(input)) == BytesRead(input)
    ensures forall c <- Chunks(input) :: c != []
    decreases input
  {
    if input != [] {
      var first, rest := NonEmpty(input[0].data), if input[0].ended then [] else Chunks(input[1..]);
      ChunksCarryTheBytes(input[1..]);
      FlattenConcat(first, rest);
      assert Flatten([input[0].data]) == input[0].data + Flatten([]);
      assert input[0].data + [] == input[0].data;
    }
  }

  /** The `i`-th frame of a connection, from 0: its number, and type 3 without data if it closes, 1 with data if not. */
  predicate IsSent(f: Frame, connId: u32, i: nat, closes: bool) {
    && f.connId == connId && f.seqNo == (i + 1) % 0x1_0000_0000
    && f.typ == (if closes then 0x03 else 0x01) && (f.data == [] <==> closes)
  }

  lemma DataIsSent(connId: u32, chunks: seq<seq<byte>>, i: nat)
    requires i < |chunks| && chunks[i] != []
    ensures IsSent(DataFrame(connId, chunks, i), connId, i, false)
  {
  }

  lemma CloseIsSent(connId: u32, n: nat)
    ensures IsSent(CloseFrame(connId, n), connId, n, true)
  {
  }

  lemma ChunkIsNotEmpty(input: seq<Read>, i: nat)
    requires i < |Chunks(input)|
    ensures Chunks(input)[i] != []
  {
    ChunksCarryTheBytes(input);
    assert Chunks(input)[i] in Chunks(input);
  }

  lemma SentAt(connId: u32, input: seq<Read>, i: nat)
    requires i < |Sent(connId, input)|
    ensures |Sent(connId, input)| == |Chunks(input)| + if Ends(input) then 1 else 0
    ensures Sent(connId, input)[i] ==
            if i < |Chunks(input)| then DataFrame(connId, Chunks(input), i) else CloseFrame(connId, |Chunks(input)|)
  {
  }

  /** Frame by frame: the last one closes if the upstream has ended, and all others carry data. */
  lemma SentFrameByFrame(connId: u32, input: seq<Read>, i: nat)
    requires i < |Sent(connId, input)|
    ensures IsSent(Sent(connId, input)[i], connId, i, Ends(input) && i == |Sent(connId, input)| - 1)
  {
    var chunks := Chunks(input);
    SentAt(connId, input, i);
    if i < |chunks| {
      ChunkIsNotEmpty(input, i);
      DataIsSent(connId, chunks, i);
    } else {
      CloseIsSent(connId, |chunks|);
    }
  }

  // ---------- the client's end ----------

  /** What the write loop writes for these frames. */
  function Written(raw: seq<Frame>): seq<byte> {
    if raw == [] || raw[0].typ == TYPE_CLOSE then []
    else (if raw[0].typ == TYPE_DATA then raw[0].data else []) + Written(raw[1..])
  }

  predicate SeesClose(raw: seq<Frame>) {
    exists f <- raw :: f.typ == TYPE_CLOSE
  }

  lemma WrittenTaken(raw: seq<Frame>, i: nat, written: seq<byte>)
    requires i < |raw| && Written(raw) == written + Written(raw[i..])
    ensures raw[i].typ == TYPE_CLOSE ==> Written(raw) == written
    ensures raw[i].typ == TYPE_DATA ==> Written(raw) == written + raw[i].data + Written(raw[i + 1..])
    ensures raw[i].typ != TYPE_DATA && raw[i].typ != TYPE_CLOSE ==> Written(raw) == written + Written(raw[i + 1..])
  {
    assert raw[i..][1..] == raw[i + 1..];
    if raw[i].typ == TYPE_CLOSE {
      assert written + [] == written;
    } else if raw[i].typ == TYPE_DATA {
      ConcatIsAssociative(written, raw[i].data, Written(raw[i + 1..]));
    } else {
      assert [] + Written(raw[i + 1..]) == Written(raw[i + 1..]);
    }
  }

  method Drain(raw: seq<Frame>) returns (written: seq<byte>, closed: bool)
    ensures written == Written(raw) && closed == SeesClose(raw)
  {
    written, closed := [], false;
    var i := 0;
    assert raw[0..] == raw;
    while i < |raw|
      invariant 0 <= i <= |raw|
      invariant Written(raw) == written + Written(raw[i..])
      invariant forall j :: 0 <= j < i ==> raw[j].typ != TYPE_CLOSE
    {
      var f := raw[i];
      WrittenTaken(raw, i, written);
      if f.typ == TYPE_CLOSE {
        closed := true;
        return;
      }
      assert f.data == [] ==> written + f.data == written;
      if f.typ == TYPE_DATA && |f.data| != 0 {
        written := written + f.data;
      }
      i := i + 1;
    }
  }

  /** The loop may be stopped early; what was written by then is a prefix. */
  lemma {:induction false} WrittenSoFarIsPrefix(raw: seq<Frame>, k: nat)
    requires k <= |raw|
    ensures Written(raw[..k]) <= Written(raw)
    decreases raw
  {
    if k > 0 {
      assert raw[..k][1..] == raw[1..][..k - 1];
      WrittenSoFarIsPrefix(raw[1..], k - 1);
    }
  }

  /** The payloads of the data frames. */
  function Payloads(fs: seq<Frame>): seq<seq<byte>> {
    if fs == [] then []
    else Payloads(fs[..|fs| - 1]) + if fs[|fs| - 1].typ == TYPE_DATA then [fs[|fs| - 1].data] else []
  }

  lemma {:induction false} WrittenAppend(fs: seq<Frame>, f: Frame)
    requires !SeesClose(fs)
    ensures Written(fs + [f]) == Written(fs) + if f.typ == TYPE_DATA then f.data else []
    decreases fs
  {
    if fs == [] {
      assert (fs + [f])[1..] == [];
    } else {
      assert (fs + [f])[1..] == fs[1..] + [f];
      assert fs[0] in fs;
      WrittenAppend(fs[1..], f);
      ConcatIsAssociative(if fs[0].typ == TYPE_DATA then fs[0].data else [], Written(fs[1..]),
                          if f.typ == TYPE_DATA then f.data else []);
    }
  }

  /** A close frame that comes last keeps nothing from being written. */
  lemma {:induction false} WrittenIsPayloads(fs: seq<Frame>)
    requires forall i :: 0 <= i < |fs| - 1 ==> fs[i].typ != TYPE_CLOSE
    ensures Written(fs) == Flatten(Payloads(fs))
    decreases |fs|
  {
    if fs != [] {
      var init, last := fs[..|fs| - 1], fs[|fs| - 1];
      WrittenIsPayloads(init);
      WrittenAppend(init, last);
      assert fs == init + [last];
      if last.typ == TYPE_DATA {
        FlattenAppend(Payloads(init), last.data);
      } else {
        assert Payloads(init) + [] == Payloads(init);
      }
    }
  }

  // ---------- end to end ----------

  /** Frames numbered from 1, and few enough that no number comes round again. */
  predicate WellNumbered(stream: seq<Frame>) {
    |stream| < MAX_U32 && forall i :: 0 <= i < |stream| ==> stream[i].seqNo == i + 1
  }

  /** The frame is the one of the stream that has its number. */
  predicate FromStream(f: Frame, stream: seq<Frame>) {
    1 <= f.seqNo <= |stream| && stream[f.seqNo - 1] == f
  }

  ghost predicate ArrivalsFrom(events: seq<Event>, stream: seq<Frame>) {
    forall i :: 0 <= i < |events| && events[i].Arrive? ==> FromStream(events[i].f, stream)
  }

  lemma {:induction false} RunFramesFromStream(
      stream: seq<Frame>, states: seq<State>, events: seq<Event>, n: nat)
    requires IsRun(states, events) && ArrivalsFrom(events, stream) && n <= |events|
    ensures forall f :: f in Frames(states[n]) ==> FromStream(f, stream)
  {
    if n > 0 {
      RunFramesFromStream(stream, states, events, n - 1);
      RunStepKeepsFrames(states, events, n - 1);
    }
  }

  lemma {:induction false} IncreasingIsSubsequence(out: seq<Frame>, stream: seq<Frame>, k: nat)
    requires StrictlyIncreasing(out) && k <= |stream|
    requires forall i :: 0 <= i < |out| ==> FromStream(out[i], stream)
    requires out != [] ==> out[|out| - 1].seqNo <= k
    ensures IsSubsequence(out, stream[..k])
    decreases k
  {
    if out != [] {
      assert FromStream(out[|out| - 1], stream);
      assert stream[..k][..k - 1] == stream[..k - 1];
      IncreasingIsSubsequence(if out[|out| - 1].seqNo == k then out[..|out| - 1] else out, stream, k - 1);
    }
  }

  /** What holds of the frames of a run, if no frame comes while its number is held. */
  lemma DeliveredFromStream(stream: seq<Frame>, states: seq<State>, events: seq<Event>, n: nat)
    requires WellNumbered(stream) && IsRun(states, events) && n <= |events|
    requires ArrivalsFrom(events, stream) && !SomeHeldAlready(states, events, n)
    ensures InOrder(states[n]) && NoFaults(states, events, n)
    ensures forall i :: 0 <= i < |states[n].out| ==> FromStream(states[n].out[i], stream)
    ensures forall i :: 0 <= i < |states[n].held| ==> FromStream(states[n].held[i], stream)
  {
    assert NoFaults(states, events, n);
    RunKeepsOrder(states, events, n);
    RunFramesFromStream(stream, states, events, n);
    var s := states[n];
    forall i | 0 <= i < |s.out| ensures FromStream(s.out[i], stream) {
      assert s.out[i] in multiset(s.out);
    }
    forall i | 0 <= i < |s.held| ensures FromStream(s.held[i], stream) {
      assert s.held[i] in multiset(s.held);
    }
  }

  /** Whatever is lost, late or cut short by timeouts, the frames delivered are an in-order subsequence. */
  lemma DeliveredIsSubsequence(stream: seq<Frame>, states: seq<State>, events: seq<Event>)
    requires WellNumbered(stream) && IsRun(states, events)
    requires ArrivalsFrom(events, stream) && !SomeHeldAlready(states, events, |events|)
    ensures IsSubsequence(states[|events|].out, stream)
  {
    var out := states[|events|].out;
    DeliveredFromStream(stream, states, events, |events|);
    assert out != [] ==> FromStream(out[|out| - 1], stream);
    IncreasingIsSubsequence(out, stream, |stream|);
    assert stream[..|stream|] == stream;
  }

  // ---------- what has arrived ----------

  function Brings(e: Event): seq<Frame> {
    if e.Arrive? then [e.f] else []
  }

  /** The frames that arrive, in their order. */
  function ArrivalsOf(events: seq<Event>): seq<Frame> {
    if events == [] then []
    else ArrivalsOf(events[..|events| - 1]) + Brings(events[|events| - 1])
  }

  lemma ArrivalsUpTo(events: seq<Event>, n: nat)
    requires n < |events|
    ensures ArrivalsOf(events[..n + 1]) == ArrivalsOf(events[..n]) + Brings(events[n])
  {
    assert events[..n + 1][..n] == events[..n];
  }

  lemma {:induction false} ArrivalsGrow(events: seq<Event>, n: nat)
    requires n <= |events|
    ensures multiset(ArrivalsOf(events[..n])) <= multiset(ArrivalsOf(events))
    decreases |events|
  {
    if n == |events| {
      assert events[..n] == events;
    } else {
      var init, last := events[..|events| - 1], events[|events| - 1];
      assert init[..n] == events[..n];
      ArrivalsGrow(init, n);
      assert multiset(ArrivalsOf(init) + Brings(last)) == multiset(ArrivalsOf(init)) + multiset(Brings(last));
    }
  }

  lemma {:induction false} ArrivedAt(events: seq<Event>, g: Frame) returns (i: nat)
    requires g in ArrivalsOf(events)
    ensures i < |events| && events[i].Arrive? && events[i].f == g
    decreases |events|
  {
    var n := |events| - 1;
    if events[n].Arrive? && events[n].f == g {
      i := n;
    } else {
      i := ArrivedAt(events[..n], g);
    }
  }

  lemma {:induction false} ArrivedEach(events: seq<Event>, i: nat)
    requires i < |events| && events[i].Arrive?
    ensures events[i].f in ArrivalsOf(events)
  {
    ArrivalsUpTo(events, i);
    ArrivalsGrow(events, i + 1);
    assert ArrivalsOf(events[..i + 1])[|ArrivalsOf(events[..i])|] == events[i].f;
    assert events[i].f in multiset(ArrivalsOf(events[..i + 1]));
    assert events[i].f in multiset(ArrivalsOf(events));
  }

  lemma StepAddsTheArrival(states: seq<State>, events: seq<Event>, n: nat)
    requires IsRun(states, events) && n < |events|
    ensures Frames(states[n + 1]) <= Frames(states[n]) + multiset(Brings(events[n]))
  {
    RunStepKeepsFrames(states, events, n);
  }

  lemma OneMoreArrived(before: multiset<Frame>, after: multiset<Frame>, a: seq<Frame>, more: seq<Frame>)
    requires before <= multiset(a) && after <= before + multiset(more)
    ensures after <= multiset(a + more)
  {
    assert multiset(a + more) == multiset(a) + multiset(more);
  }

  lemma OneMoreHasArrived(states: seq<State>, events: seq<Event>, n: nat)
    requires IsRun(states, events) && n < |events| && Frames(states[n]) <= multiset(ArrivalsOf(events[..n]))
    ensures Frames(states[n + 1]) <= multiset(ArrivalsOf(events[..n + 1]))
  {
    StepAddsTheArrival(states, events, n);
    ArrivalsUpTo(events, n);
    OneMoreArrived(Frames(states[n]), Frames(states[n + 1]), ArrivalsOf(events[..n]), Brings(events[n]));
  }

  lemma {:induction false} FramesHaveArrived(states: seq<State>, events: seq<Event>, n: nat)
    requires IsRun(states, events) && n <= |events|
    ensures Frames(states[n]) <= multiset(ArrivalsOf(events[..n]))
  {
    if n > 0 {
      FramesHaveArrived(states, events, n - 1);
      OneMoreHasArrived(states, events, n - 1);
    }
  }

  /** Every frame of the stream arrives, once. */
  ghost predicate IsPermutation(events: seq<Event>, stream: seq<Frame>) {
    multiset(ArrivalsOf(events)) == multiset(stream)
  }

  /** What comes in a permutation did not come before. */
  lemma NotBefore(stream: seq<Frame>, events: seq<Event>, i: nat)
    requires WellNumbered(stream) && IsPermutation(events, stream) && i < |events| && events[i].Arrive?
    ensures events[i].f !in multiset(ArrivalsOf(events[..i]))
  {
    var f, before := events[i].f, ArrivalsOf(events[..i]);
    ArrivalsUpTo(events, i);
    ArrivalsGrow(events, i + 1);
    assert multiset(before + [f]) == multiset(before) + multiset{f};
    IncreasingOccursOnce(stream, f);
  }

  lemma ArrivesFromStream(stream: seq<Frame>, events: seq<Event>)
    requires WellNumbered(stream) && IsPermutation(events, stream)
    ensures ArrivalsFrom(events, stream)
  {
    forall i | 0 <= i < |events| && events[i].Arrive? ensures FromStream(events[i].f, stream) {
      ArrivedEach(events, i);
      assert events[i].f in multiset(stream);
    }
  }

  lemma PermutationBringsNoneTwice(stream: seq<Frame>, states: seq<State>, events: seq<Event>, i: nat)
    requires WellNumbered(stream) && IsRun(states, events) && IsPermutation(events, stream)
    requires i < |events| && events[i].Arrive?
    ensures !HeldAlready(states[i], events[i].f)
  {
    var s, f := states[i], events[i].f;
    ArrivesFromStream(stream, events);
    RunFramesFromStream(stream, states, events, i);
    FramesHaveArrived(states, events, i);
    NotBefore(stream, events, i);
    forall k | 0 <= k < |s.held| ensures s.held[k].seqNo != f.seqNo {
      assert s.held[k] in multiset(s.held);
      assert s.held[k] in Frames(s);
      assert FromStream(s.held[k], stream) && FromStream(f, stream);
    }
  }

  /** A permutation, with timeouts or without, has no faulty arrivals. */
  lemma PermutationKeepsOrder(stream: seq<Frame>, states: seq<State>, events: seq<Event>)
    requires WellNumbered(stream) && IsRun(states, events) && IsPermutation(events, stream)
    ensures ArrivalsFrom(events, stream) && !SomeHeldAlready(states, events, |events|)
  {
    ArrivesFromStream(stream, events);
    forall i | 0 <= i < |events| && events[i].Arrive? ensures !HeldAlready(states[i], events[i].f) {
      PermutationBringsNoneTwice(stream, states, events, i);
    }
  }

  // ---------- with timeouts ----------

  /** One of the first `n` events brings a frame after the number that is expected. */
  ghost predicate SomeStale(states: seq<State>, events: seq<Event>, n: nat)
    requires n <= |events| < |states|
  {
    exists i :: 0 <= i < n && events[i].Arrive? && Stale(states[i], events[i].f)
  }

  lemma {:induction false} AcceptedAreArrivals(states: seq<State>, events: seq<Event>, n: nat)
    requires n <= |events| < |states|
    ensures |Accepted(states, events[..n])| <= |ArrivalsOf(events[..n])|
    ensures !SomeStale(states, events, n) ==> Accepted(states, events[..n]) == ArrivalsOf(events[..n])
    ensures SomeStale(states, events, n) ==> |Accepted(states, events[..n])| < |ArrivalsOf(events[..n])|
  {
    if n > 0 {
      AcceptedAreArrivals(states, events, n - 1);
      ArrivalsUpTo(events, n - 1);
      assert events[..n][..n - 1] == events[..n - 1];
      assert SomeStale(states, events, n) <==>
             SomeStale(states, events, n - 1) || (events[n - 1].Arrive? && Stale(states[n - 1], events[n - 1].f));
    }
  }

  lemma {:induction false} SubsequenceIsNoLonger(a: seq<Frame>, b: seq<Frame>)
    requires IsSubsequence(a, b)
    ensures |a| <= |b| && (|a| == |b| ==> a == b)
    decreases |b|
  {
    if a != [] {
      var n := |b| - 1;
      if a[|a| - 1] == b[n] && IsSubsequence(a[..|a| - 1], b[..n]) {
        SubsequenceIsNoLonger(a[..|a| - 1], b[..n]);
        assert a == a[..|a| - 1] + [b[n]] && b == b[..n] + [b[n]];
      } else {
        SubsequenceIsNoLonger(a, b[..n]);
      }
    }
  }

  lemma SameSize(a: seq<Frame>, b: seq<Frame>)
    requires multiset(a) == multiset(b) || multiset(a) + multiset([]) == multiset(b)
    ensures |a| == |b|
  {
    assert |multiset(a)| == |a| && |multiset(b)| == |b|;
  }

  /**
    Every frame arrives once, in whatever order and with whatever timeouts, and none is held at the
    end: then all were delivered, in order, exactly if none came too late.
   */
  lemma AllDeliveredIffNoneStale(stream: seq<Frame>, states: seq<State>, events: seq<Event>)
    requires WellNumbered(stream) && IsRun(states, events) && IsPermutation(events, stream)
    requires states[|events|].held == []
    ensures states[|events|].out == stream <==> !SomeStale(states, events, |events|)
  {
    var n, out := |events|, states[|events|].out;
    assert events[..n] == events;
    PermutationKeepsOrder(stream, states, events);
    DeliveredIsSubsequence(stream, states, events);
    SubsequenceIsNoLonger(out, stream);
    AcceptedIsDeliveredOrHeld(states, events, n);
    AcceptedAreArrivals(states, events, n);
    SameSize(out, Accepted(states, events));
    SameSize(ArrivalsOf(events), stream);
  }

  // ---------- without timeouts ----------

  predicate NoTimeouts(events: seq<Event>) {
    forall e <- events :: e.Arrive?
  }

  /** Without a timeout only the frames before `next` have been delivered, and all of them. */
  ghost predicate NoGap(s: State, stream: seq<Frame>) {
    1 <= s.next <= |stream| + 1 && s.out == stream[..s.next - 1]
  }

  lemma {:induction false} FlushContiguousLeavesNoGap(s: State, stream: seq<Frame>)
    requires |stream| < MAX_U32 && NoGap(s, stream)
    requires forall i :: 0 <= i < |s.held| ==> FromStream(s.held[i], stream)
    ensures NoGap(FlushContiguous(s), stream)
    decreases |s.held|
  {
    if s.held != [] && s.held[0].seqNo == s.next {
      assert FromStream(s.held[0], stream);
      FlushContiguousLeavesNoGap(Deliver(s, s.held[0]).(held := s.held[1..]), stream);
    }
  }

  lemma ArrivalLeavesNoGap(s: State, f: Frame, stopped: bool, t: State, stream: seq<Frame>)
    requires |stream| < MAX_U32 && NoGap(s, stream) && FromStream(f, stream) && Pushes(s, f, stopped, t)
    requires forall i :: 0 <= i < |s.held| ==> FromStream(s.held[i], stream)
    ensures NoGap(t, stream)
  {
    if f.seqNo == s.next {
      FlushContiguousLeavesNoGap(Deliver(s, f), stream);
    }
  }

  lemma {:induction false} RunLeavesNoGap(stream: seq<Frame>, states: seq<State>, events: seq<Event>, n: nat)
    requires WellNumbered(stream) && IsRun(states, events) && n <= |events|
    requires ArrivalsFrom(events, stream) && !SomeHeldAlready(states, events, n)
    requires NoTimeouts(events)
    ensures NoGap(states[n], stream)
  {
    if n > 0 {
      var e := events[n - 1];
      assert e in events;
      RunLeavesNoGap(stream, states, events, n - 1);
      DeliveredFromStream(stream, states, events, n - 1);
      assert StepAt(states, events, n - 1);
      ArrivalLeavesNoGap(states[n - 1], e.f, e.stopped, states[n], stream);
    }
  }

  lemma {:induction false} FramesStay(states: seq<State>, events: seq<Event>, m: nat, n: nat)
    requires IsRun(states, events) && m <= n <= |events|
    ensures Frames(states[m]) <= Frames(states[n])
    decreases n
  {
    if m < n {
      FramesStay(states, events, m, n - 1);
      RunStepKeepsFrames(states, events, n - 1);
    }
  }

  lemma {:induction false} NextNeverGoesBack(states: seq<State>, events: seq<Event>, m: nat, n: nat)
    requires IsRun(states, events) && m <= n <= |events| && NoFaults(states, events, n)
    ensures states[m].next <= states[n].next
    decreases n
  {
    if m < n {
      NextNeverGoesBack(states, events, m, n - 1);
      RunKeepsOrder(states, events, n);
    }
  }

  /** A frame that arrives in time is delivered or held for good. */
  lemma ArrivedIsKept(states: seq<State>, events: seq<Event>, g: Frame)
    requires IsRun(states, events) && g in ArrivalsOf(events)
    requires NoFaults(states, events, |events|) && g.seqNo >= states[|events|].next
    ensures g in Frames(states[|events|])
  {
    var n := |events|;
    var i := ArrivedAt(events, g);
    NextNeverGoesBack(states, events, i, n);
    RunStepKeepsFrames(states, events, i);
    FramesStay(states, events, i + 1, n);
    assert g in Frames(states[i + 1]);
  }

  lemma NothingMissing(stream: seq<Frame>, s: State)
    requires WellNumbered(stream) && NoGap(s, stream) && InOrder(s)
    requires forall i :: 0 <= i < |s.held| ==> FromStream(s.held[i], stream)
    requires s.next <= |stream| ==> stream[s.next - 1] in Frames(s)
    ensures s.out == stream && s.held == []
  {
    forall f | f in Frames(s) ensures f.seqNo != s.next {
      assert f in s.out || f in s.held;
    }
    assert s.next == |stream| + 1;
    assert s.held != [] ==> FromStream(s.held[0], stream);
  }

  /** In whatever order the frames arrive, all are delivered in the order of their numbers. */
  lemma AllDeliveredInOrder(stream: seq<Frame>, states: seq<State>, events: seq<Event>)
    requires WellNumbered(stream) && IsRun(states, events) && IsPermutation(events, stream) && NoTimeouts(events)
    ensures states[|events|].out == stream && states[|events|].held == []
  {
    var n := |events|;
    var s := states[n];
    PermutationKeepsOrder(stream, states, events);
    DeliveredFromStream(stream, states, events, n);
    RunLeavesNoGap(stream, states, events, n);
    if s.next <= |stream| {
      assert stream[s.next - 1] in multiset(ArrivalsOf(events));
      ArrivedIsKept(states, events, stream[s.next - 1]);
    }
    NothingMissing(stream, s);
  }

  // ---------- the bytes ----------

  lemma {:induction false} PayloadsOfSubsequence(a: seq<Frame>, b: seq<Frame>)
    requires IsSubsequence(a, b)
    ensures IsSubsequence(Payloads(a), Payloads(b))
    decreases |b|
  {
    if a != [] {
      var a', b', last := a[..|a| - 1], b[..|b| - 1], b[|b| - 1];
      if a[|a| - 1] == last && IsSubsequence(a', b') {
        PayloadsOfSubsequence(a', b');
        SubsequenceKeep(Payloads(a'), Payloads(b'), last.data);
        assert Payloads(a') + [] == Payloads(a');
      } else {
        PayloadsOfSubsequence(a, b');
        SubsequenceSkip(Payloads(a), Payloads(b'), last.data);
      }
      assert Payloads(b') + [] == Payloads(b');
    }
  }

  lemma {:induction false} PayloadsOfData(connId: u32, chunks: seq<seq<byte>>, k: nat)
    requires k <= |chunks|
    ensures Payloads(DataFrames(connId, chunks)[..k]) == chunks[..k]
  {
    if k > 0 {
      assert DataFrames(connId, chunks)[..k][..k - 1] == DataFrames(connId, chunks)[..k - 1];
      PayloadsOfData(connId, chunks, k - 1);
      assert chunks[..k] == chunks[..k - 1] + [chunks[k - 1]];
    }
  }

  lemma PayloadsOfStream(connId: u32, chunks: seq<seq<byte>>)
    ensures Payloads(Stream(connId, chunks)) == chunks
  {
    var data := DataFrames(connId, chunks);
    assert Stream(connId, chunks)[..|chunks|] == data == data[..|chunks|];
    PayloadsOfData(connId, chunks, |chunks|);
    assert chunks[..|chunks|] == chunks && chunks + [] == chunks;
  }

  lemma StreamIsWellNumbered(connId: u32, chunks: seq<seq<byte>>)
    requires |chunks| + 1 < MAX_U32
    ensures WellNumbered(Stream(connId, chunks))
    ensures forall f :: FromStream(f, Stream(connId, chunks)) && f.seqNo <= |chunks| ==> f.typ == TYPE_DATA
  {
  }

  /** The close frame can only be the last of the frames delivered. */
  lemma CloseComesLast(connId: u32, chunks: seq<seq<byte>>, out: seq<Frame>)
    requires |chunks| + 1 < MAX_U32 && StrictlyIncreasing(out)
    requires forall i :: 0 <= i < |out| ==> FromStream(out[i], Stream(connId, chunks))
    ensures forall i :: 0 <= i < |out| - 1 ==> out[i].typ == TYPE_DATA
  {
    StreamIsWellNumbered(connId, chunks);
    forall i | 0 <= i < |out| - 1 ensures out[i].typ == TYPE_DATA {
      assert FromStream(out[i], Stream(connId, chunks)) && FromStream(out[|out| - 1], Stream(connId, chunks));
    }
  }

  /** The frames sent carry the bytes read, and none is lost. */
  lemma SentCarriesTheBytes(connId: u32, input: seq<Read>)
    ensures Flatten(Payloads(Sent(connId, input))) == BytesRead(input)
  {
    var chunks := Chunks(input);
    ChunksCarryTheBytes(input);
    PayloadsOfStream(connId, chunks);
    PayloadsOfData(connId, chunks, |chunks|);
    assert DataFrames(connId, chunks)[..|chunks|] == DataFrames(connId, chunks) && chunks[..|chunks|] == chunks;
  }

  /** Whatever is lost, late or cut short by timeouts, the client writes an in-order subsequence of the chunks. */
  lemma WrittenIsInOrderSubsequence(
      connId: u32, chunks: seq<seq<byte>>, states: seq<State>, events: seq<Event>)
    requires |chunks| + 1 < MAX_U32 && IsRun(states, events)
    requires ArrivalsFrom(events, Stream(connId, chunks)) && !SomeHeldAlready(states, events, |events|)
    ensures var out := states[|events|].out;
            IsSubsequence(Payloads(out), chunks) && Written(out) == Flatten(Payloads(out))
  {
    var stream, out := Stream(connId, chunks), states[|events|].out;
    StreamIsWellNumbered(connId, chunks);
    DeliveredFromStream(stream, states, events, |events|);
    DeliveredIsSubsequence(stream, states, events);
    PayloadsOfSubsequence(out, stream);
    PayloadsOfStream(connId, chunks);
    CloseComesLast(connId, chunks, out);
    WrittenIsPayloads(out);
  }

  lemma StreamIsWritten(connId: u32, chunks: seq<seq<byte>>)
    ensures var stream := Stream(connId, chunks);
            Written(stream) == Flatten(chunks) && SeesClose(stream) && !SeesClose(stream[..|stream| - 1])
  {
    var stream, data := Stream(connId, chunks), DataFrames(connId, chunks);
    PayloadsOfStream(connId, chunks);
    WrittenIsPayloads(stream);
    assert stream[|stream| - 1] in stream;
    assert stream[..|stream| - 1] == data;
  }

  /** In whatever order the frames arrive, the client writes the server's bytes, and sees the close frame last. */
  lemma LosslessInAnyOrder(
      connId: u32, chunks: seq<seq<byte>>, states: seq<State>, events: seq<Event>)
    requires |chunks| + 1 < MAX_U32 && IsRun(states, events)
    requires IsPermutation(events, Stream(connId, chunks)) && NoTimeouts(events)
    ensures var out := states[|events|].out;
            && out == Stream(connId, chunks)
            && Written(out) == Flatten(chunks) && SeesClose(out) && !SeesClose(out[..|out| - 1])
  {
    StreamIsWellNumbered(connId, chunks);
    AllDeliveredInOrder(Stream(connId, chunks), states, events);
    StreamIsWritten(connId, chunks);
  }
}
