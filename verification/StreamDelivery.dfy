/** Streams pushed without timeouts through a channel of any size: all is delivered, and exactly when in order. */
module StreamDelivery {
  import opened Bytes
  import opened FineStream
  import opened FtpFrames
  import opened FtpStream
  import opened FullChannel
  import opened FullChannelOrder
  import opened FullChannelRuns
  import opened LateFrames
  import opened PushesOnly
  import opened ReorderBooks
  import opened ReorderBuffer
  import opened ReorderInterleaving
  import R = ReorderRuns
  import opened Sequences
  import opened Wrappers

  // ---------- nothing is late, and nothing is left behind ----------

  ghost predicate FromOne(jobs: seq<Job>) {
    forall f <- PushedFrames(jobs) :: f.seqNo > 0
  }

  /** No number of a push that has yet to start was passed. */
  ghost predicate NoneLate(x: Fine, jobs: seq<Job>)
    requires |jobs| == |x.pcs|
  {
    forall i :: 0 <= i < |jobs| && x.pcs[i].Waiting? && jobs[i].Push? ==> jobs[i].f.seqNo >= x.s.next
  }

  /** What a push that has started brought was passed, or is held. */
  ghost predicate StartedArePassed(x: Fine, jobs: seq<Job>)
    requires |jobs| == |x.pcs|
  {
    forall i :: 0 <= i < |jobs| && !x.pcs[i].Waiting? && jobs[i].Push? ==>
      jobs[i].f.seqNo < x.s.next || jobs[i].f in x.s.held
  }

  /** What is held was not passed, but for the frame of the goroutine on its way. */
  ghost predicate HeldAreAhead(x: Fine, w: Option<nat>) {
    forall k :: 0 <= k < |x.s.held| ==> x.s.held[k].seqNo >= x.s.next || (k == 0 && w != None)
  }

  /** If the next frame is held, a goroutine has yet to come round to it. */
  ghost predicate NotStuck(x: Fine) {
    x.s.held != [] && x.s.held[0].seqNo == x.s.next ==> !AtRest(x)
  }

  ghost predicate LeavesNothing(x: Fine, jobs: seq<Job>, w: Option<nat>) {
    && Tidy(x, jobs, w) && x.s.next > 0
    && NoneLate(x, jobs) && StartedArePassed(x, jobs) && HeldAreAhead(x, w) && NotStuck(x)
  }

  /** A push that has yet to start has not the number of one that has. */
  lemma YetToStart(jobs: seq<Job>, pcs: seq<Pc>, i: nat, g: Frame)
    requires |jobs| == |pcs| && i < |jobs| && jobs[i].Push? && pcs[i].Waiting? && DistinctNumbers(jobs)
    requires g in Total(jobs, pcs, OfStarted)
    ensures jobs[i].f.seqNo != g.seqNo
  {
    OneMoreStarted(jobs, pcs, i);
    var f, m := jobs[i].f, multiset(PushedFrames(jobs));
    assert f in m && g in m && (f == g ==> m[f] >= 2);
  }

  /** The frame whose number the step passes. */
  function Passed(x: Fine, c: Choice): Option<Frame>
    requires Enabled(x, c)
  {
    if c.Consume? then None
    else match x.pcs[c.i]
      case Waiting(Push(f)) => if f.seqNo == x.s.next then Some(f) else None
      case Looping(all) => if GoesOn(x.s, all) then Some(x.s.held[0]) else None
      case _ => None
  }

  lemma NextAfter(x: Fine, c: Choice)
    requires Enabled(x, c) && NoFlush(x)
    ensures match Passed(x, c)
            case None => Next(x, c).s.next == x.s.next
            case Some(g) => g.seqNo == x.s.next && Next(x, c).s.next == ToU32(x.s.next + 1)
  {
  }

  lemma PassedHasStarted(x: Fine, c: Choice, jobs: seq<Job>)
    requires Enabled(x, c) && HasJobs(x, jobs) && HeldAreStarted(x, jobs) && Passed(x, c).Some?
    ensures |Next(x, c).pcs| == |jobs| && Passed(x, c).value in Total(jobs, Next(x, c).pcs, OfStarted)
  {
    StartedGrow(x, c, jobs);
    if x.pcs[c.i].Waiting? {
      StartedAfter(x, c, jobs);
    } else {
      assert x.s.held[0] in multiset(x.s.held);
    }
  }

  lemma PassedIsBelow(x: Fine, c: Choice, jobs: seq<Job>)
    requires Enabled(x, c) && HasJobs(x, jobs) && HeldAreStarted(x, jobs) && BelowLastNumber(jobs)
    requires Passed(x, c).Some?
    ensures Passed(x, c).value.seqNo < MAX_U32
  {
    PassedHasStarted(x, c, jobs);
    StartedArePushed(jobs, Next(x, c).pcs);
  }

  lemma NotPassedYet(x: Fine, c: Choice, jobs: seq<Job>, i: nat)
    requires Enabled(x, c) && HasJobs(x, jobs) && NoFlush(x) && HeldAreStarted(x, jobs) && DistinctNumbers(jobs)
    requires i < |jobs| == |Next(x, c).pcs| && Next(x, c).pcs[i].Waiting? && jobs[i].Push?
    requires jobs[i].f.seqNo >= x.s.next
    ensures jobs[i].f.seqNo >= Next(x, c).s.next
  {
    NextAfter(x, c);
    if Passed(x, c).Some? {
      PassedHasStarted(x, c, jobs);
      YetToStart(jobs, Next(x, c).pcs, i, Passed(x, c).value);
    }
  }

  lemma NoneLateNext(x: Fine, c: Choice, jobs: seq<Job>, w: Option<nat>)
    requires Enabled(x, c) && Tidy(x, jobs, w) && PushesNumbered(jobs) && NoneLate(x, jobs)
    ensures |Next(x, c).pcs| == |jobs| && NoneLate(Next(x, c), jobs)
  {
    var y := Next(x, c);
    MovesOne(x, c);
    forall i | 0 <= i < |jobs| && y.pcs[i].Waiting? && jobs[i].Push? ensures jobs[i].f.seqNo >= y.s.next {
      NotPassedYet(x, c, jobs, i);
    }
  }

  lemma HoldingDropsNone(x: Fine, c: Choice)
    requires Enabled(x, c) && Holds(x, c)
    ensures forall f <- x.s.held + [x.pcs[c.i].job.f] :: f in Next(x, c).s.held
  {
    var held := x.s.held + [x.pcs[c.i].job.f];
    forall f <- held ensures f in c.h {
      assert f in multiset(held) && f in multiset(c.h);
    }
  }

  /** The frame that is no longer held has been passed. */
  lemma DroppedIsPassed(x: Fine, c: Choice, jobs: seq<Job>, w: Option<nat>, f: Frame)
    requires Enabled(x, c) && Tidy(x, jobs, w) && PushesNumbered(jobs)
    requires f in x.s.held && f !in Next(x, c).s.held && !Holds(x, c)
    ensures f.seqNo < Next(x, c).s.next
  {
    HeldAfter(x, c);
    assert x.s.held == [x.s.held[0]] + x.s.held[1..];
    assert f == x.s.held[0];
    NextAfter(x, c);
    if Passed(x, c).Some? {
      PassedIsBelow(x, c, jobs);
    }
  }

  lemma StartedArePassedNext(x: Fine, c: Choice, jobs: seq<Job>, w: Option<nat>)
    requires Enabled(x, c) && Tidy(x, jobs, w) && PushesNumbered(jobs) && StartedArePassed(x, jobs)
    ensures |Next(x, c).pcs| == |jobs| && StartedArePassed(Next(x, c), jobs)
  {
    var y := Next(x, c);
    MovesOne(x, c);
    NextAfter(x, c);
    if Passed(x, c).Some? {
      PassedIsBelow(x, c, jobs);
    }
    forall i | 0 <= i < |jobs| && !y.pcs[i].Waiting? && jobs[i].Push?
      ensures jobs[i].f.seqNo < y.s.next || jobs[i].f in y.s.held
    {
      var f := jobs[i].f;
      if Holds(x, c) {
        HoldingDropsNone(x, c);
        assert x.pcs[i].Waiting? ==> i == c.i;
      } else if f in x.s.held && f !in y.s.held {
        DroppedIsPassed(x, c, jobs, w, f);
      }
    }
  }

  lemma HeldAreAheadWhenHolding(x: Fine, c: Choice, w: Option<nat>)
    requires Enabled(x, c) && Holds(x, c) && StrictlyIncreasing(x.s.held) && StrictlyIncreasing(c.h)
    requires OneOnItsWay(x, w) && HeldAreAhead(x, w)
    ensures HeldAreAhead(Next(x, c), w)
  {
    var f := x.pcs[c.i].job.f;
    if w != None {
      FirstStays(x.s.held, f, c.h);
    }
    forall k | 0 <= k < |c.h| && !(k == 0 && w != None) ensures c.h[k].seqNo >= x.s.next {
      assert c.h[k] in multiset(x.s.held + [f]);
      assert c.h[k] in x.s.held + [f];
    }
  }

  /** What is held has not the number of the frame that is passed, unless it is that frame. */
  lemma PassedIsFirst(x: Fine, c: Choice, jobs: seq<Job>, k: nat)
    requires Enabled(x, c) && HasJobs(x, jobs) && HeldAreStarted(x, jobs) && DistinctNumbers(jobs)
    requires Passed(x, c).Some? && k < |x.s.held| && x.s.held[k].seqNo == Passed(x, c).value.seqNo
    ensures k == 0 && x.pcs[c.i].Looping? && GoesOn(x.s, x.pcs[c.i].all)
  {
    if x.pcs[c.i].Waiting? {
      StartsDifferent(x, c, jobs);
      R.HeldTwiceIsNotUnique(x.s.held, k, x.pcs[c.i].job.f);
      assert false;
    }
  }

  /** The first held frame stays, and no goroutine is on its way with it: it was neither passed nor waited for. */
  lemma FirstIsLeft(x: Fine, c: Choice, w: Option<nat>)
    requires Enabled(x, c) && OneOnItsWay(x, w) && OnItsWayNext(x, c, w) == None && x.s.held != []
    requires Next(x, c).s.held == x.s.held
    ensures w == None && !(Passed(x, c).Some? && x.pcs[c.i].Looping?)
  {
    assert |x.s.held[1..]| < |x.s.held|;
  }

  lemma HeldAreAheadOtherwise(x: Fine, c: Choice, jobs: seq<Job>, w: Option<nat>)
    requires Enabled(x, c) && Tidy(x, jobs, w) && PushesNumbered(jobs) && HeldAreAhead(x, w) && !Holds(x, c)
    ensures HeldAreAhead(Next(x, c), OnItsWayNext(x, c, w))
  {
    var y, w' := Next(x, c), OnItsWayNext(x, c, w);
    NextAfter(x, c);
    HeldAfter(x, c);
    forall k | 0 <= k < |y.s.held| && !(k == 0 && w' != None) ensures y.s.held[k].seqNo >= y.s.next {
      var m: nat := if y.s.held == x.s.held then k else k + 1;
      assert y.s.held[k] == x.s.held[m];
      if m == 0 {
        FirstIsLeft(x, c, w);
      }
      if Passed(x, c).Some? && x.s.held[m].seqNo == x.s.next {
        PassedIsFirst(x, c, jobs, m);
      }
    }
  }

  /** At rest all that is held lies beyond the number that is expected. */
  lemma HeldAreBeyond(x: Fine, w: Option<nat>)
    requires AtRest(x) && StrictlyIncreasing(x.s.held) && OneOnItsWay(x, w) && HeldAreAhead(x, w) && NotStuck(x)
    ensures forall f <- x.s.held :: f.seqNo > x.s.next
  {
    assert w == None;
    if x.s.held != [] {
      assert x.s.held[0].seqNo > x.s.next;
    }
  }

  lemma RestedBefore(x: Fine, c: Choice)
    requires Enabled(x, c) && c.Act? && x.pcs[c.i].Waiting? && AtRest(Next(x, c))
    ensures AtRest(x)
  {
    MovesOne(x, c);
    forall i | 0 <= i < |x.pcs| ensures x.pcs[i].Waiting? || x.pcs[i] == Done {
      assert i != c.i ==> Next(x, c).pcs[i] == x.pcs[i];
    }
  }

  lemma NotStuckWhenHolding(x: Fine, c: Choice, w: Option<nat>)
    requires Enabled(x, c) && Holds(x, c) && StrictlyIncreasing(x.s.held)
    requires OneOnItsWay(x, w) && HeldAreAhead(x, w) && NotStuck(x)
    ensures NotStuck(Next(x, c))
  {
    if AtRest(Next(x, c)) {
      RestedBefore(x, c);
      HeldAreBeyond(x, w);
      assert c.h != [] ==> c.h[0] in multiset(x.s.held + [x.pcs[c.i].job.f]);
    }
  }

  lemma NotStuckOtherwise(x: Fine, c: Choice)
    requires Enabled(x, c) && NoFlush(x) && NotStuck(x) && !Holds(x, c)
    ensures NotStuck(Next(x, c))
  {
    var y := Next(x, c);
    MovesOne(x, c);
    if c.Act? && AtRest(y) {
      assert y.pcs[c.i] == Done;
      if x.pcs[c.i].Waiting? {
        RestedBefore(x, c);
      }
    }
  }

  lemma NextStaysPositive(x: Fine, c: Choice, jobs: seq<Job>)
    requires Enabled(x, c) && HasJobs(x, jobs) && NoFlush(x) && HeldAreStarted(x, jobs)
    requires BelowLastNumber(jobs) && x.s.next > 0
    ensures Next(x, c).s.next > 0
  {
    NextAfter(x, c);
    if Passed(x, c).Some? {
      PassedIsBelow(x, c, jobs);
    }
  }

  lemma HeldAreAheadNext(x: Fine, c: Choice, jobs: seq<Job>, w: Option<nat>)
    requires Enabled(x, c) && Tidy(x, jobs, w) && PushesNumbered(jobs) && HeldAreAhead(x, w) && NotStuck(x)
    ensures HeldAreAhead(Next(x, c), OnItsWayNext(x, c, w)) && NotStuck(Next(x, c))
  {
    if Holds(x, c) {
      HeldNext(x, c, jobs);
      HeldAreAheadWhenHolding(x, c, w);
      NotStuckWhenHolding(x, c, w);
    } else {
      HeldAreAheadOtherwise(x, c, jobs, w);
      NotStuckOtherwise(x, c);
    }
  }

  lemma LeavesNothingNext(x: Fine, c: Choice, jobs: seq<Job>, w: Option<nat>)
    requires Enabled(x, c) && LeavesNothing(x, jobs, w) && PushesNumbered(jobs)
    ensures LeavesNothing(Next(x, c), jobs, OnItsWayNext(x, c, w)) && InTime(x, c)
  {
    StaysTidy(x, c, jobs, w);
    NextStaysPositive(x, c, jobs);
    NoneLateNext(x, c, jobs, w);
    StartedArePassedNext(x, c, jobs, w);
    HeldAreAheadNext(x, c, jobs, w);
  }

  lemma StartsLeavingNothing(capacity: nat, jobs: seq<Job>)
    requires FromOne(jobs)
    ensures LeavesNothing(Initial(capacity, jobs), jobs, None)
  {
    StartsTidy(capacity, jobs);
    forall i | 0 <= i < |jobs| && jobs[i].Push? ensures jobs[i].f.seqNo >= 1 {
      PushIsAmong(jobs, i);
    }
  }

  ghost predicate SomeLeaveNothing(x: Fine, jobs: seq<Job>) {
    exists w :: LeavesNothing(x, jobs, w)
  }

  lemma SomeLeaveNothingNext(x: Fine, c: Choice, jobs: seq<Job>)
    requires Enabled(x, c) && SomeLeaveNothing(x, jobs) && PushesNumbered(jobs)
    ensures SomeLeaveNothing(Next(x, c), jobs) && InTime(x, c)
  {
    var w :| LeavesNothing(x, jobs, w);
    LeavesNothingNext(x, c, jobs, w);
  }

  lemma {:induction false} PushesLeaveNothing(
      xs: seq<Fine>, cs: seq<Choice>, capacity: nat, jobs: seq<Job>, n: nat)
    requires IsFineRun(xs, cs, capacity, jobs) && n <= |cs| && PushesNumbered(jobs) && FromOne(jobs)
    ensures SomeLeaveNothing(xs[n], jobs) && AllInTime(xs, cs, n)
  {
    if n == 0 {
      StartsLeavingNothing(capacity, jobs);
    } else {
      PushesLeaveNothing(xs, cs, capacity, jobs, n - 1);
      assert FineStep(xs, cs, n - 1);
      SomeLeaveNothingNext(xs[n - 1], cs[n - 1], jobs);
    }
  }

  /** Whatever the interleaving and the size of the channel, every frame pushed was delivered or is held, once. */
  lemma NothingIsDropped(xs: seq<Fine>, cs: seq<Choice>, capacity: nat, jobs: seq<Job>)
    requires IsFineRun(xs, cs, capacity, jobs) && PushesNumbered(jobs) && FromOne(jobs)
    requires forall i :: 0 <= i < |xs[|cs|].pcs| ==> xs[|cs|].pcs[i] == Done
    ensures multiset(xs[|cs|].s.out) + multiset(xs[|cs|].s.held) == multiset(PushedFrames(jobs))
  {
    var n := |cs|;
    var w := PushesDropTheirOwn(xs, cs, capacity, jobs, n);
    PushesLeaveNothing(xs, cs, capacity, jobs, n);
    OwnDropsLoseNothing(xs, cs, capacity, jobs);
    AcceptedIffInTime(xs, cs, capacity, jobs, n);
    AllStarted(jobs, xs[n].pcs);
  }

  lemma {:induction false} WhoPushes(jobs: seq<Job>, f: Frame) returns (i: nat)
    requires f in PushedFrames(jobs)
    ensures i < |jobs| && jobs[i] == Push(f)
    decreases |jobs|
  {
    var n := |jobs| - 1;
    if f in PushedFrames(jobs[..n]) {
      i := WhoPushes(jobs[..n], f);
    } else {
      i := n;
    }
  }

  /** When the whole stream was pushed, all its numbers were passed. */
  lemma AllArePassed(x: Fine, jobs: seq<Job>, stream: seq<Frame>, w: Option<nat>)
    requires LeavesNothing(x, jobs, w)
    requires WellNumbered(stream) && multiset(PushedFrames(jobs)) == multiset(stream)
    requires forall i :: 0 <= i < |x.pcs| ==> x.pcs[i] == Done
    ensures x.s.next > |stream|
  {
    HeldAreBeyond(x, w);
    if x.s.next <= |stream| {
      assert stream[x.s.next - 1] in multiset(PushedFrames(jobs));
      var i := WhoPushes(jobs, stream[x.s.next - 1]);
    }
  }

  lemma HeldAreOfStream(x: Fine, jobs: seq<Job>, stream: seq<Frame>)
    requires |jobs| == |x.pcs| && HeldAreStarted(x, jobs)
    requires WellNumbered(stream) && multiset(PushedFrames(jobs)) == multiset(stream)
    ensures forall f <- x.s.held :: f.seqNo <= |stream|
  {
    StartedArePushed(jobs, x.pcs);
    forall f <- x.s.held ensures f.seqNo <= |stream| {
      assert f in multiset(x.s.held) && f in multiset(stream);
    }
  }

  lemma FirstIsIn(fs: seq<Frame>)
    ensures fs == [] || fs[0] in fs
  {
  }

  lemma NoneIsHeld(x: Fine, jobs: seq<Job>, stream: seq<Frame>, w: Option<nat>)
    requires LeavesNothing(x, jobs, w)
    requires WellNumbered(stream) && multiset(PushedFrames(jobs)) == multiset(stream)
    requires forall i :: 0 <= i < |x.pcs| ==> x.pcs[i] == Done
    ensures x.s.held == []
  {
    AllArePassed(x, jobs, stream, w);
    HeldAreBeyond(x, w);
    HeldAreOfStream(x, jobs, stream);
    FirstIsIn(x.s.held);
  }

  /**
    Goroutines push every frame of the stream once, in whatever order and interleaving, through a channel of
    whatever size: in the end every frame was delivered, once, and none is held. Only their order may differ.
   */
  lemma StreamDeliveredInSomeOrder(
      stream: seq<Frame>, xs: seq<Fine>, cs: seq<Choice>, capacity: nat, jobs: seq<Job>)
    requires IsFineRun(xs, cs, capacity, jobs) && WellNumbered(stream) && PushesStream(xs[|cs|], jobs, stream)
    ensures multiset(xs[|cs|].s.out) == multiset(stream) && xs[|cs|].s.held == []
  {
    StreamJobs(jobs, stream);
    forall f <- PushedFrames(jobs) ensures f.seqNo > 0 {
      assert f in multiset(stream);
    }
    PushesLeaveNothing(xs, cs, capacity, jobs, |cs|);
    var w :| LeavesNothing(xs[|cs|], jobs, w);
    NoneIsHeld(xs[|cs|], jobs, stream, w);
    NothingIsDropped(xs, cs, capacity, jobs);
    assert multiset(xs[|cs|].s.out) + multiset([]) == multiset(xs[|cs|].s.out);
  }

  // ---------- exactly which streams are delivered in order ----------

  lemma StreamThatFits(stream: seq<Frame>, x: Fine, capacity: nat, jobs: seq<Job>)
    requires Reachable(x, capacity, jobs) && FlushTimeout !in jobs && |stream| <= capacity + 1
    requires WellNumbered(stream) && multiset(PushedFrames(jobs)) == multiset(stream)
    ensures StrictlyIncreasing(x.s.out) && (PushesStream(x, jobs, stream) ==> x.s.out == stream)
  {
    StreamJobs(jobs, stream);
    SameSize(PushedFrames(jobs), stream);
    OrderWithoutTimeouts(x, capacity, jobs);
    if PushesStream(x, jobs, stream) {
      var xs, cs :| IsFineRun(xs, cs, capacity, jobs) && xs[|cs|] == x;
      StreamDeliveredInSomeOrder(stream, xs, cs, capacity, jobs);
      SameFrames(x.s.out, stream);
    }
  }

  /**
    In whatever order and interleaving goroutines push the frames of the stream, they are delivered in
    order in every state, and all of them in the end.
   */
  ghost predicate AlwaysDelivers(capacity: nat, stream: seq<Frame>) {
    forall jobs, x ::
      && Reachable(x, capacity, jobs) && FlushTimeout !in jobs
      && multiset(PushedFrames(jobs)) == multiset(stream)
      ==> StrictlyIncreasing(x.s.out) && (PushesStream(x, jobs, stream) ==> x.s.out == stream)
  }

  /** That is so exactly for streams of at most one frame more than the channel has places. */
  lemma AlwaysDeliversIff(capacity: nat, stream: seq<Frame>)
    requires 0 < capacity && WellNumbered(stream)
    ensures AlwaysDelivers(capacity, stream) <==> |stream| <= capacity + 1
  {
    if |stream| <= capacity + 1 {
      forall jobs, x
        | && Reachable(x, capacity, jobs) && FlushTimeout !in jobs
          && multiset(PushedFrames(jobs)) == multiset(stream)
        ensures StrictlyIncreasing(x.s.out) && (PushesStream(x, jobs, stream) ==> x.s.out == stream)
      {
        StreamThatFits(stream, x, capacity, jobs);
      }
    } else {
      var x := CanSwapFrames(capacity, stream);
      PushEachIsNumbered(stream);
      EndsSwapped(stream[..capacity], stream[capacity + 1], stream[capacity]);
    }
  }

  /** Then the client writes the server's bytes in every interleaving, and sees the close frame last. */
  lemma LosslessIfAllFit(
      connId: u32, chunks: seq<seq<byte>>, x: Fine, capacity: nat, jobs: seq<Job>)
    requires |chunks| <= capacity && |chunks| + 1 < MAX_U32 && Reachable(x, capacity, jobs)
    requires PushesStream(x, jobs, Stream(connId, chunks))
    ensures var out := x.s.out;
            && out == Stream(connId, chunks)
            && Written(out) == Flatten(chunks) && SeesClose(out) && !SeesClose(out[..|out| - 1])
  {
    StreamIsWellNumbered(connId, chunks);
    StreamThatFits(Stream(connId, chunks), x, capacity, jobs);
    StreamIsWritten(connId, chunks);
  }
}
