/** Without timeouts each goroutine drops its own frame, however full the channel. */
module PushesOnly {
  import opened Bytes
  import opened FineStream
  import opened FtpFrames
  import opened FullChannel
  import opened LateFrames
  import opened ReorderBooks
  import opened ReorderBuffer
  import opened ReorderInterleaving
  import R = ReorderRuns
  import opened Wrappers

  /** Delivers a frame that is still held. */
  predicate OnItsWay(pc: Pc) {
    (pc.Blocked? || pc.Resuming?) && pc.fromHeld
  }

  predicate Flushing(pc: Pc) {
    (pc.Looping? || pc.Blocked? || pc.Resuming?) && pc.all
  }

  ghost predicate NoFlush(x: Fine) {
    forall i :: 0 <= i < |x.pcs| ==> !Flushing(x.pcs[i])
  }

  /** What is held is sorted, without copies, and of pushes that have started. */
  ghost predicate HeldAreStarted(x: Fine, jobs: seq<Job>)
    requires |jobs| == |x.pcs|
  {
    StrictlyIncreasing(x.s.held) && multiset(x.s.held) <= Total(jobs, x.pcs, OfStarted)
  }

  /** At most one goroutine is on its way with a held frame: it is the first, and its number was passed. */
  ghost predicate OneOnItsWay(x: Fine, w: Option<nat>) {
    && (forall i :: 0 <= i < |x.pcs| ==> (OnItsWay(x.pcs[i]) <==> w == Some(i)))
    && match w
       case None => true
       case Some(i) =>
         i < |x.pcs| && x.s.held != [] && x.pcs[i].f == x.s.held[0] && x.s.held[0].seqNo < x.s.next
  }

  ghost predicate Tidy(x: Fine, jobs: seq<Job>, w: Option<nat>) {
    HasJobs(x, jobs) && NoFlush(x) && HeldAreStarted(x, jobs) && OneOnItsWay(x, w)
  }

  ghost predicate PushesNumbered(jobs: seq<Job>) {
    FlushTimeout !in jobs && DistinctNumbers(jobs) && BelowLastNumber(jobs)
  }

  /** The goroutine that is on its way after the step. */
  function OnItsWayNext(x: Fine, c: Choice, w: Option<nat>): Option<nat>
    requires Enabled(x, c)
  {
    if !c.Act? then w
    else if OnItsWay(Next(x, c).pcs[c.i]) then Some(c.i)
    else if w == Some(c.i) then None
    else w
  }

  // ---------- one step ----------

  lemma NoFlushNext(x: Fine, c: Choice, jobs: seq<Job>)
    requires Enabled(x, c) && HasJobs(x, jobs) && NoFlush(x) && FlushTimeout !in jobs
    ensures HasJobs(Next(x, c), jobs) && NoFlush(Next(x, c))
  {
    MovesOne(x, c);
    if c.Act? {
      assert jobs[c.i] in jobs;
    }
  }

  /** A frame that is pushed has a number of its own. */
  lemma StartsDifferent(x: Fine, c: Choice, jobs: seq<Job>)
    requires Enabled(x, c) && c.Act? && HasJobs(x, jobs) && HeldAreStarted(x, jobs) && DistinctNumbers(jobs)
    requires x.pcs[c.i].Waiting? && jobs[c.i].Push?
    ensures |Next(x, c).pcs| == |jobs|
    ensures multiset(x.s.held + [jobs[c.i].f]) <= Total(jobs, Next(x, c).pcs, OfStarted)
    ensures R.UniqueSeqs(multiset(x.s.held + [jobs[c.i].f]))
  {
    var f := jobs[c.i].f;
    StartedAfter(x, c, jobs);
    assert multiset(x.s.held + [f]) == multiset(x.s.held) + multiset{f};
    StartedArePushed(jobs, Next(x, c).pcs);
    R.GrowingStaysNotUnique(multiset(x.s.held + [f]), multiset(PushedFrames(jobs)));
  }

  lemma DropFirst(held: seq<Frame>)
    requires held != [] && StrictlyIncreasing(held)
    ensures StrictlyIncreasing(held[1..]) && multiset(held[1..]) <= multiset(held)
  {
    HeldIsOneAndRest(held);
  }

  predicate Holds(x: Fine, c: Choice) {
    c.Act? && c.i < |x.pcs| && x.pcs[c.i].Waiting? && x.pcs[c.i].job.Push? && x.pcs[c.i].job.f.seqNo > x.s.next
  }

  lemma HeldAfter(x: Fine, c: Choice)
    requires Enabled(x, c)
    ensures var held' := Next(x, c).s.held;
            if Holds(x, c) then held' == c.h else held' == x.s.held || (x.s.held != [] && held' == x.s.held[1..])
  {
  }

  lemma StartedGrow(x: Fine, c: Choice, jobs: seq<Job>)
    requires Enabled(x, c) && HasJobs(x, jobs)
    ensures |Next(x, c).pcs| == |jobs|
    ensures Total(jobs, x.pcs, OfStarted) <= Total(jobs, Next(x, c).pcs, OfStarted)
  {
    var starts := AcceptsStarted(x, c, jobs);
  }

  lemma HeldNext(x: Fine, c: Choice, jobs: seq<Job>)
    requires Enabled(x, c) && HasJobs(x, jobs) && HeldAreStarted(x, jobs) && DistinctNumbers(jobs)
    ensures |Next(x, c).pcs| == |jobs| && HeldAreStarted(Next(x, c), jobs)
  {
    HeldAfter(x, c);
    StartedGrow(x, c, jobs);
    if Holds(x, c) {
      StartsDifferent(x, c, jobs);
      R.UniqueSortedIsIncreasing(c.h);
    } else if x.s.held != [] {
      DropFirst(x.s.held);
    }
  }

  /** What is held behind the first frame does not come before it. */
  lemma FirstStays(held: seq<Frame>, f: Frame, h: seq<Frame>)
    requires StrictlyIncreasing(held) && held != [] && held[0].seqNo < f.seqNo
    requires SortedBySeq(h) && multiset(h) == multiset(held + [f])
    ensures h != [] && h[0] == held[0]
  {
    assert |h| == |multiset(h)| == |held| + 1;
    assert (held + [f])[0] in multiset(h);
    var k :| 0 <= k < |h| && h[k] == held[0];
    assert h[0] in multiset(held + [f]);
    assert h[0] in held + [f];
  }

  lemma PushKeepsOne(x: Fine, c: Choice, w: Option<nat>)
    requires Enabled(x, c) && c.Act? && x.pcs[c.i].Waiting? && x.pcs[c.i].job.Push?
    requires StrictlyIncreasing(x.s.held) && OneOnItsWay(x, w) && x.pcs[c.i].job.f.seqNo < MAX_U32
    ensures OneOnItsWay(Next(x, c), w)
  {
    var f := x.pcs[c.i].job.f;
    if f.seqNo > x.s.next && w != None {
      FirstStays(x.s.held, f, c.h);
    }
  }

  lemma LoopKeepsOne(x: Fine, c: Choice, w: Option<nat>)
    requires Enabled(x, c) && c.Act? && x.pcs[c.i] == Looping(false) && OneOnItsWay(x, w)
    requires forall f <- x.s.held :: f.seqNo < MAX_U32
    ensures OneOnItsWay(Next(x, c), OnItsWayNext(x, c, w))
  {
    if GoesOn(x.s, false) {
      assert x.s.held[0] in x.s.held;
    }
  }

  lemma OtherKeepsOne(x: Fine, c: Choice, w: Option<nat>)
    requires Enabled(x, c) && c.Act? && (x.pcs[c.i].Blocked? || x.pcs[c.i].Resuming?) && OneOnItsWay(x, w)
    ensures OneOnItsWay(Next(x, c), OnItsWayNext(x, c, w))
  {
  }

  lemma HeldAreBelow(x: Fine, jobs: seq<Job>)
    requires |jobs| == |x.pcs| && HeldAreStarted(x, jobs) && BelowLastNumber(jobs)
    ensures forall f <- x.s.held :: f.seqNo < MAX_U32
  {
    StartedArePushed(jobs, x.pcs);
    forall f <- x.s.held ensures f.seqNo < MAX_U32 {
      assert f in multiset(x.s.held) && f in multiset(PushedFrames(jobs));
    }
  }

  lemma {:induction false} PushIsAmong(jobs: seq<Job>, i: nat)
    requires i < |jobs| && jobs[i].Push?
    ensures jobs[i].f in PushedFrames(jobs)
    decreases |jobs|
  {
    var n := |jobs| - 1;
    if i < n {
      PushIsAmong(jobs[..n], i);
    } else {
      assert PushedFrames(jobs)[|PushedFrames(jobs)| - 1] == jobs[i].f;
    }
  }

  lemma OneOnItsWayNext(x: Fine, c: Choice, jobs: seq<Job>, w: Option<nat>)
    requires Enabled(x, c) && Tidy(x, jobs, w) && PushesNumbered(jobs)
    ensures OneOnItsWay(Next(x, c), OnItsWayNext(x, c, w))
  {
    if c.Act? {
      match x.pcs[c.i]
      case Waiting(_) =>
        assert jobs[c.i] in jobs;
        PushIsAmong(jobs, c.i);
        PushKeepsOne(x, c, w);
      case Looping(_) =>
        HeldAreBelow(x, jobs);
        LoopKeepsOne(x, c, w);
      case _ => OtherKeepsOne(x, c, w);
    }
  }

  lemma StaysTidy(x: Fine, c: Choice, jobs: seq<Job>, w: Option<nat>)
    requires Enabled(x, c) && Tidy(x, jobs, w) && PushesNumbered(jobs)
    ensures Tidy(Next(x, c), jobs, OnItsWayNext(x, c, w)) && DropsItsOwn(x, c)
  {
    NoFlushNext(x, c, jobs);
    HeldNext(x, c, jobs);
    OneOnItsWayNext(x, c, jobs, w);
  }

  lemma StartsTidy(capacity: nat, jobs: seq<Job>)
    ensures Tidy(Initial(capacity, jobs), jobs, None)
  {
  }

  /** In every run over pushes of different numbers, full channel or not, each goroutine drops its own frame. */
  lemma {:induction false} PushesDropTheirOwn(
      xs: seq<Fine>, cs: seq<Choice>, capacity: nat, jobs: seq<Job>, n: nat) returns (w: Option<nat>)
    requires IsFineRun(xs, cs, capacity, jobs) && n <= |cs| && PushesNumbered(jobs)
    ensures Tidy(xs[n], jobs, w) && AllDropTheirOwn(xs, cs, n)
  {
    if n == 0 {
      w := None;
      StartsTidy(capacity, jobs);
    } else {
      w := PushesDropTheirOwn(xs, cs, capacity, jobs, n - 1);
      assert FineStep(xs, cs, n - 1);
      StaysTidy(xs[n - 1], cs[n - 1], jobs, w);
      w := OnItsWayNext(xs[n - 1], cs[n - 1], w);
    }
  }

  /** What is both in the channel and held is the frame of the one goroutine on its way. */
  lemma DoubledIsHeld(x: Fine, jobs: seq<Job>, w: Option<nat>)
    requires |jobs| == |x.pcs| && OneOnItsWay(x, w)
    ensures Total(jobs, x.pcs, OfDoubled) <= multiset(x.s.held)
  {
    match w
    case None => TotalOfNone(jobs, x.pcs, OfDoubled);
    case Some(i) =>
      TotalAfter(jobs, x.pcs, i, Done, OfDoubled);
      TotalOfNone(jobs, x.pcs[i := Done], OfDoubled);
      var all := Total(jobs, x.pcs, OfDoubled);
      assert all + multiset{} == all;
      assert x.s.held[0] in multiset(x.s.held);
  }

  lemma DeliveredAreAccepted(x: Fine, jobs: seq<Job>, accepted: multiset<Frame>, w: Option<nat>)
    requires |jobs| == |x.pcs| && OneOnItsWay(x, w) && Balanced(x, jobs, accepted)
    ensures multiset(x.s.out) <= accepted
  {
    DoubledIsHeld(x, jobs, w);
    BalancedIsForAll(x, jobs, accepted);
    forall f ensures multiset(x.s.out)[f] <= accepted[f] {
      assert BalancedFor(x, jobs, accepted, f);
    }
  }

  /** However many pushes of different numbers there are: no panic, and no frame delivered twice. */
  lemma PushesAreSafe(x: Fine, capacity: nat, jobs: seq<Job>)
    requires Reachable(x, capacity, jobs) && PushesNumbered(jobs)
    ensures Safe(x)
  {
    var xs, cs :| IsFineRun(xs, cs, capacity, jobs) && xs[|cs|] == x;
    var w := PushesDropTheirOwn(xs, cs, capacity, jobs, |cs|);
    OwnDropsNeverCrash(xs, cs, capacity, jobs, |cs|);
    BooksBalanceIff(xs, cs, capacity, jobs, |cs|);
    assert BalancedAfter(xs, cs, jobs, |cs|);
    DeliveredAreAccepted(x, jobs, Accepted(xs, cs, |cs|), w);
    AcceptedIffInTime(xs, cs, capacity, jobs, |cs|);
    StartedArePushed(jobs, x.pcs);
    R.GrowingStaysNotUnique(multiset(x.s.out), multiset(PushedFrames(jobs)));
  }
}
