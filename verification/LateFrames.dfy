/** Frames that come after their number was passed, in runs of goroutines with timeouts. */
module LateFrames {
  import opened Bytes
  import opened FineStream
  import opened FtpFrames
  import opened FtpStream
  import opened FullChannel
  import opened ReorderBooks
  import opened ReorderBuffer
  import opened ReorderInterleaving
  import R = ReorderRuns

  /** The step does not start a push whose number was passed. */
  predicate InTime(x: Fine, c: Choice) {
    c.Act? && c.i < |x.pcs| && x.pcs[c.i].Waiting? && x.pcs[c.i].job.Push? ==> x.pcs[c.i].job.f.seqNo >= x.s.next
  }

  /** In the first `n` steps. */
  ghost predicate AllInTime(xs: seq<Fine>, cs: seq<Choice>, n: nat)
    requires n <= |cs| < |xs|
  {
    n > 0 ==> InTime(xs[n - 1], cs[n - 1]) && AllInTime(xs, cs, n - 1)
  }

  ghost predicate HasJobs(x: Fine, jobs: seq<Job>) {
    |x.pcs| == |jobs| && forall i :: 0 <= i < |jobs| && x.pcs[i].Waiting? ==> x.pcs[i].job == jobs[i]
  }

  lemma {:induction false} RunHasJobs(xs: seq<Fine>, cs: seq<Choice>, capacity: nat, jobs: seq<Job>, n: nat)
    requires IsFineRun(xs, cs, capacity, jobs) && n <= |cs|
    ensures HasJobs(xs[n], jobs)
  {
    if n > 0 {
      RunHasJobs(xs, cs, capacity, jobs, n - 1);
      assert FineStep(xs, cs, n - 1);
      MovesOne(xs[n - 1], cs[n - 1]);
    }
  }

  /** A push that starts is accepted unless it is late. */
  lemma AcceptsStarted(x: Fine, c: Choice, jobs: seq<Job>) returns (starts: multiset<Frame>)
    requires Enabled(x, c) && HasJobs(x, jobs)
    ensures |Next(x, c).pcs| == |jobs|
    ensures Total(jobs, Next(x, c).pcs, OfStarted) == Total(jobs, x.pcs, OfStarted) + starts
    ensures if InTime(x, c) then AcceptedBy(x, c) == starts else AcceptedBy(x, c) == multiset{} && |starts| == 1
  {
    MovesOne(x, c);
    starts := multiset{};
    if c.Act? {
      StartedAfter(x, c, jobs);
      starts := if x.pcs[c.i].Waiting? && jobs[c.i].Push? then multiset{jobs[c.i].f} else multiset{};
    } else {
      assert Total(jobs, x.pcs, OfStarted) + multiset{} == Total(jobs, x.pcs, OfStarted);
    }
  }

  /** All were accepted if they came in time, and otherwise fewer. */
  ghost predicate Counted(accepted: multiset<Frame>, started: multiset<Frame>, inTime: bool) {
    accepted <= started && if inTime then accepted == started else |accepted| < |started|
  }

  lemma CountedNext(
      accepted: multiset<Frame>, started: multiset<Frame>, inTime: bool,
      accepts: multiset<Frame>, starts: multiset<Frame>, now: bool)
    requires Counted(accepted, started, inTime)
    requires if now then accepts == starts else accepts == multiset{} && |starts| == 1
    ensures Counted(accepted + accepts, started + starts, now && inTime)
  {
    assert |accepted + accepts| == |accepted| + |accepts| && |started + starts| == |started| + |starts|;
  }

  /** The frames accepted are those of the pushes that have started, exactly if none was late. */
  lemma {:induction false} AcceptedIffInTime(
      xs: seq<Fine>, cs: seq<Choice>, capacity: nat, jobs: seq<Job>, n: nat)
    requires IsFineRun(xs, cs, capacity, jobs) && n <= |cs|
    ensures |xs[n].pcs| == |jobs|
    ensures Counted(Accepted(xs, cs, n), Total(jobs, xs[n].pcs, OfStarted), AllInTime(xs, cs, n))
  {
    if n == 0 {
      TotalOfNone(jobs, xs[0].pcs, OfStarted);
    } else {
      var x, c := xs[n - 1], cs[n - 1];
      AcceptedIffInTime(xs, cs, capacity, jobs, n - 1);
      RunHasJobs(xs, cs, capacity, jobs, n - 1);
      assert FineStep(xs, cs, n - 1);
      var starts := AcceptsStarted(x, c, jobs);
      CountedNext(Accepted(xs, cs, n - 1), Total(jobs, x.pcs, OfStarted), AllInTime(xs, cs, n - 1),
                  AcceptedBy(x, c), starts, InTime(x, c));
    }
  }

  lemma {:induction false} AllStarted(jobs: seq<Job>, pcs: seq<Pc>)
    requires |jobs| == |pcs| && forall i :: 0 <= i < |pcs| ==> !pcs[i].Waiting?
    ensures Total(jobs, pcs, OfStarted) == multiset(PushedFrames(jobs))
    decreases |jobs|
  {
    if jobs != [] {
      var n := |jobs| - 1;
      AllStarted(jobs[..n], pcs[..n]);
      var last := if jobs[n].Push? then [jobs[n].f] else [];
      assert multiset(PushedFrames(jobs[..n]) + last) == multiset(PushedFrames(jobs[..n])) + multiset(last);
    }
  }

  /**
    With a full channel or without, as long as each goroutine drops its own frame: if all are done and
    nothing is held, all frames were delivered exactly if no push started after its number had been passed.
   */
  lemma AllDeliveredIffInTime(xs: seq<Fine>, cs: seq<Choice>, capacity: nat, jobs: seq<Job>)
    requires IsFineRun(xs, cs, capacity, jobs) && AllDropTheirOwn(xs, cs, |cs|)
    requires (forall i :: 0 <= i < |xs[|cs|].pcs| ==> xs[|cs|].pcs[i] == Done) && xs[|cs|].s.held == []
    ensures multiset(xs[|cs|].s.out) == multiset(PushedFrames(jobs)) <==> AllInTime(xs, cs, |cs|)
  {
    var n, x := |cs|, xs[|cs|];
    OwnDropsLoseNothing(xs, cs, capacity, jobs);
    AcceptedIffInTime(xs, cs, capacity, jobs, n);
    AllStarted(jobs, x.pcs);
    assert multiset(x.s.out) + multiset([]) == multiset(x.s.out);
  }

  lemma {:induction false} LockKeptDropTheirOwn(
      xs: seq<Fine>, cs: seq<Choice>, capacity: nat, jobs: seq<Job>, n: nat)
    requires IsFineRun(xs, cs, capacity, jobs) && n <= |cs| && KeepsLock(xs, cs, n)
    ensures LockKept(xs[n]) && AllDropTheirOwn(xs, cs, n)
  {
    if n > 0 {
      LockKeptDropTheirOwn(xs, cs, capacity, jobs, n - 1);
      LockStaysKept(xs[n - 1], cs[n - 1]);
    }
  }

  /** Frames of the stream in order, if they are all of them, are the stream. */
  lemma SameFrames(out: seq<Frame>, stream: seq<Frame>)
    requires StrictlyIncreasing(out) && WellNumbered(stream) && multiset(out) == multiset(stream)
    ensures out == stream
  {
    forall i | 0 <= i < |out| ensures FromStream(out[i], stream) {
      assert out[i] in multiset(stream);
    }
    IncreasingIsSubsequence(out, stream, |stream|);
    assert stream[..|stream|] == stream;
    SubsequenceIsNoLonger(out, stream);
    SameSize(out, stream);
  }

  lemma StreamJobs(jobs: seq<Job>, stream: seq<Frame>)
    requires WellNumbered(stream) && multiset(PushedFrames(jobs)) == multiset(stream)
    ensures DistinctNumbers(jobs) && BelowLastNumber(jobs)
  {
    R.IncreasingIsUnique(stream);
    forall f <- PushedFrames(jobs) ensures f.seqNo < MAX_U32 {
      assert f in multiset(stream);
    }
  }

  /**
    Goroutines push every frame of the stream once, in whatever order and with whatever timeouts, none
    finds the channel full, and nothing is held at the end: then the stream was delivered, in order,
    exactly if no push started after its number had been passed.
   */
  lemma StreamDeliveredIffInTime(
      stream: seq<Frame>, xs: seq<Fine>, cs: seq<Choice>, capacity: nat, jobs: seq<Job>)
    requires WellNumbered(stream) && multiset(PushedFrames(jobs)) == multiset(stream)
    requires IsFineRun(xs, cs, capacity, jobs) && KeepsLock(xs, cs, |cs|)
    requires (forall i :: 0 <= i < |xs[|cs|].pcs| ==> xs[|cs|].pcs[i] == Done) && xs[|cs|].s.held == []
    ensures xs[|cs|].s.out == stream <==> AllInTime(xs, cs, |cs|)
  {
    LockKeptDropTheirOwn(xs, cs, capacity, jobs, |cs|);
    AllDeliveredIffInTime(xs, cs, capacity, jobs);
    StreamJobs(jobs, stream);
    OrderWhileLockIsKept(xs, cs, capacity, jobs);
    if AllInTime(xs, cs, |cs|) {
      SameFrames(xs[|cs|].s.out, stream);
    }
  }
}
