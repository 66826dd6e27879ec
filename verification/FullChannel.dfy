/** What a full channel does to the reorder buffer, for a channel of any size, and when it cannot be full. */
module FullChannel {
  import opened Bytes
  import opened FtpFrames
  import opened ReorderBuffer
  import opened ReorderInterleaving
  import R = ReorderRuns
  import opened Wrappers

  // ---------- frames and jobs ----------

  function PushedFrames(jobs: seq<Job>): seq<Frame> {
    if jobs == [] then []
    else
      var n := |jobs| - 1;
      PushedFrames(jobs[..n]) + if jobs[n].Push? then [jobs[n].f] else []
  }

  lemma {:induction false} PushedFramesConcat(a: seq<Job>, b: seq<Job>)
    ensures PushedFrames(a + b) == PushedFrames(a) + PushedFrames(b)
    decreases |b|
  {
    if b == [] {
      assert a + b == a;
    } else {
      assert (a + b)[..|a + b| - 1] == a + b[..|b| - 1];
      PushedFramesConcat(a, b[..|b| - 1]);
    }
  }

  /** No two frames to push have the same number. */
  ghost predicate DistinctNumbers(jobs: seq<Job>) {
    R.UniqueSeqs(multiset(PushedFrames(jobs)))
  }

  /** No goroutine has panicked, and no frame was delivered twice. */
  ghost predicate Safe(x: Fine) {
    Crashed !in x.pcs && R.UniqueSeqs(multiset(x.s.out))
  }

  // ---------- at most as many pushes as the channel has places ----------

  function OfStarted(job: Job, pc: Pc): multiset<Frame> {
    if job.Push? && !pc.Waiting? then multiset{job.f} else multiset{}
  }

  ghost predicate FramesFromStarted(x: Fine, jobs: seq<Job>)
    requires |jobs| == |x.pcs|
  {
    multiset(x.s.out) + multiset(x.s.held) <= Total(jobs, x.pcs, OfStarted)
  }

  /** Every frame in the channel or held is that of a push that has started. */
  ghost predicate FromStarted(x: Fine, jobs: seq<Job>) {
    && LockKept(x) && |jobs| == |x.pcs|
    && (forall i :: 0 <= i < |jobs| && x.pcs[i].Waiting? ==> x.pcs[i].job == jobs[i])
    && FramesFromStarted(x, jobs)
  }

  lemma {:induction false} StartedArePushed(jobs: seq<Job>, pcs: seq<Pc>)
    requires |jobs| == |pcs|
    ensures Total(jobs, pcs, OfStarted) <= multiset(PushedFrames(jobs))
    decreases |jobs|
  {
    if jobs != [] {
      var n := |jobs| - 1;
      StartedArePushed(jobs[..n], pcs[..n]);
      var before, last := PushedFrames(jobs[..n]), if jobs[n].Push? then [jobs[n].f] else [];
      assert multiset(before + last) == multiset(before) + multiset(last);
    }
  }

  lemma FewerThan(m: multiset<Frame>, n: multiset<Frame>, f: Frame)
    requires m + multiset{f} <= n
    ensures |m| < |n|
  {
    assert n == m + multiset{f} + (n - (m + multiset{f}));
  }

  /** While a push has yet to deliver or hold its frame, or a held frame is to be delivered, there is room. */
  lemma RoomFor(x: Fine, jobs: seq<Job>, pending: multiset<Frame>, f: Frame)
    requires |jobs| == |x.pcs| && |PushedFrames(jobs)| <= x.capacity
    requires multiset(x.s.out) + multiset{f} <= pending <= multiset(PushedFrames(jobs))
    ensures !Full(x)
  {
    FewerThan(multiset(x.s.out), multiset(PushedFrames(jobs)), f);
    assert |multiset(x.s.out)| == |x.s.out|;
  }

  lemma HeldIsOneAndRest(held: seq<Frame>)
    requires held != []
    ensures multiset(held) == multiset{held[0]} + multiset(held[1..])
  {
    assert held == [held[0]] + held[1..];
  }

  lemma Cancel(after: multiset<Frame>, before: multiset<Frame>, m: multiset<Frame>, n: multiset<Frame>)
    requires after + m == before + n
    ensures m == n ==> after == before
    ensures m == multiset{} ==> after == before + n
  {
    assert after + multiset{} == after;
    if m == n {
      forall f ensures after[f] == before[f] {
        assert (after + m)[f] == (before + n)[f];
      }
      assert after == before;
    }
  }

  /** A push that starts counts from then on; no other step changes what has started. */
  lemma StartedAfter(x: Fine, c: Choice, jobs: seq<Job>)
    requires Enabled(x, c) && c.Act? && |jobs| == |x.pcs|
    ensures |Next(x, c).pcs| == |jobs|
    ensures Total(jobs, Next(x, c).pcs, OfStarted) ==
            Total(jobs, x.pcs, OfStarted)
            + if x.pcs[c.i].Waiting? && jobs[c.i].Push? then multiset{jobs[c.i].f} else multiset{}
  {
    MovesOne(x, c);
    var job, old', new' := jobs[c.i], x.pcs[c.i], Next(x, c).pcs[c.i];
    assert !new'.Waiting?;
    TotalAfter(jobs, x.pcs, c.i, new', OfStarted);
    Cancel(Total(jobs, Next(x, c).pcs, OfStarted), Total(jobs, x.pcs, OfStarted),
           OfStarted(job, old'), OfStarted(job, new'));
  }

  lemma OneMoreStarted(jobs: seq<Job>, pcs: seq<Pc>, j: nat)
    requires |jobs| == |pcs| && j < |jobs| && jobs[j].Push? && pcs[j].Waiting?
    ensures Total(jobs, pcs, OfStarted) + multiset{jobs[j].f} <= multiset(PushedFrames(jobs))
  {
    var pcs' := pcs[j := Done];
    TotalAfter(jobs, pcs, j, Done, OfStarted);
    Cancel(Total(jobs, pcs', OfStarted), Total(jobs, pcs, OfStarted), multiset{}, multiset{jobs[j].f});
    StartedArePushed(jobs, pcs');
  }

  lemma PushHasRoom(x: Fine, c: Choice, jobs: seq<Job>)
    requires FromStarted(x, jobs) && Enabled(x, c) && |PushedFrames(jobs)| <= x.capacity
    requires c.Act? && x.pcs[c.i].Waiting? && x.pcs[c.i].job.Push?
    ensures !Full(x)
  {
    var f := x.pcs[c.i].job.f;
    StartedAfter(x, c, jobs);
    StartedArePushed(jobs, Next(x, c).pcs);
    RoomFor(x, jobs, Total(jobs, Next(x, c).pcs, OfStarted), f);
  }

  lemma LoopHasRoom(x: Fine, jobs: seq<Job>)
    requires FromStarted(x, jobs) && |PushedFrames(jobs)| <= x.capacity && x.s.held != []
    ensures !Full(x)
  {
    HeldIsOneAndRest(x.s.held);
    StartedArePushed(jobs, x.pcs);
    RoomFor(x, jobs, Total(jobs, x.pcs, OfStarted), x.s.held[0]);
  }

  lemma NoStepDropsLock(x: Fine, c: Choice, jobs: seq<Job>)
    requires FromStarted(x, jobs) && Enabled(x, c) && |PushedFrames(jobs)| <= x.capacity
    ensures !DropsLock(x, c)
  {
    if c.Act? {
      if x.pcs[c.i].Waiting? && x.pcs[c.i].job.Push? {
        PushHasRoom(x, c, jobs);
      } else if x.pcs[c.i].Looping? && x.s.held != [] {
        LoopHasRoom(x, jobs);
      }
    }
  }

  lemma LockStaysKept(x: Fine, c: Choice)
    requires LockKept(x) && Enabled(x, c) && !DropsLock(x, c)
    ensures LockKept(Next(x, c))
  {
  }

  /** What one step that keeps the lock puts into the channel or takes into `held`. */
  lemma FramesAfter(x: Fine, c: Choice)
    requires LockKept(x) && Enabled(x, c) && !DropsLock(x, c)
    ensures var y := Next(x, c);
            multiset(y.s.out) + multiset(y.s.held) <=
            multiset(x.s.out) + multiset(x.s.held)
            + if c.Act? && x.pcs[c.i].Waiting? && x.pcs[c.i].job.Push? then multiset{x.pcs[c.i].job.f} else multiset{}
  {
    if c.Act? {
      match x.pcs[c.i]
      case Waiting(Push(f)) =>
        assert multiset(x.s.out + [f]) == multiset(x.s.out) + multiset{f};
        assert multiset(x.s.held + [f]) == multiset(x.s.held) + multiset{f};
      case Looping(_) =>
        if x.s.held != [] {
          HeldIsOneAndRest(x.s.held);
          assert multiset(x.s.out + [x.s.held[0]]) == multiset(x.s.out) + multiset{x.s.held[0]};
        }
      case _ =>
    }
  }

  lemma FramesStayStarted(x: Fine, c: Choice, jobs: seq<Job>)
    requires FromStarted(x, jobs) && Enabled(x, c) && !DropsLock(x, c)
    ensures |Next(x, c).pcs| == |jobs| && FramesFromStarted(Next(x, c), jobs)
  {
    FramesAfter(x, c);
    MovesOne(x, c);
    if c.Act? {
      StartedAfter(x, c, jobs);
    }
  }

  lemma StaysFromStarted(x: Fine, c: Choice, jobs: seq<Job>)
    requires FromStarted(x, jobs) && Enabled(x, c) && !DropsLock(x, c)
    ensures FromStarted(Next(x, c), jobs)
  {
    LockStaysKept(x, c);
    MovesOne(x, c);
    FramesStayStarted(x, c, jobs);
  }

  lemma FewPushesNext(xs: seq<Fine>, cs: seq<Choice>, jobs: seq<Job>, n: nat)
    requires n < |cs| < |xs| && FineStep(xs, cs, n) && KeepsLock(xs, cs, n)
    requires FromStarted(xs[n], jobs) && |PushedFrames(jobs)| <= xs[n].capacity
    ensures FromStarted(xs[n + 1], jobs) && xs[n + 1].capacity == xs[n].capacity && KeepsLock(xs, cs, n + 1)
  {
    NoStepDropsLock(xs[n], cs[n], jobs);
    StaysFromStarted(xs[n], cs[n], jobs);
  }

  /** Whatever the interleaving, no goroutine ever finds the channel full. */
  lemma {:induction false} FewPushesKeepLock(
      xs: seq<Fine>, cs: seq<Choice>, capacity: nat, jobs: seq<Job>, n: nat)
    requires IsFineRun(xs, cs, capacity, jobs) && n <= |cs| && |PushedFrames(jobs)| <= capacity
    ensures FromStarted(xs[n], jobs) && xs[n].capacity == capacity && KeepsLock(xs, cs, n)
  {
    if n == 0 {
      TotalOfNone(jobs, xs[0].pcs, OfStarted);
    } else {
      FewPushesKeepLock(xs, cs, capacity, jobs, n - 1);
      assert FineStep(xs, cs, n - 1);
      FewPushesNext(xs, cs, jobs, n - 1);
    }
  }

  lemma FewPushesAreSafe(x: Fine, capacity: nat, jobs: seq<Job>)
    requires Reachable(x, capacity, jobs) && |PushedFrames(jobs)| <= capacity && DistinctNumbers(jobs)
    ensures Safe(x)
  {
    var xs, cs :| IsFineRun(xs, cs, capacity, jobs) && xs[|cs|] == x;
    FewPushesKeepLock(xs, cs, capacity, jobs, |cs|);
    StartedArePushed(jobs, x.pcs);
    R.GrowingStaysNotUnique(multiset(x.s.out), multiset(PushedFrames(jobs)));
  }
}
