/** Exactly when frames leave the reorder buffer in order, whatever the interleaving. */
module FullChannelOrder {
  import opened Bytes
  import opened FineStream
  import opened FtpFrames
  import opened FtpStream
  import opened FullChannel
  import opened FullChannelRuns
  import opened ReorderBuffer
  import opened ReorderInterleaving
  import R = ReorderRuns
  import opened Wrappers

  lemma PrefixIsIncreasing(a: seq<Frame>, b: seq<Frame>)
    requires a <= b && StrictlyIncreasing(b)
    ensures StrictlyIncreasing(a)
  {
    assert forall i :: 0 <= i < |a| ==> a[i] == b[i];
  }

  // ---------- as long as no goroutine drops the lock, also in the middle of a flush ----------

  /** What the goroutine that has the lock, if any, will leave. */
  function Ahead(x: Fine): State
    requires x.holder.Some? ==> x.holder.value < |x.pcs| && x.pcs[x.holder.value].Looping?
  {
    if x.holder == None then x.s
    else if x.pcs[x.holder.value].all then FlushAll(x.s)
    else FlushContiguous(x.s)
  }

  lemma {:induction false} FlushContiguousAdds(s: State)
    ensures s.out <= FlushContiguous(s).out
    decreases |s.held|
  {
    if s.held != [] && s.held[0].seqNo == s.next {
      FlushContiguousAdds(Deliver(s, s.held[0]).(held := s.held[1..]));
    }
  }

  lemma {:induction false} FlushAllAdds(s: State)
    ensures s.out <= FlushAll(s).out
    decreases |s.held|
  {
    if s.held != [] {
      FlushAllAdds(Deliver(s, s.held[0]).(held := s.held[1..]));
    }
  }

  lemma AheadAdds(x: Fine)
    requires LockKept(x)
    ensures x.s.out <= Ahead(x).out
    ensures x.holder.Some? && GoesOn(x.s, x.pcs[x.holder.value].all) ==> x.s.out + [x.s.held[0]] <= Ahead(x).out
  {
    FlushContiguousAdds(x.s);
    FlushAllAdds(x.s);
    if x.s.held != [] {
      var s := Deliver(x.s, x.s.held[0]).(held := x.s.held[1..]);
      FlushContiguousAdds(s);
      FlushAllAdds(s);
    }
  }

  lemma DoneAndOneMore(jobs: seq<Job>, pcs: seq<Pc>, i: nat)
    requires |jobs| == |pcs| && i < |pcs| && pcs[i] != Done
    ensures Total(jobs, pcs, OfDone) + multiset{jobs[i]} <= multiset(jobs)
  {
    TotalAfter(jobs, pcs, i, Done, OfDone);
    DoneAreJobs(jobs, pcs[i := Done]);
    var done := Total(jobs, pcs[i := Done], OfDone);
    assert done + multiset{} == done;
  }

  /** The event under way can be completed. */
  lemma CompleteEvent(x: Fine, jobs: seq<Job>, states: seq<State>, events: seq<R.Event>, e: R.Event)
      returns (states': seq<State>, events': seq<R.Event>)
    requires Explained(x, jobs, states, events, e) && x.holder.Some?
    ensures R.IsRun(states', events') && JobsOf(events') <= multiset(jobs)
    ensures states'[|events'|].out == Ahead(x).out
  {
    var a := states[|events|];
    DoneAndOneMore(jobs, x.pcs, x.holder.value);
    if x.pcs[x.holder.value].all {
      states', events' := ExtendRun(states, events, e, TimeoutFlush(a));
    } else {
      var t := StopIfEmpty(FlushContiguous(Deliver(a, e.f)), true);
      states', events' := ExtendRun(states, events, R.Arrive(e.f, true), t);
    }
  }

  lemma AheadIsInOrder(xs: seq<Fine>, cs: seq<Choice>, capacity: nat, jobs: seq<Job>, n: nat)
    requires IsFineRun(xs, cs, capacity, jobs) && n <= |cs| && KeepsLock(xs, cs, n)
    requires DistinctNumbers(jobs) && BelowLastNumber(jobs)
    ensures LockKept(xs[n]) && StrictlyIncreasing(Ahead(xs[n]).out)
    ensures xs[n].holder == None ==> R.InOrder(xs[n].s)
  {
    var states, events, e := RoomMakesAtomic(xs, cs, capacity, jobs, n);
    if xs[n].holder == None {
      DoneAreJobs(jobs, xs[n].pcs);
    } else {
      states, events := CompleteEvent(xs[n], jobs, states, events, e);
    }
    DistinctRunKeepsOrder(states, events, jobs);
  }

  lemma OrderWithFewPushes(x: Fine, capacity: nat, jobs: seq<Job>)
    requires Reachable(x, capacity, jobs) && |PushedFrames(jobs)| <= capacity
    requires DistinctNumbers(jobs) && BelowLastNumber(jobs)
    ensures StrictlyIncreasing(x.s.out)
  {
    var xs, cs :| IsFineRun(xs, cs, capacity, jobs) && xs[|cs|] == x;
    FewPushesKeepLock(xs, cs, capacity, jobs, |cs|);
    AheadIsInOrder(xs, cs, capacity, jobs, |cs|);
    AheadAdds(x);
    PrefixIsIncreasing(x.s.out, Ahead(x).out);
  }

  // ---------- without timeouts: one push more than the channel has places ----------

  /**
    All goroutines but `i` are done. It waits to deliver the last frame of all, has just done so, or is
    about to end.
   */
  ghost predicate OnlyOneLeft(x: Fine, i: nat) {
    && i < |x.pcs| && (forall j :: 0 <= j < |x.pcs| && j != i ==> x.pcs[j] == Done)
    && StrictlyIncreasing(x.s.out)
    && match x.pcs[i]
       case Blocked(f, all, fromHeld) =>
         !all && StrictlyIncreasing(x.s.out + [f]) && x.s.held == if fromHeld then [f] else []
       case Resuming(f, all, fromHeld) => !all && x.s.held == if fromHeld then [f] else []
       case Looping(all) => !all && x.s.held == []
       case Done => true
       case _ => false
  }

  lemma StaysOnlyOneLeft(x: Fine, c: Choice, i: nat)
    requires OnlyOneLeft(x, i) && Enabled(x, c)
    ensures OnlyOneLeft(Next(x, c), i)
  {
    MovesOne(x, c);
  }

  lemma AtMost(m: multiset<Frame>, n: multiset<Frame>)
    requires m <= n
    ensures |m| <= |n|
  {
    assert n == m + (n - m);
  }

  lemma SizeOf(s: seq<Frame>)
    ensures |multiset(s)| == |s|
    ensures multiset(s) == multiset{} ==> s == []
  {
  }

  /** If as many frames have started as there are, no push has yet to start. */
  lemma AllHaveStarted(jobs: seq<Job>, pcs: seq<Pc>, j: nat)
    requires |jobs| == |pcs| && j < |jobs| && FlushTimeout !in jobs
    requires |Total(jobs, pcs, OfStarted)| >= |PushedFrames(jobs)|
    ensures !pcs[j].Waiting?
  {
    if pcs[j].Waiting? {
      assert jobs[j] in jobs;
      OneMoreStarted(jobs, pcs, j);
      FewerThan(Total(jobs, pcs, OfStarted), multiset(PushedFrames(jobs)), jobs[j].f);
      SizeOf(PushedFrames(jobs));
    }
  }

  /** A full channel, and one frame more: these are all there are. */
  lemma FullAndOneMore(x: Fine, jobs: seq<Job>, pcs: seq<Pc>, f: Frame, rest: multiset<Frame>)
    requires |jobs| == |pcs| && Full(x) && |PushedFrames(jobs)| <= x.capacity + 1
    requires multiset(x.s.out) + multiset{f} + rest <= Total(jobs, pcs, OfStarted)
    ensures rest == multiset{} && |Total(jobs, pcs, OfStarted)| >= |PushedFrames(jobs)|
  {
    var started, all := Total(jobs, pcs, OfStarted), multiset(x.s.out) + multiset{f} + rest;
    StartedArePushed(jobs, pcs);
    AtMost(started, multiset(PushedFrames(jobs)));
    AtMost(all, started);
    SizeOf(PushedFrames(jobs));
    SizeOf(x.s.out);
    assert |all| == |x.s.out| + 1 + |rest|;
  }

  /** The first goroutine that finds the channel full has the last frame of all, and the others are done. */
  lemma PushIsLast(x: Fine, c: Choice, jobs: seq<Job>)
    requires FromStarted(x, jobs) && Enabled(x, c) && DropsLock(x, c) && x.pcs[c.i].Waiting?
    requires |PushedFrames(jobs)| <= x.capacity + 1 && FlushTimeout !in jobs && R.InOrder(x.s)
    ensures OnlyOneLeft(Next(x, c), c.i)
  {
    var f, y := x.pcs[c.i].job.f, Next(x, c);
    StartedAfter(x, c, jobs);
    FullAndOneMore(x, jobs, y.pcs, f, multiset(x.s.held));
    SizeOf(x.s.held);
    forall j | 0 <= j < |y.pcs| && j != c.i ensures y.pcs[j] == Done {
      AllHaveStarted(jobs, y.pcs, j);
    }
  }

  lemma LoopIsLast(x: Fine, c: Choice, jobs: seq<Job>)
    requires FromStarted(x, jobs) && Enabled(x, c) && DropsLock(x, c) && x.pcs[c.i] == Looping(false)
    requires |PushedFrames(jobs)| <= x.capacity + 1 && FlushTimeout !in jobs
    requires StrictlyIncreasing(x.s.out + [x.s.held[0]])
    ensures OnlyOneLeft(Next(x, c), c.i)
  {
    var f, y := x.s.held[0], Next(x, c);
    HeldIsOneAndRest(x.s.held);
    FullAndOneMore(x, jobs, x.pcs, f, multiset(x.s.held[1..]));
    SizeOf(x.s.held[1..]);
    assert x.s.held == [f] + x.s.held[1..];
    PrefixIsIncreasing(x.s.out, x.s.out + [f]);
    forall j | 0 <= j < |y.pcs| && j != c.i ensures y.pcs[j] == Done {
      AllHaveStarted(jobs, x.pcs, j);
    }
  }

  lemma FirstDrop(xs: seq<Fine>, cs: seq<Choice>, capacity: nat, jobs: seq<Job>, n: nat)
    requires IsFineRun(xs, cs, capacity, jobs) && n < |cs| && KeepsLock(xs, cs, n)
    requires FineStep(xs, cs, n) && DropsLock(xs[n], cs[n]) && FromStarted(xs[n], jobs)
    requires |PushedFrames(jobs)| <= xs[n].capacity + 1 && FlushTimeout !in jobs
    requires DistinctNumbers(jobs) && BelowLastNumber(jobs)
    ensures OnlyOneLeft(xs[n + 1], cs[n].i)
  {
    var x, c := xs[n], cs[n];
    AheadIsInOrder(xs, cs, capacity, jobs, n);
    if x.pcs[c.i].Waiting? {
      PushIsLast(x, c, jobs);
    } else {
      var states, events, e := RoomMakesAtomic(xs, cs, capacity, jobs, n);
      assert jobs[c.i] in jobs && JobOf(e) == jobs[c.i];
      AheadAdds(x);
      PrefixIsIncreasing(x.s.out + [x.s.held[0]], Ahead(x).out);
      LoopIsLast(x, c, jobs);
    }
  }

  /** None of the first `n` steps has dropped the lock. */
  ghost predicate StillKept(xs: seq<Fine>, cs: seq<Choice>, capacity: nat, jobs: seq<Job>, n: nat)
    requires n <= |cs| < |xs|
  {
    FromStarted(xs[n], jobs) && xs[n].capacity == capacity && KeepsLock(xs, cs, n)
  }

  lemma StartsStillKept(xs: seq<Fine>, cs: seq<Choice>, capacity: nat, jobs: seq<Job>)
    requires IsFineRun(xs, cs, capacity, jobs)
    ensures StillKept(xs, cs, capacity, jobs, 0)
  {
    TotalOfNone(jobs, xs[0].pcs, OfStarted);
  }

  lemma StaysStillKept(xs: seq<Fine>, cs: seq<Choice>, capacity: nat, jobs: seq<Job>, n: nat)
    requires n < |cs| < |xs| && StillKept(xs, cs, capacity, jobs, n)
    requires FineStep(xs, cs, n) && !DropsLock(xs[n], cs[n])
    ensures StillKept(xs, cs, capacity, jobs, n + 1)
  {
    StaysFromStarted(xs[n], cs[n], jobs);
  }

  lemma StepKeepsOrLeavesOne(xs: seq<Fine>, cs: seq<Choice>, capacity: nat, jobs: seq<Job>, n: nat, i: nat)
      returns (j: nat)
    requires IsFineRun(xs, cs, capacity, jobs) && n < |cs| && FineStep(xs, cs, n)
    requires |PushedFrames(jobs)| <= capacity + 1 && FlushTimeout !in jobs
    requires DistinctNumbers(jobs) && BelowLastNumber(jobs)
    requires OnlyOneLeft(xs[n], i) || StillKept(xs, cs, capacity, jobs, n)
    ensures OnlyOneLeft(xs[n + 1], j) || StillKept(xs, cs, capacity, jobs, n + 1)
  {
    j := i;
    if OnlyOneLeft(xs[n], i) {
      StaysOnlyOneLeft(xs[n], cs[n], i);
    } else if DropsLock(xs[n], cs[n]) {
      FirstDrop(xs, cs, capacity, jobs, n);
      j := cs[n].i;
    } else {
      StaysStillKept(xs, cs, capacity, jobs, n);
    }
  }

  lemma {:induction false} KeptOrOnlyOneLeft(
      xs: seq<Fine>, cs: seq<Choice>, capacity: nat, jobs: seq<Job>, n: nat) returns (i: nat)
    requires IsFineRun(xs, cs, capacity, jobs) && n <= |cs|
    requires |PushedFrames(jobs)| <= capacity + 1 && FlushTimeout !in jobs
    requires DistinctNumbers(jobs) && BelowLastNumber(jobs)
    ensures OnlyOneLeft(xs[n], i) || StillKept(xs, cs, capacity, jobs, n)
  {
    i := 0;
    if n == 0 {
      StartsStillKept(xs, cs, capacity, jobs);
    } else {
      i := KeptOrOnlyOneLeft(xs, cs, capacity, jobs, n - 1);
      assert FineStep(xs, cs, n - 1);
      i := StepKeepsOrLeavesOne(xs, cs, capacity, jobs, n - 1, i);
    }
  }

  lemma OrderWithoutTimeouts(x: Fine, capacity: nat, jobs: seq<Job>)
    requires Reachable(x, capacity, jobs) && |PushedFrames(jobs)| <= capacity + 1 && FlushTimeout !in jobs
    requires DistinctNumbers(jobs) && BelowLastNumber(jobs)
    ensures StrictlyIncreasing(x.s.out)
  {
    var xs, cs :| IsFineRun(xs, cs, capacity, jobs) && xs[|cs|] == x;
    var i := KeptOrOnlyOneLeft(xs, cs, capacity, jobs, |cs|);
    if !OnlyOneLeft(x, i) {
      AheadIsInOrder(xs, cs, capacity, jobs, |cs|);
      AheadAdds(x);
      PrefixIsIncreasing(x.s.out, Ahead(x).out);
    }
  }

  // ---------- exactly when the order is kept ----------

  /** Every run over at most `n` pushes of different numbers, and any timeouts, delivers in order in every state. */
  ghost predicate AlwaysInOrder(capacity: nat, n: nat) {
    forall jobs, x ::
      && |PushedFrames(jobs)| <= n && DistinctNumbers(jobs) && BelowLastNumber(jobs)
      && Reachable(x, capacity, jobs)
      ==> StrictlyIncreasing(x.s.out)
  }

  /** Every run over at most `n` pushes and no timeout does. */
  ghost predicate AlwaysInOrderWithoutTimeouts(capacity: nat, n: nat) {
    forall jobs, x ::
      && |PushedFrames(jobs)| <= n && DistinctNumbers(jobs) && BelowLastNumber(jobs) && FlushTimeout !in jobs
      && Reachable(x, capacity, jobs)
      ==> StrictlyIncreasing(x.s.out)
  }

  lemma AroundAreBelow(c: nat)
    requires 0 < c && c + 3 < MAX_U32
    ensures BelowLastNumber(JobsAround(c, []))
  {
    var pushed := FirstFrames(c - 1) + [Numbered(c + 1), Numbered(c)];
    PushedInOrder(c, []);
    assert pushed + [] == pushed;
    forall f <- pushed ensures f.seqNo < MAX_U32 {
    }
  }

  lemma EndsAlike(first: seq<Frame>, a: Frame, b: Frame, c: Frame)
    requires b.seqNo >= c.seqNo
    ensures !StrictlyIncreasing(first + [a, b, c])
  {
    var s, n := first + [a, b, c], |first|;
    assert s[n + 1] == b && s[n + 2] == c;
  }

  /** A run over one push more than there are places, with a timeout, that delivers one frame twice. */
  lemma CanRepeatAFrame(c: nat) returns (jobs: seq<Job>, x: Fine)
    requires 0 < c && c + 3 < MAX_U32
    ensures |PushedFrames(jobs)| == c + 1 && DistinctNumbers(jobs) && BelowLastNumber(jobs)
    ensures Reachable(x, c, jobs) && !StrictlyIncreasing(x.s.out)
  {
    jobs, x := CanCrash(c);
    AroundAreBelow(c);
    EndsAlike(FirstFrames(c - 1), Numbered(c), Numbered(c + 1), Numbered(c + 1));
  }

  lemma EndsSwapped(first: seq<Frame>, a: Frame, b: Frame)
    requires a.seqNo >= b.seqNo
    ensures !StrictlyIncreasing(first + [a, b])
  {
    var s, n := first + [a, b], |first|;
    assert s[n] == a && s[n + 1] == b;
  }

  lemma PushEachIsNumbered(fs: seq<Frame>)
    requires WellNumbered(fs)
    ensures PushedFrames(PushEach(fs)) == fs && FlushTimeout !in PushEach(fs)
    ensures DistinctNumbers(PushEach(fs)) && BelowLastNumber(PushEach(fs))
  {
    PushedAre(fs);
    R.IncreasingIsUnique(fs);
  }

  /** A run over two more, with no timeout, that delivers the later of two frames first. */
  lemma CanReorder(c: nat) returns (jobs: seq<Job>, x: Fine)
    requires 0 < c && c + 3 < MAX_U32
    ensures |PushedFrames(jobs)| == c + 2 && DistinctNumbers(jobs) && BelowLastNumber(jobs) && FlushTimeout !in jobs
    ensures Reachable(x, c, jobs) && !StrictlyIncreasing(x.s.out)
  {
    var fs := FirstFrames(c + 2);
    jobs := PushEach(fs);
    PushEachIsNumbered(fs);
    x := CanSwapFrames(c, fs);
    EndsSwapped(fs[..c], fs[c + 1], fs[c]);
  }

  /** In order whatever the interleaving and the timeouts, exactly for as many pushes as places. */
  lemma AlwaysInOrderIff(capacity: nat, n: nat)
    requires 0 < capacity && capacity + 3 < MAX_U32
    ensures AlwaysInOrder(capacity, n) <==> n <= capacity
  {
    if n <= capacity {
      forall jobs, x
        | && |PushedFrames(jobs)| <= n && DistinctNumbers(jobs) && BelowLastNumber(jobs)
          && Reachable(x, capacity, jobs)
        ensures StrictlyIncreasing(x.s.out)
      {
        OrderWithFewPushes(x, capacity, jobs);
      }
    } else {
      var jobs, x := CanRepeatAFrame(capacity);
    }
  }

  /** Without timeouts there may be one push more. */
  lemma InOrderWithoutTimeoutsIff(capacity: nat, n: nat)
    requires 0 < capacity && capacity + 3 < MAX_U32
    ensures AlwaysInOrderWithoutTimeouts(capacity, n) <==> n <= capacity + 1
  {
    if n <= capacity + 1 {
      forall jobs, x
        | && |PushedFrames(jobs)| <= n && DistinctNumbers(jobs) && BelowLastNumber(jobs) && FlushTimeout !in jobs
          && Reachable(x, capacity, jobs)
        ensures StrictlyIncreasing(x.s.out)
      {
        OrderWithoutTimeouts(x, capacity, jobs);
      }
    } else {
      var jobs, x := CanReorder(capacity);
    }
  }
}
