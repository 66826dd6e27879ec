/** The reorder buffer's order, and the download path, over the steps of goroutines instead of atomic events. */
module FineStream {
  import opened Bytes
  import opened FtpFrames
  import opened FtpStream
  import opened FullChannel
  import opened ReorderBuffer
  import opened ReorderInterleaving
  import R = ReorderRuns
  import opened Sequences
  import opened Wrappers

  lemma {:induction false} AllDone(jobs: seq<Job>, pcs: seq<Pc>)
    requires |jobs| == |pcs| && forall i :: 0 <= i < |pcs| ==> pcs[i] == Done
    ensures Total(jobs, pcs, OfDone) == multiset(jobs)
    decreases |jobs|
  {
    if jobs != [] {
      var n := |jobs| - 1;
      AllDone(jobs[..n], pcs[..n]);
      assert jobs == jobs[..n] + [jobs[n]];
      assert multiset(jobs[..n] + [jobs[n]]) == multiset(jobs[..n]) + multiset{jobs[n]};
    }
  }

  lemma CountOf<T>(m: multiset<T>, s: seq<T>, x: T, f: T)
    ensures (m + multiset{x})[f] == m[f] + if f == x then 1 else 0
    ensures multiset(s + [x])[f] == multiset(s)[f] + if f == x then 1 else 0
  {
    assert multiset(s + [x]) == multiset(s) + multiset{x};
  }

  lemma {:induction false} ArrivalsAreJobs(events: seq<R.Event>, f: Frame)
    ensures multiset(ArrivalsOf(events))[f] == JobsOf(events)[Push(f)]
    decreases |events|
  {
    if events != [] {
      var init, last := events[..|events| - 1], events[|events| - 1];
      ArrivalsAreJobs(init, f);
      CountOf(JobsOf(init), [], JobOf(last), Push(f));
      if last.Arrive? {
        CountOf(multiset{}, ArrivalsOf(init), last.f, f);
      } else {
        assert ArrivalsOf(init) + [] == ArrivalsOf(init);
      }
    }
  }

  lemma {:induction false} TimeoutsAreJobs(events: seq<R.Event>)
    ensures FlushTimeout !in JobsOf(events) ==> NoTimeouts(events)
    decreases |events|
  {
    if events != [] {
      var init, last := events[..|events| - 1], events[|events| - 1];
      TimeoutsAreJobs(init);
      assert events == init + [last];
    }
  }

  lemma {:induction false} PushedAreJobs(jobs: seq<Job>, f: Frame)
    ensures multiset(PushedFrames(jobs))[f] == multiset(jobs)[Push(f)]
    decreases |jobs|
  {
    if jobs != [] {
      var init, last := jobs[..|jobs| - 1], jobs[|jobs| - 1];
      PushedAreJobs(init, f);
      var more := if last.Push? then [last.f] else [];
      assert multiset(PushedFrames(init) + more) == multiset(PushedFrames(init)) + multiset(more);
      assert jobs == init + [last];
      assert multiset(init + [last]) == multiset(init) + multiset{last};
    }
  }

  lemma {:induction false} DoneAreJobs(jobs: seq<Job>, pcs: seq<Pc>)
    requires |jobs| == |pcs|
    ensures Total(jobs, pcs, OfDone) <= multiset(jobs)
    decreases |jobs|
  {
    if jobs != [] {
      var n := |jobs| - 1;
      DoneAreJobs(jobs[..n], pcs[..n]);
      assert jobs == jobs[..n] + [jobs[n]];
      assert multiset(jobs[..n] + [jobs[n]]) == multiset(jobs[..n]) + multiset{jobs[n]};
    }
  }

  lemma ArrivalsAmongPushed(events: seq<R.Event>, jobs: seq<Job>)
    requires JobsOf(events) <= multiset(jobs)
    ensures multiset(ArrivalsOf(events)) <= multiset(PushedFrames(jobs))
  {
    forall f: Frame ensures multiset(ArrivalsOf(events))[f] <= multiset(PushedFrames(jobs))[f] {
      ArrivalsAreJobs(events, f);
      PushedAreJobs(jobs, f);
    }
  }

  ghost predicate BelowLastNumber(jobs: seq<Job>) {
    forall f <- PushedFrames(jobs) :: f.seqNo < MAX_U32
  }

  /** An atomic run whose arrivals have different numbers, below the last of all, is in order. */
  lemma DistinctRunKeepsOrder(states: seq<State>, events: seq<R.Event>, jobs: seq<Job>)
    requires R.IsRun(states, events) && JobsOf(events) <= multiset(jobs) && DistinctNumbers(jobs)
    requires BelowLastNumber(jobs)
    ensures R.InOrder(states[|events|])
  {
    var n := |events|;
    assert events[..n] == events;
    FramesHaveArrived(states, events, n);
    ArrivalsAmongPushed(events, jobs);
    R.GrowingStaysNotUnique(R.Frames(states[n]), multiset(PushedFrames(jobs)));
    forall i | 0 <= i < n && events[i].Arrive? ensures events[i].f.seqNo < MAX_U32 {
      ArrivedEach(events, i);
      assert events[i].f in multiset(PushedFrames(jobs));
    }
    assert R.BelowLastNumber(events);
    if R.SomeHeldAlready(states, events, n) {
      R.HeldAlreadyIsNotUnique(states, events, n);
    }
    R.RunKeepsOrder(states, events, n);
  }

  /**
    As long as no goroutine finds the channel full, pushes of different numbers and timeouts in any
    interleaving deliver in order: whenever the lock is free, the buffer is in order.
   */
  lemma OrderWhileLockIsKept(xs: seq<Fine>, cs: seq<Choice>, capacity: nat, jobs: seq<Job>)
    requires IsFineRun(xs, cs, capacity, jobs) && KeepsLock(xs, cs, |cs|) && xs[|cs|].holder == None
    requires DistinctNumbers(jobs) && BelowLastNumber(jobs)
    ensures R.InOrder(xs[|cs|].s)
  {
    var states, events, e := RoomMakesAtomic(xs, cs, capacity, jobs, |cs|);
    DoneAreJobs(jobs, xs[|cs|].pcs);
    DistinctRunKeepsOrder(states, events, jobs);
  }

  /** An atomic run made of exactly these jobs has exactly their frames as arrivals. */
  lemma ArrivalsArePushed(events: seq<R.Event>, jobs: seq<Job>)
    requires JobsOf(events) == multiset(jobs) && FlushTimeout !in jobs
    ensures multiset(ArrivalsOf(events)) == multiset(PushedFrames(jobs)) && NoTimeouts(events)
  {
    var a, b := multiset(ArrivalsOf(events)), multiset(PushedFrames(jobs));
    TimeoutsAreJobs(events);
    forall f: Frame ensures a[f] == b[f] {
      ArrivalsAreJobs(events, f);
      PushedAreJobs(jobs, f);
    }
    assert a == b;
  }

  /** Goroutines that push the server's frames, in whatever order they run, and are all done. */
  ghost predicate PushesStream(x: Fine, jobs: seq<Job>, stream: seq<Frame>) {
    && FlushTimeout !in jobs && multiset(PushedFrames(jobs)) == multiset(stream)
    && |x.pcs| == |jobs| && forall i :: 0 <= i < |x.pcs| ==> x.pcs[i] == Done
  }

  /** Goroutines that are all done, and never dropped the lock, have gone through an atomic run of all their jobs. */
  lemma AtomicallyDone(xs: seq<Fine>, cs: seq<Choice>, capacity: nat, jobs: seq<Job>)
      returns (states: seq<State>, events: seq<R.Event>)
    requires IsFineRun(xs, cs, capacity, jobs) && KeepsLock(xs, cs, |cs|)
    requires |xs[|cs|].pcs| == |jobs| && forall i :: 0 <= i < |jobs| ==> xs[|cs|].pcs[i] == Done
    ensures R.IsRun(states, events) && xs[|cs|].s == states[|events|] && JobsOf(events) == multiset(jobs)
  {
    var e;
    states, events, e := RoomMakesAtomic(xs, cs, capacity, jobs, |cs|);
    assert xs[|cs|].holder == None;
    AllDone(jobs, xs[|cs|].pcs);
  }

  /** As long as none of them finds the channel full, the client writes the server's bytes and sees the close last. */
  lemma LosslessWhileLockIsKept(
      connId: u32, chunks: seq<seq<byte>>, xs: seq<Fine>, cs: seq<Choice>, capacity: nat, jobs: seq<Job>)
    requires |chunks| + 1 < MAX_U32 && IsFineRun(xs, cs, capacity, jobs) && KeepsLock(xs, cs, |cs|)
    requires PushesStream(xs[|cs|], jobs, Stream(connId, chunks))
    ensures var out := xs[|cs|].s.out;
            && out == Stream(connId, chunks)
            && Written(out) == Flatten(chunks) && SeesClose(out) && !SeesClose(out[..|out| - 1])
  {
    var states, events := AtomicallyDone(xs, cs, capacity, jobs);
    ArrivalsArePushed(events, jobs);
    LosslessInAnyOrder(connId, chunks, states, events);
  }
}
