/** Runs that go wrong at a full channel, for a channel of any size. */
module FullChannelRuns {
  import opened Bytes
  import opened FtpFrames
  import opened FtpStream
  import opened FullChannel
  import opened ReorderBuffer
  import opened ReorderInterleaving
  import R = ReorderRuns
  import opened Wrappers

  function Numbered(n: nat): Frame {
    Frame(7, TYPE_DATA, ToU32(n), [0])
  }

  /** Frames 1 to `n`. */
  function FirstFrames(n: nat): (fs: seq<Frame>)
    ensures |fs| == n && forall i :: 0 <= i < n ==> fs[i] == Numbered(i + 1)
  {
    seq(n, i requires 0 <= i => Numbered(i + 1))
  }

  function PushEach(fs: seq<Frame>): (jobs: seq<Job>)
    ensures |jobs| == |fs| && forall i :: 0 <= i < |fs| ==> jobs[i] == Push(fs[i])
  {
    seq(|fs|, i requires 0 <= i < |fs| => Push(fs[i]))
  }

  lemma {:induction false} PushedAre(fs: seq<Frame>)
    ensures PushedFrames(PushEach(fs)) == fs
    decreases |fs|
  {
    if fs != [] {
      var n := |fs| - 1;
      PushedAre(fs[..n]);
      assert PushEach(fs)[..n] == PushEach(fs[..n]);
      assert fs == fs[..n] + [fs[n]];
    }
  }

  // ---------- filling the channel ----------

  /** After the first `k` jobs, which push the first `k` frames in order, into a channel that has room for them. */
  function Filled(capacity: nat, fs: seq<Frame>, jobs: seq<Job>, k: nat): Fine
    requires k <= |jobs| && k <= |fs|
  {
    Fine(State(ToU32(k + 1), [], false, 0, fs[..k]), capacity, 0, None,
         seq(|jobs|, i requires 0 <= i < |jobs| => if i < k then Done else Waiting(jobs[i])))
  }

  lemma PushNext(capacity: nat, fs: seq<Frame>, jobs: seq<Job>, k: nat)
    requires k < capacity && k < |jobs| && WellNumbered(fs) && k < |fs| && jobs[k] == Push(fs[k])
    requires Reachable(Filled(capacity, fs, jobs, k), capacity, jobs)
    ensures Reachable(Filled(capacity, fs, jobs, k + 1), capacity, jobs)
  {
    var x, z := Filled(capacity, fs, jobs, k), Filled(capacity, fs, jobs, k + 1);
    var y := x.(s := z.s, holder := Some(k), pcs := x.pcs[k := Looping(false)]);
    assert z.s.out == x.s.out + [fs[k]];
    ReachStep(x, Act(k, true, []), y, capacity, jobs);
    assert z.pcs == y.pcs[k := Done];
    ReachStep(y, Act(k, true, []), z, capacity, jobs);
  }

  lemma {:induction false} FillUp(capacity: nat, fs: seq<Frame>, jobs: seq<Job>, k: nat)
    requires k <= capacity && k <= |jobs| && WellNumbered(fs) && k <= |fs|
    requires forall i :: 0 <= i < k ==> jobs[i] == Push(fs[i])
    ensures Reachable(Filled(capacity, fs, jobs, k), capacity, jobs)
  {
    if k == 0 {
      assert Filled(capacity, fs, jobs, 0) == Initial(capacity, jobs);
      InitialIsReachable(capacity, jobs);
    } else {
      FillUp(capacity, fs, jobs, k - 1);
      PushNext(capacity, fs, jobs, k - 1);
    }
  }

  // ---------- what goroutines do at a full channel ----------

  /** A frame that is not the next is held. */
  lemma HoldOne(x: Fine, i: nat, f: Frame, y: Fine, capacity: nat, jobs: seq<Job>)
    requires Reachable(x, capacity, jobs) && x.holder == None && i < |x.pcs| && x.pcs[i] == Waiting(Push(f))
    requires x.s.next < f.seqNo && SortedBySeq(x.s.held + [f])
    requires y == x.(s := x.s.(held := x.s.held + [f], timer := true, pending := y.s.pending), pcs := x.pcs[i := Done])
    requires y.s.pending == if x.s.timer then x.s.pending else x.s.pending + 1
    ensures Reachable(y, capacity, jobs)
  {
    ReachStep(x, Act(i, true, x.s.held + [f]), y, capacity, jobs);
  }

  /** The next frame takes the last place; the frame held behind it finds the channel full. */
  lemma BlockPush(x: Fine, i: nat, f: Frame, capacity: nat, jobs: seq<Job>) returns (y: Fine)
    requires Reachable(x, capacity, jobs) && x.holder == None && i < |x.pcs| && x.pcs[i] == Waiting(Push(f))
    requires f.seqNo == x.s.next && |x.s.out| + 1 == x.capacity + x.consumed
    requires x.s.held != [] && x.s.held[0].seqNo == f.seqNo + 1 && f.seqNo + 2 <= MAX_U32
    ensures Reachable(y, capacity, jobs)
    ensures y == x.(s := x.s.(next := f.seqNo + 2, out := x.s.out + [f]),
                    pcs := x.pcs[i := Blocked(x.s.held[0], false, true)])
  {
    var z := x.(s := x.s.(next := f.seqNo + 1, out := x.s.out + [f]), holder := Some(i),
                pcs := x.pcs[i := Looping(false)]);
    ReachStep(x, Act(i, true, []), z, capacity, jobs);
    y := z.(s := z.s.(next := f.seqNo + 2), holder := None, pcs := z.pcs[i := Blocked(x.s.held[0], false, true)]);
    ReachStep(z, Act(i, true, []), y, capacity, jobs);
    assert y.pcs == x.pcs[i := Blocked(x.s.held[0], false, true)];
  }

  /** A timeout flush finds the channel full at once. */
  lemma BlockFlush(x: Fine, i: nat, capacity: nat, jobs: seq<Job>) returns (y: Fine)
    requires Reachable(x, capacity, jobs) && x.holder == None && i < |x.pcs| && x.pcs[i] == Waiting(FlushTimeout)
    requires Full(x) && x.s.held != [] && x.s.pending > 0
    ensures Reachable(y, capacity, jobs)
    ensures y == x.(s := x.s.(next := ToU32(x.s.held[0].seqNo + 1), timer := false, pending := x.s.pending - 1),
                    pcs := x.pcs[i := Blocked(x.s.held[0], true, true)])
  {
    var z := x.(s := x.s.(timer := false, pending := x.s.pending - 1), holder := Some(i),
                pcs := x.pcs[i := Looping(true)]);
    ReachStep(x, Act(i, true, []), z, capacity, jobs);
    y := z.(s := z.s.(next := ToU32(x.s.held[0].seqNo + 1)), holder := None,
            pcs := z.pcs[i := Blocked(x.s.held[0], true, true)]);
    ReachStep(z, Act(i, true, []), y, capacity, jobs);
    assert y.pcs == x.pcs[i := Blocked(x.s.held[0], true, true)];
  }

  /** One frame is consumed, and a goroutine that waits takes its place. */
  lemma SendBlocked(x: Fine, i: nat, capacity: nat, jobs: seq<Job>) returns (y: Fine)
    requires Reachable(x, capacity, jobs) && i < |x.pcs| && x.pcs[i].Blocked?
    requires x.consumed < |x.s.out| == x.capacity + x.consumed
    ensures Reachable(y, capacity, jobs)
    ensures var pc := x.pcs[i];
            y == x.(s := x.s.(out := x.s.out + [pc.f]), consumed := x.consumed + 1,
                    pcs := x.pcs[i := Resuming(pc.f, pc.all, pc.fromHeld)])
  {
    var z, pc := x.(consumed := x.consumed + 1), x.pcs[i];
    ReachStep(x, Consume, z, capacity, jobs);
    y := z.(s := z.s.(out := z.s.out + [pc.f]), pcs := z.pcs[i := Resuming(pc.f, pc.all, pc.fromHeld)]);
    ReachStep(z, Act(i, true, []), y, capacity, jobs);
  }

  /** A goroutine has the lock again, drops the first held frame if that is what it delivered, and has no more to do. */
  lemma ResumeAndStop(x: Fine, i: nat, capacity: nat, jobs: seq<Job>) returns (y: Fine)
    requires Reachable(x, capacity, jobs) && x.holder == None && i < |x.pcs| && x.pcs[i].Resuming? && !x.s.timer
    requires x.pcs[i].fromHeld ==> x.s.held != []
    requires var held := if x.pcs[i].fromHeld then x.s.held[1..] else x.s.held;
             !GoesOn(x.s.(held := held), x.pcs[i].all)
    ensures Reachable(y, capacity, jobs)
    ensures y == x.(s := x.s.(held := if x.pcs[i].fromHeld then x.s.held[1..] else x.s.held), pcs := x.pcs[i := Done])
  {
    var pc := x.pcs[i];
    var z := x.(s := x.s.(held := if pc.fromHeld then x.s.held[1..] else x.s.held), holder := Some(i),
                pcs := x.pcs[i := Looping(pc.all)]);
    ReachStep(x, Act(i, true, []), z, capacity, jobs);
    y := z.(holder := None, pcs := z.pcs[i := Done]);
    ReachStep(z, Act(i, true, []), y, capacity, jobs);
    assert y.pcs == x.pcs[i := Done];
  }

  /** A goroutine has the lock again and finds no held frame to drop. */
  lemma ResumeAndCrash(x: Fine, i: nat, capacity: nat, jobs: seq<Job>) returns (y: Fine)
    requires Reachable(x, capacity, jobs) && x.holder == None && i < |x.pcs| && x.pcs[i].Resuming?
    requires x.pcs[i].fromHeld && x.s.held == []
    ensures Reachable(y, capacity, jobs) && y == x.(pcs := x.pcs[i := Crashed])
  {
    y := x.(pcs := x.pcs[i := Crashed]);
    ReachStep(x, Act(i, true, []), y, capacity, jobs);
  }

  // ---------- runs that go wrong ----------

  /**
    A push and a timeout flush both find the channel full with the same held frame, both deliver it,
    and the push drops it: what the flush will drop is another frame, or none.
   */
  lemma DeliverTwice(x: Fine, b: nat, t: nat, f: Frame, capacity: nat, jobs: seq<Job>) returns (y: Fine)
    requires Reachable(x, capacity, jobs) && x.holder == None && b < |x.pcs| && t < |x.pcs|
    requires x.pcs[b] == Waiting(Push(f)) && x.pcs[t] == Waiting(FlushTimeout)
    requires f.seqNo == x.s.next && |x.s.out| + 1 == x.capacity + x.consumed && x.capacity > 0
    requires x.s.held != [] && x.s.held[0].seqNo == f.seqNo + 1 && f.seqNo + 2 <= MAX_U32 && x.s.pending > 0
    requires |x.s.held| > 1 ==> x.s.held[1].seqNo != f.seqNo + 2
    ensures Reachable(y, capacity, jobs)
    ensures var g := x.s.held[0];
            && y.holder == None && y.pcs == x.pcs[b := Done][t := Resuming(g, true, true)]
            && y.s == State(f.seqNo + 2, x.s.held[1..], false, x.s.pending - 1, x.s.out + [f, g, g])
  {
    var g := x.s.held[0];
    y := BlockPush(x, b, f, capacity, jobs);
    y := BlockFlush(y, t, capacity, jobs);
    y := SendBlocked(y, b, capacity, jobs);
    y := SendBlocked(y, t, capacity, jobs);
    assert y.s.out == x.s.out + [f, g, g];
    y := ResumeAndStop(y, b, capacity, jobs);
    assert y.pcs == x.pcs[b := Done][t := Resuming(g, true, true)];
  }

  /** Frames 1 to `c` - 1 in order, frame `c` + 1 ahead of frame `c`, a timeout; and the frames of `more`. */
  function JobsAround(c: nat, more: seq<Frame>): seq<Job>
    requires c > 0
  {
    PushEach(FirstFrames(c - 1)) + [Push(Numbered(c + 1)), Push(Numbered(c)), FlushTimeout] + PushEach(more)
  }

  lemma PushedOfTwo(a: Frame, b: Frame)
    ensures PushedFrames([Push(a), Push(b), FlushTimeout]) == [a, b]
  {
    var jobs := [Push(a), Push(b), FlushTimeout];
    PushedAre([a, b]);
    assert jobs[..2] == PushEach([a, b]);
    assert PushedFrames(jobs) == PushedFrames(jobs[..2]) + [];
  }

  lemma PushedInOrder(c: nat, more: seq<Frame>)
    requires c > 0
    ensures PushedFrames(JobsAround(c, more)) == FirstFrames(c - 1) + [Numbered(c + 1), Numbered(c)] + more
  {
    var first, middle := FirstFrames(c - 1), [Push(Numbered(c + 1)), Push(Numbered(c)), FlushTimeout];
    PushedAre(first);
    PushedAre(more);
    PushedOfTwo(Numbered(c + 1), Numbered(c));
    PushedFramesConcat(PushEach(first) + middle, PushEach(more));
    PushedFramesConcat(PushEach(first), middle);
  }

  lemma TwoMore(c: nat)
    requires c > 0
    ensures FirstFrames(c + 1) == FirstFrames(c - 1) + [Numbered(c), Numbered(c + 1)]
  {
  }

  lemma SwapTwo(first: seq<Frame>, a: Frame, b: Frame, more: seq<Frame>)
    ensures multiset(first + [b, a] + more) == multiset(first + [a, b] + more)
  {
    assert multiset([b, a]) == multiset([a, b]);
    assert multiset(first + [b, a] + more) == multiset(first) + multiset([b, a]) + multiset(more);
    assert multiset(first + [a, b] + more) == multiset(first) + multiset([a, b]) + multiset(more);
  }

  lemma PushedAround(c: nat, more: seq<Frame>)
    requires c > 0
    ensures |PushedFrames(JobsAround(c, more))| == c + 1 + |more|
    ensures multiset(PushedFrames(JobsAround(c, more))) == multiset(FirstFrames(c + 1) + more)
  {
    var pushed, a, b := PushedFrames(JobsAround(c, more)), Numbered(c), Numbered(c + 1);
    PushedInOrder(c, more);
    assert pushed == FirstFrames(c - 1) + [b, a] + more;
    TwoMore(c);
    SwapTwo(FirstFrames(c - 1), a, b, more);
  }

  lemma AroundAreDistinct(c: nat, more: seq<Frame>)
    requires c > 0 && StrictlyIncreasing(FirstFrames(c + 1) + more)
    ensures DistinctNumbers(JobsAround(c, more))
  {
    PushedAround(c, more);
    R.IncreasingIsUnique(FirstFrames(c + 1) + more);
  }

  /** The run up to the point where frame `c` + 1 is held and one place is left. */
  lemma HoldAround(c: nat, more: seq<Frame>) returns (x: Fine)
    requires 0 < c && c + 3 < MAX_U32
    ensures Reachable(x, c, JobsAround(c, more))
    ensures x.holder == None && x.capacity == c && x.consumed == 0
    ensures x.s == State(c, [Numbered(c + 1)], true, 1, FirstFrames(c - 1))
    ensures x.pcs == Filled(c, FirstFrames(c - 1), JobsAround(c, more), c - 1).pcs[c - 1 := Done]
  {
    var jobs := JobsAround(c, more);
    FillUp(c, FirstFrames(c - 1), jobs, c - 1);
    var y := Filled(c, FirstFrames(c - 1), jobs, c - 1);
    assert y.s.out == FirstFrames(c - 1);
    assert y.s.held + [Numbered(c + 1)] == [Numbered(c + 1)];
    x := y.(s := y.s.(held := [Numbered(c + 1)], timer := true, pending := 1), pcs := y.pcs[c - 1 := Done]);
    HoldOne(y, c - 1, Numbered(c + 1), x, c, jobs);
  }

  lemma HoldAndCrash(c: nat) returns (x: Fine)
    requires 0 < c && c + 3 < MAX_U32
    ensures Reachable(x, c, JobsAround(c, [])) && Crashed in x.pcs
    ensures x.s.out == FirstFrames(c - 1) + [Numbered(c), Numbered(c + 1), Numbered(c + 1)]
  {
    var jobs := JobsAround(c, []);
    x := HoldAround(c, []);
    x := DeliverTwice(x, c, c + 1, Numbered(c), c, jobs);
    x := ResumeAndCrash(x, c + 1, c, jobs);
    assert x.pcs[c + 1] == Crashed;
  }

  /** With one push more than the channel has places a goroutine can panic, though all numbers differ. */
  lemma CanCrash(c: nat) returns (jobs: seq<Job>, x: Fine)
    requires 0 < c && c + 3 < MAX_U32
    ensures |PushedFrames(jobs)| == c + 1 && DistinctNumbers(jobs)
    ensures Reachable(x, c, jobs) && Crashed in x.pcs
    ensures jobs == JobsAround(c, []) && x.s.out == FirstFrames(c - 1) + [Numbered(c), Numbered(c + 1), Numbered(c + 1)]
  {
    jobs := JobsAround(c, []);
    PushedAround(c, []);
    assert FirstFrames(c + 1) + [] == FirstFrames(c + 1);
    AroundAreDistinct(c, []);
    x := HoldAndCrash(c);
  }

  lemma HoldAndLose(c: nat, lost: Frame) returns (x: Fine)
    requires 0 < c && c + 3 < MAX_U32 && lost.seqNo == c + 3
    ensures Reachable(x, c, JobsAround(c, [lost])) && x.s.held == []
    ensures x.s.out == FirstFrames(c - 1) + [Numbered(c), Numbered(c + 1), Numbered(c + 1)]
    ensures forall i :: 0 <= i < |x.pcs| ==> x.pcs[i] == Done
  {
    var jobs := JobsAround(c, [lost]);
    var y := HoldAround(c, [lost]);
    x := y.(s := y.s.(held := [Numbered(c + 1), lost]), pcs := y.pcs[c + 2 := Done]);
    assert y.s.held + [lost] == [Numbered(c + 1), lost];
    HoldOne(y, c + 2, lost, x, c, jobs);
    x := DeliverTwice(x, c, c + 1, Numbered(c), c, jobs);
    assert x.s.held == [lost];
    x := ResumeAndStop(x, c + 1, c, jobs);
  }

  lemma TwiceInOut(c: nat)
    requires 0 < c && c + 3 < MAX_U32
    ensures var out := FirstFrames(c - 1) + [Numbered(c), Numbered(c + 1), Numbered(c + 1)];
            Numbered(c + 3) !in out && multiset(out)[Numbered(c + 1)] == 2
  {
    var first, g := FirstFrames(c - 1), Numbered(c + 1);
    var last := [Numbered(c), g, g];
    assert g !in first && multiset(first)[g] == 0;
    assert multiset(last) == multiset{Numbered(c), g, g};
    assert multiset(first + last) == multiset(first) + multiset(last);
  }

  lemma LastIsIn(fs: seq<Frame>, f: Frame)
    ensures |fs + [f]| == |fs| + 1 && f in fs + [f]
  {
    assert (fs + [f])[|fs|] == f;
  }

  lemma LostIsPushed(c: nat, lost: Frame)
    requires 0 < c && c + 3 < MAX_U32 && lost.seqNo == c + 3
    ensures |PushedFrames(JobsAround(c, [lost]))| == c + 2 && DistinctNumbers(JobsAround(c, [lost]))
    ensures lost in PushedFrames(JobsAround(c, [lost]))
  {
    assert StrictlyIncreasing(FirstFrames(c + 1) + [lost]);
    AroundAreDistinct(c, [lost]);
    PushedInOrder(c, [lost]);
    LastIsIn(FirstFrames(c - 1) + [Numbered(c + 1), Numbered(c)], lost);
  }

  /** With two more, a frame can be lost for good and another be delivered twice. */
  lemma CanLoseAFrame(c: nat) returns (jobs: seq<Job>, x: Fine)
    requires 0 < c && c + 3 < MAX_U32
    ensures |PushedFrames(jobs)| == c + 2 && DistinctNumbers(jobs) && Reachable(x, c, jobs)
    ensures (forall i :: 0 <= i < |x.pcs| ==> x.pcs[i] == Done) && x.s.held == []
    ensures Numbered(c + 3) in PushedFrames(jobs) && Numbered(c + 3) !in x.s.out
    ensures multiset(x.s.out)[Numbered(c + 1)] == 2
  {
    jobs := JobsAround(c, [Numbered(c + 3)]);
    LostIsPushed(c, Numbered(c + 3));
    x := HoldAndLose(c, Numbered(c + 3));
    TwiceInOut(c);
  }

  /** Two goroutines wait with the next two frames, and the later frame gets the first place. */
  lemma SendSwapped(c: nat, fs: seq<Frame>) returns (x: Fine)
    requires 0 < c && WellNumbered(fs) && c + 2 <= |fs|
    ensures var f, g := fs[c], fs[c + 1];
            && Reachable(x, c, PushEach(fs))
            && x.holder == None && x.s == State(c + 3, [], false, 0, fs[..c] + [g, f])
            && x.pcs == Filled(c, fs, PushEach(fs), c).pcs
                        [c := Resuming(f, false, false)][c + 1 := Resuming(g, false, false)]
  {
    var jobs, f, g := PushEach(fs), fs[c], fs[c + 1];
    FillUp(c, fs, jobs, c);
    var y := Filled(c, fs, jobs, c);
    x := y.(s := y.s.(next := c + 2), pcs := y.pcs[c := Blocked(f, false, false)]);
    ReachStep(y, Act(c, true, []), x, c, jobs);
    y := x.(s := x.s.(next := ToU32(c + 3)), pcs := x.pcs[c + 1 := Blocked(g, false, false)]);
    ReachStep(x, Act(c + 1, true, []), y, c, jobs);
    x := SendBlocked(y, c + 1, c, jobs);
    x := SendBlocked(x, c, c, jobs);
    assert x.s.out == fs[..c] + [g, f];
    assert x.pcs == Filled(c, fs, jobs, c).pcs[c := Resuming(f, false, false)][c + 1 := Resuming(g, false, false)];
  }

  /** If two more are pushed in order, then without any timeout two frames can change places. */
  lemma CanSwapFrames(c: nat, fs: seq<Frame>) returns (x: Fine)
    requires 0 < c && WellNumbered(fs) && c + 2 <= |fs|
    ensures Reachable(x, c, PushEach(fs)) && x.s.held == [] && |x.pcs| == |fs|
    ensures forall i :: 0 <= i < |x.pcs| ==> x.pcs[i] == if i < c + 2 then Done else Waiting(Push(fs[i]))
    ensures x.s.out == fs[..c] + [fs[c + 1], fs[c]]
  {
    var jobs := PushEach(fs);
    x := SendSwapped(c, fs);
    x := ResumeAndStop(x, c, c, jobs);
    x := ResumeAndStop(x, c + 1, c, jobs);
  }

  // ---------- exactly when nothing goes wrong ----------

  /** Every run over at most `n` pushes of distinct numbers, and any timeouts, is safe in every state. */
  ghost predicate AlwaysSafe(capacity: nat, n: nat) {
    forall jobs, x ::
      |PushedFrames(jobs)| <= n && DistinctNumbers(jobs) && Reachable(x, capacity, jobs) ==> Safe(x)
  }

  /** No panic and no frame delivered twice, whatever the interleaving, exactly for as many pushes as places. */
  lemma AlwaysSafeIff(capacity: nat, n: nat)
    requires 0 < capacity && capacity + 3 < MAX_U32
    ensures AlwaysSafe(capacity, n) <==> n <= capacity
  {
    if n <= capacity {
      forall jobs, x | |PushedFrames(jobs)| <= n && DistinctNumbers(jobs) && Reachable(x, capacity, jobs)
        ensures Safe(x)
      {
        FewPushesAreSafe(x, capacity, jobs);
      }
    } else {
      var jobs, x := CanCrash(capacity);
      assert !Safe(x);
    }
  }
}
