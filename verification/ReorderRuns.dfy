/** What every run of the reorder buffer keeps. */
module ReorderRuns {
  import opened Bytes
  import opened FtpFrames
  import opened ReorderBuffer

  datatype Event = Arrive(f: Frame, stopped: bool) | Timeout

  ghost predicate Step(s: State, e: Event, t: State) {
    match e
    case Arrive(f, stopped) => Pushes(s, f, stopped, t)
    case Timeout => t == TimeoutFlush(s)
  }

  ghost predicate StepAt(states: seq<State>, events: seq<Event>, i: nat)
    requires i < |events| < |states|
  {
    Step(states[i], events[i], states[i + 1])
  }

  ghost predicate IsRun(states: seq<State>, events: seq<Event>) {
    && |states| == |events| + 1
    && states[0] == INITIAL
    && forall i :: 0 <= i < |events| ==> StepAt(states, events, i)
  }

  /** Delivered frames come in order and are behind `next`; held frames are in order and ahead of it. */
  ghost predicate InOrder(s: State) {
    && StrictlyIncreasing(s.out) && (forall i :: 0 <= i < |s.out| ==> s.out[i].seqNo < s.next)
    && StrictlyIncreasing(s.held) && (forall i :: 0 <= i < |s.held| ==> s.next < s.held[i].seqNo < MAX_U32)
  }

  /** Held frames do not wait for ever: a flush is pending. */
  ghost predicate WillFlush(s: State) {
    (s.held != [] ==> s.timer) && (s.timer ==> s.pending > 0)
  }

  predicate Stale(s: State, f: Frame) {
    f.seqNo < s.next
  }

  predicate HeldAlready(s: State, f: Frame) {
    exists i :: 0 <= i < |s.held| && s.held[i].seqNo == f.seqNo
  }

  /** Before a flush: as InOrder, but the first held frame may be the next one. */
  ghost predicate ReadyToFlush(s: State) {
    && StrictlyIncreasing(s.out) && (forall i :: 0 <= i < |s.out| ==> s.out[i].seqNo < s.next)
    && StrictlyIncreasing(s.held) && (forall i :: 0 <= i < |s.held| ==> s.next <= s.held[i].seqNo < MAX_U32)
  }

  lemma DeliverFirst(s: State)
    requires ReadyToFlush(s) && s.held != []
    ensures var t := Deliver(s, s.held[0]).(held := s.held[1..]);
            ReadyToFlush(t) && t.out + t.held == s.out + s.held && s.next < t.next
  {
  }

  lemma {:induction false} FlushContiguousInOrder(s: State)
    requires ReadyToFlush(s)
    ensures var t := FlushContiguous(s);
            && InOrder(t) && s.next <= t.next
            && t.out + t.held == s.out + s.held
            && t.timer == s.timer && t.pending == s.pending && |t.held| <= |s.held|
    decreases |s.held|
  {
    if s.held != [] && s.held[0].seqNo == s.next {
      DeliverFirst(s);
      FlushContiguousInOrder(Deliver(s, s.held[0]).(held := s.held[1..]));
    }
  }

  lemma {:induction false} FlushAllInOrder(s: State)
    requires ReadyToFlush(s)
    ensures var t := FlushAll(s);
            && InOrder(t) && s.next <= t.next
            && t.held == [] && t.out == s.out + s.held
            && t.timer == s.timer && t.pending == s.pending
    decreases |s.held|
  {
    if s.held == [] {
      assert s.out + s.held == s.out;
    } else {
      DeliverFirst(s);
      FlushAllInOrder(Deliver(s, s.held[0]).(held := s.held[1..]));
    }
  }

  /** The frames that arrived in time to be accepted. */
  ghost function Accepted(states: seq<State>, events: seq<Event>): seq<Frame>
    requires |events| < |states|
  {
    if events == [] then [] else
      var n := |events| - 1;
      var before := Accepted(states, events[..n]);
      match events[n]
      case Arrive(f, _) => if Stale(states[n], f) then before else before + [f]
      case Timeout => before
  }

  lemma {:induction false} FlushContiguousKeepsFrames(s: State)
    ensures FlushContiguous(s).out + FlushContiguous(s).held == s.out + s.held
    decreases |s.held|
  {
    if s.held != [] && s.held[0].seqNo == s.next {
      FlushContiguousKeepsFrames(Deliver(s, s.held[0]).(held := s.held[1..]));
    }
  }

  lemma {:induction false} FlushAllKeepsFrames(s: State)
    ensures FlushAll(s).out == s.out + s.held && FlushAll(s).held == []
    decreases |s.held|
  {
    if s.held == [] {
      assert s.out + s.held == s.out;
    } else {
      FlushAllKeepsFrames(Deliver(s, s.held[0]).(held := s.held[1..]));
    }
  }

  ghost function Frames(s: State): multiset<Frame> {
    multiset(s.out) + multiset(s.held)
  }

  lemma StepKeepsFrames(s: State, e: Event, t: State)
    requires Step(s, e, t)
    ensures Frames(t) == Frames(s) + if e.Arrive? && !Stale(s, e.f) then multiset{e.f} else multiset{}
  {
    match e
    case Arrive(f, stopped) =>
      if f.seqNo == s.next {
        var d := Deliver(s, f);
        FlushContiguousKeepsFrames(d);
        var c := FlushContiguous(d);
        assert multiset(c.out + c.held) == multiset(c.out) + multiset(c.held);
        assert multiset(d.out + d.held) == multiset(s.out) + multiset{f} + multiset(s.held);
      } else if f.seqNo > s.next {
        assert multiset(s.held + [f]) == multiset(s.held) + multiset{f};
      }
    case Timeout =>
      FlushAllKeepsFrames(s.(timer := false, pending := if s.pending > 0 then s.pending - 1 else 0));
  }

  lemma RunStepKeepsFrames(states: seq<State>, events: seq<Event>, n: nat)
    requires IsRun(states, events) && n < |events|
    ensures var (s, e, t) := (states[n], events[n], states[n + 1]);
            Frames(t) == Frames(s) + if e.Arrive? && !Stale(s, e.f) then multiset{e.f} else multiset{}
  {
    assert StepAt(states, events, n);
    StepKeepsFrames(states[n], events[n], states[n + 1]);
  }

  /** Nothing is lost or copied: what was accepted is what was delivered and what is held. */
  lemma {:induction false} AcceptedIsDeliveredOrHeld(states: seq<State>, events: seq<Event>, n: nat)
    requires IsRun(states, events) && n <= |events|
    ensures Frames(states[n]) == multiset(Accepted(states, events[..n]))
  {
    if n > 0 {
      AcceptedIsDeliveredOrHeld(states, events, n - 1);
      RunStepKeepsFrames(states, events, n - 1);
      assert events[..n][..n - 1] == events[..n - 1];
    }
  }

  /** An arrival that the buffer cannot put in order: its number is held already, or is the last of all. */
  predicate Faulty(s: State, f: Frame) {
    !Stale(s, f) && (HeldAlready(s, f) || f.seqNo == MAX_U32)
  }

  /** No two frames with the same number. */
  ghost predicate UniqueSeqs(m: multiset<Frame>) {
    (forall f :: m[f] <= 1) && (forall f, g :: f in m && g in m && f.seqNo == g.seqNo ==> f == g)
  }

  lemma HeldTwiceIsNotUnique(held: seq<Frame>, i: int, f: Frame)
    requires 0 <= i < |held| && held[i].seqNo == f.seqNo
    ensures !UniqueSeqs(multiset(held + [f]))
  {
    var m := multiset(held + [f]);
    assert m == multiset(held) + multiset{f} && held[i] in multiset(held);
    assert f in m && held[i] in m && (f == held[i] ==> m[f] >= 2);
  }

  lemma {:induction false} IncreasingOccursOnce(fs: seq<Frame>, f: Frame)
    requires StrictlyIncreasing(fs)
    ensures multiset(fs)[f] <= 1
    decreases |fs|
  {
    if fs != [] {
      var n := |fs| - 1;
      IncreasingOccursOnce(fs[..n], f);
      assert fs == fs[..n] + [fs[n]];
      assert fs[n] == f ==> f !in fs[..n];
    }
  }

  lemma IncreasingIsUnique(fs: seq<Frame>)
    requires StrictlyIncreasing(fs)
    ensures UniqueSeqs(multiset(fs))
  {
    forall f ensures multiset(fs)[f] <= 1 {
      IncreasingOccursOnce(fs, f);
    }
    forall f, g | f in multiset(fs) && g in multiset(fs) && f.seqNo == g.seqNo ensures f == g {
      assert f in fs && g in fs;
    }
  }

  lemma FaultySpoilsOrder(s: State, f: Frame, stopped: bool, t: State)
    requires InOrder(s) && Pushes(s, f, stopped, t) && Faulty(s, f)
    ensures !InOrder(t) || t.next < s.next
  {
    if HeldAlready(s, f) {
      var i :| 0 <= i < |s.held| && s.held[i].seqNo == f.seqNo;
      HeldTwiceIsNotUnique(s.held, i, f);
      if StrictlyIncreasing(t.held) {
        IncreasingIsUnique(t.held);
      }
    } else if f.seqNo > s.next {
      assert f in multiset(t.held);
      assert f in t.held;
    } else {
      assert s.held == [];
    }
  }

  lemma AddedIsUnique(held: seq<Frame>, f: Frame)
    requires StrictlyIncreasing(held) && forall i :: 0 <= i < |held| ==> held[i].seqNo != f.seqNo
    ensures UniqueSeqs(multiset(held + [f]))
  {
    var m := multiset(held + [f]);
    assert m == multiset(held) + multiset{f};
    IncreasingIsUnique(held);
    assert f !in held;
    assert forall g :: g in m ==> g == f || g in held;
  }

  lemma PairOccurs(h: seq<Frame>, i: nat, j: nat)
    requires i < j < |h|
    ensures h[i] in multiset(h) && h[j] in multiset(h)
    ensures h[i] == h[j] ==> multiset(h)[h[i]] >= 2
  {
    assert h == h[..j] + [h[j]] + h[j + 1..];
    assert multiset(h) == multiset(h[..j]) + multiset{h[j]} + multiset(h[j + 1..]);
    assert h[..j][i] in multiset(h[..j]);
  }

  lemma UniqueSortedIsIncreasing(h: seq<Frame>)
    requires SortedBySeq(h) && UniqueSeqs(multiset(h))
    ensures StrictlyIncreasing(h)
  {
    forall i, j | 0 <= i < j < |h| ensures h[i].seqNo < h[j].seqNo {
      PairOccurs(h, i, j);
    }
  }

  lemma HoldingKeepsOrder(s: State, f: Frame, h: seq<Frame>)
    requires InOrder(s) && s.next < f.seqNo && !Faulty(s, f)
    requires SortedBySeq(h) && multiset(h) == multiset(s.held + [f])
    ensures StrictlyIncreasing(h) && forall i :: 0 <= i < |h| ==> s.next < h[i].seqNo < MAX_U32
  {
    AddedIsUnique(s.held, f);
    UniqueSortedIsIncreasing(h);
    forall i | 0 <= i < |h| ensures s.next < h[i].seqNo < MAX_U32 {
      assert h[i] in multiset(h);
      assert h[i] in s.held + [f];
    }
  }

  lemma GoodArrivalKeepsOrder(s: State, f: Frame, stopped: bool, t: State)
    requires InOrder(s) && Pushes(s, f, stopped, t) && !Faulty(s, f)
    ensures InOrder(t) && s.next <= t.next
  {
    if f.seqNo == s.next {
      var d := Deliver(s, f);
      assert ReadyToFlush(d) by {
        assert forall i :: 0 <= i < |s.held| ==> s.next < s.held[i].seqNo;
      }
      FlushContiguousInOrder(d);
    } else if f.seqNo > s.next {
      HoldingKeepsOrder(s, f, t.held);
    }
  }

  /** One arrival keeps the order, and never moves `next` back, exactly when it is not faulty. */
  lemma ArrivalKeepsOrderIff(s: State, f: Frame, stopped: bool, t: State)
    requires InOrder(s) && Pushes(s, f, stopped, t)
    ensures InOrder(t) && s.next <= t.next <==> !Faulty(s, f)
  {
    if Faulty(s, f) {
      FaultySpoilsOrder(s, f, stopped, t);
    } else {
      GoodArrivalKeepsOrder(s, f, stopped, t);
    }
  }

  lemma {:induction false} FlushContiguousTimer(s: State)
    ensures var t := FlushContiguous(s);
            t.timer == s.timer && t.pending == s.pending && (t.held != [] ==> s.held != [])
    decreases |s.held|
  {
    if s.held != [] && s.held[0].seqNo == s.next {
      FlushContiguousTimer(Deliver(s, s.held[0]).(held := s.held[1..]));
    }
  }

  lemma {:induction false} FlushAllTimer(s: State)
    ensures FlushAll(s).timer == s.timer && FlushAll(s).pending == s.pending && FlushAll(s).held == []
    decreases |s.held|
  {
    if s.held != [] {
      FlushAllTimer(Deliver(s, s.held[0]).(held := s.held[1..]));
    }
  }

  /** In every run at all, held frames wait only while a flush is pending. */
  lemma {:induction false} HeldFramesWillBeFlushed(states: seq<State>, events: seq<Event>, i: nat)
    requires IsRun(states, events) && i < |states|
    ensures WillFlush(states[i])
  {
    if i > 0 {
      var s := states[i - 1];
      HeldFramesWillBeFlushed(states, events, i - 1);
      assert StepAt(states, events, i - 1);
      match events[i - 1]
      case Arrive(f, _) => FlushContiguousTimer(Deliver(s, f));
      case Timeout => FlushAllTimer(s.(timer := false, pending := if s.pending > 0 then s.pending - 1 else 0));
    }
  }

  /** In every run at all, the timer is set exactly while frames are held. */
  lemma {:induction false} TimerIffHeld(states: seq<State>, events: seq<Event>, i: nat)
    requires IsRun(states, events) && i < |states|
    ensures states[i].timer <==> states[i].held != []
  {
    if i > 0 {
      var s := states[i - 1];
      TimerIffHeld(states, events, i - 1);
      assert StepAt(states, events, i - 1);
      match events[i - 1]
      case Arrive(f, _) =>
        FlushContiguousTimer(Deliver(s, f));
        assert |multiset(s.held + [f])| > 0;
      case Timeout => FlushAllTimer(s.(timer := false, pending := if s.pending > 0 then s.pending - 1 else 0));
    }
  }

  /** Whenever the timer is stopped in the first `n` events, the stop comes in time. */
  predicate StopsInTime(events: seq<Event>, n: nat)
    requires n <= |events|
  {
    forall i :: 0 <= i < n && events[i].Arrive? ==> events[i].stopped
  }

  /** If all stops come in time, exactly one flush is scheduled while the timer is set, and otherwise none. */
  lemma {:induction false} OneFlushPerTimer(states: seq<State>, events: seq<Event>, i: nat)
    requires IsRun(states, events) && i < |states| && StopsInTime(events, i)
    ensures states[i].pending == if states[i].timer then 1 else 0
  {
    if i > 0 {
      var s := states[i - 1];
      OneFlushPerTimer(states, events, i - 1);
      assert StepAt(states, events, i - 1);
      match events[i - 1]
      case Arrive(f, _) => FlushContiguousTimer(Deliver(s, f));
      case Timeout => FlushAllTimer(s.(timer := false, pending := if s.pending > 0 then s.pending - 1 else 0));
    }
  }

  /** None of the first `n` events is a faulty arrival. */
  ghost predicate NoFaults(states: seq<State>, events: seq<Event>, n: nat)
    requires |states| == |events| + 1 && n <= |events|
  {
    forall i :: 0 <= i < n && events[i].Arrive? ==> !Faulty(states[i], events[i].f)
  }

  /** In a run without faulty arrivals every state is in order, and `next` never goes back. */
  lemma {:induction false} RunKeepsOrder(states: seq<State>, events: seq<Event>, n: nat)
    requires IsRun(states, events) && n <= |events| && NoFaults(states, events, n)
    ensures InOrder(states[n]) && (n > 0 ==> states[n - 1].next <= states[n].next)
  {
    if n > 0 {
      var s, t := states[n - 1], states[n];
      RunKeepsOrder(states, events, n - 1);
      assert StepAt(states, events, n - 1);
      match events[n - 1]
      case Arrive(f, stopped) => GoodArrivalKeepsOrder(s, f, stopped, t);
      case Timeout =>
        FlushAllInOrder(s.(timer := false, pending := if s.pending > 0 then s.pending - 1 else 0));
    }
  }

  /** In such a run an accepted frame is delivered once, or held once, and not both. */
  lemma EachFrameOnce(states: seq<State>, events: seq<Event>)
    requires IsRun(states, events) && NoFaults(states, events, |events|)
    ensures var s := states[|events|];
            && UniqueSeqs(Frames(s))
            && Frames(s) == multiset(Accepted(states, events))
            && multiset(s.out) !! multiset(s.held)
  {
    var s := states[|events|];
    RunKeepsOrder(states, events, |events|);
    AcceptedIsDeliveredOrHeld(states, events, |events|);
    assert events[..|events|] == events;
    IncreasingIsUnique(s.out + s.held);
    assert multiset(s.out + s.held) == multiset(s.out) + multiset(s.held);
    forall f | f in multiset(s.out) ensures f !in multiset(s.held) {
      assert Frames(s)[f] == multiset(s.out)[f] + multiset(s.held)[f] <= 1;
    }
  }

  /** One of the first `n` events is the arrival of a frame whose number is held at that time. */
  ghost predicate SomeHeldAlready(states: seq<State>, events: seq<Event>, n: nat)
    requires |states| == |events| + 1 && n <= |events|
  {
    exists i :: 0 <= i < n && events[i].Arrive? && HeldAlready(states[i], events[i].f)
  }

  lemma GrowingStaysNotUnique(m: multiset<Frame>, n: multiset<Frame>)
    requires m <= n && UniqueSeqs(n)
    ensures UniqueSeqs(m)
  {
    assert forall f :: m[f] <= n[f];
  }

  lemma AcceptedTwiceIsNotUnique(s: State, f: Frame, t: State)
    requires HeldAlready(s, f) && Frames(t) == Frames(s) + multiset{f}
    ensures !UniqueSeqs(Frames(t))
  {
    var i :| 0 <= i < |s.held| && s.held[i].seqNo == f.seqNo;
    HeldTwiceIsNotUnique(s.held, i, f);
    assert multiset(s.held + [f]) == multiset(s.held) + multiset{f};
    if UniqueSeqs(Frames(t)) {
      GrowingStaysNotUnique(multiset(s.held + [f]), Frames(t));
    }
  }

  ghost predicate BelowLastNumber(events: seq<Event>) {
    forall e <- events :: e.Arrive? ==> e.f.seqNo < MAX_U32
  }

  /** A run's frames only become more. */
  lemma StaysNotUnique(states: seq<State>, events: seq<Event>, n: nat)
    requires IsRun(states, events) && n < |events| && !UniqueSeqs(Frames(states[n]))
    ensures !UniqueSeqs(Frames(states[n + 1]))
  {
    RunStepKeepsFrames(states, events, n);
    if UniqueSeqs(Frames(states[n + 1])) {
      GrowingStaysNotUnique(Frames(states[n]), Frames(states[n + 1]));
    }
  }

  lemma FirstHeldAlready(states: seq<State>, events: seq<Event>, n: nat)
    requires IsRun(states, events) && n < |events| && InOrder(states[n])
    requires events[n].Arrive? && HeldAlready(states[n], events[n].f)
    ensures !UniqueSeqs(Frames(states[n + 1]))
  {
    RunStepKeepsFrames(states, events, n);
    AcceptedTwiceIsNotUnique(states[n], events[n].f, states[n + 1]);
  }

  lemma {:induction false} HeldAlreadyIsNotUnique(states: seq<State>, events: seq<Event>, n: nat)
    requires IsRun(states, events) && BelowLastNumber(events)
    requires n <= |events| && SomeHeldAlready(states, events, n)
    ensures !UniqueSeqs(Frames(states[n]))
  {
    if SomeHeldAlready(states, events, n - 1) {
      HeldAlreadyIsNotUnique(states, events, n - 1);
      StaysNotUnique(states, events, n - 1);
    } else {
      RunKeepsOrder(states, events, n - 1);
      FirstHeldAlready(states, events, n - 1);
    }
  }

  /** Once all is delivered, the output was in order exactly when no frame came while its number was held. */
  lemma DeliveredInOrderIff(states: seq<State>, events: seq<Event>)
    requires IsRun(states, events) && BelowLastNumber(events) && states[|events|].held == []
    ensures StrictlyIncreasing(states[|events|].out) <==> !SomeHeldAlready(states, events, |events|)
  {
    var s := states[|events|];
    if SomeHeldAlready(states, events, |events|) {
      HeldAlreadyIsNotUnique(states, events, |events|);
      if StrictlyIncreasing(s.out) {
        IncreasingIsUnique(s.out);
      }
    } else {
      RunKeepsOrder(states, events, |events|);
    }
  }
}
