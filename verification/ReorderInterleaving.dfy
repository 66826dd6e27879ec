/** The reorder buffer step by step: its lock is dropped while a frame waits for room in the channel. */
module ReorderInterleaving {
  import opened Bytes
  import opened FtpFrames
  import opened ReorderBuffer
  import R = ReorderRuns
  import opened Wrappers

  datatype Job = Push(f: Frame) | FlushTimeout

  /**
    Where a goroutine is. Looping holds the lock; Blocked and Resuming have dropped it, before and
    after the channel took frame `f`. `all` tells a timeout flush, `fromHeld` a frame still in `held`.
    Blocked goroutines send in any order, for one may have dropped the lock and not reached the channel
    yet. Crashed stands for the panic of dropping the first held frame when there is none.
   */
  datatype Pc =
    | Waiting(job: Job) | Looping(all: bool)
    | Blocked(f: Frame, all: bool, fromHeld: bool) | Resuming(f: Frame, all: bool, fromHeld: bool)
    | Done | Crashed

  /** `consumed` counts the frames of `s.out` that were taken from the channel again. */
  datatype Fine = Fine(s: State, capacity: nat, consumed: nat, holder: Option<nat>, pcs: seq<Pc>)

  /** What happens next; `h` is the order in which the library sort leaves the held frames. */
  datatype Choice = Act(i: nat, stopped: bool, h: seq<Frame>) | Consume

  function Initial(capacity: nat, jobs: seq<Job>): Fine {
    Fine(INITIAL, capacity, 0, None, seq(|jobs|, i requires 0 <= i < |jobs| => Waiting(jobs[i])))
  }

  predicate Full(x: Fine) {
    |x.s.out| >= x.capacity + x.consumed
  }

  /** Whether the loop of goroutine `i` has another frame to deliver. */
  predicate GoesOn(s: State, all: bool) {
    s.held != [] && (all || s.held[0].seqNo == s.next)
  }

  predicate Enabled(x: Fine, c: Choice) {
    match c
    case Consume => x.consumed < |x.s.out|
    case Act(i, _, h) =>
      i < |x.pcs| &&
      match x.pcs[i]
      case Waiting(Push(f)) =>
        x.holder == None &&
        (f.seqNo > x.s.next ==> SortedBySeq(h) && multiset(h) == multiset(x.s.held + [f]))
      case Waiting(FlushTimeout) => x.holder == None
      case Looping(_) => x.holder == Some(i)
      case Blocked(_, _, _) => !Full(x)
      case Resuming(_, _, _) => x.holder == None
      case Done => false
      case Crashed => false
  }

  /** Delivers `f` if there is room, and goes on with the loop; or else drops the lock. */
  function HandOver(x: Fine, i: nat, f: Frame, all: bool, fromHeld: bool): Fine
    requires i < |x.pcs| && (fromHeld ==> x.s.held != [])
  {
    if Full(x) then
      x.(s := x.s.(next := ToU32(f.seqNo + 1)), holder := None, pcs := x.pcs[i := Blocked(f, all, fromHeld)])
    else
      var s := Deliver(x.s, f);
      x.(s := if fromHeld then s.(held := s.held[1..]) else s, holder := Some(i), pcs := x.pcs[i := Looping(all)])
  }

  function Next(x: Fine, c: Choice): Fine
    requires Enabled(x, c)
  {
    match c
    case Consume => x.(consumed := x.consumed + 1)
    case Act(i, stopped, h) =>
      match x.pcs[i]
      case Waiting(Push(f)) =>
        if f.seqNo < x.s.next then x.(pcs := x.pcs[i := Done])
        else if f.seqNo == x.s.next then HandOver(x, i, f, false, false)
        else
          x.(s := x.s.(held := h, timer := true, pending := if x.s.timer then x.s.pending else x.s.pending + 1),
             pcs := x.pcs[i := Done])
      case Waiting(FlushTimeout) =>
        x.(s := x.s.(timer := false, pending := if x.s.pending > 0 then x.s.pending - 1 else 0),
           holder := Some(i), pcs := x.pcs[i := Looping(true)])
      case Looping(all) =>
        if GoesOn(x.s, all) then HandOver(x, i, x.s.held[0], all, true)
        else x.(s := if all then x.s else StopIfEmpty(x.s, stopped), holder := None, pcs := x.pcs[i := Done])
      case Blocked(f, all, fromHeld) =>
        x.(s := x.s.(out := x.s.out + [f]), pcs := x.pcs[i := Resuming(f, all, fromHeld)])
      case Resuming(_, all, fromHeld) =>
        if fromHeld && x.s.held == [] then x.(pcs := x.pcs[i := Crashed])
        else
          x.(s := if fromHeld then x.s.(held := x.s.held[1..]) else x.s,
             holder := Some(i), pcs := x.pcs[i := Looping(all)])
  }

  ghost predicate FineStep(xs: seq<Fine>, cs: seq<Choice>, k: nat)
    requires k < |cs| < |xs|
  {
    Enabled(xs[k], cs[k]) && xs[k + 1] == Next(xs[k], cs[k])
  }

  ghost predicate IsFineRun(xs: seq<Fine>, cs: seq<Choice>, capacity: nat, jobs: seq<Job>) {
    && |xs| == |cs| + 1
    && xs[0] == Initial(capacity, jobs)
    && forall k :: 0 <= k < |cs| ==> FineStep(xs, cs, k)
  }

  /** State `x` comes up in some run. */
  ghost predicate Reachable(x: Fine, capacity: nat, jobs: seq<Job>) {
    exists xs, cs :: IsFineRun(xs, cs, capacity, jobs) && xs[|cs|] == x
  }

  lemma InitialIsReachable(capacity: nat, jobs: seq<Job>)
    ensures Reachable(Initial(capacity, jobs), capacity, jobs)
  {
    var xs: seq<Fine>, cs: seq<Choice> := [Initial(capacity, jobs)], [];
    assert IsFineRun(xs, cs, capacity, jobs) && xs[|cs|] == Initial(capacity, jobs);
  }

  lemma ReachStep(x: Fine, c: Choice, y: Fine, capacity: nat, jobs: seq<Job>)
    requires Reachable(x, capacity, jobs) && Enabled(x, c) && y == Next(x, c)
    ensures Reachable(y, capacity, jobs)
  {
    var xs, cs :| IsFineRun(xs, cs, capacity, jobs) && xs[|cs|] == x;
    var xs', cs' := xs + [y], cs + [c];
    forall k | 0 <= k < |cs'| ensures FineStep(xs', cs', k) {
      assert k < |cs| ==> FineStep(xs, cs, k);
    }
    assert IsFineRun(xs', cs', capacity, jobs) && xs'[|cs'|] == y;
  }

  // ---------- sums over the goroutines ----------

  /** What all goroutines come to, if each counts for `f` of its job and its place. */
  ghost function Total<T>(jobs: seq<Job>, pcs: seq<Pc>, f: (Job, Pc) -> multiset<T>): multiset<T>
    requires |jobs| == |pcs|
  {
    if pcs == [] then multiset{}
    else
      var n := |pcs| - 1;
      Total(jobs[..n], pcs[..n], f) + f(jobs[n], pcs[n])
  }

  /** When one goroutine moves, only what it counts for changes. */
  lemma {:induction false} TotalAfter<T>(
      jobs: seq<Job>, pcs: seq<Pc>, i: nat, pc: Pc, f: (Job, Pc) -> multiset<T>)
    requires |jobs| == |pcs| && i < |pcs|
    ensures Total(jobs, pcs[i := pc], f) + f(jobs[i], pcs[i]) == Total(jobs, pcs, f) + f(jobs[i], pc)
    decreases |pcs|
  {
    var n := |pcs| - 1;
    var before, after := Total(jobs[..n], pcs[..n], f), Total(jobs[..n], pcs[i := pc][..n], f);
    assert Total(jobs, pcs, f) == before + f(jobs[n], pcs[n]);
    assert Total(jobs, pcs[i := pc], f) == after + f(jobs[n], pcs[i := pc][n]);
    if i < n {
      TotalAfter(jobs[..n], pcs[..n], i, pc, f);
      assert pcs[i := pc][..n] == pcs[..n][i := pc];
      var rest, x, y := f(jobs[n], pcs[n]), f(jobs[i], pcs[i]), f(jobs[i], pc);
      assert after + x == before + y;
      assert (after + rest) + x == (after + x) + rest;
      assert (before + rest) + y == (before + y) + rest;
    } else {
      assert pcs[i := pc][..n] == pcs[..n];
      assert after == before;
    }
  }

  lemma {:induction false} TotalOfNone<T>(jobs: seq<Job>, pcs: seq<Pc>, f: (Job, Pc) -> multiset<T>)
    requires |jobs| == |pcs| && forall i :: 0 <= i < |pcs| ==> f(jobs[i], pcs[i]) == multiset{}
    ensures Total(jobs, pcs, f) == multiset{}
    decreases |pcs|
  {
    if pcs != [] {
      TotalOfNone(jobs[..|pcs| - 1], pcs[..|pcs| - 1], f);
    }
  }

  // ---------- as long as no goroutine drops the lock ----------

  /** The channel is full for the frame that is to be delivered. */
  predicate DropsLock(x: Fine, c: Choice)
    requires Enabled(x, c)
  {
    c.Act? && Next(x, c).pcs[c.i].Blocked?
  }

  /** None of the first `n` steps drops the lock. */
  ghost predicate KeepsLock(xs: seq<Fine>, cs: seq<Choice>, n: nat)
    requires n <= |cs| < |xs|
  {
    forall k :: 0 <= k < n ==> FineStep(xs, cs, k) && !DropsLock(xs[k], cs[k])
  }

  /** The lock is held by exactly the goroutine that loops, and none has dropped it on the way. */
  ghost predicate LockKept(x: Fine) {
    && (forall i :: 0 <= i < |x.pcs| ==> !x.pcs[i].Blocked? && !x.pcs[i].Resuming? && !x.pcs[i].Crashed?)
    && (forall i :: 0 <= i < |x.pcs| && x.pcs[i].Looping? ==> x.holder == Some(i))
    && (x.holder.Some? ==> x.holder.value < |x.pcs| && x.pcs[x.holder.value].Looping?)
  }

  /** What the goroutine with the lock will make of the state is what one atomic event makes of state `a`. */
  ghost predicate Completes(x: Fine, a: State, e: R.Event)
    requires x.holder.Some? && LockKept(x)
  {
    if x.pcs[x.holder.value].all
    then e == R.Timeout && FlushAll(x.s) == TimeoutFlush(a)
    else e.Arrive? && e.f.seqNo == a.next && FlushContiguous(x.s) == FlushContiguous(Deliver(a, e.f))
  }

  function JobOf(e: R.Event): Job {
    match e
    case Arrive(f, _) => Push(f)
    case Timeout => FlushTimeout
  }

  ghost predicate Simulates(x: Fine, a: State, e: R.Event, jobs: seq<Job>) {
    && LockKept(x) && |jobs| == |x.pcs|
    && (forall i :: 0 <= i < |jobs| && x.pcs[i].Waiting? ==> x.pcs[i].job == jobs[i])
    && if x.holder == None then x.s == a else Completes(x, a, e) && JobOf(e) == jobs[x.holder.value]
  }

  function OfDone(job: Job, pc: Pc): multiset<Job> {
    if pc == Done then multiset{job} else multiset{}
  }

  /** The jobs that the events stand for. */
  ghost function JobsOf(events: seq<R.Event>): multiset<Job> {
    if events == [] then multiset{} else JobsOf(events[..|events| - 1]) + multiset{JobOf(events[|events| - 1])}
  }

  /** The step ends a goroutine. */
  predicate Ends(x: Fine, c: Choice)
    requires Enabled(x, c)
  {
    c.Act? && Next(x, c).pcs[c.i] == Done
  }

  /** A step moves at most one goroutine, and none that is done. */
  lemma MovesOne(x: Fine, c: Choice)
    requires Enabled(x, c)
    ensures c.Act? ==> Next(x, c).pcs == x.pcs[c.i := Next(x, c).pcs[c.i]] && x.pcs[c.i] != Done
    ensures c.Consume? ==> Next(x, c).pcs == x.pcs
  {
  }

  lemma StepFinishes(x: Fine, c: Choice, jobs: seq<Job>)
    requires Enabled(x, c) && |jobs| == |x.pcs|
    ensures |Next(x, c).pcs| == |jobs|
    ensures Total(jobs, Next(x, c).pcs, OfDone) ==
            Total(jobs, x.pcs, OfDone) + if Ends(x, c) then multiset{jobs[c.i]} else multiset{}
  {
    MovesOne(x, c);
    if c.Act? {
      var pc := Next(x, c).pcs[c.i];
      TotalAfter(jobs, x.pcs, c.i, pc, OfDone);
      assert OfDone(jobs[c.i], x.pcs[c.i]) == multiset{};
    }
  }

  /** One fine step is nothing to the atomic buffer, or the start of an event, or its end. */
  lemma StepSimulates(x: Fine, c: Choice, a: State, e: R.Event, jobs: seq<Job>) returns (a': State, e': R.Event)
    requires Enabled(x, c) && Simulates(x, a, e, jobs) && !DropsLock(x, c)
    ensures Simulates(Next(x, c), a', e', jobs)
    ensures if Ends(x, c) then R.Step(a, e', a') && JobOf(e') == jobs[c.i] else a' == a
  {
    a', e' := a, e;
    if c.Act? {
      var y := Next(x, c);
      match x.pcs[c.i]
      case Waiting(Push(f)) =>
        a', e' := if f.seqNo != a.next then y.s else a, R.Arrive(f, c.stopped);
      case Waiting(FlushTimeout) => e' := R.Timeout;
      case Looping(all) =>
        if !GoesOn(x.s, all) {
          a', e' := y.s, if all then R.Timeout else R.Arrive(e.f, c.stopped);
        }
      case _ =>
    }
  }

  lemma ExtendRun(states: seq<State>, events: seq<R.Event>, e: R.Event, t: State)
      returns (states': seq<State>, events': seq<R.Event>)
    requires R.IsRun(states, events) && R.Step(states[|events|], e, t)
    ensures R.IsRun(states', events') && |events'| == |events| + 1 && states'[|events'|] == t
    ensures JobsOf(events') == JobsOf(events) + multiset{JobOf(e)}
  {
    states', events' := states + [t], events + [e];
    assert events'[..|events|] == events;
    forall i | 0 <= i < |events'| ensures R.StepAt(states', events', i) {
      assert i < |events| ==> R.StepAt(states, events, i);
    }
  }

  /** An atomic run that accounts for state `x`; `e` is the event under way while the lock is held. */
  ghost predicate Explained(x: Fine, jobs: seq<Job>, states: seq<State>, events: seq<R.Event>, e: R.Event) {
    && R.IsRun(states, events) && Simulates(x, states[|events|], e, jobs)
    && JobsOf(events) == Total(jobs, x.pcs, OfDone)
  }

  lemma StepIsExplained(x: Fine, c: Choice, jobs: seq<Job>, states: seq<State>, events: seq<R.Event>, e: R.Event)
      returns (states': seq<State>, events': seq<R.Event>, e': R.Event)
    requires Explained(x, jobs, states, events, e) && Enabled(x, c) && !DropsLock(x, c)
    ensures Explained(Next(x, c), jobs, states', events', e')
  {
    states', events' := states, events;
    StepFinishes(x, c, jobs);
    var a;
    a, e' := StepSimulates(x, c, states[|events|], e, jobs);
    if Ends(x, c) {
      states', events' := ExtendRun(states, events, e', a);
    }
  }

  /**
    As long as no goroutine drops the lock, their steps amount to a run of atomic pushes and flushes, one
    for each goroutine that is done: whenever the lock is free the buffer is in the last state of that run.
   */
  lemma {:induction false} RoomMakesAtomic(
      xs: seq<Fine>, cs: seq<Choice>, capacity: nat, jobs: seq<Job>, n: nat)
      returns (states: seq<State>, events: seq<R.Event>, e: R.Event)
    requires IsFineRun(xs, cs, capacity, jobs) && n <= |cs| && KeepsLock(xs, cs, n)
    ensures Explained(xs[n], jobs, states, events, e)
    ensures xs[n].holder == None ==> xs[n].s == states[|events|]
  {
    if n == 0 {
      states, events, e := [INITIAL], [], R.Timeout;
      TotalOfNone(jobs, xs[0].pcs, OfDone);
    } else {
      states, events, e := RoomMakesAtomic(xs, cs, capacity, jobs, n - 1);
      assert FineStep(xs, cs, n - 1);
      states, events, e := StepIsExplained(xs[n - 1], cs[n - 1], jobs, states, events, e);
    }
  }
}
