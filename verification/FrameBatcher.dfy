/** The client's batcher: adders and one loop that share a queue, a signal and a timer. */
module FrameBatcher {
  import opened FtpFrames
  import opened Sequences

  /**
    `adding` counts the adders that have appended a frame but not yet signalled; `flushing` holds
    while the loop is between taking the timer's tick and taking the queue. `taken` records all batches
    handed to senders.
   */
  datatype State = State(q: seq<Frame>, sig: bool, timer: bool, flushing: bool, adding: nat, taken: seq<seq<Frame>>)

  const INITIAL := State([], false, false, false, 0, [])

  /** The atomic steps: two of an adder, three of the loop. */
  datatype Step = Append(f: Frame) | Signal | TakeSignal | TakeTick | Flush

  predicate Enabled(s: State, step: Step) {
    match step
    case Append(_) => true
    case Signal => s.adding > 0
    case TakeSignal => !s.flushing && s.sig
    case TakeTick => !s.flushing && s.timer
    case Flush => s.flushing
  }

  function Next(s: State, step: Step): State
    requires Enabled(s, step)
  {
    match step
    case Append(f) => s.(q := s.q + [f], adding := s.adding + 1)
    case Signal => s.(sig := true, adding := s.adding - 1)
    case TakeSignal => s.(sig := false, timer := true)
    case TakeTick => s.(timer := false, flushing := true)
    case Flush =>
      if s.q == [] then s.(flushing := false)
      else s.(flushing := false, q := [], taken := s.taken + [s.q])
  }

  /** The shared state, changed by one atomic step at a time. */
  class Batcher {
    var q: seq<Frame>
    var sig: bool
    var timer: bool
    ghost var flushing: bool
    ghost var adding: nat
    var taken: seq<seq<Frame>>

    ghost function View(): State
      reads this
    {
      State(q, sig, timer, flushing, adding, taken)
    }

    constructor ()
      ensures View() == INITIAL
    {
      q, sig, timer, flushing, adding, taken := [], false, false, false, 0, [];
    }

    /** The part of an add that holds the lock. */
    method AddAppend(f: Frame)
      modifies this
      ensures View() == Next(old(View()), Append(f)) && q == old(q) + [f]
    {
      q := q + [f];
      adding := adding + 1;
    }

    /** The rest of it: a signal that is already there is enough. */
    method AddSignal()
      requires adding > 0
      modifies this
      ensures View() == Next(old(View()), Signal)
    {
      if !sig {
        sig := true;
      }
      adding := adding - 1;
    }

    method LoopTakesSignal()
      requires Enabled(View(), TakeSignal)
      modifies this
      ensures View() == Next(old(View()), TakeSignal)
    {
      sig := false;
      if !timer {
        timer := true;
      }
    }

    method LoopTakesTick()
      requires Enabled(View(), TakeTick)
      modifies this
      ensures View() == Next(old(View()), TakeTick)
    {
      timer := false;
      flushing := true;
    }

    method FlushQueue()
      requires Enabled(View(), Flush)
      modifies this
      ensures View() == Next(old(View()), Flush)
      ensures q == [] && taken == old(taken) + if old(q) == [] then [] else [old(q)]
    {
      flushing := false;
      if |q| == 0 {
        return;
      }
      var frames := q;
      q := [];
      taken := taken + [frames];
    }
  }

  predicate AllEnabled(s: State, steps: seq<Step>)
    decreases steps
  {
    steps == [] || (Enabled(s, steps[0]) && AllEnabled(Next(s, steps[0]), steps[1..]))
  }

  function Run(s: State, steps: seq<Step>): State
    requires AllEnabled(s, steps)
    decreases steps
  {
    if steps == [] then s else Run(Next(s, steps[0]), steps[1..])
  }

  /** The frames that the steps add, in order. */
  function AddedIn(steps: seq<Step>): seq<Frame>
    decreases steps
  {
    if steps == [] then [] else (if steps[0].Append? then [steps[0].f] else []) + AddedIn(steps[1..])
  }

  /** Frames in the queue have something that will wake the loop, and of the frames `added` none is lost or copied. */
  ghost predicate Good(s: State, added: seq<Frame>) {
    && (s.q != [] ==> s.sig || s.timer || s.flushing || s.adding > 0)
    && added == Flatten(s.taken) + s.q
    && forall i :: 0 <= i < |s.taken| ==> s.taken[i] != []
  }

  lemma NextIsGood(s: State, added: seq<Frame>, step: Step)
    requires Good(s, added) && Enabled(s, step)
    ensures Good(Next(s, step), added + if step.Append? then [step.f] else [])
  {
    assert added + [] == added;
    match step
    case Append(f) => assert Flatten(s.taken) + (s.q + [f]) == (Flatten(s.taken) + s.q) + [f];
    case Flush =>
      FlattenAppend(s.taken, s.q);
      assert Flatten(s.taken + [s.q]) + [] == Flatten(s.taken + [s.q]);
    case _ =>
  }

  lemma {:induction false} RunIsGood(s: State, added: seq<Frame>, steps: seq<Step>)
    requires Good(s, added) && AllEnabled(s, steps)
    ensures Good(Run(s, steps), added + AddedIn(steps))
    decreases steps
  {
    if steps == [] {
      assert added + [] == added;
    } else {
      var first := if steps[0].Append? then [steps[0].f] else [];
      NextIsGood(s, added, steps[0]);
      RunIsGood(Next(s, steps[0]), added + first, steps[1..]);
      ConcatIsAssociative(added, first, AddedIn(steps[1..]));
    }
  }

  /**
    In every reachable state a frame that waits has a wake-up on its way, and the batches and then the
    queue hold the frames passed to add, each once, in order.
   */
  lemma NoLostWakeUp(steps: seq<Step>)
    requires AllEnabled(INITIAL, steps)
    ensures var s := Run(INITIAL, steps);
            && (s.q != [] ==> s.sig || s.timer || s.flushing || s.adding > 0)
            && Flatten(s.taken) + s.q == AddedIn(steps)
  {
    RunIsGood(INITIAL, [], steps);
    assert [] + AddedIn(steps) == AddedIn(steps);
  }

  /** If `q` waits at first: for each flush the frames added since the one before, unless there are none. */
  function BatchesOf(q: seq<Frame>, steps: seq<Step>): seq<seq<Frame>>
    decreases steps
  {
    if steps == [] then []
    else
      match steps[0]
      case Append(f) => BatchesOf(q + [f], steps[1..])
      case Flush => (if q == [] then [] else [q]) + BatchesOf([], steps[1..])
      case _ => BatchesOf(q, steps[1..])
  }

  /** The batches handed to senders: one for each flush that finds a frame, with all frames added since the last. */
  lemma {:induction false} BatchesAreOfFlushes(s: State, steps: seq<Step>)
    requires AllEnabled(s, steps)
    ensures Run(s, steps).taken == s.taken + BatchesOf(s.q, steps)
    decreases steps
  {
    if steps == [] {
      assert s.taken + [] == s.taken;
    } else {
      BatchesAreOfFlushes(Next(s, steps[0]), steps[1..]);
      if steps[0].Flush? {
        ConcatIsAssociative(s.taken, if s.q == [] then [] else [s.q], BatchesOf([], steps[1..]));
        assert s.taken + [] == s.taken;
      }
    }
  }

  predicate LoopOnly(steps: seq<Step>) {
    forall i :: 0 <= i < |steps| ==> steps[i] in {TakeSignal, TakeTick, Flush}
  }

  /** How many steps the loop can take at most if nobody adds. */
  function Rank(s: State): nat {
    (if s.sig then 3 else 0) + (if s.timer then 2 else 0) + (if s.flushing then 1 else 0)
  }

  /** Left to itself the loop stops within six steps, whichever it takes first. */
  lemma {:induction false} LoopStops(s: State, steps: seq<Step>)
    requires LoopOnly(steps) && AllEnabled(s, steps)
    ensures |steps| <= Rank(s) <= 6
    decreases steps
  {
    if steps != [] {
      LoopStops(Next(s, steps[0]), steps[1..]);
    }
  }

  predicate Stuck(s: State) {
    !Enabled(s, TakeSignal) && !Enabled(s, TakeTick) && !Enabled(s, Flush)
  }

  lemma {:induction false} LoopAddsNothing(s: State, steps: seq<Step>)
    requires LoopOnly(steps) && AllEnabled(s, steps)
    ensures AddedIn(steps) == [] && Run(s, steps).adding == s.adding
    decreases steps
  {
    if steps != [] {
      LoopAddsNothing(Next(s, steps[0]), steps[1..]);
    }
  }

  /** And where it stops, with no adder under way, every frame passed to add has been handed to a sender. */
  lemma StoppedLoopHasSentAll(before: seq<Step>, steps: seq<Step>)
    requires AllEnabled(INITIAL, before)
    requires LoopOnly(steps) && AllEnabled(Run(INITIAL, before), steps)
    requires Run(INITIAL, before).adding == 0 && Stuck(Run(Run(INITIAL, before), steps))
    ensures var t := Run(Run(INITIAL, before), steps);
            t.q == [] && Flatten(t.taken) == AddedIn(before)
  {
    var s := Run(INITIAL, before);
    RunIsGood(INITIAL, [], before);
    assert [] + AddedIn(before) == AddedIn(before);
    RunIsGood(s, AddedIn(before), steps);
    LoopAddsNothing(s, steps);
    var t := Run(s, steps);
    assert Flatten(t.taken) + [] == Flatten(t.taken) && AddedIn(before) + [] == AddedIn(before);
  }
}
