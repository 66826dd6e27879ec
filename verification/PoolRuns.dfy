/** The pool of sessions as values, and what every interleaving of its critical sections keeps. */
module PoolRuns {
  import opened Sequences

  const MAX_SESSIONS := 2

  /**
    `sessions` is the pool; `live` are all started sessions that are not closed; `owned` are those
    that some pickSession has started but not yet put into the pool.
   */
  datatype Pool<S> = Pool(sessions: seq<S>, live: set<S>, owned: set<S>)

  function Filter<S(==)>(ss: seq<S>, keep: set<S>): seq<S> {
    if ss == [] then []
    else Filter(ss[..|ss| - 1], keep) + if ss[|ss| - 1] in keep then [ss[|ss| - 1]] else []
  }

  /** What shrinking keeps: the live sessions that are first or pinned. */
  function Kept<S(==)>(ss: seq<S>, live: set<S>, pinned: set<S>): seq<S> {
    if ss == [] then []
    else
      var s := ss[|ss| - 1];
      Kept(ss[..|ss| - 1], live, pinned) + if s in live && (|ss| == 1 || s in pinned) then [s] else []
  }

  /** What shrinking drops, and closes unless it is closed already. */
  function Dropped<S(==)>(ss: seq<S>, live: set<S>, pinned: set<S>): set<S> {
    set s | s in ss && s !in Kept(ss, live, pinned)
  }

  // ---------- the atomic steps ----------

  /** startSession has succeeded: the new session belongs to the pickSession that started it. */
  function Started<S>(p: Pool<S>, s: S): Pool<S> {
    p.(live := p.live + {s}, owned := p.owned + {s})
  }

  /** The second critical section of pickSession. */
  function Finished<S(==)>(p: Pool<S>, s: S): Pool<S> {
    if |p.sessions| >= MAX_SESSIONS && (exists e :: e in p.sessions && e in p.live)
    then p.(live := p.live - {s}, owned := p.owned - {s})
    else p.(sessions := p.sessions + [s], owned := p.owned - {s})
  }

  /** A session closes itself, for whatever reason. */
  function Closed<S>(p: Pool<S>, s: S): Pool<S> {
    p.(live := p.live - {s})
  }

  function Shrunk<S(==)>(p: Pool<S>, pinned: set<S>): Pool<S> {
    if |p.sessions| <= 1 then p
    else
      p.(sessions := Kept(p.sessions, p.live, pinned), live := p.live - Dropped(p.sessions, p.live, pinned))
  }

  /** HasLiveSession drops the closed sessions. */
  function Swept<S(==)>(p: Pool<S>): Pool<S> {
    p.(sessions := Filter(p.sessions, p.live))
  }

  datatype Step<S> = Start(s: S) | Finish(s: S) | Close(s: S) | Shrink(pinned: set<S>) | Sweep

  /** `seen` are the sessions started before: a new one is none of them, and only its owner finishes it. */
  predicate Enabled<S(==)>(p: Pool<S>, seen: set<S>, step: Step<S>) {
    match step
    case Start(s) => s !in seen
    case Finish(s) => s in p.owned
    case _ => true
  }

  function Next<S(==)>(p: Pool<S>, step: Step<S>): Pool<S> {
    match step
    case Start(s) => Started(p, s)
    case Finish(s) => Finished(p, s)
    case Close(s) => Closed(p, s)
    case Shrink(pinned) => Shrunk(p, pinned)
    case Sweep => Swept(p)
  }

  function Seen<S>(seen: set<S>, step: Step<S>): set<S> {
    match step
    case Start(s) => seen + {s}
    case _ => seen
  }

  ghost predicate NoDuplicates<S>(ss: seq<S>) {
    forall i, j :: 0 <= i < j < |ss| ==> ss[i] != ss[j]
  }

  ghost predicate Good<S(!new)>(p: Pool<S>, seen: set<S>) {
    && NoDuplicates(p.sessions)
    && (forall s :: s in p.sessions ==> s in seen && s !in p.owned)
    && p.owned <= seen && p.live <= seen
    && |Filter(p.sessions, p.live)| <= MAX_SESSIONS
    && (forall s :: s in p.live ==> s in p.sessions || s in p.owned)
  }

  /** `s` is the first live session of the pool. */
  ghost predicate IsFirstLive<S>(p: Pool<S>, s: S) {
    exists i :: 0 <= i < |p.sessions| && p.sessions[i] == s && s in p.live
                && forall j :: 0 <= j < i ==> p.sessions[j] !in p.live
  }

  // ---------- proofs ----------

  lemma {:induction false} FilterMembers<S>(ss: seq<S>, keep: set<S>)
    ensures |Filter(ss, keep)| <= |ss|
    ensures forall s :: s in Filter(ss, keep) ==> s in ss && s in keep
    ensures forall s :: s in ss && s in keep ==> s in Filter(ss, keep)
    ensures NoDuplicates(ss) ==> NoDuplicates(Filter(ss, keep))
    decreases |ss|
  {
    if ss != [] {
      var init, last := ss[..|ss| - 1], ss[|ss| - 1];
      FilterMembers(init, keep);
      assert ss == init + [last];
    }
  }

  lemma {:induction false} KeptMembers<S>(ss: seq<S>, live: set<S>, pinned: set<S>)
    ensures forall s :: s in Kept(ss, live, pinned) ==> s in ss && s in live
    ensures forall s :: s in ss && s in live && (s == ss[0] || s in pinned) ==> s in Kept(ss, live, pinned)
    ensures NoDuplicates(ss) ==>
      forall s :: s in Kept(ss, live, pinned) ==> s == ss[0] || s in pinned
    ensures NoDuplicates(ss) ==> NoDuplicates(Kept(ss, live, pinned))
    ensures |Kept(ss, live, pinned)| <= |Filter(ss, live)|
    decreases |ss|
  {
    if ss != [] {
      var init, last := ss[..|ss| - 1], ss[|ss| - 1];
      KeptMembers(init, live, pinned);
      assert ss == init + [last];
    }
  }

  lemma TheRest<S>(ss: seq<S>, i: nat)
    requires i < |ss| && NoDuplicates(ss)
    ensures ss[i] in ss && ss[i] in ss[i..] && ss[i] !in ss[i + 1..]
    ensures forall s :: s in ss[i + 1..] ==> s in ss[i..]
  {
    assert ss[i..] == [ss[i]] + ss[i + 1..];
  }

  lemma FilterStep<S>(ss: seq<S>, i: nat, keep: set<S>)
    requires i < |ss|
    ensures Filter(ss[..i + 1], keep) == Filter(ss[..i], keep) + if ss[i] in keep then [ss[i]] else []
  {
    assert ss[..i + 1][..i] == ss[..i];
  }

  lemma KeptStep<S>(ss: seq<S>, i: nat, live: set<S>, pinned: set<S>)
    requires i < |ss|
    ensures Kept(ss[..i + 1], live, pinned) ==
            Kept(ss[..i], live, pinned) + if ss[i] in live && (i == 0 || ss[i] in pinned) then [ss[i]] else []
  {
    assert ss[..i + 1][..i] == ss[..i];
  }

  /** What dealing with one more session does to those kept, and to those seen but not kept. */
  lemma ShrinkOneMore<S>(ss: seq<S>, i: nat, live: set<S>, pinned: set<S>)
    requires i < |ss| && NoDuplicates(ss)
    ensures var s, kept := ss[i], Kept(ss[..i], live, pinned);
            var keep := s in live && (i == 0 || s in pinned);
            && Kept(ss[..i + 1], live, pinned) == (if keep then kept + [s] else kept)
            && s !in Dropped(ss[..i], live, pinned)
            && Dropped(ss[..i + 1], live, pinned) == Dropped(ss[..i], live, pinned) + if keep then {} else {s}
  {
    KeptStep(ss, i, live, pinned);
    KeptMembers(ss[..i], live, pinned);
    assert ss[..i + 1] == ss[..i] + [ss[i]] && ss[i] !in ss[..i];
  }

  /**
    The loop of maybeShrink after `i` turns over the pool `ss`: the slice `slots` starts with what is
    kept, the sessions to come are where they were, and those dropped are no longer alive.
   */
  ghost predicate ShrunkSoFar<S>(ss: seq<S>, i: nat, kept: nat, slots: seq<S>, alive: set<S>, live: set<S>,
                                 pinned: set<S>) {
    && kept <= i <= |ss| <= |slots| && NoDuplicates(ss)
    && slots[..kept] == Kept(ss[..i], live, pinned)
    && alive == live - Dropped(ss[..i], live, pinned)
    && slots[i..|ss|] == ss[i..]
  }

  lemma NextToShrink<S>(ss: seq<S>, i: nat, kept: nat, slots: seq<S>, alive: set<S>, live: set<S>, pinned: set<S>)
    requires i < |ss| && ShrunkSoFar(ss, i, kept, slots, alive, live, pinned)
    ensures slots[i] == ss[i] && (ss[i] in alive <==> ss[i] in live)
  {
    ShrinkOneMore(ss, i, live, pinned);
    assert slots[i] == slots[i..|ss|][0] == ss[i..][0];
  }

  lemma ShrunkFurther<S>(ss: seq<S>, i: nat, kept: nat, slots: seq<S>, alive: set<S>, live: set<S>, pinned: set<S>)
    requires i < |ss| && ShrunkSoFar(ss, i, kept, slots, alive, live, pinned)
    ensures if ss[i] in live && (i == 0 || ss[i] in pinned)
            then ShrunkSoFar(ss, i + 1, kept + 1, slots[kept := ss[i]], alive, live, pinned)
            else ShrunkSoFar(ss, i + 1, kept, slots, alive - {ss[i]}, live, pinned)
  {
    ShrinkOneMore(ss, i, live, pinned);
    assert slots[i + 1..|ss|] == slots[i..|ss|][1..] == ss[i + 1..];
    var moved := slots[kept := ss[i]];
    assert moved[..kept + 1] == slots[..kept] + [ss[i]];
    assert moved[i + 1..|ss|] == slots[i + 1..|ss|];
  }

  lemma {:induction false} FilterShrinks<S(!new)>(ss: seq<S>, keep: set<S>, less: set<S>)
    requires less <= keep
    ensures |Filter(ss, less)| <= |Filter(ss, keep)|
    decreases |ss|
  {
    if ss != [] {
      FilterShrinks(ss[..|ss| - 1], keep, less);
    }
  }

  lemma {:induction false} FilterSame<S(!new)>(ss: seq<S>, keep: set<S>, other: set<S>)
    requires forall s :: s in ss ==> (s in keep <==> s in other)
    ensures Filter(ss, keep) == Filter(ss, other)
    decreases |ss|
  {
    if ss != [] {
      assert ss[|ss| - 1] in ss && forall s :: s in ss[..|ss| - 1] ==> s in ss;
      FilterSame(ss[..|ss| - 1], keep, other);
    }
  }

  lemma AppendedIsGood<S(!new)>(p: Pool<S>, seen: set<S>, s: S)
    requires Good(p, seen) && s in p.owned && |Filter(p.sessions, p.live)| < MAX_SESSIONS
    ensures Good(p.(sessions := p.sessions + [s], owned := p.owned - {s}), seen)
  {
    assert (p.sessions + [s])[..|p.sessions|] == p.sessions;
  }

  lemma FinishedIsGood<S(!new)>(p: Pool<S>, seen: set<S>, s: S)
    requires Good(p, seen) && s in p.owned
    ensures Good(Finished(p, s), seen)
  {
    FilterMembers(p.sessions, p.live);
    if |p.sessions| >= MAX_SESSIONS && exists e :: e in p.sessions && e in p.live {
      FilterShrinks(p.sessions, p.live, p.live - {s});
    } else {
      if Filter(p.sessions, p.live) != [] {
        assert Filter(p.sessions, p.live)[0] in Filter(p.sessions, p.live);
      }
      AppendedIsGood(p, seen, s);
    }
  }

  lemma ShrunkIsGood<S(!new)>(p: Pool<S>, seen: set<S>, pinned: set<S>)
    requires Good(p, seen)
    ensures Good(Shrunk(p, pinned), seen)
  {
    var q := Shrunk(p, pinned);
    KeptMembers(p.sessions, p.live, pinned);
    FilterMembers(q.sessions, q.live);
    FilterShrinks(p.sessions, p.live, q.live);
  }

  lemma SweptIsGood<S(!new)>(p: Pool<S>, seen: set<S>)
    requires Good(p, seen)
    ensures Good(Swept(p), seen)
  {
    FilterMembers(p.sessions, p.live);
    FilterMembers(Swept(p).sessions, p.live);
  }

  lemma NextIsGood<S(!new)>(p: Pool<S>, seen: set<S>, step: Step<S>)
    requires Good(p, seen) && Enabled(p, seen, step)
    ensures Good(Next(p, step), Seen(seen, step))
  {
    match step
    case Start(s) => FilterSame(p.sessions, p.live, p.live + {s});
    case Finish(s) => FinishedIsGood(p, seen, s);
    case Close(s) => FilterShrinks(p.sessions, p.live, p.live - {s});
    case Shrink(pinned) => ShrunkIsGood(p, seen, pinned);
    case Sweep => SweptIsGood(p, seen);
  }

  predicate AllEnabled<S(==)>(p: Pool<S>, seen: set<S>, steps: seq<Step<S>>)
    decreases steps
  {
    steps == [] || (Enabled(p, seen, steps[0]) && AllEnabled(Next(p, steps[0]), Seen(seen, steps[0]), steps[1..]))
  }

  function Run<S(==)>(p: Pool<S>, steps: seq<Step<S>>): Pool<S>
    decreases steps
  {
    if steps == [] then p else Run(Next(p, steps[0]), steps[1..])
  }

  function SeenInAll<S>(seen: set<S>, steps: seq<Step<S>>): set<S>
    decreases steps
  {
    if steps == [] then seen else SeenInAll(Seen(seen, steps[0]), steps[1..])
  }

  lemma {:induction false} RunIsGood<S(!new)>(p: Pool<S>, seen: set<S>, steps: seq<Step<S>>)
    requires Good(p, seen) && AllEnabled(p, seen, steps)
    ensures Good(Run(p, steps), SeenInAll(seen, steps))
    decreases steps
  {
    if steps != [] {
      NextIsGood(p, seen, steps[0]);
      RunIsGood(Next(p, steps[0]), Seen(seen, steps[0]), steps[1..]);
    }
  }

  lemma {:induction false} SizeOfSet<S(!new)>(ss: seq<S>)
    ensures |set s | s in ss| <= |ss|
    decreases |ss|
  {
    if ss != [] {
      var init := ss[..|ss| - 1];
      SizeOfSet(init);
      assert ss == init + [ss[|ss| - 1]];
      assert (set s | s in ss) == (set s | s in init) + {ss[|ss| - 1]};
    }
  }

  /**
    In every interleaving at most two sessions of the pool are live, and a live session is in the
    pool, once, or belongs to a pickSession that has yet to put it there, and not to both.
   */
  lemma PoolIsBounded<S(!new)>(steps: seq<Step<S>>)
    requires AllEnabled(Pool([], {}, {}), {}, steps)
    ensures var p := Run(Pool([], {}, {}), steps);
            && |set s | s in p.sessions && s in p.live| <= MAX_SESSIONS
            && (forall s :: s in p.live ==> s in p.sessions || s in p.owned)
            && (forall s :: s in p.sessions ==> s !in p.owned)
            && NoDuplicates(p.sessions)
  {
    var p: Pool<S> := Pool([], {}, {});
    RunIsGood(p, {}, steps);
    var q := Run(p, steps);
    FilterMembers(q.sessions, q.live);
    SizeOfSet(Filter(q.sessions, q.live));
    assert (set s | s in q.sessions && s in q.live) == set s | s in Filter(q.sessions, q.live);
  }

  /** A session that was started joins the pool exactly when there are fewer than two, or no live one. */
  lemma JoinsIff<S(!new)>(p: Pool<S>, seen: set<S>, s: S)
    requires Good(p, seen) && s in p.owned && s in p.live
    ensures var q := Finished(p, s);
            && (s in q.sessions <==> |p.sessions| < 2 || forall e :: e in p.sessions ==> e !in p.live)
            && (s in q.sessions <==> s in q.live) && s !in q.owned && p.sessions <= q.sessions
  {
    assert (p.sessions + [s])[|p.sessions|] == s;
    assert s !in p.sessions;
  }

  /** A session that is started and joins a pool of fewer than two, before the steps of `rest`. */
  lemma OneJoins<S(!new)>(p: Pool<S>, seen: set<S>, s: S, rest: seq<Step<S>>)
    requires |p.sessions| < 2 && s !in seen && p.owned == {}
    ensures var q := Pool(p.sessions + [s], p.live + {s}, {});
            && (AllEnabled(p, seen, [Start(s), Finish(s)] + rest) <==> AllEnabled(q, seen + {s}, rest))
            && Run(p, [Start(s), Finish(s)] + rest) == Run(q, rest)
  {
    var steps := [Start(s), Finish(s)] + rest;
    assert steps[1..] == [Finish(s)] + rest && steps[1..][1..] == rest;
    assert Next(Next(p, Start(s)), Finish(s)) == Pool(p.sessions + [s], p.live + {s}, {});
  }

  /** Two sessions can be in the pool, both live. */
  lemma TwoCanJoin<S(!new)>(a: S, b: S)
    requires a != b
    ensures var steps := [Start(a), Finish(a), Start(b), Finish(b)];
            && AllEnabled(Pool([], {}, {}), {}, steps)
            && Run(Pool([], {}, {}), steps) == Pool([a, b], {a, b}, {})
  {
    var p: Pool<S> := Pool([], {}, {});
    var one: Pool<S> := Pool([a], {a}, {});
    OneJoins(p, {}, a, [Start(b), Finish(b)]);
    OneJoins(one, {a}, b, []);
    assert [Start(b), Finish(b)] + [] == [Start(b), Finish(b)];
    assert [Start(a), Finish(a)] + [Start(b), Finish(b)] == [Start(a), Finish(a), Start(b), Finish(b)];
    assert p.sessions + [a] == [a] && one.sessions + [b] == [a, b];
    assert p.live + {a} == {a} && {} + {a} == {a} && one.live + {b} == {a, b};
    assert AllEnabled(Pool([a, b], {a, b}, {}), {a} + {b}, []);
  }

  lemma {:induction false} KeptAreInOrder<S(!new)>(ss: seq<S>, live: set<S>, pinned: set<S>)
    ensures IsSubsequence(Kept(ss, live, pinned), ss)
    decreases |ss|
  {
    if ss != [] {
      var init, last := ss[..|ss| - 1], ss[|ss| - 1];
      var kept := Kept(init, live, pinned);
      KeptAreInOrder(init, live, pinned);
      assert ss == init + [last];
      if last in live && (|ss| == 1 || last in pinned) {
        SubsequenceKeep(kept, init, last);
      } else {
        SubsequenceSkip(kept, init, last);
        assert kept + [] == kept;
      }
    }
  }

  lemma {:induction false} FilterIsInOrder<S(!new)>(ss: seq<S>, keep: set<S>)
    ensures IsSubsequence(Filter(ss, keep), ss)
    decreases |ss|
  {
    if ss != [] {
      var init, last := ss[..|ss| - 1], ss[|ss| - 1];
      FilterIsInOrder(init, keep);
      assert ss == init + [last];
      if last in keep {
        SubsequenceKeep(Filter(init, keep), init, last);
      } else {
        SubsequenceSkip(Filter(init, keep), init, last);
        assert Filter(init, keep) + [] == Filter(init, keep);
      }
    }
  }

  /**
    Of more than one session, shrinking keeps in order exactly the live ones that are first or pinned, and
    leaves no other of them live; it does not touch a pool of one, nor sessions that are not in the pool.
   */
  lemma ShrinkKeeps<S(!new)>(p: Pool<S>, pinned: set<S>)
    requires NoDuplicates(p.sessions)
    ensures var q := Shrunk(p, pinned);
            && (|p.sessions| <= 1 ==> q == p)
            && IsSubsequence(q.sessions, p.sessions) && q.owned == p.owned
            && forall s :: if s in p.sessions && |p.sessions| > 1
                           then (s in q.sessions <==> s in p.live && (s == p.sessions[0] || s in pinned))
                                && (s in q.live <==> s in q.sessions)
                           else s in q.live <==> s in p.live
  {
    KeptAreInOrder(p.sessions, p.live, pinned);
    KeptMembers(p.sessions, p.live, pinned);
    if |p.sessions| <= 1 {
      WholeIsSubsequence(p.sessions);
    }
  }

  /** HasLiveSession keeps in order exactly the live sessions, and closes none. */
  lemma SweepKeeps<S(!new)>(p: Pool<S>)
    ensures var q := Swept(p);
            && IsSubsequence(q.sessions, p.sessions) && q.live == p.live && q.owned == p.owned
            && forall s :: s in q.sessions <==> s in p.sessions && s in p.live
  {
    FilterIsInOrder(p.sessions, p.live);
    FilterMembers(p.sessions, p.live);
  }

  /** Shrinking leaves a live session in the pool exactly when the first is live or a live one is pinned. */
  lemma ShrinkLeavesOneIff<S(!new)>(p: Pool<S>, pinned: set<S>)
    requires NoDuplicates(p.sessions) && |p.sessions| > 1
    ensures Shrunk(p, pinned).sessions != [] <==>
            p.sessions[0] in p.live || exists s :: s in p.sessions && s in p.live && s in pinned
    ensures forall s :: s in Shrunk(p, pinned).sessions ==> s in Shrunk(p, pinned).live
  {
    KeptMembers(p.sessions, p.live, pinned);
    var kept := Shrunk(p, pinned).sessions;
    if kept != [] {
      assert kept[0] in kept;
    }
  }
}
