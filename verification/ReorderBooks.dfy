/** The books of the reorder buffer: what has become of every frame accepted, whether or not the lock is dropped. */
module ReorderBooks {
  import opened FtpFrames
  import opened ReorderBuffer
  import opened ReorderInterleaving
  import opened Wrappers

  /** The frame that this step accepts: a push that is not late. */
  function AcceptedBy(x: Fine, c: Choice): multiset<Frame> {
    if c.Act? && c.i < |x.pcs| && x.pcs[c.i].Waiting? && x.pcs[c.i].job.Push? && x.pcs[c.i].job.f.seqNo >= x.s.next
    then multiset{x.pcs[c.i].job.f}
    else multiset{}
  }

  /** The frames accepted in the first `n` steps. */
  ghost function Accepted(xs: seq<Fine>, cs: seq<Choice>, n: nat): multiset<Frame>
    requires n <= |cs| < |xs|
  {
    if n == 0 then multiset{} else Accepted(xs, cs, n - 1) + AcceptedBy(xs[n - 1], cs[n - 1])
  }

  /** Neither in the channel nor held: its goroutine waits to deliver it. */
  function OfWaiting(job: Job, pc: Pc): multiset<Frame> {
    if pc.Blocked? && !pc.fromHeld then multiset{pc.f} else multiset{}
  }

  /** Both in the channel and held: its goroutine has yet to drop it. */
  function OfDoubled(job: Job, pc: Pc): multiset<Frame> {
    if pc.Resuming? && pc.fromHeld then multiset{pc.f} else multiset{}
  }

  /** Each accepted frame is delivered, held, or waited for, once, but for those delivered and still held. */
  ghost predicate Balanced(x: Fine, jobs: seq<Job>, accepted: multiset<Frame>)
    requires |jobs| == |x.pcs|
  {
    multiset(x.s.out) + multiset(x.s.held) + Total(jobs, x.pcs, OfWaiting)
    == accepted + Total(jobs, x.pcs, OfDoubled)
  }

  /** A goroutine that has the lock again drops the very frame that it delivered. */
  predicate DropsItsOwn(x: Fine, c: Choice) {
    c.Act? && c.i < |x.pcs| && x.pcs[c.i].Resuming? && x.pcs[c.i].fromHeld ==>
      x.s.held != [] && x.s.held[0] == x.pcs[c.i].f
  }

  lemma CountAppend(s: seq<Frame>, g: Frame, f: Frame)
    ensures multiset(s + [g])[f] == multiset(s)[f] + if f == g then 1 else 0
  {
    assert multiset(s + [g]) == multiset(s) + multiset{g};
  }

  lemma CountDrop(s: seq<Frame>, f: Frame)
    requires s != []
    ensures multiset(s)[f] == multiset(s[1..])[f] + if f == s[0] then 1 else 0
  {
    assert s == [s[0]] + s[1..];
    assert multiset(s) == multiset{s[0]} + multiset(s[1..]);
  }

  /** What one step adds to the books of frame `f` on one side it adds on the other. */
  ghost predicate EvenFor(x: Fine, c: Choice, job: Job, f: Frame)
    requires Enabled(x, c) && c.Act?
  {
    var y, pc := Next(x, c), x.pcs[c.i];
    var pc' := y.pcs[c.i];
    multiset(y.s.out)[f] + multiset(y.s.held)[f] + OfWaiting(job, pc')[f] + OfDoubled(job, pc)[f]
    == multiset(x.s.out)[f] + multiset(x.s.held)[f] + OfWaiting(job, pc)[f] + AcceptedBy(x, c)[f]
       + OfDoubled(job, pc')[f]
  }

  lemma ResumingIsEvenIff(x: Fine, c: Choice, job: Job, f: Frame)
    requires Enabled(x, c) && c.Act? && x.pcs[c.i].Resuming? && x.pcs[c.i].fromHeld
    ensures DropsItsOwn(x, c) ==> EvenFor(x, c, job, f)
    ensures !DropsItsOwn(x, c) ==> !EvenFor(x, c, job, x.pcs[c.i].f)
  {
    if x.s.held != [] {
      CountDrop(x.s.held, f);
      CountDrop(x.s.held, x.pcs[c.i].f);
    }
  }

  lemma PushIsEven(x: Fine, c: Choice, job: Job, f: Frame)
    requires Enabled(x, c) && c.Act? && x.pcs[c.i].Waiting? && x.pcs[c.i].job.Push?
    ensures EvenFor(x, c, job, f)
  {
    var g, y := x.pcs[c.i].job.f, Next(x, c);
    if g.seqNo < x.s.next {
      assert y.s.out == x.s.out && y.s.held == x.s.held;
    } else if g.seqNo == x.s.next {
      assert y.s.held == x.s.held && y.s.out == if Full(x) then x.s.out else x.s.out + [g];
      CountAppend(x.s.out, g, f);
    } else {
      assert y.s.out == x.s.out && y.s.held == c.h;
      assert multiset(c.h)[f] == multiset(x.s.held + [g])[f];
      CountAppend(x.s.held, g, f);
    }
  }

  lemma LoopGoesOnEvenly(x: Fine, c: Choice, job: Job, f: Frame)
    requires Enabled(x, c) && c.Act? && x.pcs[c.i].Looping? && GoesOn(x.s, x.pcs[c.i].all)
    ensures EvenFor(x, c, job, f)
  {
    var y := Next(x, c);
    if Full(x) {
      assert y.s.out == x.s.out && y.s.held == x.s.held && y.pcs[c.i].Blocked? && y.pcs[c.i].fromHeld;
    } else {
      assert y.s.out == x.s.out + [x.s.held[0]] && y.s.held == x.s.held[1..] && y.pcs[c.i].Looping?;
      CountDrop(x.s.held, f);
      CountAppend(x.s.out, x.s.held[0], f);
    }
  }

  lemma LoopIsEven(x: Fine, c: Choice, job: Job, f: Frame)
    requires Enabled(x, c) && c.Act? && x.pcs[c.i].Looping?
    ensures EvenFor(x, c, job, f)
  {
    if GoesOn(x.s, x.pcs[c.i].all) {
      LoopGoesOnEvenly(x, c, job, f);
    } else {
      assert Next(x, c).s.out == x.s.out && Next(x, c).s.held == x.s.held;
    }
  }

  lemma BlockedIsEven(x: Fine, c: Choice, job: Job, f: Frame)
    requires Enabled(x, c) && c.Act? && x.pcs[c.i].Blocked?
    ensures EvenFor(x, c, job, f)
  {
    CountAppend(x.s.out, x.pcs[c.i].f, f);
  }

  lemma OthersAreEven(x: Fine, c: Choice, job: Job, f: Frame)
    requires Enabled(x, c) && c.Act? && !(x.pcs[c.i].Resuming? && x.pcs[c.i].fromHeld)
    ensures EvenFor(x, c, job, f)
  {
    match x.pcs[c.i]
    case Waiting(Push(_)) => PushIsEven(x, c, job, f);
    case Looping(_) => LoopIsEven(x, c, job, f);
    case Blocked(_, _, _) => BlockedIsEven(x, c, job, f);
    case _ =>
  }

  lemma TotalsAt(jobs: seq<Job>, pcs: seq<Pc>, i: nat, pc: Pc, f: Frame)
    requires |jobs| == |pcs| && i < |pcs|
    ensures Total(jobs, pcs[i := pc], OfWaiting)[f] + OfWaiting(jobs[i], pcs[i])[f]
            == Total(jobs, pcs, OfWaiting)[f] + OfWaiting(jobs[i], pc)[f]
    ensures Total(jobs, pcs[i := pc], OfDoubled)[f] + OfDoubled(jobs[i], pcs[i])[f]
            == Total(jobs, pcs, OfDoubled)[f] + OfDoubled(jobs[i], pc)[f]
  {
    TotalAfter(jobs, pcs, i, pc, OfWaiting);
    TotalAfter(jobs, pcs, i, pc, OfDoubled);
    var w, d := Total(jobs, pcs[i := pc], OfWaiting), Total(jobs, pcs[i := pc], OfDoubled);
    assert (w + OfWaiting(jobs[i], pcs[i]))[f] == w[f] + OfWaiting(jobs[i], pcs[i])[f];
    assert (d + OfDoubled(jobs[i], pcs[i]))[f] == d[f] + OfDoubled(jobs[i], pcs[i])[f];
  }

  /** The books of one frame. */
  ghost predicate BalancedFor(x: Fine, jobs: seq<Job>, accepted: multiset<Frame>, f: Frame)
    requires |jobs| == |x.pcs|
  {
    multiset(x.s.out)[f] + multiset(x.s.held)[f] + Total(jobs, x.pcs, OfWaiting)[f]
    == accepted[f] + Total(jobs, x.pcs, OfDoubled)[f]
  }

  lemma BalancedIsForAll(x: Fine, jobs: seq<Job>, accepted: multiset<Frame>)
    requires |jobs| == |x.pcs|
    ensures Balanced(x, jobs, accepted) <==> forall f :: BalancedFor(x, jobs, accepted, f)
  {
    var a := multiset(x.s.out) + multiset(x.s.held) + Total(jobs, x.pcs, OfWaiting);
    var b := accepted + Total(jobs, x.pcs, OfDoubled);
    if forall f :: BalancedFor(x, jobs, accepted, f) {
      forall f: Frame ensures a[f] == b[f] {
        assert BalancedFor(x, jobs, accepted, f);
      }
      assert a == b;
    }
    if a == b {
      forall f ensures BalancedFor(x, jobs, accepted, f) {
        assert a[f] == b[f];
      }
    }
  }

  lemma BalancedNextFor(x: Fine, c: Choice, jobs: seq<Job>, accepted: multiset<Frame>, f: Frame)
    requires Enabled(x, c) && c.Act? && |jobs| == |x.pcs| == |Next(x, c).pcs| && BalancedFor(x, jobs, accepted, f)
    ensures BalancedFor(Next(x, c), jobs, accepted + AcceptedBy(x, c), f) <==> EvenFor(x, c, jobs[c.i], f)
  {
    MovesOne(x, c);
    TotalsAt(jobs, x.pcs, c.i, Next(x, c).pcs[c.i], f);
    assert (accepted + AcceptedBy(x, c))[f] == accepted[f] + AcceptedBy(x, c)[f];
  }

  /** One step keeps the books balanced exactly if a goroutine that resumes drops its own frame. */
  lemma StepBalancesIff(x: Fine, c: Choice, jobs: seq<Job>, accepted: multiset<Frame>)
    requires Enabled(x, c) && |jobs| == |x.pcs| && Balanced(x, jobs, accepted)
    ensures |Next(x, c).pcs| == |jobs|
    ensures Balanced(Next(x, c), jobs, accepted + AcceptedBy(x, c)) <==> DropsItsOwn(x, c)
  {
    MovesOne(x, c);
    if c.Consume? {
      assert accepted + multiset{} == accepted;
    } else {
      BalancedIsForAll(x, jobs, accepted);
      BalancedIsForAll(Next(x, c), jobs, accepted + AcceptedBy(x, c));
      var pc := x.pcs[c.i];
      forall f ensures DropsItsOwn(x, c) ==> BalancedFor(Next(x, c), jobs, accepted + AcceptedBy(x, c), f) {
        BalancedNextFor(x, c, jobs, accepted, f);
        if pc.Resuming? && pc.fromHeld {
          ResumingIsEvenIff(x, c, jobs[c.i], f);
        } else {
          OthersAreEven(x, c, jobs[c.i], f);
        }
      }
      if !DropsItsOwn(x, c) {
        ResumingIsEvenIff(x, c, jobs[c.i], pc.f);
        BalancedNextFor(x, c, jobs, accepted, pc.f);
      }
    }
  }

  /** The first `n` steps of the run, and the books after them. */
  ghost predicate BalancedAfter(xs: seq<Fine>, cs: seq<Choice>, jobs: seq<Job>, n: nat)
    requires n <= |cs| < |xs|
  {
    |xs[n].pcs| == |jobs| && Balanced(xs[n], jobs, Accepted(xs, cs, n))
  }

  /** In the first `n` steps. */
  ghost predicate AllDropTheirOwn(xs: seq<Fine>, cs: seq<Choice>, n: nat)
    requires n <= |cs| < |xs|
  {
    n > 0 ==> DropsItsOwn(xs[n - 1], cs[n - 1]) && AllDropTheirOwn(xs, cs, n - 1)
  }

  lemma BalancedNextIff(xs: seq<Fine>, cs: seq<Choice>, jobs: seq<Job>, n: nat)
    requires n < |cs| < |xs| && FineStep(xs, cs, n) && BalancedAfter(xs, cs, jobs, n)
    ensures BalancedAfter(xs, cs, jobs, n + 1) <==> DropsItsOwn(xs[n], cs[n])
  {
    StepBalancesIff(xs[n], cs[n], jobs, Accepted(xs, cs, n));
  }

  /** The books have balanced all the time up to step `n`. */
  ghost predicate AlwaysBalanced(xs: seq<Fine>, cs: seq<Choice>, jobs: seq<Job>, n: nat)
    requires n <= |cs| < |xs|
  {
    BalancedAfter(xs, cs, jobs, n) && (n > 0 ==> AlwaysBalanced(xs, cs, jobs, n - 1))
  }

  lemma BalancedAtFirst(xs: seq<Fine>, cs: seq<Choice>, capacity: nat, jobs: seq<Job>)
    requires IsFineRun(xs, cs, capacity, jobs)
    ensures BalancedAfter(xs, cs, jobs, 0)
  {
    TotalOfNone(jobs, xs[0].pcs, OfWaiting);
    TotalOfNone(jobs, xs[0].pcs, OfDoubled);
  }

  /**
    The books balance throughout a run exactly if every goroutine that dropped the lock over a held
    frame drops that very frame when it has the lock again.
   */
  lemma {:induction false} BooksBalanceIff(xs: seq<Fine>, cs: seq<Choice>, capacity: nat, jobs: seq<Job>, n: nat)
    requires IsFineRun(xs, cs, capacity, jobs) && n <= |cs|
    ensures AlwaysBalanced(xs, cs, jobs, n) <==> AllDropTheirOwn(xs, cs, n)
  {
    if n == 0 {
      BalancedAtFirst(xs, cs, capacity, jobs);
    } else {
      BooksBalanceIff(xs, cs, capacity, jobs, n - 1);
      assert FineStep(xs, cs, n - 1);
      if AlwaysBalanced(xs, cs, jobs, n - 1) {
        BalancedNextIff(xs, cs, jobs, n - 1);
      }
    }
  }

  /** No goroutine is on its way. */
  predicate AtRest(x: Fine) {
    forall i :: 0 <= i < |x.pcs| ==> x.pcs[i].Waiting? || x.pcs[i] == Done
  }

  lemma BalancedAtRest(x: Fine, jobs: seq<Job>, accepted: multiset<Frame>)
    requires |x.pcs| == |jobs| && Balanced(x, jobs, accepted) && AtRest(x)
    ensures multiset(x.s.out) + multiset(x.s.held) == accepted
  {
    TotalOfNone(jobs, x.pcs, OfWaiting);
    TotalOfNone(jobs, x.pcs, OfDoubled);
    var all := multiset(x.s.out) + multiset(x.s.held);
    assert all + multiset{} == all && accepted + multiset{} == accepted;
  }

  /** So in such a run, once no goroutine is on its way, every frame accepted was delivered or is held, and once. */
  lemma OwnDropsLoseNothing(xs: seq<Fine>, cs: seq<Choice>, capacity: nat, jobs: seq<Job>)
    requires IsFineRun(xs, cs, capacity, jobs) && AllDropTheirOwn(xs, cs, |cs|) && AtRest(xs[|cs|])
    ensures multiset(xs[|cs|].s.out) + multiset(xs[|cs|].s.held) == Accepted(xs, cs, |cs|)
  {
    BooksBalanceIff(xs, cs, capacity, jobs, |cs|);
    assert BalancedAfter(xs, cs, jobs, |cs|);
    BalancedAtRest(xs[|cs|], jobs, Accepted(xs, cs, |cs|));
  }

  /** And no goroutine of it panics. */
  lemma {:induction false} OwnDropsNeverCrash(
      xs: seq<Fine>, cs: seq<Choice>, capacity: nat, jobs: seq<Job>, n: nat)
    requires IsFineRun(xs, cs, capacity, jobs) && n <= |cs| && AllDropTheirOwn(xs, cs, n)
    ensures Crashed !in xs[n].pcs
  {
    if n > 0 {
      OwnDropsNeverCrash(xs, cs, capacity, jobs, n - 1);
      assert FineStep(xs, cs, n - 1);
      MovesOne(xs[n - 1], cs[n - 1]);
    }
  }
}
