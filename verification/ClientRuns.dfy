/** Runs of the client map: what becomes of one client, whatever the others do. */
module ClientRuns {
  import opened ClientTable
  import opened Wrappers

  /** A client is seen (`made` is the queue made if it is new), or the sweep for expired clients runs. */
  datatype Event<Q> = Seen(addr: Addr, now: int, made: Q) | Sweep(now: int)

  function Next<Q>(m: Table<Q>, e: Event<Q>, timeout: int): Table<Q> {
    match e
    case Seen(addr, now, made) => Touched(m, addr, now, made)
    case Sweep(now) => Unexpired(m, now, timeout)
  }

  function Run<Q>(m: Table<Q>, events: seq<Event<Q>>, timeout: int): Table<Q>
    decreases events
  {
    if events == [] then m else Run(Next(m, events[0], timeout), events[1..], timeout)
  }

  function Lookup<Q>(m: Table<Q>, a: Addr): Option<Client<Q>> {
    if a in m then Some(m[a]) else None
  }

  /** Client `a` on its own: a timer of its own and no heap. */
  function LifeStep<Q>(c: Option<Client<Q>>, a: Addr, e: Event<Q>, timeout: int): Option<Client<Q>> {
    match e
    case Seen(addr, now, made) =>
      if addr != a then c else Some(Client(now, if c.Some? then c.value.queue else made))
    case Sweep(now) =>
      if c.Some? && now - c.value.lastSeen >= timeout then None else c
  }

  function Life<Q>(c: Option<Client<Q>>, a: Addr, events: seq<Event<Q>>, timeout: int): Option<Client<Q>>
    decreases events
  {
    if events == [] then c else Life(LifeStep(c, a, events[0], timeout), a, events[1..], timeout)
  }

  /** The table treats every client as if it were alone. */
  lemma {:induction false} ClientsAreIndependent<Q>(m: Table<Q>, a: Addr, events: seq<Event<Q>>, timeout: int)
    ensures Lookup(Run(m, events, timeout), a) == Life(Lookup(m, a), a, events, timeout)
    decreases events
  {
    if events != [] {
      ClientsAreIndependent(Next(m, events[0], timeout), a, events[1..], timeout);
    }
  }

  /** No sweep comes `timeout` or more after `a` was last seen. */
  predicate NeverLate<Q>(lastSeen: int, a: Addr, events: seq<Event<Q>>, timeout: int)
    decreases events
  {
    events == [] ||
    match events[0]
    case Seen(addr, now, _) => NeverLate(if addr == a then now else lastSeen, a, events[1..], timeout)
    case Sweep(now) => now - lastSeen < timeout && NeverLate(lastSeen, a, events[1..], timeout)
  }

  /** `q` is not made again for `a`. */
  predicate MadeOnce<Q(==)>(q: Q, a: Addr, events: seq<Event<Q>>) {
    forall e <- events :: e.Seen? && e.addr == a ==> e.made != q
  }

  lemma {:induction false} LostIsNotRegained<Q>(
      c: Option<Client<Q>>, q: Q, a: Addr, events: seq<Event<Q>>, timeout: int)
    requires MadeOnce(q, a, events) && (c.Some? ==> c.value.queue != q)
    ensures var r := Life(c, a, events, timeout);
            r.Some? ==> r.value.queue != q
    decreases events
  {
    if events != [] {
      assert events[0] in events;
      LostIsNotRegained(LifeStep(c, a, events[0], timeout), q, a, events[1..], timeout);
    }
  }

  /** A client keeps its queue through a run exactly when no sweep of that run finds it late. */
  lemma {:induction false} KeepsQueueIffNeverLate<Q>(
      m: Table<Q>, a: Addr, events: seq<Event<Q>>, timeout: int)
    requires a in m && MadeOnce(m[a].queue, a, events)
    ensures var r := Run(m, events, timeout);
            (a in r && r[a].queue == m[a].queue) <==> NeverLate(m[a].lastSeen, a, events, timeout)
    decreases events
  {
    if events != [] {
      assert forall e <- events[1..] :: e in events;
      var m' := Next(m, events[0], timeout);
      if a in m' {
        KeepsQueueIffNeverLate(m', a, events[1..], timeout);
      } else {
        ClientsAreIndependent(m', a, events[1..], timeout);
        LostIsNotRegained(None, m[a].queue, a, events[1..], timeout);
      }
    }
  }

  /** The clock does not go back from `clock`, and `a` is never unseen for as long as `timeout`. */
  predicate GapsBelow<Q>(lastSeen: int, clock: int, a: Addr, events: seq<Event<Q>>, timeout: int)
    decreases events
  {
    if events == [] then clock - lastSeen < timeout
    else
      clock <= events[0].now &&
      if events[0].Seen? && events[0].addr == a
      then events[0].now - lastSeen < timeout && GapsBelow(events[0].now, events[0].now, a, events[1..], timeout)
      else GapsBelow(lastSeen, events[0].now, a, events[1..], timeout)
  }

  lemma {:induction false} GapsBelowIsNeverLate<Q>(
      lastSeen: int, clock: int, a: Addr, events: seq<Event<Q>>, timeout: int)
    requires GapsBelow(lastSeen, clock, a, events, timeout)
    ensures clock - lastSeen < timeout && NeverLate(lastSeen, a, events, timeout)
    decreases events
  {
    if events != [] {
      var now := events[0].now;
      GapsBelowIsNeverLate(if events[0].Seen? && events[0].addr == a then now else lastSeen, now,
                           a, events[1..], timeout);
    }
  }

  /** Under a clock that does not go back, a client seen at gaps below `timeout` keeps its queue. */
  lemma KeepsQueueAtShortGaps<Q>(m: Table<Q>, a: Addr, events: seq<Event<Q>>, timeout: int)
    requires a in m && MadeOnce(m[a].queue, a, events)
    requires GapsBelow(m[a].lastSeen, m[a].lastSeen, a, events, timeout)
    ensures var r := Run(m, events, timeout);
            a in r && r[a].queue == m[a].queue
  {
    GapsBelowIsNeverLate(m[a].lastSeen, m[a].lastSeen, a, events, timeout);
    KeepsQueueIffNeverLate(m, a, events, timeout);
  }
}
