/** Runs of one multiplexed session: which connections have a pipe, also after the session was closed. */
module MuxRuns {
  import opened Bytes

  /** The pinned connections, each of which has an open pipe. */
  datatype Session = Session(pinned: set<u32>, closed: bool)

  const NEW_SESSION := Session({}, false)

  datatype Event = Pin(id: u32) | OpenReader(id: u32) | Unpin(id: u32) | Close

  /** Only the first close does anything; pins and readers do not ask whether the session is closed. */
  function Next(s: Session, e: Event): Session {
    match e
    case Pin(id) => s.(pinned := s.pinned + {id})
    case OpenReader(id) => s.(pinned := s.pinned + {id})
    case Unpin(id) => s.(pinned := s.pinned - {id})
    case Close => if s.closed then s else Session({}, true)
  }

  function Run(s: Session, events: seq<Event>): Session {
    if events == [] then s else Next(Run(s, events[..|events| - 1]), events[|events| - 1])
  }

  /** The last of these events that is about `id` pins it or opens its reader. */
  predicate LeftPinned(events: seq<Event>, id: u32) {
    events != [] &&
    match events[|events| - 1]
    case Close => LeftPinned(events[..|events| - 1], id)
    case e =>
      if e.id == id then !e.Unpin? else LeftPinned(events[..|events| - 1], id)
  }

  lemma {:induction false} StaysClosed(s: Session, events: seq<Event>, id: u32)
    requires s == Session({}, true)
    ensures Run(s, events).closed && (id in Run(s, events).pinned <==> LeftPinned(events, id))
    decreases |events|
  {
    if events != [] {
      StaysClosed(s, events[..|events| - 1], id);
    }
  }

  /** Until it is closed, a session has a pipe for exactly the connections last pinned or opened, and not unpinned. */
  lemma {:induction false} OpenHasPipeIff(events: seq<Event>, id: u32)
    requires Close !in events
    ensures var s := Run(NEW_SESSION, events);
            !s.closed && (id in s.pinned <==> LeftPinned(events, id))
    decreases |events|
  {
    if events != [] {
      assert events[|events| - 1] in events;
      OpenHasPipeIff(events[..|events| - 1], id);
    }
  }

  lemma {:induction false} RunConcat(s: Session, a: seq<Event>, b: seq<Event>)
    ensures Run(s, a + b) == Run(Run(s, a), b)
    decreases |b|
  {
    if b == [] {
      assert a + b == a;
    } else {
      assert (a + b)[..|a + b| - 1] == a + b[..|b| - 1];
      RunConcat(s, a, b[..|b| - 1]);
    }
  }

  /**
    After the close that counts, a connection has an open pipe exactly if it was pinned or opened since,
    and not unpinned after that.
   */
  lemma ClosedHasPipeIff(before: seq<Event>, after: seq<Event>, id: u32)
    requires !Run(NEW_SESSION, before).closed
    ensures var t := Run(NEW_SESSION, before + [Close] + after);
            t.closed && (id in t.pinned <==> LeftPinned(after, id))
  {
    RunConcat(NEW_SESSION, before + [Close], after);
    assert (before + [Close])[..|before|] == before;
    StaysClosed(Session({}, true), after, id);
  }

  lemma {:induction false} NothingLeft(after: seq<Event>, id: u32)
    requires forall e <- after :: !e.Pin? && !e.OpenReader?
    ensures !LeftPinned(after, id)
    decreases |after|
  {
    if after != [] {
      assert after[|after| - 1] in after;
      assert forall e <- after[..|after| - 1] :: e in after;
      NothingLeft(after[..|after| - 1], id);
    }
  }

  /** If nothing is pinned or opened after that close, the session has no pipe at all. */
  lemma {:induction false} ClosedIsEmpty(before: seq<Event>, after: seq<Event>)
    requires !Run(NEW_SESSION, before).closed
    requires forall e <- after :: !e.Pin? && !e.OpenReader?
    ensures Run(NEW_SESSION, before + [Close] + after).pinned == {}
  {
    forall id ensures id !in Run(NEW_SESSION, before + [Close] + after).pinned {
      ClosedHasPipeIff(before, after, id);
      NothingLeft(after, id);
    }
  }
}
