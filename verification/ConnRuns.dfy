/** Whole runs of the packet connection, as values: queues are named by numbers, in the order in which they are made. */
module ConnRuns {
  import opened ClientTable
  import opened PacketQueues
  import opened Sequences
  import opened Wrappers

  /** `found` tells for each event so far which queue it looked up, if any. */
  datatype Conn = Conn(table: Table<nat>, queues: seq<QueueState>, found: seq<Option<nat>>)

  const NEW_CONN := Conn(map[], [], [])

  /**
    The atomic steps: the lookup of a client's queue, which is all of OutgoingQueue and the first half
    of WriteTo; the send that ends the WriteTo whose lookup was event `j`; a receive, from whatever
    queue, for a receiver may still have one that its client has lost; and the sweep.
   */
  datatype Event = Find(addr: Addr, now: int) | Send(j: nat, p: Packet) | Receive(q: nat) | Sweep(now: int)

  function OfferTo(queues: seq<QueueState>, q: nat, p: Packet): seq<QueueState> {
    if q < |queues| then queues[q := queues[q].Offer(p)] else queues
  }

  function TakeFrom(queues: seq<QueueState>, q: nat): seq<QueueState> {
    if q < |queues| && queues[q].items != [] then queues[q := queues[q].Take()] else queues
  }

  function Next(c: Conn, e: Event, timeout: int): Conn {
    match e
    case Find(addr, now) =>
      var table := Touched(c.table, addr, now, |c.queues|);
      Conn(table, if addr in c.table then c.queues else c.queues + [EMPTY_QUEUE], c.found + [Some(table[addr].queue)])
    case Send(j, p) =>
      c.(queues := if j < |c.found| && c.found[j].Some? then OfferTo(c.queues, c.found[j].value, p) else c.queues,
         found := c.found + [None])
    case Receive(q) => c.(queues := TakeFrom(c.queues, q), found := c.found + [None])
    case Sweep(now) => c.(table := Unexpired(c.table, now, timeout), found := c.found + [None])
  }

  function Run(events: seq<Event>, timeout: int): Conn {
    if events == [] then NEW_CONN else Next(Run(events[..|events| - 1], timeout), events[|events| - 1], timeout)
  }

  // ---------- every state of every run ----------

  ghost predicate Good(c: Conn) {
    && (forall a :: a in c.table ==> c.table[a].queue < |c.queues|)
    && (forall j :: 0 <= j < |c.found| && c.found[j].Some? ==> c.found[j].value < |c.queues|)
    && DistinctQueues(c.table)
    && (forall q :: 0 <= q < |c.queues| ==> c.queues[q].Valid())
  }

  lemma NextIsGood(c: Conn, e: Event, timeout: int)
    requires Good(c)
    ensures Good(Next(c, e, timeout))
  {
    match e
    case Send(j, p) =>
      if j < |c.found| && c.found[j].Some? {
        c.queues[c.found[j].value].OfferKeepsValid(p);
      }
    case Receive(q) =>
      if q < |c.queues| && c.queues[q].items != [] {
        c.queues[q].TakeKeepsValid();
      }
    case _ =>
  }

  lemma {:induction false} RunIsGood(events: seq<Event>, timeout: int)
    ensures Good(Run(events, timeout)) && |Run(events, timeout).found| == |events|
    decreases |events|
  {
    if events != [] {
      RunIsGood(events[..|events| - 1], timeout);
      NextIsGood(Run(events[..|events| - 1], timeout), events[|events| - 1], timeout);
    }
  }

  lemma {:induction false} QueuesGrow(events: seq<Event>, timeout: int, j: nat)
    requires j <= |events|
    ensures |Run(events[..j], timeout).queues| <= |Run(events, timeout).queues|
    decreases |events|
  {
    if j == |events| {
      assert events[..j] == events;
    } else {
      var init := events[..|events| - 1];
      assert init[..j] == events[..j];
      QueuesGrow(init, timeout, j);
    }
  }

  // ---------- the life of one queue ----------

  predicate Has(c: Conn, b: Addr, q: nat) {
    b in c.table && c.table[b].queue == q
  }

  /** After the first `j` events queue `q` is that of client `b`. */
  predicate HasAfter(events: seq<Event>, timeout: int, b: Addr, q: nat, j: nat)
    requires j <= |events|
  {
    Has(Run(events[..j], timeout), b, q)
  }

  /** Event `k` makes queue `q` for client `a`, who has it up to event `m`; nobody else ever has it. */
  ghost predicate Life(events: seq<Event>, timeout: int, q: nat, a: Addr, k: nat, m: nat) {
    && k < m <= |events|
    && forall b, j :: 0 <= j <= |events| ==> (HasAfter(events, timeout, b, q, j) <==> b == a && k < j <= m)
  }

  predicate Finds(events: seq<Event>, j: nat, a: Addr) {
    j < |events| && events[j].Find? && events[j].addr == a
  }

  /** The packets sent by writes to `a` whose lookup was one of the events `k` up to `m`. */
  function SentTo(events: seq<Event>, a: Addr, k: nat, m: nat): seq<Packet>
    decreases |events|
  {
    if events == [] then []
    else
      var init, e := events[..|events| - 1], events[|events| - 1];
      SentTo(init, a, k, m) + if e.Send? && Finds(init, e.j, a) && k <= e.j < m then [e.p] else []
  }

  lemma {:induction false} SentToUpTo(events: seq<Event>, a: Addr, k: nat, m: nat)
    ensures m >= |events| ==> SentTo(events, a, k, m) == SentTo(events, a, k, |events|)
    ensures k >= |events| ==> SentTo(events, a, k, m) == []
    decreases |events|
  {
    if events != [] {
      var n := |events| - 1;
      SentToUpTo(events[..n], a, k, m);
      SentToUpTo(events[..n], a, k, n + 1);
    }
  }

  /** The events that looked up queue `q`. */
  ghost predicate FoundWhile(events: seq<Event>, timeout: int, q: nat, a: Addr, k: nat, m: nat) {
    && |Run(events, timeout).found| == |events|
    && forall j :: 0 <= j < |events| ==>
         (Run(events, timeout).found[j] == Some(q) <==> Finds(events, j, a) && k <= j < m)
  }

  /** A queue that a client has lost is never anybody's again. */
  lemma NotRegained(c: Conn, e: Event, timeout: int, q: nat, b: Addr)
    requires Good(c) && q < |c.queues| && Has(Next(c, e, timeout), b, q)
    ensures Has(c, b, q)
  {
  }

  lemma LifeGoesOn(events: seq<Event>, timeout: int, q: nat, a: Addr, k: nat, m: nat) returns (m': nat)
    requires events != [] && Life(events[..|events| - 1], timeout, q, a, k, m)
    requires q < |Run(events[..|events| - 1], timeout).queues|
    ensures Life(events, timeout, q, a, k, m')
    ensures m' == if m == |events| - 1 && Has(Run(events, timeout), a, q) then |events| else m
  {
    var n := |events| - 1;
    var init := events[..n];
    m' := if m == n && Has(Run(events, timeout), a, q) then n + 1 else m;
    RunIsGood(init, timeout);
    assert events[..n + 1] == events && init[..n] == init;
    forall b, j | 0 <= j <= n + 1 ensures HasAfter(events, timeout, b, q, j) <==> b == a && k < j <= m' {
      if j <= n {
        assert events[..j] == init[..j];
        assert HasAfter(init, timeout, b, q, j) <==> b == a && k < j <= m;
      } else if Has(Run(events, timeout), b, q) {
        NotRegained(Run(init, timeout), events[n], timeout, q, b);
        assert HasAfter(init, timeout, b, q, n);
      }
    }
  }

  lemma FoundLast(events: seq<Event>, timeout: int, q: nat, a: Addr, k: nat, m: nat)
    requires events != [] && Life(events, timeout, q, a, k, m)
    requires |Run(events[..|events| - 1], timeout).found| == |events| - 1
    ensures var n := |events| - 1;
            && |Run(events, timeout).found| == n + 1
            && (Run(events, timeout).found[n] == Some(q) <==> Finds(events, n, a) && k <= n < m)
  {
    var n := |events| - 1;
    var d, e := Run(events, timeout), events[n];
    assert events[..n + 1] == events;
    if e.Find? {
      assert d.found[n] == Some(q) <==> Has(d, e.addr, q);
      assert HasAfter(events, timeout, e.addr, q, n + 1) <==> e.addr == a && k < n + 1 <= m;
    }
  }

  lemma FoundBefore(events: seq<Event>, timeout: int, q: nat, a: Addr, k: nat, m: nat, m': nat, j: nat)
    requires events != [] && FoundWhile(events[..|events| - 1], timeout, q, a, k, m)
    requires m <= m' && (m < m' ==> m == |events| - 1) && j < |events| - 1 < |Run(events, timeout).found|
    ensures Run(events, timeout).found[j] == Some(q) <==> Finds(events, j, a) && k <= j < m'
  {
    var init := events[..|events| - 1];
    assert Run(events, timeout).found[j] == Run(init, timeout).found[j];
    assert Run(init, timeout).found[j] == Some(q) <==> Finds(init, j, a) && k <= j < m;
  }

  lemma FoundGoesOn(events: seq<Event>, timeout: int, q: nat, a: Addr, k: nat, m: nat, m': nat)
    requires events != [] && FoundWhile(events[..|events| - 1], timeout, q, a, k, m)
    requires m <= m' && (m < m' ==> m == |events| - 1) && Life(events, timeout, q, a, k, m')
    ensures FoundWhile(events, timeout, q, a, k, m')
  {
    var n := |events| - 1;
    FoundLast(events, timeout, q, a, k, m');
    forall j | 0 <= j < n
      ensures Run(events, timeout).found[j] == Some(q) <==> Finds(events, j, a) && k <= j < m'
    {
      FoundBefore(events, timeout, q, a, k, m, m', j);
    }
  }

  lemma OfferedAfter(c: Conn, e: Event, timeout: int, q: nat)
    requires q < |c.queues|
    ensures q < |Next(c, e, timeout).queues|
    ensures Next(c, e, timeout).queues[q].offered ==
            c.queues[q].offered + if e.Send? && e.j < |c.found| && c.found[e.j] == Some(q) then [e.p] else []
  {
    var offered := c.queues[q].offered;
    assert offered + [] == offered;
  }

  lemma SentToAfter(events: seq<Event>, timeout: int, q: nat, a: Addr, k: nat, m: nat, m': nat)
    requires events != [] && FoundWhile(events[..|events| - 1], timeout, q, a, k, m)
    requires m <= m' && (m < m' ==> m == |events| - 1)
    ensures var n := |events| - 1;
            var found, e := Run(events[..n], timeout).found, events[n];
            SentTo(events, a, k, m') ==
            SentTo(events[..n], a, k, m) + if e.Send? && e.j < n && found[e.j] == Some(q) then [e.p] else []
  {
    var init := events[..|events| - 1];
    SentToUpTo(init, a, k, m);
    SentToUpTo(init, a, k, m');
  }

  lemma OfferedGoesOn(events: seq<Event>, timeout: int, q: nat, a: Addr, k: nat, m: nat, m': nat)
    requires events != [] && FoundWhile(events[..|events| - 1], timeout, q, a, k, m)
    requires m <= m' && (m < m' ==> m == |events| - 1) && q < |Run(events[..|events| - 1], timeout).queues|
    requires Run(events[..|events| - 1], timeout).queues[q].offered == SentTo(events[..|events| - 1], a, k, m)
    ensures q < |Run(events, timeout).queues|
    ensures Run(events, timeout).queues[q].offered == SentTo(events, a, k, m')
  {
    OfferedAfter(Run(events[..|events| - 1], timeout), events[|events| - 1], timeout, q);
    SentToAfter(events, timeout, q, a, k, m, m');
  }

  lemma NotYetMade(events: seq<Event>, timeout: int, q: nat, b: Addr, j: nat)
    requires j <= |events| && |Run(events, timeout).queues| <= q
    ensures !HasAfter(events, timeout, b, q, j)
  {
    RunIsGood(events[..j], timeout);
    QueuesGrow(events, timeout, j);
  }

  lemma BornWith(c: Conn, e: Event, timeout: int, q: nat)
    requires Good(c) && |c.queues| <= q < |Next(c, e, timeout).queues|
    ensures e.Find? && q == |c.queues| && Next(c, e, timeout).queues[q].offered == []
    ensures forall b :: Has(Next(c, e, timeout), b, q) <==> b == e.addr
  {
  }

  /** The event that makes a queue. */
  lemma LifeBegins(events: seq<Event>, timeout: int, q: nat) returns (a: Addr)
    requires events != [] && |Run(events[..|events| - 1], timeout).queues| <= q < |Run(events, timeout).queues|
    ensures var n := |events| - 1;
            && Life(events, timeout, q, a, n, n + 1) && FoundWhile(events, timeout, q, a, n, n + 1)
            && Run(events, timeout).queues[q].offered == [] == SentTo(events, a, n, n + 1)
  {
    var n := |events| - 1;
    var init, e := events[..n], events[n];
    RunIsGood(init, timeout);
    BornWith(Run(init, timeout), e, timeout, q);
    a := e.addr;
    assert events[..n + 1] == events;
    forall b, j | 0 <= j <= n + 1 ensures HasAfter(events, timeout, b, q, j) <==> b == a && n < j <= n + 1 {
      if j <= n {
        assert events[..j] == init[..j];
        NotYetMade(init, timeout, q, b, j);
      }
    }
    FoundLast(events, timeout, q, a, n, n + 1);
    assert Run(events, timeout).found[..n] == Run(init, timeout).found;
    SentToUpTo(init, a, n, n + 1);
  }

  lemma {:induction false} QueueLife(events: seq<Event>, timeout: int, q: nat) returns (a: Addr, k: nat, m: nat)
    requires q < |Run(events, timeout).queues|
    ensures Life(events, timeout, q, a, k, m) && FoundWhile(events, timeout, q, a, k, m)
    ensures Run(events, timeout).queues[q].offered == SentTo(events, a, k, m)
    decreases |events|
  {
    var n := |events| - 1;
    if q < |Run(events[..n], timeout).queues| {
      var m0;
      a, k, m0 := QueueLife(events[..n], timeout, q);
      m := LifeGoesOn(events, timeout, q, a, k, m0);
      FoundGoesOn(events, timeout, q, a, k, m0, m);
      OfferedGoesOn(events, timeout, q, a, k, m0, m);
    } else {
      a := LifeBegins(events, timeout, q);
      k, m := n, n + 1;
    }
  }

  /**
    Whatever else happens, and even after its client has lost it: the packets taken from a queue are, in
    order, some of those sent by the writes to one client that looked the queue up while it was that
    client's, and no more than 32 wait.
   */
  lemma TakenWereSent(events: seq<Event>, timeout: int, q: nat) returns (a: Addr, k: nat, m: nat)
    requires q < |Run(events, timeout).queues|
    ensures Life(events, timeout, q, a, k, m)
    ensures var s := Run(events, timeout).queues[q];
            IsSubsequence(s.taken, SentTo(events, a, k, m)) && |s.items| <= QUEUE_SIZE
  {
    a, k, m := QueueLife(events, timeout, q);
    RunIsGood(events, timeout);
    var s := Run(events, timeout).queues[q];
    assert s.Valid();
    SubsequencePrefix(s.taken, s.items, s.offered);
  }

  // ---------- which packets are dropped ----------

  /** What comes to queue `q`, going by what the lookups have found. */
  function FoundEvents(events: seq<Event>, timeout: int, q: nat): seq<QueueEvent> {
    if events == [] then []
    else
      var init, e := events[..|events| - 1], events[|events| - 1];
      var found := Run(init, timeout).found;
      FoundEvents(init, timeout, q) +
      match e
      case Send(j, p) => if j < |found| && found[j] == Some(q) then [Offered(p)] else []
      case Receive(r) => if r == q then [Received] else []
      case _ => []
  }

  /** The sends of the writes to `a` whose lookup was one of the events `k` up to `m`, and the receives from `q`. */
  function EventsFor(events: seq<Event>, q: nat, a: Addr, k: nat, m: nat): seq<QueueEvent>
    decreases |events|
  {
    if events == [] then []
    else
      var init, e := events[..|events| - 1], events[|events| - 1];
      EventsFor(init, q, a, k, m) +
      match e
      case Send(j, p) => if Finds(init, j, a) && k <= j < m then [Offered(p)] else []
      case Receive(r) => if r == q then [Received] else []
      case _ => []
  }

  lemma QueueStep(before: seq<QueueEvent>, e: QueueEvent)
    ensures var s := QueueRun(before);
            QueueRun(before + [e]) ==
            match e
            case Offered(p) => s.Offer(p)
            case Received => if s.items == [] then s else s.Take()
  {
    assert (before + [e])[..|before|] == before;
  }

  lemma {:induction false} NothingComes(events: seq<Event>, timeout: int, q: nat)
    requires |Run(events, timeout).queues| <= q
    ensures QueueRun(FoundEvents(events, timeout, q)) == EMPTY_QUEUE
    decreases |events|
  {
    if events != [] {
      var init := events[..|events| - 1];
      RunIsGood(init, timeout);
      assert FoundEvents(init, timeout, q) + [] == FoundEvents(init, timeout, q);
      NothingComes(init, timeout, q);
      QueueStep(FoundEvents(init, timeout, q), Received);
    }
  }

  lemma QueueAfter(c: Conn, e: Event, timeout: int, q: nat)
    requires q < |Next(c, e, timeout).queues|
    ensures q >= |c.queues| ==> e.Find? && Next(c, e, timeout).queues[q] == EMPTY_QUEUE
    ensures q < |c.queues| ==>
      var s := c.queues[q];
      Next(c, e, timeout).queues[q] ==
      match e
      case Send(j, p) => if j < |c.found| && c.found[j] == Some(q) then s.Offer(p) else s
      case Receive(r) => if r == q && s.items != [] then s.Take() else s
      case _ => s
  {
  }

  /** Each queue is in the state to which what came to it has brought it. */
  lemma {:induction false} QueueIsRun(events: seq<Event>, timeout: int, q: nat)
    requires q < |Run(events, timeout).queues|
    ensures Run(events, timeout).queues[q] == QueueRun(FoundEvents(events, timeout, q))
    decreases |events|
  {
    var init, e := events[..|events| - 1], events[|events| - 1];
    var c, before := Run(init, timeout), FoundEvents(init, timeout, q);
    assert before + [] == before;
    QueueAfter(c, e, timeout, q);
    if q < |c.queues| {
      QueueIsRun(init, timeout, q);
      if e.Send? {
        QueueStep(before, Offered(e.p));
      } else {
        QueueStep(before, Received);
      }
    } else {
      NothingComes(init, timeout, q);
    }
  }

  lemma {:induction false} FoundStays(events: seq<Event>, timeout: int, n: nat, j: nat)
    requires j < n <= |events|
    ensures j < |Run(events[..n], timeout).found| && j < |Run(events, timeout).found|
    ensures Run(events[..n], timeout).found[j] == Run(events, timeout).found[j]
    decreases |events|
  {
    RunIsGood(events[..n], timeout);
    if n == |events| {
      assert events[..n] == events;
    } else {
      var init := events[..|events| - 1];
      assert init[..n] == events[..n];
      FoundStays(init, timeout, n, j);
    }
  }

  lemma FoundThen(events: seq<Event>, timeout: int, q: nat, a: Addr, k: nat, m: nat, n: nat, j: nat)
    requires FoundWhile(events, timeout, q, a, k, m) && n <= |events|
    ensures var found := Run(events[..n], timeout).found;
            j < |found| && found[j] == Some(q) <==> Finds(events[..n], j, a) && k <= j < m
  {
    RunIsGood(events[..n], timeout);
    if j < n {
      FoundStays(events, timeout, n, j);
      assert Run(events, timeout).found[j] == Some(q) <==> Finds(events, j, a) && k <= j < m;
    }
  }

  lemma {:induction false} FoundAreFor(events: seq<Event>, timeout: int, q: nat, a: Addr, k: nat, m: nat, n: nat)
    requires FoundWhile(events, timeout, q, a, k, m) && n <= |events|
    ensures FoundEvents(events[..n], timeout, q) == EventsFor(events[..n], q, a, k, m)
  {
    if n > 0 {
      FoundAreFor(events, timeout, q, a, k, m, n - 1);
      assert events[..n][..n - 1] == events[..n - 1];
      if events[n - 1].Send? {
        FoundThen(events, timeout, q, a, k, m, n - 1, events[n - 1].j);
      }
    }
  }

  lemma {:induction false} OfferedAreSent(events: seq<Event>, q: nat, a: Addr, k: nat, m: nat)
    ensures OfferedIn(EventsFor(events, q, a, k, m)) == SentTo(events, a, k, m)
    decreases |events|
  {
    if events != [] {
      var init, e := events[..|events| - 1], events[|events| - 1];
      var before := EventsFor(init, q, a, k, m);
      OfferedAreSent(init, q, a, k, m);
      assert before + [] == before;
      match e
      case Send(_, p) => assert (before + [Offered(p)])[..|before|] == before;
      case Receive(_) => assert (before + [Received])[..|before|] == before;
      case _ =>
    }
  }

  /**
    The packets taken from a queue and those waiting in it are all those sent by the writes that found it,
    in order, exactly if none of these was sent while 32 waited. That is so if never more than 32 of them
    were still to be received.
   */
  lemma AllSentAreTakenOrWaitIff(events: seq<Event>, timeout: int, q: nat) returns (a: Addr, k: nat, m: nat)
    requires q < |Run(events, timeout).queues|
    ensures Life(events, timeout, q, a, k, m)
    ensures var s, came := Run(events, timeout).queues[q], EventsFor(events, q, a, k, m);
            && (s.taken + s.items == SentTo(events, a, k, m) <==> !SomeCameToFull(came))
            && (BacklogWithin(came, 32) ==> !SomeCameToFull(came))
  {
    a, k, m := QueueLife(events, timeout, q);
    QueueIsRun(events, timeout, q);
    FoundAreFor(events, timeout, q, a, k, m, |events|);
    assert events[..|events|] == events;
    OfferedAreSent(events, q, a, k, m);
    var came := EventsFor(events, q, a, k, m);
    NoneIsMissingIff(came);
    if BacklogWithin(came, 32) {
      BacklogWaits(came);
    }
  }
}
