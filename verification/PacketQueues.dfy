/** Outgoing packet queues: a channel that holds a bounded number of packets. */
module PacketQueues {
  import opened Sequences

  type Packet = seq<int>

  const QUEUE_SIZE := 32

  /** The packets waiting in a queue, with all that were offered to it and all that were taken. */
  datatype QueueState = QueueState(items: seq<Packet>, offered: seq<Packet>, taken: seq<Packet>) {

    /** What was taken, then what waits, is what was offered less the packets dropped, in order. */
    ghost predicate Valid() {
      |items| <= QUEUE_SIZE && IsSubsequence(taken + items, offered)
    }

    /** A packet is dropped exactly when the queue is full. */
    function Offer(p: Packet): QueueState {
      QueueState(if |items| < QUEUE_SIZE then items + [p] else items, offered + [p], taken)
    }

    function Take(): QueueState
      requires items != []
    {
      QueueState(items[1..], offered, taken + [items[0]])
    }

    lemma OfferKeepsValid(p: Packet)
      requires Valid()
      ensures Offer(p).Valid()
    {
      if |items| < QUEUE_SIZE {
        SubsequenceKeep(taken + items, offered, p);
        assert taken + (items + [p]) == (taken + items) + [p];
      } else {
        SubsequenceSkip(taken + items, offered, p);
      }
    }

    lemma TakeKeepsValid()
      requires Valid() && items != []
      ensures Take().Valid()
    {
      assert taken + [items[0]] + items[1..] == taken + items;
    }
  }

  const EMPTY_QUEUE := QueueState([], [], [])

  datatype QueueEvent = Offered(p: Packet) | Received

  /** A run of sends and receives from a new queue; a receive on an empty queue waits, and so is no event. */
  function QueueRun(events: seq<QueueEvent>): QueueState {
    if events == [] then EMPTY_QUEUE else
      var s := QueueRun(events[..|events| - 1]);
      match events[|events| - 1]
      case Offered(p) => s.Offer(p)
      case Received => if s.items == [] then s else s.Take()
  }

  lemma {:induction false} RunIsValid(events: seq<QueueEvent>)
    ensures QueueRun(events).Valid()
    decreases |events|
  {
    if events != [] {
      RunIsValid(events[..|events| - 1]);
      var s := QueueRun(events[..|events| - 1]);
      match events[|events| - 1]
      case Offered(p) => s.OfferKeepsValid(p);
      case Received => if s.items != [] { s.TakeKeepsValid(); }
    }
  }

  /** After any run, what was taken is what was offered less the packets dropped, in order. */
  lemma TakenIsSubsequenceOfOffered(events: seq<QueueEvent>)
    ensures var s := QueueRun(events);
            IsSubsequence(s.taken, s.offered) && |s.items| <= QUEUE_SIZE
  {
    RunIsValid(events);
    var s := QueueRun(events);
    SubsequencePrefix(s.taken, s.items, s.offered);
  }

  // ---------- which packets are dropped ----------

  function OfferedIn(events: seq<QueueEvent>): seq<Packet> {
    if events == [] then []
    else
      var last := events[|events| - 1];
      OfferedIn(events[..|events| - 1]) + if last.Offered? then [last.p] else []
  }

  /** How many packets wait after the events, if a packet that finds 32 of them is dropped. */
  function WaitingIn(events: seq<QueueEvent>): nat {
    if events == [] then 0
    else
      var w := WaitingIn(events[..|events| - 1]);
      match events[|events| - 1]
      case Offered(_) => if w < 32 then w + 1 else w
      case Received => if w > 0 then w - 1 else w
  }

  /** The packets that came while fewer than 32 waited. */
  function KeptIn(events: seq<QueueEvent>): seq<Packet> {
    if events == [] then []
    else
      var init, last := events[..|events| - 1], events[|events| - 1];
      KeptIn(init) + if last.Offered? && WaitingIn(init) < 32 then [last.p] else []
  }

  /** A packet came while 32 waited. */
  predicate SomeCameToFull(events: seq<QueueEvent>) {
    events != [] &&
    var init := events[..|events| - 1];
    SomeCameToFull(init) || (events[|events| - 1].Offered? && WaitingIn(init) >= 32)
  }

  /** What was taken and what waits are exactly the packets that came while fewer than 32 waited, in order. */
  lemma {:induction false} KeptAreTakenOrWait(events: seq<QueueEvent>)
    ensures var s := QueueRun(events);
            s.taken + s.items == KeptIn(events) && |s.items| == WaitingIn(events) && s.offered == OfferedIn(events)
    decreases |events|
  {
    if events != [] {
      var init := events[..|events| - 1];
      KeptAreTakenOrWait(init);
      var s := QueueRun(init);
      match events[|events| - 1]
      case Offered(p) => assert s.taken + (s.items + [p]) == (s.taken + s.items) + [p];
      case Received =>
        assert s.items != [] ==> s.taken + [s.items[0]] + s.items[1..] == s.taken + s.items;
    }
  }

  lemma {:induction false} KeptAreFewer(events: seq<QueueEvent>)
    ensures SomeCameToFull(events) ==> |KeptIn(events)| < |OfferedIn(events)|
    ensures !SomeCameToFull(events) ==> KeptIn(events) == OfferedIn(events)
    ensures |KeptIn(events)| <= |OfferedIn(events)|
    decreases |events|
  {
    if events != [] {
      KeptAreFewer(events[..|events| - 1]);
    }
  }

  /** A packet is missing exactly if one came while 32 waited. */
  lemma NoneIsMissingIff(events: seq<QueueEvent>)
    ensures var s := QueueRun(events);
            s.taken + s.items == OfferedIn(events) <==> !SomeCameToFull(events)
  {
    KeptAreTakenOrWait(events);
    KeptAreFewer(events);
  }

  /** How many packets would wait after the events if none were ever dropped. */
  function Backlog(events: seq<QueueEvent>): nat {
    if events == [] then 0
    else
      var n := Backlog(events[..|events| - 1]);
      if events[|events| - 1].Offered? then n + 1 else if n > 0 then n - 1 else n
  }

  /** At no time. */
  predicate BacklogWithin(events: seq<QueueEvent>, limit: nat) {
    Backlog(events) <= limit && (events != [] ==> BacklogWithin(events[..|events| - 1], limit))
  }

  lemma {:induction false} BacklogWaits(events: seq<QueueEvent>)
    requires BacklogWithin(events, 32)
    ensures WaitingIn(events) == Backlog(events) && !SomeCameToFull(events)
    decreases |events|
  {
    if events != [] {
      BacklogWaits(events[..|events| - 1]);
    }
  }

  /** So as long as no more than 32 packets are to be received, each is received or waits, in order. */
  lemma NoneIsMissing(events: seq<QueueEvent>)
    requires BacklogWithin(events, 32)
    ensures var s := QueueRun(events);
            s.taken + s.items == OfferedIn(events)
  {
    BacklogWaits(events);
    NoneIsMissingIff(events);
  }

  /** A buffered channel of packets. */
  class PacketQueue {
    var items: seq<Packet>
    ghost var offered: seq<Packet>
    ghost var taken: seq<Packet>

    ghost function State(): QueueState
      reads this
    {
      QueueState(items, offered, taken)
    }

    constructor ()
      ensures State() == EMPTY_QUEUE
    {
      items, offered, taken := [], [], [];
    }

    /** A send that drops the packet when the queue is full. */
    method Offer(p: Packet)
      modifies this
      ensures State() == old(State()).Offer(p)
      ensures items == if old(|items|) < 32 then old(items) + [p] else old(items)
    {
      offered := offered + [p];
      if |items| < QUEUE_SIZE {
        items := items + [p];
      }
    }

    method Receive() returns (p: Packet)
      requires items != []
      modifies this
      ensures p == old(items[0]) && State() == old(State()).Take()
    {
      p, items := items[0], items[1..];
      taken := taken + [p];
    }
  }
}
