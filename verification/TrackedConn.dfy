/** The packet connection over its objects does what the runs on values say, step for step. */
module TrackedConn {
  import opened ClientTable
  import opened ConnRuns
  import opened PacketQueues
  import opened QueuePacketConn
  import opened Wrappers

  ghost predicate Numbered(view: Conn, made: seq<PacketQueue>, table: Table<PacketQueue>, a: Addr)
    requires a in table && table.Keys == view.table.Keys
  {
    var Client(lastSeen, q) := view.table[a];
    q < |made| && table[a] == Client(lastSeen, made[q])
  }

  /** `made` are all queues made, in order: `table` has them where `view` has their numbers. */
  ghost predicate Numbers(view: Conn, made: seq<PacketQueue>, table: Table<PacketQueue>) {
    && table.Keys == view.table.Keys
    && (forall a :: a in table ==> Numbered(view, made, table, a))
    && (forall i, j :: 0 <= i < j < |made| ==> made[i] != made[j])
  }

  /** The queues hold what the value says. */
  ghost predicate SaySo(view: Conn, made: seq<PacketQueue>)
    reads made
  {
    |view.queues| == |made| && forall i :: 0 <= i < |made| ==> made[i].State() == view.queues[i]
  }

  /** The value `view` and the queues `made` are those of connection `c`. */
  ghost predicate Tracks(c: QueuePacketConn, view: Conn, made: seq<PacketQueue>)
    reads c, c.clients, made
  {
    Numbers(view, made, c.clients.table) && SaySo(view, made)
  }

  /** A new connection is where the runs start. */
  method NewConn(timeout: int) returns (c: QueuePacketConn)
    ensures fresh(c) && c.Valid() && c.timeout == timeout && !c.closed
    ensures Tracks(c, NEW_CONN, [])
  {
    c := new QueuePacketConn(timeout);
  }

  /** Event `j` looked up this queue. */
  ghost predicate FoundBy(view: Conn, j: nat, made: seq<PacketQueue>, queue: PacketQueue) {
    j < |view.found| && view.found[j].Some? && view.found[j].value < |made| && made[view.found[j].value] == queue
  }

  lemma FoundStays(view: Conn, e: Event, timeout: int, j: nat, made: seq<PacketQueue>, more: seq<PacketQueue>,
                   queue: PacketQueue)
    requires FoundBy(view, j, made, queue)
    ensures FoundBy(Next(view, e, timeout), j, made + more, queue)
  {
  }

  ghost function MadeAfter(view: Conn, made: seq<PacketQueue>, addr: Addr, queue: PacketQueue): seq<PacketQueue> {
    if addr in view.table then made else made + [queue]
  }

  lemma NumbersFind(view: Conn, made: seq<PacketQueue>, table: Table<PacketQueue>, addr: Addr, now: int, timeout: int,
                    queue: PacketQueue)
    requires Numbers(view, made, table) && |view.queues| == |made|
    requires if addr in table then queue == table[addr].queue else queue !in made
    ensures Numbers(Next(view, Find(addr, now), timeout), MadeAfter(view, made, addr, queue),
                    Touched(table, addr, now, queue))
  {
    var view', made' := Next(view, Find(addr, now), timeout), MadeAfter(view, made, addr, queue);
    var table' := Touched(table, addr, now, queue);
    forall a | a in table' ensures Numbered(view', made', table', a) {
      assert a in table ==> Numbered(view, made, table, a);
    }
  }

  lemma NumbersSweep(view: Conn, made: seq<PacketQueue>, table: Table<PacketQueue>, now: int, timeout: int)
    requires Numbers(view, made, table)
    ensures Numbers(Next(view, Event.Sweep(now), timeout), made, Unexpired(table, now, timeout))
  {
    var view', table' := Next(view, Event.Sweep(now), timeout), Unexpired(table, now, timeout);
    assert forall a :: a in table ==> Numbered(view, made, table, a);
    assert table'.Keys == view'.table.Keys;
    forall a | a in table' ensures Numbered(view', made, table', a) {
      assert Numbered(view, made, table, a);
    }
  }

  lemma SaySoFind(view: Conn, made: seq<PacketQueue>, addr: Addr, now: int, timeout: int, queue: PacketQueue)
    requires SaySo(view, made) && (addr !in view.table ==> queue.State() == EMPTY_QUEUE)
    ensures SaySo(Next(view, Find(addr, now), timeout), MadeAfter(view, made, addr, queue))
  {
  }

  /** A lookup is event Find. */
  method OutgoingQueue(c: QueuePacketConn, addr: Addr, now: int, ghost view: Conn, ghost made: seq<PacketQueue>)
    returns (queue: PacketQueue, ghost view': Conn, ghost made': seq<PacketQueue>)
    requires c.Valid() && Tracks(c, view, made)
    modifies c.clients, c.clients.byAge
    ensures c.Valid() && Tracks(c, view', made')
    ensures view' == Next(view, Find(addr, now), c.timeout)
    ensures made' == MadeAfter(view, made, addr, queue) && queue == c.clients.table[addr].queue
    ensures FoundBy(view', |view.found|, made', queue)
  {
    ghost var table := c.clients.table;
    queue := c.OutgoingQueue(addr, now);
    assert SaySo(view, made);
    assert addr !in table ==> queue !in made;
    NumbersFind(view, made, table, addr, now, c.timeout, queue);
    SaySoFind(view, made, addr, now, c.timeout, queue);
    view', made' := Next(view, Find(addr, now), c.timeout), MadeAfter(view, made, addr, queue);
    assert Numbered(view', made', c.clients.table, addr);
  }

  /** The sweep is event Sweep. */
  method Sweep(c: QueuePacketConn, now: int, ghost view: Conn, ghost made: seq<PacketQueue>)
    returns (ghost view': Conn)
    requires c.Valid() && Tracks(c, view, made)
    modifies c.clients
    ensures c.Valid() && Tracks(c, view', made)
    ensures view' == Next(view, Event.Sweep(now), c.timeout)
  {
    c.Sweep(now);
    NumbersSweep(view, made, old(c.clients.table), now, c.timeout);
    view' := Next(view, Event.Sweep(now), c.timeout);
  }

  /** A receive is event Receive. */
  method Receive(queue: PacketQueue, timeout: int, ghost q: nat, ghost view: Conn, ghost made: seq<PacketQueue>,
                 ghost table: Table<PacketQueue>)
    returns (p: Packet, ghost view': Conn)
    requires Numbers(view, made, table) && SaySo(view, made)
    requires q < |made| && made[q] == queue && queue.items != []
    modifies queue
    ensures Numbers(view', made, table) && SaySo(view', made)
    ensures view' == Next(view, ConnRuns.Event.Receive(q), timeout) && p == old(queue.items[0])
  {
    p := queue.Receive();
    view' := Next(view, ConnRuns.Event.Receive(q), timeout);
    assert forall a :: a in table ==> Numbered(view, made, table, a);
    assert forall a :: a in table ==> Numbered(view', made, table, a);
  }

  lemma NumbersSend(view: Conn, made: seq<PacketQueue>, table: Table<PacketQueue>, j: nat, p: Packet, timeout: int)
    requires Numbers(view, made, table)
    ensures Numbers(Next(view, ConnRuns.Event.Send(j, p), timeout), made, table)
  {
    forall a | a in table ensures Numbered(Next(view, ConnRuns.Event.Send(j, p), timeout), made, table, a) {
      assert Numbered(view, made, table, a);
    }
  }

  /** The queue that the lookup of event `j` found gets the packet, whatever came in between: event Send. */
  method Send(queue: PacketQueue, p: Packet, timeout: int, ghost j: nat, ghost view: Conn, ghost made: seq<PacketQueue>,
              ghost table: Table<PacketQueue>)
    returns (ghost view': Conn)
    requires Numbers(view, made, table) && SaySo(view, made)
    requires FoundBy(view, j, made, queue)
    modifies queue
    ensures Numbers(view', made, table) && SaySo(view', made)
    ensures view' == Next(view, ConnRuns.Event.Send(j, p), timeout)
  {
    queue.Offer(p);
    view' := Next(view, ConnRuns.Event.Send(j, p), timeout);
    NumbersSend(view, made, table, j, p, timeout);
  }

  /** A write that nothing interrupts: the lookup, and then the send. */
  function Written(view: Conn, addr: Addr, now: int, p: Packet, timeout: int): Conn {
    Next(Next(view, Find(addr, now), timeout), ConnRuns.Event.Send(|view.found|, p), timeout)
  }

  /** What the objects say after a write, if `queue` alone was offered `p`. */
  lemma SaySoWrite(view: Conn, made: seq<PacketQueue>, addr: Addr, now: int, p: Packet, timeout: int,
                   queue: PacketQueue)
    requires |view.queues| == |made| && (addr in view.table ==> view.table[addr].queue < |made|)
    requires var q := if addr in view.table then view.table[addr].queue else |made|;
             && (forall i :: 0 <= i < |made| && i != q ==> made[i].State() == view.queues[i])
             && (q < |made| ==> queue == made[q])
             && queue.State() == (if q < |made| then view.queues[q] else EMPTY_QUEUE).Offer(p)
    ensures SaySo(Written(view, addr, now, p, timeout),
                  MadeAfter(view, made, addr, queue))
  {
    var found := Next(view, Find(addr, now), timeout);
    assert found.found[|view.found|] == Some(found.table[addr].queue);
  }

  lemma NumbersWrite(view: Conn, made: seq<PacketQueue>, table: Table<PacketQueue>, addr: Addr, now: int, p: Packet,
                     timeout: int, queue: PacketQueue)
    requires Numbers(view, made, table) && |view.queues| == |made|
    requires if addr in table then queue == table[addr].queue else queue !in made
    ensures Numbers(Written(view, addr, now, p, timeout),
                    MadeAfter(view, made, addr, queue), Touched(table, addr, now, queue))
  {
    NumbersFind(view, made, table, addr, now, timeout, queue);
    NumbersSend(Next(view, Find(addr, now), timeout), MadeAfter(view, made, addr, queue),
                Touched(table, addr, now, queue), |view.found|, p, timeout);
  }

  /** The queue that a write to `addr` offers to, by its number. */
  function NumberFor(view: Conn, addr: Addr): nat {
    if addr in view.table then view.table[addr].queue else |view.queues|
  }

  lemma WriteIsTracked(c: QueuePacketConn, view: Conn, made: seq<PacketQueue>, table: Table<PacketQueue>, addr: Addr,
                       now: int, p: Packet, timeout: int, queue: PacketQueue)
    requires Numbers(view, made, table) && |view.queues| == |made|
    requires c.clients.table == Touched(table, addr, now, queue)
    requires if addr in table then queue == table[addr].queue else queue !in made
    requires forall i :: 0 <= i < |made| && i != NumberFor(view, addr) ==> made[i].State() == view.queues[i]
    requires var q := NumberFor(view, addr);
             queue.State() == (if q < |made| then view.queues[q] else EMPTY_QUEUE).Offer(p)
    ensures Tracks(c, Written(view, addr, now, p, timeout), MadeAfter(view, made, addr, queue))
  {
    assert addr in table ==> Numbered(view, made, table, addr);
    NumbersWrite(view, made, table, addr, now, p, timeout, queue);
    SaySoWrite(view, made, addr, now, p, timeout, queue);
  }

  lemma OthersAreOthers(view: Conn, made: seq<PacketQueue>, table: Table<PacketQueue>, addr: Addr, i: nat)
    requires Numbers(view, made, table) && |view.queues| == |made| && i < |made| && i != NumberFor(view, addr)
    ensures addr in table ==> made[i] != table[addr].queue
  {
    assert addr in table ==> Numbered(view, made, table, addr);
  }

  /** What a write does to the queues made so far, if queue number `n` alone can be that of `addr`. */
  method WriteAndTell(c: QueuePacketConn, p: Packet, addr: Addr, now: int, ghost made: seq<PacketQueue>, ghost n: nat)
    returns (ghost queue: PacketQueue)
    requires c.Valid() && !c.closed
    requires forall i :: 0 <= i < |made| && i != n && addr in c.clients.table ==> made[i] != c.clients.table[addr].queue
    modifies c.clients, c.clients.byAge, if addr in c.clients.table then {c.clients.table[addr].queue} else {}
    ensures c.Valid() && c.clients.table == Touched(old(c.clients.table), addr, now, queue)
    ensures addr in old(c.clients.table) ==>
      queue == old(c.clients.table)[addr].queue && queue.State() == old(queue.State()).Offer(p)
    ensures addr !in old(c.clients.table) ==> queue !in made && queue.State() == EMPTY_QUEUE.Offer(p)
    ensures forall i :: 0 <= i < |made| && i != n ==> made[i].State() == old(made[i].State())
  {
    var _ := c.WriteTo(p, addr, now);
    queue := c.clients.table[addr].queue;
  }

  /** A write on an open connection is event Find and then event Send. */
  method WriteTo(c: QueuePacketConn, p: Packet, addr: Addr, now: int, ghost view: Conn, ghost made: seq<PacketQueue>)
    returns (ghost view': Conn, ghost made': seq<PacketQueue>)
    requires c.Valid() && !c.closed && Tracks(c, view, made)
    modifies c.clients, c.clients.byAge, if addr in c.clients.table then {c.clients.table[addr].queue} else {}
    ensures c.Valid() && Tracks(c, view', made')
    ensures view' == Written(view, addr, now, p, c.timeout)
  {
    ghost var table, n := c.clients.table, NumberFor(view, addr);
    forall i | 0 <= i < |made| && i != n && addr in table ensures made[i] != table[addr].queue {
      OthersAreOthers(view, made, table, addr, i);
    }
    assert addr in table ==> Numbered(view, made, table, addr);
    ghost var queue := WriteAndTell(c, p, addr, now, made, n);
    view', made' := Written(view, addr, now, p, c.timeout), MadeAfter(view, made, addr, queue);
    WriteIsTracked(c, view, made, table, addr, now, p, c.timeout, queue);
  }
}
