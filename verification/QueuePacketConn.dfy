/** A packet connection made of one incoming queue and one outgoing queue for each live client. */
module QueuePacketConn {
  import opened ClientMap
  import opened ClientTable
  import opened PacketQueues
  import opened Wrappers

  datatype Error = Closed | WouldBlock

  class QueuePacketConn {
    const clients: ClientMapInner
    const timeout: int
    var recvQueue: seq<(Packet, Addr)>
    var closed: bool

    ghost predicate Valid()
      reads this, clients, clients.byAge
    {
      clients.Valid() && |recvQueue| <= QUEUE_SIZE
    }

    constructor (timeout: int)
      ensures Valid() && clients.table == map[] && recvQueue == [] && !closed
      ensures fresh(clients) && this.timeout == timeout
    {
      this.clients := new ClientMapInner();
      this.timeout := timeout;
      recvQueue, closed := [], false;
    }

    /** The queue that packets for `addr` are put into at present. */
    method OutgoingQueue(addr: Addr, now: int) returns (queue: PacketQueue)
      requires Valid()
      modifies clients, clients.byAge
      ensures Valid() && clients.table == Touched(old(clients.table), addr, now, queue)
      ensures queue == clients.table[addr].queue
      ensures addr !in old(clients.table) ==> fresh(queue) && queue.State() == EMPTY_QUEUE
    {
      queue := clients.SendQueue(addr, now);
    }

    /** The packet is offered to the present queue of `addr` and to no other. */
    method WriteTo(p: Packet, addr: Addr, now: int) returns (r: Result<nat, Error>)
      requires Valid()
      modifies clients, clients.byAge, if addr in clients.table then {clients.table[addr].queue} else {}
      ensures Valid()
      ensures closed ==> r == Err(Closed) && clients.table == old(clients.table)
      ensures closed && addr in clients.table ==> unchanged(clients.table[addr].queue)
      ensures !closed ==>
        && r == Ok(|p|)
        && addr in clients.table
        && clients.table == Touched(old(clients.table), addr, now, clients.table[addr].queue)
      ensures !closed && addr in old(clients.table) ==>
        clients.table[addr].queue.State() == old(clients.table[addr].queue.State()).Offer(p)
      ensures !closed && addr !in old(clients.table) ==>
        fresh(clients.table[addr].queue) && clients.table[addr].queue.State() == EMPTY_QUEUE.Offer(p)
        && clients.table[addr].queue.items == [p]
    {
      if closed {
        return Err(Closed);
      }
      var queue := clients.SendQueue(addr, now);
      queue.Offer(p);
      r := Ok(|p|);
    }

    /** The sweep that a timer starts every half `timeout`. */
    method Sweep(now: int)
      requires Valid()
      modifies clients
      ensures Valid() && clients.table == Unexpired(old(clients.table), now, timeout)
    {
      clients.RemoveExpired(now, timeout);
    }

    method QueueIncoming(p: Packet, addr: Addr)
      requires Valid()
      modifies this`recvQueue
      ensures Valid()
      ensures recvQueue == if closed || old(|recvQueue|) >= QUEUE_SIZE then old(recvQueue)
                           else old(recvQueue) + [(p, addr)]
    {
      if closed {
        return;
      }
      if |recvQueue| < QUEUE_SIZE {
        recvQueue := recvQueue + [(p, addr)];
      }
    }

    /** Reads into a buffer of `size` bytes; what does not fit is cut off. */
    method ReadFrom(size: nat) returns (r: Result<(Packet, Addr), Error>)
      requires Valid()
      modifies this`recvQueue
      ensures Valid()
      ensures r.Err? ==> recvQueue == old(recvQueue) && r.error == if closed then Closed else WouldBlock
      ensures r.Err? <==> closed || old(recvQueue) == []
      ensures r.Ok? ==> var (p, addr) := old(recvQueue)[0];
                        [(p, addr)] + recvQueue == old(recvQueue) &&
                        r.value == (if |p| <= size then p else p[..size], addr)
    {
      if closed {
        return Err(Closed);
      }
      if recvQueue == [] {
        return Err(WouldBlock);
      }
      var (p, addr) := recvQueue[0];
      recvQueue := recvQueue[1..];
      r := Ok((if |p| <= size then p else p[..size], addr));
    }

    /** The first close wins; a later one reports that the connection is closed already. */
    method Close() returns (r: Result<(), Error>)
      requires Valid()
      modifies this`closed
      ensures Valid() && closed && r == if old(closed) then Err(Closed) else Ok(())
    {
      r := if closed then Err(Closed) else Ok(());
      closed := true;
    }
  }
}
