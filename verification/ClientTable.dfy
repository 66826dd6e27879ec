/** The plain table that the client map stands for: an address, the time it was last seen, its queue. */
module ClientTable {

  type Addr = seq<int>

  datatype Client<Q> = Client(lastSeen: int, queue: Q)

  type Table<Q> = map<Addr, Client<Q>>

  predicate Expired<Q>(c: Client<Q>, now: int, timeout: int) {
    now - c.lastSeen >= timeout
  }

  /** The table after `addr` was seen at `now`; `made` is the queue made if the address is new. */
  function Touched<Q>(m: Table<Q>, addr: Addr, now: int, made: Q): Table<Q> {
    m[addr := Client(now, if addr in m then m[addr].queue else made)]
  }

  /** The table without the clients that have timed out by `now`. */
  function Unexpired<Q>(m: Table<Q>, now: int, timeout: int): Table<Q> {
    map a | a in m && !Expired(m[a], now, timeout) :: m[a]
  }

  ghost predicate DistinctQueues<Q>(m: Table<Q>) {
    forall a, b :: a in m && b in m && a != b ==> m[a].queue != m[b].queue
  }

  lemma TouchedIsDistinct<Q>(m: Table<Q>, addr: Addr, now: int, made: Q)
    requires DistinctQueues(m) && (addr !in m ==> forall a :: a in m ==> m[a].queue != made)
    ensures DistinctQueues(Touched(m, addr, now, made))
  {
  }

  lemma DropExpired<Q>(m: Table<Q>, a: Addr, now: int, timeout: int)
    requires a in m && Expired(m[a], now, timeout)
    ensures Unexpired(m - {a}, now, timeout) == Unexpired(m, now, timeout)
  {
  }

  lemma NoneExpired<Q>(m: Table<Q>, now: int, timeout: int)
    requires forall a :: a in m ==> !Expired(m[a], now, timeout)
    ensures Unexpired(m, now, timeout) == m
  {
  }
}
