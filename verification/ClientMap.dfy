/** The client map: an array heap ordered by age together with an index from addresses into it. */
module ClientMap {
  import opened ClientTable
  import opened HeapOrder
  import opened PacketQueues

  /** What a client record says at some moment. */
  datatype Entry = Entry(addr: Addr, client: Client<PacketQueue>)

  class ClientRecord {
    const addr: Addr
    const sendQueue: PacketQueue
    var lastSeen: int

    constructor (addr: Addr, lastSeen: int, sendQueue: PacketQueue)
      ensures View() == Entry(addr, Client(lastSeen, sendQueue))
    {
      this.addr, this.lastSeen, this.sendQueue := addr, lastSeen, sendQueue;
    }

    function View(): Entry
      reads this
    {
      Entry(addr, Client(lastSeen, sendQueue))
    }
  }

  /** Entry `i` is indexed under its address, and the table says what it says. */
  ghost predicate InPlace(index: map<Addr, int>, entries: seq<Entry>, table: Table<PacketQueue>, i: int)
    requires 0 <= i < |entries|
  {
    var e := entries[i];
    e.addr in index && index[e.addr] == i && e.addr in table && table[e.addr] == e.client
  }

  /** The index leads from `a` to an entry for `a`. */
  ghost predicate Found(index: map<Addr, int>, entries: seq<Entry>, a: Addr)
    requires a in index
  {
    0 <= index[a] < |entries| && entries[index[a]].addr == a
  }

  /** `index` is the inverse of the addresses in `entries`, and `table` says what the entries say. */
  ghost predicate Agree(index: map<Addr, int>, entries: seq<Entry>, table: Table<PacketQueue>) {
    && |entries| == |index|
    && table.Keys == index.Keys
    && (forall i :: 0 <= i < |entries| ==> InPlace(index, entries, table, i))
    && (forall a {:trigger Found(index, entries, a)} :: a in index ==> Found(index, entries, a))
  }

  function Ages(entries: seq<Entry>): (s: seq<int>)
    ensures |s| == |entries|
  {
    seq(|entries|, i requires 0 <= i < |entries| => entries[i].client.lastSeen)
  }

  lemma AgreeSwap(index: map<Addr, int>, entries: seq<Entry>, table: Table<PacketQueue>, i: int, j: int)
    requires Agree(index, entries, table) && 0 <= i < |entries| && 0 <= j < |entries|
    ensures Agree(index[entries[j].addr := i][entries[i].addr := j], Swapped(entries, i, j), table)
    ensures Ages(Swapped(entries, i, j)) == Swapped(Ages(entries), i, j)
  {
    var entries' := Swapped(entries, i, j);
    var index' := index[entries[j].addr := i][entries[i].addr := j];
    assert InPlace(index, entries, table, i) && InPlace(index, entries, table, j);
    assert index'.Keys == index.Keys;
    assert |index'| == |index'.Keys| == |index.Keys| == |index|;
    forall k | 0 <= k < |entries'| ensures InPlace(index', entries', table, k) {
      assert InPlace(index, entries, table, k);
    }
    forall a | a in index' ensures Found(index', entries', a) {
      assert Found(index, entries, a);
    }
  }

  lemma AgreePush(index: map<Addr, int>, entries: seq<Entry>, table: Table<PacketQueue>, e: Entry)
    requires Agree(index, entries, table) && e.addr !in index
    ensures Agree(index[e.addr := |entries|], entries + [e], table[e.addr := e.client])
  {
    var index', entries', table' := index[e.addr := |entries|], entries + [e], table[e.addr := e.client];
    forall k | 0 <= k < |entries'| ensures InPlace(index', entries', table', k) {
      assert k < |entries| ==> InPlace(index, entries, table, k);
    }
    forall a | a in index' ensures Found(index', entries', a) {
      assert a in index ==> Found(index, entries, a);
    }
  }

  lemma AgreePop(index: map<Addr, int>, entries: seq<Entry>, table: Table<PacketQueue>)
    requires Agree(index, entries, table) && entries != []
    ensures var n := |entries| - 1;
            && Agree(index - {entries[n].addr}, entries[..n], table - {entries[n].addr})
            && entries[..n] + [entries[n]] == entries
  {
    var n := |entries| - 1;
    var index', table' := index - {entries[n].addr}, table - {entries[n].addr};
    assert InPlace(index, entries, table, n);
    assert index'.Keys == index.Keys - {entries[n].addr};
    assert |index'| == |index'.Keys| == |index.Keys| - 1;
    forall k | 0 <= k < n ensures InPlace(index', entries[..n], table', k) {
      assert InPlace(index, entries, table, k);
    }
    forall a | a in index' ensures Found(index', entries[..n], a) {
      assert Found(index, entries, a);
    }
  }

  lemma AgreeSee(index: map<Addr, int>, entries: seq<Entry>, table: Table<PacketQueue>, i: int, e: Entry)
    requires Agree(index, entries, table) && 0 <= i < |entries| && e.addr == entries[i].addr
    ensures Agree(index, entries[i := e], table[e.addr := e.client])
  {
    var entries', table' := entries[i := e], table[e.addr := e.client];
    assert InPlace(index, entries, table, i);
    forall k | 0 <= k < |entries'| ensures InPlace(index, entries', table', k) {
      assert InPlace(index, entries, table, k);
    }
    forall a | a in index ensures Found(index, entries', a) {
      assert Found(index, entries, a);
    }
  }

  class ClientMapInner {
    var byAge: seq<ClientRecord>
    var byAddr: map<Addr, int>
    /** What the records in `byAge` say, and the table they stand for. */
    ghost var entries: seq<Entry>
    ghost var table: Table<PacketQueue>

    /** The heap, the index and the table agree. */
    ghost predicate Indexed()
      reads this, byAge
    {
      && |byAge| == |entries|
      && (forall i :: 0 <= i < |byAge| ==> byAge[i].View() == entries[i])
      && Agree(byAddr, entries, table)
    }

    ghost predicate Valid()
      reads this, byAge
    {
      Indexed() && IsHeap(Ages(entries)) && DistinctQueues(table)
    }

    constructor ()
      ensures Valid() && table == map[]
    {
      byAge, byAddr, entries, table := [], map[], [], map[];
    }

    // ---------- heap.Interface ----------

    method Len() returns (n: nat)
      requires Indexed()
      ensures n == |byAge|
    {
      if |byAge| != |byAddr| {
        assert false;  // heap and index have the same size
      }
      n := |byAge|;
    }

    predicate Less(i: int, j: int)
      requires 0 <= i < |byAge| && 0 <= j < |byAge|
      reads this, byAge
    {
      byAge[i].lastSeen < byAge[j].lastSeen
    }

    method Swap(i: int, j: int)
      requires Indexed() && 0 <= i < |byAge| && 0 <= j < |byAge|
      modifies `byAge, `byAddr, `entries
      ensures Indexed() && entries == Swapped(old(entries), i, j)
      ensures Ages(entries) == Swapped(Ages(old(entries)), i, j)
    {
      AgreeSwap(byAddr, entries, table, i, j);
      byAge := byAge[i := byAge[j]][j := byAge[i]];
      byAddr := byAddr[byAge[i].addr := i];
      byAddr := byAddr[byAge[j].addr := j];
      entries := Swapped(entries, i, j);
    }

    method Push(record: ClientRecord)
      requires Indexed() && record.addr !in table
      modifies this
      ensures Indexed() && entries == old(entries) + [record.View()]
      ensures table == old(table)[record.addr := record.View().client]
    {
      if record.addr in byAddr {
        assert false;  // no address is added twice
      }
      AgreePush(byAddr, entries, table, record.View());
      byAddr := byAddr[record.addr := |byAge|];
      byAge := byAge + [record];
      entries, table := entries + [record.View()], table[record.addr := record.View().client];
    }

    method Pop() returns (record: ClientRecord)
      requires Indexed() && |byAge| > 0
      modifies this
      ensures Indexed() && entries + [record.View()] == old(entries) && table == old(table) - {record.addr}
    {
      var n := |byAddr|;
      AgreePop(byAddr, entries, table);
      record := byAge[n - 1];
      byAge := byAge[..n - 1];
      byAddr := byAddr - {record.addr};
      entries, table := entries[..n - 1], table - {record.addr};
    }

    // ---------- container/heap ----------

    method Up(j0: int)
      requires Indexed() && 0 <= j0 < |byAge|
      requires OrderedBut(Ages(entries), |byAge|, j0, -1) && Bridged(Ages(entries), |byAge|, j0)
      modifies `byAge, `byAddr, `entries
      ensures Indexed() && IsHeap(Ages(entries))
    {
      var j := j0;
      while true
        invariant Indexed() && 0 <= j < |byAge|
        invariant OrderedBut(Ages(entries), |byAge|, j, -1) && Bridged(Ages(entries), |byAge|, j)
        decreases j
      {
        var i := Parent(j);
        if i == j || !Less(j, i) {
          break;
        }
        SwapUp(Ages(entries), j);
        Swap(i, j);
        j := i;
      }
      assert OrderedAt(Ages(entries), j);
    }

    /** The child of `i` among the first `n` entries that was seen longest ago. */
    method LesserChild(i: int, n: nat) returns (j: int)
      requires Indexed() && 0 <= i && 2 * i + 1 < n <= |byAge|
      ensures 0 < j < n && Parent(j) == i
      ensures IsLesserChild(Ages(entries), n, i, j)
    {
      var j1 := 2 * i + 1;
      j := j1;
      var j2 := j1 + 1;
      if j2 < n && Less(j2, j1) {
        j := j2;
      }
    }

    /** Sifts entry `i0` down within the first `n` entries; says whether it moved. */
    method Down(i0: int, n: nat) returns (moved: bool)
      requires Indexed() && 0 <= i0 < |byAge| && n <= |byAge|
      requires OrderedBut(Ages(entries), n, i0, i0) && Bridged(Ages(entries), n, i0)
      modifies `byAge, `byAddr, `entries
      ensures Indexed() && |entries| == old(|entries|)
      ensures entries[n..] == old(entries[n..])
      ensures OrderedBut(Ages(entries), n, if moved then -1 else i0, -1)
      ensures !moved ==> entries == old(entries)
    {
      var i := i0;
      ghost var up := i0;
      while true
        invariant Indexed() && |entries| == old(|entries|)
        invariant entries[n..] == old(entries[n..])
        invariant i0 <= i < |byAge| && up == if i == i0 then i0 else -1
        invariant i == i0 ==> entries == old(entries)
        invariant OrderedBut(Ages(entries), n, up, i) && Bridged(Ages(entries), n, i)
        decreases |byAge| - i
      {
        var j1 := 2 * i + 1;
        if j1 >= n || j1 < 0 {
          break;
        }
        var j := LesserChild(i, n);
        if !Less(j, i) {
          break;
        }
        SwapDown(Ages(entries), n, i, j, up);
        SwapLeavesTail(entries, i, j, n);
        Swap(i, j);
        i, up := j, -1;
      }
      moved := i > i0;
      ChildrenInOrder(Ages(entries), n, i, up);
    }

    method HeapPush(record: ClientRecord)
      requires Indexed() && IsHeap(Ages(entries)) && record.addr !in table
      modifies this
      ensures Indexed() && IsHeap(Ages(entries))
      ensures table == old(table)[record.addr := record.View().client]
    {
      Push(record);
      var n := Len();
      OneEntryChanged(Ages(old(entries)), Ages(entries), n, n - 1);
      Up(n - 1);
    }

    method HeapPop() returns (record: ClientRecord)
      requires Indexed() && IsHeap(Ages(entries)) && |byAge| > 0
      modifies this
      ensures Indexed() && IsHeap(Ages(entries)) && |byAge| == old(|byAge|) - 1
      ensures record.View() == old(byAge[0].View()) && table == old(table) - {record.addr}
    {
      var n := Len();
      n := n - 1;
      Swap(0, n);
      OneEntryChanged(Ages(old(entries)), Ages(entries), n, 0);
      var _ := Down(0, n);
      assert entries[n] == entries[n..][0];
      ghost var sifted := Ages(entries);
      record := Pop();
      HeapPrefix(sifted, Ages(entries));
    }

    method HeapFix(i: int)
      requires Indexed() && 0 <= i < |byAge|
      requires OrderedBut(Ages(entries), |byAge|, i, i) && Bridged(Ages(entries), |byAge|, i)
      modifies `byAge, `byAddr, `entries
      ensures Indexed() && IsHeap(Ages(entries))
    {
      var n := Len();
      var moved := Down(i, n);
      if !moved {
        Up(i);
      }
    }

    // ---------- the client map itself ----------

    method RemoveExpired(now: int, timeout: int)
      requires Valid()
      modifies this
      ensures Valid() && table == Unexpired(old(table), now, timeout)
    {
      while true
        invariant Valid() && Unexpired(table, now, timeout) == Unexpired(old(table), now, timeout)
        decreases |byAge|
      {
        var n := Len();
        if n == 0 || now - byAge[0].lastSeen < timeout {
          break;
        }
        assert InPlace(byAddr, entries, table, 0);
        DropExpired(table, byAge[0].addr, now, timeout);
        var _ := HeapPop();
      }
      forall a | a in table ensures !Expired(table[a], now, timeout) {
        assert Found(byAddr, entries, a) && InPlace(byAddr, entries, table, byAddr[a]);
        RootIsLeast(Ages(entries), byAddr[a]);
      }
      NoneExpired(table, now, timeout);
    }

    /** Records that the client at heap index `i` was seen. */
    method See(i: int, now: int)
      requires Indexed() && IsHeap(Ages(entries)) && 0 <= i < |byAge|
      modifies this, byAge[i]
      ensures Indexed() && IsHeap(Ages(entries))
      ensures table == old(table)[old(byAge[i]).addr := Client(now, old(byAge[i]).sendQueue)]
    {
      var record := byAge[i];
      forall k | 0 <= k < |byAge| && k != i ensures byAge[k] != record {
        assert InPlace(byAddr, entries, table, k) && InPlace(byAddr, entries, table, i);
      }
      AgreeSee(byAddr, entries, table, i, entries[i].(client := Client(now, record.sendQueue)));
      record.lastSeen := now;
      entries, table := entries[i := record.View()], table[record.addr := record.View().client];
      OneEntryChanged(Ages(old(entries)), Ages(entries), |byAge|, i);
      HeapFix(i);
    }

    method SendQueue(addr: Addr, now: int) returns (queue: PacketQueue)
      requires Valid()
      modifies this, byAge
      ensures Valid() && table == Touched(old(table), addr, now, queue)
      ensures queue == table[addr].queue
      ensures addr !in old(table) ==> fresh(queue) && queue.State() == EMPTY_QUEUE
    {
      var record: ClientRecord;
      if addr in byAddr {
        var i := byAddr[addr];
        assert Found(byAddr, entries, addr) && InPlace(byAddr, entries, table, i);
        record := byAge[i];
        See(i, now);
      } else {
        var made := new PacketQueue();
        record := new ClientRecord(addr, now, made);
        HeapPush(record);
      }
      queue := record.sendQueue;
      TouchedIsDistinct(old(table), addr, now, queue);
    }
  }
}
