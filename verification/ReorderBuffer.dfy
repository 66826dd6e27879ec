/** The buffer that puts the frames of one connection back in order. */
module ReorderBuffer {
  import opened Bytes
  import opened FtpFrames

  /** `pending` counts the timeout flushes that are scheduled or under way; `out` is all that was delivered. */
  datatype State = State(next: u32, held: seq<Frame>, timer: bool, pending: nat, out: seq<Frame>)

  const INITIAL := State(1, [], false, 0, [])

  predicate SortedBySeq(fs: seq<Frame>) {
    forall i, j :: 0 <= i < j < |fs| ==> fs[i].seqNo <= fs[j].seqNo
  }

  predicate StrictlyIncreasing(fs: seq<Frame>) {
    forall i, j :: 0 <= i < j < |fs| ==> fs[i].seqNo < fs[j].seqNo
  }

  function Deliver(s: State, f: Frame): State {
    s.(next := ToU32(f.seqNo + 1), out := s.out + [f])
  }

  function FlushContiguous(s: State): State
    decreases |s.held|
  {
    if s.held != [] && s.held[0].seqNo == s.next
    then FlushContiguous(Deliver(s, s.held[0]).(held := s.held[1..]))
    else s
  }

  function FlushAll(s: State): State
    decreases |s.held|
  {
    if s.held == [] then s else FlushAll(Deliver(s, s.held[0]).(held := s.held[1..]))
  }

  /** What stopping the timer leaves: `stopped` says whether the stop came in time. */
  function StopIfEmpty(s: State, stopped: bool): State {
    if s.timer && s.held == []
    then s.(timer := false, pending := if stopped && s.pending > 0 then s.pending - 1 else s.pending)
    else s
  }

  function TimeoutFlush(s: State): State {
    FlushAll(s.(timer := false, pending := if s.pending > 0 then s.pending - 1 else 0))
  }

  /** One arrival. The library sort may put frames with equal numbers in either order. */
  ghost predicate Pushes(s: State, f: Frame, stopped: bool, t: State) {
    if f.seqNo < s.next then t == s
    else if f.seqNo == s.next then t == StopIfEmpty(FlushContiguous(Deliver(s, f)), stopped)
    else
      && SortedBySeq(t.held)
      && multiset(t.held) == multiset(s.held + [f])
      && t == s.(held := t.held, timer := true, pending := if s.timer then s.pending else s.pending + 1)
  }

  lemma MultisetInsert<T>(a: seq<T>, x: T, b: seq<T>)
    ensures multiset(a + [x] + b) == multiset(a + b) + multiset{x}
  {
    assert multiset(a + [x] + b) == multiset(a) + multiset{x} + multiset(b);
  }

  lemma InsertSorted(a: seq<Frame>, f: Frame, b: seq<Frame>)
    requires SortedBySeq(a) && SortedBySeq(b)
    requires forall i :: 0 <= i < |a| ==> a[i].seqNo <= f.seqNo
    requires forall i :: 0 <= i < |b| ==> f.seqNo < b[i].seqNo
    ensures SortedBySeq(a + [f] + b)
  {
    var r, k := a + [f] + b, |a|;
    forall i, j | 0 <= i < j < |r| ensures r[i].seqNo <= r[j].seqNo {
      assert r[i] == if i < k then a[i] else if i == k then f else b[i - k - 1];
      assert r[j] == if j < k then a[j] else if j == k then f else b[j - k - 1];
    }
  }

  lemma PartsSorted(fs: seq<Frame>, f: Frame, k: nat)
    requires SortedBySeq(fs) && k <= |fs| && (k > 0 ==> fs[k - 1].seqNo <= f.seqNo)
    ensures SortedBySeq(fs[..k]) && SortedBySeq(fs[k..])
    ensures forall i :: 0 <= i < k ==> fs[..k][i].seqNo <= f.seqNo
  {
  }

  lemma InsertAt(fs: seq<Frame>, f: Frame, k: nat)
    requires SortedBySeq(fs) && k <= |fs| && (k > 0 ==> fs[k - 1].seqNo <= f.seqNo)
    requires forall i :: k <= i < |fs| ==> f.seqNo < fs[i].seqNo
    ensures SortedBySeq(fs[..k] + [f] + fs[k..])
    ensures multiset(fs[..k] + [f] + fs[k..]) == multiset(fs) + multiset{f}
  {
    var a, b := fs[..k], fs[k..];
    PartsSorted(fs, f, k);
    InsertSorted(a, f, b);
    MultisetInsert(a, f, b);
    assert a + b == fs;
  }

  /** One turn of an insertion sort. */
  method InsertFrame(sorted: seq<Frame>, f: Frame) returns (r: seq<Frame>)
    requires SortedBySeq(sorted)
    ensures SortedBySeq(r) && multiset(r) == multiset(sorted) + multiset{f}
  {
    var k := |sorted|;
    while k > 0 && sorted[k - 1].seqNo > f.seqNo
      invariant 0 <= k <= |sorted|
      invariant forall i :: k <= i < |sorted| ==> f.seqNo < sorted[i].seqNo
    {
      k := k - 1;
    }
    InsertAt(sorted, f, k);
    r := sorted[..k] + [f] + sorted[k..];
  }

  /** Stands for the library sort: callers rely on its contract alone. */
  method SortFrames(fs: seq<Frame>) returns (sorted: seq<Frame>)
    ensures SortedBySeq(sorted) && multiset(sorted) == multiset(fs)
  {
    sorted := [];
    for n := 0 to |fs|
      invariant SortedBySeq(sorted) && multiset(sorted) == multiset(fs[..n])
    {
      assert fs[..n + 1] == fs[..n] + [fs[n]];
      sorted := InsertFrame(sorted, fs[n]);
    }
    assert fs[..|fs|] == fs;
  }

  class ReorderBuffer {
    var nextExpected: u32
    var held: seq<Frame>
    var timer: bool
    ghost var pending: nat
    var out: seq<Frame>

    ghost function View(): State
      reads this
    {
      State(nextExpected, held, timer, pending, out)
    }

    constructor ()
      ensures View() == INITIAL
    {
      nextExpected, held, timer, pending, out := 1, [], false, 0, [];
    }

    method DeliverFrame(f: Frame)
      modifies `nextExpected, `out
      ensures View() == Deliver(old(View()), f)
    {
      nextExpected := ToU32(f.seqNo + 1);
      out := out + [f];
    }

    method FlushHeldInOrder()
      modifies `nextExpected, `held, `out
      ensures View() == FlushContiguous(old(View()))
    {
      while |held| > 0 && held[0].seqNo == nextExpected
        invariant FlushContiguous(View()) == FlushContiguous(old(View()))
        decreases |held|
      {
        DeliverFrame(held[0]);
        held := held[1..];
      }
    }

    method Push(f: Frame, stopped: bool)
      modifies this
      ensures Pushes(old(View()), f, stopped, View())
    {
      if f.seqNo < nextExpected {
        return;
      }
      if f.seqNo == nextExpected {
        DeliverFrame(f);
        FlushHeldInOrder();
        if timer && |held| == 0 {
          pending := if stopped && pending > 0 then pending - 1 else pending;
          timer := false;
        }
        return;
      }
      held := SortFrames(held + [f]);
      if !timer {
        timer, pending := true, pending + 1;
      }
    }

    method FlushOnTimeout()
      modifies this
      ensures View() == TimeoutFlush(old(View()))
    {
      timer, pending := false, if pending > 0 then pending - 1 else 0;
      while |held| > 0
        invariant FlushAll(View()) == TimeoutFlush(old(View()))
        decreases |held|
      {
        DeliverFrame(held[0]);
        held := held[1..];
      }
    }
  }
}
