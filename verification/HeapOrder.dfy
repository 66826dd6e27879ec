/** The order of a binary heap laid out in a sequence, and what one swap does to it. */
module HeapOrder {

  function Parent(j: int): int {
    if j <= 0 then 0 else (j - 1) / 2
  }

  predicate OrderedAt(s: seq<int>, j: int)
    requires 0 <= j < |s|
  {
    s[Parent(j)] <= s[j]
  }

  predicate IsHeap(s: seq<int>) {
    forall j :: 0 <= j < |s| ==> OrderedAt(s, j)
  }

  /** Among the first `n` entries all are ordered but perhaps entry `up` and the children of `down`. */
  predicate OrderedBut(s: seq<int>, n: int, up: int, down: int)
    requires n <= |s|
  {
    forall j :: 0 <= j < n && j != up && Parent(j) != down ==> OrderedAt(s, j)
  }

  /** The children of `i` are no smaller than its parent. */
  predicate Bridged(s: seq<int>, n: int, i: int)
    requires n <= |s| && 0 <= i < |s|
  {
    forall j :: 0 < i && 0 < j < n && Parent(j) == i ==> s[Parent(i)] <= s[j]
  }

  function Swapped<T>(s: seq<T>, i: int, j: int): (t: seq<T>)
    requires 0 <= i < |s| && 0 <= j < |s|
    ensures |t| == |s| && t[i] == s[j] && t[j] == s[i]
    ensures forall k :: 0 <= k < |s| && k != i && k != j ==> t[k] == s[k]
  {
    s[i := s[j]][j := s[i]]
  }

  lemma SwapLeavesTail<T>(s: seq<T>, i: int, j: int, n: int)
    requires 0 <= i < n && 0 <= j < n && n <= |s|
    ensures Swapped(s, i, j)[n..] == s[n..]
  {
  }

  lemma SwapUp(s: seq<int>, j: int)
    requires 0 < j < |s| && s[j] < s[Parent(j)]
    requires OrderedBut(s, |s|, j, -1) && Bridged(s, |s|, j)
    ensures var i, t := Parent(j), Swapped(s, Parent(j), j);
            OrderedBut(t, |s|, i, -1) && Bridged(t, |s|, i)
  {
    var i, t := Parent(j), Swapped(s, Parent(j), j);
    assert OrderedAt(s, i) || i == 0;
    forall k | 0 <= k < |t| && k != i ensures OrderedAt(t, k) {
      if k != j {
        assert OrderedAt(s, k);
      }
    }
    forall k | 0 < i && 0 < k < |t| && Parent(k) == i ensures t[Parent(i)] <= t[k] {
      if k != j {
        assert OrderedAt(s, k);
      }
    }
  }

  /** `j` is the lesser of the one or two children of `i`. */
  predicate IsLesserChild(s: seq<int>, n: int, i: int, j: int)
    requires 0 <= i && 2 * i + 1 < n <= |s|
  {
    && (j == 2 * i + 1 || (j == 2 * i + 2 < n))
    && s[j] <= s[2 * i + 1]
    && (2 * i + 2 < n ==> s[j] <= s[2 * i + 2])
  }

  lemma SwapDown(s: seq<int>, n: int, i: int, j: int, up: int)
    requires 0 <= i && 2 * i + 1 < n <= |s| && IsLesserChild(s, n, i, j) && s[j] < s[i]
    requires (up == i || up == -1) && OrderedBut(s, n, up, i) && Bridged(s, n, i)
    ensures OrderedBut(Swapped(s, i, j), n, -1, j) && Bridged(Swapped(s, i, j), n, j)
  {
    var t := Swapped(s, i, j);
    forall k | 0 <= k < n && Parent(k) != j ensures OrderedAt(t, k) {
      if Parent(k) != i && k != i {
        assert OrderedAt(s, k);
      } else if Parent(k) == i {
        assert k == 0 || k == 2 * i + 1 || k == 2 * i + 2;
      }
    }
    forall k | 0 < k < n && Parent(k) == j ensures t[Parent(j)] <= t[k] {
      assert OrderedAt(s, k);
    }
  }

  /** A heap in which entry `e`, the last of `t` or one of `s`, was put or changed. */
  lemma OneEntryChanged(s: seq<int>, t: seq<int>, n: int, e: int)
    requires IsHeap(s) && 0 <= e < |t| && n <= |t| && (n <= |s| || (n == |s| + 1 && e == |s|))
    requires forall k :: 0 <= k < n && k != e ==> t[k] == s[k]
    ensures OrderedBut(t, n, e, e) && Bridged(t, n, e)
  {
    forall j | 0 <= j < n && j != e && Parent(j) != e ensures OrderedAt(t, j) {
      assert t[j] == s[j] && t[Parent(j)] == s[Parent(j)];
      assert OrderedAt(s, j);
    }
    forall j | 0 < e && 0 < j < n && Parent(j) == e ensures t[Parent(e)] <= t[j] {
      assert t[j] == s[j] && t[Parent(e)] == s[Parent(e)];
      assert OrderedAt(s, j) && OrderedAt(s, e);
    }
  }

  /** Where sifting down stops: the children of `i`, the first two of which were looked at, are in order. */
  lemma ChildrenInOrder(s: seq<int>, n: int, i: int, up: int)
    requires 0 <= i < |s| && n <= |s| && OrderedBut(s, n, up, i)
    requires 2 * i + 1 < n ==> s[i] <= s[2 * i + 1]
    requires 2 * i + 2 < n ==> s[i] <= s[2 * i + 2]
    ensures OrderedBut(s, n, up, -1)
  {
    forall j | 0 <= j < n && j != up ensures OrderedAt(s, j) {
      if Parent(j) == i {
        assert j == 0 || j == 2 * i + 1 || j == 2 * i + 2;
      }
    }
  }

  lemma HeapPrefix(s: seq<int>, t: seq<int>)
    requires |t| <= |s| && OrderedBut(s, |t|, -1, -1)
    requires forall k :: 0 <= k < |t| ==> t[k] == s[k]
    ensures IsHeap(t)
  {
    forall j | 0 <= j < |t| ensures OrderedAt(t, j) {
      assert OrderedAt(s, j);
    }
  }

  lemma {:induction false} RootIsLeast(s: seq<int>, j: int)
    requires IsHeap(s) && 0 <= j < |s|
    ensures s[0] <= s[j]
    decreases j
  {
    if j > 0 {
      assert OrderedAt(s, j);
      RootIsLeast(s, Parent(j));
    }
  }
}
