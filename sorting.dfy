/**
 * `Array.prototype.sort(compareFn)` on an array, in place.  A comparator
 * returns a number; a negative result puts its first argument first.  A
 * comparator that yields NaN is read as 0, as ECMAScript's SortCompare
 * does, so callers supply `cmp` with that reading already applied.
 */
module Sorting {

  /** No pair of positions is out of order under `cmp`. */
  ghost predicate Sorted<T>(s: seq<T>, cmp: (T, T) -> int) {
    forall i, j :: 0 <= i < j < |s| ==> cmp(s[i], s[j]) <= 0
  }

  /**
   * `cmp` is a consistent comparator on the values occurring in `s`: any
   * two are ordered one way or the other, and "not after" is transitive.
   * Only then is the outcome of a sort determined up to ties.
   */
  ghost predicate TotalPreorderOn<T>(cmp: (T, T) -> int, s: seq<T>) {
    && (forall x, y :: x in s && y in s && cmp(x, y) > 0 ==> cmp(y, x) <= 0)
    && (forall x, y, z :: x in s && y in s && z in s && cmp(x, y) <= 0 && cmp(y, z) <= 0 ==> cmp(x, z) <= 0)
  }

  /** A permutation has the same values, so consistency carries over. */
  lemma PreorderOnPermutation<T>(cmp: (T, T) -> int, s0: seq<T>, s: seq<T>)
    requires multiset(s) == multiset(s0)
    requires TotalPreorderOn(cmp, s0)
    ensures TotalPreorderOn(cmp, s)
  {
    forall x | x in s ensures x in s0 {
      assert x in multiset(s);
    }
  }

  /**
   * `perm` says where each element of `s` came from in `s0`: position `k`
   * of `s` holds the element at position `perm[k]` of `s0`, and no source
   * position is used twice.
   */
  ghost predicate Arrangement<T>(s0: seq<T>, s: seq<T>, perm: seq<int>) {
    && |perm| == |s| == |s0|
    && (forall k {:trigger perm[k]} :: 0 <= k < |s| ==> 0 <= perm[k] < |s0| && s[k] == s0[perm[k]])
    && (forall k, l :: 0 <= k < l < |s| ==> perm[k] != perm[l])
  }

  /**
   * Stability: two elements end up in the reverse of their input order
   * only when `cmp` puts the one that came first after the other, so
   * elements `cmp` calls equal keep their input order.
   */
  ghost predicate KeepsTies<T>(s: seq<T>, perm: seq<int>, cmp: (T, T) -> int) {
    |perm| == |s| &&
    forall k, l :: 0 <= k < l < |s| && perm[l] < perm[k] ==> cmp(s[l], s[k]) > 0
  }

  /** The identity arrangement, before anything moves. */
  lemma ArrangementStart<T>(s: seq<T>, cmp: (T, T) -> int) returns (perm: seq<int>)
    ensures Arrangement(s, s, perm) && KeepsTies(s, perm, cmp)
  {
    perm := seq(|s|, k => k);
  }

  /** Swapping two neighbours that `cmp` says are out of order keeps the record and stability. */
  lemma SwapKeepsTies<T>(s0: seq<T>, s: seq<T>, perm: seq<int>, cmp: (T, T) -> int, j: int)
    requires Arrangement(s0, s, perm) && KeepsTies(s, perm, cmp)
    requires 0 < j < |s| && cmp(s[j - 1], s[j]) > 0
    ensures Arrangement(s0, Swap(s, j - 1, j), Swap(perm, j - 1, j))
    ensures KeepsTies(Swap(s, j - 1, j), Swap(perm, j - 1, j), cmp)
  {
    var s', perm' := Swap(s, j - 1, j), Swap(perm, j - 1, j);
    forall k, l | 0 <= k < l < |s'| && perm'[l] < perm'[k] ensures cmp(s'[l], s'[k]) > 0 {
      var k' := if k == j - 1 then j else if k == j then j - 1 else k;
      var l' := if l == j - 1 then j else if l == j then j - 1 else l;
      if !(k == j - 1 && l == j) {
        assert k' < l' && s'[k] == s[k'] && s'[l] == s[l'] && perm'[k] == perm[k'] && perm'[l] == perm[l'];
      }
    }
    forall k, l | 0 <= k < l < |s'| ensures perm'[k] != perm'[l] {
      var k' := if k == j - 1 then j else if k == j then j - 1 else k;
      var l' := if l == j - 1 then j else if l == j then j - 1 else l;
      assert k' != l' && perm'[k] == perm[k'] && perm'[l] == perm[l'];
    }
  }

  /** When `cmp` calls every pair of elements equal, a stable arrangement moves nothing. */
  lemma AllTiedKeepsOrder<T>(s0: seq<T>, s: seq<T>, perm: seq<int>, cmp: (T, T) -> int)
    requires Arrangement(s0, s, perm) && KeepsTies(s, perm, cmp)
    requires forall x, y :: x in s0 && y in s0 ==> cmp(x, y) == 0
    ensures s == s0
  {
    forall k, l | 0 <= k < l < |s| ensures perm[k] < perm[l] {
      assert s0[perm[k]] == s[k] && s0[perm[l]] == s[l];
    }
    forall k | 0 <= k < |s| ensures s[k] == s0[k] {
      AtLeastIndex(perm, k);
      AtMostIndex(perm, k);
      assert s[k] == s0[perm[k]];
    }
    assert |s| == |s0|;
  }

  /** In a strictly increasing sequence of naturals, the value at `k` is at least `k`. */
  lemma {:induction false} AtLeastIndex(perm: seq<int>, k: int)
    requires 0 <= k < |perm|
    requires forall m :: 0 <= m < |perm| ==> 0 <= perm[m]
    requires forall m, n :: 0 <= m < n < |perm| ==> perm[m] < perm[n]
    ensures perm[k] >= k
    decreases k
  {
    if k > 0 {
      AtLeastIndex(perm, k - 1);
    }
  }

  /** In a strictly increasing sequence below its length, the value at `k` is at most `k`. */
  lemma {:induction false} AtMostIndex(perm: seq<int>, k: int)
    requires 0 <= k < |perm|
    requires forall m :: 0 <= m < |perm| ==> perm[m] < |perm|
    requires forall m, n :: 0 <= m < n < |perm| ==> perm[m] < perm[n]
    ensures perm[k] <= k
    decreases |perm| - k
  {
    if k < |perm| - 1 {
      AtMostIndex(perm, k + 1);
    }
  }

  function Swap<T>(s: seq<T>, i: int, j: int): (r: seq<T>)
    requires 0 <= i < |s| && 0 <= j < |s|
    ensures |r| == |s|
  {
    s[i := s[j]][j := s[i]]
  }

  lemma SwapPermutes<T>(s: seq<T>, i: int, j: int)
    requires 0 <= i < j < |s|
    ensures multiset(Swap(s, i, j)) == multiset(s)
  {
    var t := s[i := s[j]];
    assert multiset(t) == multiset(s) - multiset{s[i]} + multiset{s[j]};
  }

  /** The first `n` positions of `s` are in order. */
  ghost predicate SortedPrefix<T>(s: seq<T>, cmp: (T, T) -> int, n: int) {
    forall k, l :: 0 <= k < l < n && l < |s| ==> cmp(s[k], s[l]) <= 0
  }

  /**
   * While the element that started at position `i` sinks to position `j`:
   * positions `0..i` ignoring `j` are in order, and the sinking element is
   * not after anything to its right.
   */
  ghost predicate Sinking<T>(s: seq<T>, cmp: (T, T) -> int, i: int, j: int) {
    && 0 <= j <= i < |s|
    && (forall k, l :: 0 <= k < l <= i && k != j && l != j ==> cmp(s[k], s[l]) <= 0)
    && (forall l :: j < l <= i ==> cmp(s[j], s[l]) <= 0)
  }

  lemma SinkStart<T>(s: seq<T>, cmp: (T, T) -> int, i: int)
    requires 0 <= i < |s| && SortedPrefix(s, cmp, i)
    ensures Sinking(s, cmp, i, i)
  {
  }

  /** Swapping the sinking element with a left neighbour that must come after it. */
  lemma SinkStep<T>(s: seq<T>, cmp: (T, T) -> int, i: int, j: int)
    requires TotalPreorderOn(cmp, s)
    requires Sinking(s, cmp, i, j) && 0 < j && cmp(s[j - 1], s[j]) > 0
    ensures Sinking(Swap(s, j - 1, j), cmp, i, j - 1)
  {
    assert s[j - 1] in s && s[j] in s;
  }

  /** The sinking element has stopped: the prefix up to `i` is in order. */
  lemma SinkDone<T>(s: seq<T>, cmp: (T, T) -> int, i: int, j: int)
    requires TotalPreorderOn(cmp, s)
    requires Sinking(s, cmp, i, j) && (j == 0 || cmp(s[j - 1], s[j]) <= 0)
    ensures SortedPrefix(s, cmp, i + 1)
  {
    if 0 < j {
      forall k | 0 <= k < j - 1 ensures cmp(s[k], s[j]) <= 0 {
        assert s[k] in s && s[j - 1] in s && s[j] in s;
      }
    }
  }

  /**
   * The state of `Sink`'s loop over the array's contents `s`: the contents
   * are a permutation of `s0`, the sinking element is at `j`, and `perm`
   * still records a stable arrangement of `orig`.
   */
  ghost predicate SinkState<T>(s0: seq<T>, orig: seq<T>, s: seq<T>, perm: seq<int>, cmp: (T, T) -> int, i: int, j: int, ok: bool) {
    && 0 <= j <= i < |s|
    && multiset(s) == multiset(s0)
    && (ok ==> TotalPreorderOn(cmp, s0) && Sinking(s, cmp, i, j))
    && Arrangement(orig, s, perm) && KeepsTies(s, perm, cmp)
  }

  /** One swap of the sinking element with its left neighbour. */
  lemma SinkStateStep<T>(s0: seq<T>, orig: seq<T>, s: seq<T>, perm: seq<int>, cmp: (T, T) -> int, i: int, j: int, ok: bool)
    requires SinkState(s0, orig, s, perm, cmp, i, j, ok)
    requires 0 < j && cmp(s[j - 1], s[j]) > 0
    ensures SinkState(s0, orig, Swap(s, j - 1, j), Swap(perm, j - 1, j), cmp, i, j - 1, ok)
  {
    if ok {
      PreorderOnPermutation(cmp, s0, s);
      SinkStep(s, cmp, i, j);
    }
    SwapKeepsTies(orig, s, perm, cmp, j);
    SwapPermutes(s, j - 1, j);
  }

  /** The sinking element has stopped. */
  lemma SinkStateDone<T>(s0: seq<T>, orig: seq<T>, s: seq<T>, perm: seq<int>, cmp: (T, T) -> int, i: int, j: int, ok: bool)
    requires SinkState(s0, orig, s, perm, cmp, i, j, ok)
    requires j == 0 || cmp(s[j - 1], s[j]) <= 0
    ensures multiset(s) == multiset(s0)
    ensures ok ==> SortedPrefix(s, cmp, i + 1)
    ensures Arrangement(orig, s, perm) && KeepsTies(s, perm, cmp)
  {
    if ok {
      PreorderOnPermutation(cmp, s0, s);
      SinkDone(s, cmp, i, j);
    }
  }

  /** Moves `a[i]` left past every neighbour that `cmp` puts after it. */
  method Sink<T(==)>(a: array<T>, cmp: (T, T) -> int, i: int, ghost ok: bool, ghost orig: seq<T>, ghost perm: seq<int>)
    returns (ghost perm': seq<int>)
    requires 0 <= i < a.Length
    requires ok ==> TotalPreorderOn(cmp, a[..]) && SortedPrefix(a[..], cmp, i)
    requires Arrangement(orig, a[..], perm) && KeepsTies(a[..], perm, cmp)
    modifies a
    ensures multiset(a[..]) == old(multiset(a[..]))
    ensures ok ==> SortedPrefix(a[..], cmp, i + 1)
    ensures Arrangement(orig, a[..], perm') && KeepsTies(a[..], perm', cmp)
  {
    ghost var s0 := a[..];
    if ok { SinkStart(s0, cmp, i); }
    perm' := perm;
    var j := i;
    while 0 < j && cmp(a[j - 1], a[j]) > 0
      invariant SinkState(s0, orig, a[..], perm', cmp, i, j, ok)
    {
      ghost var before := a[..];
      SinkStateStep(s0, orig, before, perm', cmp, i, j, ok);
      a[j - 1], a[j] := a[j], a[j - 1];
      assert a[..] == Swap(before, j - 1, j);
      perm' := Swap(perm', j - 1, j);
      j := j - 1;
    }
    SinkStateDone(s0, orig, a[..], perm', cmp, i, j, ok);
  }

  /**
   * Insertion sort: every element in turn sinks into the sorted prefix.
   * The result is always a permutation, and it is sorted whenever the
   * comparator is consistent on the elements.  An element moves left only
   * past a neighbour `cmp` puts after it, so the sort is stable: `perm`
   * records where each element came from, and elements that `cmp` calls
   * equal keep their input order.
   */
  method SortInPlace<T(==)>(a: array<T>, cmp: (T, T) -> int) returns (ghost perm: seq<int>)
    modifies a
    ensures multiset(a[..]) == old(multiset(a[..]))
    ensures TotalPreorderOn(cmp, old(a[..])) ==> Sorted(a[..], cmp)
    ensures Arrangement(old(a[..]), a[..], perm) && KeepsTies(a[..], perm, cmp)
  {
    ghost var s0 := a[..];
    ghost var ok := TotalPreorderOn(cmp, s0);
    perm := ArrangementStart(s0, cmp);
    var i := 0;
    while i < a.Length
      invariant 0 <= i <= a.Length
      invariant multiset(a[..]) == multiset(s0)
      invariant ok ==> SortedPrefix(a[..], cmp, i)
      invariant Arrangement(s0, a[..], perm) && KeepsTies(a[..], perm, cmp)
    {
      if ok { PreorderOnPermutation(cmp, s0, a[..]); }
      perm := Sink(a, cmp, i, ok, s0, perm);
      i := i + 1;
    }
    assert ok ==> SortedPrefix(a[..], cmp, a.Length);
  }
}
