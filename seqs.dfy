/**
 * Sequence operations shared by the pipeline: `Array.prototype.filter`,
 * the de-duplication of a `Set` in first-appearance order, and the
 * "order-preserving subsequence" relation used to state that a filter
 * keeps the relative order of what it keeps.
 */
module Seqs {

  /** `r` can be obtained from `s` by deleting elements, without reordering. */
  ghost predicate IsSubseq<T>(r: seq<T>, s: seq<T>)
    decreases |s|
  {
    if r == [] then true
    else if s == [] then false
    else (r[|r| - 1] == s[|s| - 1] && IsSubseq(r[..|r| - 1], s[..|s| - 1])) || IsSubseq(r, s[..|s| - 1])
  }

  /** `s.filter(p)`: the elements satisfying `p`, in their original order. */
  function Filter<T(==, !new)>(s: seq<T>, p: T -> bool): (r: seq<T>)
    ensures |r| <= |s|
    ensures forall x :: multiset(r)[x] == if p(x) then multiset(s)[x] else 0
    ensures forall x :: x in r <==> x in s && p(x)
    ensures IsSubseq(r, s)
    decreases |s|
  {
    if s == [] then []
    else
      var init, last := s[..|s| - 1], s[|s| - 1];
      var r0 := Filter(init, p);
      var r := if p(last) then r0 + [last] else r0;
      FilterStep(s, p, init, last, r0, r);
      r
  }

  /** The inductive step of `Filter`'s contract: appending one element. */
  lemma FilterStep<T(!new)>(s: seq<T>, p: T -> bool, init: seq<T>, last: T, r0: seq<T>, r: seq<T>)
    requires s == init + [last]
    requires forall x :: multiset(r0)[x] == if p(x) then multiset(init)[x] else 0
    requires IsSubseq(r0, init)
    requires r == if p(last) then r0 + [last] else r0
    ensures forall x :: multiset(r)[x] == if p(x) then multiset(s)[x] else 0
    ensures forall x :: x in r <==> x in s && p(x)
    ensures IsSubseq(r, s)
  {
    assert multiset(s) == multiset(init) + multiset{last};
    if p(last) {
      assert multiset(r) == multiset(r0) + multiset{last};
      assert r[..|r| - 1] == r0;
      assert s[..|s| - 1] == init;
    } else if r0 != [] {
      assert s[..|s| - 1] == init;
    }
    forall x ensures x in r <==> x in s && p(x) {
      assert x in r <==> multiset(r)[x] > 0;
      assert x in s <==> multiset(s)[x] > 0;
    }
  }

  /** Every sequence is a subsequence of itself. */
  lemma {:induction false} SubseqReflexive<T>(s: seq<T>)
    ensures IsSubseq(s, s)
    decreases |s|
  {
    if s != [] {
      SubseqReflexive(s[..|s| - 1]);
    }
  }

  /** Deleting from what was obtained by deleting is deleting. */
  lemma {:induction false} SubseqTransitive<T>(a: seq<T>, b: seq<T>, c: seq<T>)
    requires IsSubseq(a, b) && IsSubseq(b, c)
    ensures IsSubseq(a, c)
    decreases |c|
  {
    if a != [] {
      if b[|b| - 1] == c[|c| - 1] && IsSubseq(b[..|b| - 1], c[..|c| - 1]) {
        if a[|a| - 1] == b[|b| - 1] && IsSubseq(a[..|a| - 1], b[..|b| - 1]) {
          SubseqTransitive(a[..|a| - 1], b[..|b| - 1], c[..|c| - 1]);
        } else {
          SubseqTransitive(a, b[..|b| - 1], c[..|c| - 1]);
        }
      } else {
        SubseqTransitive(a, b, c[..|c| - 1]);
      }
    }
  }

  /** A filter that keeps every element returns the sequence unchanged. */
  lemma {:induction false} FilterAll<T(!new)>(s: seq<T>, p: T -> bool)
    requires forall x :: x in s ==> p(x)
    ensures Filter(s, p) == s
    decreases |s|
  {
    if s != [] {
      SplitLast(s);
      FilterAll(s[..|s| - 1], p);
    }
  }

  lemma SplitLast<T>(s: seq<T>)
    requires s != []
    ensures s == s[..|s| - 1] + [s[|s| - 1]]
  {
  }

  predicate NoDuplicates<T(==)>(s: seq<T>) {
    forall i, j :: 0 <= i < j < |s| ==> s[i] != s[j]
  }

  /**
   * The distinct elements of `s`, each once, as `new Set(s)` collects them;
   * `DistinctKeepsFirstAppearance` shows they come in the order of their
   * first appearance in `s`.
   */
  function Distinct<T(==, !new)>(s: seq<T>): (r: seq<T>)
    ensures forall x :: x in r <==> x in s
    ensures NoDuplicates(r)
    decreases |s|
  {
    if s == [] then []
    else
      var d := Distinct(s[..|s| - 1]);
      assert s == s[..|s| - 1] + [s[|s| - 1]];
      if s[|s| - 1] in d then d else d + [s[|s| - 1]]
  }

  /** The position of the first `x` in `s`. */
  function FirstIndex<T(==)>(s: seq<T>, x: T): (k: nat)
    requires x in s
    ensures k < |s| && s[k] == x && x !in s[..k]
  {
    if s[0] == x then 0 else 1 + FirstIndex(s[1..], x)
  }

  /** No `x` comes before the first one. */
  lemma NotBeforeFirst<T>(s: seq<T>, x: T, k: int)
    requires 0 <= k < |s| && s[k] == x
    ensures FirstIndex(s, x) <= k
  {
  }

  /** Appending an element does not move the first appearance of one already present. */
  lemma FirstIndexAppend<T>(s: seq<T>, y: T, x: T)
    requires x in s
    ensures FirstIndex(s + [y], x) == FirstIndex(s, x)
  {
    var k := FirstIndex(s, x);
    NotBeforeFirst(s + [y], x, k);
    var k' := FirstIndex(s + [y], x);
    NotBeforeFirst(s, x, k');
  }

  /** `Distinct` lists each value at the rank of its first appearance. */
  lemma {:induction false} DistinctKeepsFirstAppearance<T(!new)>(s: seq<T>)
    ensures forall i, j :: 0 <= i < j < |Distinct(s)| ==> FirstIndex(s, Distinct(s)[i]) < FirstIndex(s, Distinct(s)[j])
    decreases |s|
  {
    if s != [] {
      var init, last := s[..|s| - 1], s[|s| - 1];
      assert s == init + [last];
      var d := Distinct(init);
      DistinctKeepsFirstAppearance(init);
      var r := Distinct(s);
      forall i | 0 <= i < |d| ensures FirstIndex(s, d[i]) == FirstIndex(init, d[i]) {
        FirstIndexAppend(init, last, d[i]);
      }
      if last !in d {
        assert r == d + [last];
        assert FirstIndex(s, last) == |init|;
      }
    }
  }

  /** `xs.map(f)`. */
  function Map<T, U>(s: seq<T>, f: T -> U): (r: seq<U>)
    ensures |r| == |s|
    ensures forall i :: 0 <= i < |s| ==> r[i] == f(s[i])
  {
    seq(|s|, i requires 0 <= i < |s| => f(s[i]))
  }
}
