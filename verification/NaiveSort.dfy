/** The naive construction: all positions, sorted by comparing suffixes. */
module NaiveSort {
  import opened Suffixes

  /** The end of the text first, then all positions in text order. */
  method FillIndices(t: Text) returns (indices: seq<int>)
    ensures |indices| == |t| + 1 && indices[0] == |t|
    ensures forall q :: 1 <= q <= |t| ==> indices[q] == q - 1
  {
    indices := [|t|];
    for i := 0 to |t|
      invariant |indices| == i + 1 && indices[0] == |t|
      invariant forall q :: 1 <= q <= i ==> indices[q] == q - 1
    {
      indices := indices + [i];
    }
    indices := indices[0 := |t|];
  }

  /** What the library sort promises for the slots behind the first: a permutation of what was
      there, in which no later entry compares less than an earlier one. */
  ghost predicate SortedBehindFirst(t: Text, before: seq<int>, after: seq<int>) {
    && |after| == |before| >= 1 && after[0] == before[0]
    && multiset(after[1..]) == multiset(before[1..])
    && InRange(|t|, after)
    && forall p, q :: 1 <= p < q < |after| ==> !SufLt(t, after[q], after[p])
  }

  lemma {:induction false} DistinctCounts(a: seq<int>, x: int)
    requires Distinct(a)
    ensures multiset(a)[x] <= 1
  {
    if a != [] {
      var rest, last := a[..|a| - 1], a[|a| - 1];
      assert a == rest + [last];
      DistinctCounts(rest, x);
      assert last !in rest;
    }
  }

  lemma TwiceCounted(b: seq<int>, p: nat, q: nat)
    requires p < q < |b| && b[p] == b[q]
    ensures multiset(b)[b[p]] >= 2
  {
    assert b == b[..q] + b[q..];
    assert b[p] == b[..q][p] && b[q] == b[q..][0];
    assert b[p] in multiset(b[..q]) && b[p] in multiset(b[q..]);
  }

  lemma MultisetDistinct(a: seq<int>, b: seq<int>)
    requires multiset(a) == multiset(b) && Distinct(a)
    ensures Distinct(b)
  {
    forall p, q | 0 <= p < q < |b| ensures b[p] != b[q] {
      DistinctCounts(a, b[p]);
      if b[p] == b[q] {
        TwiceCounted(b, p, q);
      }
    }
  }

  /** Whatever permutation the library sort picks, the naive construction returns the suffix
      array, and so exactly what induced sorting returns. */
  lemma NaiveIsSuffixArray(t: Text, indices: seq<int>, sorted: seq<int>)
    requires |indices| == |t| + 1 && indices[0] == |t| && forall q :: 1 <= q <= |t| ==> indices[q] == q - 1
    requires SortedBehindFirst(t, indices, sorted)
    ensures IsSuffixArray(t, sorted)
    ensures forall sa :: IsSuffixArray(t, sa) ==> sa == sorted
  {
    MultisetDistinct(indices[1..], sorted[1..]);
    forall p, q | 0 <= p < q < |sorted| ensures SufLt(t, sorted[p], sorted[q]) {
      assert sorted[1..][q - 1] in multiset(indices[1..]);
      if p > 0 {
        assert sorted[1..][p - 1] != sorted[1..][q - 1];
        SufLtTotal(t, sorted[p], sorted[q]);
      }
    }
    forall sa | IsSuffixArray(t, sa) ensures sa == sorted {
      SuffixArrayUnique(t, sa, sorted);
    }
  }
}
