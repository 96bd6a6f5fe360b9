/** The LCP array: common prefix lengths of suffixes adjacent in the suffix array. */
module Lcp {
  import opened Suffixes

  /** Length of the common prefix of the suffixes at i and j. */
  function CommonPrefix(t: Text, i: nat, j: nat): (h: nat)
    requires i <= |t| && j <= |t|
    ensures i + h <= |t| && j + h <= |t|
    decreases |t| - i
  {
    if i < |t| && j < |t| && t[i] == t[j] then 1 + CommonPrefix(t, i + 1, j + 1) else 0
  }

  lemma {:induction false} CommonPrefixSymmetric(t: Text, i: nat, j: nat)
    requires i <= |t| && j <= |t|
    ensures CommonPrefix(t, i, j) == CommonPrefix(t, j, i)
    decreases |t| - i
  {
    if i < |t| && j < |t| && t[i] == t[j] {
      CommonPrefixSymmetric(t, i + 1, j + 1);
    }
  }

  /** What the length means: equal characters up to it, and none of them beyond it. */
  lemma {:induction false} CommonPrefixMeaning(t: Text, i: nat, j: nat, d: nat)
    requires i <= |t| && j <= |t|
    ensures d <= CommonPrefix(t, i, j) <==> i + d <= |t| && j + d <= |t| && t[i..i + d] == t[j..j + d]
    decreases |t| - i
  {
    if d == 0 {
    } else if i < |t| && j < |t| && t[i] == t[j] {
      CommonPrefixMeaning(t, i + 1, j + 1, d - 1);
      if i + d <= |t| && j + d <= |t| {
        assert t[i..i + d] == [t[i]] + t[i + 1..i + d];
        assert t[j..j + d] == [t[j]] + t[j + 1..j + d];
      }
    } else if i + d <= |t| && j + d <= |t| {
      SliceHead(t, i, d);
      SliceHead(t, j, d);
    }
  }

  /** A suffix between two others shares with each of them at least what these two share. */
  lemma {:induction false} CommonPrefixBetween(t: Text, i: nat, k: nat, j: nat)
    requires i <= |t| && k <= |t| && j <= |t| && SufLt(t, i, k) && SufLt(t, k, j)
    ensures CommonPrefix(t, i, j) <= CommonPrefix(t, i, k)
    ensures CommonPrefix(t, i, j) <= CommonPrefix(t, k, j)
    ensures CommonPrefix(t, i, j) == CommonPrefix(t, i, k) || CommonPrefix(t, i, j) == CommonPrefix(t, k, j)
    decreases |t| - i
  {
    if i < |t| && t[i] == t[k] && k < |t| && t[k] == t[j] {
      CommonPrefixBetween(t, i + 1, k + 1, j + 1);
    }
  }

  /** At the first difference the smaller suffix has ended or has the smaller character. */
  lemma {:induction false} FirstDifference(t: Text, i: nat, j: nat)
    requires i <= |t| && j <= |t| && SufLt(t, i, j)
    ensures var h := CommonPrefix(t, i, j); j + h < |t| && (i + h == |t| || t[i + h] < t[j + h])
    decreases |t| - i
  {
    if i < |t| && t[i] == t[j] {
      FirstDifference(t, i + 1, j + 1);
    }
  }

  // ---------- the inverse ----------

  ghost predicate IsInverse(sa: seq<int>, inv: seq<int>) {
    && |inv| == |sa|
    && forall q {:trigger sa[q]} :: 1 <= q < |sa| ==> 0 <= sa[q] < |inv| && inv[sa[q]] == q
  }

  /** The entry of the empty suffix keeps the fill value; all other entries are ranks. */
  method MakeInverse(t: Text, sa: seq<int>) returns (invSA: seq<int>)
    requires IsSuffixArray(t, sa)
    ensures IsInverse(sa, invSA)
    ensures forall i :: 0 <= i < |t| ==> 1 <= invSA[i] <= |t| && sa[invSA[i]] == i
  {
    SuffixArrayIsPermutation(t, sa);
    var inv := new int[|sa|](_ => |t|);
    var i := 1;
    while i < |sa|
      invariant 1 <= i <= |sa|
      invariant forall q {:trigger sa[q]} :: 1 <= q < i ==> inv[sa[q]] == q
    {
      inv[sa[i]] := i;
      i := i + 1;
    }
    invSA := inv[..];
    forall i | 0 <= i < |t| ensures 1 <= invSA[i] <= |t| && sa[invSA[i]] == i {
      assert i in sa;
      var q :| 0 <= q < |sa| && sa[q] == i;
    }
  }

  // ---------- Kasai's loop ----------

  ghost predicate IsLcpArray(t: Text, sa: seq<int>, lcp: seq<int>) {
    && IsSuffixArray(t, sa)
    && |lcp| == |t|
    && forall q {:trigger lcp[q]} :: 0 <= q < |t| ==> lcp[q] == CommonPrefix(t, sa[q], sa[q + 1])
  }

  /** What the suffix at i shares with its successor in the suffix array; 0 at the last rank. */
  ghost function Shared(t: Text, sa: seq<int>, inv: seq<int>, i: nat): nat
    requires IsSuffixArray(t, sa) && |inv| == |sa|
    requires i < |t| && 1 <= inv[i] <= |t|
  {
    if inv[i] == |t| then 0 else CommonPrefix(t, i, sa[inv[i] + 1])
  }

  /** Dropping one character loses at most one character of the shared prefix. */
  lemma KasaiStep(t: Text, sa: seq<int>, inv: seq<int>, i: nat)
    requires IsSuffixArray(t, sa) && |inv| == |sa| && i + 1 < |t|
    requires forall k :: 0 <= k < |t| ==> 1 <= inv[k] <= |t| && sa[inv[k]] == k
    ensures Shared(t, sa, inv, i) <= Shared(t, sa, inv, i + 1) + 1
  {
    var l := Shared(t, sa, inv, i);
    if l > 1 {
      var j := sa[inv[i] + 1];
      assert sa[inv[i]] == i;
      assert SufLt(t, i, j);
      assert SufLt(t, i + 1, j + 1) && CommonPrefix(t, i + 1, j + 1) == l - 1;
      SuffixArrayIsPermutation(t, sa);
      assert j + 1 in sa;
      var q :| 0 <= q < |sa| && sa[q] == j + 1;
      var p := inv[i + 1];
      RankOrder(t, sa, p, q);
      if p + 1 < q {
        CommonPrefixBetween(t, i + 1, sa[p + 1], j + 1);
      }
    }
  }

  /** Comparison resumes behind the h characters known to match. It never reads past the end of
      the second suffix, which is the larger one. */
  method Extend(t: Text, i: nat, j: nat, h0: nat) returns (h: nat, ghost matches: nat)
    requires i <= |t| && j <= |t| && SufLt(t, i, j) && h0 <= CommonPrefix(t, i, j)
    ensures h == CommonPrefix(t, i, j) && h == h0 + matches
  {
    h, matches := h0, 0;
    FirstDifference(t, i, j);
    while i + h < |t| && t[i + h] == t[j + h]
      invariant h <= CommonPrefix(t, i, j) && h == h0 + matches
      decreases |t| - h
    {
      h := h + 1;
      matches := matches + 1;
    }
    if h < CommonPrefix(t, i, j) {
      CharactersMatch(t, i, j, h);
    }
  }

  lemma {:induction false} CharactersMatch(t: Text, i: nat, j: nat, h: nat)
    requires i <= |t| && j <= |t| && h < CommonPrefix(t, i, j)
    ensures t[i + h] == t[j + h]
    decreases |t| - i
  {
    if h > 0 {
      CharactersMatch(t, i + 1, j + 1, h - 1);
    }
  }

  /** After i rounds the entries of the ranks of positions below i are right. */
  ghost predicate KasaiInv(t: Text, sa: seq<int>, inv: seq<int>, values: seq<int>, i: nat, h: nat)
    requires IsSuffixArray(t, sa) && |inv| == |sa|
    requires forall k :: 0 <= k < |t| ==> 1 <= inv[k] <= |t| && sa[inv[k]] == k
  {
    && |values| == |sa| && values[0] == 0 && i <= |t|
    && (if i < |t| then h <= Shared(t, sa, inv, i) else h <= |t|)
    && (forall k {:trigger inv[k]} :: 0 <= k < i && inv[k] < |t| ==> values[inv[k]] == Shared(t, sa, inv, k))
  }

  lemma KasaiRound(t: Text, sa: seq<int>, inv: seq<int>, values: seq<int>, i: nat, h: nat, h': nat)
    requires IsSuffixArray(t, sa) && |inv| == |sa|
    requires forall k :: 0 <= k < |t| ==> 1 <= inv[k] <= |t| && sa[inv[k]] == k
    requires i < |t| && KasaiInv(t, sa, inv, values, i, h) && h' == Shared(t, sa, inv, i)
    ensures KasaiInv(t, sa, inv, values[inv[i] := h'], i + 1, if h' == 0 then 0 else h' - 1)
  {
    if i + 1 < |t| {
      KasaiStep(t, sa, inv, i);
    }
    forall k | 0 <= k < i ensures inv[k] != inv[i] {
      assert sa[inv[k]] == k && sa[inv[i]] == i;
    }
  }

  lemma KasaiDone(t: Text, sa: seq<int>, inv: seq<int>, values: seq<int>, h: nat)
    requires IsSuffixArray(t, sa) && IsInverse(sa, inv)
    requires forall k :: 0 <= k < |t| ==> 1 <= inv[k] <= |t| && sa[inv[k]] == k
    requires KasaiInv(t, sa, inv, values, |t|, h)
    ensures IsLcpArray(t, sa, values[..|t|])
  {
    SuffixArrayIsPermutation(t, sa);
    var lcp := values[..|t|];
    forall q | 0 <= q < |t| ensures lcp[q] == CommonPrefix(t, sa[q], sa[q + 1]) {
      if q > 0 {
        assert sa[q] != sa[0];
        assert inv[sa[q]] == q;
      }
    }
  }

  /** Kasai's loop. At the last rank there is no successor and h is 0; that entry is dropped.
      The matching comparisons of the whole run number at most 2|t|. */
  method MakeLcp(t: Text, sa: seq<int>) returns (lcp: seq<int>, ghost matches: nat)
    requires IsSuffixArray(t, sa)
    ensures IsLcpArray(t, sa, lcp)
    ensures matches <= 2 * |t|
  {
    SuffixArrayIsPermutation(t, sa);
    var values := new int[|sa|](_ => 0);
    var invSA := MakeInverse(t, sa);
    var i: nat, h: nat := 0, 0;
    matches := 0;
    while i < |t|
      invariant KasaiInv(t, sa, invSA, values[..], i, h)
      invariant matches <= h + i
    {
      ghost var before, h0: nat, matched := values[..], h, 0;
      if invSA[i] == |t| {
        h := 0;
      } else {
        assert sa[invSA[i]] == i;
        h, matched := Extend(t, i, sa[invSA[i] + 1], h);
      }
      matches := matches + matched;
      KasaiRound(t, sa, invSA, before, i, h0, h);
      values[invSA[i]] := h;
      assert values[..] == before[invSA[i] := h];
      if h != 0 {
        h := h - 1;
      }
      i := i + 1;
    }
    KasaiDone(t, sa, invSA, values[..], h);
    lcp := values[..|t|];
  }
}
