/** For every rank and depth, how far to the left and to the right the common prefix reaches. */
module RangeTables {
  import opened Suffixes
  import opened Lcp

  /** Ranks p .. q are linked by adjacent common prefixes of at least d. */
  ghost predicate Linked(lcp: seq<int>, p: nat, q: nat, d: int)
    requires q <= |lcp|
  {
    forall k :: p <= k < q ==> lcp[k] >= d
  }

  /** The common prefix of two ranks is the minimum of the adjacent ones between them. */
  lemma {:induction false} CommonPrefixIsMinimum(t: Text, sa: seq<int>, lcp: seq<int>, p: nat, q: nat, d: nat)
    requires IsLcpArray(t, sa, lcp) && p < q <= |t|
    ensures d <= CommonPrefix(t, sa[p], sa[q]) <==> Linked(lcp, p, q, d)
    decreases q - p
  {
    assert lcp[q - 1] == CommonPrefix(t, sa[q - 1], sa[q]);
    if p < q - 1 {
      CommonPrefixIsMinimum(t, sa, lcp, p, q - 1, d);
      assert SufLt(t, sa[p], sa[q - 1]) && SufLt(t, sa[q - 1], sa[q]);
      CommonPrefixBetween(t, sa[p], sa[q - 1], sa[q]);
    }
  }

  /** f is the first rank sharing its first d characters with rank i. */
  ghost predicate FirstRank(t: Text, sa: seq<int>, i: nat, d: int, f: int)
    requires IsSuffixArray(t, sa) && i <= |t|
  {
    0 <= f <= i && forall q :: 0 <= q < i ==> (f <= q <==> CommonPrefix(t, sa[q], sa[i]) >= d)
  }

  /** g is the last rank sharing its first d characters with rank i. */
  ghost predicate LastRank(t: Text, sa: seq<int>, i: nat, d: int, g: int)
    requires IsSuffixArray(t, sa) && i <= |t|
  {
    i <= g <= |t| && forall q :: i < q <= |t| ==> (q <= g <==> CommonPrefix(t, sa[i], sa[q]) >= d)
  }

  ghost predicate LeftEnd(lcp: seq<int>, i: nat, d: int, f: int)
    requires i <= |lcp|
  {
    0 <= f <= i && Linked(lcp, f, i, d) && (f == 0 || lcp[f - 1] < d)
  }

  ghost predicate RightEnd(lcp: seq<int>, i: nat, d: int, g: int) {
    i <= g <= |lcp| && Linked(lcp, i, g, d) && (g == |lcp| || lcp[g] < d)
  }

  lemma LeftEndIsFirstRank(t: Text, sa: seq<int>, lcp: seq<int>, i: nat, d: nat, f: int)
    requires IsLcpArray(t, sa, lcp) && i <= |t| && LeftEnd(lcp, i, d, f)
    ensures FirstRank(t, sa, i, d, f)
  {
    forall q | 0 <= q < i ensures f <= q <==> CommonPrefix(t, sa[q], sa[i]) >= d {
      CommonPrefixIsMinimum(t, sa, lcp, q, i, d);
    }
  }

  lemma RightEndIsLastRank(t: Text, sa: seq<int>, lcp: seq<int>, i: nat, d: nat, g: int)
    requires IsLcpArray(t, sa, lcp) && i <= |t| && RightEnd(lcp, i, d, g)
    ensures LastRank(t, sa, i, d, g)
  {
    forall q | i < q <= |t| ensures q <= g <==> CommonPrefix(t, sa[i], sa[q]) >= d {
      CommonPrefixIsMinimum(t, sa, lcp, i, q, d);
    }
  }

  /** Row i of the right table: entry d - 1 for the depths up to the LCP with the next rank. */
  ghost predicate RightRow(lcp: seq<int>, i: nat, row: seq<int>)
    requires i < |lcp|
  {
    |row| == lcp[i] && forall e :: 0 <= e < |row| ==> RightEnd(lcp, i, e + 1, row[e])
  }

  /** Row i of the left table: entry d - 1 for the depths up to the LCP with the previous rank. */
  ghost predicate LeftRow(lcp: seq<int>, i: nat, row: seq<int>)
    requires 1 <= i <= |lcp|
  {
    |row| == lcp[i - 1] && forall e :: 0 <= e < |row| ==> LeftEnd(lcp, i, e + 1, row[e])
  }

  method MakeLcpR(i: nat, row: array<int>, lcp: seq<int>)
    requires i < |lcp| && row.Length == lcp[i] && forall k :: 0 <= k < |lcp| ==> 0 <= lcp[k]
    requires forall e :: 0 <= e < row.Length ==> row[e] == i + 1
    modifies row
    ensures RightRow(lcp, i, row[..])
  {
    var min := lcp[i];
    var j := i + 1;
    while j < |lcp| && lcp[j] != 0
      invariant i < j <= |lcp| && 0 <= min <= row.Length
      invariant forall e :: 0 <= e < min ==> row[e] == j
      invariant Linked(lcp, i, j, min)
      invariant forall e :: min <= e < row.Length ==> RightEnd(lcp, i, e + 1, row[e])
    {
      if lcp[j] < min {
        min := lcp[j];
      }
      forall e | 0 <= e < min {
        row[e] := j + 1;
      }
      j := j + 1;
    }
  }

  method MakeLcpL(i: nat, row: array<int>, lcp: seq<int>)
    requires 1 <= i <= |lcp| && row.Length == lcp[i - 1] && forall k :: 0 <= k < |lcp| ==> 0 <= lcp[k]
    modifies row
    ensures LeftRow(lcp, i, row[..])
  {
    var min := lcp[i - 1];
    var j := i - 1;
    while j != -1 && lcp[j] != 0
      invariant -1 <= j < i && 0 <= min <= row.Length
      invariant j < i - 1 ==> forall e :: 0 <= e < min ==> row[e] == j + 1
      invariant Linked(lcp, j + 1, i, min)
      invariant j == i - 1 ==> min == row.Length
      invariant forall e :: min <= e < row.Length ==> LeftEnd(lcp, i, e + 1, row[e])
    {
      if lcp[j] < min {
        min := lcp[j];
      }
      forall e | 0 <= e < min {
        row[e] := j;
      }
      j := j - 1;
    }
  }

  ghost predicate AreRangeTables(t: Text, sa: seq<int>, lcp: seq<int>, l: seq<seq<int>>, r: seq<seq<int>>)
    requires IsLcpArray(t, sa, lcp)
  {
    && |l| == |r| == |t| + 1
    && (forall i {:trigger l[i]} :: 1 <= i <= |t| ==> LeftRow(lcp, i, l[i]))
    && (forall i {:trigger r[i]} :: 1 <= i < |t| ==> RightRow(lcp, i, r[i]))
    && (|t| >= 1 ==> r[|t|] == [])
  }

  method MakeLcpLR(t: Text, sa: seq<int>, lcp: seq<int>) returns (lcpL: seq<seq<int>>, lcpR: seq<seq<int>>)
    requires 1 <= |t| && IsLcpArray(t, sa, lcp)
    ensures AreRangeTables(t, sa, lcp, lcpL, lcpR)
    ensures lcpL[0] == [0] && lcpR[0] == [0]
  {
    assert forall k :: 0 <= k < |lcp| ==> 0 <= lcp[k];
    lcpL, lcpR := seq(|sa|, _ => []), seq(|sa|, _ => []);
    lcpL, lcpR := lcpL[0 := [0]], lcpR[0 := [0]];
    var i := 1;
    while i < |sa| - 1
      invariant 1 <= i <= |t| && |lcpL| == |lcpR| == |sa| && lcpR[|t|] == []
      invariant lcpL[0] == [0] && lcpR[0] == [0]
      invariant forall k {:trigger lcpL[k]} :: 1 <= k < i ==> LeftRow(lcp, k, lcpL[k])
      invariant forall k {:trigger lcpR[k]} :: 1 <= k < i ==> RightRow(lcp, k, lcpR[k])
    {
      var rowL := new int[lcp[i - 1]](_ => i - 1);
      var rowR := new int[lcp[i]](_ => i + 1);
      MakeLcpR(i, rowR, lcp);
      MakeLcpL(i, rowL, lcp);
      lcpL, lcpR := lcpL[i := rowL[..]], lcpR[i := rowR[..]];
      i := i + 1;
    }
    var rowL := new int[lcp[i - 1]](_ => i);
    MakeLcpL(i, rowL, lcp);
    lcpL := lcpL[i := rowL[..]];
  }

  /** Where depth d reaches to the left of rank i: the table entry, or i itself beyond the row. */
  function RangeLeft(l: seq<seq<int>>, i: nat, d: int): int
    requires i < |l| && 1 <= d
  {
    if d - 1 < |l[i]| then l[i][d - 1] else i
  }

  function RangeRight(r: seq<seq<int>>, i: nat, d: int): int
    requires i < |r| && 1 <= d
  {
    if d - 1 < |r[i]| then r[i][d - 1] else i
  }

  /** The tables answer every rank i >= 1 and every depth: the first and last rank sharing the
      first d characters with rank i. */
  lemma RangesAreRanks(t: Text, sa: seq<int>, lcp: seq<int>, l: seq<seq<int>>, r: seq<seq<int>>, i: nat, d: nat)
    requires IsLcpArray(t, sa, lcp) && AreRangeTables(t, sa, lcp, l, r)
    requires 1 <= i <= |t| && 1 <= d
    ensures FirstRank(t, sa, i, d, RangeLeft(l, i, d))
    ensures LastRank(t, sa, i, d, RangeRight(r, i, d))
  {
    assert LeftRow(lcp, i, l[i]);
    LeftEndIsFirstRank(t, sa, lcp, i, d, RangeLeft(l, i, d));
    if i < |t| {
      assert RightRow(lcp, i, r[i]);
    }
    RightEndIsLastRank(t, sa, lcp, i, d, RangeRight(r, i, d));
  }
}
