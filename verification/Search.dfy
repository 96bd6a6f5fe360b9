/** Pattern search over a suffix array: the interval-jumping search and the plain binary search. */
module Search {
  import opened Suffixes
  import opened Lcp
  import opened RangeTables

  /** How many characters the suffix at i and the pattern from k on have in common. */
  function MatchLength(t: Text, i: nat, val: Text, k: nat): (h: nat)
    requires i <= |t| && k <= |val|
    ensures i + h <= |t| && k + h <= |val|
    decreases |t| - i
  {
    if i < |t| && k < |val| && t[i] == val[k] then 1 + MatchLength(t, i + 1, val, k + 1) else 0
  }

  ghost predicate StartsWith(t: Text, i: nat, val: Text)
    requires i <= |t|
  {
    i + |val| <= |t| && t[i..i + |val|] == val
  }

  lemma {:induction false} MatchLengthMeaning(t: Text, i: nat, val: Text, k: nat)
    requires i <= |t| && k <= |val|
    ensures k + MatchLength(t, i, val, k) == |val| <==> StartsWith(t, i, val[k..])
    decreases |t| - i
  {
    var v := val[k..];
    if k == |val| {
      assert t[i..i + |v|] == v;
    } else if i < |t| && t[i] == val[k] {
      MatchLengthMeaning(t, i + 1, val, k + 1);
      if i + |v| <= |t| {
        assert t[i..i + |v|] == [t[i]] + t[i + 1..i + 1 + |val[k + 1..]|];
        assert v == [val[k]] + val[k + 1..];
        assert t[i..i + |v|][1..] == t[i + 1..i + 1 + |val[k + 1..]|];
        assert v[1..] == val[k + 1..];
      }
    } else if i + |v| <= |t| {
      SliceHead(t, i, |v|);
      SliceHead(val, k, |v|);
    }
  }

  /** Lexicographic comparison of the suffix at i with the pattern from k on. */
  predicate SuffixBefore(t: Text, i: nat, val: Text, k: nat)
    requires i <= |t| && k <= |val|
    decreases |t| - i
  {
    k < |val| && (i == |t| || t[i] < val[k] || (t[i] == val[k] && SuffixBefore(t, i + 1, val, k + 1)))
  }

  lemma {:induction false} BeforeIsDownward(t: Text, a: nat, b: nat, val: Text, k: nat)
    requires a <= |t| && b <= |t| && k <= |val| && SufLt(t, a, b) && SuffixBefore(t, b, val, k)
    ensures SuffixBefore(t, a, val, k)
    ensures MatchLength(t, a, val, k) <= MatchLength(t, b, val, k)
    decreases |t| - a
  {
    if a < |t| && t[a] == t[b] && t[b] == val[k] {
      BeforeIsDownward(t, a + 1, b + 1, val, k + 1);
    }
  }

  /** Behind the pattern, larger suffixes match no more of it. */
  lemma {:induction false} MatchShrinksUpward(t: Text, a: nat, b: nat, val: Text, k: nat)
    requires a <= |t| && b <= |t| && k <= |val| && SufLt(t, a, b) && !SuffixBefore(t, a, val, k)
    ensures MatchLength(t, b, val, k) <= MatchLength(t, a, val, k)
    decreases |t| - a
  {
    if a < |t| && k < |val| && t[a] == t[b] && t[b] == val[k] {
      MatchShrinksUpward(t, a + 1, b + 1, val, k + 1);
    }
  }

  /** The first unmatched character decides; a suffix that has ended is before the pattern. */
  lemma {:induction false} BeforeByMismatch(t: Text, i: nat, val: Text, k: nat)
    requires i <= |t| && k <= |val|
    ensures var h := MatchLength(t, i, val, k);
            SuffixBefore(t, i, val, k) <==> k + h < |val| && (i + h == |t| || t[i + h] < val[k + h])
    decreases |t| - i
  {
    if i < |t| && k < |val| && t[i] == val[k] {
      BeforeByMismatch(t, i + 1, val, k + 1);
    }
  }

  /** A suffix that ends inside its match is the smallest of those matching as much. */
  lemma {:induction false} EndedIsFirst(t: Text, a: nat, b: nat, val: Text, k: nat)
    requires a <= |t| && b <= |t| && k <= |val|
    requires b + MatchLength(t, b, val, k) == |t| && MatchLength(t, b, val, k) <= MatchLength(t, a, val, k)
    ensures !SufLt(t, a, b)
    decreases |t| - b
  {
    if b < |t| {
      EndedIsFirst(t, a + 1, b + 1, val, k + 1);
    }
  }

  lemma {:induction false} MatchIsShared(t: Text, a: nat, b: nat, val: Text, k: nat, d: nat)
    requires a <= |t| && b <= |t| && k <= |val| && d <= MatchLength(t, a, val, k)
    ensures d <= MatchLength(t, b, val, k) <==> d <= CommonPrefix(t, a, b)
    decreases d
  {
    if d > 0 && b < |t| && t[a] == t[b] {
      MatchIsShared(t, a + 1, b + 1, val, k + 1, d - 1);
    }
  }

  // ---------- what a search returns ----------

  /** [lo, hi) are exactly the ranks whose suffix starts with val; |sa|, |sa| when there is none. */
  ghost predicate IsMatchRange(t: Text, sa: seq<int>, val: Text, lo: int, hi: int)
    requires IsSuffixArray(t, sa)
  {
    && 0 <= lo <= hi <= |sa|
    && (lo == hi ==> lo == |sa|)
    && forall q {:trigger sa[q]} :: 0 <= q < |sa| ==> (lo <= q < hi <==> StartsWith(t, sa[q], val))
  }

  lemma MatchRangeUnique(t: Text, sa: seq<int>, val: Text, lo: int, hi: int, lo': int, hi': int)
    requires IsSuffixArray(t, sa)
    requires IsMatchRange(t, sa, val, lo, hi) && IsMatchRange(t, sa, val, lo', hi')
    ensures lo == lo' && hi == hi'
  {
    if lo < hi {
      assert StartsWith(t, sa[lo], val) && StartsWith(t, sa[hi - 1], val);
    }
    if lo' < hi' {
      assert StartsWith(t, sa[lo'], val) && StartsWith(t, sa[hi' - 1], val);
    }
  }

  function Matched(t: Text, sa: seq<int>, val: Text, q: nat): nat
    requires IsSuffixArray(t, sa) && q < |sa|
  {
    MatchLength(t, sa[q], val, 0)
  }

  lemma MatchedMeaning(t: Text, sa: seq<int>, val: Text, q: nat)
    requires IsSuffixArray(t, sa) && q < |sa|
    ensures Matched(t, sa, val, q) == |val| <==> StartsWith(t, sa[q], val)
  {
    MatchLengthMeaning(t, sa[q], val, 0);
    assert val[0..] == val;
  }

  // ---------- the interval-jumping search ----------

  /** All ranks of the interval match depth characters; every rank matching more lies inside. */
  ghost predicate SearchInv(t: Text, sa: seq<int>, val: Text, fir: int, count: int, depth: nat)
    requires IsSuffixArray(t, sa)
  {
    && 0 <= fir && 0 <= count && fir + count <= |sa| && depth < |val|
    && (forall q {:trigger Matched(t, sa, val, q)} :: fir <= q < fir + count ==> depth <= Matched(t, sa, val, q))
    && (forall q {:trigger Matched(t, sa, val, q)} ::
          0 <= q < |sa| && depth < Matched(t, sa, val, q) ==> fir <= q < fir + count)
  }

  /** Resumes the comparison of the suffix at p behind depth known characters; smaller is written
      at a mismatch only. */
  method Compare(t: Text, p: nat, val: Text, depthBef: nat, smallerBef: bool) returns (depth: nat, smaller: bool)
    requires p <= |t| && depthBef <= MatchLength(t, p, val, 0)
    ensures depthBef + depth == MatchLength(t, p, val, 0)
    ensures var h := MatchLength(t, p, val, 0);
            smaller == if p + h < |t| && h < |val| then t[p + h] < val[h] else smallerBef
  {
    depth, smaller := 0, smallerBef;
    while p + depthBef + depth < |t| && depthBef + depth < |val|
      invariant depthBef + depth <= MatchLength(t, p, val, 0)
      invariant smaller == smallerBef
      decreases |val| - depth
    {
      MatchedCharacters(t, p, val, 0, depthBef + depth);
      var a, b := t[p + depthBef + depth], val[depthBef + depth];
      if a < b {
        smaller := true;
        return;
      } else if a > b {
        smaller := false;
        return;
      } else {
        depth := depth + 1;
      }
    }
  }

  lemma {:induction false} MatchedCharacters(t: Text, p: nat, val: Text, k: nat, h: nat)
    requires p <= |t| && k <= |val| && h <= MatchLength(t, p, val, k)
    ensures p + h < |t| && k + h < |val| ==> (t[p + h] == val[k + h] <==> h < MatchLength(t, p, val, k))
    decreases h
  {
    if h > 0 {
      MatchedCharacters(t, p + 1, val, k + 1, h - 1);
    }
  }

  /** A probe matching more than the interval's depth: the ranks sharing those characters with it
      are the next interval. It lies inside the current one. */
  lemma JumpKeeps(t: Text, sa: seq<int>, val: Text, fir: int, count: int, depth: nat, i: nat, f: int, g: int)
    requires IsSuffixArray(t, sa) && SearchInv(t, sa, val, fir, count, depth) && i < |sa|
    requires depth < Matched(t, sa, val, i)
    requires FirstRank(t, sa, i, Matched(t, sa, val, i), f) && LastRank(t, sa, i, Matched(t, sa, val, i), g)
    ensures forall q {:trigger Matched(t, sa, val, q)} :: 0 <= q < |sa| ==>
              (f <= q <= g <==> Matched(t, sa, val, i) <= Matched(t, sa, val, q))
    ensures fir <= f <= g < fir + count
  {
    var d := Matched(t, sa, val, i);
    forall q | 0 <= q < |sa| ensures f <= q <= g <==> d <= Matched(t, sa, val, q) {
      MatchIsShared(t, sa[i], sa[q], val, 0, d);
      CommonPrefixSymmetric(t, sa[i], sa[q]);
    }
    assert d <= Matched(t, sa, val, f) && d <= Matched(t, sa, val, g);
  }

  /** A probe matching no more than the interval's depth cuts the interval at the probe. */
  lemma StepKeeps(t: Text, sa: seq<int>, val: Text, fir: int, count: int, depth: nat, i: nat, smaller: bool)
    requires IsSuffixArray(t, sa) && SearchInv(t, sa, val, fir, count, depth)
    requires count > 0 && i == fir + count / 2 && Matched(t, sa, val, i) == depth
    requires sa[i] + depth < |t| ==> smaller == (t[sa[i] + depth] < val[depth])
    ensures smaller ==> SearchInv(t, sa, val, i + 1, count - (count / 2 + 1), depth)
    ensures !smaller ==> SearchInv(t, sa, val, fir, count / 2, depth)
  {
    BeforeByMismatch(t, sa[i], val, 0);
    if sa[i] + depth == |t| {
      EndedProbe(t, sa, val, fir, count, depth, i);
    } else {
      forall q | 0 <= q < |sa| && depth < Matched(t, sa, val, q) ensures if smaller then i < q else q < i {
        if smaller && q < i {
          BeforeIsDownward(t, sa[q], sa[i], val, 0);
        } else if !smaller && i < q {
          MatchShrinksUpward(t, sa[i], sa[q], val, 0);
        }
      }
    }
  }

  /** A probe that has ended leaves smaller stale, but then the interval is that one rank. */
  lemma EndedProbe(t: Text, sa: seq<int>, val: Text, fir: int, count: int, depth: nat, i: nat)
    requires IsSuffixArray(t, sa) && SearchInv(t, sa, val, fir, count, depth)
    requires count > 0 && i == fir + count / 2 && Matched(t, sa, val, i) == depth && sa[i] + depth == |t|
    ensures count == 1 && i == fir
  {
    assert depth <= Matched(t, sa, val, fir);
    EndedIsFirst(t, sa[fir], sa[i], val, 0);
  }

  /** For a nonempty pattern exactly the matching ranks; for the empty pattern "not found". */
  method LowerBound(t: Text, sa: seq<int>, lcpL: seq<seq<int>>, lcpR: seq<seq<int>>, val: Text, ghost lcp: seq<int>)
    returns (lo: int, hi: int)
    requires IsLcpArray(t, sa, lcp) && AreRangeTables(t, sa, lcp, lcpL, lcpR)
    ensures val == [] ==> lo == hi == |sa|
    ensures val != [] ==> IsMatchRange(t, sa, val, lo, hi)
  {
    var count, depthBef, smaller, fir := |sa|, 0, false, 0;
    while count != 0
      invariant 0 <= fir && 0 <= count && fir + count <= |sa|
      invariant if val == [] then depthBef == 0 && !smaller else SearchInv(t, sa, val, fir, count, depthBef)
      decreases |val| - depthBef, count
    {
      var i := fir;
      var step := count / 2;
      i := i + step;
      assert val != [] ==> depthBef <= Matched(t, sa, val, i);
      var depth;
      depth, smaller := Compare(t, sa[i], val, depthBef, smaller);
      if depth != 0 {
        ghost var before := depthBef;
        depthBef := depthBef + depth;
        assert i != 0 by {
          SuffixArrayIsPermutation(t, sa);
        }
        RangesAreRanks(t, sa, lcp, lcpL, lcpR, i, depthBef);
        JumpKeeps(t, sa, val, fir, count, before, i, RangeLeft(lcpL, i, depthBef), RangeRight(lcpR, i, depthBef));
        if depthBef == |val| {
          lo := if depthBef - 1 < |lcpL[i]| then lcpL[i][depthBef - 1] else i;
          hi := if depthBef - 1 < |lcpR[i]| then lcpR[i][depthBef - 1] + 1 else i + 1;
          JumpIsResult(t, sa, val, lo, hi);
          return;
        }
        fir := if depthBef - 1 < |lcpL[i]| then lcpL[i][depthBef - 1] else i;
        count := (if depthBef - 1 < |lcpR[i]| then lcpR[i][depthBef - 1] + 1 else i + 1) - fir;
      } else {
        if val != [] {
          StepKeeps(t, sa, val, fir, count, depthBef, i, smaller);
        }
        if smaller {
          i := i + 1;
          fir := i;
          count := count - (step + 1);
        } else {
          count := step;
        }
      }
    }
    lo, hi := |sa|, |sa|;
    if val != [] {
      NothingLeft(t, sa, val, fir, depthBef);
    }
  }

  lemma JumpIsResult(t: Text, sa: seq<int>, val: Text, lo: int, hi: int)
    requires IsSuffixArray(t, sa) && 0 <= lo < hi <= |sa|
    requires forall q {:trigger Matched(t, sa, val, q)} :: 0 <= q < |sa| ==>
               (lo <= q < hi <==> |val| <= Matched(t, sa, val, q))
    ensures IsMatchRange(t, sa, val, lo, hi)
  {
    forall q | 0 <= q < |sa| ensures lo <= q < hi <==> StartsWith(t, sa[q], val) {
      MatchedMeaning(t, sa, val, q);
    }
  }

  lemma NothingLeft(t: Text, sa: seq<int>, val: Text, fir: int, depth: nat)
    requires IsSuffixArray(t, sa) && SearchInv(t, sa, val, fir, 0, depth)
    ensures IsMatchRange(t, sa, val, |sa|, |sa|)
  {
    forall q | 0 <= q < |sa| ensures !StartsWith(t, sa[q], val) {
      MatchedMeaning(t, sa, val, q);
    }
  }

  // ---------- the plain search ----------

  /** The library's binary search: the first rank whose suffix is not before the pattern. */
  method FirstNotBefore(t: Text, sa: seq<int>, val: Text) returns (idx: nat)
    requires IsSuffixArray(t, sa)
    ensures idx <= |sa|
    ensures forall q {:trigger sa[q]} :: 0 <= q < |sa| ==> (q < idx <==> SuffixBefore(t, sa[q], val, 0))
  {
    idx := 0;
    var count := |sa|;
    while count > 0
      invariant 0 <= count && idx + count <= |sa|
      invariant forall q {:trigger sa[q]} :: 0 <= q < idx ==> SuffixBefore(t, sa[q], val, 0)
      invariant forall q {:trigger sa[q]} :: idx + count <= q < |sa| ==> !SuffixBefore(t, sa[q], val, 0)
    {
      var step := count / 2;
      var it := idx + step;
      if SuffixBefore(t, sa[it], val, 0) {
        forall q | 0 <= q < it ensures SuffixBefore(t, sa[q], val, 0) {
          BeforeIsDownward(t, sa[q], sa[it], val, 0);
        }
        idx := it + 1;
        count := count - (step + 1);
      } else {
        forall q | it < q < |sa| ensures !SuffixBefore(t, sa[q], val, 0) {
          if SuffixBefore(t, sa[q], val, 0) {
            BeforeIsDownward(t, sa[it], sa[q], val, 0);
          }
        }
        count := step;
      }
    }
  }

  /** Compares up to d characters, and also succeeds when the data runs out first. */
  method Equal(t: Text, d: nat, infix: Text, p: nat) returns (same: bool)
    requires p <= |t|
    ensures same <==> MatchLength(t, p, infix, 0) >= d || MatchLength(t, p, infix, 0) == |infix|
                      || p + MatchLength(t, p, infix, 0) == |t|
  {
    var depth := 0;
    while depth < d && depth < |infix| && p + depth != |t|
      invariant depth <= d && depth <= MatchLength(t, p, infix, 0)
    {
      MatchedCharacters(t, p, infix, 0, depth);
      if infix[depth] == t[p + depth] {
        depth := depth + 1;
      } else {
        return false;
      }
    }
    return true;
  }

  /** The scan's comparison never succeeds by running off the data: behind the first match a
      suffix that ends inside the pattern would be before it. */
  lemma NoFalseMatch(t: Text, sa: seq<int>, val: Text, idx: nat, q: nat)
    requires IsSuffixArray(t, sa) && idx < q < |sa| && !SuffixBefore(t, sa[idx], val, 0)
    ensures Matched(t, sa, val, q) == |val| || sa[q] + Matched(t, sa, val, q) < |t|
  {
    if SuffixBefore(t, sa[q], val, 0) {
      BeforeIsDownward(t, sa[idx], sa[q], val, 0);
    }
    BeforeByMismatch(t, sa[q], val, 0);
  }

  /** From the first rank not before the pattern on, matching only shrinks. */
  lemma MatchesFromFirst(t: Text, sa: seq<int>, val: Text, idx: nat)
    requires IsSuffixArray(t, sa) && idx < |sa|
    requires forall q {:trigger sa[q]} :: 0 <= q < |sa| ==> (q < idx <==> SuffixBefore(t, sa[q], val, 0))
    ensures forall q {:trigger Matched(t, sa, val, q)} :: 0 <= q < idx ==> Matched(t, sa, val, q) < |val|
    ensures forall p, q {:trigger Matched(t, sa, val, p), Matched(t, sa, val, q)} :: idx <= p < q < |sa| ==>
              Matched(t, sa, val, q) <= Matched(t, sa, val, p)
  {
    forall q | 0 <= q < idx ensures Matched(t, sa, val, q) < |val| {
      BeforeByMismatch(t, sa[q], val, 0);
    }
    forall p, q | idx <= p < q < |sa| ensures Matched(t, sa, val, q) <= Matched(t, sa, val, p) {
      MatchShrinksUpward(t, sa[p], sa[q], val, 0);
    }
  }

  /** Binary search, prefix check, forward scan. */
  method FindPlain(t: Text, sa: seq<int>, infix: Text) returns (lo: int, hi: int)
    requires IsSuffixArray(t, sa)
    ensures IsMatchRange(t, sa, infix, lo, hi)
  {
    var idx := FirstNotBefore(t, sa, infix);
    if idx == |sa| {
      lo, hi := |sa|, |sa|;
      forall q | 0 <= q < |sa| ensures !StartsWith(t, sa[q], infix) {
        BeforeByMismatch(t, sa[q], infix, 0);
        MatchedMeaning(t, sa, infix, q);
      }
      return;
    }
    MatchesFromFirst(t, sa, infix, idx);
    var d, i := 0, 0;
    while i < |infix| && sa[idx] + i < |t|
      invariant d == i <= |infix| && sa[idx] + i <= |t| && i <= Matched(t, sa, infix, idx)
    {
      MatchedCharacters(t, sa[idx], infix, 0, i);
      if t[sa[idx] + i] == infix[i] {
        d := d + 1;
      } else {
        NoneMatch(t, sa, infix, idx);
        return |sa|, |sa|;
      }
      i := i + 1;
    }
    if d != |infix| {
      NoneMatch(t, sa, infix, idx);
      return |sa|, |sa|;
    }
    var sec := idx + 1;
    while sec < |sa|
      invariant idx < sec <= |sa|
      invariant forall q {:trigger Matched(t, sa, infix, q)} :: idx <= q < sec ==> Matched(t, sa, infix, q) == |infix|
    {
      NoFalseMatch(t, sa, infix, idx, sec);
      assert Matched(t, sa, infix, sec) <= |infix|;
      var same := Equal(t, d, infix, sa[sec]);
      if !same {
        break;
      }
      sec := sec + 1;
    }
    lo, hi := idx, sec;
    JumpIsResult(t, sa, infix, lo, hi);
  }

  lemma NoneMatch(t: Text, sa: seq<int>, val: Text, idx: nat)
    requires IsSuffixArray(t, sa) && idx < |sa| && Matched(t, sa, val, idx) < |val|
    requires forall q {:trigger sa[q]} :: 0 <= q < |sa| ==> (q < idx <==> SuffixBefore(t, sa[q], val, 0))
    ensures IsMatchRange(t, sa, val, |sa|, |sa|)
  {
    MatchesFromFirst(t, sa, val, idx);
    forall q | 0 <= q < |sa| ensures !StartsWith(t, sa[q], val) {
      assert q > idx ==> Matched(t, sa, val, q) <= Matched(t, sa, val, idx);
      MatchedMeaning(t, sa, val, q);
    }
  }

  // ---------- the two searches together ----------

  /** With range tables the jumping search is used, without them the plain one. */
  method FindAllInfix(infix: Text, t: Text, sa: seq<int>, lcpL: seq<seq<int>>, lcpR: seq<seq<int>>, ghost lcp: seq<int>)
    returns (lo: int, hi: int)
    requires IsSuffixArray(t, sa)
    requires |lcpL| != 0 ==> IsLcpArray(t, sa, lcp) && AreRangeTables(t, sa, lcp, lcpL, lcpR)
    ensures infix != [] || |lcpL| == 0 ==> IsMatchRange(t, sa, infix, lo, hi)
    ensures infix == [] && |lcpL| != 0 ==> lo == hi == |sa|
  {
    if |lcpL| != 0 {
      lo, hi := LowerBound(t, sa, lcpL, lcpR, infix, lcp);
    } else {
      lo, hi := FindPlain(t, sa, infix);
    }
  }

  /** The answers of the two searches are the same exactly for nonempty patterns: for the empty
      pattern the plain search reports every rank and the jumping search none. */
  lemma SearchesAgree(t: Text, sa: seq<int>, val: Text, plainLo: int, plainHi: int, jumpLo: int, jumpHi: int)
    requires IsSuffixArray(t, sa) && IsMatchRange(t, sa, val, plainLo, plainHi)
    requires if val == [] then jumpLo == jumpHi == |sa| else IsMatchRange(t, sa, val, jumpLo, jumpHi)
    ensures (plainLo, plainHi) == (jumpLo, jumpHi) <==> val != []
    ensures val == [] ==> (plainLo, plainHi) == (0, |sa|)
  {
    if val == [] {
      forall q | 0 <= q < |sa| ensures StartsWith(t, sa[q], val) {
        assert t[sa[q]..sa[q] + |val|] == val;
      }
      assert IsMatchRange(t, sa, val, 0, |sa|);
      MatchRangeUnique(t, sa, val, plainLo, plainHi, 0, |sa|);
    } else {
      MatchRangeUnique(t, sa, val, plainLo, plainHi, jumpLo, jumpHi);
    }
  }
}
