/** Suffix array construction by induced sorting, with an explicit stack instead of recursion. */
module SAIS {
  import opened Suffixes
  import opened SuffixTypes
  import opened Buckets
  import opened InducedSort
  import opened RightScan
  import opened Summary

  /** What one reduction step keeps for the way back: the text, its types, the LMS positions in
      text order, and the character counts. */
  datatype Level = Level(text: Text, stypes: seq<bool>, summIdc: seq<int>, counts: seq<nat>)

  ghost predicate LevelOk(el: Level, sub: nat) {
    && 1 <= |el.text|
    && IsTypeArray(el.text, el.stypes)
    && CharsFrom(el.text, sub, |el.counts|)
    && IsCounts(el.text, sub, el.counts)
  }

  /** summ is the summary of the level's text. */
  ghost predicate Reduces(el: Level, summ: Text) {
    exists size :: IsSummary(el.text, el.summIdc, summ, size)
  }

  /** Text-order seeding up to i: exactly the LMS positions below i are in their buckets. */
  ghost predicate GuessInv(t: Text, r: seq<int>, sub: nat, a: seq<int>, cursors: seq<int>, i: nat)
    requires |r| == |t| + 1
  {
    && SeedInv(t, r, sub, a, cursors)
    && (forall k {:trigger k in a} :: k in a ==> k < i)
    && (forall m {:trigger IsLMS(t, m)} :: 0 <= m < i && m <= |t| && IsLMS(t, m) ==> m in a)
  }

  lemma GuessStep(t: Text, r: seq<int>, sub: nat, a: seq<int>, cursors: seq<int>, i: nat, c: nat)
    requires |r| == |t| + 1 && (forall k :: 0 <= k <= |t| ==> r[k] == -k)
    requires GuessInv(t, r, sub, a, cursors, i)
    requires i < |t| && IsLMS(t, i) && c == t[i] - sub
    ensures c < |cursors| && 0 <= cursors[c] < |a|
    ensures GuessInv(t, r, sub, a[cursors[c] := i], cursors[c := cursors[c] - 1], i + 1)
  {
    SeedWrite(t, r, sub, a, cursors, i, c);
    var b := a[cursors[c] := i];
    forall k | k in b ensures k < i + 1 {
      assert k != INVALID ==> k in a || k == i;
    }
    forall m | 0 <= m < i + 1 && m <= |t| && IsLMS(t, m) ensures m in b {
      assert m < i ==> m in a;
    }
  }

  /** First guess: LMS positions in text order, each bucket filled from its tail. */
  method GuessSortLMS(t: Text, stypes: seq<bool>, tails: seq<int>, sub: nat, ghost heads: seq<int>)
    returns (guessedSA: array<int>)
    requires 1 <= |t| && IsTypeArray(t, stypes) && CharsFrom(t, sub, |tails|)
    requires |heads| == |tails| && AreHeads(t, sub, heads) && AreTails(t, sub, tails)
    ensures fresh(guessedSA) && IsSeed(t, guessedSA[..])
  {
    guessedSA := new int[|t| + 1](_ => INVALID);
    var cursors := tails;
    ghost var r := seq(|t| + 1, i => -i);
    SeedInit(t, r, sub, guessedSA[..], cursors);
    var i := 1;
    while i < |t|
      invariant 1 <= i <= |t| && fresh(guessedSA) && guessedSA.Length == |t| + 1
      invariant |cursors| == |tails| && GuessInv(t, r, sub, guessedSA[..], cursors, i)
    {
      if stypes[i] && !stypes[i - 1] {
        ghost var a := guessedSA[..];
        GuessStep(t, r, sub, a, cursors, i, t[i] - sub);
        guessedSA[cursors[t[i] - sub]] := i;
        assert guessedSA[..] == a[cursors[t[i] - sub] := i];
        cursors := cursors[t[i] - sub := cursors[t[i] - sub] - 1];
      } else {
        assert !IsLMS(t, i);
      }
      i := i + 1;
    }
    SeedDone(t, r, sub, guessedSA[..], cursors, heads);
    ghost var a := guessedSA[..];
    guessedSA[0] := |t|;
    assert guessedSA[..] == a[0 := |t|];
    StartIsSeed(t, r, sub, guessedSA[..], heads);
  }

  /** Inverse of a summary whose names all differ: its suffix array. */
  method RetSummarySA(summary: Text) returns (summarySA: seq<int>)
    requires Distinct(summary)
    requires forall k :: 0 <= k < |summary| ==> summary[k] < |summary|
    ensures IsSuffixArray(summary, summarySA)
  {
    var sa := new int[|summary| + 1](_ => |summary|);
    for i := 0 to |summary|
      invariant sa[0] == |summary|
      invariant forall q :: 0 <= q < sa.Length ==> 0 <= sa[q] <= |summary|
      invariant forall k :: 0 <= k < i ==> sa[summary[k] + 1] == k
    {
      sa[summary[i] + 1] := i;
    }
    summarySA := sa[..];
    InverseIsSuffixArray(summary, summarySA);
  }

  lemma InverseIsSuffixArray(summary: Text, sa: seq<int>)
    requires Distinct(summary)
    requires forall k :: 0 <= k < |summary| ==> summary[k] < |summary|
    requires |sa| == |summary| + 1 && sa[0] == |summary| && InRange(|summary|, sa)
    requires forall k :: 0 <= k < |summary| ==> sa[summary[k] + 1] == k
    ensures IsSuffixArray(summary, sa)
  {
    Pigeonhole(summary, Names(|summary|));
    forall p, q | 0 <= p < q < |sa| ensures SufLt(summary, sa[p], sa[q]) {
      assert q - 1 in Names(|summary|);
      var j :| 0 <= j < |summary| && summary[j] == q - 1;
      assert sa[summary[j] + 1] == j;
      if p > 0 {
        assert p - 1 in Names(|summary|);
        var i :| 0 <= i < |summary| && summary[i] == p - 1;
        assert sa[summary[i] + 1] == i;
      }
    }
  }

  // ---------- seeding from the summary's suffix array ----------

  /** The rank of LMS position m: where the summary's suffix array lists its slot. */
  ghost function RankOf(idc: seq<int>, ssa: seq<int>, m: int): int {
    if exists i :: 0 <= i < |ssa| && 0 <= ssa[i] < |idc| && idc[ssa[i]] == m
    then var i :| 0 <= i < |ssa| && 0 <= ssa[i] < |idc| && idc[ssa[i]] == m; i
    else 0
  }

  ghost function Ranks(t: Text, idc: seq<int>, ssa: seq<int>): (r: seq<int>)
    ensures |r| == |t| + 1
  {
    seq(|t| + 1, m => RankOf(idc, ssa, m))
  }

  lemma RankIs(t: Text, idc: seq<int>, summ: Text, ssa: seq<int>, q: nat)
    requires IsLMSList(t, idc) && |summ| == |idc| && IsSuffixArray(summ, ssa)
    requires q < |ssa| && ssa[q] < |summ|
    ensures Ranks(t, idc, ssa)[idc[ssa[q]]] == q
  {
    var i := RankOf(idc, ssa, idc[ssa[q]]);
    assert 0 <= i < |ssa| && 0 <= ssa[i] < |idc| && idc[ssa[i]] == idc[ssa[q]];
    ListOrder(t, idc, ssa[i], ssa[q]);
    ListOrder(t, idc, ssa[q], ssa[i]);
    SuffixArrayDistinct(summ, ssa);
  }

  lemma EndIsSmallest(summ: Text, f: nat)
    requires f + 1 < |summ| && (forall k :: 0 <= k < |summ| ==> (summ[k] == 0 <==> k == |summ| - 1))
    ensures !SufLt(summ, f, |summ| - 1)
  {
  }

  /** Every LMS position is listed in the summary's suffix array; the end in slot 1. */
  lemma RankedLMS(t: Text, idc: seq<int>, summ: Text, size: nat, ssa: seq<int>, m: nat) returns (q: nat)
    requires 1 <= |t| && IsSummary(t, idc, summ, size) && IsSuffixArray(summ, ssa)
    requires m <= |t| && IsLMS(t, m)
    ensures q < |ssa| && ssa[q] < |summ| && idc[ssa[q]] == m
    ensures q >= 1 && (q == 1 <==> m == |t|)
  {
    SuffixArrayIsPermutation(summ, ssa);
    LastLMS(t, idc);
    var k :| 0 <= k < |idc| && idc[k] == m;
    assert k in ssa;
    q :| 0 <= q < |ssa| && ssa[q] == k;
    var last := |summ| - 1;
    assert last in ssa;
    var e :| 0 <= e < |ssa| && ssa[e] == last;
    var f := ssa[1];
    if e > 1 {
      EndIsSmallest(summ, f);
    }
    ListOrder(t, idc, k, last);
  }

  lemma RanksAreTrue(t: Text, idc: seq<int>, summ: Text, size: nat, ssa: seq<int>)
    requires 1 <= |t| && IsSummary(t, idc, summ, size) && IsSuffixArray(summ, ssa)
    ensures TrueRanks(t, Ranks(t, idc, ssa))
  {
    var r := Ranks(t, idc, ssa);
    forall a: nat, b: nat | a <= |t| && b <= |t| && IsLMS(t, a) && IsLMS(t, b) && r[a] < r[b]
      ensures SufLt(t, a, b)
    {
      var p := RankedLMS(t, idc, summ, size, ssa, a);
      var q := RankedLMS(t, idc, summ, size, ssa, b);
      RankIs(t, idc, summ, ssa, p);
      RankIs(t, idc, summ, ssa, q);
      assert SufLt(summ, ssa[p], ssa[q]);
      SummaryPreservesOrder(t, idc, summ, size, ssa[p], ssa[q]);
    }
  }

  /** The entries above the two smallest ranks of the summary name LMS positions before the end. */
  lemma SeedPosition(t: Text, idc: seq<int>, summ: Text, size: nat, ssa: seq<int>, i: nat)
    requires 1 <= |t| && IsSummary(t, idc, summ, size) && IsSuffixArray(summ, ssa)
    requires 1 < i < |ssa|
    ensures 0 <= ssa[i] < |idc| && 0 <= idc[ssa[i]] < |t| && IsLMS(t, idc[ssa[i]])
    ensures Ranks(t, idc, ssa)[idc[ssa[i]]] == i
  {
    SuffixArrayIsPermutation(summ, ssa);
    assert ssa[i] != ssa[0];
    RankIs(t, idc, summ, ssa, i);
    var q := RankedLMS(t, idc, summ, size, ssa, idc[ssa[i]]);
    RankIs(t, idc, summ, ssa, q);
  }

  /** Seeding by descending summary rank: exactly the positions of the ranks above i are in. */
  ghost predicate RankedInv(t: Text, idc: seq<int>, ssa: seq<int>, sub: nat, a: seq<int>, cursors: seq<int>, i: nat) {
    var r := Ranks(t, idc, ssa);
    && InRange(|idc|, ssa)
    && SeedInv(t, r, sub, a, cursors)
    && (forall k {:trigger k in a} :: k in a && k != INVALID ==> 0 <= k <= |t| && i < r[k])
    && (forall q {:trigger ssa[q]} :: i < q < |ssa| && ssa[q] < |idc| ==> idc[ssa[q]] in a)
  }

  lemma RankedStep(t: Text, idc: seq<int>, ssa: seq<int>, sub: nat, a: seq<int>, cursors: seq<int>, i: nat, m: nat,
                   c: nat)
    requires 1 < i < |ssa| && RankedInv(t, idc, ssa, sub, a, cursors, i)
    requires 0 <= ssa[i] < |idc| && m == idc[ssa[i]] && m < |t| && IsLMS(t, m) && Ranks(t, idc, ssa)[m] == i
    requires c == t[m] - sub && forall k {:trigger idc[k]} :: 0 <= k < |idc| ==> idc[k] != INVALID
    ensures c < |cursors| && 0 <= cursors[c] < |a|
    ensures RankedInv(t, idc, ssa, sub, a[cursors[c] := m], cursors[c := cursors[c] - 1], i - 1)
  {
    var r := Ranks(t, idc, ssa);
    SeedWrite(t, r, sub, a, cursors, m, c);
    var b := a[cursors[c] := m];
    forall k | k in b && k != INVALID ensures 0 <= k <= |t| && i - 1 < r[k] {
      assert k in a || k == m;
    }
    forall q | i - 1 < q < |ssa| && ssa[q] < |idc| ensures idc[ssa[q]] in b {
      assert q > i ==> idc[ssa[q]] in a;
    }
  }

  lemma RankedInit(t: Text, idc: seq<int>, ssa: seq<int>, sub: nat, a: seq<int>, tails: seq<int>)
    requires InRange(|idc|, ssa) && CharsFrom(t, sub, |tails|) && AreTails(t, sub, tails)
    requires |a| == |t| + 1 && forall q :: 0 <= q < |a| ==> a[q] == INVALID
    requires |ssa| >= 1
    ensures RankedInv(t, idc, ssa, sub, a, tails, |ssa| - 1)
  {
    SeedInit(t, Ranks(t, idc, ssa), sub, a, tails);
  }

  lemma RankedDone(t: Text, idc: seq<int>, summ: Text, size: nat, ssa: seq<int>, sub: nat, a: seq<int>,
                   cursors: seq<int>, heads: seq<int>)
    requires 1 <= |t| && IsSummary(t, idc, summ, size) && IsSuffixArray(summ, ssa)
    requires RankedInv(t, idc, ssa, sub, a, cursors, 1)
    requires |heads| == |cursors| && AreHeads(t, sub, heads)
    ensures |a| == |t| + 1 && LeftInv(t, Ranks(t, idc, ssa), sub, a[0 := |t|], heads, 0)
  {
    forall m | 0 <= m < |t| && IsLMS(t, m) ensures m in a {
      var q := RankedLMS(t, idc, summ, size, ssa, m);
      assert idc[ssa[q]] in a;
    }
    SeedDone(t, Ranks(t, idc, ssa), sub, a, cursors, heads);
  }

  /** LMS positions in the order of the summary's suffix array; the two smallest ranks, the
      summary's empty suffix and its final 0, are skipped and the end is put in slot 0. */
  method LMSSort(t: Text, tails: seq<int>, stypes: seq<bool>, summarySA: seq<int>, summIdc: seq<int>, sub: nat,
                 ghost summ: Text, ghost size: nat, ghost heads: seq<int>)
    returns (suffIdc: array<int>)
    requires 1 <= |t| && IsTypeArray(t, stypes) && CharsFrom(t, sub, |tails|)
    requires |heads| == |tails| && AreHeads(t, sub, heads) && AreTails(t, sub, tails)
    requires IsSummary(t, summIdc, summ, size) && IsSuffixArray(summ, summarySA)
    ensures fresh(suffIdc)
    ensures LeftInv(t, Ranks(t, summIdc, summarySA), sub, suffIdc[..], heads, 0)
  {
    suffIdc := new int[|t| + 1](_ => INVALID);
    var cursors := tails;
    RankedInit(t, summIdc, summarySA, sub, suffIdc[..], cursors);
    var i := |summarySA| - 1;
    while i > 1
      invariant 1 <= i < |summarySA| && fresh(suffIdc) && suffIdc.Length == |t| + 1
      invariant |cursors| == |tails| && RankedInv(t, summIdc, summarySA, sub, suffIdc[..], cursors, i)
    {
      ghost var a := suffIdc[..];
      SeedPosition(t, summIdc, summ, size, summarySA, i);
      var idx := summIdc[summarySA[i]];
      var c := t[idx] - sub;
      RankedStep(t, summIdc, summarySA, sub, a, cursors, i, idx, c);
      suffIdc[cursors[c]] := idx;
      assert suffIdc[..] == a[cursors[c] := idx];
      cursors := cursors[c := cursors[c] - 1];
      i := i - 1;
    }
    RankedDone(t, summIdc, summ, size, summarySA, sub, suffIdc[..], cursors, heads);
    ghost var a := suffIdc[..];
    suffIdc[0] := |t|;
    assert suffIdc[..] == a[0 := |t|];
  }

  // ---------- one level down, one level up ----------

  lemma HeadsAndTails(t: Text, sub: nat, counts: seq<nat>, heads: seq<int>, tails: seq<int>)
    requires CharsFrom(t, sub, |counts|) && IsCounts(t, sub, counts) && |heads| == |tails| == |counts|
    requires forall c :: 0 <= c < |counts| ==> heads[c] == 1 + Sum(counts, c)
    requires forall c :: 0 <= c < |counts| ==> tails[c] == Sum(counts, c + 1)
    ensures AreHeads(t, sub, heads) && AreTails(t, sub, tails)
  {
    BucketsAreRegions(t, sub, counts, heads, tails);
  }

  /** Both scans over a seeded array. */
  method InduceSort(seeded: array<int>, t: Text, stypes: seq<bool>, heads: seq<int>, tails: seq<int>, sub: nat,
                    ghost r: seq<int>)
    requires 1 <= |t| && IsTypeArray(t, stypes) && |r| == |t| + 1
    requires LeftInv(t, r, sub, seeded[..], heads, 0)
    requires |heads| == |tails| && AreTails(t, sub, tails)
    modifies seeded
    ensures InducedSorted(t, r, seeded[..])
  {
    var h := new int[|heads|](i requires 0 <= i < |heads| => heads[i]);
    var l := new int[|tails|](i requires 0 <= i < |tails| => tails[i]);
    assert h[..] == heads && l[..] == tails;
    LInduceSort(seeded, t, stypes, h, sub, r);
    RightInit(t, r, sub, seeded[..], h[..], l[..]);
    SInduceSort(seeded, t, stypes, l, sub, r);
  }

  /** Both scans over any array that holds every LMS position once in its bucket: the positions come
      out in nondecreasing LMS-substring order. */
  method InduceSubstrings(seeded: array<int>, t: Text, stypes: seq<bool>, heads: seq<int>, tails: seq<int>, sub: nat)
    returns (ghost r: seq<int>)
    requires 1 <= |t| && IsTypeArray(t, stypes) && IsSeed(t, seeded[..])
    requires |heads| == |tails| && CharsFrom(t, sub, |heads|) && AreHeads(t, sub, heads) && AreTails(t, sub, tails)
    modifies seeded
    ensures |r| == |t| + 1 && InducedSorted(t, r, seeded[..])
    ensures forall p, q :: 0 <= p < q < seeded.Length ==> !SubstringLt(t, seeded[q], seeded[p])
    ensures Distinct(seeded[..]) && forall m :: 0 <= m <= |t| ==> m in seeded[..]
  {
    r := Slots(t, seeded[..]);
    SeedHasRanks(t, sub, seeded[..], heads);
    InduceSort(seeded, t, stypes, heads, tails, sub, r);
    SubstringsAscend(t, r, seeded[..]);
    assert forall p :: 0 <= p < seeded.Length ==> seeded[..][p] == seeded[p];
  }

  /** Reduces a text to its summary, whose alphabet is 0 .. summAlphS' - 1. */
  method ToStack(t: Text, summAlphS: nat, min: nat) returns (el: Level, summary: Text, summAlphS': nat)
    requires 1 <= |t| && min <= summAlphS && CharsFrom(t, min, summAlphS - min)
    ensures el.text == t && LevelOk(el, min)
    ensures IsSummary(t, el.summIdc, summary, summAlphS')
  {
    var stypes := MakeSTypes(t);
    var counted := new nat[summAlphS - min](_ => 0);
    MakeCounts(t, counted, min);
    var counts := counted[..];
    var tails := MakeBuckets(counts, false);
    ghost var heads0 := seq(|counts|, c requires 0 <= c < |counts| => 1 + Sum(counts, c));
    HeadsAndTails(t, min, counts, heads0, tails);
    var guessedSA := GuessSortLMS(t, stypes, tails, min, heads0);
    var heads := MakeBuckets(counts, true);
    assert heads == heads0;
    ghost var r := InduceSubstrings(guessedSA, t, stypes, heads, tails, min);
    var summIdc;
    summary, summIdc, summAlphS' := SummarizeSA(t, guessedSA[..], stypes, r);
    el := Level(t, stypes, summIdc, counts);
  }

  lemma InducedIsSuffixArray(t: Text, r: seq<int>, a: seq<int>)
    requires TrueRanks(t, r) && InducedSorted(t, r, a)
    ensures IsSuffixArray(t, a)
  {
    forall p, q | 0 <= p < q < |a| ensures SufLt(t, a[p], a[q]) {
      InducedIsSuffixOrder(t, r, a[p], a[q]);
    }
  }

  /** Unwinds one level: from the suffix array of the summary to the suffix array of the text. */
  method FromStack(top: Level, summarySA: seq<int>, min: nat, ghost summ: Text) returns (idc: seq<int>)
    requires LevelOk(top, min) && Reduces(top, summ) && IsSuffixArray(summ, summarySA)
    ensures IsSuffixArray(top.text, idc)
  {
    var t := top.text;
    ghost var size :| IsSummary(t, top.summIdc, summ, size);
    var tails := MakeBuckets(top.counts, false);
    var heads := MakeBuckets(top.counts, true);
    HeadsAndTails(t, min, top.counts, heads, tails);
    var suffIdc := LMSSort(t, tails, top.stypes, summarySA, top.summIdc, min, summ, size, heads);
    ghost var r := Ranks(t, top.summIdc, summarySA);
    InduceSort(suffIdc, t, top.stypes, heads, tails, min, r);
    RanksAreTrue(t, top.summIdc, summ, size, summarySA);
    InducedIsSuffixArray(t, r, suffIdc[..]);
    idc := suffIdc[..];
  }

  // ---------- the whole construction ----------

  /** The stack holds a chain of reductions: texts[k + 1] is the summary of the level of texts[k]. */
  ghost predicate IsChain(stack: seq<Level>, texts: seq<Text>) {
    && |texts| == |stack| + 1
    && forall k {:trigger stack[k]} :: 0 <= k < |stack| ==>
         LevelOk(stack[k], 0) && stack[k].text == texts[k] && Reduces(stack[k], texts[k + 1])
  }

  /** A summary with two equal names is shorter than its text and has at least two entries. */
  lemma ReductionShrinks(t: Text, idc: seq<int>, summ: Text, size: nat)
    requires 1 <= |t| && IsSummary(t, idc, summ, size) && |summ| != size
    ensures 2 <= |summ| < |t|
    ensures CharsFrom(summ, 0, size)
  {
    AllNamesDiffer(t, idc, summ, size);
    SummaryAtMostHalf(t, idc, summ, size);
    assert summ[0] < size;
  }

  /** The suffix array of a text whose characters lie between min and max. */
  method BuildSuffixArray(t: Text, max: nat, min: nat) returns (sa: seq<int>)
    requires 1 <= |t| && forall i :: 0 <= i < |t| ==> min <= t[i] <= max
    ensures IsSuffixArray(t, sa)
  {
    assert min <= t[0] <= max;
    var first, newText, summAlphS := ToStack(t, max + 1, min);
    ghost var idc, before := first.summIdc, t;
    var stack: seq<Level> := [];
    ghost var texts := [newText];
    while |newText| != summAlphS
      invariant IsChain(stack, texts) && texts[|stack|] == newText
      invariant LevelOk(first, min) && first.text == t && Reduces(first, texts[0])
      invariant 1 <= |before| && IsSummary(before, idc, newText, summAlphS)
      decreases |newText|
    {
      ReductionShrinks(before, idc, newText, summAlphS);
      var el, summary, size := ToStack(newText, summAlphS, 0);
      SummaryAtMostHalf(newText, el.summIdc, summary, size);
      stack, texts := stack + [el], texts + [summary];
      before, idc := newText, el.summIdc;
      newText, summAlphS := summary, size;
    }
    AllNamesDiffer(before, idc, newText, summAlphS);
    var summary := RetSummarySA(newText);
    while |stack| != 0
      invariant IsChain(stack, texts) && IsSuffixArray(texts[|stack|], summary)
      invariant LevelOk(first, min) && first.text == t && Reduces(first, texts[0])
      decreases |stack|
    {
      var top := stack[|stack| - 1];
      summary := FromStack(top, summary, 0, texts[|stack|]);
      stack, texts := stack[..|stack| - 1], texts[..|texts| - 1];
    }
    sa := FromStack(first, summary, min, texts[0]);
  }
}
