/** Character counts, and the slots each class of positions owns in the array. */
module Buckets {
  import opened Suffixes
  import opened SuffixTypes

  ghost function ClassSet(t: Text, x: int): set<int> {
    set k | 0 <= k <= |t| && Class(t, k) == x
  }

  ghost function ClassesBelow(t: Text, x: int): set<int> {
    set k | 0 <= k <= |t| && Class(t, k) < x
  }

  /** The first slot of class x: as many slots precede it as positions have a smaller class. */
  ghost function Start(t: Text, x: int): nat {
    |ClassesBelow(t, x)|
  }

  lemma StartStep(t: Text, x: int)
    ensures Start(t, x + 1) == Start(t, x) + |ClassSet(t, x)|
  {
    assert ClassesBelow(t, x + 1) == ClassesBelow(t, x) + ClassSet(t, x);
  }

  lemma StartMonotone(t: Text, x: int, y: int)
    requires x <= y
    ensures Start(t, x) <= Start(t, y)
  {
    SubsetCard(ClassesBelow(t, x), ClassesBelow(t, y));
  }

  lemma StartEmptySuffix(t: Text)
    ensures Start(t, -1) == 0 && Start(t, 0) == 1
  {
    assert ClassesBelow(t, -1) == {};
    assert ClassesBelow(t, 0) == {|t|};
  }

  ghost predicate CharsFrom(t: Text, sub: nat, size: nat) {
    forall i :: 0 <= i < |t| ==> sub <= t[i] < sub + size
  }

  lemma StartTop(t: Text, sub: nat, size: nat)
    requires CharsFrom(t, sub, size)
    ensures Start(t, 2 * sub) == 1
    ensures Start(t, 2 * (sub + size)) == |t| + 1
  {
    assert ClassesBelow(t, 2 * sub) == {|t|};
    assert ClassesBelow(t, 2 * (sub + size)) == UpTo(|t|);
  }

  /** Every slot belongs to the region of one class. */
  lemma {:induction false} SlotClass(t: Text, q: nat, top: int) returns (x: int)
    requires -1 <= top && q < Start(t, top)
    ensures -1 <= x < top && Start(t, x) <= q < Start(t, x + 1)
    decreases top + 1
  {
    if top == -1 {
      StartEmptySuffix(t);
      assert false;
    } else if q < Start(t, top - 1) {
      x := SlotClass(t, q, top - 1);
    } else {
      x := top - 1;
    }
  }

  // ---------- counts ----------

  ghost function Occurrences(t: Text, c: nat): set<int> {
    set i | 0 <= i < |t| && t[i] == c
  }

  ghost predicate IsCounts(t: Text, sub: nat, counts: seq<nat>) {
    forall c :: 0 <= c < |counts| ==> counts[c] == |Occurrences(t, c + sub)|
  }

  lemma OccurrencesStep(t: Text, i: nat, c: nat)
    requires i < |t|
    ensures |Occurrences(t[..i + 1], c)| == |Occurrences(t[..i], c)| + (if t[i] == c then 1 else 0)
  {
    if t[i] == c {
      assert Occurrences(t[..i + 1], c) == Occurrences(t[..i], c) + {i};
    } else {
      assert Occurrences(t[..i + 1], c) == Occurrences(t[..i], c);
    }
  }

  method MakeCounts(t: Text, counts: array<nat>, sub: nat)
    requires CharsFrom(t, sub, counts.Length)
    requires forall c :: 0 <= c < counts.Length ==> counts[c] == 0
    modifies counts
    ensures IsCounts(t, sub, counts[..])
  {
    var it := 0;
    assert forall c: nat :: Occurrences(t[..0], c) == {};
    while it < |t|
      invariant 0 <= it <= |t|
      invariant forall c :: 0 <= c < counts.Length ==> counts[c] == |Occurrences(t[..it], c + sub)|
    {
      forall c: nat ensures |Occurrences(t[..it + 1], c)| == |Occurrences(t[..it], c)| + (if t[it] == c then 1 else 0) {
        OccurrencesStep(t, it, c);
      }
      counts[t[it] - sub] := counts[t[it] - sub] + 1;
      it := it + 1;
    }
    assert t[..it] == t;
  }

  // ---------- buckets ----------

  function Sum(s: seq<nat>, k: nat): nat
    requires k <= |s|
  {
    if k == 0 then 0 else Sum(s, k - 1) + s[k - 1]
  }

  /** Heads start at 1, behind the slot of the empty suffix; a tail is the last slot of its bucket. */
  method MakeBuckets(counts: seq<nat>, heads: bool) returns (buckets: seq<int>)
    ensures |buckets| == |counts|
    ensures heads ==> forall c :: 0 <= c < |counts| ==> buckets[c] == 1 + Sum(counts, c)
    ensures !heads ==> forall c :: 0 <= c < |counts| ==> buckets[c] == Sum(counts, c + 1)
  {
    buckets := [];
    if heads {
      var sum := 1;
      for it := 0 to |counts|
        invariant |buckets| == it && sum == 1 + Sum(counts, it)
        invariant forall c :: 0 <= c < it ==> buckets[c] == 1 + Sum(counts, c)
      {
        buckets := buckets + [sum];
        sum := sum + counts[it];
      }
    } else {
      var sum := 0;
      for it := 0 to |counts|
        invariant |buckets| == it && sum == Sum(counts, it)
        invariant forall c :: 0 <= c < it ==> buckets[c] == Sum(counts, c + 1)
      {
        sum := sum + counts[it];
        buckets := buckets + [sum];
      }
    }
  }

  lemma OccurrencesClasses(t: Text, c: nat)
    ensures |Occurrences(t, c)| == |ClassSet(t, 2 * c)| + |ClassSet(t, 2 * c + 1)|
  {
    assert Occurrences(t, c) == ClassSet(t, 2 * c) + ClassSet(t, 2 * c + 1);
  }

  /** Prefix sums of the counts are the bucket boundaries. */
  lemma {:induction false} SumIsStart(t: Text, sub: nat, counts: seq<nat>, c: nat)
    requires CharsFrom(t, sub, |counts|) && IsCounts(t, sub, counts) && c <= |counts|
    ensures 1 + Sum(counts, c) == Start(t, 2 * (c + sub))
  {
    if c == 0 {
      StartTop(t, sub, |counts|);
    } else {
      SumIsStart(t, sub, counts, c - 1);
      var x := 2 * (c - 1 + sub);
      StartStep(t, x);
      StartStep(t, x + 1);
      OccurrencesClasses(t, c - 1 + sub);
    }
  }

  ghost predicate AreHeads(t: Text, sub: nat, heads: seq<int>) {
    forall c :: 0 <= c < |heads| ==> heads[c] == Start(t, 2 * (c + sub))
  }

  ghost predicate AreTails(t: Text, sub: nat, tails: seq<int>) {
    forall c :: 0 <= c < |tails| ==> tails[c] == Start(t, 2 * (c + sub) + 2) - 1
  }

  /** The buckets built from the counts are the class regions: heads where the L-type half of a
      character begins, tails where its S-type half ends. */
  lemma BucketsAreRegions(t: Text, sub: nat, counts: seq<nat>, heads: seq<int>, tails: seq<int>)
    requires CharsFrom(t, sub, |counts|) && IsCounts(t, sub, counts)
    requires |heads| == |tails| == |counts|
    requires forall c :: 0 <= c < |counts| ==> heads[c] == 1 + Sum(counts, c)
    requires forall c :: 0 <= c < |counts| ==> tails[c] == Sum(counts, c + 1)
    ensures AreHeads(t, sub, heads) && AreTails(t, sub, tails)
  {
    forall c | 0 <= c < |counts|
      ensures heads[c] == Start(t, 2 * (c + sub)) && tails[c] == Start(t, 2 * (c + sub) + 2) - 1
    {
      SumIsStart(t, sub, counts, c);
      SumIsStart(t, sub, counts, c + 1);
      assert 2 * (c + 1 + sub) == 2 * (c + sub) + 2;
    }
  }
}
