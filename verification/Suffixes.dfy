/** Suffix order and suffix arrays.
    A text is a sequence of characters of an unsigned alphabet; the suffix starting at
    position |t| is the empty suffix, which the program keeps as an explicit entry. */
module Suffixes {

  type Text = seq<nat>

  /** Lexicographic comparison of the suffixes starting at i and j (a proper prefix is smaller). */
  predicate SufLt(t: Text, i: nat, j: nat)
    requires i <= |t| && j <= |t|
    decreases |t| - i
  {
    j < |t| && (i == |t| || t[i] < t[j] || (t[i] == t[j] && SufLt(t, i + 1, j + 1)))
  }

  lemma {:induction false} SufLtIrreflexive(t: Text, i: nat)
    requires i <= |t|
    ensures !SufLt(t, i, i)
    decreases |t| - i
  {
    if i < |t| {
      SufLtIrreflexive(t, i + 1);
    }
  }

  lemma {:induction false} SufLtTransitive(t: Text, i: nat, j: nat, k: nat)
    requires i <= |t| && j <= |t| && k <= |t|
    requires SufLt(t, i, j) && SufLt(t, j, k)
    ensures SufLt(t, i, k)
    decreases |t| - i
  {
    if i < |t| && t[i] == t[j] == t[k] {
      SufLtTransitive(t, i + 1, j + 1, k + 1);
    }
  }

  lemma {:induction false} SufLtTotal(t: Text, i: nat, j: nat)
    requires i <= |t| && j <= |t| && i != j
    ensures SufLt(t, i, j) || SufLt(t, j, i)
    decreases |t| - i
  {
    if i < |t| && j < |t| && t[i] == t[j] {
      SufLtTotal(t, i + 1, j + 1);
    }
  }

  lemma SufLtAsymmetric(t: Text, i: nat, j: nat)
    requires i <= |t| && j <= |t| && SufLt(t, i, j)
    ensures !SufLt(t, j, i)
  {
    if SufLt(t, j, i) {
      SufLtTransitive(t, i, j, i);
      SufLtIrreflexive(t, i);
    }
  }

  // ---------- suffix arrays ----------

  lemma SliceHead(t: Text, i: nat, d: nat)
    requires 0 < d && i + d <= |t|
    ensures t[i..i + d][0] == t[i]
  {
  }

  predicate InRange(n: nat, a: seq<int>) {
    forall q {:trigger a[q]} :: 0 <= q < |a| ==> 0 <= a[q] <= n
  }

  /** a lists n + 1 positions of t, the suffixes in strictly ascending order. */
  predicate IsSuffixArray(t: Text, a: seq<int>) {
    && |a| == |t| + 1
    && InRange(|t|, a)
    && forall p, q :: 0 <= p < q < |a| ==> SufLt(t, a[p], a[q])
  }

  predicate Distinct(a: seq<int>) {
    forall p, q :: 0 <= p < q < |a| ==> a[p] != a[q]
  }

  lemma SubsetCard<T>(a: set<T>, b: set<T>)
    requires a <= b
    ensures |a| <= |b|
    ensures |a| == |b| ==> a == b
  {
    assert b == a + (b - a);
    assert |b| == |a| + |b - a|;
  }

  ghost function Values(a: seq<int>): (s: set<int>)
    ensures forall x :: x in s <==> x in a
  {
    set x | x in a
  }

  lemma {:induction false} ValuesCard(a: seq<int>)
    requires Distinct(a)
    ensures |Values(a)| == |a|
  {
    if a != [] {
      var b := a[..|a| - 1];
      var last := a[|a| - 1];
      ValuesCard(b);
      assert a == b + [last];
      assert last !in b;
      assert Values(a) == Values(b) + {last};
    }
  }

  /** Distinct members of s fill at most |s| slots; if they fill |s| slots they are all of s. */
  lemma Pigeonhole(a: seq<int>, s: set<int>)
    requires Distinct(a)
    requires forall x :: x in a ==> x in s
    ensures |a| <= |s|
    ensures |a| == |s| ==> forall x :: x in s ==> x in a
  {
    ValuesCard(a);
    SubsetCard(Values(a), s);
  }

  /** The positions 0 .. n. */
  ghost function UpTo(n: nat): (s: set<int>)
    ensures forall x :: x in s <==> 0 <= x <= n
    ensures |s| == n + 1
  {
    if n == 0 then {0} else UpTo(n - 1) + {n}
  }

  lemma SuffixArrayDistinct(t: Text, a: seq<int>)
    requires IsSuffixArray(t, a)
    ensures Distinct(a)
  {
    forall p, q | 0 <= p < q < |a| ensures a[p] != a[q] {
      SufLtIrreflexive(t, a[p]);
    }
  }

  /** A suffix array is a permutation of the positions 0 .. |t|, and starts with the empty suffix. */
  lemma SuffixArrayIsPermutation(t: Text, a: seq<int>)
    requires IsSuffixArray(t, a)
    ensures Distinct(a)
    ensures forall i :: 0 <= i <= |t| <==> i in a
    ensures a[0] == |t|
  {
    SuffixArrayDistinct(t, a);
    Pigeonhole(a, UpTo(|t|));
    assert |t| in UpTo(|t|);
    var q :| 0 <= q < |a| && a[q] == |t|;
    var first := a[0];
    if q > 0 {
      assert false;
    }
  }

  /** Inside a suffix array rank order and suffix order are the same. */
  lemma RankOrder(t: Text, a: seq<int>, p: nat, q: nat)
    requires IsSuffixArray(t, a) && p < |a| && q < |a|
    ensures p < q <==> SufLt(t, a[p], a[q])
  {
    if p == q {
      SufLtIrreflexive(t, a[p]);
    } else if q < p {
      assert SufLt(t, a[q], a[p]);
      SufLtAsymmetric(t, a[q], a[p]);
    }
  }

  /** There is only one suffix array of a text. */
  lemma SuffixArrayUnique(t: Text, a: seq<int>, b: seq<int>)
    requires IsSuffixArray(t, a) && IsSuffixArray(t, b)
    ensures a == b
  {
    forall p | 0 <= p < |a| ensures a[p] == b[p] {
      SuffixArrayAgree(t, a, b, p);
    }
  }

  lemma {:induction false} SuffixArrayAgree(t: Text, a: seq<int>, b: seq<int>, p: nat)
    requires IsSuffixArray(t, a) && IsSuffixArray(t, b) && p < |a|
    ensures forall k :: 0 <= k <= p ==> a[k] == b[k]
  {
    if p > 0 {
      SuffixArrayAgree(t, a, b, p - 1);
    }
    SuffixArrayIsPermutation(t, a);
    SuffixArrayIsPermutation(t, b);
    assert a[p] in b && b[p] in a;
    var q :| 0 <= q < |b| && b[q] == a[p];
    var r :| 0 <= r < |a| && a[r] == b[p];
    assert q >= p && r >= p;
    RankOrder(t, b, p, q);
    RankOrder(t, a, p, r);
    if p < q {
      SufLtAsymmetric(t, b[p], a[p]);
    }
  }
}
