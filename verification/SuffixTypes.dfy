/** S-type and L-type positions, LMS positions, and the orders that induced sorting works with. */
module SuffixTypes {
  import opened Suffixes

  /** A position is S-type when its character is smaller than the next one, or equal to it with
      the next position S-type. The empty suffix is S-type, the last character is L-type. */
  predicate IsS(t: Text, i: nat)
    requires i <= |t|
    decreases |t| - i
  {
    if i == |t| then true
    else if i == |t| - 1 then false
    else if t[i] > t[i + 1] || (t[i] == t[i + 1] && !IsS(t, i + 1)) then false
    else true
  }

  predicate IsTypeArray(t: Text, stypes: seq<bool>) {
    |stypes| == |t| + 1 && forall i :: 0 <= i <= |t| ==> stypes[i] == IsS(t, i)
  }

  /** Leftmost S-type: S-type with an L-type predecessor. Position 0 never is one. */
  predicate IsLMS(t: Text, i: nat)
    requires i <= |t|
  {
    0 < i && IsS(t, i) && !IsS(t, i - 1)
  }

  method MakeSTypes(t: Text) returns (stypes: seq<bool>)
    ensures IsTypeArray(t, stypes)
  {
    var types := new bool[|t| + 1];
    types[|t|] := true;
    if |t| != 0 {
      types[|t| - 1] := false;
      var i := |t| - 2;
      while i != -1
        invariant -1 <= i <= |t| - 1
        invariant i == -1 ==> |t| >= 1
        invariant i < |t| - 1
        invariant forall k :: i < k <= |t| ==> types[k] == IsS(t, k)
      {
        if t[i] > t[i + 1] || (t[i] == t[i + 1] && !types[i + 1]) {
          types[i] := false;
        } else {
          types[i] := true;
        }
        i := i - 1;
      }
    }
    stypes := types[..];
  }

  /** What the types mean: S-type positions are those whose suffix is smaller than the next one. */
  lemma {:induction false} TypeMeaning(t: Text, i: nat)
    requires i < |t|
    ensures IsS(t, i) <==> SufLt(t, i, i + 1)
    decreases |t| - i
  {
    if i + 1 < |t| && t[i] == t[i + 1] {
      TypeMeaning(t, i + 1);
    }
  }

  /** Among suffixes with the same first character the L-type ones come first. */
  lemma {:induction false} LBeforeS(t: Text, i: nat, j: nat)
    requires i < |t| && j < |t| && t[i] == t[j] && !IsS(t, i) && IsS(t, j)
    ensures SufLt(t, i, j)
    decreases |t| - i
  {
    if i + 1 < |t| && t[i + 1] == t[i] && t[j + 1] == t[j] {
      LBeforeS(t, i + 1, j + 1);
    }
  }

  // ---------- classes ----------

  /** The bucket half a position belongs to: by character, L before S; the empty suffix first. */
  function Class(t: Text, i: nat): int
    requires i <= |t|
  {
    if i == |t| then -1 else 2 * t[i] + (if IsS(t, i) then 1 else 0)
  }

  lemma ClassOrder(t: Text, i: nat, j: nat)
    requires i <= |t| && j <= |t|
    requires Class(t, i) < Class(t, j)
    ensures SufLt(t, i, j)
  {
    if i < |t| && t[i] == t[j] {
      LBeforeS(t, i, j);
    }
  }

  // ---------- the orders the two scans produce ----------

  /** Order of the L-type and LMS positions: by class, then an L-type position by its successor
      and an S-type position by the rank r it was seeded with. */
  predicate LeftLt(t: Text, r: seq<int>, i: nat, j: nat)
    requires i <= |t| && j <= |t| && |r| == |t| + 1
    decreases |t| - i
  {
    || Class(t, i) < Class(t, j)
    || (Class(t, i) == Class(t, j) &&
        if IsS(t, i) then r[i] < r[j] else LeftLt(t, r, i + 1, j + 1))
  }

  /** Order of all positions: by class, then S-type positions by their successors, L-type
      positions by LeftLt. */
  predicate InducedLt(t: Text, r: seq<int>, i: nat, j: nat)
    requires i <= |t| && j <= |t| && |r| == |t| + 1
    decreases |t| - i
  {
    || Class(t, i) < Class(t, j)
    || (Class(t, i) == Class(t, j) &&
        if !IsS(t, i) then LeftLt(t, r, i, j)
        else i < |t| && InducedLt(t, r, i + 1, j + 1))
  }

  lemma {:induction false} LeftIrreflexive(t: Text, r: seq<int>, i: nat)
    requires i <= |t| && |r| == |t| + 1
    ensures !LeftLt(t, r, i, i)
    decreases |t| - i
  {
    if !IsS(t, i) {
      LeftIrreflexive(t, r, i + 1);
    }
  }

  lemma {:induction false} InducedIrreflexive(t: Text, r: seq<int>, i: nat)
    requires i <= |t| && |r| == |t| + 1
    ensures !InducedLt(t, r, i, i)
    decreases |t| - i
  {
    if !IsS(t, i) {
      LeftIrreflexive(t, r, i);
    } else if i < |t| {
      InducedIrreflexive(t, r, i + 1);
    }
  }

  /** The LMS position at which the L-type run starting at i ends (i itself when S-type). */
  function LeftEnd(t: Text, i: nat): (e: nat)
    requires i <= |t|
    ensures i <= e <= |t| && IsS(t, e)
    ensures !IsS(t, i) ==> IsLMS(t, e) && forall k :: i <= k < e ==> !IsS(t, k)
    decreases |t| - i
  {
    if IsS(t, i) then i else LeftEnd(t, i + 1)
  }

  /** The first LMS position after i; the end itself for the end. */
  function NextLMS(t: Text, i: nat): (e: nat)
    requires i <= |t|
    ensures i <= e <= |t|
    ensures i < |t| ==> i < e && IsLMS(t, e)
    ensures forall k :: i < k < e ==> !IsLMS(t, k)
    decreases |t| - i
  {
    if i == |t| then i
    else if !IsS(t, i) then LeftEnd(t, i)
    else NextLMS(t, i + 1)
  }

  /** Equal classes from i and j up to the closing S-type position, included. */
  predicate LeftEq(t: Text, i: nat, j: nat)
    requires i <= |t| && j <= |t|
    decreases |t| - i
  {
    Class(t, i) == Class(t, j) && (IsS(t, i) || LeftEq(t, i + 1, j + 1))
  }

  /** Equal classes from i and j up to the next LMS position, included: for LMS positions,
      equal LMS substrings. */
  predicate SubstringEq(t: Text, i: nat, j: nat)
    requires i <= |t| && j <= |t|
    decreases |t| - i
  {
    && Class(t, i) == Class(t, j)
    && (if !IsS(t, i) then LeftEq(t, i, j) else i == |t| || SubstringEq(t, i + 1, j + 1))
  }

  function Zeros(t: Text): (r: seq<int>)
    ensures |r| == |t| + 1
  {
    seq(|t| + 1, _ => 0)
  }

  /** LMS-substring order: by character, then L before S, the closing position included. */
  predicate SubstringLt(t: Text, i: nat, j: nat)
    requires i <= |t| && j <= |t|
  {
    InducedLt(t, Zeros(t), i, j)
  }

  // ---------- how the orders relate to the suffix order ----------

  // ---------- what the LMS-substring order is ----------

  predicate SameClass(t: Text, i: nat, j: nat, l: nat) {
    i + l <= |t| && j + l <= |t| && Class(t, i + l) == Class(t, j + l)
  }

  /** The classes from i to ei and from j to ej differ at distance k first, where i has the lower one. */
  ghost predicate LowerAt(t: Text, i: nat, ei: nat, j: nat, ej: nat, k: nat)
    requires ei <= |t| && ej <= |t|
  {
    && i + k <= ei && j + k <= ej && Class(t, i + k) < Class(t, j + k)
    && forall l: nat {:trigger SameClass(t, i, j, l)} :: l < k ==> SameClass(t, i, j, l)
  }

  /** An equal pair of classes in front moves the first difference by one. */
  lemma LowerBehind(t: Text, i: nat, ei: nat, j: nat, ej: nat, k: nat)
    requires ei <= |t| && ej <= |t| && i < ei && j < ej && Class(t, i) == Class(t, j)
    ensures LowerAt(t, i, ei, j, ej, k + 1) <==> LowerAt(t, i + 1, ei, j + 1, ej, k)
  {
    if LowerAt(t, i, ei, j, ej, k + 1) {
      var i', j' := i + 1, j + 1;
      forall l: nat | l < k ensures SameClass(t, i', j', l) {
        assert SameClass(t, i, j, l + 1);
      }
    }
    if LowerAt(t, i + 1, ei, j + 1, ej, k) {
      forall l: nat | l < k + 1 ensures SameClass(t, i, j, l) {
        assert l > 0 ==> SameClass(t, i + 1, j + 1, l - 1);
      }
    }
  }

  lemma {:induction false} LeftLtLower(t: Text, i: nat, j: nat) returns (k: nat)
    requires i <= |t| && j <= |t| && LeftLt(t, Zeros(t), i, j)
    ensures LowerAt(t, i, LeftEnd(t, i), j, LeftEnd(t, j), k)
    decreases |t| - i
  {
    if Class(t, i) < Class(t, j) {
      k := 0;
    } else {
      var k' := LeftLtLower(t, i + 1, j + 1);
      LowerBehind(t, i, LeftEnd(t, i), j, LeftEnd(t, j), k');
      k := k' + 1;
    }
  }

  lemma {:induction false} LowerLeftLt(t: Text, i: nat, j: nat, k: nat)
    requires i <= |t| && j <= |t| && LowerAt(t, i, LeftEnd(t, i), j, LeftEnd(t, j), k)
    ensures LeftLt(t, Zeros(t), i, j)
    decreases k
  {
    if k > 0 {
      assert SameClass(t, i, j, 0);
      LowerBehind(t, i, LeftEnd(t, i), j, LeftEnd(t, j), k - 1);
      LowerLeftLt(t, i + 1, j + 1, k - 1);
    }
  }

  lemma {:induction false} InducedLtLower(t: Text, i: nat, j: nat) returns (k: nat)
    requires i <= |t| && j <= |t| && InducedLt(t, Zeros(t), i, j)
    ensures LowerAt(t, i, NextLMS(t, i), j, NextLMS(t, j), k)
    decreases |t| - i
  {
    if Class(t, i) < Class(t, j) {
      k := 0;
    } else if !IsS(t, i) {
      k := LeftLtLower(t, i, j);
    } else {
      var k' := InducedLtLower(t, i + 1, j + 1);
      LowerBehind(t, i, NextLMS(t, i), j, NextLMS(t, j), k');
      k := k' + 1;
    }
  }

  lemma {:induction false} LowerInducedLt(t: Text, i: nat, j: nat, k: nat)
    requires i <= |t| && j <= |t| && LowerAt(t, i, NextLMS(t, i), j, NextLMS(t, j), k)
    ensures InducedLt(t, Zeros(t), i, j)
    decreases k
  {
    if k > 0 {
      assert SameClass(t, i, j, 0);
      if IsS(t, i) {
        LowerBehind(t, i, NextLMS(t, i), j, NextLMS(t, j), k - 1);
        LowerInducedLt(t, i + 1, j + 1, k - 1);
      } else {
        LowerLeftLt(t, i, j, k);
      }
    }
  }

  /** The LMS substrings at i and j, closing positions included, differ in class at distance k first,
      where that at i has the lower one. */
  ghost predicate FirstLower(t: Text, i: nat, j: nat, k: nat)
    requires i <= |t| && j <= |t|
  {
    LowerAt(t, i, NextLMS(t, i), j, NextLMS(t, j), k)
  }

  /** LMS-substring order is the lexicographic order of the classes. */
  lemma SubstringLtMeaning(t: Text, i: nat, j: nat)
    requires i <= |t| && j <= |t|
    ensures SubstringLt(t, i, j) <==> exists k: nat :: FirstLower(t, i, j, k)
  {
    if SubstringLt(t, i, j) {
      var k := InducedLtLower(t, i, j);
      assert FirstLower(t, i, j, k);
    } else if k: nat :| FirstLower(t, i, j, k) {
      LowerInducedLt(t, i, j, k);
    }
  }

  lemma {:induction false} LeftOrder(t: Text, r: seq<int>, i: nat, j: nat)
    requires i <= |t| && j <= |t| && |r| == |t| + 1 && LeftLt(t, r, i, j)
    ensures SufLt(t, i, j) || (LeftEq(t, i, j) && r[LeftEnd(t, i)] < r[LeftEnd(t, j)])
    decreases |t| - i
  {
    if Class(t, i) < Class(t, j) {
      ClassOrder(t, i, j);
    } else if !IsS(t, i) {
      LeftOrder(t, r, i + 1, j + 1);
    }
  }

  /** Induced order is suffix order, except that equal LMS substrings are ranked by r. */
  lemma {:induction false} InducedOrder(t: Text, r: seq<int>, i: nat, j: nat)
    requires i <= |t| && j <= |t| && |r| == |t| + 1 && InducedLt(t, r, i, j)
    ensures SufLt(t, i, j) || (SubstringEq(t, i, j) && r[NextLMS(t, i)] < r[NextLMS(t, j)])
    decreases |t| - i
  {
    if Class(t, i) < Class(t, j) {
      ClassOrder(t, i, j);
    } else if !IsS(t, i) {
      LeftOrder(t, r, i, j);
    } else {
      InducedOrder(t, r, i + 1, j + 1);
    }
  }

  lemma {:induction false} LeftEqText(t: Text, i: nat, j: nat)
    requires i <= |t| && j <= |t| && LeftEq(t, i, j)
    ensures LeftEnd(t, i) - i == LeftEnd(t, j) - j
    ensures t[i..LeftEnd(t, i)] == t[j..LeftEnd(t, j)]
    decreases |t| - i
  {
    if !IsS(t, i) {
      LeftEqText(t, i + 1, j + 1);
      assert t[i..LeftEnd(t, i)] == [t[i]] + t[i + 1..LeftEnd(t, i)];
      assert t[j..LeftEnd(t, j)] == [t[j]] + t[j + 1..LeftEnd(t, j)];
    }
  }

  /** Equal LMS substrings have equal characters before the closing position. */
  lemma {:induction false} SubstringEqText(t: Text, i: nat, j: nat)
    requires i <= |t| && j <= |t| && SubstringEq(t, i, j)
    ensures NextLMS(t, i) - i == NextLMS(t, j) - j
    ensures t[i..NextLMS(t, i)] == t[j..NextLMS(t, j)]
    decreases |t| - i
  {
    if !IsS(t, i) {
      LeftEqText(t, i, j);
    } else if i < |t| {
      SubstringEqText(t, i + 1, j + 1);
      assert t[i..NextLMS(t, i)] == [t[i]] + t[i + 1..NextLMS(t, i)];
      assert t[j..NextLMS(t, j)] == [t[j]] + t[j + 1..NextLMS(t, j)];
    }
  }

  /** A common prefix does not matter for the order of two suffixes. */
  lemma {:induction false} SkipPrefix(t: Text, i: nat, j: nat, d: nat)
    requires i + d <= |t| && j + d <= |t| && t[i..i + d] == t[j..j + d]
    ensures SufLt(t, i, j) <==> SufLt(t, i + d, j + d)
    decreases d
  {
    if d > 0 {
      assert t[i] == t[i..i + d][0] == t[j..j + d][0] == t[j];
      assert t[i + 1..i + d] == t[i..i + d][1..] == t[j..j + d][1..] == t[j + 1..j + d];
      SkipPrefix(t, i + 1, j + 1, d - 1);
    }
  }

  /** Ranks that agree with the suffix order of the LMS positions. */
  ghost predicate TrueRanks(t: Text, r: seq<int>) {
    && |r| == |t| + 1
    && forall a: nat, b: nat :: a <= |t| && b <= |t| && IsLMS(t, a) && IsLMS(t, b) && r[a] < r[b] ==> SufLt(t, a, b)
  }

  /** With true LMS ranks the induced order is the suffix order. */
  lemma InducedIsSuffixOrder(t: Text, r: seq<int>, i: nat, j: nat)
    requires i <= |t| && j <= |t| && TrueRanks(t, r) && InducedLt(t, r, i, j)
    ensures SufLt(t, i, j)
  {
    InducedOrder(t, r, i, j);
    if !SufLt(t, i, j) {
      SubstringEqText(t, i, j);
      SkipPrefix(t, i, j, NextLMS(t, i) - i);
    }
  }

  lemma {:induction false} LeftNotReversed(t: Text, r: seq<int>, i: nat, j: nat)
    requires i <= |t| && j <= |t| && |r| == |t| + 1 && LeftLt(t, r, i, j)
    ensures !LeftLt(t, Zeros(t), j, i)
    decreases |t| - i
  {
    if Class(t, i) == Class(t, j) && !IsS(t, i) {
      LeftNotReversed(t, r, i + 1, j + 1);
    }
  }

  /** Whatever the seeds, the induced order never contradicts the LMS-substring order. */
  lemma {:induction false} InducedNotReversed(t: Text, r: seq<int>, i: nat, j: nat)
    requires i <= |t| && j <= |t| && |r| == |t| + 1 && InducedLt(t, r, i, j)
    ensures !SubstringLt(t, j, i)
    decreases |t| - i
  {
    if Class(t, i) == Class(t, j) {
      if !IsS(t, i) {
        LeftNotReversed(t, r, i, j);
      } else {
        InducedNotReversed(t, r, i + 1, j + 1);
      }
    }
  }

  lemma {:induction false} LeftSqueeze(t: Text, r: seq<int>, i: nat, k: nat, j: nat)
    requires i <= |t| && k <= |t| && j <= |t| && |r| == |t| + 1
    requires LeftEq(t, i, j) && LeftLt(t, r, i, k) && LeftLt(t, r, k, j)
    ensures LeftEq(t, i, k) && LeftEq(t, k, j)
    decreases |t| - i
  {
    if !IsS(t, i) {
      LeftSqueeze(t, r, i + 1, k + 1, j + 1);
    }
  }

  /** A position sorted between two equal LMS substrings has the same LMS substring. */
  lemma {:induction false} SubstringSqueeze(t: Text, r: seq<int>, i: nat, k: nat, j: nat)
    requires i <= |t| && k <= |t| && j <= |t| && |r| == |t| + 1
    requires SubstringEq(t, i, j) && InducedLt(t, r, i, k) && InducedLt(t, r, k, j)
    ensures SubstringEq(t, i, k) && SubstringEq(t, k, j)
    decreases |t| - i
  {
    if !IsS(t, i) {
      LeftSqueeze(t, r, i, k, j);
    } else if i < |t| {
      SubstringSqueeze(t, r, i + 1, k + 1, j + 1);
    }
  }
}
