/** The summary of a text: LMS substrings named in sorted order, one name per LMS position. */
module Summary {
  import opened Suffixes
  import opened SuffixTypes
  import opened InducedSort
  import opened RightScan

  /** idc lists exactly the LMS positions, in text order. */
  ghost predicate IsLMSList(t: Text, idc: seq<int>) {
    && (forall k {:trigger idc[k]} :: 0 <= k < |idc| ==> 0 <= idc[k] <= |t| && IsLMS(t, idc[k]))
    && (forall k, l :: 0 <= k < l < |idc| ==> idc[k] < idc[l])
    && (forall m {:trigger IsLMS(t, m)} :: 0 <= m <= |t| && IsLMS(t, m) ==> m in idc)
  }

  lemma LastLMS(t: Text, idc: seq<int>)
    requires 1 <= |t| && IsLMSList(t, idc)
    ensures |idc| >= 1 && idc[|idc| - 1] == |t|
  {
    assert IsLMS(t, |t|);
    var k :| 0 <= k < |idc| && idc[k] == |t|;
    var last := idc[|idc| - 1];
    assert k < |idc| - 1 ==> |t| < last;
  }

  lemma ListOrder(t: Text, idc: seq<int>, k: nat, l: nat)
    requires IsLMSList(t, idc) && k < |idc| && l < |idc|
    ensures k < l <==> idc[k] < idc[l]
  {
    if l < k {
      assert idc[l] < idc[k];
    }
  }

  /** The next entry of the list is the position where the LMS substring closes. */
  lemma NextInList(t: Text, idc: seq<int>, k: nat)
    requires IsLMSList(t, idc) && k + 1 < |idc|
    ensures NextLMS(t, idc[k]) == idc[k + 1]
  {
    assert idc[k] < idc[k + 1];
    var e := NextLMS(t, idc[k]);
    var l :| 0 <= l < |idc| && idc[l] == e;
    assert IsLMS(t, idc[k + 1]);
    ListOrder(t, idc, k, l);
    ListOrder(t, idc, k + 1, l);
  }

  lemma {:induction false} LMSSpacing(t: Text, idc: seq<int>, k: nat)
    requires IsLMSList(t, idc) && k < |idc|
    ensures 2 * k + 1 <= idc[k]
  {
    assert IsLMS(t, idc[k]);
    if k > 0 {
      LMSSpacing(t, idc, k - 1);
      assert idc[k - 1] < idc[k];
      assert IsLMS(t, idc[k - 1]);
    }
  }

  ghost predicate SameSlice(t: Text, idc: seq<int>, k: nat, l: nat)
    requires k + 1 < |idc| && l + 1 < |idc|
    requires 0 <= idc[k] <= idc[k + 1] <= |t| && 0 <= idc[l] <= idc[l + 1] <= |t|
  {
    t[idc[k]..idc[k + 1]] == t[idc[l]..idc[l + 1]]
  }

  /** summ names the LMS positions of idc with the names 0 .. size - 1, all of them used, the
      smallest for the end alone. Names follow the suffix order; one name is one slice of text,
      closing position excluded. */
  ghost predicate IsSummary(t: Text, idc: seq<int>, summ: seq<nat>, size: nat) {
    && IsLMSList(t, idc)
    && |summ| == |idc| >= 1
    && (forall k :: 0 <= k < |summ| ==> summ[k] < size)
    && (forall v {:trigger v in summ} :: 0 <= v < size ==> v in summ)
    && (forall k :: 0 <= k < |summ| ==> (summ[k] == 0 <==> k == |summ| - 1))
    && (forall k, l :: 0 <= k < |summ| && 0 <= l < |summ| && summ[k] < summ[l] ==> SufLt(t, idc[k], idc[l]))
    && (forall k, l {:trigger SameSlice(t, idc, k, l)} ::
          0 <= k < |summ| - 1 && 0 <= l < |summ| - 1 && summ[k] == summ[l] ==> SameSlice(t, idc, k, l))
  }

  /** Behind equal slices of text the order is the same. */
  lemma SkipSlice(t: Text, i: nat, i': nat, j: nat, j': nat)
    requires i <= i' <= |t| && j <= j' <= |t| && t[i..i'] == t[j..j'] && SufLt(t, i', j')
    ensures SufLt(t, i, j)
  {
    var d := i' - i;
    assert d == |t[i..i']| == |t[j..j']| == j' - j;
    assert i + d == i' && j + d == j';
    SkipPrefix(t, i, j, d);
  }

  /** Different slots with one name are the beginnings of one slice. */
  lemma NamedAlike(t: Text, idc: seq<int>, summ: seq<nat>, size: nat, k: nat, l: nat)
    requires IsSummary(t, idc, summ, size) && k < |summ| && l < |summ| && k != l && summ[k] == summ[l]
    ensures k + 1 < |idc| && l + 1 < |idc|
    ensures 0 <= idc[k] <= idc[k + 1] <= |t| && 0 <= idc[l] <= idc[l + 1] <= |t|
    ensures t[idc[k]..idc[k + 1]] == t[idc[l]..idc[l + 1]]
  {
    assert SameSlice(t, idc, k, l);
  }

  /** Order in the summary is order in the text. */
  lemma {:induction false} SummaryToText(t: Text, idc: seq<int>, summ: seq<nat>, size: nat, k: nat, l: nat)
    requires IsSummary(t, idc, summ, size) && k < |summ| && l < |summ|
    requires SufLt(summ, k, l)
    ensures SufLt(t, idc[k], idc[l])
    decreases |summ| - k
  {
    if k == l {
      SufLtIrreflexive(summ, k);
    } else if summ[k] == summ[l] {
      NamedAlike(t, idc, summ, size, k, l);
      SummaryToText(t, idc, summ, size, k + 1, l + 1);
      SkipSlice(t, idc[k], idc[k + 1], idc[l], idc[l + 1]);
    }
  }

  /** The summary preserves order: two LMS positions, the end included, compare as suffixes of
      the text exactly as their slots compare as suffixes of the summary. */
  lemma SummaryPreservesOrder(t: Text, idc: seq<int>, summ: seq<nat>, size: nat, k: nat, l: nat)
    requires IsSummary(t, idc, summ, size) && k < |summ| && l < |summ|
    ensures SufLt(t, idc[k], idc[l]) <==> SufLt(summ, k, l)
  {
    if SufLt(summ, k, l) {
      SummaryToText(t, idc, summ, size, k, l);
    } else if k == l {
      SufLtIrreflexive(t, idc[k]);
    } else {
      SufLtTotal(summ, k, l);
      SummaryToText(t, idc, summ, size, l, k);
      SufLtAsymmetric(t, idc[l], idc[k]);
    }
  }

  /** At most half of the positions, rounded up, are LMS positions. */
  lemma SummaryAtMostHalf(t: Text, idc: seq<int>, summ: seq<nat>, size: nat)
    requires 1 <= |t| && IsSummary(t, idc, summ, size)
    ensures 2 * |summ| <= |t| + 1
  {
    LastLMS(t, idc);
    LMSSpacing(t, idc, |idc| - 1);
  }

  lemma {:induction false} FewerValues(s: seq<int>)
    requires |Values(s)| == |s|
    ensures Distinct(s)
  {
    if s != [] {
      var b, last := s[..|s| - 1], s[|s| - 1];
      assert s == b + [last];
      assert Values(s) == Values(b) + {last};
      ValuesBound(b);
      assert last !in Values(b);
      FewerValues(b);
      forall p, q | 0 <= p < q < |s| ensures s[p] != s[q] {
        assert s[p] == b[p] && b[p] in b;
      }
    }
  }

  ghost function Names(size: nat): (s: set<int>)
    ensures forall x :: x in s <==> 0 <= x < size
    ensures |s| == size
  {
    if size == 0 then {} else UpTo(size - 1)
  }

  /** The reduction stops exactly when all names differ. */
  lemma AllNamesDiffer(t: Text, idc: seq<int>, summ: seq<nat>, size: nat)
    requires IsSummary(t, idc, summ, size)
    ensures size <= |summ|
    ensures |summ| == size <==> Distinct(summ)
  {
    var s: seq<int> := summ;
    assert Values(s) == Names(size);
    ValuesBound(s);
    if |summ| == size {
      FewerValues(s);
    }
    if Distinct(summ) {
      ValuesCard(s);
    }
  }

  // ---------- naming ----------

  /** Entry i holds the next LMS position when i is one, and 0 otherwise or at the end. */
  ghost predicate IsNextTable(t: Text, next: seq<int>) {
    && |next| == |t| + 1 && next[|t|] == 0 && next[0] == 0
    && forall i {:trigger next[i]} :: 0 < i < |t| ==> next[i] == NextEntry(t, i)
  }

  function NextEntry(t: Text, i: nat): nat
    requires i <= |t|
  {
    if IsLMS(t, i) then NextLMS(t, i) else 0
  }

  lemma NextIsFirst(t: Text, i: nat, e: nat)
    requires i < e <= |t| && IsLMS(t, e) && forall k :: i < k < e ==> !IsLMS(t, k)
    ensures NextLMS(t, i) == e
  {
  }

  method NextLMSTable(t: Text, stypes: seq<bool>) returns (allLMS: seq<int>)
    requires 1 <= |t| && IsTypeArray(t, stypes)
    ensures IsNextTable(t, allLMS)
  {
    var next := new int[|t| + 1](_ => 0);
    var before := |t|;
    var i := |t| - 1;
    assert IsLMS(t, before);
    while i != 0
      invariant 0 <= i < before <= |t|
      invariant IsLMS(t, before) && forall k :: i < k < before ==> !IsLMS(t, k)
      invariant next[|t|] == 0
      invariant forall k :: 0 <= k <= i ==> next[k] == 0
      invariant forall k {:trigger next[k]} :: i < k < |t| ==> next[k] == NextEntry(t, k)
    {
      if stypes[i] && !stypes[i - 1] {
        assert IsLMS(t, i);
        NextIsFirst(t, i, before);
        next[i] := before;
        before := i;
      }
      i := i - 1;
    }
    allLMS := next[..];
  }

  /** The names given after i slots of the sorted array: every LMS position among them has one. */
  ghost predicate Named(t: Text, a: seq<int>, lms: seq<int>, i: nat, name: int)
    requires |a| == |t| + 1 && InRange(|t|, a)
  {
    && |lms| == |t| + 1 && i <= |a|
    && (forall q :: 0 <= q < i && IsLMS(t, a[q]) ==> 0 <= lms[a[q]] <= name)
    && (forall m :: 0 <= m <= |t| && lms[m] != INVALID ==> IsLMS(t, m) && m in a[..i])
  }

  /** Names ascend along the array; equal names are equal slices, different names different LMS
      substrings. */
  ghost predicate NamesFit(t: Text, a: seq<int>, lms: seq<int>, i: nat)
    requires |a| == |t| + 1 && InRange(|t|, a) && |lms| == |t| + 1 && i <= |a|
  {
    forall p, q {:trigger lms[a[p]], lms[a[q]]} :: 0 <= p < q < i && IsLMS(t, a[p]) && IsLMS(t, a[q]) ==>
      NamePairFits(t, a[p], a[q], lms[a[p]], lms[a[q]])
  }

  ghost predicate NamePairFits(t: Text, x: nat, y: nat, nameX: int, nameY: int)
    requires x <= |t| && y <= |t|
  {
    && nameX <= nameY
    && (nameX < nameY ==> !SubstringEq(t, x, y))
    && (nameX == nameY ==> t[x..NextLMS(t, x)] == t[y..NextLMS(t, y)])
  }

  /** A new LMS position y is named after its predecessor z among the sorted LMS positions. */
  lemma NameNext(t: Text, r: seq<int>, x: nat, z: nat, y: nat, nameX: int, nameZ: int, nameY: int)
    requires |r| == |t| + 1 && x <= |t| && z <= |t| && y <= |t|
    requires x == z || InducedLt(t, r, x, z)
    requires InducedLt(t, r, z, y)
    requires if x == z then nameX == nameZ else NamePairFits(t, x, z, nameX, nameZ)
    requires nameY == if t[z..NextLMS(t, z)] == t[y..NextLMS(t, y)] then nameZ else nameZ + 1
    ensures NamePairFits(t, x, y, nameX, nameY)
  {
    if SubstringEq(t, x, y) {
      if x != z {
        SubstringSqueeze(t, r, x, z, y);
      }
      SubstringEqText(t, z, y);
    }
  }

  lemma InducedSortedDistinct(t: Text, r: seq<int>, a: seq<int>)
    requires |r| == |t| + 1 && InducedSorted(t, r, a)
    ensures Distinct(a)
  {
    forall p, q | 0 <= p < q < |a| ensures a[p] != a[q] {
      InducedIrreflexive(t, r, a[p]);
    }
  }

  /** State of the naming loop before slot i; zq is the slot of the LMS position named last. */
  ghost predicate NamingInv(t: Text, r: seq<int>, a: seq<int>, lms: seq<int>, i: nat, name: int, zq: nat)
    requires |r| == |t| + 1 && InducedSorted(t, r, a)
  {
    && Named(t, a, lms, i, name)
    && NamesFit(t, a, lms, i)
    && zq < i && IsLMS(t, a[zq]) && lms[a[zq]] == name
    && (forall q :: zq < q < i ==> !IsLMS(t, a[q]))
    && (forall v :: 0 <= v <= name ==> v in lms)
    && (forall m :: 0 <= m <= |t| && lms[m] == 0 ==> m == |t|)
    && 0 <= name && (name == 0 ==> a[zq] == |t|)
  }

  lemma NamingKeepsNames(lms: seq<int>, y: nat, name: int, name': int, b: seq<int>)
    requires y < |lms| && lms[y] == INVALID && 0 <= name <= name' <= name + 1
    requires forall v :: 0 <= v <= name ==> v in lms
    requires b == lms[y := name']
    ensures forall v :: 0 <= v <= name' ==> v in b
  {
    forall v | 0 <= v <= name' ensures v in b {
      if v == name' {
        assert b[y] == v;
      } else {
        assert v in lms;
        var m :| 0 <= m < |lms| && lms[m] == v;
        assert b[m] == v;
      }
    }
  }

  lemma NamingNew(t: Text, a: seq<int>, lms: seq<int>, i: nat, name: int, name': int, b: seq<int>)
    requires |a| == |t| + 1 && InRange(|t|, a) && Distinct(a) && Named(t, a, lms, i, name)
    requires i < |a| && IsLMS(t, a[i]) && 0 <= name <= name' && b == lms[a[i] := name']
    ensures lms[a[i]] == INVALID && Named(t, a, b, i + 1, name')
  {
    assert a[i] !in a[..i];
    assert a[..i + 1] == a[..i] + [a[i]];
    forall q | 0 <= q < i + 1 && IsLMS(t, a[q]) ensures 0 <= b[a[q]] <= name' {
      assert q < i ==> b[a[q]] == lms[a[q]];
    }
    forall m | 0 <= m <= |t| && b[m] != INVALID ensures IsLMS(t, m) && m in a[..i + 1] {
      assert m != a[i] ==> b[m] == lms[m];
    }
  }

  lemma NamingFits(t: Text, r: seq<int>, a: seq<int>, lms: seq<int>, i: nat, name: int, zq: nat, name': int)
    requires |r| == |t| + 1 && InducedSorted(t, r, a) && NamingInv(t, r, a, lms, i, name, zq)
    requires i < |a| && IsLMS(t, a[i])
    requires name' == if t[a[zq]..NextLMS(t, a[zq])] == t[a[i]..NextLMS(t, a[i])] then name else name + 1
    ensures NamesFit(t, a, lms[a[i] := name'], i + 1)
  {
    InducedSortedDistinct(t, r, a);
    var b := lms[a[i] := name'];
    forall p, q | 0 <= p < q < i + 1 && IsLMS(t, a[p]) && IsLMS(t, a[q])
      ensures NamePairFits(t, a[p], a[q], b[a[p]], b[a[q]])
    {
      assert b[a[p]] == lms[a[p]];
      if q < i {
        assert b[a[q]] == lms[a[q]];
        assert NamePairFits(t, a[p], a[q], lms[a[p]], lms[a[q]]);
      } else {
        assert p <= zq;
        assert p < zq ==> NamePairFits(t, a[p], a[zq], lms[a[p]], lms[a[zq]]);
        assert p < zq ==> InducedLt(t, r, a[p], a[zq]);
        assert InducedLt(t, r, a[zq], a[i]);
        NameNext(t, r, a[p], a[zq], a[i], lms[a[p]], name, name');
      }
    }
  }

  lemma NamingStep(t: Text, r: seq<int>, a: seq<int>, lms: seq<int>, i: nat, name: int, zq: nat, name': int)
    requires |r| == |t| + 1 && InducedSorted(t, r, a) && NamingInv(t, r, a, lms, i, name, zq)
    requires i < |a| && IsLMS(t, a[i]) && a[i] != |t|
    requires name' == if t[a[zq]..NextLMS(t, a[zq])] == t[a[i]..NextLMS(t, a[i])] then name else name + 1
    ensures NamingInv(t, r, a, lms[a[i] := name'], i + 1, name', i)
  {
    InducedSortedDistinct(t, r, a);
    NamingFits(t, r, a, lms, i, name, zq, name');
    var b := lms[a[i] := name'];
    NamingNew(t, a, lms, i, name, name', b);
    NamingKeepsNames(lms, a[i], name, name', b);
    if a[zq] == |t| {
      assert |t[a[i]..NextLMS(t, a[i])]| > 0;
    }
  }

  lemma NamedSkip(t: Text, a: seq<int>, lms: seq<int>, i: nat, name: int)
    requires |a| == |t| + 1 && InRange(|t|, a) && Named(t, a, lms, i, name)
    requires i < |a| && !IsLMS(t, a[i])
    ensures Named(t, a, lms, i + 1, name)
  {
    assert a[..i + 1] == a[..i] + [a[i]];
  }

  lemma NamingSkip(t: Text, r: seq<int>, a: seq<int>, lms: seq<int>, i: nat, name: int, zq: nat)
    requires |r| == |t| + 1 && InducedSorted(t, r, a) && NamingInv(t, r, a, lms, i, name, zq)
    requires i < |a| && !IsLMS(t, a[i])
    ensures NamingInv(t, r, a, lms, i + 1, name, zq)
  {
    NamedSkip(t, a, lms, i, name);
    forall p, q | 0 <= p < q < i + 1 && IsLMS(t, a[p]) && IsLMS(t, a[q])
      ensures NamePairFits(t, a[p], a[q], lms[a[p]], lms[a[q]])
    {
      assert q < i;
    }
  }

  /** One round of the naming loop: an LMS position gets the name of the one before it or the next
      name, any other position is skipped. */
  lemma NamingRound(t: Text, r: seq<int>, a: seq<int>, lms: seq<int>, i: nat, name: int, zq: nat, next: seq<int>,
                    name': int, b: seq<int>, zq': nat)
    requires |r| == |t| + 1 && InducedSorted(t, r, a) && NamingInv(t, r, a, lms, i, name, zq)
    requires i < |a| && IsNextTable(t, next)
    requires next[a[i]] != 0 ==>
               && name' == (if t[a[zq]..NextLMS(t, a[zq])] == t[a[i]..NextLMS(t, a[i])] then name else name + 1)
               && b == lms[a[i] := name'] && zq' == i
    requires next[a[i]] == 0 ==> name' == name && b == lms && zq' == zq
    ensures NamingInv(t, r, a, b, i + 1, name', zq')
    ensures next[a[i]] != 0 ==> next[a[i]] == NextLMS(t, a[i])
  {
    var y := a[i];
    if next[y] != 0 {
      assert next[y] == NextEntry(t, y);
      NamingStep(t, r, a, lms, i, name, zq, name');
    } else {
      assert 0 < y < |t| ==> next[y] == NextEntry(t, y);
      NamingSkip(t, r, a, lms, i, name, zq);
    }
  }

  /** The array starts with the empty suffix. */
  lemma InducedFirst(t: Text, r: seq<int>, a: seq<int>)
    requires |r| == |t| + 1 && InducedSorted(t, r, a)
    ensures a[0] == |t|
    ensures forall m :: 0 <= m <= |t| ==> m in a
  {
    InducedSortedDistinct(t, r, a);
    Pigeonhole(a, UpTo(|t|));
    assert |t| in UpTo(|t|);
    var q :| 0 <= q < |a| && a[q] == |t|;
    var first := a[0];
    if q > 0 {
      assert false;
    }
  }

  /** Whatever ranks the seeds had, after both scans the positions, the LMS ones among them, stand
      in nondecreasing LMS-substring order, each exactly once. */
  lemma SubstringsAscend(t: Text, r: seq<int>, a: seq<int>)
    requires |r| == |t| + 1 && InducedSorted(t, r, a)
    ensures forall p, q :: 0 <= p < q < |a| ==> !SubstringLt(t, a[q], a[p])
    ensures Distinct(a) && forall m :: 0 <= m <= |t| ==> m in a
  {
    InducedFirst(t, r, a);
    InducedSortedDistinct(t, r, a);
    forall p, q | 0 <= p < q < |a| ensures !SubstringLt(t, a[q], a[p]) {
      InducedNotReversed(t, r, a[p], a[q]);
    }
  }

  method NameLMS(t: Text, guessedSA: seq<int>, allLMS: seq<int>, ghost r: seq<int>)
    returns (lms: seq<int>, name: nat)
    requires 1 <= |t| && |r| == |t| + 1 && InducedSorted(t, r, guessedSA)
    requires IsNextTable(t, allLMS)
    ensures exists zq :: NamingInv(t, r, guessedSA, lms, |guessedSA|, name, zq)
  {
    InducedFirst(t, r, guessedSA);
    InducedSortedDistinct(t, r, guessedSA);
    var names := new int[|t| + 1](_ => INVALID);
    name := 0;
    names[guessedSA[0]] := name;
    var fir, sec := guessedSA[0], guessedSA[0];
    ghost var zq := 0;
    var i := 1;
    assert IsLMS(t, |t|);
    assert names[..][|t|] == 0;
    assert guessedSA[..1] == [guessedSA[0]];
    while i < |guessedSA|
      invariant 1 <= i <= |guessedSA| && names.Length == |t| + 1
      invariant NamingInv(t, r, guessedSA, names[..], i, name, zq)
      invariant fir == guessedSA[zq] && sec == NextLMS(t, fir)
    {
      var lmsI := guessedSA[i];
      ghost var before, name0, zq0 := names[..], name, zq;
      if allLMS[lmsI] != 0 {
        assert allLMS[lmsI] == NextEntry(t, lmsI);
        if t[fir..sec] != t[lmsI..allLMS[lmsI]] {
          name := name + 1;
        }
        names[lmsI] := name;
        fir := lmsI;
        sec := allLMS[lmsI];
        zq := i;
        assert names[..] == before[lmsI := name];
      }
      NamingRound(t, r, guessedSA, before, i, name0, zq0, allLMS, name, names[..], zq);
      i := i + 1;
    }
    lms := names[..];
  }

  // ---------- collecting ----------

  /** The LMS positions below i in text order, and their names. */
  ghost predicate Collected(t: Text, lms: seq<int>, i: nat, idc: seq<int>, summ: seq<nat>)
    requires |lms| == |t| + 1
  {
    && |summ| == |idc| && i <= |lms|
    && (forall k {:trigger idc[k]} :: 0 <= k < |idc| ==> 0 <= idc[k] < i && IsLMS(t, idc[k]) && summ[k] == lms[idc[k]])
    && (forall k, l :: 0 <= k < l < |idc| ==> idc[k] < idc[l])
    && (forall m {:trigger IsLMS(t, m)} :: 0 <= m < i && IsLMS(t, m) ==> m in idc)
  }

  /** How any two named positions compare. */
  lemma NamedPair(t: Text, r: seq<int>, a: seq<int>, lms: seq<int>, x: nat, y: nat)
    requires |r| == |t| + 1 && InducedSorted(t, r, a) && |lms| == |t| + 1 && NamesFit(t, a, lms, |a|)
    requires x <= |t| && y <= |t| && IsLMS(t, x) && IsLMS(t, y)
    ensures lms[x] < lms[y] ==> SufLt(t, x, y)
    ensures lms[x] == lms[y] ==> t[x..NextLMS(t, x)] == t[y..NextLMS(t, y)]
  {
    InducedFirst(t, r, a);
    assert x in a && y in a;
    var p :| 0 <= p < |a| && a[p] == x;
    var q :| 0 <= q < |a| && a[q] == y;
    if p < q {
      assert NamePairFits(t, a[p], a[q], lms[a[p]], lms[a[q]]);
      InducedOrder(t, r, x, y);
    } else if q < p {
      assert NamePairFits(t, a[q], a[p], lms[a[q]], lms[a[p]]);
    }
  }

  lemma CollectedList(t: Text, lms: seq<int>, idc: seq<int>, summ: seq<nat>)
    requires 1 <= |t| && |lms| == |t| + 1 && Collected(t, lms, |lms|, idc, summ)
    ensures IsLMSList(t, idc)
    ensures |idc| >= 1 && idc[|idc| - 1] == |t|
  {
    LastLMS(t, idc);
  }

  lemma CollectedNames(t: Text, a: seq<int>, lms: seq<int>, name: nat, idc: seq<int>, summ: seq<nat>)
    requires |a| == |t| + 1 && InRange(|t|, a) && Named(t, a, lms, |a|, name)
    requires forall m :: 0 <= m <= |t| ==> m in a
    requires forall v :: 0 <= v <= name ==> v in lms
    requires Collected(t, lms, |lms|, idc, summ)
    ensures forall k :: 0 <= k < |summ| ==> summ[k] < name + 1
    ensures forall v {:trigger v in summ} :: 0 <= v < name + 1 ==> v in summ
  {
    forall k | 0 <= k < |summ| ensures summ[k] < name + 1 {
      assert idc[k] in a;
      var q :| 0 <= q < |a| && a[q] == idc[k];
    }
    forall v | 0 <= v < name + 1 ensures v in summ {
      assert v in lms;
      var m :| 0 <= m < |lms| && lms[m] == v;
      assert IsLMS(t, m);
      var k :| 0 <= k < |idc| && idc[k] == m;
      assert summ[k] == v;
    }
  }

  lemma CollectedEnd(t: Text, lms: seq<int>, idc: seq<int>, summ: seq<nat>, k: nat)
    requires |lms| == |t| + 1 && Collected(t, lms, |lms|, idc, summ)
    requires 0 in lms && (forall m :: 0 <= m <= |t| && lms[m] == 0 ==> m == |t|)
    requires |idc| >= 1 && idc[|idc| - 1] == |t| && k < |summ|
    ensures summ[k] == 0 <==> k == |summ| - 1
  {
    if k < |summ| - 1 {
      assert idc[k] < idc[|summ| - 1];
    }
  }

  lemma CollectedIsSummary(t: Text, r: seq<int>, a: seq<int>, lms: seq<int>, name: nat, zq: nat, idc: seq<int>,
                           summ: seq<nat>)
    requires 1 <= |t| && |r| == |t| + 1 && InducedSorted(t, r, a)
    requires NamingInv(t, r, a, lms, |a|, name, zq) && Collected(t, lms, |lms|, idc, summ)
    ensures IsSummary(t, idc, summ, name + 1)
  {
    CollectedList(t, lms, idc, summ);
    InducedFirst(t, r, a);
    CollectedNames(t, a, lms, name, idc, summ);
    forall k | 0 <= k < |summ| ensures summ[k] == 0 <==> k == |summ| - 1 {
      CollectedEnd(t, lms, idc, summ, k);
    }
    forall k, l | 0 <= k < |summ| && 0 <= l < |summ|
      ensures summ[k] < summ[l] ==> SufLt(t, idc[k], idc[l])
      ensures summ[k] == summ[l] ==> t[idc[k]..NextLMS(t, idc[k])] == t[idc[l]..NextLMS(t, idc[l])]
    {
      NamedPair(t, r, a, lms, idc[k], idc[l]);
    }
    forall k, l | 0 <= k < |summ| - 1 && 0 <= l < |summ| - 1 && summ[k] == summ[l] ensures SameSlice(t, idc, k, l) {
      NextInList(t, idc, k);
      NextInList(t, idc, l);
    }
  }

  lemma CollectStep(t: Text, a: seq<int>, lms: seq<int>, name: nat, i: nat, idc: seq<int>, summ: seq<nat>)
    requires |a| == |t| + 1 && InRange(|t|, a) && Named(t, a, lms, |a|, name)
    requires forall m :: 0 <= m <= |t| ==> m in a
    requires Collected(t, lms, i, idc, summ) && i < |lms|
    ensures lms[i] == INVALID ==> Collected(t, lms, i + 1, idc, summ)
    ensures lms[i] != INVALID ==> 0 <= lms[i] && Collected(t, lms, i + 1, idc + [i], summ + [lms[i]])
  {
    assert i in a;
    var q :| 0 <= q < |a| && a[q] == i;
    if lms[i] != INVALID {
      var idc' := idc + [i];
      assert idc'[|idc|] == i;
      forall m | 0 <= m < i + 1 && IsLMS(t, m) ensures m in idc' {
        assert m < i ==> m in idc;
      }
    }
  }

  method SummarizeSA(t: Text, guessedSA: seq<int>, stypes: seq<bool>, ghost r: seq<int>)
    returns (summ: seq<nat>, summIdc: seq<int>, summAlphS: nat)
    requires 1 <= |t| && |r| == |t| + 1 && InducedSorted(t, r, guessedSA) && IsTypeArray(t, stypes)
    ensures IsSummary(t, summIdc, summ, summAlphS)
  {
    var allLMS := NextLMSTable(t, stypes);
    var lms, curName := NameLMS(t, guessedSA, allLMS, r);
    ghost var zq :| NamingInv(t, r, guessedSA, lms, |guessedSA|, curName, zq);
    InducedFirst(t, r, guessedSA);
    summ, summIdc := [], [];
    for i := 0 to |lms|
      invariant Collected(t, lms, i, summIdc, summ)
    {
      CollectStep(t, guessedSA, lms, curName, i, summIdc, summ);
      if lms[i] != INVALID {
        summ := summ + [lms[i]];
        summIdc := summIdc + [i];
      }
    }
    summAlphS := curName + 1;
    CollectedIsSummary(t, r, guessedSA, lms, curName, zq, summIdc, summ);
  }
}
