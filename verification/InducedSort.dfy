/** The two in-place scans of induced sorting, and the seeding step before them. */
module InducedSort {
  import opened Suffixes
  import opened SuffixTypes
  import opened Buckets

  /** The invalid index marks a slot nobody has written. */
  const INVALID := -1

  /** Every written slot lies in the region of its position's class. */
  ghost predicate InRegions(t: Text, a: seq<int>) {
    && |a| == |t| + 1
    && forall q {:trigger a[q]} :: 0 <= q < |a| ==>
         a[q] == INVALID || (0 <= a[q] <= |t| && Start(t, Class(t, a[q])) <= q < Start(t, Class(t, a[q]) + 1))
  }

  ghost function Lo(t: Text, sub: nat, c: nat): nat { Start(t, 2 * (c + sub)) }
  ghost function Mid(t: Text, sub: nat, c: nat): nat { Start(t, 2 * (c + sub) + 1) }
  ghost function Hi(t: Text, sub: nat, c: nat): nat { Start(t, 2 * (c + sub) + 2) }

  /** All slots of a bucket lie in the array; a written slot tells its class by where it lies. */
  lemma BucketBounds(t: Text, sub: nat, size: nat, c: nat)
    requires CharsFrom(t, sub, size) && c < size
    ensures 1 <= Lo(t, sub, c) <= Mid(t, sub, c) <= Hi(t, sub, c) <= |t| + 1
  {
    StartTop(t, sub, size);
    StartMonotone(t, 2 * sub, 2 * (c + sub));
    StartMonotone(t, 2 * (c + sub), 2 * (c + sub) + 1);
    StartMonotone(t, 2 * (c + sub) + 1, 2 * (c + sub) + 2);
    StartMonotone(t, 2 * (c + sub) + 2, 2 * (sub + size));
  }

  lemma RegionClass(t: Text, a: seq<int>, q: nat, x: int)
    requires InRegions(t, a) && q < |a| && a[q] != INVALID
    requires Start(t, x) <= q < Start(t, x + 1)
    ensures Class(t, a[q]) == x
  {
    var y := Class(t, a[q]);
    if y < x {
      StartMonotone(t, y + 1, x);
    } else if x < y {
      StartMonotone(t, x + 1, y);
    }
  }

  lemma ClassSlotOrder(t: Text, a: seq<int>, p: nat, q: nat)
    requires InRegions(t, a) && p < |a| && q < |a| && a[p] != INVALID && a[q] != INVALID
    ensures p <= q ==> Class(t, a[p]) <= Class(t, a[q])
    ensures Class(t, a[p]) < Class(t, a[q]) ==> p < q
  {
    if Class(t, a[p]) < Class(t, a[q]) {
      StartMonotone(t, Class(t, a[p]) + 1, Class(t, a[q]));
    } else if Class(t, a[q]) < Class(t, a[p]) {
      StartMonotone(t, Class(t, a[q]) + 1, Class(t, a[p]));
    }
  }

  // ---------- the forward scan ----------

  ghost predicate LeftSorted(t: Text, r: seq<int>, a: seq<int>)
    requires |r| == |t| + 1
  {
    && InRegions(t, a)
    && forall p, q :: 0 <= p < q < |a| && a[p] != INVALID && a[q] != INVALID ==> LeftLt(t, r, a[p], a[q])
  }

  /** The cursor of bucket c stands in its L-type half: written below it, empty from it on. */
  ghost predicate HeadAt(t: Text, sub: nat, a: seq<int>, c: nat, h: int)
    requires |a| == |t| + 1
  {
    && Lo(t, sub, c) <= h <= Mid(t, sub, c) <= |a|
    && (forall q :: Lo(t, sub, c) <= q < h ==> a[q] != INVALID)
    && (forall q :: h <= q < Mid(t, sub, c) ==> a[q] == INVALID)
  }

  ghost predicate HeadsAt(t: Text, sub: nat, a: seq<int>, heads: seq<int>)
    requires |a| == |t| + 1
  {
    forall c :: 0 <= c < |heads| ==> HeadAt(t, sub, a, c, heads[c])
  }

  ghost predicate Placed(a: seq<int>, i: int) {
    i in a
  }

  /** An L-type position is placed exactly when its successor stands in one of the first p slots. */
  ghost predicate LeftReached(t: Text, a: seq<int>, p: nat)
    requires p <= |a|
  {
    forall j {:trigger Placed(a, j)} :: 0 <= j < |t| && !IsS(t, j) ==> (Placed(a, j) <==> j + 1 in a[..p])
  }

  /** What the forward scan keeps when p slots have been read: the written slots are sorted, all
      LMS positions are there, and an L-type position is there once its successor was read. */
  ghost predicate LeftInv(t: Text, r: seq<int>, sub: nat, a: seq<int>, heads: seq<int>, p: nat)
    requires |r| == |t| + 1
  {
    && p <= |a|
    && CharsFrom(t, sub, |heads|)
    && LeftSorted(t, r, a)
    && (forall m {:trigger IsLMS(t, m)} :: 0 <= m <= |t| && IsLMS(t, m) ==> m in a)
    && LeftReached(t, a, p)
    && HeadsAt(t, sub, a, heads)
  }

  lemma LeftSortedDistinct(t: Text, r: seq<int>, a: seq<int>, p: nat, q: nat)
    requires |r| == |t| + 1 && LeftSorted(t, r, a)
    requires p < |a| && q < |a| && a[p] == a[q] != INVALID
    ensures p == q
  {
    LeftIrreflexive(t, r, a[p]);
  }

  /** The position the scan has just read is a new one: its predecessor is not placed yet. */
  lemma LeftNew(t: Text, r: seq<int>, sub: nat, a: seq<int>, heads: seq<int>, p: nat, j: int)
    requires |r| == |t| + 1 && LeftInv(t, r, sub, a, heads, p)
    requires p < |a| && a[p] != INVALID && j == a[p] - 1 && 0 <= j && !IsS(t, j)
    ensures j !in a
  {
    if Placed(a, j) {
      assert j + 1 in a[..p];
      var q :| 0 <= q < p && a[q] == j + 1;
      LeftSortedDistinct(t, r, a, p, q);
    }
  }

  /** Written slots of one class are fewer than its positions as long as one of these is missing. */
  lemma FewerThanClass(t: Text, r: seq<int>, a: seq<int>, lo: nat, hi: nat, x: int, m: nat)
    requires |r| == |t| + 1 && LeftSorted(t, r, a)
    requires Start(t, x) <= lo <= hi <= Start(t, x + 1) && hi <= |a|
    requires forall q :: lo <= q < hi ==> a[q] != INVALID
    requires m <= |t| && Class(t, m) == x && m !in a
    ensures hi - lo < |ClassSet(t, x)|
  {
    var s := a[lo..hi];
    forall p, q | 0 <= p < q < |s| ensures s[p] != s[q] {
      if s[p] == s[q] {
        LeftSortedDistinct(t, r, a, lo + p, lo + q);
      }
    }
    forall k | k in s ensures k in ClassSet(t, x) - {m} {
      var q :| 0 <= q < |s| && s[q] == k;
      RegionClass(t, a, lo + q, x);
      assert a[lo + q] in a;
    }
    Pigeonhole(s, ClassSet(t, x) - {m});
    assert m in ClassSet(t, x);
  }

  /** A bucket's L-type half has a free slot as long as one of its positions is missing. */
  lemma LeftRoom(t: Text, r: seq<int>, sub: nat, a: seq<int>, c: nat, h: nat, j: nat)
    requires |r| == |t| + 1 && LeftSorted(t, r, a) && HeadAt(t, sub, a, c, h)
    requires j < |t| && Class(t, j) == 2 * (c + sub) && j !in a
    ensures h < Mid(t, sub, c)
  {
    FewerThanClass(t, r, a, Lo(t, sub, c), h, 2 * (c + sub), j);
    StartStep(t, 2 * (c + sub));
  }

  /** Writes land ahead of the forward scan. */
  lemma LeftAhead(t: Text, sub: nat, a: seq<int>, c: nat, h: nat, p: nat, j: nat)
    requires InRegions(t, a) && HeadAt(t, sub, a, c, h)
    requires p < |a| && a[p] == j + 1 && j < |t| && Class(t, j) == 2 * (c + sub)
    ensures p < h
  {
    var x := Class(t, a[p]);
    if x < 2 * (c + sub) {
      StartMonotone(t, x + 1, 2 * (c + sub));
    } else {
      assert x == 2 * (c + sub);
    }
  }

  lemma LeftWriteSorted(t: Text, r: seq<int>, sub: nat, a: seq<int>, heads: seq<int>, p: nat, j: nat, c: nat)
    requires |r| == |t| + 1 && LeftInv(t, r, sub, a, heads, p)
    requires p < |a| && a[p] == j + 1 && j < |t| && Class(t, j) == 2 * (c + sub)
    requires c < |heads| && p < heads[c] < Mid(t, sub, c) <= |a| && a[heads[c]] == INVALID
    ensures LeftSorted(t, r, a[heads[c] := j])
  {
    var h := heads[c];
    var b := a[h := j];
    assert HeadAt(t, sub, a, c, h);
    assert InRegions(t, b);
    forall x, y | 0 <= x < y < |b| && b[x] != INVALID && b[y] != INVALID ensures LeftLt(t, r, b[x], b[y]) {
      if x != h && y != h {
        assert LeftLt(t, r, a[x], a[y]);
      } else if y == h {
        LeftWriteAfter(t, r, sub, a, heads, p, j, x, b, h);
      } else {
        ClassSlotOrder(t, b, h, y);
        assert Class(t, b[y]) != 2 * (c + sub);
      }
    }
  }

  /** What is written comes after everything in the slots before it. */
  lemma LeftWriteAfter(t: Text, r: seq<int>, sub: nat, a: seq<int>, heads: seq<int>, p: nat, j: nat, x: nat,
                       b: seq<int>, h: nat)
    requires |r| == |t| + 1 && LeftInv(t, r, sub, a, heads, p)
    requires p < |a| && a[p] == j + 1 && j < |t| && !IsS(t, j)
    requires InRegions(t, b) && x < |a| && a[x] == b[x] != INVALID
    requires x < h < |b| && b[h] == j
    ensures LeftLt(t, r, a[x], j)
  {
    ClassSlotOrder(t, b, x, h);
    if Class(t, a[x]) == Class(t, j) {
      assert !IsS(t, a[x]);
      assert Placed(a, a[x]);
      assert a[x] + 1 in a[..p];
      var z :| 0 <= z < p && a[z] == a[x] + 1;
      assert LeftLt(t, r, a[z], a[p]);
    }
  }

  lemma HeadsAfterWrite(t: Text, sub: nat, a: seq<int>, heads: seq<int>, c: nat, j: nat)
    requires |a| == |t| + 1 && c < |heads|
    requires HeadsAt(t, sub, a, heads)
    requires heads[c] < Mid(t, sub, c)
    ensures 0 <= heads[c] < |a|
    ensures HeadsAt(t, sub, a[heads[c] := j], heads[c := heads[c] + 1])
  {
    var h := heads[c];
    assert HeadAt(t, sub, a, c, h);
    var b, heads' := a[h := j], heads[c := h + 1];
    forall d | 0 <= d < |heads| ensures HeadAt(t, sub, b, d, heads'[d]) {
      assert HeadAt(t, sub, a, d, heads[d]);
      if d < c {
        StartMonotone(t, 2 * (d + sub) + 1, 2 * (c + sub));
      } else if c < d {
        StartMonotone(t, 2 * (c + sub) + 1, 2 * (d + sub));
      }
    }
  }

  lemma InAfterWrite(a: seq<int>, h: nat, j: int)
    requires h < |a| && a[h] == INVALID
    ensures forall x {:trigger x in a[h := j]} :: x != INVALID ==> (x in a[h := j] <==> x in a || x == j)
  {
    var b := a[h := j];
    assert b[h] == j;
    forall x | x in a && x != INVALID ensures x in b {
      var q :| 0 <= q < |a| && a[q] == x;
      assert b[q] == x;
    }
  }

  lemma LeftWrite(t: Text, r: seq<int>, sub: nat, a: seq<int>, heads: seq<int>, p: nat, j: nat, c: nat)
    requires |r| == |t| + 1 && LeftInv(t, r, sub, a, heads, p)
    requires p < |a| && a[p] == j + 1 && j < |t| && !IsS(t, j) && c == t[j] - sub
    ensures c < |heads| && p < heads[c] < |a| && a[heads[c]] == INVALID
    ensures LeftInv(t, r, sub, a[heads[c] := j], heads[c := heads[c] + 1], p + 1)
  {
    LeftNew(t, r, sub, a, heads, p, j);
    var h := heads[c];
    assert HeadAt(t, sub, a, c, h);
    LeftRoom(t, r, sub, a, c, h, j);
    LeftAhead(t, sub, a, c, h, p, j);
    LeftWriteSorted(t, r, sub, a, heads, p, j, c);
    HeadsAfterWrite(t, sub, a, heads, c, j);
    LeftWritePlaced(t, r, sub, a, heads, p, j, h);
  }

  lemma LeftWritePlaced(t: Text, r: seq<int>, sub: nat, a: seq<int>, heads: seq<int>, p: nat, j: nat, h: nat)
    requires |r| == |t| + 1 && LeftInv(t, r, sub, a, heads, p)
    requires p < h < |a| && a[p] == j + 1 && j < |t| && !IsS(t, j) && a[h] == INVALID
    ensures forall m {:trigger IsLMS(t, m)} :: 0 <= m <= |t| && IsLMS(t, m) ==> m in a[h := j]
    ensures LeftReached(t, a[h := j], p + 1)
  {
    InAfterWrite(a, h, j);
    assert a[h := j][..p + 1] == a[..p] + [a[p]];
    forall k | 0 <= k < |t| && !IsS(t, k) ensures Placed(a[h := j], k) <==> k + 1 in a[h := j][..p + 1] {
      assert Placed(a, k) <==> k + 1 in a[..p];
      assert k + 1 in a[h := j][..p + 1] <==> k + 1 in a[..p] || k + 1 == a[p];
    }
  }

  lemma LeftSkip(t: Text, r: seq<int>, sub: nat, a: seq<int>, heads: seq<int>, p: nat)
    requires |r| == |t| + 1 && LeftInv(t, r, sub, a, heads, p)
    requires p < |a| && (a[p] == INVALID || a[p] == 0 || IsS(t, a[p] - 1))
    ensures LeftInv(t, r, sub, a, heads, p + 1)
  {
    assert a[..p + 1] == a[..p] + [a[p]];
    forall k | 0 <= k < |t| && !IsS(t, k) ensures Placed(a, k) <==> k + 1 in a[..p + 1] {
      assert k + 1 in a[..p + 1] <==> k + 1 in a[..p] || k + 1 == a[p];
    }
  }

  /** After the whole scan every L-type position has been placed. */
  lemma {:induction false} LeftComplete(t: Text, r: seq<int>, sub: nat, a: seq<int>, heads: seq<int>, j: nat)
    requires |r| == |t| + 1 && LeftInv(t, r, sub, a, heads, |a|)
    requires j < |t| && !IsS(t, j)
    ensures j in a
    decreases |t| - j
  {
    if !IsS(t, j + 1) {
      LeftComplete(t, r, sub, a, heads, j + 1);
    } else {
      assert IsLMS(t, j + 1);
    }
    assert a[..|a|] == a;
    assert Placed(a, j) <==> j + 1 in a[..|a|];
  }

  lemma ValuesBound(s: seq<int>)
    ensures |Values(s)| <= |s|
  {
    if s != [] {
      ValuesBound(s[1..]);
      assert s == [s[0]] + s[1..];
      assert Values(s) == {s[0]} + Values(s[1..]);
    }
  }

  /** A region filled with all of its class from lo on has no slot left outside the filled part. */
  lemma RegionFull(t: Text, a: seq<int>, x: int, lo: nat, hi: nat)
    requires lo <= hi <= |a|
    requires forall k :: k in ClassSet(t, x) ==> k in a[lo..hi]
    ensures Start(t, x + 1) - Start(t, x) <= hi - lo
  {
    StartStep(t, x);
    ValuesBound(a[lo..hi]);
    SubsetCard(ClassSet(t, x), Values(a[lo..hi]));
  }

  /** After the forward scan every L-type half is full. */
  lemma LeftFull(t: Text, r: seq<int>, sub: nat, a: seq<int>, heads: seq<int>, c: nat)
    requires |r| == |t| + 1 && LeftInv(t, r, sub, a, heads, |a|) && c < |heads|
    ensures HeadAt(t, sub, a, c, heads[c]) && heads[c] == Mid(t, sub, c)
  {
    var lo, h, x := Lo(t, sub, c), heads[c], 2 * (c + sub);
    assert HeadAt(t, sub, a, c, h);
    forall k | k in ClassSet(t, x) ensures k in a[lo..h] {
      LeftComplete(t, r, sub, a, heads, k);
      var q :| 0 <= q < |a| && a[q] == k;
      assert lo <= q < Mid(t, sub, c);
      assert a[lo..h][q - lo] == k;
    }
    RegionFull(t, a, x, lo, h);
  }

  method LInduceSort(guessedSA: array<int>, t: Text, stypes: seq<bool>, heads: array<int>, sub: nat, ghost r: seq<int>)
    requires IsTypeArray(t, stypes) && guessedSA != heads
    requires |r| == |t| + 1 && LeftInv(t, r, sub, guessedSA[..], heads[..], 0)
    modifies guessedSA, heads
    ensures LeftInv(t, r, sub, guessedSA[..], heads[..], |t| + 1)
  {
    var i := 0;
    while i != guessedSA.Length
      invariant 0 <= i <= guessedSA.Length
      invariant LeftInv(t, r, sub, guessedSA[..], heads[..], i)
    {
      ghost var a, h := guessedSA[..], heads[..];
      if guessedSA[i] != INVALID {
        assert a[i] != INVALID;
        var j := guessedSA[i] - 1;
        if j != INVALID && !stypes[j] {
          LeftWrite(t, r, sub, a, h, i, j, t[j] - sub);
          guessedSA[heads[t[j] - sub]] := j;
          heads[t[j] - sub] := heads[t[j] - sub] + 1;
        } else {
          LeftSkip(t, r, sub, a, h, i);
        }
      } else {
        LeftSkip(t, r, sub, a, h, i);
      }
      i := i + 1;
    }
  }

  // ---------- seeding ----------

  /** The cursor of bucket c stands in its S-type half: written above it, empty up to it. */
  ghost predicate SeedTailAt(t: Text, sub: nat, a: seq<int>, c: nat, h: int)
    requires |a| == |t| + 1
  {
    && Mid(t, sub, c) - 1 <= h < Hi(t, sub, c) <= |a|
    && (forall q :: h < q < Hi(t, sub, c) ==> a[q] != INVALID)
    && (forall q :: Mid(t, sub, c) <= q <= h ==> a[q] == INVALID)
  }

  ghost predicate SeedTailsAt(t: Text, sub: nat, a: seq<int>, tails: seq<int>)
    requires |a| == |t| + 1
  {
    forall c :: 0 <= c < |tails| ==> SeedTailAt(t, sub, a, c, tails[c])
  }

  /** Seeding has put some LMS positions into the S-type halves of their buckets, by ascending rank. */
  ghost predicate SeedInv(t: Text, r: seq<int>, sub: nat, a: seq<int>, tails: seq<int>)
    requires |r| == |t| + 1
  {
    && CharsFrom(t, sub, |tails|)
    && LeftSorted(t, r, a)
    && (forall q {:trigger a[q]} :: 0 <= q < |a| && a[q] != INVALID ==> a[q] < |t| && IsLMS(t, a[q]))
    && SeedTailsAt(t, sub, a, tails)
  }

  lemma SeedRoom(t: Text, r: seq<int>, sub: nat, a: seq<int>, c: nat, h: int, m: nat)
    requires |r| == |t| + 1 && LeftSorted(t, r, a) && SeedTailAt(t, sub, a, c, h)
    requires m < |t| && Class(t, m) == 2 * (c + sub) + 1 && m !in a
    ensures Mid(t, sub, c) <= h
  {
    FewerThanClass(t, r, a, h + 1, Hi(t, sub, c), 2 * (c + sub) + 1, m);
    StartStep(t, 2 * (c + sub) + 1);
  }

  lemma SeedTailsAfterWrite(t: Text, sub: nat, a: seq<int>, tails: seq<int>, c: nat, j: nat)
    requires |a| == |t| + 1 && c < |tails|
    requires SeedTailsAt(t, sub, a, tails)
    requires Mid(t, sub, c) <= tails[c]
    ensures 0 <= tails[c] < |a|
    ensures SeedTailsAt(t, sub, a[tails[c] := j], tails[c := tails[c] - 1])
  {
    var h := tails[c];
    assert SeedTailAt(t, sub, a, c, h);
    var b, tails' := a[h := j], tails[c := h - 1];
    forall d | 0 <= d < |tails| ensures SeedTailAt(t, sub, b, d, tails'[d]) {
      assert SeedTailAt(t, sub, a, d, tails[d]);
      if d < c {
        StartMonotone(t, 2 * (d + sub) + 2, 2 * (c + sub) + 1);
      } else if c < d {
        StartMonotone(t, 2 * (c + sub) + 2, 2 * (d + sub) + 1);
      }
    }
  }

  /** Seeding one more LMS position of a smaller rank than all seeded so far. */
  lemma SeedWrite(t: Text, r: seq<int>, sub: nat, a: seq<int>, tails: seq<int>, m: nat, c: nat)
    requires |r| == |t| + 1 && SeedInv(t, r, sub, a, tails)
    requires m < |t| && IsLMS(t, m) && c == t[m] - sub
    requires forall k :: k in a && k != INVALID ==> 0 <= k <= |t| && r[m] < r[k]
    ensures c < |tails| && 0 <= tails[c] < |a| && a[tails[c]] == INVALID
    ensures SeedInv(t, r, sub, a[tails[c] := m], tails[c := tails[c] - 1])
    ensures forall k {:trigger k in a[tails[c] := m]} ::
              k != INVALID ==> (k in a[tails[c] := m] <==> k in a || k == m)
  {
    var h := tails[c];
    assert SeedTailAt(t, sub, a, c, h);
    SeedRoom(t, r, sub, a, c, h, m);
    SeedTailsAfterWrite(t, sub, a, tails, c, m);
    InAfterWrite(a, h, m);
    var b := a[h := m];
    assert InRegions(t, b);
    forall x, y | 0 <= x < y < |b| && b[x] != INVALID && b[y] != INVALID ensures LeftLt(t, r, b[x], b[y]) {
      if x != h && y != h {
        assert LeftLt(t, r, a[x], a[y]);
      } else if x == h {
        ClassSlotOrder(t, b, h, y);
        assert b[y] in a;
      } else {
        ClassSlotOrder(t, b, x, h);
        assert Class(t, b[x]) != Class(t, m);
      }
    }
  }

  /** Before the first seed. */
  lemma SeedInit(t: Text, r: seq<int>, sub: nat, a: seq<int>, tails: seq<int>)
    requires |r| == |t| + 1 && CharsFrom(t, sub, |tails|) && AreTails(t, sub, tails)
    requires |a| == |t| + 1 && forall q :: 0 <= q < |a| ==> a[q] == INVALID
    ensures SeedInv(t, r, sub, a, tails)
  {
    forall c | 0 <= c < |tails| ensures SeedTailAt(t, sub, a, c, tails[c]) {
      BucketBounds(t, sub, |tails|, c);
    }
  }

  /** Once all LMS positions are seeded and the empty suffix is put in slot 0, the forward scan
      can start. */
  lemma SeedDone(t: Text, r: seq<int>, sub: nat, a: seq<int>, tails: seq<int>, heads: seq<int>)
    requires |r| == |t| + 1 && SeedInv(t, r, sub, a, tails)
    requires 1 <= |t| && |heads| == |tails| && AreHeads(t, sub, heads)
    requires forall m :: 0 <= m < |t| && IsLMS(t, m) ==> m in a
    ensures LeftInv(t, r, sub, a[0 := |t|], heads, 0)
  {
    var b := a[0 := |t|];
    StartEmptySuffix(t);
    if a[0] != INVALID {
      StartMonotone(t, 0, Class(t, a[0]));
      assert false;
    }
    InAfterWrite(a, 0, |t|);
    assert InRegions(t, b);
    assert LeftSorted(t, r, b);
    forall j | 0 <= j < |t| && !IsS(t, j) ensures Placed(b, j) <==> j + 1 in b[..0] {
      assert j !in b;
    }
    forall c | 0 <= c < |heads| ensures HeadAt(t, sub, b, c, heads[c]) {
      BucketBounds(t, sub, |heads|, c);
      forall q | heads[c] <= q < Mid(t, sub, c) ensures b[q] == INVALID {
        if b[q] != INVALID {
          RegionClass(t, b, q, 2 * (c + sub));
        }
      }
    }
  }

  // ---------- any seed ----------

  /** Every LMS position stands once, in the S-type half of its bucket; nothing L-type is there yet. */
  ghost predicate IsSeed(t: Text, a: seq<int>) {
    && InRegions(t, a)
    && (forall p, q :: 0 <= p < q < |a| && a[p] != INVALID ==> a[p] != a[q])
    && (forall q {:trigger a[q]} :: 0 <= q < |a| && a[q] != INVALID ==> IsS(t, a[q]))
    && (forall m {:trigger IsLMS(t, m)} :: 0 <= m <= |t| && IsLMS(t, m) ==> m in a)
  }

  ghost function SlotOf(a: seq<int>, m: int): int {
    if m in a then var q :| 0 <= q < |a| && a[q] == m; q else 0
  }

  /** The slot of every position, as its rank. */
  ghost function Slots(t: Text, a: seq<int>): (r: seq<int>)
    ensures |r| == |t| + 1
  {
    seq(|t| + 1, m => SlotOf(a, m))
  }

  lemma SlotIs(t: Text, a: seq<int>, q: nat)
    requires IsSeed(t, a) && q < |a| && a[q] != INVALID
    ensures Slots(t, a)[a[q]] == q
  {
    assert a[q] in a;
    var p := SlotOf(a, a[q]);
    assert 0 <= p < |a| && a[p] == a[q];
  }

  lemma SeedSorted(t: Text, a: seq<int>, p: nat, q: nat)
    requires IsSeed(t, a) && p < q < |a| && a[p] != INVALID && a[q] != INVALID
    ensures LeftLt(t, Slots(t, a), a[p], a[q])
  {
    ClassSlotOrder(t, a, p, q);
    SlotIs(t, a, p);
    SlotIs(t, a, q);
  }

  /** Any seed is sorted by ranks, those its own slots give: the forward scan can start. */
  lemma SeedHasRanks(t: Text, sub: nat, a: seq<int>, heads: seq<int>)
    requires IsSeed(t, a) && CharsFrom(t, sub, |heads|) && AreHeads(t, sub, heads)
    ensures LeftInv(t, Slots(t, a), sub, a, heads, 0)
  {
    forall p, q | 0 <= p < q < |a| && a[p] != INVALID && a[q] != INVALID
      ensures LeftLt(t, Slots(t, a), a[p], a[q])
    {
      SeedSorted(t, a, p, q);
    }
    forall c | 0 <= c < |heads| ensures HeadAt(t, sub, a, c, heads[c]) {
      BucketBounds(t, sub, |heads|, c);
      forall q | Lo(t, sub, c) <= q < Mid(t, sub, c) ensures a[q] == INVALID {
        if a[q] != INVALID {
          RegionClass(t, a, q, 2 * (c + sub));
        }
      }
    }
    forall j | 0 <= j < |t| && !IsS(t, j) ensures !Placed(a, j) {
    }
  }

  /** What the forward scan starts from is such a seed. */
  lemma StartIsSeed(t: Text, r: seq<int>, sub: nat, a: seq<int>, heads: seq<int>)
    requires |r| == |t| + 1 && LeftInv(t, r, sub, a, heads, 0)
    ensures IsSeed(t, a)
  {
    forall p, q | 0 <= p < q < |a| && a[p] != INVALID ensures a[p] != a[q] {
      if a[p] == a[q] {
        LeftSortedDistinct(t, r, a, p, q);
      }
    }
    forall q | 0 <= q < |a| && a[q] != INVALID ensures IsS(t, a[q]) {
      assert Placed(a, a[q]);
    }
  }
}
