/** The backward scan: S-type positions are rewritten from the tails of their buckets. */
module RightScan {
  import opened Suffixes
  import opened SuffixTypes
  import opened Buckets
  import opened InducedSort

  ghost predicate Shape(t: Text, sub: nat, a: seq<int>, tails: seq<int>) {
    InRegions(t, a) && CharsFrom(t, sub, |tails|)
  }

  /** Slot q holds its final position: not a stale seed of an S-type half. */
  ghost predicate Final(t: Text, sub: nat, a: seq<int>, tails: seq<int>, q: int)
    requires Shape(t, sub, a, tails)
  {
    0 <= q < |a| && a[q] != INVALID && (a[q] == |t| || !IsS(t, a[q]) || tails[t[a[q]] - sub] < q)
  }

  /** Position i stands finally in some slot from p on. */
  ghost predicate FinalFrom(t: Text, sub: nat, a: seq<int>, tails: seq<int>, p: nat, i: int)
    requires Shape(t, sub, a, tails)
  {
    exists q :: p <= q < |a| && a[q] == i && Final(t, sub, a, tails, q)
  }

  ghost predicate Settled(t: Text, sub: nat, a: seq<int>, tails: seq<int>, i: int)
    requires Shape(t, sub, a, tails)
  {
    FinalFrom(t, sub, a, tails, 0, i)
  }

  /** The cursor of bucket c stands in its S-type half, or just below it; written above it. */
  ghost predicate TailAt(t: Text, sub: nat, a: seq<int>, c: nat, h: int)
    requires |a| == |t| + 1
  {
    && Mid(t, sub, c) - 1 <= h < Hi(t, sub, c) <= |a|
    && (forall q :: h < q < Hi(t, sub, c) ==> a[q] != INVALID)
    && (forall q :: Lo(t, sub, c) <= q < Mid(t, sub, c) ==> a[q] != INVALID)
  }

  ghost predicate TailsAt(t: Text, sub: nat, a: seq<int>, tails: seq<int>)
    requires |a| == |t| + 1
  {
    forall c :: 0 <= c < |tails| ==> TailAt(t, sub, a, c, tails[c])
  }

  ghost predicate FinalSorted(t: Text, r: seq<int>, sub: nat, a: seq<int>, tails: seq<int>)
    requires |r| == |t| + 1 && Shape(t, sub, a, tails)
  {
    forall p, q :: 0 <= p < q < |a| && Final(t, sub, a, tails, p) && Final(t, sub, a, tails, q) ==>
      InducedLt(t, r, a[p], a[q])
  }

  /** An S-type position is settled exactly when its successor stands in a slot from p on. */
  ghost predicate RightReached(t: Text, sub: nat, a: seq<int>, tails: seq<int>, p: nat)
    requires Shape(t, sub, a, tails)
  {
    forall j {:trigger Settled(t, sub, a, tails, j)} :: 0 <= j < |t| && IsS(t, j) ==>
      (Settled(t, sub, a, tails, j) <==> FinalFrom(t, sub, a, tails, p, j + 1))
  }

  /** What the backward scan keeps when the slots from p on have been read. */
  ghost predicate RightInv(t: Text, r: seq<int>, sub: nat, a: seq<int>, tails: seq<int>, p: nat)
    requires |r| == |t| + 1
  {
    && p <= |a| && 1 <= |t|
    && Shape(t, sub, a, tails)
    && a[0] == |t|
    && TailsAt(t, sub, a, tails)
    && FinalSorted(t, r, sub, a, tails)
    && (forall j {:trigger Placed(a, j)} :: 0 <= j < |t| && !IsS(t, j) ==> Placed(a, j))
    && RightReached(t, sub, a, tails, p)
    && (forall q {:trigger Final(t, sub, a, tails, q)} :: p <= q < |a| ==> Final(t, sub, a, tails, q))
  }

  lemma FinalDistinct(t: Text, r: seq<int>, sub: nat, a: seq<int>, tails: seq<int>, p: nat, q: nat)
    requires |r| == |t| + 1 && Shape(t, sub, a, tails) && FinalSorted(t, r, sub, a, tails)
    requires Final(t, sub, a, tails, p) && Final(t, sub, a, tails, q) && a[p] == a[q]
    ensures p == q
  {
    InducedIrreflexive(t, r, a[p]);
  }

  /** A region whose slots hold pairwise distinct positions holds all positions of its class. */
  lemma RegionHolds(t: Text, a: seq<int>, x: int, k: nat)
    requires InRegions(t, a) && Start(t, x) <= Start(t, x + 1) <= |a|
    requires forall q :: Start(t, x) <= q < Start(t, x + 1) ==> a[q] != INVALID
    requires Distinct(a[Start(t, x)..Start(t, x + 1)])
    requires k <= |t| && Class(t, k) == x
    ensures k in a[Start(t, x)..Start(t, x + 1)]
  {
    var lo := Start(t, x);
    var s := a[lo..Start(t, x + 1)];
    forall i | i in s ensures i in ClassSet(t, x) {
      var q :| 0 <= q < |s| && s[q] == i;
      RegionClass(t, a, lo + q, x);
    }
    Pigeonhole(s, ClassSet(t, x));
    StartStep(t, x);
    assert k in ClassSet(t, x);
  }

  lemma FinalSliceDistinct(t: Text, r: seq<int>, sub: nat, a: seq<int>, tails: seq<int>, lo: nat, hi: nat)
    requires |r| == |t| + 1 && Shape(t, sub, a, tails) && FinalSorted(t, r, sub, a, tails) && lo <= hi <= |a|
    requires forall q {:trigger Final(t, sub, a, tails, q)} :: lo <= q < hi ==> Final(t, sub, a, tails, q)
    ensures Distinct(a[lo..hi])
  {
    var s := a[lo..hi];
    forall y, z | 0 <= y < z < |s| ensures s[y] != s[z] {
      assert Final(t, sub, a, tails, lo + y) && Final(t, sub, a, tails, lo + z);
      if s[y] == s[z] {
        FinalDistinct(t, r, sub, a, tails, lo + y, lo + z);
      }
    }
  }

  /** When every slot of an S-type half is final, every position of that class is settled there. */
  lemma HalfFull(t: Text, r: seq<int>, sub: nat, a: seq<int>, tails: seq<int>, c: nat, p: nat, k: nat)
    requires |r| == |t| + 1 && RightInv(t, r, sub, a, tails, p) && c < |tails| && p <= Mid(t, sub, c)
    requires k < |t| && Class(t, k) == 2 * (c + sub) + 1
    ensures FinalFrom(t, sub, a, tails, p, k)
  {
    assert TailAt(t, sub, a, c, tails[c]);
    var lo, hi := Mid(t, sub, c), Hi(t, sub, c);
    assert 2 * (c + sub) + 1 + 1 == 2 * (c + sub) + 2;
    FinalSliceDistinct(t, r, sub, a, tails, lo, hi);
    assert forall q :: lo <= q < hi ==> a[q] != INVALID by {
      forall q | lo <= q < hi ensures a[q] != INVALID {
        assert Final(t, sub, a, tails, q);
      }
    }
    RegionHolds(t, a, 2 * (c + sub) + 1, k);
    var q :| 0 <= q < hi - lo && a[lo..hi][q] == k;
    assert a[lo + q] == k && Final(t, sub, a, tails, lo + q);
  }

  /** An L-type position of a later bucket stands in a slot already read. */
  lemma LeftTypeFinal(t: Text, r: seq<int>, sub: nat, a: seq<int>, tails: seq<int>, p: nat, c: nat, k: nat)
    requires |r| == |t| + 1 && RightInv(t, r, sub, a, tails, p) && c < |tails|
    requires p <= Hi(t, sub, c)
    requires k < |t| && !IsS(t, k) && c + sub < t[k]
    ensures FinalFrom(t, sub, a, tails, p, k)
  {
    assert Placed(a, k);
    var q :| 0 <= q < |a| && a[q] == k;
    StartMonotone(t, 2 * (c + sub) + 2, Class(t, k));
    assert Final(t, sub, a, tails, q);
  }

  lemma SettledSameBucket(t: Text, sub: nat, a: seq<int>, tails: seq<int>, p: nat, k: nat)
    requires Shape(t, sub, a, tails) && k < |t| && IsS(t, k) && p - 1 <= tails[t[k] - sub]
    requires Settled(t, sub, a, tails, k)
    ensures FinalFrom(t, sub, a, tails, p, k)
  {
    var q :| 0 <= q < |a| && a[q] == k && Final(t, sub, a, tails, q);
    assert p <= q;
  }

  /** If the cursor of bucket c were not below slot p - 1, every S-type position of the bucket
      would be settled all the same. */
  lemma {:induction false} BucketSettled(t: Text, r: seq<int>, sub: nat, a: seq<int>, tails: seq<int>, p: nat, c: nat,
                                         j: nat)
    requires |r| == |t| + 1 && RightInv(t, r, sub, a, tails, p) && c < |tails|
    requires 1 <= p && p - 1 < Hi(t, sub, c) && p - 1 <= tails[c]
    requires j < |t| && t[j] == c + sub && IsS(t, j)
    ensures Settled(t, sub, a, tails, j)
    decreases |t| - j
  {
    var k := j + 1;
    if !IsS(t, k) {
      LeftTypeFinal(t, r, sub, a, tails, p, c, k);
    } else if t[k] == t[j] {
      BucketSettled(t, r, sub, a, tails, p, c, k);
      SettledSameBucket(t, sub, a, tails, p, k);
    } else {
      StartMonotone(t, 2 * (c + sub) + 2, 2 * t[k] + 1);
      HalfFull(t, r, sub, a, tails, t[k] - sub, p, k);
    }
    assert Settled(t, sub, a, tails, j) <==> FinalFrom(t, sub, a, tails, p, j + 1);
  }

  /** Every slot is final by the time the backward scan reads it. */
  lemma RightRead(t: Text, r: seq<int>, sub: nat, a: seq<int>, tails: seq<int>, p: nat)
    requires |r| == |t| + 1 && RightInv(t, r, sub, a, tails, p) && 1 <= p
    ensures Final(t, sub, a, tails, p - 1)
  {
    var q := p - 1;
    StartTop(t, sub, |tails|);
    var x := SlotClass(t, q, 2 * (sub + |tails|));
    StartEmptySuffix(t);
    if q == 0 {
    } else {
      assert x >= 2 * sub by {
        if x < 2 * sub {
          StartMonotone(t, x + 1, 2 * sub);
        }
      }
      var c := x / 2 - sub;
      assert TailAt(t, sub, a, c, tails[c]);
      if x % 2 == 0 {
        assert x == 2 * (c + sub);
        RegionClass(t, a, q, x);
      } else {
        assert x == 2 * (c + sub) + 1;
        if q <= tails[c] {
          CursorBelow(t, r, sub, a, tails, p, c);
        }
        RegionClass(t, a, q, x);
      }
    }
  }

  lemma CursorBelow(t: Text, r: seq<int>, sub: nat, a: seq<int>, tails: seq<int>, p: nat, c: nat)
    requires |r| == |t| + 1 && RightInv(t, r, sub, a, tails, p) && c < |tails|
    requires 1 <= p && Mid(t, sub, c) <= p - 1 < Hi(t, sub, c)
    ensures tails[c] < p - 1
  {
    var h, hi, x := tails[c], Hi(t, sub, c), 2 * (c + sub) + 1;
    assert TailAt(t, sub, a, c, h);
    if p - 1 <= h {
      forall j | j in ClassSet(t, x) ensures j in a[h + 1..hi] {
        BucketSettled(t, r, sub, a, tails, p, c, j);
        var q :| 0 <= q < |a| && a[q] == j && Final(t, sub, a, tails, q);
        assert a[h + 1..hi][q - (h + 1)] == j;
      }
      RegionFull(t, a, x, h + 1, hi);
    }
  }

  // ---------- one step ----------

  lemma RightNew(t: Text, r: seq<int>, sub: nat, a: seq<int>, tails: seq<int>, p: nat, j: nat)
    requires |r| == |t| + 1 && RightInv(t, r, sub, a, tails, p)
    requires 1 <= p && a[p - 1] == j + 1 && j < |t| && IsS(t, j) && Final(t, sub, a, tails, p - 1)
    ensures !Settled(t, sub, a, tails, j)
  {
    if Settled(t, sub, a, tails, j) {
      var q :| p <= q < |a| && a[q] == j + 1 && Final(t, sub, a, tails, q);
      FinalDistinct(t, r, sub, a, tails, p - 1, q);
    }
  }

  lemma AboveCursorFinal(t: Text, sub: nat, a: seq<int>, tails: seq<int>, c: nat, q: nat)
    requires Shape(t, sub, a, tails) && TailsAt(t, sub, a, tails) && c < |tails| && tails[c] < q < Hi(t, sub, c)
    ensures q < |a| && Final(t, sub, a, tails, q) && Class(t, a[q]) == 2 * (c + sub) + 1
  {
    assert TailAt(t, sub, a, c, tails[c]);
    RegionClass(t, a, q, 2 * (c + sub) + 1);
  }

  /** The S-type half of a bucket has a slot left as long as one of its positions is missing. */
  lemma RightRoom(t: Text, r: seq<int>, sub: nat, a: seq<int>, tails: seq<int>, c: nat, j: nat)
    requires |r| == |t| + 1 && Shape(t, sub, a, tails) && FinalSorted(t, r, sub, a, tails)
    requires c < |tails| && TailsAt(t, sub, a, tails)
    requires j < |t| && Class(t, j) == 2 * (c + sub) + 1 && !Settled(t, sub, a, tails, j)
    ensures Mid(t, sub, c) <= tails[c]
  {
    var h, hi, x := tails[c], Hi(t, sub, c), 2 * (c + sub) + 1;
    assert TailAt(t, sub, a, c, h);
    var s := a[h + 1..hi];
    forall q | h + 1 <= q < hi ensures Final(t, sub, a, tails, q) && Class(t, a[q]) == x && a[q] != j {
      AboveCursorFinal(t, sub, a, tails, c, q);
    }
    FinalSliceDistinct(t, r, sub, a, tails, h + 1, hi);
    forall i | i in s ensures i in ClassSet(t, x) - {j} {
      var q :| 0 <= q < |s| && s[q] == i;
      assert Final(t, sub, a, tails, h + 1 + q);
    }
    Pigeonhole(s, ClassSet(t, x) - {j});
    assert j in ClassSet(t, x);
    StartStep(t, x);
  }

  /** Writes land behind the backward scan's cursor, in slots it has still to read. */
  lemma RightBehind(t: Text, sub: nat, a: seq<int>, tails: seq<int>, p: nat, j: nat, c: nat)
    requires Shape(t, sub, a, tails) && TailsAt(t, sub, a, tails) && c < |tails|
    requires 1 <= p <= |a| && a[p - 1] == j + 1 && j < |t| && IsS(t, j) && Final(t, sub, a, tails, p - 1)
    requires t[j] == c + sub
    ensures tails[c] < p - 1
  {
    var k := j + 1;
    assert TailAt(t, sub, a, c, tails[c]);
    assert k < |t|;
    if t[k] > t[j] {
      StartMonotone(t, 2 * (c + sub) + 2, Class(t, k));
    }
  }

  /** The slot about to be written holds nothing final. */
  lemma CursorStale(t: Text, sub: nat, a: seq<int>, tails: seq<int>, c: nat)
    requires Shape(t, sub, a, tails) && TailsAt(t, sub, a, tails) && c < |tails| && Mid(t, sub, c) <= tails[c]
    ensures 0 <= tails[c] < |a| && !Final(t, sub, a, tails, tails[c])
  {
    var h := tails[c];
    assert TailAt(t, sub, a, c, h);
    if a[h] != INVALID {
      RegionClass(t, a, h, 2 * (c + sub) + 1);
    }
  }

  lemma FinalAfterWriteAt(t: Text, sub: nat, a: seq<int>, tails: seq<int>, c: nat, j: nat, b: seq<int>,
                          tails': seq<int>, q: int)
    requires Shape(t, sub, a, tails) && Shape(t, sub, b, tails') && c < |tails| && |tails'| == |tails|
    requires 0 <= tails[c] < |a| && !Final(t, sub, a, tails, tails[c])
    requires j < |t| && IsS(t, j) && t[j] == c + sub
    requires b == a[tails[c] := j] && tails' == tails[c := tails[c] - 1]
    ensures Final(t, sub, b, tails', q) <==> Final(t, sub, a, tails, q) || q == tails[c]
  {
    if 0 <= q < |a| && q != tails[c] {
      assert b[q] == a[q];
      if a[q] != INVALID && a[q] != |t| {
        var d := t[a[q]] - sub;
        assert tails'[d] == if d == c then tails[c] - 1 else tails[d];
      }
    }
  }

  /** Writing j at the cursor makes exactly that one slot final. */
  lemma FinalAfterWrite(t: Text, sub: nat, a: seq<int>, tails: seq<int>, c: nat, j: nat, b: seq<int>, tails': seq<int>)
    requires Shape(t, sub, a, tails) && TailsAt(t, sub, a, tails) && c < |tails| && Mid(t, sub, c) <= tails[c]
    requires j < |t| && IsS(t, j) && t[j] == c + sub && tails[c] < |a|
    requires b == a[tails[c] := j] && tails' == tails[c := tails[c] - 1]
    ensures Shape(t, sub, b, tails')
    ensures forall q {:trigger Final(t, sub, b, tails', q)} ::
              Final(t, sub, b, tails', q) <==> Final(t, sub, a, tails, q) || q == tails[c]
  {
    assert TailAt(t, sub, a, c, tails[c]);
    CursorStale(t, sub, a, tails, c);
    WriteInRegions(t, a, 2 * (c + sub) + 1, tails[c], j);
    forall q ensures Final(t, sub, b, tails', q) <==> Final(t, sub, a, tails, q) || q == tails[c] {
      FinalAfterWriteAt(t, sub, a, tails, c, j, b, tails', q);
    }
  }

  lemma WriteInRegions(t: Text, a: seq<int>, x: int, h: nat, j: nat)
    requires InRegions(t, a) && h < |a| && j <= |t| && Class(t, j) == x && Start(t, x) <= h < Start(t, x + 1)
    ensures InRegions(t, a[h := j])
  {
  }

  lemma TailsAfterWrite(t: Text, sub: nat, a: seq<int>, tails: seq<int>, c: nat, j: nat)
    requires |a| == |t| + 1 && c < |tails| && TailsAt(t, sub, a, tails) && Mid(t, sub, c) <= tails[c]
    ensures 0 <= tails[c] < |a|
    ensures TailsAt(t, sub, a[tails[c] := j], tails[c := tails[c] - 1])
  {
    var h := tails[c];
    assert TailAt(t, sub, a, c, h);
    var b, tails' := a[h := j], tails[c := h - 1];
    forall d | 0 <= d < |tails| ensures TailAt(t, sub, b, d, tails'[d]) {
      assert TailAt(t, sub, a, d, tails[d]);
      if d < c {
        StartMonotone(t, 2 * (d + sub) + 2, 2 * (c + sub) + 1);
      } else if c < d {
        StartMonotone(t, 2 * (c + sub) + 2, 2 * (d + sub) + 1);
      }
    }
  }

  /** The written position comes after the final positions before it and before those after it. */
  lemma RightWriteSorted(t: Text, r: seq<int>, sub: nat, a: seq<int>, tails: seq<int>, p: nat, j: nat, c: nat, q: nat)
    requires |r| == |t| + 1 && RightInv(t, r, sub, a, tails, p) && c < |tails|
    requires 1 <= p && a[p - 1] == j + 1 && j < |t| && IsS(t, j) && Final(t, sub, a, tails, p - 1)
    requires t[j] == c + sub && Mid(t, sub, c) <= tails[c] < Hi(t, sub, c)
    requires Final(t, sub, a, tails, q) && q != tails[c]
    ensures q < tails[c] ==> InducedLt(t, r, a[q], j)
    ensures tails[c] < q ==> InducedLt(t, r, j, a[q])
  {
    var h, b := tails[c], a[tails[c] := j];
    WriteInRegions(t, a, 2 * (c + sub) + 1, h, j);
    if q < h {
      ClassSlotOrder(t, b, q, h);
    } else {
      ClassSlotOrder(t, b, h, q);
      if Class(t, a[q]) == Class(t, j) {
        SuccessorOrder(t, r, sub, a, tails, p, q);
      }
    }
  }

  lemma SuccessorOrder(t: Text, r: seq<int>, sub: nat, a: seq<int>, tails: seq<int>, p: nat, q: nat)
    requires |r| == |t| + 1 && RightInv(t, r, sub, a, tails, p)
    requires 1 <= p && Final(t, sub, a, tails, p - 1)
    requires Final(t, sub, a, tails, q) && a[q] < |t| && IsS(t, a[q])
    ensures InducedLt(t, r, a[p - 1], a[q] + 1)
  {
    assert Settled(t, sub, a, tails, a[q]);
    var z :| p <= z < |a| && a[z] == a[q] + 1 && Final(t, sub, a, tails, z);
    assert InducedLt(t, r, a[p - 1], a[z]);
  }

  lemma RightWriteReached(t: Text, sub: nat, a: seq<int>, tails: seq<int>, p: nat, j: nat, b: seq<int>,
                          tails': seq<int>, h: nat)
    requires Shape(t, sub, a, tails) && Shape(t, sub, b, tails') && 1 <= p <= |a|
    requires RightReached(t, sub, a, tails, p)
    requires h < p - 1 && b == a[h := j] && a[p - 1] == j + 1
    requires !Final(t, sub, a, tails, h) && Final(t, sub, a, tails, p - 1)
    requires forall q {:trigger Final(t, sub, b, tails', q)} ::
               Final(t, sub, b, tails', q) <==> Final(t, sub, a, tails, q) || q == h
    ensures RightReached(t, sub, b, tails', p - 1)
  {
    forall k | 0 <= k < |t| && IsS(t, k)
      ensures Settled(t, sub, b, tails', k) <==> FinalFrom(t, sub, b, tails', p - 1, k + 1)
    {
      assert Settled(t, sub, b, tails', k) <==> Settled(t, sub, a, tails, k) || k == j by {
        SettledAfterWrite(t, sub, a, tails, j, b, tails', h, 0, k);
      }
      assert FinalFrom(t, sub, b, tails', p - 1, k + 1) <==> FinalFrom(t, sub, a, tails, p, k + 1) || k == j by {
        if k == j {
          assert Final(t, sub, b, tails', p - 1) && b[p - 1] == k + 1;
        } else {
          FinalFromLater(t, sub, a, tails, b, tails', p, k + 1);
        }
      }
    }
  }

  lemma SettledAfterWrite(t: Text, sub: nat, a: seq<int>, tails: seq<int>, j: nat, b: seq<int>, tails': seq<int>,
                          h: nat, p: nat, k: nat)
    requires Shape(t, sub, a, tails) && Shape(t, sub, b, tails')
    requires h < |a| && b == a[h := j] && !Final(t, sub, a, tails, h)
    requires forall q {:trigger Final(t, sub, b, tails', q)} ::
               Final(t, sub, b, tails', q) <==> Final(t, sub, a, tails, q) || q == h
    ensures Settled(t, sub, b, tails', k) <==> Settled(t, sub, a, tails, k) || k == j
  {
    if Settled(t, sub, a, tails, k) {
      var q :| 0 <= q < |a| && a[q] == k && Final(t, sub, a, tails, q);
      assert b[q] == k && Final(t, sub, b, tails', q);
    }
    if k == j {
      assert b[h] == k && Final(t, sub, b, tails', h);
    }
    if Settled(t, sub, b, tails', k) && k != j {
      var q :| 0 <= q < |b| && b[q] == k && Final(t, sub, b, tails', q);
      assert a[q] == k && Final(t, sub, a, tails, q);
    }
  }

  lemma FinalFromLater(t: Text, sub: nat, a: seq<int>, tails: seq<int>, b: seq<int>, tails': seq<int>, p: nat, k: nat)
    requires Shape(t, sub, a, tails) && Shape(t, sub, b, tails') && 1 <= p <= |a|
    requires (forall q :: p - 1 <= q < |a| ==> b[q] == a[q]) && a[p - 1] != k
    requires forall q {:trigger Final(t, sub, b, tails', q)} :: p - 1 <= q ==>
               (Final(t, sub, b, tails', q) <==> Final(t, sub, a, tails, q))
    ensures FinalFrom(t, sub, b, tails', p - 1, k) <==> FinalFrom(t, sub, a, tails, p, k)
  {
    if FinalFrom(t, sub, a, tails, p, k) {
      var q :| p <= q < |a| && a[q] == k && Final(t, sub, a, tails, q);
      assert b[q] == k && Final(t, sub, b, tails', q);
    }
    if FinalFrom(t, sub, b, tails', p - 1, k) {
      var q :| p - 1 <= q < |b| && b[q] == k && Final(t, sub, b, tails', q);
      assert a[q] == k && Final(t, sub, a, tails, q);
    }
  }

  lemma RightWrite(t: Text, r: seq<int>, sub: nat, a: seq<int>, tails: seq<int>, p: nat, j: nat, c: nat)
    requires |r| == |t| + 1 && RightInv(t, r, sub, a, tails, p)
    requires 1 <= p && a[p - 1] == j + 1 && j < |t| && IsS(t, j) && c == t[j] - sub
    ensures c < |tails| && 0 <= tails[c] < p - 1
    ensures RightInv(t, r, sub, a[tails[c] := j], tails[c := tails[c] - 1], p - 1)
  {
    RightRead(t, r, sub, a, tails, p);
    RightNew(t, r, sub, a, tails, p, j);
    RightRoom(t, r, sub, a, tails, c, j);
    RightBehind(t, sub, a, tails, p, j, c);
    BucketBounds(t, sub, |tails|, c);
    CursorStale(t, sub, a, tails, c);
    var h := tails[c];
    assert TailAt(t, sub, a, c, h);
    var b, tails' := a[h := j], tails[c := h - 1];
    FinalAfterWrite(t, sub, a, tails, c, j, b, tails');
    TailsAfterWrite(t, sub, a, tails, c, j);
    RightWriteReached(t, sub, a, tails, p, j, b, tails', h);
    WriteKeepsOrder(t, r, sub, a, tails, p, j, c, b, tails');
    WriteKeepsLTypes(t, sub, a, tails, h, j);
  }

  lemma WriteKeepsOrder(t: Text, r: seq<int>, sub: nat, a: seq<int>, tails: seq<int>, p: nat, j: nat, c: nat,
                        b: seq<int>, tails': seq<int>)
    requires |r| == |t| + 1 && RightInv(t, r, sub, a, tails, p)
    requires 1 <= p && a[p - 1] == j + 1 && j < |t| && IsS(t, j) && Final(t, sub, a, tails, p - 1)
    requires c < |tails| && t[j] == c + sub && Mid(t, sub, c) <= tails[c] < Hi(t, sub, c) <= |a|
    requires b == a[tails[c] := j] && Shape(t, sub, b, tails')
    requires forall q {:trigger Final(t, sub, b, tails', q)} ::
               Final(t, sub, b, tails', q) <==> Final(t, sub, a, tails, q) || q == tails[c]
    ensures FinalSorted(t, r, sub, b, tails')
  {
    var h := tails[c];
    forall x, y | 0 <= x < y < |b| && Final(t, sub, b, tails', x) && Final(t, sub, b, tails', y)
      ensures InducedLt(t, r, b[x], b[y])
    {
      if x == h {
        RightWriteSorted(t, r, sub, a, tails, p, j, c, y);
      } else if y == h {
        RightWriteSorted(t, r, sub, a, tails, p, j, c, x);
      } else {
        assert InducedLt(t, r, a[x], a[y]);
      }
    }
  }

  lemma WriteKeepsLTypes(t: Text, sub: nat, a: seq<int>, tails: seq<int>, h: nat, j: nat)
    requires Shape(t, sub, a, tails) && h < |a| && !Final(t, sub, a, tails, h)
    requires forall k {:trigger Placed(a, k)} :: 0 <= k < |t| && !IsS(t, k) ==> Placed(a, k)
    ensures forall k {:trigger Placed(a[h := j], k)} :: 0 <= k < |t| && !IsS(t, k) ==> Placed(a[h := j], k)
  {
    forall k | 0 <= k < |t| && !IsS(t, k) ensures Placed(a[h := j], k) {
      assert Placed(a, k);
      var q :| 0 <= q < |a| && a[q] == k;
      assert Final(t, sub, a, tails, q);
      assert a[h := j][q] == k;
    }
  }

  lemma RightSkip(t: Text, r: seq<int>, sub: nat, a: seq<int>, tails: seq<int>, p: nat)
    requires |r| == |t| + 1 && RightInv(t, r, sub, a, tails, p)
    requires 1 <= p && (a[p - 1] == INVALID || a[p - 1] == 0 || !IsS(t, a[p - 1] - 1))
    ensures RightInv(t, r, sub, a, tails, p - 1)
  {
    RightRead(t, r, sub, a, tails, p);
    forall j | 0 <= j < |t| && IsS(t, j)
      ensures Settled(t, sub, a, tails, j) <==> FinalFrom(t, sub, a, tails, p - 1, j + 1)
    {
      FinalFromLater(t, sub, a, tails, a, tails, p, j + 1);
    }
  }

  /** The forward scan leaves what the backward scan starts from. */
  lemma RightInit(t: Text, r: seq<int>, sub: nat, a: seq<int>, heads: seq<int>, tails: seq<int>)
    requires |r| == |t| + 1 && LeftInv(t, r, sub, a, heads, |a|) && 1 <= |t|
    requires |tails| == |heads| && AreTails(t, sub, tails)
    ensures RightInv(t, r, sub, a, tails, |a|)
  {
    assert a[0] == |t| by {
      assert IsLMS(t, |t|);
      var q :| 0 <= q < |a| && a[q] == |t|;
      StartEmptySuffix(t);
    }
    forall c | 0 <= c < |tails| ensures TailAt(t, sub, a, c, tails[c]) {
      LeftFull(t, r, sub, a, heads, c);
      BucketBounds(t, sub, |tails|, c);
    }
    forall q | 0 <= q < |a| && Final(t, sub, a, tails, q) ensures a[q] == |t| || !IsS(t, a[q]) {
      assert q < Start(t, Class(t, a[q]) + 1);
    }
    forall x, y | 0 <= x < y < |a| && Final(t, sub, a, tails, x) && Final(t, sub, a, tails, y)
      ensures InducedLt(t, r, a[x], a[y])
    {
      assert LeftLt(t, r, a[x], a[y]);
    }
    forall j | 0 <= j < |t| && !IsS(t, j) ensures Placed(a, j) {
      LeftComplete(t, r, sub, a, heads, j);
    }
  }

  ghost predicate InducedSorted(t: Text, r: seq<int>, a: seq<int>)
    requires |r| == |t| + 1
  {
    && |a| == |t| + 1 && InRange(|t|, a)
    && forall p, q :: 0 <= p < q < |a| ==> InducedLt(t, r, a[p], a[q])
  }

  /** At the end of the backward scan the array is sorted by the induced order, all of it. */
  lemma RightDone(t: Text, r: seq<int>, sub: nat, a: seq<int>, tails: seq<int>)
    requires |r| == |t| + 1 && RightInv(t, r, sub, a, tails, 0)
    ensures InducedSorted(t, r, a)
  {
    forall q | 0 <= q < |a| ensures 0 <= a[q] <= |t| {
      assert Final(t, sub, a, tails, q);
    }
    forall p, q | 0 <= p < q < |a| ensures InducedLt(t, r, a[p], a[q]) {
      assert Final(t, sub, a, tails, p) && Final(t, sub, a, tails, q);
    }
  }

  method SInduceSort(guessedSA: array<int>, t: Text, stypes: seq<bool>, tails: array<int>, sub: nat, ghost r: seq<int>)
    requires IsTypeArray(t, stypes) && guessedSA != tails
    requires |r| == |t| + 1 && RightInv(t, r, sub, guessedSA[..], tails[..], |t| + 1)
    modifies guessedSA, tails
    ensures InducedSorted(t, r, guessedSA[..])
  {
    var i := guessedSA.Length;
    while i != 0
      invariant 0 <= i <= guessedSA.Length
      invariant RightInv(t, r, sub, guessedSA[..], tails[..], i)
    {
      ghost var a, h := guessedSA[..], tails[..];
      if guessedSA[i - 1] != INVALID {
        assert a[i - 1] != INVALID;
        var j := guessedSA[i - 1] - 1;
        if j != INVALID && stypes[j] {
          var c := t[j] - sub;
          RightWrite(t, r, sub, a, h, i, j, c);
          guessedSA[tails[c]] := j;
          tails[c] := tails[c] - 1;
          assert guessedSA[..] == a[h[c] := j] && tails[..] == h[c := h[c] - 1];
        } else {
          RightSkip(t, r, sub, a, h, i);
        }
      } else {
        RightSkip(t, r, sub, a, h, i);
      }
      i := i - 1;
    }
    RightDone(t, r, sub, guessedSA[..], tails[..]);
  }
}
