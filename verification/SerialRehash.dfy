/** Serial rehashing of the hash map: growing the table at once and splitting off all buckets. */
module SerialRehash {
  import opened Masks
  import opened HashMap

  predicate IsMarked(bs: seq<Bucket>, b: nat) {
    b < |bs| && bs[b].Rehashed?
  }

  predicate In(bs: seq<Bucket>, b: nat, k: nat) {
    IsMarked(bs, b) && Has(bs[b].list, k)
  }

  ghost predicate Contains(bs: seq<Bucket>, k: nat) {
    exists b: nat :: In(bs, b, k)
  }

  ghost predicate ParentMarked(bs: seq<Bucket>, b: nat) {
    b >= 2 && IsMarked(bs, b) ==> IsMarked(bs, Parent(b))
  }

  /** What is marked has its parent marked. */
  ghost predicate ClosedTable(bs: seq<Bucket>) {
    forall b: nat {:trigger ParentMarked(bs, b)} :: ParentMarked(bs, b)
  }

  ghost predicate LastMarked(bs: seq<Bucket>, b: nat, h: nat) {
    forall d: nat {:trigger OnChain(d, h)} :: d > b && OnChain(d, h) ==> !IsMarked(bs, d)
  }

  /** The same for the buckets that the first base bits of a number do not reach. */
  ghost predicate ClosedFrom(bs: seq<Bucket>, base: nat) {
    forall b: nat {:trigger ParentMarked(bs, b)} :: b >= Pow2(base) ==> ParentMarked(bs, b)
  }

  ghost predicate AllMarked(bs: seq<Bucket>) {
    forall b: nat {:trigger IsMarked(bs, b)} :: b < |bs| ==> IsMarked(bs, b)
  }

  /** Every node is in the last marked bucket of its chain, and at least as far as base bits lead. */
  ghost predicate PlacedTable(bs: seq<Bucket>, hash: nat -> nat, base: nat) {
    forall b: nat, k: nat {:trigger In(bs, b, k)} :: In(bs, b, k) ==>
      OnChain(b, hash(k)) && b >= Cut(hash(k), base) && LastMarked(bs, b, hash(k))
  }

  ghost predicate UniqueTable(bs: seq<Bucket>) {
    && (forall b: nat, c: nat, k: nat {:trigger In(bs, b, k), In(bs, c, k)} :: In(bs, b, k) && In(bs, c, k) ==> b == c)
    && (forall b: nat {:trigger IsMarked(bs, b)} :: IsMarked(bs, b) ==> Distinct(bs[b].list))
  }

  ghost predicate EmptyTable(bs: seq<Bucket>) {
    forall b: nat, k: nat {:trigger In(bs, b, k)} :: !In(bs, b, k)
  }

  ghost predicate SameKeys(bs: seq<Bucket>, bs': seq<Bucket>) {
    forall k: nat {:trigger Contains(bs, k)} {:trigger Contains(bs', k)} :: Contains(bs, k) <==> Contains(bs', k)
  }

  /** What rehashing relies on. Up to base bits buckets may be marked without their parents; nodes are
      never that far up. */
  ghost predicate TableOk(bs: seq<Bucket>, hash: nat -> nat, level: nat, base: nat) {
    && 1 <= base <= level && |bs| == Pow2(level) && IsMarked(bs, 0) && IsMarked(bs, 1)
    && UniqueTable(bs) && PlacedTable(bs, hash, base) && ClosedFrom(bs, base)
  }

  // ---------- the nearest marked ancestor ----------

  /** The nearest marked bucket on the way from b to its ancestors. */
  function Root(bs: seq<Bucket>, b: nat): (h: nat)
    ensures h <= b
    ensures h < 2 || IsMarked(bs, h)
    decreases b
  {
    if b < 2 || IsMarked(bs, b) then b else Root(bs, Parent(b))
  }

  /** The ancestor of b, or b itself, whose parent is h. */
  function Branch(h: nat, b: nat): (c: nat)
    requires b >= 2
    ensures c >= 2 && c <= b
    decreases b
  {
    if Parent(b) == h || Parent(b) < 2 then b else Branch(h, Parent(b))
  }

  /** Bucket b is not marked, nor is any of its ancestors below h. */
  predicate Under(bs: seq<Bucket>, h: nat, b: nat) {
    2 <= b < |bs| && !IsMarked(bs, b) && Root(bs, b) == h
  }

  lemma {:induction false} BranchIs(bs: seq<Bucket>, h: nat, b: nat)
    requires Under(bs, h, b) && IsMarked(bs, 0) && IsMarked(bs, 1)
    ensures Parent(Branch(h, b)) == h && !IsMarked(bs, Branch(h, b))
    decreases b
  {
    assert Root(bs, b) == Root(bs, Parent(b));
    if Parent(b) != h && Parent(b) >= 2 {
      assert !IsMarked(bs, Parent(b));
      BranchIs(bs, h, Parent(b));
    }
  }

  /** The children of h are h + 2^s for the segments s behind its own. */
  lemma ChildIs(h: nat, s: nat)
    requires Segment(h) < s
    ensures Pow2(s) + h >= 2 && Segment(Pow2(s) + h) == s && Parent(Pow2(s) + h) == h
  {
    Pow2Monotone(Segment(h) + 1, s);
    Pow2Monotone(1, s);
    SegmentUnique(Pow2(s) + h, s);
  }

  lemma ParentSegment(c: nat)
    requires c >= 2
    ensures Segment(Parent(c)) < Segment(c) && c == Pow2(Segment(c)) + Parent(c)
  {
    var s := Segment(c);
    assert Parent(c) < Pow2(s);
    if s <= Segment(Parent(c)) && Parent(c) >= 1 {
      Pow2Monotone(s, Segment(Parent(c)));
    }
    assert s >= 1;
  }

  /** Marked so far: the buckets under h whose branch is in a segment before s. */
  predicate Done(bs: seq<Bucket>, h: nat, s: nat, b: nat) {
    Under(bs, h, b) && Segment(Branch(h, b)) < s
  }

  ghost predicate MarkedUpTo(bs: seq<Bucket>, h: nat, s: nat, bs': seq<Bucket>) {
    |bs'| == |bs| &&
    forall b: nat {:trigger bs'[b]} :: b < |bs| ==> bs'[b] == if Done(bs, h, s, b) then Rehashed(Nil) else bs[b]
  }

  /** All buckets under h get marked and nothing else changes. */
  ghost predicate MarkedBelow(bs: seq<Bucket>, h: nat, bs': seq<Bucket>) {
    |bs'| == |bs| &&
    forall b: nat {:trigger bs'[b]} :: b < |bs| ==> bs'[b] == if Under(bs, h, b) then Rehashed(Nil) else bs[b]
  }

  /** With all branches before segment s done and bucket c = h + 2^s marked: what is under c is what
      was under h with branch c. */
  lemma {:induction false} UnderChild(bs: seq<Bucket>, h: nat, s: nat, mid: seq<Bucket>, b: nat)
    requires Segment(h) < s && MarkedUpTo(bs, h, s, mid) && Pow2(s) + h < |bs| && b >= 2
    requires IsMarked(bs, 0) && IsMarked(bs, 1) && IsMarked(bs, h) && !IsMarked(bs, Pow2(s) + h)
    ensures var c := Pow2(s) + h;
            Under(mid[c := Rehashed(Nil)], c, b) <==> b != c && Under(bs, h, b) && Branch(h, b) == c
    decreases b
  {
    ChildIs(h, s);
    var c := Pow2(s) + h;
    var now := mid[c := Rehashed(Nil)];
    var p := Parent(b);
    if b < |bs| && b != c {
      assert !IsMarked(bs, b) ==> Root(bs, b) == Root(bs, p);
      assert !IsMarked(now, b) ==> Root(now, b) == Root(now, p);
      assert IsMarked(now, h) && IsMarked(now, 0) && IsMarked(now, 1);
      if p == h || p < 2 {
        assert Branch(h, b) == b;
      } else {
        assert Branch(h, b) == Branch(h, p);
        UnderChild(bs, h, s, mid, p);
        assert p == c ==> Branch(h, p) == c;
      }
    }
  }

  lemma NoBranches(bs: seq<Bucket>, h: nat)
    requires IsMarked(bs, 0) && IsMarked(bs, 1)
    ensures MarkedUpTo(bs, h, Segment(h) + 1, bs)
  {
    var s := Segment(h) + 1;
    forall b: nat ensures !Done(bs, h, s, b) {
      if Under(bs, h, b) {
        BranchIs(bs, h, b);
        ParentSegment(Branch(h, b));
      }
    }
  }

  lemma NextBranch(bs: seq<Bucket>, h: nat, s: nat, b: nat)
    requires Segment(h) < s && IsMarked(bs, 0) && IsMarked(bs, 1)
    ensures Done(bs, h, s + 1, b) <==> Done(bs, h, s, b) || (Under(bs, h, b) && Branch(h, b) == Pow2(s) + h)
  {
    ChildIs(h, s);
    if Under(bs, h, b) {
      BranchIs(bs, h, b);
      ParentSegment(Branch(h, b));
    }
  }

  lemma ChildUnder(bs: seq<Bucket>, h: nat, s: nat)
    requires Segment(h) < s && Pow2(s) + h < |bs| && IsMarked(bs, h) && !IsMarked(bs, Pow2(s) + h)
    ensures Under(bs, h, Pow2(s) + h) && Branch(h, Pow2(s) + h) == Pow2(s) + h
  {
    ChildIs(h, s);
  }

  /** One more branch is marked. */
  lemma OneBranch(bs: seq<Bucket>, h: nat, s: nat, mid: seq<Bucket>, bs': seq<Bucket>)
    requires Segment(h) < s && MarkedUpTo(bs, h, s, mid) && Pow2(s) + h < |bs|
    requires IsMarked(bs, 0) && IsMarked(bs, 1) && IsMarked(bs, h) && !IsMarked(mid, Pow2(s) + h)
    requires MarkedBelow(mid[Pow2(s) + h := Rehashed(Nil)], Pow2(s) + h, bs')
    ensures MarkedUpTo(bs, h, s + 1, bs')
  {
    var c := Pow2(s) + h;
    assert !IsMarked(bs, c);
    ChildUnder(bs, h, s);
    forall b: nat | b < |bs| ensures bs'[b] == if Done(bs, h, s + 1, b) then Rehashed(Nil) else bs[b] {
      NextBranch(bs, h, s, b);
      if b >= 2 {
        UnderChild(bs, h, s, mid, b);
      }
      assert bs'[b] == if Under(mid[c := Rehashed(Nil)], c, b) || b == c then Rehashed(Nil) else mid[b];
    }
  }

  /** A marked child has nothing under h behind it. */
  lemma SkippedBranch(bs: seq<Bucket>, h: nat, s: nat, mid: seq<Bucket>)
    requires Segment(h) < s && MarkedUpTo(bs, h, s, mid) && Pow2(s) + h < |bs|
    requires IsMarked(bs, 0) && IsMarked(bs, 1) && IsMarked(mid, Pow2(s) + h)
    ensures MarkedUpTo(bs, h, s + 1, mid)
  {
    ChildIs(h, s);
    assert IsMarked(bs, Pow2(s) + h);
    forall b: nat | b < |bs| ensures Done(bs, h, s + 1, b) <==> Done(bs, h, s, b) {
      NextBranch(bs, h, s, b);
      if Under(bs, h, b) {
        BranchIs(bs, h, b);
      }
    }
  }

  lemma AllBranches(bs: seq<Bucket>, h: nat, level: nat, bs': seq<Bucket>)
    requires |bs| == Pow2(level) && MarkedUpTo(bs, h, level, bs')
    ensures MarkedBelow(bs, h, bs')
  {
    forall b: nat | b < |bs| ensures Done(bs, h, level, b) <==> Under(bs, h, b) {
      if b >= 2 && level <= Segment(Branch(h, b)) {
        Pow2Monotone(level, Segment(Branch(h, b)));
      }
    }
  }

  // ---------- moving the nodes of a root ----------

  /** Every node of bucket h is now in the bucket its hash code has in the whole table. */
  ghost predicate MovedOut(bs: seq<Bucket>, h: nat, level: nat, hash: nat -> nat, bs': seq<Bucket>) {
    && |bs'| == |bs| && (forall b: nat {:trigger IsMarked(bs', b)} :: IsMarked(bs', b) <==> IsMarked(bs, b))
    && (forall b: nat, k: nat {:trigger In(bs', b, k)} ::
          In(bs', b, k) <==> if In(bs, h, k) then b == Cut(hash(k), level) else In(bs, b, k))
    && UniqueTable(bs')
  }

  /** The same, but for the nodes of rest, which are still where they were. */
  ghost predicate MovingOut(bs: seq<Bucket>, h: nat, level: nat, hash: nat -> nat, rest: List, bs': seq<Bucket>) {
    && |bs'| == |bs| && (forall b: nat {:trigger IsMarked(bs', b)} :: IsMarked(bs', b) <==> IsMarked(bs, b))
    && (forall b: nat, k: nat {:trigger In(bs', b, k)} ::
          In(bs', b, k) <==> if In(bs, h, k) && !Has(rest, k) then b == Cut(hash(k), level) else In(bs, b, k))
    && UniqueTable(bs')
    && Distinct(rest) && (forall k: nat {:trigger Has(rest, k)} :: Has(rest, k) ==> In(bs, h, k))
  }

  lemma MoveOne(bs: seq<Bucket>, h: nat, level: nat, hash: nat -> nat, rest: List, mid: seq<Bucket>)
    requires UniqueTable(bs) && MovingOut(bs, h, level, hash, rest, mid) && rest.Cons? && IsMarked(bs, h)
    requires var d := Cut(hash(rest.head), level); d != h && IsMarked(bs, d)
    ensures var k := rest.head;
            var d := Cut(hash(k), level);
            IsMarked(mid, h) && IsMarked(mid, d) &&
            MovingOut(bs, h, level, hash, rest.tail,
                      mid[h := Rehashed(Without(mid[h].list, k))][d := Rehashed(Cons(k, mid[d].list))])
  {
    var k := rest.head;
    var d := Cut(hash(k), level);
    assert IsMarked(mid, h) && IsMarked(mid, d);
    var bs' := mid[h := Rehashed(Without(mid[h].list, k))][d := Rehashed(Cons(k, mid[d].list))];
    assert Has(rest, k);
    forall b: nat, j: nat ensures In(bs', b, j) <==> if j == k then b == d else In(mid, b, j) {
      WithoutHas(mid[h].list, k, j);
      assert In(mid, b, k) <==> b == h;
    }
    WithoutDistinct(mid[h].list, k);
    assert !In(mid, d, k);
    forall b: nat, j: nat
      ensures In(bs', b, j) <==> if In(bs, h, j) && !Has(rest.tail, j) then b == Cut(hash(j), level) else In(bs, b, j)
    {
      assert Has(rest, j) <==> j == k || Has(rest.tail, j);
    }
    forall b: nat ensures IsMarked(bs', b) <==> IsMarked(bs, b) {
      assert IsMarked(mid, b) <==> IsMarked(bs, b);
    }
    forall b: nat, c: nat, j: nat | In(bs', b, j) && In(bs', c, j) ensures b == c {
    }
    forall j: nat | Has(rest.tail, j) ensures In(bs, h, j) {
      assert Has(rest, j);
    }
    forall b: nat | IsMarked(bs', b) ensures Distinct(bs'[b].list) {
      assert IsMarked(mid, b);
    }
  }

  /** A node that is in its place already stays. */
  lemma KeepOne(bs: seq<Bucket>, h: nat, level: nat, hash: nat -> nat, rest: List, mid: seq<Bucket>)
    requires UniqueTable(bs) && MovingOut(bs, h, level, hash, rest, mid) && rest.Cons?
    requires Cut(hash(rest.head), level) == h
    ensures MovingOut(bs, h, level, hash, rest.tail, mid)
  {
    assert Has(rest, rest.head);
    forall b: nat ensures In(mid, b, rest.head) <==> b == h {
    }
    forall j: nat | Has(rest.tail, j) ensures In(bs, h, j) {
      assert Has(rest, j);
    }
  }

  // ---------- what splitting off everything under a root keeps ----------

  lemma {:induction false} RootIs(bs: seq<Bucket>, h: nat, d: nat, x: nat)
    requires OnChain(d, x) && OnChain(h, x) && h <= d && IsMarked(bs, h) && LastMarked(bs, h, x)
    ensures Root(bs, d) == h
    decreases d
  {
    if h < d {
      ChainOrder(h, d, x);
      ParentOnChain(d, x);
      RootIs(bs, h, Parent(d), x);
    }
  }

  lemma {:induction false} RootAbove(bs: seq<Bucket>, b: nat, d: nat, x: nat)
    requires OnChain(d, x) && OnChain(b, x) && b <= d && IsMarked(bs, b)
    ensures b <= Root(bs, d) && OnChain(Root(bs, d), x)
    decreases d
  {
    if b < d && !IsMarked(bs, d) {
      ChainOrder(b, d, x);
      ParentOnChain(d, x);
      RootAbove(bs, b, Parent(d), x);
    }
  }

  lemma MarkedKeys(bs: seq<Bucket>, h: nat, mid: seq<Bucket>)
    requires MarkedBelow(bs, h, mid)
    ensures forall b: nat, k: nat {:trigger In(mid, b, k)} :: In(mid, b, k) <==> In(bs, b, k)
    ensures forall b: nat {:trigger IsMarked(mid, b)} :: IsMarked(mid, b) <==> IsMarked(bs, b) || Under(bs, h, b)
    ensures UniqueTable(bs) ==> UniqueTable(mid)
  {
    forall b: nat, k: nat ensures In(mid, b, k) <==> In(bs, b, k) {
    }
    forall b: nat ensures IsMarked(mid, b) <==> IsMarked(bs, b) || Under(bs, h, b) {
    }
    if UniqueTable(bs) {
      forall b: nat | IsMarked(mid, b) ensures Distinct(mid[b].list) {
        assert IsMarked(bs, b) || Under(bs, h, b);
      }
    }
  }

  /** The nodes of the root all belong into buckets that have been marked. */
  lemma TargetsMarked(bs: seq<Bucket>, h: nat, hash: nat -> nat, level: nat, base: nat, mid: seq<Bucket>, k: nat)
    requires TableOk(bs, hash, level, base) && MarkedBelow(bs, h, mid) && In(bs, h, k)
    ensures IsMarked(mid, Cut(hash(k), level))
  {
    var d := Cut(hash(k), level);
    CutOnChain(hash(k), level);
    CutIsLast(h, hash(k), level);
    MarkedKeys(bs, h, mid);
    if d != h {
      RootIs(bs, h, d, hash(k));
      ChainOrder(h, d, hash(k));
      assert Under(bs, h, d);
    }
  }

  /** A node in the bucket its whole hash code gives has no bucket behind it. */
  lemma LastInTable(bs: seq<Bucket>, level: nat, x: nat)
    requires level >= 1 && |bs| == Pow2(level)
    ensures OnChain(Cut(x, level), x) && LastMarked(bs, Cut(x, level), x)
  {
    CutOnChain(x, level);
    forall d: nat | d > Cut(x, level) && OnChain(d, x) ensures !IsMarked(bs, d) {
      if d < |bs| {
        CutIsLast(d, x, level);
      }
    }
  }

  /** A node outside the root has no newly marked bucket behind it. */
  lemma LastKept(bs: seq<Bucket>, h: nat, b: nat, x: nat, d: nat)
    requires IsMarked(bs, b) && b != h && OnChain(b, x) && LastMarked(bs, b, x)
    requires IsMarked(bs, h) && OnChain(d, x) && d > b
    ensures !IsMarked(bs, d) && !Under(bs, h, d)
  {
    if Under(bs, h, d) {
      RootAbove(bs, b, d, x);
    }
  }

  lemma PlacedAfter(bs: seq<Bucket>, h: nat, hash: nat -> nat, level: nat, base: nat, mid: seq<Bucket>,
                    bs': seq<Bucket>, b: nat, k: nat)
    requires TableOk(bs, hash, level, base) && MarkedBelow(bs, h, mid) && MovedOut(mid, h, level, hash, bs')
    requires IsMarked(bs, h) && In(bs', b, k)
    ensures OnChain(b, hash(k)) && b >= Cut(hash(k), base) && LastMarked(bs', b, hash(k))
  {
    var x := hash(k);
    MarkedKeys(bs, h, mid);
    if In(mid, h, k) {
      CutMonotone(x, base, level);
      LastInTable(bs', level, x);
    } else {
      assert In(bs, b, k);
      forall d: nat | d > b && OnChain(d, x) ensures !IsMarked(bs', d) {
        LastKept(bs, h, b, x, d);
        assert IsMarked(bs', d) <==> IsMarked(mid, d);
      }
    }
  }

  lemma ClosedAfter(bs: seq<Bucket>, h: nat, mid: seq<Bucket>, b: nat)
    requires ParentMarked(bs, b) && MarkedBelow(bs, h, mid) && IsMarked(bs, h)
    requires IsMarked(bs, 0) && IsMarked(bs, 1)
    ensures ParentMarked(mid, b)
  {
    MarkedKeys(bs, h, mid);
    if Under(bs, h, b) {
      assert Root(bs, b) == Root(bs, Parent(b));
      assert IsMarked(bs, Parent(b)) || Under(bs, h, Parent(b));
    }
  }

  lemma SplitOff(bs: seq<Bucket>, h: nat, hash: nat -> nat, level: nat, base: nat, mid: seq<Bucket>, bs': seq<Bucket>)
    requires TableOk(bs, hash, level, base) && IsMarked(bs, h)
    requires MarkedBelow(bs, h, mid) && MovedOut(mid, h, level, hash, bs')
    ensures TableOk(bs', hash, level, base) && SameKeys(bs, bs') && (ClosedTable(bs) ==> ClosedTable(bs'))
    ensures forall b: nat {:trigger IsMarked(bs', b)} :: IsMarked(bs', b) <==> IsMarked(bs, b) || Under(bs, h, b)
  {
    MarkedKeys(bs, h, mid);
    forall b: nat, k: nat | In(bs', b, k)
      ensures OnChain(b, hash(k)) && b >= Cut(hash(k), base) && LastMarked(bs', b, hash(k))
    {
      PlacedAfter(bs, h, hash, level, base, mid, bs', b, k);
    }
    SplitKeys(bs, h, hash, level, mid, bs');
    forall b: nat | ParentMarked(bs, b) ensures ParentMarked(bs', b) {
      ClosedAfter(bs, h, mid, b);
      assert b >= 2 ==> (IsMarked(bs', Parent(b)) <==> IsMarked(mid, Parent(b)));
      assert IsMarked(bs', b) <==> IsMarked(mid, b);
    }
  }

  lemma SplitKeys(bs: seq<Bucket>, h: nat, hash: nat -> nat, level: nat, mid: seq<Bucket>, bs': seq<Bucket>)
    requires |bs| == Pow2(level) && MarkedBelow(bs, h, mid) && MovedOut(mid, h, level, hash, bs')
    ensures SameKeys(bs, bs')
  {
    MarkedKeys(bs, h, mid);
    forall k: nat ensures Contains(bs', k) <==> Contains(bs, k) {
      if In(mid, h, k) {
        assert In(bs, h, k) && In(bs', Cut(hash(k), level), k);
      } else {
        forall b: nat ensures In(bs', b, k) <==> In(bs, b, k) {
          assert In(mid, b, k) <==> In(bs, b, k);
        }
      }
    }
  }

  // ---------- the last segment ----------

  /** Every bucket outside the last segment is the parent of one in it. */
  lemma LastSegmentChild(level: nat, b: nat)
    requires level >= 1 && 1 <= b < Pow2(level - 1)
    ensures var c := Pow2(level - 1) + b; Pow2(level - 1) <= c < Pow2(level) && c >= 2 && Parent(c) == b
  {
    SegmentUnique(Pow2(level - 1) + b, level - 1);
  }

  /** If the last segment is marked and closure reaches it, all is marked. */
  lemma LastSegmentMarked(bs: seq<Bucket>, level: nat, base: nat, b: nat)
    requires level >= 1 && |bs| == Pow2(level) && b < |bs|
    requires IsMarked(bs, 0) && ClosedFrom(bs, base) && (base < level || b >= Pow2(level - 1))
    requires forall c: nat {:trigger IsMarked(bs, c)} :: Pow2(level - 1) <= c < |bs| ==> IsMarked(bs, c)
    ensures IsMarked(bs, b)
  {
    if 1 <= b < Pow2(level - 1) {
      LastSegmentChild(level, b);
      Pow2Monotone(base, level - 1);
      assert ParentMarked(bs, Pow2(level - 1) + b);
    }
  }

  lemma InPlace(bs: seq<Bucket>, hash: nat -> nat, level: nat, base: nat, b: nat, k: nat)
    requires TableOk(bs, hash, level, base) && In(bs, b, k)
    requires forall c: nat {:trigger IsMarked(bs, c)} :: Pow2(level - 1) <= c < |bs| ==> IsMarked(bs, c)
    ensures b == Cut(hash(k), level)
  {
    var x := hash(k);
    CutOnChain(x, level);
    CutIsLast(b, x, level);
    if base < level {
      LastSegmentMarked(bs, level, base, Cut(x, level));
    }
  }

  lemma ChildInTable(h: nat, s: nat, level: nat)
    requires Segment(h) < s < level
    ensures h < Pow2(s) + h < Pow2(level)
  {
    Pow2Monotone(s + 1, level);
    Pow2Monotone(Segment(h) + 1, s);
  }

  lemma SegmentBelow(h: nat, level: nat)
    requires h < Pow2(level) && level >= 1
    ensures Segment(h) < level
  {
    if level <= Segment(h) {
      Pow2Monotone(level, Segment(h));
    }
  }

  // ---------- growth ----------

  function Empties(n: nat): seq<Bucket> {
    seq(n, _ => Rehashed(Nil))
  }

  /** One more step of growth; in a map without nodes the new buckets are marked. */
  function Longer(bs: seq<Bucket>, level: nat, initial: bool): seq<Bucket>
    requires |bs| <= Pow2(NextLevel(level))
  {
    bs + if initial then Empties(Pow2(NextLevel(level)) - |bs|) else Fresh(Pow2(NextLevel(level)) - |bs|)
  }

  /** The level up to which marked buckets may have unmarked parents after growth to level'. */
  ghost function NewBase(bs: seq<Bucket>, base: nat, initial: bool, level': nat): nat {
    if initial && !AllMarked(bs) then level' else base
  }

  lemma LongerMarks(bs: seq<Bucket>, level: nat, initial: bool)
    requires |bs| == Pow2(level) <= Pow2(NextLevel(level))
    ensures var bs' := Longer(bs, level, initial);
            && (forall b: nat, k: nat {:trigger In(bs', b, k)} :: In(bs', b, k) <==> In(bs, b, k))
            && (forall b: nat {:trigger IsMarked(bs', b)} ::
                  IsMarked(bs', b) <==> IsMarked(bs, b) || (initial && |bs| <= b < |bs'|))
            && SameKeys(bs, bs')
            && (UniqueTable(bs) ==> UniqueTable(bs'))
  {
    var bs' := Longer(bs, level, initial);
    forall b: nat, k: nat ensures In(bs', b, k) <==> In(bs, b, k) {
    }
    forall b: nat ensures IsMarked(bs', b) <==> IsMarked(bs, b) || (initial && |bs| <= b < |bs'|) {
    }
    if UniqueTable(bs) {
      forall b: nat | IsMarked(bs', b) ensures Distinct(bs'[b].list) {
        assert b < |bs| ==> IsMarked(bs, b);
      }
    }
  }

  lemma Extended(bs: seq<Bucket>, hash: nat -> nat, level: nat, base: nat, initial: bool)
    requires TableOk(bs, hash, level, base) && (initial ==> EmptyTable(bs)) && |bs| <= Pow2(NextLevel(level))
    ensures TableOk(Longer(bs, level, initial), hash, NextLevel(level), NewBase(bs, base, initial, NextLevel(level)))
  {
    var bs' := Longer(bs, level, initial);
    var base' := NewBase(bs, base, initial, NextLevel(level));
    LongerMarks(bs, level, initial);
    forall b: nat, k: nat | In(bs', b, k)
      ensures OnChain(b, hash(k)) && b >= Cut(hash(k), base') && LastMarked(bs', b, hash(k))
    {
      assert In(bs, b, k);
    }
    forall b: nat | b >= Pow2(base') ensures ParentMarked(bs', b) {
      if base' == base {
        assert ParentMarked(bs, b);
      }
    }
  }

  /** When growth keeps marked buckets closed under parents: always where there were nodes, and
      otherwise just when all buckets were marked. */
  lemma ClosureAfterGrowth(bs: seq<Bucket>, level: nat, initial: bool)
    requires level >= 1 && |bs| == Pow2(level) && |bs| <= Pow2(NextLevel(level)) && IsMarked(bs, 0)
    ensures ClosedTable(Longer(bs, level, initial)) <==> if initial then AllMarked(bs) else ClosedTable(bs)
    ensures initial ==> (AllMarked(Longer(bs, level, initial)) <==> AllMarked(bs))
  {
    var bs' := Longer(bs, level, initial);
    LongerMarks(bs, level, initial);
    Pow2Monotone(level + 1, NextLevel(level));
    if initial {
      if ClosedTable(bs') {
        forall b: nat | b < |bs| ensures IsMarked(bs, b) {
          if b > 0 {
            LastSegmentChild(level + 1, b);
            assert ParentMarked(bs', Pow2(level) + b);
          }
        }
      }
      if AllMarked(bs) {
        forall b: nat ensures ParentMarked(bs', b) {
        }
      }
      if AllMarked(bs') {
        forall b: nat | b < |bs| ensures IsMarked(bs, b) {
          assert IsMarked(bs', b);
        }
      }
    } else {
      forall b: nat ensures ParentMarked(bs', b) <==> ParentMarked(bs, b) {
        assert IsMarked(bs', b) <==> IsMarked(bs, b);
        assert b >= 2 ==> (IsMarked(bs', Parent(b)) <==> IsMarked(bs, Parent(b)));
      }
    }
  }

  // ---------- what rehashing does ----------

  /** The table has 256 buckets or fewer than twice the n asked for, and is a power of two like every
      table: it is the smallest that holds n. */
  predicate Smallest(size: nat, n: nat) {
    size >= n && size >= 256 && (size == 256 || size < 2 * n)
  }

  /** Growing a table to n buckets. */
  ghost predicate Reserved(bs: seq<Bucket>, level: nat, base: nat, size: int, n: nat,
                           bs': seq<Bucket>, level': nat, base': nat) {
    && |bs'| >= n && level' >= level && bs <= bs' && SameKeys(bs, bs')
    && (n <= |bs| ==> bs' == bs && level' == level)
    && (n > |bs| ==> level' > level && Smallest(|bs'|, n))
    && base' == NewBase(bs, base, size == 0 && n > |bs|, level')
    && (n > |bs| ==> (ClosedTable(bs') <==> if size == 0 then AllMarked(bs) else ClosedTable(bs)))
    && (n > |bs| && size == 0 ==> forall b: nat {:trigger IsMarked(bs', b)} :: |bs| <= b < |bs'| ==> IsMarked(bs', b))
  }

  /** The table bs0 after some steps of growth. */
  ghost predicate GrownSoFar(bs0: seq<Bucket>, level0: nat, base0: nat, initial: bool,
                             bs: seq<Bucket>, level: nat, base: nat) {
    && |bs0| == Pow2(level0) && |bs| == Pow2(level) && level >= level0 && bs0 <= bs && SameKeys(bs0, bs)
    && (if level == level0 then bs == bs0 && base == base0 else base == NewBase(bs0, base0, initial, level))
    && (level > level0 ==> (ClosedTable(bs) <==> if initial then AllMarked(bs0) else ClosedTable(bs0)))
    && (initial ==> (AllMarked(bs) <==> AllMarked(bs0)))
    && (initial ==> forall b: nat {:trigger IsMarked(bs, b)} :: |bs0| <= b < |bs| ==> IsMarked(bs, b))
  }

  lemma GrowsOn(bs0: seq<Bucket>, level0: nat, base0: nat, initial: bool, bs: seq<Bucket>, level: nat, base: nat)
    requires GrownSoFar(bs0, level0, base0, initial, bs, level, base) && level >= 1 && IsMarked(bs, 0)
    requires |bs| <= Pow2(NextLevel(level))
    ensures GrownSoFar(bs0, level0, base0, initial, Longer(bs, level, initial), NextLevel(level),
                       NewBase(bs, base, initial, NextLevel(level)))
  {
    var bs' := Longer(bs, level, initial);
    LongerMarks(bs, level, initial);
    ClosureAfterGrowth(bs, level, initial);
    forall k: nat ensures Contains(bs0, k) <==> Contains(bs', k) {
      assert Contains(bs, k) <==> Contains(bs', k);
    }
  }

  /** Growing a table of size nodes to n buckets and splitting off all buckets. Unless an emptied map
      with unmarked buckets grows, a closed table gets marked all over. */
  ghost predicate Rehashes(bs: seq<Bucket>, hash: nat -> nat, level: nat, base: nat, size: int, n: nat,
                           bs': seq<Bucket>, level': nat, base': nat) {
    && TableOk(bs', hash, level', base') && level' >= level && SameKeys(bs, bs')
    && (if n <= |bs| then |bs'| == |bs| else Smallest(|bs'|, n))
    && (forall b: nat, k: nat {:trigger In(bs', b, k)} :: In(bs', b, k) ==> b == hash(k) % |bs'|)
    && base' == NewBase(bs, base, size == 0 && n > |bs|, level')
    && (ClosedTable(bs) ==> (AllMarked(bs') <==> size != 0 || AllMarked(bs) || n <= |bs|))
    && (ClosedTable(bs) ==> (ClosedTable(bs') <==> size != 0 || AllMarked(bs) || n <= |bs|))
  }

  /** What the scan of the last segment keeps: bs is the table after growing, now the table so far. */
  ghost predicate Scanned(bs: seq<Bucket>, now: seq<Bucket>) {
    && |now| == |bs| && SameKeys(bs, now) && (ClosedTable(bs) ==> ClosedTable(now))
    && (forall b: nat {:trigger IsMarked(now, b)} :: IsMarked(bs, b) ==> IsMarked(now, b))
    && ((forall b: nat {:trigger IsMarked(bs, b)} :: |bs| <= 2 * b < 2 * |bs| ==> IsMarked(bs, b)) ==> now == bs)
  }

  /** With its last segment marked the table is rehashed. */
  lemma Finish(bs0: seq<Bucket>, hash: nat -> nat, level0: nat, base0: nat, size: int, n: nat,
               bs: seq<Bucket>, bs': seq<Bucket>, level: nat, base: nat)
    requires |bs0| == Pow2(level0) && (size == 0 ==> EmptyTable(bs0)) && IsMarked(bs0, 0) && IsMarked(bs0, 1)
    requires Reserved(bs0, level0, base0, size, n, bs, level, base)
    requires TableOk(bs', hash, level, base) && Scanned(bs, bs')
    requires forall c: nat {:trigger IsMarked(bs', c)} :: Pow2(level - 1) <= c < |bs'| ==> IsMarked(bs', c)
    ensures Rehashes(bs0, hash, level0, base0, size, n, bs', level, base)
    ensures size == 0 ==> EmptyTable(bs')
  {
    forall k: nat ensures Contains(bs0, k) <==> Contains(bs', k) {
      assert Contains(bs0, k) <==> Contains(bs, k);
    }
    if size == 0 {
      forall b: nat, k: nat ensures !In(bs', b, k) {
        assert !Contains(bs0, k);
        assert !Contains(bs', k);
      }
    }
    forall b: nat, k: nat | In(bs', b, k) ensures b == hash(k) % |bs'| {
      InPlace(bs', hash, level, base, b, k);
      CutIsRemainder(hash(k), level);
    }
    if ClosedTable(bs0) {
      FinishMarks(bs0, level0, base0, size, n, bs, bs', level, base);
    }
  }

  /** When all buckets are marked in the end. */
  lemma FinishMarks(bs0: seq<Bucket>, level0: nat, base0: nat, size: int, n: nat,
                    bs: seq<Bucket>, bs': seq<Bucket>, level: nat, base: nat)
    requires level0 >= 1 && |bs0| == Pow2(level0) && ClosedTable(bs0) && |bs'| == Pow2(level)
    requires IsMarked(bs', 0) && IsMarked(bs', 1)
    requires Reserved(bs0, level0, base0, size, n, bs, level, base) && Scanned(bs, bs')
    requires forall c: nat {:trigger IsMarked(bs', c)} :: Pow2(level - 1) <= c < |bs'| ==> IsMarked(bs', c)
    ensures AllMarked(bs') <==> size != 0 || AllMarked(bs0) || n <= |bs0|
    ensures ClosedTable(bs') <==> AllMarked(bs')
  {
    if AllMarked(bs') {
      forall b: nat ensures ParentMarked(bs', b) {
      }
    }
    if ClosedTable(bs') {
      assert ClosedFrom(bs', 1);
      forall b: nat | b < |bs'| ensures IsMarked(bs', b) {
        LastSegmentMarked(bs', level, if level == 1 then 0 else 1, b);
      }
    }
    if size == 0 && n > |bs0| {
      Pow2Monotone(level0, level - 1);
      assert forall b: nat {:trigger IsMarked(bs, b)} :: |bs| <= 2 * b < 2 * |bs| ==> IsMarked(bs, b);
    }
  }

  /** The table after one insertion and one erasure: 256 buckets, of which only 0 and 1 are marked. */
  function EmptiedTable(): seq<Bucket> {
    [Rehashed(Nil), Rehashed(Nil)] + Fresh(254)
  }

  /** Rehashing it to 257 buckets leaves buckets unmarked behind a marked last segment. */
  lemma EmptiedTableStaysUnmarked(hash: nat -> nat, bs': seq<Bucket>, level': nat, base': nat)
    requires Rehashes(EmptiedTable(), hash, 8, 1, 0, 257, bs', level', base')
    ensures !AllMarked(bs') && !ClosedTable(bs')
    ensures exists b: nat :: b < |bs'| && bs'[b].RehashReq?
  {
    var bs := EmptiedTable();
    forall b: nat ensures ParentMarked(bs, b) {
    }
    assert !IsMarked(bs, 2);
    var b: nat :| b < |bs'| && !IsMarked(bs', b);
    assert bs'[b].RehashReq?;
  }

  // ---------- the methods ----------

  class Table {
    var level: nat
    var size: nat
    var buckets: seq<Bucket>
    const hash: nat -> nat
    /** As in TableOk. */
    ghost var base: nat

    ghost predicate Valid()
      reads this
    {
      TableOk(buckets, hash, level, base) && (size == 0 ==> EmptyTable(buckets))
    }

    constructor (hash: nat -> nat)
      ensures Valid() && level == 1 && size == 0 && this.hash == hash && ClosedTable(buckets)
    {
      this.hash := hash;
      level := 1;
      base := 1;
      size := 0;
      buckets := [Rehashed(Nil), Rehashed(Nil)];
      new;
      assert Pow2(1) == 2;
      assert EmptyTable(buckets);
      assert forall b: nat :: ParentMarked(buckets, b);
    }

    /** Marks all buckets split off from h that are not marked, and theirs. */
    method MarkRehashedLevels(h: nat)
      requires level >= 1 && |buckets| == Pow2(level)
      requires IsMarked(buckets, 0) && IsMarked(buckets, 1) && IsMarked(buckets, h)
      modifies this`buckets
      ensures MarkedBelow(old(buckets), h, buckets)
      decreases |buckets| - h
    {
      ghost var bs := buckets;
      var s := Segment(h) + 1;
      SegmentBelow(h, level);
      NoBranches(bs, h);
      while s < level
        invariant Segment(h) < s <= level && MarkedUpTo(bs, h, s, buckets)
        invariant IsMarked(buckets, 0) && IsMarked(buckets, 1)
      {
        var c := Pow2(s) + h;
        ChildInTable(h, s, level);
        if buckets[c].RehashReq? {
          ghost var mid := buckets;
          buckets := buckets[c := Rehashed(Nil)];
          MarkRehashedLevels(c);
          OneBranch(bs, h, s, mid, buckets);
        } else {
          SkippedBranch(bs, h, s, buckets);
        }
        s := s + 1;
      }
      AllBranches(bs, h, level, buckets);
    }

    /** Goes up from a bucket that is not marked to the first that is. */
    method FindRoot(b: nat) returns (h: nat)
      requires 2 <= b < |buckets| && !IsMarked(buckets, b) && IsMarked(buckets, 0) && IsMarked(buckets, 1)
      ensures h == Root(buckets, b) && IsMarked(buckets, h)
    {
      h := Parent(b);
      while buckets[h].RehashReq?
        invariant h < |buckets| && Root(buckets, h) == Root(buckets, b)
        decreases h
      {
        h := Parent(h);
      }
    }

    /** Moves the nodes of bucket h that belong elsewhere. */
    method MoveNodes(h: nat)
      requires |buckets| == Pow2(level) && UniqueTable(buckets) && IsMarked(buckets, h)
      requires forall k: nat {:trigger In(buckets, h, k)} ::
                 In(buckets, h, k) ==> IsMarked(buckets, Cut(hash(k), level))
      modifies this`buckets
      ensures MovedOut(old(buckets), h, level, hash, buckets)
    {
      ghost var bs := buckets;
      var rest := buckets[h].list;
      while rest.Cons?
        invariant MovingOut(bs, h, level, hash, rest, buckets) && IsMarked(buckets, h)
        decreases rest
      {
        var k := rest.head;
        var d := Cut(hash(k), level);
        assert Has(rest, k) && In(bs, h, k);
        if d != h {
          MoveOne(bs, h, level, hash, rest, buckets);
          buckets := buckets[h := Rehashed(Without(buckets[h].list, k))];
          buckets := buckets[d := Rehashed(Cons(k, buckets[d].list))];
        } else {
          KeepOne(bs, h, level, hash, rest, buckets);
        }
        rest := rest.tail;
      }
    }

    /** Adds segments until there are n buckets. In a map without nodes the new buckets count as
        rehashed. */
    method Reserve(n: nat)
      requires Valid()
      modifies this`buckets, this`level, this`base
      ensures Valid()
      ensures Reserved(old(buckets), old(level), old(base), size, n, buckets, level, base)
    {
      if n == 0 {
        return;
      }
      ghost var bs0, base0, level0 := buckets, base, level;
      var initial := size == 0;
      while n - 1 > Pow2(level) - 1
        invariant Valid() && GrownSoFar(bs0, level0, base0, initial, buckets, level, base)
        invariant initial == (size == 0)
        invariant level > level0 ==> n > |bs0| && Pow2(level) >= 256 && (Pow2(level) == 256 || Pow2(level) < 2 * n)
        decreases n - Pow2(level)
      {
        ghost var bs, l := buckets, level;
        Pow2Monotone(level, NextLevel(level));
        NextSize(level);
        Extended(buckets, hash, level, base, initial);
        GrowsOn(bs0, level0, base0, initial, buckets, level, base);
        LongerMarks(buckets, level, initial);
        base := NewBase(buckets, base, initial, NextLevel(level));
        buckets := Longer(buckets, level, initial);
        level := NextLevel(level);
      }
    }

    /** Splits off bucket b with everything else under the same root. */
    method SplitBucket(b: nat)
      requires TableOk(buckets, hash, level, base) && 2 <= b < |buckets| && !IsMarked(buckets, b)
      modifies this`buckets
      ensures TableOk(buckets, hash, level, base) && |buckets| == |old(buckets)| && SameKeys(old(buckets), buckets)
      ensures ClosedTable(old(buckets)) ==> ClosedTable(buckets)
      ensures IsMarked(buckets, b)
      ensures forall c: nat {:trigger IsMarked(buckets, c)} :: IsMarked(old(buckets), c) ==> IsMarked(buckets, c)
    {
      ghost var bs := buckets;
      var h := FindRoot(b);
      MarkRehashedLevels(h);
      ghost var mid := buckets;
      MarkedKeys(bs, h, mid);
      forall k: nat | In(mid, h, k) ensures IsMarked(mid, Cut(hash(k), level)) {
        TargetsMarked(bs, h, hash, level, base, mid, k);
      }
      MoveNodes(h);
      SplitOff(bs, h, hash, level, base, mid, buckets);
      assert Under(bs, h, b);
    }

    /** Grows the table to n buckets and splits off all of them. */
    method Rehash(n: nat)
      requires Valid()
      modifies this`buckets, this`level, this`base
      ensures Valid()
      ensures Rehashes(old(buckets), hash, old(level), old(base), size, n, buckets, level, base)
    {
      ghost var bs0, level0, base0 := buckets, level, base;
      Reserve(n);
      ghost var bs, level1, base1 := buckets, level, base;
      var half := Pow2(level - 1);
      var b := half;
      while b < |buckets|
        invariant level == level1 && base == base1 && |buckets| == 2 * half
        invariant half <= b <= |buckets| && TableOk(buckets, hash, level, base) && Scanned(bs, buckets)
        invariant forall c: nat {:trigger IsMarked(buckets, c)} :: half <= c < b ==> IsMarked(buckets, c)
      {
        if buckets[b].RehashReq? {
          assert !IsMarked(buckets, b) && !IsMarked(bs, b);
          SplitBucket(b);
        }
        b := b + 1;
      }
      Finish(bs0, hash, level0, base0, size, n, bs, buckets, level, base);
    }
  }
}
