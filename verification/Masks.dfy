/** Binary masks and the parent chains they give: bucket h & (2^j - 1) of hash code h for rising j. */
module Masks {

  function Pow2(n: nat): (p: nat)
    ensures p >= 1
  {
    if n == 0 then 1 else 2 * Pow2(n - 1)
  }

  lemma {:induction false} Pow2Monotone(m: nat, n: nat)
    requires m <= n
    ensures Pow2(m) <= Pow2(n)
    ensures m < n ==> 2 * Pow2(m) <= Pow2(n)
    decreases n
  {
    if m < n {
      Pow2Monotone(m, n - 1);
    }
  }

  /** Bit j of h. */
  predicate Bit(h: nat, j: nat)
    decreases j
  {
    if j == 0 then h % 2 == 1 else Bit(h / 2, j - 1)
  }

  /** h & (2^j - 1). */
  function Cut(h: nat, j: nat): (r: nat)
    ensures r < Pow2(j)
  {
    if j == 0 then 0 else Cut(h, j - 1) + if Bit(h, j - 1) then Pow2(j - 1) else 0
  }

  lemma {:induction false} CutHalf(h: nat, j: nat)
    requires j > 0
    ensures Cut(h, j) == h % 2 + 2 * Cut(h / 2, j - 1)
  {
    if j > 1 {
      CutHalf(h, j - 1);
    }
  }

  lemma {:induction false} RemainderIs(h: int, d: int, q: nat, r: int)
    requires 0 <= r < d && h == q * d + r
    ensures h % d == r
    decreases q
  {
    if q > 0 {
      assert h - d == (q - 1) * d + r;
      RemainderIs(h - d, d, q - 1, r);
      OneMore(h - d, d);
    }
  }

  lemma OneMore(h: int, d: int)
    requires d > 0
    ensures (h + d) % d == h % d
  {
    var q, q' := h / d, (h + d) / d;
    var e := q + 1 - q';
    assert e * d == (h + d) % d - h % d;
    MultipleBound(e, d);
  }

  lemma MultipleBound(e: int, d: int)
    requires d > 0
    ensures e >= 1 ==> e * d >= d
    ensures e <= -1 ==> e * d <= -d
  {
  }

  /** Masking with 2^j - 1 is the remainder modulo 2^j. */
  lemma {:induction false} CutIsRemainder(h: nat, j: nat)
    ensures Cut(h, j) == h % Pow2(j)
    decreases j
  {
    if j > 0 {
      CutHalf(h, j);
      CutIsRemainder(h / 2, j - 1);
      Doubled(h, Pow2(j - 1));
    }
  }

  lemma Doubled(h: nat, p: nat)
    requires p > 0
    ensures h % (2 * p) == h % 2 + 2 * (h / 2 % p)
  {
    var q, r := h / 2 / p, h / 2 % p;
    var d := 2 * p;
    assert h / 2 == q * p + r;
    assert q * d == 2 * (q * p);
    RemainderIs(h, d, q, h % 2 + 2 * r);
  }

  lemma {:induction false} CutMonotone(h: nat, i: nat, j: nat)
    requires i <= j
    ensures Cut(h, i) <= Cut(h, j)
    decreases j
  {
    if i < j {
      CutMonotone(h, i, j - 1);
    }
  }

  /** The segment holding bucket b: segment 0 holds buckets 0 and 1, segment k > 0 the 2^k buckets
      from 2^k on. */
  function Segment(b: nat): (k: nat)
    ensures b < Pow2(k + 1)
    ensures b >= 1 ==> Pow2(k) <= b
  {
    if b < 2 then 0 else Segment(b / 2) + 1
  }

  lemma SegmentMonotone(b: nat, c: nat)
    requires b <= c
    ensures Segment(b) <= Segment(c)
  {
    if Segment(b) > Segment(c) {
      Pow2Monotone(Segment(c) + 1, Segment(b));
    }
  }

  lemma SegmentUnique(b: nat, k: nat)
    requires Pow2(k) <= b < Pow2(k + 1)
    ensures Segment(b) == k
  {
    if Segment(b) < k {
      Pow2Monotone(Segment(b) + 1, k);
    } else if k < Segment(b) {
      Pow2Monotone(k + 1, Segment(b));
    }
  }

  /** Bucket b without its topmost bit: the bucket b is split off from. */
  function Parent(b: nat): (p: nat)
    requires b >= 2
    ensures p < b
  {
    b - Pow2(Segment(b))
  }

  /** Bucket b is one of the buckets h & (2^j - 1), j >= 1. */
  predicate OnChain(b: nat, h: nat) {
    Cut(h, Segment(b) + 1) == b
  }

  lemma {:induction false} CutOnChain(h: nat, j: nat)
    requires j >= 1
    ensures OnChain(Cut(h, j), h)
    decreases j
  {
    var b := Cut(h, j);
    var s := Segment(b) + 1;
    if j < s {
      Pow2Monotone(j, s - 1);
    } else if s < j {
      Pow2Monotone(s, j - 1);
      CutOnChain(h, j - 1);
    }
  }

  /** The parent of a bucket on a chain comes right before it on the chain. */
  lemma ParentOnChain(c: nat, h: nat)
    requires OnChain(c, h) && c >= 2
    ensures OnChain(Parent(c), h) && Parent(c) == Cut(h, Segment(c)) && Bit(h, Segment(c))
  {
    var s := Segment(c);
    assert Cut(h, s + 1) == c && Cut(h, s) < Pow2(s);
    assert s >= 1;
    CutOnChain(h, s);
  }

  lemma ChainOrder(b: nat, c: nat, h: nat)
    requires OnChain(b, h) && OnChain(c, h) && b < c
    ensures c >= 2 && Segment(b) < Segment(c) && b <= Parent(c)
  {
    SegmentMonotone(b, c);
    if c >= 2 {
      ParentOnChain(c, h);
      if Segment(b) < Segment(c) {
        CutMonotone(h, Segment(b) + 1, Segment(c));
      }
    }
  }

  /** h & (2^j - 1) is the last bucket of the chain below 2^j. */
  lemma CutIsLast(c: nat, h: nat, j: nat)
    requires OnChain(c, h) && c < Pow2(j) && j >= 1
    ensures c <= Cut(h, j)
  {
    if j < Segment(c) + 1 {
      Pow2Monotone(j, Segment(c));
    } else {
      CutMonotone(h, Segment(c) + 1, j);
    }
  }

  /** The first bit of h from lo on. */
  function NextBit(h: nat, lo: nat, hi: nat): (j: nat)
    requires lo <= hi && Cut(h, lo) != Cut(h, hi)
    ensures lo <= j < hi && Bit(h, j) && Cut(h, j) == Cut(h, lo)
    decreases hi - lo
  {
    if Bit(h, lo) then lo else NextBit(h, lo + 1, hi)
  }

  /** The bucket that follows h & (2^lo - 1) on the chain of h. */
  function NextOnChain(h: nat, lo: nat, hi: nat): (b: nat)
    requires 1 <= lo <= hi && Cut(h, lo) != Cut(h, hi)
    ensures b < Pow2(hi)
  {
    var j := NextBit(h, lo, hi);
    Pow2Monotone(j + 1, hi);
    Cut(h, j + 1)
  }

  lemma NextIsNext(h: nat, lo: nat, j: nat, c: nat)
    requires 1 <= lo <= j && Bit(h, j) && Cut(h, j) == Cut(h, lo)
    requires OnChain(c, h) && c > Cut(h, lo)
    ensures c >= Cut(h, j + 1)
  {
    CutOnChain(h, lo);
    ChainOrder(Cut(h, lo), c, h);
    ParentOnChain(c, h);
    var s := Segment(c);
    if s < j {
      CutMonotone(h, s + 1, j);
    } else {
      CutMonotone(h, j + 1, s + 1);
    }
  }

  lemma NextOnChainIsNext(h: nat, lo: nat, hi: nat)
    requires 1 <= lo <= hi && Cut(h, lo) != Cut(h, hi)
    ensures var b := NextOnChain(h, lo, hi);
            && OnChain(b, h) && b >= 2 && Parent(b) == Cut(h, lo) && b >= Pow2(lo)
            && forall c: nat {:trigger OnChain(c, h)} :: OnChain(c, h) && c > Cut(h, lo) ==> c >= b
  {
    var j := NextBit(h, lo, hi);
    CutOnChain(h, j + 1);
    assert Cut(h, j + 1) == Cut(h, j) + Pow2(j);
    assert Cut(h, j + 1) >= 2 by {
      Pow2Monotone(1, j);
    }
    SegmentUnique(Cut(h, j + 1), j);
    Pow2Monotone(lo, j);
    forall c: nat | OnChain(c, h) && c > Cut(h, lo) ensures c >= Cut(h, j + 1) {
      NextIsNext(h, lo, j, c);
    }
  }
}
