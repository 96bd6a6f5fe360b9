/** Every step of every thread keeps the invariant. */
module HashMapSteps {
  import opened Masks
  import opened HashMap
  import opened HashMapInvariant

  // ---------- steps that change no bucket and no stack of pending buckets ----------

  /** The locks x' has are those x has, or free for it to take. */
  ghost predicate MayLock(st: State, t: nat, x': Thread)
    requires t < |st.threads|
  {
    var x := st.threads[t];
    x'.mode == None ||
    (x'.cur == x.cur &&
     (x.mode == Write || x'.mode == x.mode
      || (x'.mode == Read && CanRead(st, t, x.cur)) || (x'.mode == Write && CanWrite(st, t, x.cur))))
  }

  /** Marks and nodes stay; the table may get longer. */
  ghost predicate SameBuckets(st: State, st': State) {
    && st.level <= st'.level && |st.buckets| <= |st'.buckets|
    && (forall b: nat {:trigger st'.buckets[b]} {:trigger Marked(st', b)} :: b < |st'.buckets| ==>
          st'.buckets[b] == if b < |st.buckets| then st.buckets[b] else RehashReq)
  }

  /** Thread t becomes x' and may add an entry to the log; buckets and pending buckets stay. */
  ghost predicate Quiet(st: State, t: nat, x': Thread, st': State) {
    && t < |st.threads| && st'.threads == st.threads[t := x']
    && SameBuckets(st, st') && st'.hash == st.hash && st'.base == st.base
    && LogGrown(st, t, st')
    && var x := st.threads[t];
       && x'.pending == x.pending && MayLock(st, t, x')
       && (x.mode == Write ==> (x'.mode == Write && x'.cur == x.cur) || (x.pending.Nil? && Marked(st, x.cur)))
  }

  lemma QuietFinished(st: State, t: nat, x': Thread, st': State, b: nat)
    requires Quiet(st, t, x', st')
    ensures Finished(st', b) <==> Finished(st, b)
  {
    forall u: nat ensures PendingBy(st', u, b) <==> PendingBy(st, u, b) {
    }
  }

  lemma QuietNode(st: State, t: nat, x': Thread, st': State, b: nat, k: nat)
    requires Quiet(st, t, x', st') && NodeOk(st, b, k)
    ensures NodeOk(st', b, k)
  {
    QuietFinished(st, t, x', st', b);
    if b >= 2 {
      QuietFinished(st, t, x', st', Parent(b));
    }
    forall d: nat | d > b && OnChain(d, st.hash(k)) ensures !Finished(st', d) {
      QuietFinished(st, t, x', st', d);
    }
    forall u: nat | PendingBy(st', u, b) ensures Filling(st'.threads[u], b) {
      assert PendingBy(st, u, b);
    }
  }

  lemma QuietExclusive(st: State, t: nat, x': Thread, st': State)
    requires Quiet(st, t, x', st') && Exclusive(st)
    ensures Exclusive(st')
  {
    var x := st.threads[t];
    forall v: nat, u: nat, b: nat
      | v < |st'.threads| && u < |st'.threads| && v != u && Writes(st'.threads[v], b)
      ensures !Locks(st'.threads[u], b)
    {
      if v == t {
        assert Writes(x, b) || (b == x.cur && CanWrite(st, t, b));
        assert Writes(x, b) ==> !Locks(st.threads[u], b);
      } else if u == t {
        assert Writes(st.threads[v], b) ==> !Locks(x, b);
      } else {
        assert Writes(st.threads[v], b) ==> !Locks(st.threads[u], b);
      }
    }
  }

  lemma QuietClosed(st: State, t: nat, x': Thread, st': State)
    requires Quiet(st, t, x', st') && Closed(st)
    ensures Closed(st')
  {
    forall b: nat ensures ClosedAt(st', b) {
      assert ClosedAt(st, b);
      QuietFinished(st, t, x', st', b);
      if b >= 2 {
        QuietFinished(st, t, x', st', Parent(b));
      }
    }
  }

  lemma QuietGlobal(st: State, t: nat, x': Thread, st': State)
    requires Quiet(st, t, x', st') && Inv(st)
    ensures Closed(st') && Nodes(st') && Unique(st') && Exclusive(st') && Frame(st, t, st')
  {
    var x := st.threads[t];
    assert Marked(st, 0) && Marked(st, 1);
    forall b: nat ensures Marked(st', b) <==> Marked(st, b) {
    }
    forall b: nat ensures Finished(st', b) <==> Finished(st, b) {
      QuietFinished(st, t, x', st', b);
    }
    forall b: nat, k: nat | Stored(st', b, k) ensures NodeOk(st', b, k) {
      assert Stored(st, b, k);
      QuietNode(st, t, x', st', b, k);
    }
    forall b: nat, c: nat, k: nat | Stored(st', b, k) && Stored(st', c, k) ensures b == c {
      assert Stored(st, b, k) && Stored(st, c, k);
    }
    QuietExclusive(st, t, x', st');
    QuietClosed(st, t, x', st');
    assert ThreadOk(st, t);
    forall b: nat | Writes(x, b) ensures Marked(st', b) || Writes(x', b) {
      if Has(x.pending, b) {
        PendingIs(st, x.cur, x.pending, st.hash(x.key), b);
      }
    }
  }

  lemma QuietLast(st: State, t: nat, x': Thread, st': State, b: nat, h: nat)
    requires Quiet(st, t, x', st')
    ensures LastFinished(st', b, h) <==> LastFinished(st, b, h)
  {
    forall d: nat ensures Finished(st', d) <==> Finished(st, d) {
      QuietFinished(st, t, x', st', d);
    }
    if !LastFinished(st, b, h) {
      var d: nat :| d > b && OnChain(d, h) && Finished(st, d);
      assert Finished(st', d);
    }
  }

  lemma QuietPhase(st: State, t: nat, x': Thread, st': State)
    requires Quiet(st, t, x', st') && PhaseOk(st, t, x')
    ensures PhaseOk(st', t, x')
  {
    QuietLast(st, t, x', st', x'.cur, st.hash(x'.key));
    forall u: nat | u < |st.threads| && u != t ensures st'.threads[u] == st.threads[u] {
    }
  }

  /** To keep the invariant in a quiet step it is enough to look at the state before it. */
  lemma QuietStep(st: State, t: nat, x': Thread, st': State)
    requires Quiet(st, t, x', st') && Inv(st) && Shape(st') && GrowOk(st')
    requires PlaceOk(st, x') && PhaseOk(st, t, x') && EntryOk(st', t, x')
    ensures Inv(st')
  {
    QuietGlobal(st, t, x', st');
    QuietPhase(st, t, x', st');
    FrameStack(st, t, st', x'.cur, x'.pending, st.hash(x'.key));
    forall u: nat | u < |st'.threads| ensures ThreadOk(st', u) {
      if u != t {
        assert ThreadOk(st, u);
        OtherThread(st, t, st', u);
      }
    }
  }

  /** A step that does not have to do with the growth of the table. */
  lemma SameGrowth(st: State, t: nat, x': Thread, st': State)
    requires GrowOk(st) && t < |st.threads| && st'.threads == st.threads[t := x']
    requires st'.growing == st.growing && st'.level == st.level && x'.grow == st.threads[t].grow
    requires x'.grow ==> x'.level == st.threads[t].level && (x'.pc == Leave || x'.pc == Enable)
    ensures GrowOk(st')
  {
    forall u: nat | u < |st'.threads| && st'.threads[u].grow ensures st.threads[u].grow {
    }
  }

  /** A step of thread t to x' that only concerns its locks and local fields. */
  ghost predicate Local(st: State, t: nat, x': Thread)
    requires t < |st.threads|
  {
    var x := st.threads[t];
    && x'.pending == x.pending && MayLock(st, t, x')
    && (x.mode == Write ==> (x'.mode == Write && x'.cur == x.cur) || (x.pending.Nil? && Marked(st, x.cur)))
    && x.pc != Idle && x'.op == x.op && x'.key == x.key && x'.result == x.result && x'.since == x.since
    && x'.mark == x.mark && (Decided(x.pc) <==> Decided(x'.pc) || x'.pc == Idle)
    && x'.grow == x.grow && (x'.grow ==> x'.level == x.level && (x'.pc == Leave || x'.pc == Enable))
  }

  /** The thread keeps its own part of the invariant. */
  ghost predicate Keeps(st: State, t: nat, x': Thread)
    requires t < |st.threads|
  {
    PlaceOk(st, x') && PhaseOk(st, t, x') && Local(st, t, x')
  }

  lemma Silent(st: State, t: nat, x': Thread, st': State)
    requires Inv(st) && t < |st.threads|
    requires Keeps(st, t, x') == true // an equation, so that it is one obligation
    requires st' == Set(st, t, x').(size := st'.size)
    ensures Inv(st')
  {
    assert ThreadOk(st, t);
    assert EntryOk(st', t, x');
    SameGrowth(st, t, x', st');
    assert Marked(st, 0) && Marked(st, 1);
    QuietStep(st, t, x', st');
  }

  /** An operation takes effect without changing a bucket. */
  lemma Deciding(st: State, t: nat, level: nat, result: bool)
    requires Inv(st) && t < |st.threads| && !Decided(st.threads[t].pc) && !Outside(st.threads[t].pc)
    requires var y := st.threads[t]; Holding(st, y) && y.pending.Nil? && st.base <= level <= st.level
    ensures Inv(Decide(st, t, st.threads[t].(level := level), Leave, result))
  {
    var st' := Decide(st, t, st.threads[t].(level := level), Leave, result);
    var x' := st'.threads[t];
    assert ThreadOk(st, t);
    assert !st.threads[t].grow;
    assert EntryOk(st', t, x');
    SameGrowth(st, t, x', st');
    assert Marked(st, 0) && Marked(st, 1);
    QuietStep(st, t, x', st');
  }

  lemma StepIdle(st: State, m: Move)
    requires Inv(st) && InBounds(st, m.thread) && st.threads[m.thread].pc == Idle
    ensures Inv(Step(st, m))
  {
    var t, st' := m.thread, Step(st, m);
    assert ThreadOk(st, t);
    assert EntryOk(st', t, st'.threads[t]);
    SameGrowth(st, t, st'.threads[t], st');
    assert Marked(st, 0) && Marked(st, 1);
    QuietStep(st, t, st'.threads[t], st');
  }

  lemma StepLoad(st: State, m: Move)
    requires Inv(st) && InBounds(st, m.thread) && st.threads[m.thread].pc == Load
    ensures Inv(Step(st, m))
  {
    var t, st' := m.thread, Step(st, m);
    Own(st, t);
    CutOnChain(st.hash(st.threads[t].key), st.level);
    CutMonotone(st.hash(st.threads[t].key), st.base, st.level);
    var x' := st'.threads[t];
    assert st' == Set(st, t, x').(size := st'.size);
    var keeps := Keeps(st, t, x');
    assert keeps;
    Silent(st, t, x', st');
  }

  /** Who has a bucket locked that is not yet marked is about to mark it. */
  lemma SomeoneMarks(st: State, t: nat, b: nat)
    requires Inv(st) && t < |st.threads| && !CanWrite(st, t, b) && !Marked(st, b)
    ensures !NoWriter(st, t, b)
  {
    var u: nat :| u < |st.threads| && u != t && Locks(st.threads[u], b);
    assert ThreadOk(st, u);
    var x := st.threads[u];
    if Has(x.pending, b) {
      PendingIs(st, x.cur, x.pending, st.hash(x.key), b);
    }
    assert Writes(x, b);
  }

  lemma StepAcquire(st: State, m: Move)
    requires Inv(st) && InBounds(st, m.thread) && st.threads[m.thread].pc == Acquire
    ensures Inv(Step(st, m))
  {
    var t, st' := m.thread, Step(st, m);
    var x := st.threads[t];
    Own(st, t);
    if st.buckets[x.cur].RehashReq? {
      var x' := x.(pc := TryLock);
      assert st' == Set(st, t, x').(size := st'.size);
      var keeps := Keeps(st, t, x');
      assert keeps;
      Silent(st, t, x', st');
    } else {
      var x' := x.(pc := Lock);
      assert st' == Set(st, t, x').(size := st'.size);
      var keeps := Keeps(st, t, x');
      assert keeps;
      Silent(st, t, x', st');
    }
  }

  lemma StepTryLock(st: State, m: Move)
    requires Inv(st) && InBounds(st, m.thread) && st.threads[m.thread].pc == TryLock
    ensures Inv(Step(st, m))
  {
    var t, st' := m.thread, Step(st, m);
    var x := st.threads[t];
    Own(st, t);
    if CanWrite(st, t, x.cur) && (st.buckets[x.cur].RehashReq? || !m.lose) {
      var x' := x.(pc := Recheck, mode := Write);
      assert st' == Set(st, t, x').(size := st'.size);
      var keeps := Keeps(st, t, x');
      assert keeps;
      Silent(st, t, x', st');
    } else {
      var x' := x.(pc := Lock);
      assert st' == Set(st, t, x').(size := st'.size);
      if !Marked(st, x.cur) {
        SomeoneMarks(st, t, x.cur);
      }
      var keeps := Keeps(st, t, x');
      assert keeps;
      Silent(st, t, x', st');
    }
  }

  lemma StepRecheck(st: State, m: Move)
    requires Inv(st) && InBounds(st, m.thread) && st.threads[m.thread].pc == Recheck
    ensures Inv(Step(st, m))
  {
    var t, st' := m.thread, Step(st, m);
    var x := st.threads[t];
    Own(st, t);
    if st.buckets[x.cur].RehashReq? {
      var x' := x.(pc := Mark);
      assert st' == Set(st, t, x').(size := st'.size);
      var keeps := Keeps(st, t, x');
      assert keeps;
      Silent(st, t, x', st');
    } else if x.pending.Nil? {
      var x' := x.(pc := Search);
      assert st' == Set(st, t, x').(size := st'.size);
      var keeps := Keeps(st, t, x');
      assert keeps;
      Silent(st, t, x', st');
    } else {
      var x' := x.(pc := Scan);
      assert st' == Set(st, t, x').(size := st'.size);
      var keeps := Keeps(st, t, x');
      assert keeps;
      Silent(st, t, x', st');
    }
  }

  lemma StepLock(st: State, m: Move)
    requires Inv(st) && InBounds(st, m.thread) && Enabled(st, m) && st.threads[m.thread].pc == Lock
    ensures Inv(Step(st, m))
  {
    var t, st' := m.thread, Step(st, m);
    var x := st.threads[t];
    Own(st, t);
    if x.pending.Nil? {
      var x' := x.(pc := Search, mode := Read);
      assert st' == Set(st, t, x').(size := st'.size);
      var keeps := Keeps(st, t, x');
      assert keeps;
      Silent(st, t, x', st');
    } else {
      var x' := x.(pc := Scan, mode := Read);
      assert st' == Set(st, t, x').(size := st'.size);
      var keeps := Keeps(st, t, x');
      assert keeps;
      Silent(st, t, x', st');
    }
  }

  lemma StepScanQuiet(st: State, m: Move)
    requires Inv(st) && InBounds(st, m.thread) && Enabled(st, m) && st.threads[m.thread].pc == Scan
    requires var x := st.threads[m.thread];
             x.mode != Write || !AnyFor(st.buckets[x.cur].list, x.pending.head, st.hash)
    ensures Inv(Step(st, m))
  {
    var t, st' := m.thread, Step(st, m);
    var x := st.threads[t];
    Own(st, t);
    if AnyFor(st.buckets[x.cur].list, x.pending.head, st.hash) {
      var x' := x.(pc := Upgrade);
      assert st' == Set(st, t, x').(size := st'.size);
      var keeps := Keeps(st, t, x');
      assert keeps;
      Silent(st, t, x', st');
    } else {
      var x' := x.(pc := Pop);
      assert st' == Set(st, t, x').(size := st'.size);
      var keeps := Keeps(st, t, x');
      assert keeps;
      Silent(st, t, x', st');
    }
  }

  lemma UpgradeKeeps(st: State, t: nat, x: Thread)
    requires t < |st.threads| && x == st.threads[t] && x.pc == Upgrade && !x.grow
    requires PlaceOk(st, x) && ReadyToWrite(st, x)
    ensures Keeps(st, t, x.(pc := WaitWrite, mode := None)) && Keeps(st, t, x.(pc := WaitUpgrade))
  {
  }

  lemma StepUpgrade(st: State, m: Move)
    requires Inv(st) && InBounds(st, m.thread) && st.threads[m.thread].pc == Upgrade
    ensures Inv(Step(st, m))
  {
    var t, st' := m.thread, Step(st, m);
    var x := st.threads[t];
    Own(st, t);
    UpgradeKeeps(st, t, x);
    var x' := if m.lose then x.(pc := WaitWrite, mode := None) else x.(pc := WaitUpgrade);
    assert st' == Set(st, t, x').(size := st'.size);
    Silent(st, t, x', st');
  }

  lemma StepWaitUpgrade(st: State, m: Move)
    requires Inv(st) && InBounds(st, m.thread) && st.threads[m.thread].pc == WaitUpgrade
    requires CanWrite(st, m.thread, st.threads[m.thread].cur)
    ensures Inv(Step(st, m))
  {
    var t, st' := m.thread, Step(st, m);
    var x := st.threads[t];
    Own(st, t);
    if x.pending.Cons? {
      var x' := x.(pc := Scan, mode := Write);
      assert st' == Set(st, t, x').(size := st'.size);
      var keeps := Keeps(st, t, x');
      assert keeps;
      Silent(st, t, x', st');
    } else if x.op == Insert {
      var x' := x.(pc := Check, mode := Write);
      assert st' == Set(st, t, x').(size := st'.size);
      var keeps := Keeps(st, t, x');
      assert keeps;
      Silent(st, t, x', st');
    } else {
      var x' := x.(pc := Unlink, mode := Write);
      assert st' == Set(st, t, x').(size := st'.size);
      var keeps := Keeps(st, t, x');
      assert keeps;
      Silent(st, t, x', st');
    }
  }

  lemma StepWaitScan(st: State, m: Move)
    requires Inv(st) && InBounds(st, m.thread) && st.threads[m.thread].pc == WaitWrite
    requires CanWrite(st, m.thread, st.threads[m.thread].cur) && st.threads[m.thread].pending.Cons?
    ensures Inv(Step(st, m))
  {
    var t, st' := m.thread, Step(st, m);
    var x := st.threads[t];
    Own(st, t);
    var x' := x.(pc := Scan, mode := Write);
    assert st' == Set(st, t, x').(size := st'.size);
    var keeps := Keeps(st, t, x');
    assert keeps;
    Silent(st, t, x', st');
  }

  lemma StepWaitWrite(st: State, m: Move)
    requires Inv(st) && InBounds(st, m.thread) && st.threads[m.thread].pc == WaitWrite
    requires CanWrite(st, m.thread, st.threads[m.thread].cur) && st.threads[m.thread].pending.Nil?
    ensures Inv(Step(st, m))
  {
    var t, st' := m.thread, Step(st, m);
    var x := st.threads[t];
    Own(st, t);
    if x.op == Erase {
      var x' := x.(pc := Check, mode := Write);
      assert st' == Set(st, t, x').(size := st'.size);
      var keeps := Keeps(st, t, x');
      assert keeps;
      Silent(st, t, x', st');
    } else {
      var x' := x.(pc := Search, mode := Write);
      assert st' == Set(st, t, x').(size := st'.size);
      var keeps := Keeps(st, t, x');
      assert keeps;
      Silent(st, t, x', st');
    }
  }

  lemma StepMiss(st: State, m: Move)
    requires Inv(st) && InBounds(st, m.thread) && st.threads[m.thread].pc == Search
    requires var x := st.threads[m.thread]; !Has(st.buckets[x.cur].list, x.key)
    ensures Inv(Step(st, m))
  {
    var t, st' := m.thread, Step(st, m);
    var x := st.threads[t];
    Own(st, t);
    if x.op == Insert && x.mode != Write {
      var x' := x.(pc := Upgrade, missed := true);
      assert st' == Set(st, t, x').(size := st'.size);
      var keeps := Keeps(st, t, x');
      assert keeps;
      Silent(st, t, x', st');
    } else {
      var x' := x.(pc := Check, missed := true);
      assert st' == Set(st, t, x').(size := st'.size);
      var keeps := Keeps(st, t, x');
      assert keeps;
      Silent(st, t, x', st');
    }
  }

  lemma StepHit(st: State, m: Move)
    requires Inv(st) && InBounds(st, m.thread) && st.threads[m.thread].pc == Search
    requires var x := st.threads[m.thread]; Has(st.buckets[x.cur].list, x.key)
    ensures Inv(Step(st, m))
  {
    var t, st' := m.thread, Step(st, m);
    var x := st.threads[t];
    Own(st, t);
    if x.op != Erase {
      Deciding(st, t, x.level, x.op == Find);
    } else if x.mode == Write {
      var x' := x.(pc := Unlink, missed := false);
      assert st' == Set(st, t, x').(size := st'.size);
      var keeps := Keeps(st, t, x');
      assert keeps;
      Silent(st, t, x', st');
    } else {
      var x' := x.(pc := Upgrade, missed := false);
      assert st' == Set(st, t, x').(size := st'.size);
      var keeps := Keeps(st, t, x');
      assert keeps;
      Silent(st, t, x', st');
    }
  }

  /** The mask check found no collision, so no bucket behind cur is split off. */
  lemma StepNoRace(st: State, t: nat, x: Thread)
    requires Inv(st) && t < |st.threads|
    requires var y := st.threads[t];
             && (y.pc == Check || y.pc == CheckFlag) && x == y.(level := x.level) && st.base <= x.level <= st.level
             && Holding(st, y) && y.pending.Nil? && MissOk(st, y) && LastFinished(st, y.cur, st.hash(y.key))
             && (y.mode == Write || x.cur == Cut(st.hash(x.key), x.level) || x.missed)
    ensures Inv(NoRace(st, t, x))
  {
    var st' := NoRace(st, t, x);
    Own(st, t);
    if x.op == Find || (x.op == Erase && x.missed) {
      Deciding(st, t, x.level, false);
    } else {
      var x' := st'.threads[t];
      assert st' == Set(st, t, x').(size := st'.size);
      var keeps := Keeps(st, t, x');
      assert keeps;
      Silent(st, t, x', st');
    }
  }

  /** The mask was stale: the next bucket of the chain is the one to look at. */
  ghost function Stale(st: State, x: Thread): Thread
    requires 1 <= x.level <= st.level && Cut(st.hash(x.key), x.level) != Cut(st.hash(x.key), st.level)
  {
    x.(pc := CheckFlag, level := st.level, probe := NextOnChain(st.hash(x.key), x.level, st.level))
  }

  lemma StaleProbe(st: State, x: Thread)
    requires Shape(st) && st.base <= x.level <= st.level && AtTarget(st, x)
    requires Cut(st.hash(x.key), x.level) != Cut(st.hash(x.key), st.level)
    ensures ProbeOk(st, Stale(st, x))
  {
    NextOnChainIsNext(st.hash(x.key), x.level, st.level);
    Pow2Monotone(st.base, x.level);
  }

  lemma StaleKeeps(st: State, t: nat, x: Thread, x': Thread)
    requires Shape(st) && t < |st.threads| && x == st.threads[t] && x.pc == Check && !x.grow
    requires PlaceOk(st, x) && PhaseOk(st, t, x) && ProbeOk(st, x')
    requires x' == x.(pc := CheckFlag, level := st.level, probe := x'.probe)
    ensures Keeps(st, t, x')
  {
  }

  lemma StepStale(st: State, m: Move)
    requires Inv(st) && InBounds(st, m.thread) && st.threads[m.thread].pc == Check
    requires var x := st.threads[m.thread]; Cut(st.hash(x.key), x.level) != Cut(st.hash(x.key), st.level)
    ensures Inv(Step(st, m))
  {
    var t, st' := m.thread, Step(st, m);
    var x := st.threads[t];
    Own(st, t);
    StaleProbe(st, x);
    StaleKeeps(st, t, x, Stale(st, x));
    assert st' == Set(st, t, Stale(st, x)).(size := st'.size);
    Silent(st, t, Stale(st, x), st');
  }

  lemma StepCheck(st: State, m: Move)
    requires Inv(st) && InBounds(st, m.thread) && st.threads[m.thread].pc == Check
    ensures Inv(Step(st, m))
  {
    var x := st.threads[m.thread];
    if Cut(st.hash(x.key), x.level) == Cut(st.hash(x.key), st.level) {
      assert ThreadOk(st, m.thread);
      CurrentMask(st, x);
      StepNoRace(st, m.thread, x.(level := st.level));
    } else {
      StepStale(st, m);
    }
  }

  lemma StepCheckFlag(st: State, m: Move)
    requires Inv(st) && InBounds(st, m.thread) && st.threads[m.thread].pc == CheckFlag
    ensures Inv(Step(st, m))
  {
    var t, st' := m.thread, Step(st, m);
    var x := st.threads[t];
    Own(st, t);
    if st.buckets[x.probe].RehashReq? {
      StaleMask(st, x);
      StepNoRace(st, t, x);
    } else {
      var x' := st'.threads[t];
      assert st' == Set(st, t, x').(size := st'.size);
      var keeps := Keeps(st, t, x');
      assert keeps;
      Silent(st, t, x', st');
    }
  }

  lemma StepRestart(st: State, m: Move)
    requires Inv(st) && InBounds(st, m.thread) && st.threads[m.thread].pc == Restart
    ensures Inv(Step(st, m))
  {
    var t, st' := m.thread, Step(st, m);
    var x := st.threads[t];
    var b := Cut(st.hash(x.key), x.level);
    Own(st, t);
    assert b < |st.buckets| by {
      Pow2Monotone(x.level, st.level);
    }
    CutOnChain(st.hash(x.key), x.level);
    CutMonotone(st.hash(x.key), st.base, x.level);
    var x' := x.(pc := Acquire, mode := None, cur := b);
    assert st' == Set(st, t, x').(size := st'.size);
    var keeps := Keeps(st, t, x');
    assert keeps;
    Silent(st, t, x', st');
  }

  lemma StepCount(st: State, m: Move)
    requires Inv(st) && InBounds(st, m.thread) && st.threads[m.thread].pc == Count
    ensures Inv(Step(st, m))
  {
    var t, st' := m.thread, Step(st, m);
    Own(st, t);
    var x' := st.threads[t].(pc := Add, sz := st.size + 1);
    assert st' == Set(st, t, x').(size := st.size + 1);
    var keeps := Keeps(st, t, x');
    assert keeps;
    Silent(st, t, x', st');
  }

  lemma StepUncount(st: State, m: Move)
    requires Inv(st) && InBounds(st, m.thread) && st.threads[m.thread].pc == Uncount
    ensures Inv(Step(st, m))
  {
    var t, st' := m.thread, Step(st, m);
    var x := st.threads[t];
    Own(st, t);
    var x' := x.(pc := Leave);
    assert st' == Set(st, t, x').(size := st'.size);
    var keeps := Keeps(st, t, x');
    assert keeps;
    Silent(st, t, x', st');
  }

  lemma StepLeave(st: State, m: Move)
    requires Inv(st) && InBounds(st, m.thread) && st.threads[m.thread].pc == Leave
    ensures Inv(Step(st, m))
  {
    var t, st' := m.thread, Step(st, m);
    var x := st.threads[t];
    Own(st, t);
    if x.grow {
      var x' := x.(pc := Enable, mode := None);
      assert st' == Set(st, t, x').(size := st'.size);
      var keeps := Keeps(st, t, x');
      assert keeps;
      Silent(st, t, x', st');
    } else {
      var x' := x.(pc := Idle, mode := None);
      assert st' == Set(st, t, x').(size := st'.size);
      var keeps := Keeps(st, t, x');
      assert keeps;
      Silent(st, t, x', st');
    }
  }

  lemma StepGrow(st: State, m: Move)
    requires Inv(st) && InBounds(st, m.thread) && st.threads[m.thread].pc == Grow
    ensures Inv(Step(st, m))
  {
    var t, st' := m.thread, Step(st, m);
    var x' := st'.threads[t];
    assert ThreadOk(st, t);
    assert EntryOk(st', t, x');
    forall u: nat | u < |st'.threads| && st'.threads[u].grow && u != t ensures st.threads[u].grow && st.growing {
    }
    assert Marked(st, 0) && Marked(st, 1);
    QuietStep(st, t, x', st');
  }

  /** The new segment is the one after the last. */
  lemma EnableGrowth(st: State, t: nat, x': Thread, st': State)
    requires GrowOk(st) && t < |st.threads| && st'.threads == st.threads[t := x']
    requires st.threads[t].grow && !x'.grow
    ensures GrowOk(st')
  {
    forall u: nat | u < |st'.threads| ensures !st'.threads[u].grow {
      assert u != t ==> st'.threads[u] == st.threads[u];
    }
  }

  lemma StepEnable(st: State, m: Move)
    requires Inv(st) && InBounds(st, m.thread) && st.threads[m.thread].pc == Enable
    ensures Inv(Step(st, m))
  {
    var t, st' := m.thread, Step(st, m);
    var x' := st.threads[t].(pc := Idle, grow := false);
    assert ThreadOk(st, t);
    assert EntryOk(st', t, x');
    EnableGrowth(st, t, x', st');
    assert Marked(st, 0) && Marked(st, 1);
    QuietStep(st, t, x', st');
  }

  // ---------- steps that change buckets or pending buckets ----------

  lemma Assemble(st: State, t: nat, st': State)
    requires Inv(st) && Frame(st, t, st')
    requires ThreadOk(st', t) == true // an equation, so that it is one obligation
    requires Shape(st') && Closed(st') && Nodes(st') && Unique(st') && Exclusive(st') && GrowOk(st')
    ensures Inv(st')
  {
    forall u: nat | u < |st'.threads| ensures ThreadOk(st', u) {
      if u != t {
        assert ThreadOk(st, u);
        OtherThread(st, t, st', u);
      }
    }
  }

  /** Bucket cur is marked and becomes pending. */
  ghost predicate Marking(st: State, t: nat, st': State) {
    && t < |st.threads|
    && var x := st.threads[t];
       && x.pc == Mark && 2 <= x.cur < |st.buckets|
       && st' == Set(SetList(st, x.cur, Nil), t,
                     x.(pc := Acquire, pending := Cons(x.cur, x.pending), cur := Parent(x.cur), mode := None))
  }

  lemma MarkPending(st: State, t: nat, st': State, u: nat, b: nat)
    requires Marking(st, t, st')
    ensures PendingBy(st', u, b) <==> PendingBy(st, u, b) || (u == t && b == st.threads[t].cur)
  {
  }

  lemma MarkFinished(st: State, t: nat, st': State, b: nat)
    requires Marking(st, t, st') && !Marked(st, st.threads[t].cur)
    ensures Finished(st', b) <==> Finished(st, b)
  {
    forall u: nat ensures PendingBy(st', u, b) <==> PendingBy(st, u, b) || (u == t && b == st.threads[t].cur) {
      MarkPending(st, t, st', u, b);
    }
    if b == st.threads[t].cur {
      assert PendingBy(st', t, b);
    }
  }

  lemma MarkNode(st: State, t: nat, st': State, b: nat, k: nat)
    requires Inv(st) && Marking(st, t, st') && Stored(st, b, k)
    ensures NodeOk(st', b, k)
  {
    var x := st.threads[t];
    assert ThreadOk(st, t);
    assert NodeOk(st, b, k);
    MarkFinished(st, t, st', b);
    if b >= 2 {
      MarkFinished(st, t, st', Parent(b));
    }
    forall d: nat | d > b && OnChain(d, st.hash(k)) ensures !Finished(st', d) {
      MarkFinished(st, t, st', d);
    }
    forall u: nat | PendingBy(st', u, b) ensures Filling(st'.threads[u], b) {
      MarkPending(st, t, st', u, b);
    }
  }

  lemma MarkFrame(st: State, t: nat, st': State)
    requires Inv(st) && Marking(st, t, st')
    ensures Frame(st, t, st') && Exclusive(st') && GrowOk(st') && Shape(st')
  {
    var x, x' := st.threads[t], st'.threads[t];
    assert ThreadOk(st, t);
    forall b: nat ensures Writes(x', b) ==> Writes(x, b)
      ensures Locks(x', b) ==> Locks(x, b)
    {
    }
    forall v: nat, u: nat, b: nat
      | v < |st'.threads| && u < |st'.threads| && v != u && Writes(st'.threads[v], b)
      ensures !Locks(st'.threads[u], b)
    {
      assert Writes(st.threads[v], b) ==> !Locks(st.threads[u], b);
    }
    forall b: nat ensures Finished(st', b) <==> Finished(st, b) {
      MarkFinished(st, t, st', b);
    }
    forall b: nat | Writes(x, b) ensures Marked(st', b) {
      if Has(x.pending, b) {
        PendingIs(st, x.cur, x.pending, st.hash(x.key), b);
      }
    }
    assert Marked(st, 0) && Marked(st, 1);
    SameGrowth(st, t, x', st');
  }

  lemma MarkClosed(st: State, t: nat, st': State)
    requires Marking(st, t, st') && !Marked(st, st.threads[t].cur) && Closed(st)
    ensures Closed(st')
  {
    forall b: nat ensures ClosedAt(st', b) {
      assert ClosedAt(st, b);
      MarkFinished(st, t, st', b);
      if b >= 2 {
        MarkFinished(st, t, st', Parent(b));
      }
    }
  }

  lemma StepMark(st: State, m: Move)
    requires Inv(st) && InBounds(st, m.thread) && st.threads[m.thread].pc == Mark
    ensures Inv(Step(st, m))
  {
    var t, st' := m.thread, Step(st, m);
    var x, x' := st.threads[t], st'.threads[t];
    var h := st.hash(x.key);
    assert ThreadOk(st, t);
    assert Marking(st, t, st');
    MarkFrame(st, t, st');
    MarkClosed(st, t, st');
    forall b: nat, k: nat ensures Stored(st', b, k) <==> Stored(st, b, k) {
    }
    forall b: nat, k: nat | Stored(st', b, k) ensures NodeOk(st', b, k) {
      MarkNode(st, t, st', b, k);
    }
    forall b: nat | Marked(st', b) ensures Distinct(st'.buckets[b].list) {
      assert b != x.cur ==> Marked(st, b);
    }
    ParentOnChain(x.cur, h);
    FrameStack(st, t, st', x.cur, x.pending, h);
    var ok := PlaceOk(st', x') && EntryOk(st', t, x');
    assert ok;
    Assemble(st, t, st');
  }

  /** The innermost pending bucket is filled. */
  ghost predicate Popping(st: State, t: nat, st': State) {
    && t < |st.threads|
    && var x := st.threads[t];
       && x.pc == Pop && x.pending.Cons?
       && st' == Set(st, t, Locked(x.(cur := x.pending.head, pending := x.pending.tail), Write))
  }

  /** The buckets pending behind the innermost have parents behind bucket cur. */
  lemma {:induction false} TailParent(st: State, cur: nat, pending: List, h: nat, b: nat)
    requires StackOk(st, cur, pending, h) && pending.Cons? && Has(pending.tail, b)
    ensures b >= 2 && Parent(b) > cur
    decreases pending
  {
    if pending.tail.head != b {
      TailParent(st, pending.head, pending.tail, h, b);
    }
  }

  lemma PopFinished(st: State, t: nat, st': State, b: nat)
    requires Inv(st) && Popping(st, t, st')
    ensures Finished(st', b) <==> Finished(st, b) || b == st.threads[t].pending.head
  {
    var x := st.threads[t];
    var d := x.pending.head;
    assert ThreadOk(st, t);
    if b == d {
      forall u: nat ensures !PendingBy(st', u, b) {
        if u == t && PendingBy(st', u, b) {
          PendingIs(st, d, x.pending.tail, st.hash(x.key), b);
        } else if PendingBy(st', u, b) {
          assert Writes(x, b) && Locks(st.threads[u], b);
        }
      }
    } else {
      forall u: nat ensures PendingBy(st', u, b) <==> PendingBy(st, u, b) {
      }
    }
  }

  lemma PopNode(st: State, t: nat, st': State, b: nat, k: nat)
    requires Inv(st) && Popping(st, t, st') && Stored(st, b, k)
    ensures NodeOk(st', b, k)
  {
    var x := st.threads[t];
    var d := x.pending.head;
    assert ThreadOk(st, t);
    assert NodeOk(st, b, k);
    HeldFinished(st, t);
    PopFinished(st, t, st', b);
    if b >= 2 {
      PopFinished(st, t, st', Parent(b));
    }
    forall e: nat | e > b && OnChain(e, st.hash(k)) ensures !Finished(st', e) {
      PopFinished(st, t, st', e);
      if e == d {
        ChainOrder(b, d, st.hash(k));
        ParentOnChain(d, st.hash(k));
        if b == x.cur {
          NoneFor(st.buckets[b].list, d, st.hash, k);
        }
      }
    }
    forall u: nat | PendingBy(st', u, b) ensures Filling(st'.threads[u], b) {
      assert PendingBy(st, u, b);
      if u == t {
        TailParent(st, x.cur, x.pending, st.hash(x.key), b);
      }
    }
  }

  lemma PopFrame(st: State, t: nat, st': State)
    requires Inv(st) && Popping(st, t, st')
    ensures Frame(st, t, st') && Exclusive(st') && GrowOk(st') && Shape(st')
  {
    var x, x' := st.threads[t], st'.threads[t];
    assert ThreadOk(st, t);
    HeldFinished(st, t);
    forall b: nat ensures Locks(x', b) ==> Writes(x, b) {
    }
    forall v: nat, u: nat, b: nat
      | v < |st'.threads| && u < |st'.threads| && v != u && Writes(st'.threads[v], b)
      ensures !Locks(st'.threads[u], b)
    {
      assert Writes(st.threads[v], b) ==> !Locks(st.threads[u], b);
    }
    forall b: nat | Finished(st', b)
      ensures Finished(st, b) || (b >= 2 && Locks(x, Parent(b)) && Finished(st, Parent(b)))
    {
      PopFinished(st, t, st', b);
    }
    forall b: nat ensures Marked(st', b) <==> Marked(st, b) {
    }
    forall b: nat | Writes(x, b) ensures Marked(st', b) {
      if Has(x.pending, b) {
        PendingIs(st, x.cur, x.pending, st.hash(x.key), b);
      }
    }
    assert Marked(st, 0) && Marked(st, 1);
    SameGrowth(st, t, x', st');
  }

  lemma PopClosed(st: State, t: nat, st': State)
    requires Inv(st) && Popping(st, t, st')
    ensures Closed(st')
  {
    assert ThreadOk(st, t);
    HeldFinished(st, t);
    forall b: nat ensures ClosedAt(st', b) {
      assert ClosedAt(st, b);
      PopFinished(st, t, st', b);
      if b >= 2 {
        PopFinished(st, t, st', Parent(b));
      }
    }
  }

  lemma StepPop(st: State, m: Move)
    requires Inv(st) && InBounds(st, m.thread) && st.threads[m.thread].pc == Pop
    ensures Inv(Step(st, m)) && Finished(Step(st, m), st.threads[m.thread].pending.head)
  {
    var t, st' := m.thread, Step(st, m);
    var x, x' := st.threads[t], st'.threads[t];
    var d := x.pending.head;
    assert ThreadOk(st, t);
    assert Popping(st, t, st');
    PopFrame(st, t, st');
    PopClosed(st, t, st');
    PopFinished(st, t, st', d);
    forall b: nat, k: nat ensures Stored(st', b, k) <==> Stored(st, b, k) {
    }
    forall b: nat, k: nat | Stored(st', b, k) ensures NodeOk(st', b, k) {
      PopNode(st, t, st', b, k);
    }
    forall b: nat | Marked(st', b) ensures Distinct(st'.buckets[b].list) {
      assert Marked(st, b);
    }
    FrameStack(st, t, st', d, x.pending.tail, st.hash(x.key));
    CutMonotone(st.hash(x.key), st.base, x.level);
    var ok := PlaceOk(st', x') && EntryOk(st', t, x');
    assert ok;
    Assemble(st, t, st');
  }

  /** Nodes move, come or go; marks and locks stay. */
  ghost predicate Relinked(st: State, t: nat, st': State) {
    && t < |st.threads| == |st'.threads| && st'.hash == st.hash && st'.base == st.base
    && st'.level == st.level && st'.growing == st.growing
    && (forall u: nat {:trigger st'.threads[u]} :: u < |st.threads| && u != t ==> st'.threads[u] == st.threads[u])
    && LogGrown(st, t, st')
    && |st'.buckets| == |st.buckets|
    && (forall b: nat {:trigger Marked(st', b)} :: Marked(st', b) <==> Marked(st, b))
    && (forall b: nat {:trigger st'.buckets[b]} ::
          b < |st.buckets| && !Writes(st.threads[t], b) ==> st'.buckets[b] == st.buckets[b])
    && var x, x' := st.threads[t], st'.threads[t];
       x'.cur == x.cur && x'.pending == x.pending && x'.mode == x.mode == Write && x'.grow == x.grow == false
  }

  lemma RelinkedFinished(st: State, t: nat, st': State, b: nat)
    requires Relinked(st, t, st')
    ensures Finished(st', b) <==> Finished(st, b)
  {
    forall u: nat ensures PendingBy(st', u, b) <==> PendingBy(st, u, b) {
      assert u < |st.threads| && u != t ==> st'.threads[u] == st.threads[u];
    }
  }

  lemma RelinkedNode(st: State, t: nat, st': State, b: nat, k: nat)
    requires Relinked(st, t, st') && NodeOk(st, b, k)
    ensures NodeOk(st', b, k)
  {
    RelinkedFinished(st, t, st', b);
    if b >= 2 {
      RelinkedFinished(st, t, st', Parent(b));
    }
    forall d: nat | d > b && OnChain(d, st.hash(k)) ensures !Finished(st', d) {
      RelinkedFinished(st, t, st', d);
    }
    forall u: nat | PendingBy(st', u, b) ensures Filling(st'.threads[u], b) {
      assert u != t ==> st'.threads[u] == st.threads[u];
      assert PendingBy(st, u, b);
    }
  }

  lemma RelinkedClosed(st: State, t: nat, st': State)
    requires Relinked(st, t, st') && Closed(st)
    ensures Closed(st')
  {
    forall b: nat ensures ClosedAt(st', b) {
      assert ClosedAt(st, b);
      RelinkedFinished(st, t, st', b);
      if b >= 2 {
        RelinkedFinished(st, t, st', Parent(b));
      }
    }
  }

  lemma RelinkedFrame(st: State, t: nat, st': State)
    requires Relinked(st, t, st') && Inv(st) && Marked(st, st.threads[t].cur)
    ensures Frame(st, t, st') && Exclusive(st') && GrowOk(st') && Shape(st') && Closed(st')
  {
    var x, x' := st.threads[t], st'.threads[t];
    assert ThreadOk(st, t);
    forall u: nat, b: nat | u < |st.threads| ensures Writes(st'.threads[u], b) <==> Writes(st.threads[u], b)
      ensures Locks(st'.threads[u], b) <==> Locks(st.threads[u], b)
    {
      assert u != t ==> st'.threads[u] == st.threads[u];
    }
    forall v: nat, u: nat, b: nat
      | v < |st'.threads| && u < |st'.threads| && v != u && Writes(st'.threads[v], b)
      ensures !Locks(st'.threads[u], b)
    {
      assert Writes(st.threads[v], b) ==> !Locks(st.threads[u], b);
    }
    forall b: nat ensures Finished(st', b) <==> Finished(st, b) {
      RelinkedFinished(st, t, st', b);
    }
    forall b: nat | Writes(x, b) ensures Marked(st', b) {
      if Has(x.pending, b) {
        PendingIs(st, x.cur, x.pending, st.hash(x.key), b);
      }
    }
    assert Marked(st, 0) && Marked(st, 1);
    RelinkedClosed(st, t, st');
    forall u: nat | u < |st'.threads| && st'.threads[u].grow ensures u != t && st.threads[u].grow {
      assert u != t ==> st'.threads[u] == st.threads[u];
    }
  }

  /** Node k moves from bucket b to bucket d. */
  lemma StepMove(st: State, m: Move)
    requires Inv(st) && InBounds(st, m.thread) && st.threads[m.thread].pc == Scan
    requires var x := st.threads[m.thread];
             x.mode == Write && AnyFor(st.buckets[x.cur].list, x.pending.head, st.hash)
    ensures Inv(Step(st, m))
  {
    var t, st' := m.thread, Step(st, m);
    var x := st.threads[t];
    var b, d := x.cur, x.pending.head;
    var l := st.buckets[b].list;
    var k := FirstFor(l, d, st.hash);
    assert ThreadOk(st, t);
    FirstForIn(l, d, st.hash);
    assert Writes(x, b) && Writes(x, d) && b < d;
    assert Relinked(st, t, st');
    RelinkedFrame(st, t, st');
    Moved(st, t, st', k);
    FrameStack(st, t, st', x.cur, x.pending, st.hash(x.key));
    var ok := ThreadOk(st', t);
    assert ok;
    Assemble(st, t, st');
  }

  lemma MovedStored(st: State, t: nat, st': State, k: nat, c: nat, j: nat)
    requires t < |st.threads| && st.threads[t].pending.Cons? && st.threads[t].cur < st.threads[t].pending.head
    requires var b, d := st.threads[t].cur, st.threads[t].pending.head;
             && Marked(st, b) && Marked(st, d) && Distinct(st.buckets[b].list)
             && st' == SetList(SetList(st, b, Without(st.buckets[b].list, k)), d, Cons(k, st.buckets[d].list))
    ensures var b, d := st.threads[t].cur, st.threads[t].pending.head;
            Stored(st', c, j) <==> if j == k && c == b then false else Stored(st, c, j) || (j == k && c == d)
  {
    WithoutHas(st.buckets[st.threads[t].cur].list, k, j);
  }

  lemma Moved(st: State, t: nat, st': State, k: nat)
    requires Inv(st) && Relinked(st, t, st') && st.threads[t].pending.Cons? && !Outside(st.threads[t].pc)
    requires st.threads[t].cur < st.threads[t].pending.head
    requires var b, d := st.threads[t].cur, st.threads[t].pending.head;
             && Marked(st, b) && Marked(st, d) && Stored(st, b, k) && OnChain(d, st.hash(k))
             && st' == SetList(SetList(st, b, Without(st.buckets[b].list, k)), d, Cons(k, st.buckets[d].list))
    ensures Nodes(st') && Unique(st')
  {
    var x := st.threads[t];
    var b, d := x.cur, x.pending.head;
    assert ThreadOk(st, t);
    forall c: nat, j: nat
      ensures Stored(st', c, j) <==> if j == k && c == b then false else Stored(st, c, j) || (j == k && c == d)
    {
      MovedStored(st, t, st', k, c, j);
    }
    MovedNode(st, t, k);
    forall c: nat, j: nat | Stored(st', c, j) ensures NodeOk(st', c, j) {
      RelinkedNode(st, t, st', c, j);
    }
    WithoutDistinct(st.buckets[b].list, k);
    assert !Stored(st, d, k);
    forall c: nat | Marked(st', c) ensures Distinct(st'.buckets[c].list) {
      assert Marked(st, c);
    }
  }

  lemma MovedNode(st: State, t: nat, k: nat)
    requires Inv(st) && t < |st.threads| && !Outside(st.threads[t].pc) && st.threads[t].pending.Cons?
    requires Stored(st, st.threads[t].cur, k) && OnChain(st.threads[t].pending.head, st.hash(k))
    requires st.threads[t].mode == Write
    ensures NodeOk(st, st.threads[t].pending.head, k)
  {
    var x := st.threads[t];
    var d := x.pending.head;
    assert ThreadOk(st, t);
    HeldFinished(st, t);
    assert NodeOk(st, x.cur, k);
    forall u: nat | PendingBy(st, u, d) ensures Filling(st.threads[u], d) {
      if u != t {
        assert Writes(x, d) && Locks(st.threads[u], d);
      }
    }
  }

  lemma StepAdd(st: State, m: Move)
    requires Inv(st) && InBounds(st, m.thread) && st.threads[m.thread].pc == Add
    ensures Inv(Step(st, m)) && !Present(st, st.threads[m.thread].key)
  {
    var t, st' := m.thread, Step(st, m);
    var x, x' := st.threads[t], st'.threads[t];
    var b, k := x.cur, x.key;
    assert ThreadOk(st, t);
    AbsentEverywhere(st, t, k);
    HeldFinished(st, t);
    assert Writes(x, b);
    assert Relinked(st, t, st');
    RelinkedFrame(st, t, st');
    assert !Stored(st, b, k);
    forall c: nat, j: nat ensures Stored(st', c, j) <==> Stored(st, c, j) || (c == b && j == k) {
    }
    assert ClosedAt(st, b);
    assert NodeOk(st, b, k);
    forall c: nat, j: nat | Stored(st', c, j) ensures NodeOk(st', c, j) {
      RelinkedNode(st, t, st', c, j);
    }
    forall c: nat | Marked(st', c) ensures Distinct(st'.buckets[c].list) {
      assert Marked(st, c);
    }
    assert EntryOk(st', t, x');
    var ok := ThreadOk(st', t);
    assert ok;
    Assemble(st, t, st');
  }

  lemma StepUnlink(st: State, m: Move)
    requires Inv(st) && InBounds(st, m.thread) && st.threads[m.thread].pc == Unlink
    ensures Inv(Step(st, m))
  {
    var t, st' := m.thread, Step(st, m);
    var x, x' := st.threads[t], st'.threads[t];
    var b, k := x.cur, x.key;
    assert ThreadOk(st, t);
    assert Writes(x, b);
    assert Relinked(st, t, st');
    RelinkedFrame(st, t, st');
    forall c: nat, j: nat ensures Stored(st', c, j) <==> Stored(st, c, j) && !(c == b && j == k) {
      WithoutHas(st.buckets[b].list, k, j);
    }
    forall c: nat, j: nat | Stored(st', c, j) ensures NodeOk(st', c, j) {
      RelinkedNode(st, t, st', c, j);
    }
    WithoutDistinct(st.buckets[b].list, k);
    forall c: nat | Marked(st', c) ensures Distinct(st'.buckets[c].list) {
      assert Marked(st, c);
    }
    assert EntryOk(st', t, x');
    var ok := ThreadOk(st', t);
    assert ok;
    Assemble(st, t, st');
  }

  /** Every step keeps the invariant. */
  lemma StepInv(st: State, m: Move)
    requires Inv(st) && InBounds(st, m.thread) && Enabled(st, m)
    ensures Inv(Step(st, m))
  {
    var x := st.threads[m.thread];
    match x.pc
    case Idle => StepIdle(st, m);
    case Load => StepLoad(st, m);
    case Acquire => StepAcquire(st, m);
    case TryLock => StepTryLock(st, m);
    case Recheck => StepRecheck(st, m);
    case Mark => StepMark(st, m);
    case Lock => StepLock(st, m);
    case Scan =>
      if x.mode == Write && AnyFor(st.buckets[x.cur].list, x.pending.head, st.hash) {
        StepMove(st, m);
      } else {
        StepScanQuiet(st, m);
      }
    case Pop => StepPop(st, m);
    case Search =>
      if Has(st.buckets[x.cur].list, x.key) {
        StepHit(st, m);
      } else {
        StepMiss(st, m);
      }
    case Upgrade => StepUpgrade(st, m);
    case WaitUpgrade => StepWaitUpgrade(st, m);
    case WaitWrite =>
      if x.pending.Cons? {
        StepWaitScan(st, m);
      } else {
        StepWaitWrite(st, m);
      }
    case Check => StepCheck(st, m);
    case CheckFlag => StepCheckFlag(st, m);
    case Restart => StepRestart(st, m);
    case Count => StepCount(st, m);
    case Add => StepAdd(st, m);
    case Grow => StepGrow(st, m);
    case Unlink => StepUnlink(st, m);
    case Uncount => StepUncount(st, m);
    case Leave => StepLeave(st, m);
    case Enable => StepEnable(st, m);
  }
}
