/** A run after which the hash map breaks its own rule: one key is inserted and erased, and the map is
    rehashed to one bucket more than it has. */
module EmptiedMap {
  import opened Masks
  import opened HashMap
  import opened HashMapInvariant
  import opened HashMapRuns
  import SerialRehash

  ghost predicate Reachable(init: State, st: State) {
    exists schedule: seq<Action> :: Reaches(init, schedule, st)
  }

  lemma ReachNext(init: State, st: State, a: Action, st': State)
    requires Reachable(init, st) && Next(st, a, st')
    ensures Reachable(init, st')
  {
    var schedule: seq<Action> :| Reaches(init, schedule, st);
    assert (schedule + [a])[..|schedule|] == schedule;
    assert Reaches(init, schedule + [a], st');
  }

  function Outside0(since: nat, mark: int): Thread {
    Thread(Idle, Find, 0, 0, 0, Nil, None, false, 0, 0, false, false, since, mark)
  }

  /** One thread, no keys. */
  function Start(hash: nat -> nat): State {
    State(1, 1, false, 0, [Rehashed(Nil), Rehashed(Nil)], [Outside0(0, -1)], hash, [])
  }

  lemma {:induction false} CutZero(j: nat)
    ensures Cut(0, j) == 0
  {
    if j > 0 {
      CutZero(j - 1);
      BitZero(j - 1);
    }
  }

  lemma {:induction false} BitZero(j: nat)
    ensures !Bit(0, j)
  {
    if j > 0 {
      BitZero(j - 1);
    }
  }

  // ---------- the steps of a thread that is alone ----------

  lemma Begins(init: State, st: State, x: Thread, op: Op, st': State)
    requires Reachable(init, st) && st.threads == [x]
    requires x.pc == Idle
    requires st' == st.(threads := [x.(pc := Load, op := op, key := 0, mark := -1, since := |st.log|)])
    ensures Reachable(init, st')
  {
    var m := Move(0, op, 0, false);
    assert st' == Step(st, m);
    ReachNext(init, st, Turn(m), st');
  }

  lemma Loads(init: State, st: State, x: Thread, st': State)
    requires Reachable(init, st) && st.threads == [x]
    requires x.pc == Load && x.key == 0 && st.hash(0) == 0
    requires st' == st.(threads := [x.(pc := Acquire, level := st.level, cur := 0)])
    ensures Reachable(init, st')
  {
    CutZero(st.level);
    var m := Move(0, x.op, 0, false);
    assert st' == Step(st, m);
    ReachNext(init, st, Turn(m), st');
  }

  lemma Asks(init: State, st: State, x: Thread, st': State)
    requires Reachable(init, st) && st.threads == [x]
    requires x.pc == Acquire && x.cur < |st.buckets| && st.buckets[x.cur].Rehashed?
    requires st' == st.(threads := [x.(pc := Lock)])
    ensures Reachable(init, st')
  {
    var m := Move(0, x.op, 0, false);
    assert st' == Step(st, m);
    ReachNext(init, st, Turn(m), st');
  }

  lemma Locks0(init: State, st: State, x: Thread, st': State)
    requires Reachable(init, st) && st.threads == [x]
    requires x.pc == Lock && x.pending == Nil
    requires st' == st.(threads := [x.(pc := Search, mode := Read)])
    ensures Reachable(init, st')
  {
    var m := Move(0, x.op, 0, false);
    assert st' == Step(st, m);
    ReachNext(init, st, Turn(m), st');
  }

  lemma Misses(init: State, st: State, x: Thread, st': State)
    requires Reachable(init, st) && st.threads == [x]
    requires x.pc == Search && x.op == Insert && x.mode == Read
             && x.cur < |st.buckets| && st.buckets[x.cur].Rehashed?
             && !Has(st.buckets[x.cur].list, x.key)
    requires st' == st.(threads := [x.(pc := Upgrade, missed := true)])
    ensures Reachable(init, st')
  {
    var m := Move(0, x.op, 0, false);
    assert st' == Step(st, m);
    ReachNext(init, st, Turn(m), st');
  }

  lemma Hits(init: State, st: State, x: Thread, st': State)
    requires Reachable(init, st) && st.threads == [x]
    requires x.pc == Search && x.op == Erase && x.mode == Read
             && x.cur < |st.buckets| && st.buckets[x.cur].Rehashed?
             && Has(st.buckets[x.cur].list, x.key)
    requires st' == st.(threads := [x.(pc := Upgrade, missed := false)])
    ensures Reachable(init, st')
  {
    var m := Move(0, x.op, 0, false);
    assert st' == Step(st, m);
    ReachNext(init, st, Turn(m), st');
  }

  lemma Upgrades(init: State, st: State, x: Thread, st': State)
    requires Reachable(init, st) && st.threads == [x]
    requires x.pc == Upgrade
    requires st' == st.(threads := [x.(pc := WaitUpgrade)])
    ensures Reachable(init, st')
  {
    var m := Move(0, x.op, 0, false);
    assert st' == Step(st, m);
    ReachNext(init, st, Turn(m), st');
  }

  lemma Writes0(init: State, st: State, x: Thread, st': State)
    requires Reachable(init, st) && st.threads == [x]
    requires x.pc == WaitUpgrade && x.pending == Nil && x.op != Find
    requires st' == st.(threads := [x.(pc := if x.op == Insert then Check else Unlink, mode := Write)])
    ensures Reachable(init, st')
  {
    var m := Move(0, x.op, 0, false);
    assert st' == Step(st, m);
    ReachNext(init, st, Turn(m), st');
  }

  lemma Checks(init: State, st: State, x: Thread, st': State)
    requires Reachable(init, st) && st.threads == [x]
    requires x.pc == Check && x.op == Insert && 1 <= x.level == st.level
    requires st' == st.(threads := [x.(pc := Count)])
    ensures Reachable(init, st')
  {
    var m := Move(0, x.op, 0, false);
    assert st' == Step(st, m);
    ReachNext(init, st, Turn(m), st');
  }

  lemma Counts(init: State, st: State, x: Thread, st': State)
    requires Reachable(init, st) && st.threads == [x]
    requires x.pc == Count
    requires st' == st.(threads := [x.(pc := Add, sz := st.size + 1)], size := st.size + 1)
    ensures Reachable(init, st')
  {
    var m := Move(0, x.op, 0, false);
    assert st.threads[0 := x.(pc := Add, sz := st.size + 1)] == st'.threads;
    assert Step(st, m).size == st.size + 1;
    assert st' == Step(st, m);
    ReachNext(init, st, Turn(m), st');
  }

  lemma Adds(init: State, st: State, x: Thread, st': State)
    requires Reachable(init, st) && st.threads == [x]
    requires x.pc == Add && x.cur < |st.buckets| && st.buckets[x.cur].Rehashed?
    requires st' == st.(threads := [x.(pc := Grow, result := true, mark := |st.log|)],
                        buckets := st.buckets[x.cur := Rehashed(Cons(x.key, st.buckets[x.cur].list))],
                        log := st.log + [Event(0, x.op, x.key, true)])
    ensures Reachable(init, st')
  {
    var m := Move(0, x.op, 0, false);
    assert st' == Step(st, m);
    ReachNext(init, st, Turn(m), st');
  }

  lemma Grows(init: State, st: State, x: Thread, st': State)
    requires Reachable(init, st) && st.threads == [x]
    requires x.pc == Grow && x.sz == 1 && x.level == 1 == st.level && !st.growing
    requires st' == st.(threads := [x.(pc := Leave, grow := true)], growing := true)
    ensures Reachable(init, st')
  {
    assert Pow2(1) == 2;
    var m := Move(0, x.op, 0, false);
    assert st' == Step(st, m);
    ReachNext(init, st, Turn(m), st');
  }

  lemma Leaves(init: State, st: State, x: Thread, st': State)
    requires Reachable(init, st) && st.threads == [x]
    requires x.pc == Leave
    requires st' == st.(threads := [x.(pc := if x.grow then Enable else Idle, mode := None)])
    ensures Reachable(init, st')
  {
    var m := Move(0, x.op, 0, false);
    assert st' == Step(st, m);
    ReachNext(init, st, Turn(m), st');
  }

  lemma Enables(init: State, st: State, x: Thread, st': State)
    requires Reachable(init, st) && st.threads == [x]
    requires x.pc == Enable && x.level == 1 == st.level && |st.buckets| == 2
    requires st' == st.(threads := [x.(pc := Idle, grow := false)], growing := false, level := 8,
                        buckets := st.buckets + Fresh(254))
    ensures Reachable(init, st')
  {
    assert Pow2(8) == 256;
    var m := Move(0, x.op, 0, false);
    assert st' == Step(st, m);
    ReachNext(init, st, Turn(m), st');
  }

  lemma Unlinks(init: State, st: State, x: Thread, st': State)
    requires Reachable(init, st) && st.threads == [x]
    requires x.pc == Unlink && x.cur < |st.buckets| && st.buckets[x.cur].Rehashed?
    requires st' == st.(threads := [x.(pc := Uncount, result := true, mark := |st.log|)],
                        buckets := st.buckets[x.cur := Rehashed(Without(st.buckets[x.cur].list, x.key))],
                        log := st.log + [Event(0, x.op, x.key, true)])
    ensures Reachable(init, st')
  {
    var m := Move(0, x.op, 0, false);
    assert st' == Step(st, m);
    ReachNext(init, st, Turn(m), st');
  }

  lemma Uncounts(init: State, st: State, x: Thread, st': State)
    requires Reachable(init, st) && st.threads == [x]
    requires x.pc == Uncount
    requires st' == st.(threads := [x.(pc := Leave)], size := st.size - 1)
    ensures Reachable(init, st')
  {
    var m := Move(0, x.op, 0, false);
    assert st' == Step(st, m);
    ReachNext(init, st, Turn(m), st');
  }

  // ---------- the run ----------

  /** From outside to the search in bucket 0. */
  lemma Enters(init: State, st: State, x: Thread, op: Op, st': State)
    requires Reachable(init, st) && st.threads == [x]
    requires x.pc == Idle && x.pending == Nil && st.hash(0) == 0
    requires |st.buckets| >= 1 && st.buckets[0].Rehashed?
    requires st' == st.(threads := [x.(pc := Search, op := op, key := 0, level := st.level, cur := 0, mode := Read,
                                       mark := -1, since := |st.log|)])
    ensures Reachable(init, st')
  {
    var x1 := x.(pc := Load, op := op, key := 0, mark := -1, since := |st.log|);
    var x2 := x1.(pc := Acquire, level := st.level, cur := 0);
    var x3 := x2.(pc := Lock);
    Begins(init, st, x, op, st.(threads := [x1]));
    Loads(init, st.(threads := [x1]), x1, st.(threads := [x2]));
    Asks(init, st.(threads := [x2]), x2, st.(threads := [x3]));
    Locks0(init, st.(threads := [x3]), x3, st');
  }

  /** The state with this thread, these buckets and these numbers. */
  function At(hash: nat -> nat, level: nat, growing: bool, size: int, buckets: seq<Bucket>, x: Thread,
              log: seq<Event>): State {
    State(level, 1, growing, size, buckets, [x], hash, log)
  }

  function Small(l: List): seq<Bucket> {
    [Rehashed(l), Rehashed(Nil)]
  }

  /** The thread that is about to search for key 0 to insert it. */
  function Begun(): Thread {
    Thread(Search, Insert, 0, 1, 0, Nil, Read, false, 0, 0, false, false, 0, -1)
  }

  /** A thread outside after an operation that has changed the map. */
  function Done(op: Op, level: nat, missed: bool, sz: int, since: nat): Thread {
    Thread(Idle, op, 0, level, 0, Nil, None, missed, 0, sz, false, true, since, since)
  }

  lemma InsertsOne(init: State, hash: nat -> nat)
    requires hash(0) == 0 && init == Start(hash) && Reachable(init, init)
    ensures Reachable(init, At(hash, 8, false, 1, Small(Cons(0, Nil)) + Fresh(254), Done(Insert, 1, true, 1, 0),
                               [Event(0, Insert, 0, true)]))
  {
    var small, one, log := Small(Nil), Small(Cons(0, Nil)), [Event(0, Insert, 0, true)];
    var x := Begun();
    var s0 := At(hash, 1, false, 0, small, x, []);
    Enters(init, init, Outside0(0, -1), Insert, s0);
    var x1 := x.(pc := Upgrade, missed := true);
    Misses(init, s0, x, s0.(threads := [x1]));
    var x2 := x1.(pc := WaitUpgrade);
    Upgrades(init, s0.(threads := [x1]), x1, s0.(threads := [x2]));
    var x3 := x2.(pc := Check, mode := Write);
    Writes0(init, s0.(threads := [x2]), x2, s0.(threads := [x3]));
    var x4 := x3.(pc := Count);
    Checks(init, s0.(threads := [x3]), x3, s0.(threads := [x4]));
    var x5 := x4.(pc := Add, sz := 1);
    var s1 := At(hash, 1, false, 1, small, x5, []);
    Counts(init, s0.(threads := [x4]), x4, s1);
    var x6 := x5.(pc := Grow, result := true, mark := 0);
    var s2 := At(hash, 1, false, 1, one, x6, log);
    assert small[0 := Rehashed(Cons(0, Nil))] == one && [] + log == log;
    Adds(init, s1, x5, s2);
    GrowsFull(init, hash, s2, x6);
  }

  lemma GrowsFull(init: State, hash: nat -> nat, st: State, x: Thread)
    requires Reachable(init, st) && x == Done(Insert, 1, true, 1, 0).(pc := Grow, mode := Write)
    requires st == At(hash, 1, false, 1, Small(Cons(0, Nil)), x, [Event(0, Insert, 0, true)])
    ensures Reachable(init, At(hash, 8, false, 1, Small(Cons(0, Nil)) + Fresh(254), x.(pc := Idle, mode := None),
                               st.log))
  {
    var x1 := x.(pc := Leave, grow := true);
    var s1 := st.(threads := [x1], growing := true);
    Grows(init, st, x, s1);
    var x2 := x1.(pc := Enable, mode := None);
    Leaves(init, s1, x1, s1.(threads := [x2]));
    Enables(init, s1.(threads := [x2]), x2,
            At(hash, 8, false, 1, Small(Cons(0, Nil)) + Fresh(254), x.(pc := Idle, mode := None), st.log));
  }

  /** From the search that finds key 0 to unlinking its node. */
  lemma Finds(init: State, st: State, x: Thread, st': State)
    requires Reachable(init, st) && st.threads == [x] && x.pc == Search && x.op == Erase && x.mode == Read
    requires x.pending == Nil && x.cur < |st.buckets| && st.buckets[x.cur].Rehashed?
    requires Has(st.buckets[x.cur].list, x.key)
    requires st' == st.(threads := [x.(pc := Unlink, mode := Write, missed := false)])
    ensures Reachable(init, st')
  {
    var x1 := x.(pc := Upgrade, missed := false);
    Hits(init, st, x, st.(threads := [x1]));
    var x2 := x1.(pc := WaitUpgrade);
    Upgrades(init, st.(threads := [x1]), x1, st.(threads := [x2]));
    Writes0(init, st.(threads := [x2]), x2, st');
  }

  lemma ErasesOne(init: State, hash: nat -> nat, st: State)
    requires hash(0) == 0 && Reachable(init, st)
    requires st == At(hash, 8, false, 1, Small(Cons(0, Nil)) + Fresh(254), Done(Insert, 1, true, 1, 0),
                      [Event(0, Insert, 0, true)])
    ensures exists x: Thread, log: seq<Event> :: x.pc == Idle &&
              Reachable(init, At(hash, 8, false, 0, SerialRehash.EmptiedTable(), x, log))
  {
    var full, empty := st.buckets, SerialRehash.EmptiedTable();
    var x := st.threads[0].(pc := Search, op := Erase, key := 0, level := 8, cur := 0, mode := Read,
                            mark := -1, since := 1);
    var x3 := x.(pc := Unlink, mode := Write, missed := false);
    Enters(init, st, st.threads[0], Erase, st.(threads := [x]));
    Finds(init, st.(threads := [x]), x, st.(threads := [x3]));
    var x4 := x3.(pc := Uncount, result := true, mark := 1);
    var log := st.log + [Event(0, Erase, 0, true)];
    assert full[0 := Rehashed(Nil)] == empty;
    Unlinks(init, st.(threads := [x3]), x3, At(hash, 8, false, 1, empty, x4, log));
    LeavesEmpty(init, hash, x4, log);
  }

  lemma LeavesEmpty(init: State, hash: nat -> nat, x: Thread, log: seq<Event>)
    requires x.pc == Uncount && !x.grow && Reachable(init, At(hash, 8, false, 1, SerialRehash.EmptiedTable(), x, log))
    ensures Reachable(init, At(hash, 8, false, 0, SerialRehash.EmptiedTable(), x.(pc := Idle, mode := None), log))
  {
    var empty := SerialRehash.EmptiedTable();
    var x1 := x.(pc := Leave);
    Uncounts(init, At(hash, 8, false, 1, empty, x, log), x, At(hash, 8, false, 0, empty, x1, log));
    Leaves(init, At(hash, 8, false, 0, empty, x1, log), x1,
           At(hash, 8, false, 0, empty, x1.(pc := Idle, mode := None), log));
  }

  /** The table rehashing makes of it: only buckets 0 and 1 and the new segment are marked. */
  function HalfMarked(): seq<Bucket> {
    SerialRehash.EmptiedTable() + SerialRehash.Empties(256)
  }

  lemma HalfMarkedIsResult(hash: nat -> nat)
    ensures SerialRehash.Rehashes(SerialRehash.EmptiedTable(), hash, 8, 1, 0, 257, HalfMarked(), 9, 9)
  {
    var bs, bs' := SerialRehash.EmptiedTable(), HalfMarked();
    assert Pow2(8) == 256 && Pow2(9) == 512;
    forall b: nat, k: nat ensures !SerialRehash.In(bs, b, k) && !SerialRehash.In(bs', b, k) {
    }
    forall k: nat ensures SerialRehash.Contains(bs, k) <==> SerialRehash.Contains(bs', k) {
    }
    assert !SerialRehash.IsMarked(bs, 2) && !SerialRehash.IsMarked(bs', 2);
    SegmentUnique(258, 8);
    assert SerialRehash.IsMarked(bs', 258) && Parent(258) == 2;
    assert !SerialRehash.ParentMarked(bs', 258);
    forall b: nat | SerialRehash.IsMarked(bs', b) ensures Distinct(bs'[b].list) {
    }
  }

  /** Insert key 0, erase it, rehash to 257 buckets: a bucket in the middle of the table is left
      unmarked although there are marked buckets split off from it. */
  lemma EmptiedMapBreaksClosure(hash: nat -> nat)
    requires hash(0) == 0
    ensures exists st: State, st': State ::
              && Reachable(Start(hash), st) && Quiescent(st) && st.size == 0 && |st.buckets| == 256
              && RehashStep(st, 257, st') && Reachable(Start(hash), st')
              && !SerialRehash.AllMarked(st'.buckets) && !SerialRehash.ClosedTable(st'.buckets)
  {
    var init := Start(hash);
    assert Reaches(init, [], init);
    InsertsOne(init, hash);
    ErasesOne(init, hash, At(hash, 8, false, 1, Small(Cons(0, Nil)) + Fresh(254), Done(Insert, 1, true, 1, 0),
                             [Event(0, Insert, 0, true)]));
    var x: Thread, log: seq<Event> :| x.pc == Idle &&
              Reachable(init, At(hash, 8, false, 0, SerialRehash.EmptiedTable(), x, log));
    var st := At(hash, 8, false, 0, SerialRehash.EmptiedTable(), x, log);
    var st' := st.(level := 9, base := 9, buckets := HalfMarked());
    HalfMarkedIsResult(hash);
    assert RehashStep(st, 257, st');
    ReachNext(init, st, Rehash(257), st');
    SerialRehash.EmptiedTableStaysUnmarked(hash, st'.buckets, 9, 9);
  }
}
