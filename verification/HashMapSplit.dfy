/** Splitting a bucket off ends: a thread that keeps stepping gets its bucket, whatever the other
    threads do. */
module HashMapSplit {
  import opened Masks
  import opened HashMap
  import opened HashMapInvariant
  import opened HashMapSteps
  import opened HashMapRuns

  /** The thread is acquiring bucket cur, or filling pending buckets from it. */
  predicate Splitting(x: Thread) {
    Entering(x.pc) ||
    (x.pending.Cons? &&
     (x.pc == Scan || x.pc == Pop || x.pc == Upgrade || x.pc == WaitUpgrade || x.pc == WaitWrite))
  }

  /** How many nodes of the list belong into bucket b. */
  function CountFor(l: List, b: nat, hash: nat -> nat): nat {
    if l.Nil? then 0 else CountFor(l.tail, b, hash) + if OnChain(b, hash(l.head)) then 1 else 0
  }

  lemma {:induction false} OneLess(l: List, b: nat, hash: nat -> nat)
    requires AnyFor(l, b, hash)
    ensures CountFor(Without(l, FirstFor(l, b, hash)), b, hash) + 1 == CountFor(l, b, hash)
  {
    if !OnChain(b, hash(l.head)) {
      FirstForIn(l.tail, b, hash);
      OneLess(l.tail, b, hash);
    }
  }

  // ---------- the measure ----------

  /** Going up to the parents, coming back down, or done. */
  function Phase(x: Thread): nat {
    if !Splitting(x) then 0 else if Entering(x.pc) then 2 else 1
  }

  /** On the way up the bucket, on the way down the number of pending buckets. */
  function Distance(x: Thread): nat {
    if !Splitting(x) then 0 else if Entering(x.pc) then x.cur else Length(x.pending)
  }

  /** The steps for one bucket. */
  function Rank(x: Thread): nat {
    match x.pc
    case Acquire => 4
    case TryLock => 3
    case Recheck => 2
    case Mark => 1
    case Lock => 1
    case Scan => if x.mode == Write then 1 else 5
    case Upgrade => 4
    case WaitUpgrade => 3
    case WaitWrite => 2
    case _ => 0
  }

  /** The nodes still to be moved, once nobody else can change the bucket. */
  function ToMove(st: State, x: Thread): nat {
    if x.pc == Scan && x.mode == Write && x.pending.Cons? && Marked(st, x.cur) then
      CountFor(st.buckets[x.cur].list, x.pending.head, st.hash)
    else 0
  }

  ghost predicate Decreases(st: State, x: Thread, st': State, x': Thread) {
    || Phase(x') < Phase(x)
    || (Phase(x') == Phase(x) && Distance(x') < Distance(x))
    || (Phase(x') == Phase(x) && Distance(x') == Distance(x) && Rank(x') < Rank(x))
    || (Phase(x') == Phase(x) && Distance(x') == Distance(x) && Rank(x') == Rank(x) && ToMove(st', x') < ToMove(st, x))
  }

  lemma MoveDecreases(st: State, m: Move)
    requires InBounds(st, m.thread) && st.threads[m.thread].pc == Scan && Moves(st, st.threads[m.thread])
    requires st.threads[m.thread].cur != st.threads[m.thread].pending.head
    ensures Decreases(st, st.threads[m.thread], Step(st, m), Step(st, m).threads[m.thread])
  {
    var x := st.threads[m.thread];
    OneLess(st.buckets[x.cur].list, x.pending.head, st.hash);
  }

  lemma OtherDecreases(st: State, m: Move)
    requires InBounds(st, m.thread) && Splitting(st.threads[m.thread]) && !Moves(st, st.threads[m.thread])
    ensures Decreases(st, st.threads[m.thread], Step(st, m), Step(st, m).threads[m.thread])
  {
  }

  /** Every step of its own brings a thread nearer to the bucket it wants. */
  lemma OwnStepDecreases(st: State, m: Move)
    requires Inv(st) && InBounds(st, m.thread) && Splitting(st.threads[m.thread])
    ensures Decreases(st, st.threads[m.thread], Step(st, m), Step(st, m).threads[m.thread])
  {
    InvLinkReady(st, m.thread);
    if Moves(st, st.threads[m.thread]) {
      MoveDecreases(st, m);
    } else {
      OtherDecreases(st, m);
    }
  }

  lemma OnlyWritten(st: State, m: Move, b: nat)
    requires InBounds(st, m.thread) && b < |st.buckets| && !Writes(st.threads[m.thread], b)
    requires var x := st.threads[m.thread]; x.pc == Mark || x.pc == Add || x.pc == Unlink ==> x.mode == Write
    ensures b < |Step(st, m).buckets| && Step(st, m).buckets[b] == st.buckets[b]
  {
    var x := st.threads[m.thread];
    if x.pc == Enable {
      assert Step(st, m).buckets == st.buckets + Fresh(Pow2(NextLevel(x.level)) - |st.buckets|);
    } else if !Touches(x.pc) && !Moves(st, x) {
      SameTable(st, m);
    }
  }

  /** A step changes only buckets that its thread has locked for writing. */
  lemma BucketsKept(st: State, m: Move, b: nat)
    requires Inv(st) && InBounds(st, m.thread) && b < |st.buckets| && !Writes(st.threads[m.thread], b)
    ensures b < |Step(st, m).buckets| && Step(st, m).buckets[b] == st.buckets[b]
  {
    assert PhaseOk(st, m.thread, st.threads[m.thread]) by {
      assert ThreadOk(st, m.thread);
    }
    OnlyWritten(st, m, b);
  }

  /** No step of another thread changes anything about it. */
  lemma OtherStepKeeps(st: State, m: Move, t: nat)
    requires Inv(st) && InBounds(st, m.thread) && t < |st.threads| && t != m.thread
    ensures Step(st, m).threads[t] == st.threads[t]
    ensures ToMove(Step(st, m), st.threads[t]) == ToMove(st, st.threads[t])
  {
    var x := st.threads[t];
    SameThreads(st, m);
    assert Step(st, m).hash == st.hash by {
      SameHash(st, m);
    }
    if x.pc == Scan && x.mode == Write {
      assert PlaceOk(st, x) && PhaseOk(st, t, x) by {
        assert ThreadOk(st, t);
      }
      assert Writes(x, x.cur) && !Locks(st.threads[m.thread], x.cur);
      BucketsKept(st, m, x.cur);
    }
  }

  lemma SameHash(st: State, m: Move)
    requires InBounds(st, m.thread)
    ensures Step(st, m).hash == st.hash
  {
  }

  // ---------- infinite runs ----------

  ghost predicate RunStep(run: nat -> State, acts: nat -> Action, i: nat) {
    Next(run(i), acts(i), run(i + 1))
  }

  ghost predicate IsRun(run: nat -> State, acts: nat -> Action) {
    Init(run(0)) && forall i: nat {:trigger RunStep(run, acts, i)} :: RunStep(run, acts, i)
  }

  predicate Turns(acts: nat -> Action, t: nat, i: nat) {
    acts(i).Turn? && acts(i).move.thread == t
  }

  ghost predicate TurnsFrom(acts: nat -> Action, t: nat, i: nat) {
    exists j: nat :: i <= j && Turns(acts, t, j)
  }

  /** Thread t makes infinitely many steps. */
  ghost predicate TurnsForever(acts: nat -> Action, t: nat) {
    forall i: nat {:trigger TurnsFrom(acts, t, i)} :: TurnsFrom(acts, t, i)
  }

  lemma {:induction false} RunInv(run: nat -> State, acts: nat -> Action, i: nat)
    requires IsRun(run, acts)
    ensures Inv(run(i)) && |run(i).threads| == |run(0).threads|
    decreases i
  {
    if i == 0 {
      InitInv(run(0));
    } else {
      RunInv(run, acts, i - 1);
      assert RunStep(run, acts, i - 1);
      match acts(i - 1)
      case Turn(m) =>
        StepInv(run(i - 1), m);
        SameThreads(run(i - 1), m);
      case Rehash(n) =>
        RehashInv(run(i - 1), n, run(i));
    }
  }

  /** One step of the run, as thread t sees it. */
  lemma RunMeasure(run: nat -> State, acts: nat -> Action, t: nat, i: nat)
    requires IsRun(run, acts) && t < |run(0).threads|
    ensures t < |run(i).threads| && t < |run(i + 1).threads|
    ensures Splitting(run(i).threads[t]) ==>
              if Turns(acts, t, i) then Decreases(run(i), run(i).threads[t], run(i + 1), run(i + 1).threads[t])
              else run(i + 1).threads[t] == run(i).threads[t]
                   && ToMove(run(i + 1), run(i).threads[t]) == ToMove(run(i), run(i).threads[t])
  {
    RunInv(run, acts, i);
    RunInv(run, acts, i + 1);
    assert RunStep(run, acts, i);
    if Splitting(run(i).threads[t]) {
      assert acts(i).Turn? by {
        assert run(i).threads[t].pc != Idle;
      }
      if Turns(acts, t, i) {
        OwnStepDecreases(run(i), acts(i).move);
      } else {
        OtherStepKeeps(run(i), acts(i).move, t);
      }
    }
  }

  /** From time i on thread t, which steps again at time j, comes to a time when it is not splitting. */
  lemma {:induction false} SplitEndsAfter(run: nat -> State, acts: nat -> Action, t: nat, i: nat, j: nat,
                                          st: State, x: Thread)
    requires IsRun(run, acts) && TurnsForever(acts, t) && t < |run(0).threads|
    requires i <= j && Turns(acts, t, j)
    requires st == run(i) && t < |st.threads| && x == st.threads[t]
    ensures exists e: nat :: i <= e && t < |run(e).threads| && !Splitting(run(e).threads[t])
    decreases Phase(x), Distance(x), Rank(x), ToMove(st, x), j - i
  {
    RunMeasure(run, acts, t, i);
    if Splitting(x) {
      var st', x' := run(i + 1), run(i + 1).threads[t];
      if Turns(acts, t, i) {
        assert TurnsFrom(acts, t, i + 1);
        var k: nat :| i + 1 <= k && Turns(acts, t, k);
        SplitEndsAfter(run, acts, t, i + 1, k, st', x');
      } else {
        SplitEndsAfter(run, acts, t, i + 1, j, st', x');
      }
    }
  }

  /** Splitting terminates: in every infinite run, a thread that keeps stepping does not acquire and
      fill buckets for ever. */
  lemma SplitEnds(run: nat -> State, acts: nat -> Action, t: nat, i: nat)
    requires IsRun(run, acts) && TurnsForever(acts, t) && t < |run(0).threads|
    ensures exists e: nat :: i <= e && t < |run(e).threads| && !Splitting(run(e).threads[t])
  {
    assert TurnsFrom(acts, t, i);
    var j: nat :| i <= j && Turns(acts, t, j);
    RunMeasure(run, acts, t, i);
    SplitEndsAfter(run, acts, t, i, j, run(i), run(i).threads[t]);
  }
}
