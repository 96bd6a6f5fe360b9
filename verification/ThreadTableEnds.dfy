/** Lookups in the thread-keyed table end: a thread that keeps stepping returns, whatever the other
    threads do. */
module ThreadTableEnds {
  import opened Masks
  import opened ThreadTable
  import opened ThreadTableTraces

  // ---------- the measure ----------

  function Stage(pc: Pc): nat {
    match pc
    case Idle => 0
    case LoadRoot => 9
    case Probe => 8
    case NextArr => 8
    case Create => 7
    case Count => 6
    case CheckRoot => 5
    case CasRoot => 4
    case Match => 4
    case Insert => 3
    case Seek => 2
    case Claim => 2
    case SetPtr => 1
  }

  /** The arrays still to be searched. */
  function ArraysLeft(x: Thread): nat {
    if (x.pc == Probe || x.pc == NextArr) && x.r >= 0 then x.r else 0
  }

  /** Slots from home forward to slot i. */
  function Travelled(h: nat, i: nat, size: nat): int {
    if h <= i then i - h else i + size - h
  }

  /** The slots the thread has not come to yet. */
  function SlotsLeft(st: State, t: nat): nat
    requires t < |st.threads|
  {
    var x := st.threads[t];
    if 0 <= x.r < |st.arrays| then
      var size, h := |st.arrays[x.r].keys|, st.home(t, st.arrays[x.r].lg);
      if h < size && x.i < size then size - Travelled(h, x.i, size) else 0
    else 0
  }

  /** How far the array the thread offers is above the root it has seen. */
  function SizesLeft(st: State, x: Thread): nat {
    if 0 <= x.r < |st.arrays| && st.arrays[x.r].lg <= x.s then x.s - st.arrays[x.r].lg else x.s + 1
  }

  /** The slots left, or the tries to swap in a root. */
  function StepsLeft(st: State, t: nat): nat
    requires t < |st.threads|
  {
    var x := st.threads[t];
    match x.pc
    case Probe => 1 + SlotsLeft(st, t)
    case Seek => 2 * SlotsLeft(st, t) + 1
    case Claim => 2 * SlotsLeft(st, t)
    case CasRoot => SizesLeft(st, x)
    case _ => 0
  }

  ghost predicate Nearer(st: State, st': State, t: nat)
    requires t < |st.threads| && t < |st'.threads|
  {
    var x, x' := st.threads[t], st'.threads[t];
    || Stage(x'.pc) < Stage(x.pc)
    || (Stage(x'.pc) == Stage(x.pc) && ArraysLeft(x') < ArraysLeft(x))
    || (Stage(x'.pc) == Stage(x.pc) && ArraysLeft(x') == ArraysLeft(x) && StepsLeft(st', t) < StepsLeft(st, t))
  }

  /** Going on to the next slot leaves one less. */
  lemma OneSlotLess(h: nat, i: nat, size: nat)
    requires h < size && i < size && NextSlot(i, size) != h
    ensures Travelled(h, NextSlot(i, size), size) == Travelled(h, i, size) + 1
  {
  }

  lemma ProbesOn(st: State, t: nat, created: int)
    requires Inv(st) && InBounds(st, t) && Probing(st, t)
    requires var x := st.threads[t];
             && (x.pc == Probe || x.pc == Seek || x.pc == Claim)
             && st.arrays[x.r].keys[x.i] != EMPTY && (x.pc == Probe ==> st.arrays[x.r].keys[x.i] != t)
    ensures Nearer(st, Step(st, t, created), t)
  {
    var x, st' := st.threads[t], Step(st, t, created);
    ProbingEnds(st, t);
    OneSlotLess(st.home(t, st.arrays[x.r].lg), x.i, |st.arrays[x.r].keys|);
    assert SlotsLeft(st', t) < SlotsLeft(st, t);
  }

  lemma TriesAgain(st: State, t: nat, created: int)
    requires Inv(st) && InBounds(st, t) && st.threads[t].pc == CasRoot
    ensures Nearer(st, Step(st, t, created), t)
  {
    var x := st.threads[t];
    assert ThreadOk(st, t);
    assert x.r >= 0 && x.r != st.root ==> st.arrays[x.r].lg < st.arrays[st.root].lg;
  }

  predicate InProbing(pc: Pc) {
    pc == Probe || pc == NextArr || pc == Seek || pc == Claim
  }

  lemma ProbingNearer(st: State, t: nat, created: int)
    requires Inv(st) && InBounds(st, t) && InProbing(st.threads[t].pc)
    ensures Nearer(st, Step(st, t, created), t)
  {
    var x := st.threads[t];
    assert ThreadOk(st, t);
    if x.pc == NextArr {
      assert ArrayOk(st, x.r);
    } else if st.arrays[x.r].keys[x.i] != EMPTY && !(x.pc == Probe && st.arrays[x.r].keys[x.i] == t) {
      ProbesOn(st, t, created);
    }
  }

  lemma StageDrops(st: State, t: nat, created: int)
    requires InBounds(st, t) && !InProbing(st.threads[t].pc)
    requires st.threads[t].pc != Idle && st.threads[t].pc != CasRoot
    ensures Nearer(st, Step(st, t, created), t)
  {
  }

  /** Every step of its own brings a thread nearer to the end of its lookup. */
  lemma OwnStepNearer(st: State, t: nat, created: int)
    requires Inv(st) && InBounds(st, t) && st.threads[t].pc != Idle
    ensures Nearer(st, Step(st, t, created), t)
  {
    if st.threads[t].pc == CasRoot {
      TriesAgain(st, t, created);
    } else if InProbing(st.threads[t].pc) {
      ProbingNearer(st, t, created);
    } else {
      StageDrops(st, t, created);
    }
  }

  /** No step of another thread changes the measure. */
  lemma OtherStepKeeps(st: State, u: nat, created: int, t: nat)
    requires Inv(st) && InBounds(st, u) && t < |st.threads| && t != u
    ensures t < |Step(st, u, created).threads| && Step(st, u, created).threads[t] == st.threads[t]
    ensures StepsLeft(Step(st, u, created), t) == StepsLeft(st, t)
  {
    var st', x := Step(st, u, created), st.threads[t];
    SameThreads(st, u, created);
    assert ThreadOk(st, t);
    if 0 <= x.r < |st.arrays| {
      ArraysKept(st, u, created, x.r);
    }
  }

  lemma ArraysKept(st: State, u: nat, created: int, j: nat)
    requires InBounds(st, u) && j < |st.arrays|
    ensures var st' := Step(st, u, created);
            && j < |st'.arrays| && st'.arrays[j].lg == st.arrays[j].lg && st'.home == st.home
            && |st'.arrays[j].keys| == |st.arrays[j].keys|
  {
  }

  // ---------- infinite runs ----------

  ghost predicate RunStep(run: nat -> State, moves: nat -> Move, i: nat) {
    Next(run(i), moves(i), run(i + 1))
  }

  ghost predicate IsRun(run: nat -> State, moves: nat -> Move) {
    Init(run(0)) && HomesOk(run(0)) && forall i: nat {:trigger RunStep(run, moves, i)} :: RunStep(run, moves, i)
  }

  ghost predicate StepsFrom(moves: nat -> Move, t: nat, i: nat) {
    exists j: nat {:trigger moves(j)} :: i <= j && moves(j).thread == t
  }

  /** Thread t makes infinitely many steps. */
  ghost predicate StepsForever(moves: nat -> Move, t: nat) {
    forall i: nat {:trigger StepsFrom(moves, t, i)} :: StepsFrom(moves, t, i)
  }

  lemma {:induction false} RunInv(run: nat -> State, moves: nat -> Move, i: nat)
    requires IsRun(run, moves)
    ensures Inv(run(i)) && |run(i).threads| == |run(0).threads|
    decreases i
  {
    if i == 0 {
      InitInv(run(0));
    } else {
      RunInv(run, moves, i - 1);
      assert RunStep(run, moves, i - 1);
      StepInv(run(i - 1), moves(i - 1).thread, moves(i - 1).created);
      SameThreads(run(i - 1), moves(i - 1).thread, moves(i - 1).created);
    }
  }

  /** Thread t, which steps again at time j, comes to the end of its lookup. */
  lemma {:induction false} EndsAfter(run: nat -> State, moves: nat -> Move, t: nat, i: nat, j: nat,
                                     st: State, x: Thread)
    requires IsRun(run, moves) && StepsForever(moves, t)
    requires i <= j && moves(j).thread == t
    requires st == run(i) && t < |st.threads| && x == st.threads[t]
    ensures exists e: nat :: i <= e && t < |run(e).threads| && run(e).threads[t].pc == Idle
    decreases Stage(x.pc), ArraysLeft(x), StepsLeft(st, t), j - i
  {
    if x.pc != Idle {
      RunInv(run, moves, i);
      RunInv(run, moves, i + 1);
      assert RunStep(run, moves, i);
      var st', x' := run(i + 1), run(i + 1).threads[t];
      if moves(i).thread == t {
        OwnStepNearer(st, t, moves(i).created);
        assert StepsFrom(moves, t, i + 1);
        var k: nat :| i + 1 <= k && moves(k).thread == t;
        EndsAfter(run, moves, t, i + 1, k, st', x');
      } else {
        OtherStepKeeps(st, moves(i).thread, moves(i).created, t);
        EndsAfter(run, moves, t, i + 1, j, st', x');
      }
    }
  }

  /** In every infinite run every lookup of a thread that keeps stepping ends. */
  lemma LookupEnds(run: nat -> State, moves: nat -> Move, t: nat, i: nat)
    requires IsRun(run, moves) && StepsForever(moves, t) && t < |run(0).threads|
    ensures exists e: nat :: i <= e && t < |run(e).threads| && run(e).threads[t].pc == Idle
  {
    RunInv(run, moves, i);
    assert StepsFrom(moves, t, i);
    var j: nat :| i <= j && moves(j).thread == t;
    EndsAfter(run, moves, t, i, j, run(i), run(i).threads[t]);
  }
}
