/** Operations end: a thread that keeps stepping finishes its find, insert or erase, unless the table
    keeps growing; a thread that is alone always does. */
module HashMapEnds {
  import opened Masks
  import opened HashMap
  import opened HashMapInvariant
  import opened HashMapSteps
  import opened HashMapRuns
  import opened HashMapSplit
  import HashMapGrowth

  // ---------- the measure ----------

  predicate BeforeRound(pc: Pc) {
    pc == Load || pc == CheckFlag || pc == Restart
  }

  /** A restart with the current mask is the last; a stale mask may lead to one more. */
  function Round(st: State, x: Thread): nat {
    (if x.level < st.level then 2 else 0) + if BeforeRound(x.pc) then 1 else 0
  }

  /** The steps left once the bucket is there. */
  function TailRank(x: Thread): nat {
    match x.pc
    case Search => if x.mode == Write then 6 else 10
    case Upgrade => 9
    case WaitUpgrade => 8
    case WaitWrite => 8
    case Check => if x.missed then 5 else 7
    case CheckFlag => 2
    case Restart => 1
    case Count => 4
    case Add => 3
    case Grow => 2
    case Unlink => 3
    case Uncount => 2
    case Leave => 1
    case _ => 0
  }

  function StepRank(x: Thread): nat {
    if Splitting(x) then Rank(x) else TailRank(x)
  }

  /** How far a thread is from the end of its operation, compared part by part. */
  datatype Gauge = Gauge(round: nat, phase: nat, distance: nat, rank: nat, toMove: nat)

  predicate Below(g: Gauge, h: Gauge) {
    || g.round < h.round
    || (g.round == h.round && g.phase < h.phase)
    || (g.round == h.round && g.phase == h.phase && g.distance < h.distance)
    || (g.round == h.round && g.phase == h.phase && g.distance == h.distance && g.rank < h.rank)
    || (g.round == h.round && g.phase == h.phase && g.distance == h.distance && g.rank == h.rank
        && g.toMove < h.toMove)
  }

  function GaugeOf(st: State, x: Thread): Gauge {
    Gauge(Round(st, x), Phase(x), Distance(x), StepRank(x), ToMove(st, x))
  }

  ghost predicate Nearer(st: State, x: Thread, st': State, x': Thread) {
    Below(GaugeOf(st', x'), GaugeOf(st, x))
  }

  lemma SplitNearer(st: State, m: Move)
    requires Inv(st) && InBounds(st, m.thread) && Splitting(st.threads[m.thread])
    ensures Nearer(st, st.threads[m.thread], Step(st, m), Step(st, m).threads[m.thread]) == true
  {
    OwnStepDecreases(st, m);
    SplitRound(st, m);
  }

  lemma SplitRound(st: State, m: Move)
    requires InBounds(st, m.thread) && Splitting(st.threads[m.thread])
    ensures var x, x' := st.threads[m.thread], Step(st, m).threads[m.thread];
            Round(Step(st, m), x') == Round(st, x) && (Splitting(x') || Phase(x') == 0)
  {
  }

  /** A step with the bucket there and nothing to move. */
  ghost predicate Down(st: State, x: Thread, st': State, x': Thread) {
    && !Splitting(x) && !Splitting(x')
    && (Round(st', x') < Round(st, x) || (Round(st', x') == Round(st, x) && TailRank(x') < TailRank(x)))
  }

  lemma DownIsNearer(st: State, x: Thread, st': State, x': Thread)
    requires Down(st, x, st', x')
    ensures Nearer(st, x, st', x')
  {
  }

  lemma SearchGoesOn(st: State, m: Move)
    requires InBounds(st, m.thread) && st.threads[m.thread].pc == Search
    ensures var x, x' := st.threads[m.thread], Step(st, m).threads[m.thread];
            && x'.level == x.level && x'.pending == x.pending && Step(st, m).level == st.level
            && (x'.pc == Leave || x'.pc == Unlink || (x'.pc == Check && x'.missed)
                || (x'.pc == Upgrade && x.mode != Write))
  {
    var x := st.threads[m.thread];
    assert Step(st, m) == SearchStep(st, m.thread);
  }

  lemma SearchNearer(st: State, m: Move)
    requires InBounds(st, m.thread) && st.threads[m.thread].pc == Search && st.threads[m.thread].pending.Nil?
    ensures Nearer(st, st.threads[m.thread], Step(st, m), Step(st, m).threads[m.thread]) == true
  {
    SearchGoesOn(st, m);
    DownIsNearer(st, st.threads[m.thread], Step(st, m), Step(st, m).threads[m.thread]);
  }

  lemma NoRaceGoesOn(st: State, t: nat, x: Thread)
    requires t < |st.threads| && (!x.missed ==> x.mode == Write)
    ensures var x' := NoRace(st, t, x).threads[t];
            && x'.level == x.level && x'.pending == x.pending && NoRace(st, t, x).level == st.level
            && (x'.pc == Leave || x'.pc == Count || (x'.pc == Search && x'.mode == Write && !x'.missed))
            && (x'.pc == Search ==> !x.missed)
  {
  }

  lemma CheckGoesOn(st: State, m: Move)
    requires InBounds(st, m.thread) && st.threads[m.thread].pc == Check
    requires !st.threads[m.thread].missed ==> st.threads[m.thread].mode == Write
    ensures var x, st' := st.threads[m.thread], Step(st, m);
            || st' == NoRace(st, m.thread, x.(level := st.level))
            || (x.level < st.level && st'.level == st.level && !Splitting(st'.threads[m.thread])
                && st'.threads[m.thread].pc == CheckFlag && st'.threads[m.thread].level == st.level)
  {
    var x := st.threads[m.thread];
    assert Step(st, m) == CheckStep(st, m.thread);
  }

  lemma FlagGoesOn(st: State, m: Move)
    requires InBounds(st, m.thread) && st.threads[m.thread].pc == CheckFlag
    ensures var x, st' := st.threads[m.thread], Step(st, m);
            || st' == NoRace(st, m.thread, x)
            || (st'.level == st.level && !Splitting(st'.threads[m.thread])
                && st'.threads[m.thread].pc == Restart && st'.threads[m.thread].level == x.level)
  {
  }

  lemma CheckNearer(st: State, m: Move)
    requires InBounds(st, m.thread) && st.threads[m.thread].pending.Nil? && st.threads[m.thread].pc == Check
    requires !st.threads[m.thread].missed ==> st.threads[m.thread].mode == Write
    ensures Nearer(st, st.threads[m.thread], Step(st, m), Step(st, m).threads[m.thread]) == true
  {
    var x := st.threads[m.thread];
    CheckGoesOn(st, m);
    NoRaceGoesOn(st, m.thread, x.(level := st.level));
    DownIsNearer(st, x, Step(st, m), Step(st, m).threads[m.thread]);
  }

  lemma FlagNearer(st: State, m: Move)
    requires InBounds(st, m.thread) && st.threads[m.thread].pending.Nil? && st.threads[m.thread].pc == CheckFlag
    requires !st.threads[m.thread].missed ==> st.threads[m.thread].mode == Write
    ensures Nearer(st, st.threads[m.thread], Step(st, m), Step(st, m).threads[m.thread]) == true
  {
    var x := st.threads[m.thread];
    FlagGoesOn(st, m);
    NoRaceGoesOn(st, m.thread, x);
    DownIsNearer(st, x, Step(st, m), Step(st, m).threads[m.thread]);
  }

  lemma WaitNearer(st: State, m: Move)
    requires InBounds(st, m.thread) && st.threads[m.thread].pending.Nil?
    requires var x := st.threads[m.thread];
             || x.pc == Upgrade
             || (x.pc == WaitUpgrade && x.missed == (x.op == Insert))
             || (x.pc == WaitWrite && x.missed == (x.op == Insert))
    ensures Nearer(st, st.threads[m.thread], Step(st, m), Step(st, m).threads[m.thread]) == true
  {
  }

  lemma BeginNearer(st: State, m: Move)
    requires InBounds(st, m.thread)
    requires st.threads[m.thread].pc == Load || st.threads[m.thread].pc == Restart
    ensures Nearer(st, st.threads[m.thread], Step(st, m), Step(st, m).threads[m.thread]) == true
  {
    assert Round(Step(st, m), Step(st, m).threads[m.thread]) < Round(st, st.threads[m.thread]);
  }

  predicate Plain(pc: Pc) {
    pc == Count || pc == Add || pc == Grow || pc == Unlink || pc == Uncount || pc == Leave
  }

  predicate GoesOn(st: State, x: Thread, st': State, x': Thread) {
    && x'.pending == x.pending && x'.level == x.level && st'.level == st.level
    && (x'.pc == Idle || (TailRank(x') < TailRank(x) && (x'.pc == Enable || Plain(x'.pc))))
  }

  lemma LinkGoesOn(st: State, m: Move)
    requires InBounds(st, m.thread) && (st.threads[m.thread].pc == Add || st.threads[m.thread].pc == Unlink)
    ensures GoesOn(st, st.threads[m.thread], Step(st, m), Step(st, m).threads[m.thread]) == true
  {
  }

  lemma PlainGoesOn(st: State, m: Move)
    requires InBounds(st, m.thread) && Plain(st.threads[m.thread].pc)
    ensures GoesOn(st, st.threads[m.thread], Step(st, m), Step(st, m).threads[m.thread]) == true
  {
    if st.threads[m.thread].pc == Add || st.threads[m.thread].pc == Unlink {
      LinkGoesOn(st, m);
    }
  }

  /** What is known of a step whose thread has its bucket and keeps its mask. */
  lemma TailDown(st: State, x: Thread, st': State, x': Thread)
    requires x.pending.Nil? && Plain(x.pc) && GoesOn(st, x, st', x') && x'.pc != Idle
    ensures Nearer(st, x, st', x') == true
  {
    DownIsNearer(st, x, st', x');
  }

  lemma PlainNearer(st: State, m: Move)
    requires InBounds(st, m.thread) && st.threads[m.thread].pending.Nil? && Plain(st.threads[m.thread].pc)
    ensures var x' := Step(st, m).threads[m.thread];
            x'.pc == Idle || Nearer(st, st.threads[m.thread], Step(st, m), x')
  {
    PlainGoesOn(st, m);
    if Step(st, m).threads[m.thread].pc != Idle {
      TailDown(st, st.threads[m.thread], Step(st, m), Step(st, m).threads[m.thread]);
    }
  }

  /** Every step of its own brings a thread nearer to the end of its operation. */
  lemma OwnStepNearer(st: State, m: Move)
    requires Inv(st) && InBounds(st, m.thread) && st.threads[m.thread].pc != Idle
    ensures var x' := Step(st, m).threads[m.thread];
            x'.pc == Idle || Nearer(st, st.threads[m.thread], Step(st, m), x')
  {
    var x := st.threads[m.thread];
    Own(st, m.thread);
    if Splitting(x) {
      SplitNearer(st, m);
    } else if x.pc == Search {
      SearchNearer(st, m);
    } else if x.pc == Check {
      CheckNearer(st, m);
    } else if x.pc == CheckFlag {
      FlagNearer(st, m);
    } else if x.pc == Upgrade || x.pc == WaitUpgrade || x.pc == WaitWrite {
      WaitNearer(st, m);
    } else if x.pc == Load || x.pc == Restart {
      BeginNearer(st, m);
    } else if x.pc != Enable {
      PlainNearer(st, m);
    }
  }

  // ---------- infinite runs ----------

  /** The step of the run at time i makes the table grow. */
  predicate Grows(run: nat -> State, i: nat) {
    run(i + 1).level != run(i).level
  }

  ghost predicate GrowsFrom(run: nat -> State, i: nat) {
    exists j: nat :: i <= j && Grows(run, j)
  }

  ghost predicate GrowsForever(run: nat -> State) {
    forall i: nat {:trigger GrowsFrom(run, i)} :: GrowsFrom(run, i)
  }

  /** One step of the run, as thread t inside an operation sees it while the table does not grow. */
  lemma RunNearer(run: nat -> State, acts: nat -> Action, t: nat, i: nat)
    requires IsRun(run, acts) && t < |run(0).threads| && !Grows(run, i)
    ensures t < |run(i).threads| && t < |run(i + 1).threads|
    ensures run(i).threads[t].pc != Idle ==>
              var x, x' := run(i).threads[t], run(i + 1).threads[t];
              if Turns(acts, t, i) then x'.pc == Idle || Nearer(run(i), x, run(i + 1), x')
              else x' == x && GaugeOf(run(i + 1), x) == GaugeOf(run(i), x)
  {
    RunInv(run, acts, i);
    RunInv(run, acts, i + 1);
    assert RunStep(run, acts, i);
    if run(i).threads[t].pc != Idle {
      assert acts(i).Turn?;
      if Turns(acts, t, i) {
        OwnStepNearer(run(i), acts(i).move);
      } else {
        OtherStepKeeps(run(i), acts(i).move, t);
      }
    }
  }

  predicate OutsideAt(run: nat -> State, t: nat, i: nat) {
    t < |run(i).threads| && run(i).threads[t].pc == Idle
  }

  /** While the table does not grow, thread t, which steps again at time j, comes to its end. */
  lemma {:induction false} EndsAfter(run: nat -> State, acts: nat -> Action, t: nat, i: nat, j: nat, g: Gauge)
    requires IsRun(run, acts) && TurnsForever(acts, t) && t < |run(0).threads|
    requires i <= j && Turns(acts, t, j) && !GrowsFrom(run, i)
    requires t < |run(i).threads| && g == GaugeOf(run(i), run(i).threads[t])
    ensures exists e: nat :: i <= e && OutsideAt(run, t, e)
    decreases g.round, g.phase, g.distance, g.rank, g.toMove, j - i
  {
    assert !Grows(run, i) && !GrowsFrom(run, i + 1);
    RunNearer(run, acts, t, i);
    if OutsideAt(run, t, i) || OutsideAt(run, t, i + 1) {
      return;
    }
    var g' := GaugeOf(run(i + 1), run(i + 1).threads[t]);
    if Turns(acts, t, i) {
      assert Below(g', g);
      assert TurnsFrom(acts, t, i + 1);
      var k: nat :| i + 1 <= k && Turns(acts, t, k);
      EndsAfter(run, acts, t, i + 1, k, g');
    } else {
      assert g' == g;
      EndsAfter(run, acts, t, i + 1, j, g');
    }
  }

  /** In every infinite run, a thread that keeps stepping ends its operation, unless the table grows
      again and again. */
  lemma OperationEnds(run: nat -> State, acts: nat -> Action, t: nat, i: nat)
    requires IsRun(run, acts) && TurnsForever(acts, t) && t < |run(0).threads|
    ensures GrowsForever(run) || exists e: nat :: i <= e && OutsideAt(run, t, e)
  {
    if !GrowsForever(run) {
      var j: nat :| !GrowsFrom(run, j);
      var k := if i < j then j else i;
      assert !GrowsFrom(run, k);
      assert TurnsFrom(acts, t, k);
      var l: nat :| k <= l && Turns(acts, t, l);
      RunInv(run, acts, k);
      EndsAfter(run, acts, t, k, l, GaugeOf(run(k), run(k).threads[t]));
    }
  }

  /** A thread that is alone ends its operation. */
  lemma OperationEndsAlone(run: nat -> State, acts: nat -> Action, t: nat, i: nat)
    requires IsRun(run, acts) && t < |run(0).threads|
    requires forall j: nat {:trigger Turns(acts, t, j)} :: i <= j ==> Turns(acts, t, j)
    ensures exists e: nat :: i <= e && OutsideAt(run, t, e)
  {
    forall j: nat ensures TurnsFrom(acts, t, j) {
      assert Turns(acts, t, i + j);
    }
    OperationEnds(run, acts, t, i);
    if GrowsForever(run) {
      assert GrowsFrom(run, i);
      var j: nat :| i <= j && Grows(run, j);
      assert Turns(acts, t, j) && RunStep(run, acts, j);
      RunInv(run, acts, j);
      if run(j).threads[t].pc != Enable {
        HashMapGrowth.OnlyEnableGrows(run(j), acts(j).move);
      }
      assert OutsideAt(run, t, j + 1);
    }
  }
}
