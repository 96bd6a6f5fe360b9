/** How many buckets the concurrent hash map has: a segment doubles the table, is added only when the
    map was full, and operations that do not overlap never leave it full. */
module HashMapGrowth {
  import opened Masks
  import opened HashMap
  import opened HashMapInvariant
  import opened HashMapSteps
  import opened HashMapRuns
  import opened HashMapTraces

  /** Publishing a segment makes 256 buckets of fewer, and otherwise twice as many; all buckets there
      were stay as they are, and the new ones wait to be split off. */
  lemma EnableDoubles(st: State, m: Move)
    requires Inv(st) && InBounds(st, m.thread) && st.threads[m.thread].pc == Enable
    ensures var bs, bs' := st.buckets, Step(st, m).buckets;
            && |bs'| == (if |bs| < 256 then 256 else 2 * |bs|) && |bs'| == Pow2(Step(st, m).level)
            && bs <= bs' && forall b :: |bs| <= b < |bs'| ==> bs'[b] == RehashReq
  {
    NextSize(st.level);
  }

  // ---------- growth needs a full map ----------

  predicate Sized(x: Thread) {
    x.pc == Add || x.pc == Grow || x.grow
  }

  /** The thread has seen my_size reach sz, and grows only if that is as much as the mask. */
  ghost predicate SizeSeen(states: seq<State>, n: nat, x: Thread) {
    && (exists i: nat {:trigger states[i]} :: i <= n && i < |states| && states[i].size == x.sz)
    && (x.grow ==> x.sz >= Pow2(x.level) - 1)
  }

  /** Where the number comes from that the thread compares with the mask. */
  ghost predicate SizedStep(st: State, m: Move)
    requires InBounds(st, m.thread)
  {
    var x, x' := st.threads[m.thread], Step(st, m).threads[m.thread];
    if x.pc == Count then x'.sz == Step(st, m).size && !x'.grow
    else Sized(x) && x'.sz == x.sz && (x'.grow ==> x'.level == x.level && (x.grow || x.sz >= Pow2(x.level) - 1))
  }

  predicate NearGrowth(pc: Pc) {
    pc == Count || pc == Add || pc == Grow || pc == Leave || pc == Enable
  }

  lemma SearchNotSized(st: State, m: Move)
    requires InBounds(st, m.thread) && MaySearch(st.threads[m.thread].pc) && !st.threads[m.thread].grow
    ensures !Sized(Step(st, m).threads[m.thread]) == true
  {
    CheckLeadsTo(st, m);
    SearchKeepsGrow(st, m);
  }

  lemma OtherNotSized(st: State, m: Move)
    requires InBounds(st, m.thread) && !st.threads[m.thread].grow
    requires !NearGrowth(st.threads[m.thread].pc) && !MaySearch(st.threads[m.thread].pc)
    ensures !Sized(Step(st, m).threads[m.thread]) == true
  {
  }

  lemma SizedFrom(st: State, m: Move)
    requires InBounds(st, m.thread) && Sized(Step(st, m).threads[m.thread]) && NearGrowth(st.threads[m.thread].pc)
    requires st.threads[m.thread].grow ==> st.threads[m.thread].pc == Leave || st.threads[m.thread].pc == Enable
    ensures SizedStep(st, m) == true
  {
  }

  lemma SearchKeepsGrow(st: State, m: Move)
    requires InBounds(st, m.thread) && MaySearch(st.threads[m.thread].pc)
    ensures Step(st, m).threads[m.thread].grow == st.threads[m.thread].grow
  {
    if st.threads[m.thread].pc == Search {
      assert Step(st, m) == SearchStep(st, m.thread);
    }
  }

  lemma SizedComes(st: State, m: Move)
    requires GrowOk(st) && InBounds(st, m.thread) && Sized(Step(st, m).threads[m.thread])
    ensures SizedStep(st, m) == true
  {
    assert st.threads[m.thread].grow ==> st.threads[m.thread].pc == Leave || st.threads[m.thread].pc == Enable;
    if NearGrowth(st.threads[m.thread].pc) {
      SizedFrom(st, m);
    } else if MaySearch(st.threads[m.thread].pc) {
      SearchNotSized(st, m);
    } else {
      OtherNotSized(st, m);
    }
  }

  lemma {:induction false} SizedSaw(states: seq<State>, acts: seq<Action>, t: nat, n: nat)
    requires IsTrace(states, acts) && n <= |acts| && t < |states[n].threads| && Sized(states[n].threads[t])
    ensures SizeSeen(states, n, states[n].threads[t])
    decreases n
  {
    assert n > 0;
    var st, st' := states[n - 1], states[n];
    assert Next(st, acts[n - 1], st');
    TraceOk(states, acts, n - 1);
    if acts[n - 1].Turn? {
      var m := acts[n - 1].move;
      assert m.thread != t ==> st'.threads[t] == st.threads[t] by {
        SameThreads(st, m);
      }
      if m.thread == t {
        assert SizedStep(st, m) by {
          SizedComes(st, m);
        }
      }
      if m.thread != t || st.threads[t].pc != Count {
        SizedSaw(states, acts, t, n - 1);
      } else {
        assert states[n].size == st'.threads[t].sz;
      }
    } else {
      SizedSaw(states, acts, t, n - 1);
    }
  }

  /** A thread adds a segment to a table only after the map has had as many nodes as the mask. */
  lemma GrowsOnlyWhenFull(states: seq<State>, acts: seq<Action>, d: nat)
    requires IsTrace(states, acts) && d < |acts| && acts[d].Turn?
    requires |states[d + 1].buckets| != |states[d].buckets|
    ensures |states[d + 1].buckets| == if |states[d].buckets| < 256 then 256 else 2 * |states[d].buckets|
    ensures exists i: nat {:trigger states[i]} :: i <= d && states[i].size >= |states[d].buckets| - 1
  {
    var st, m := states[d], acts[d].move;
    assert Next(st, acts[d], states[d + 1]);
    TraceOk(states, acts, d);
    var x := st.threads[m.thread];
    if x.pc == Enable {
      EnableDoubles(st, m);
      Own(st, m.thread);
      SizedSaw(states, acts, m.thread, d);
      var i: nat :| i <= d && i < |states| && states[i].size == x.sz;
    } else {
      OnlyEnableGrows(st, m);
    }
  }

  lemma OnlyEnableGrows(st: State, m: Move)
    requires InBounds(st, m.thread) && st.threads[m.thread].pc != Enable
    ensures |Step(st, m).buckets| == |st.buckets| && Step(st, m).level == st.level
  {
    var x := st.threads[m.thread];
    if !Touches(x.pc) && !Moves(st, x) {
      SameTable(st, m);
    }
  }

  // ---------- a full map grows ----------

  ghost predicate Calm(st: State) {
    !st.growing && st.size + 1 < |st.buckets|
  }

  /** What the only thread inside keeps. */
  ghost predicate AloneOk(st: State, x: Thread) {
    if x.pc == Idle || x.pc == Load then Calm(st)
    else
      && x.level == st.level && st.growing == x.grow
      && st.size + (if Sized(x) then 0 else 1) < |st.buckets|
      && (x.pc == Add || x.pc == Grow ==> x.sz == st.size)
  }

  ghost predicate OnlyInside(st: State, t: nat) {
    forall u: nat {:trigger st.threads[u]} :: u < |st.threads| && u != t ==> st.threads[u].pc == Idle
  }

  /** The operations of the run do not overlap. */
  ghost predicate OneByOne(states: seq<State>) {
    forall i: nat, t: nat {:trigger states[i].threads[t]} ::
      i < |states| && t < |states[i].threads| && states[i].threads[t].pc != Idle ==> OnlyInside(states[i], t)
  }

  lemma SearchAlone(st: State, m: Move)
    requires InBounds(st, m.thread) && MaySearch(st.threads[m.thread].pc) && AloneOk(st, st.threads[m.thread])
    requires !st.threads[m.thread].grow
    ensures AloneOk(Step(st, m), Step(st, m).threads[m.thread]) == true
  {
    var x, st' := st.threads[m.thread], Step(st, m);
    OnlyEnableGrows(st, m);
    SizeDelta(st, m);
    SearchKeepsGrow(st, m);
    CheckLeadsTo(st, m);
    SearchKeepsLevel(st, m);
  }

  lemma SearchKeepsLevel(st: State, m: Move)
    requires InBounds(st, m.thread) && MaySearch(st.threads[m.thread].pc)
    requires st.threads[m.thread].level == st.level
    ensures Step(st, m).threads[m.thread].level == st.level && Step(st, m).growing == st.growing
  {
  }

  lemma StepAlone(st: State, m: Move)
    requires Inv(st) && InBounds(st, m.thread) && AloneOk(st, st.threads[m.thread])
    ensures AloneOk(Step(st, m), Step(st, m).threads[m.thread]) == true
  {
    var x := st.threads[m.thread];
    Own(st, m.thread);
    assert x.grow ==> x.pc == Leave || x.pc == Enable;
    if MaySearch(x.pc) {
      SearchAlone(st, m);
    } else if x.pc == Enable {
      EnableDoubles(st, m);
    } else {
      OnlyEnableGrows(st, m);
      OtherAlone(st, m);
    }
  }

  lemma OtherAlone(st: State, m: Move)
    requires InBounds(st, m.thread) && AloneOk(st, st.threads[m.thread])
    requires var pc := st.threads[m.thread].pc; !MaySearch(pc) && pc != Enable
    requires st.threads[m.thread].grow ==> st.threads[m.thread].pc == Leave
    requires |st.buckets| == Pow2(st.level) && |Step(st, m).buckets| == |st.buckets|
    requires Step(st, m).level == st.level
    ensures AloneOk(Step(st, m), Step(st, m).threads[m.thread]) == true
  {
  }

  lemma {:induction false} OneByOneOk(states: seq<State>, acts: seq<Action>, n: nat)
    requires IsTrace(states, acts) && n <= |acts| && OneByOne(states)
    ensures Quiescent(states[n]) ==> Calm(states[n])
    ensures forall t: nat {:trigger states[n].threads[t]} ::
              t < |states[n].threads| && states[n].threads[t].pc != Idle ==> AloneOk(states[n], states[n].threads[t])
    decreases n
  {
    if n > 0 {
      var st, st' := states[n - 1], states[n];
      OneByOneOk(states, acts, n - 1);
      assert Next(st, acts[n - 1], st');
      TraceOk(states, acts, n - 1);
      if acts[n - 1].Turn? {
        var m := acts[n - 1].move;
        SameThreads(st, m);
        assert OnlyInside(st, m.thread) by {
          assert states[n - 1].threads[m.thread].pc != Idle || states[n].threads[m.thread].pc != Idle;
          assert OnlyInside(st', m.thread) ==> OnlyInside(st, m.thread) by {
            forall u: nat | u < |st.threads| && u != m.thread ensures st'.threads[u] == st.threads[u] {
            }
          }
        }
        assert st.threads[m.thread].pc == Idle ==> Quiescent(st);
        StepAlone(st, m);
        forall u: nat | u < |st.threads| && u != m.thread ensures st'.threads[u].pc == Idle {
          assert st'.threads[u] == st.threads[u];
        }
      }
    }
  }

  /** Operations that do not overlap leave the map with fewer nodes than the mask: a full table has
      grown when the insertion that filled it returns. */
  lemma NeverLeftFull(states: seq<State>, acts: seq<Action>, n: nat)
    requires IsTrace(states, acts) && n <= |acts| && OneByOne(states) && Quiescent(states[n])
    ensures states[n].size < |states[n].buckets| - 1
  {
    OneByOneOk(states, acts, n);
  }
}
