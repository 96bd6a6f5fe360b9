/** What the threads of the concurrent hash map are asked to do: the operations in the log, and the
    results returned, are those of the moves with which threads left the outside. */
module HashMapTraces {
  import opened Masks
  import opened HashMap
  import opened HashMapInvariant
  import opened HashMapSteps
  import opened HashMapRuns

  /** A run with all its states: state i is the one before action i. */
  ghost predicate IsTrace(states: seq<State>, acts: seq<Action>) {
    && |states| == |acts| + 1 && Init(states[0])
    && forall i {:trigger acts[i]} :: 0 <= i < |acts| ==> Next(states[i], acts[i], states[i + 1])
  }

  lemma TraceAppend(states: seq<State>, acts: seq<Action>, a: Action, st: State)
    requires IsTrace(states, acts) && Next(states[|acts|], a, st)
    ensures IsTrace(states + [st], acts + [a])
  {
    forall i | 0 <= i < |acts + [a]| ensures Next((states + [st])[i], (acts + [a])[i], (states + [st])[i + 1]) {
      if i < |acts| {
        assert (acts + [a])[i] == acts[i];
      }
    }
  }

  /** The state before the last action of a run. */
  lemma LastBefore(init: State, acts: seq<Action>, st: State) returns (mid: State)
    requires Reaches(init, acts, st) && acts != []
    ensures Reaches(init, acts[..|acts| - 1], mid) && Next(mid, acts[|acts| - 1], st)
  {
    mid :| Reaches(init, acts[..|acts| - 1], mid) && Next(mid, acts[|acts| - 1], st);
  }

  lemma {:induction false} ReachedByTrace(init: State, acts: seq<Action>, st: State) returns (states: seq<State>)
    requires Reaches(init, acts, st)
    ensures IsTrace(states, acts) && states[0] == init && states[|acts|] == st
    decreases |acts|
  {
    if acts == [] {
      states := [init];
    } else {
      var a := acts[|acts| - 1];
      var mid := LastBefore(init, acts, st);
      var before := ReachedByTrace(init, acts[..|acts| - 1], mid);
      TraceAppend(before, acts[..|acts| - 1], a, st);
      assert acts == acts[..|acts| - 1] + [a];
      states := before + [st];
    }
  }

  lemma {:induction false} TraceReaches(states: seq<State>, acts: seq<Action>, n: nat)
    requires IsTrace(states, acts) && n <= |acts|
    ensures Reaches(states[0], acts[..n], states[n])
    decreases n
  {
    if n > 0 {
      TraceReaches(states, acts, n - 1);
      assert acts[..n][..n - 1] == acts[..n - 1];
      assert Next(states[n - 1], acts[n - 1], states[n]);
    }
  }

  lemma TraceOk(states: seq<State>, acts: seq<Action>, n: nat)
    requires IsTrace(states, acts) && n <= |acts|
    ensures Inv(states[n]) && LogOk(states[n]) && SizeOk(states[n]) && Untouched(states[0], states[n])
  {
    TraceReaches(states, acts, n);
    ReachedOk(states[0], acts[..n], states[n]);
  }

  // ---------- starts ----------

  /** Action i is the move with which thread t starts an operation. */
  ghost predicate Starts(states: seq<State>, acts: seq<Action>, t: nat, i: nat)
    requires |states| == |acts| + 1
  {
    && i < |acts| && acts[i].Turn? && acts[i].move.thread == t
    && t < |states[i].threads| && states[i].threads[t].pc == Idle
  }

  /** The last operation of thread t before time n starts with action i. */
  ghost predicate LastStart(states: seq<State>, acts: seq<Action>, t: nat, i: nat, n: nat)
    requires |states| == |acts| + 1
  {
    i < n && Starts(states, acts, t, i) && forall j: nat :: i < j < n ==> !Starts(states, acts, t, j)
  }

  /** At time n thread t works, or has last worked, on what action i asked for. */
  ghost predicate Serves(states: seq<State>, acts: seq<Action>, t: nat, i: nat, n: nat)
    requires |states| == |acts| + 1 && n <= |acts| && t < |states[n].threads|
  {
    && LastStart(states, acts, t, i, n)
    && var x := states[n].threads[t];
       x.op == acts[i].move.op && x.key == acts[i].move.key && x.since == |states[i].log|
  }

  ghost predicate Started(states: seq<State>, acts: seq<Action>, t: nat, n: nat)
    requires |states| == |acts| + 1
  {
    exists i: nat :: i < n && Starts(states, acts, t, i)
  }

  predicate SameOperation(x: Thread, x': Thread) {
    x'.op == x.op && x'.key == x.key && x'.since == x.since
  }

  lemma SearchKeepsOperation(st: State, m: Move)
    requires InBounds(st, m.thread) && st.threads[m.thread].pc == Search
    ensures SameOperation(st.threads[m.thread], SearchStep(st, m.thread).threads[m.thread]) == true
  {
  }

  lemma CheckKeepsOperation(st: State, m: Move)
    requires InBounds(st, m.thread) && (st.threads[m.thread].pc == Check || st.threads[m.thread].pc == CheckFlag)
    ensures SameOperation(st.threads[m.thread], Step(st, m).threads[m.thread]) == true
  {
  }

  predicate Links(pc: Pc) {
    pc == Scan || pc == Add || pc == Unlink
  }

  lemma LinkKeepsOperation(st: State, m: Move)
    requires InBounds(st, m.thread) && Links(st.threads[m.thread].pc)
    ensures SameOperation(st.threads[m.thread], Step(st, m).threads[m.thread]) == true
  {
  }

  lemma OtherKeepsOperation(st: State, m: Move)
    requires InBounds(st, m.thread) && st.threads[m.thread].pc != Idle && !MaySearch(st.threads[m.thread].pc)
    ensures SameOperation(st.threads[m.thread], Step(st, m).threads[m.thread]) == true
  {
    if Links(st.threads[m.thread].pc) {
      LinkKeepsOperation(st, m);
    }
  }

  /** A thread keeps its operation while inside. */
  lemma KeepsOperation(st: State, m: Move)
    requires InBounds(st, m.thread) && st.threads[m.thread].pc != Idle
    ensures SameOperation(st.threads[m.thread], Step(st, m).threads[m.thread]) == true
  {
    if st.threads[m.thread].pc == Search {
      SearchKeepsOperation(st, m);
    } else if MaySearch(st.threads[m.thread].pc) {
      CheckKeepsOperation(st, m);
    } else {
      OtherKeepsOperation(st, m);
    }
  }

  lemma ServesNext(states: seq<State>, acts: seq<Action>, t: nat, i: nat, n: nat)
    requires IsTrace(states, acts) && n < |acts| && t < |states[n].threads| && Serves(states, acts, t, i, n)
    requires !Starts(states, acts, t, n)
    ensures t < |states[n + 1].threads| && Serves(states, acts, t, i, n + 1)
  {
    assert Next(states[n], acts[n], states[n + 1]);
    if acts[n].Turn? {
      SameThreads(states[n], acts[n].move);
      if acts[n].move.thread == t {
        KeepsOperation(states[n], acts[n].move);
      }
    }
  }

  lemma StartServes(states: seq<State>, acts: seq<Action>, t: nat, n: nat)
    requires IsTrace(states, acts) && Starts(states, acts, t, n)
    ensures t < |states[n + 1].threads| && Serves(states, acts, t, n, n + 1)
  {
    assert Next(states[n], acts[n], states[n + 1]);
  }

  /** A thread inside works on the operation and the key of the move with which it last left the
      outside, and one that is back has worked on those. */
  lemma {:induction false} WorksOnWhatIsAsked(states: seq<State>, acts: seq<Action>, t: nat, n: nat)
    requires IsTrace(states, acts) && n <= |acts| && t < |states[n].threads|
    requires states[n].threads[t].pc != Idle || Started(states, acts, t, n)
    ensures exists i: nat :: Serves(states, acts, t, i, n)
    decreases n
  {
    if n > 0 {
      assert Next(states[n - 1], acts[n - 1], states[n]);
      if Starts(states, acts, t, n - 1) {
        StartServes(states, acts, t, n - 1);
      } else {
        if acts[n - 1].Turn? {
          SameThreads(states[n - 1], acts[n - 1].move);
        }
        WorksOnWhatIsAsked(states, acts, t, n - 1);
        var i: nat :| Serves(states, acts, t, i, n - 1);
        ServesNext(states, acts, t, i, n - 1);
      }
    }
  }

  // ---------- the log ----------

  /** Entry p of the log at time n was made by action d, a step of the entry's thread inside its
      operation, and says what action i, the last with which that thread left the outside, asked for. */
  ghost predicate EntryFrom(states: seq<State>, acts: seq<Action>, n: nat, p: nat, d: nat, i: nat)
    requires |states| == |acts| + 1 && n <= |acts| && p < |states[n].log|
  {
    var e := states[n].log[p];
    && d < n && acts[d].Turn? && acts[d].move.thread == e.thread
    && states[d].log == states[n].log[..p] && states[d + 1].log == states[d].log + [e]
    && LastStart(states, acts, e.thread, i, d) && e.op == acts[i].move.op && e.key == acts[i].move.key
  }

  lemma LogNext(st: State, m: Move)
    requires InBounds(st, m.thread)
    ensures var x, st' := st.threads[m.thread], Step(st, m);
            || st'.log == st.log
            || (x.pc != Idle && exists r: bool {:trigger Event(m.thread, x.op, x.key, r)} ::
                  st'.log == st.log + [Event(m.thread, x.op, x.key, r)])
  {
    var x, st' := st.threads[m.thread], Step(st, m);
    if !MayDecide(x.pc) {
      SameLog(st, m);
    } else if st'.log != st.log {
      var r := st'.log[|st.log|].result;
      assert st'.log == st.log + [Event(m.thread, x.op, x.key, r)];
    }
  }

  lemma OldEntry(states: seq<State>, acts: seq<Action>, n: nat, p: nat, d: nat, i: nat)
    requires IsTrace(states, acts) && n < |acts| && p < |states[n].log| && EntryFrom(states, acts, n, p, d, i)
    ensures p < |states[n + 1].log| && EntryFrom(states, acts, n + 1, p, d, i)
  {
    assert Next(states[n], acts[n], states[n + 1]);
    if acts[n].Turn? {
      LogNext(states[n], acts[n].move);
    }
    assert states[n + 1].log[..p] == states[n].log[..p];
  }

  lemma NewEntry(states: seq<State>, acts: seq<Action>, n: nat, p: nat) returns (i: nat)
    requires IsTrace(states, acts) && n < |acts| && |states[n].log| <= p < |states[n + 1].log|
    ensures EntryFrom(states, acts, n + 1, p, n, i)
  {
    assert Next(states[n], acts[n], states[n + 1]);
    var m := acts[n].move;
    LogNext(states[n], m);
    WorksOnWhatIsAsked(states, acts, m.thread, n);
    i :| Serves(states, acts, m.thread, i, n);
    assert states[n + 1].log[..p] == states[n].log;
  }

  /** Every entry of the log is about an operation that was asked for, and is made while it is under
      way. */
  lemma {:induction false} LogsWhatIsAsked(states: seq<State>, acts: seq<Action>, n: nat, p: nat)
    requires IsTrace(states, acts) && n <= |acts| && p < |states[n].log|
    ensures exists d: nat, i: nat :: EntryFrom(states, acts, n, p, d, i)
    decreases n
  {
    assert n > 0;
    if p < |states[n - 1].log| {
      LogsWhatIsAsked(states, acts, n - 1, p);
      var d: nat, i: nat :| EntryFrom(states, acts, n - 1, p, d, i);
      OldEntry(states, acts, n - 1, p, d, i);
    } else {
      var i := NewEntry(states, acts, n - 1, p);
    }
  }

  /** A thread outside that has started an operation returned, for the operation and the key it was
      last asked for, the result of an entry of the log made since it was asked, its only one. */
  lemma ReturnsWhatIsAsked(states: seq<State>, acts: seq<Action>, t: nat, n: nat)
    requires IsTrace(states, acts) && n <= |acts| && t < |states[n].threads|
    requires states[n].threads[t].pc == Idle && Started(states, acts, t, n)
    ensures exists i: nat, p: nat ::
              && LastStart(states, acts, t, i, n) && |states[i].log| <= p < |states[n].log|
              && states[n].log[p] == Event(t, acts[i].move.op, acts[i].move.key, states[n].threads[t].result)
              && forall q :: |states[i].log| <= q < |states[n].log| && states[n].log[q].thread == t ==> q == p
  {
    WorksOnWhatIsAsked(states, acts, t, n);
    var i: nat :| Serves(states, acts, t, i, n);
    TraceOk(states, acts, n);
    StartedHasEntry(states, acts, t, n);
    var x := states[n].threads[t];
    var p: nat := x.mark;
    assert states[n].log[p] == Event(t, acts[i].move.op, acts[i].move.key, x.result);
  }

  lemma {:induction false} StartedHasEntry(states: seq<State>, acts: seq<Action>, t: nat, n: nat)
    requires IsTrace(states, acts) && n <= |acts| && t < |states[n].threads|
    requires states[n].threads[t].pc == Idle && Started(states, acts, t, n)
    ensures Recorded(states[n], t, states[n].threads[t]) && Once(states[n], t, states[n].threads[t])
    decreases n
  {
    var st, st' := states[n - 1], states[n];
    assert Next(st, acts[n - 1], st');
    TraceOk(states, acts, n - 1);
    TraceOk(states, acts, n);
    if acts[n - 1].Turn? {
      SameThreads(st, acts[n - 1].move);
    }
    assert ThreadOk(st', t);
    if st.threads[t].pc == Idle {
      StartedHasEntry(states, acts, t, n - 1);
    } else {
      OnlyDecidedReturn(st, acts[n - 1].move);
    }
  }
}
