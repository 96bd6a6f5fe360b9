/** What the lookups of the thread-keyed table return, told by the moves of the run: the object made at
    the one move with which a thread created it. And lookups end. */
module ThreadTableTraces {
  import opened Masks
  import opened ThreadTable

  /** A run with all its states: state i is the one before move i. */
  ghost predicate IsTrace(states: seq<State>, moves: seq<Move>) {
    && |states| == |moves| + 1 && Init(states[0]) && HomesOk(states[0])
    && forall i {:trigger moves[i]} :: 0 <= i < |moves| ==> Next(states[i], moves[i], states[i + 1])
  }

  lemma TraceAppend(states: seq<State>, moves: seq<Move>, m: Move, st: State)
    requires IsTrace(states, moves) && Next(states[|moves|], m, st)
    ensures IsTrace(states + [st], moves + [m])
  {
    forall i | 0 <= i < |moves + [m]| ensures Next((states + [st])[i], (moves + [m])[i], (states + [st])[i + 1]) {
      if i < |moves| {
        assert (moves + [m])[i] == moves[i];
      }
    }
  }

  lemma {:induction false} ReachedByTrace(init: State, moves: seq<Move>, st: State) returns (states: seq<State>)
    requires Reaches(init, moves, st)
    ensures IsTrace(states, moves) && states[0] == init && states[|moves|] == st
    decreases |moves|
  {
    if moves == [] {
      states := [init];
    } else {
      var n := |moves| - 1;
      var mid :| Reaches(init, moves[..n], mid) && Next(mid, moves[n], st);
      var before := ReachedByTrace(init, moves[..n], mid);
      states := before + [st];
      TraceAppend(before, moves[..n], moves[n], st);
      assert moves == moves[..n] + [moves[n]];
    }
  }

  lemma {:induction false} TraceInv(states: seq<State>, moves: seq<Move>, n: nat)
    requires IsTrace(states, moves) && n <= |moves|
    ensures Inv(states[n]) && |states[n].threads| == |states[0].threads|
    decreases n
  {
    if n == 0 {
      InitInv(states[0]);
    } else {
      TraceInv(states, moves, n - 1);
      assert Next(states[n - 1], moves[n - 1], states[n]);
      StepInv(states[n - 1], moves[n - 1].thread, moves[n - 1].created);
      SameThreads(states[n - 1], moves[n - 1].thread, moves[n - 1].created);
    }
  }

  lemma SameThreads(st: State, t: nat, created: int)
    requires InBounds(st, t)
    ensures Step(st, t, created).threads == st.threads[t := Step(st, t, created).threads[t]]
  {
  }

  // ---------- the object of a thread ----------

  /** With move i thread t creates its object. */
  ghost predicate Creates(states: seq<State>, moves: seq<Move>, t: nat, i: nat)
    requires |states| == |moves| + 1
  {
    i < |moves| && moves[i].thread == t && t < |states[i].threads| && states[i].threads[t].pc == Create
  }

  /** Move i is the only one before time n with which thread t creates an object, and first is that. */
  ghost predicate CreatedBy(states: seq<State>, moves: seq<Move>, t: nat, i: nat, n: nat, first: int)
    requires |states| == |moves| + 1
  {
    && i < n && Creates(states, moves, t, i) && first == moves[i].created
    && forall j: nat {:trigger Creates(states, moves, t, j)} :: j < n && Creates(states, moves, t, j) ==> j == i
  }

  predicate HasObject(x: Thread) {
    x.pc == Count || x.number >= 1
  }

  /** How the object of the moving thread comes about. */
  lemma ObjectStep(st: State, t: nat, created: int)
    requires Inv(st) && InBounds(st, t)
    ensures var x, x' := st.threads[t], Step(st, t, created).threads[t];
            && (HasObject(x') <==> HasObject(x) || x.pc == Create)
            && (x.pc == Create ==> !HasObject(x) && x'.first == created)
            && (x.pc != Create ==> x'.first == x.first)
  {
    assert ThreadOk(st, t);
  }

  lemma {:induction false} ObjectOf(states: seq<State>, moves: seq<Move>, t: nat, n: nat)
    requires IsTrace(states, moves) && n <= |moves| && t < |states[n].threads|
    ensures HasObject(states[n].threads[t]) ==>
              exists i: nat :: CreatedBy(states, moves, t, i, n, states[n].threads[t].first)
    ensures !HasObject(states[n].threads[t]) ==> forall j: nat :: j < n ==> !Creates(states, moves, t, j)
    decreases n
  {
    if n > 0 {
      var st, st', m := states[n - 1], states[n], moves[n - 1];
      assert Next(st, m, st');
      TraceInv(states, moves, n - 1);
      SameThreads(st, m.thread, m.created);
      ObjectOf(states, moves, t, n - 1);
      ObjectStep(st, m.thread, m.created);
      if Creates(states, moves, t, n - 1) {
        assert CreatedBy(states, moves, t, n - 1, n, st'.threads[t].first);
      } else if HasObject(st'.threads[t]) {
        var i: nat :| CreatedBy(states, moves, t, i, n - 1, st.threads[t].first);
        assert CreatedBy(states, moves, t, i, n, st'.threads[t].first);
      }
    }
  }

  /** In every run: what a thread outside a lookup got is what create_local returned to it, at the one
      move of the run with which it called it; and so is every pointer stored under its key. A thread
      without a number has called nothing, or is about to take one. */
  lemma LookupsReturnTheObject(states: seq<State>, moves: seq<Move>, t: nat, n: nat)
    requires IsTrace(states, moves) && n <= |moves| && t < |states[n].threads| && states[n].threads[t].number >= 1
    ensures exists i: nat ::
              && i < n && CreatedBy(states, moves, t, i, n, moves[i].created)
              && (states[n].threads[t].pc == Idle ==> states[n].threads[t].got == moves[i].created)
              && forall j: nat, p: nat {:trigger states[n].arrays[j].ptrs[p]} ::
                   && j < |states[n].arrays| && p < |states[n].arrays[j].keys| == |states[n].arrays[j].ptrs|
                   && states[n].arrays[j].keys[p] == t && states[n].threads[t].pc != SetPtr
                   ==> states[n].arrays[j].ptrs[p] == moves[i].created
  {
    var st := states[n];
    TraceInv(states, moves, n);
    ObjectOf(states, moves, t, n);
    var i: nat :| CreatedBy(states, moves, t, i, n, st.threads[t].first);
    assert ThreadOk(st, t);
    forall j: nat, p: nat
      | j < |st.arrays| && p < |st.arrays[j].keys| == |st.arrays[j].ptrs| && st.arrays[j].keys[p] == t
        && st.threads[t].pc != SetPtr
      ensures st.arrays[j].ptrs[p] == moves[i].created
    {
      assert ArrayOk(st, j) && KeyOk(st, j, p);
    }
  }

  // ---------- my_count ----------

  /** How many of the first n threads have a number. */
  ghost function Numbered(threads: seq<Thread>, n: nat): nat
    requires n <= |threads|
  {
    if n == 0 then 0 else Numbered(threads, n - 1) + if threads[n - 1].number >= 1 then 1 else 0
  }

  lemma {:induction false} NumberedSet(threads: seq<Thread>, t: nat, x: Thread, n: nat)
    requires t < |threads| && n <= |threads|
    ensures Numbered(threads[t := x], n) == Numbered(threads, n)
              + if t < n then (if x.number >= 1 then 1 else 0) - (if threads[t].number >= 1 then 1 else 0) else 0
    decreases n
  {
    if n > 0 {
      NumberedSet(threads, t, x, n - 1);
    }
  }

  lemma CountStep(st: State, t: nat, created: int)
    requires Inv(st) && InBounds(st, t)
    ensures var x, st' := st.threads[t], Step(st, t, created);
            if x.pc == Count then st'.count == st.count + 1 && x.number == 0 && st'.threads[t].number == st'.count
            else st'.count == st.count && st'.threads[t].number == x.number
  {
    assert ThreadOk(st, t);
  }

  /** my_count is the number of threads that have taken a number, in every state of every run. */
  lemma {:induction false} CountIsExact(states: seq<State>, moves: seq<Move>, n: nat)
    requires IsTrace(states, moves) && n <= |moves|
    ensures states[n].count == Numbered(states[n].threads, |states[n].threads|)
    decreases n
  {
    if n == 0 {
      NobodyNumbered(states[0], |states[0].threads|);
    } else {
      var st, m := states[n - 1], moves[n - 1];
      assert Next(st, m, states[n]);
      TraceInv(states, moves, n - 1);
      CountIsExact(states, moves, n - 1);
      SameThreads(st, m.thread, m.created);
      CountStep(st, m.thread, m.created);
      NumberedSet(st.threads, m.thread, states[n].threads[m.thread], |st.threads|);
    }
  }

  lemma {:induction false} NobodyNumbered(st: State, n: nat)
    requires Init(st) && n <= |st.threads|
    ensures Numbered(st.threads, n) == 0
    decreases n
  {
    if n > 0 {
      NobodyNumbered(st, n - 1);
    }
  }

  // ---------- the key moves to the root ----------

  /** What a thread whose lookup began when array root was the root keeps. */
  ghost predicate Towards(root: int, st: State, t: nat) {
    && t < |st.threads| && st.root >= root
    && var x := st.threads[t];
       match x.pc
       case Seek => x.r >= root
       case Claim => x.r >= root
       case SetPtr => x.r >= root
       case Idle => x.at >= root
       case _ => true
  }

  lemma TowardsStep(root: int, st: State, t: nat, m: Move)
    requires Inv(st) && InBounds(st, m.thread) && Towards(root, st, t) && st.threads[t].pc != Idle
    ensures Towards(root, Step(st, m.thread, m.created), t)
  {
    assert ThreadOk(st, t);
    SameThreads(st, m.thread, m.created);
    RootGrows(st, m.thread, m.created);
  }

  lemma RootGrows(st: State, t: nat, created: int)
    requires Inv(st) && InBounds(st, t)
    ensures Step(st, t, created).root >= st.root
  {
  }

  /** Thread t is inside a lookup from time i to time n. */
  ghost predicate InsideFrom(states: seq<State>, t: nat, i: nat, n: nat) {
    forall j: nat {:trigger states[j]} :: i <= j < n && j < |states| ==>
      t < |states[j].threads| && states[j].threads[t].pc != Idle
  }

  lemma {:induction false} StaysTowards(states: seq<State>, moves: seq<Move>, t: nat, i: nat, n: nat)
    requires IsTrace(states, moves) && i < n <= |moves| && InsideFrom(states, t, i, n)
    requires t < |states[i].threads| && states[i].threads[t].pc == LoadRoot
    ensures Towards(states[i].root, states[n], t)
    decreases n
  {
    assert Next(states[n - 1], moves[n - 1], states[n]);
    TraceInv(states, moves, n - 1);
    if n - 1 > i {
      StaysTowards(states, moves, t, i, n - 1);
    }
    TowardsStep(states[i].root, states[n - 1], t, moves[n - 1]);
  }

  /** After a lookup the key is in the array that was the root when the lookup began, or in a newer
      one. */
  lemma LookupMovesToRoot(states: seq<State>, moves: seq<Move>, t: nat, i: nat, n: nat)
    requires IsTrace(states, moves) && i < n <= |moves| && InsideFrom(states, t, i, n)
    requires t < |states[i].threads| && states[i].threads[t].pc == LoadRoot
    requires t < |states[n].threads| && states[n].threads[t].pc == Idle
    ensures exists j: nat :: j >= states[i].root && Holds(states[n], j, t)
  {
    StaysTowards(states, moves, t, i, n);
    TraceInv(states, moves, n - 1);
    TraceInv(states, moves, n);
    assert Next(states[n - 1], moves[n - 1], states[n]);
    ReturnsWithKey(states[n - 1], moves[n - 1], t);
    assert AtOk(states[n], t) by {
      assert ThreadOk(states[n], t);
    }
    var k: nat := states[n].threads[t].at;
    assert Holds(states[n], k, t);
  }

  lemma ReturnsWithKey(st: State, m: Move, t: nat)
    requires Inv(st) && InBounds(st, m.thread) && t < |st.threads| && st.threads[t].pc != Idle
    requires t < |Step(st, m.thread, m.created).threads| && Step(st, m.thread, m.created).threads[t].pc == Idle
    ensures Step(st, m.thread, m.created).threads[t].at >= 0
  {
    assert ThreadOk(st, t);
    SameThreads(st, m.thread, m.created);
  }
}
