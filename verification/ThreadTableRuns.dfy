/** What the thread-keyed table keeps over whole runs: the pointer of a thread, and how far two of the
    comments beside its fields are true. */
module ThreadTableRuns {
  import opened Masks
  import opened ThreadTable

  /** The state reached from st0 by the further moves of a schedule. */
  ghost predicate Continues(st0: State, schedule: seq<Move>, st: State) {
    if schedule == [] then st == st0
    else
      var n := |schedule| - 1;
      exists mid :: Continues(st0, schedule[..n], mid) && Next(mid, schedule[n], st)
  }

  // ---------- the pointer of a thread ----------

  lemma {:induction false} FirstForever(st: State, more: seq<Move>, st': State, u: nat)
    requires Inv(st) && Continues(st, more, st') && u < |st.threads| && st.threads[u].number >= 1
    ensures Inv(st') && |st'.threads| == |st.threads|
    ensures st'.threads[u].number >= 1 && st'.threads[u].first == st.threads[u].first
    decreases |more|
  {
    if more != [] {
      var n := |more| - 1;
      var mid :| Continues(st, more[..n], mid) && Next(mid, more[n], st');
      FirstForever(st, more[..n], mid, u);
      StepInv(mid, more[n].thread, more[n].created);
      FirstPointerStays(mid, more[n].thread, u, more[n].created);
    }
  }

  /** Once a thread has a number, the pointer its first lookup created stays, and all lookups from
      then on return the same pointer, in every run. */
  lemma SamePointerForever(init: State, schedule: seq<Move>, st: State, more: seq<Move>, st': State, u: nat)
    requires Reaches(init, schedule, st) && Continues(st, more, st')
    requires u < |st.threads| && st.threads[u].number >= 1
    ensures u < |st'.threads| && st'.threads[u].number >= 1 && st'.threads[u].first == st.threads[u].first
    ensures st.threads[u].pc == st'.threads[u].pc == Idle ==> st'.threads[u].got == st.threads[u].got
  {
    ReachedInv(init, schedule, st);
    FirstForever(st, more, st', u);
    assert ThreadOk(st, u) && ThreadOk(st', u);
  }

  /** A thread outside without a number has never been inside. */
  ghost predicate Untouched(init: State, st: State) {
    && |st.threads| == |init.threads|
    && forall t: nat {:trigger st.threads[t]} ::
         t < |st.threads| && st.threads[t].pc == Idle && st.threads[t].number == 0 ==> st.threads[t] == init.threads[t]
  }

  lemma StepUntouched(init: State, st: State, m: Move, st': State)
    requires Inv(st) && Untouched(init, st) && Next(st, m, st')
    ensures Untouched(init, st')
  {
    assert ThreadOk(st, m.thread);
  }

  lemma {:induction false} ReachedUntouched(init: State, schedule: seq<Move>, st: State)
    requires Reaches(init, schedule, st)
    ensures Untouched(init, st)
    decreases |schedule|
  {
    if schedule != [] {
      var n := |schedule| - 1;
      var mid :| Reaches(init, schedule[..n], mid) && Next(mid, schedule[n], st);
      ReachedUntouched(init, schedule[..n], mid);
      ReachedInv(init, schedule[..n], mid);
      StepUntouched(init, mid, schedule[n], st);
    }
  }

  /** A thread that is about to return from a lookup has a number, and a thread outside either has one
      and got its first pointer, or has never looked anything up. */
  lemma LookupsNumber(init: State, schedule: seq<Move>, st: State, t: nat)
    requires Reaches(init, schedule, st) && t < |st.threads|
    ensures st.threads[t].pc == Match || st.threads[t].pc == SetPtr ==> st.threads[t].number >= 1
    ensures |init.threads| == |st.threads|
    ensures st.threads[t].pc == Idle ==>
              || (st.threads[t].number >= 1 && st.threads[t].got == st.threads[t].first)
              || st.threads[t] == init.threads[t]
  {
    ReachedInv(init, schedule, st);
    ReachedUntouched(init, schedule, st);
    assert ThreadOk(st, t);
  }

  // ---------- the root and the count ----------

  predicate Numbered(st: State, t: nat) {
    t < |st.threads| && st.threads[t].number >= 1
  }

  ghost predicate CountOk(st: State) {
    (st.arrays != [] ==> st.count >= 1) && (st.count > 0 ==> exists t: nat :: Numbered(st, t))
  }

  lemma SameCount(st: State, t: nat, created: int)
    requires InBounds(st, t) && st.threads[t].pc != Count
    ensures var st' := Step(st, t, created);
            && st'.count == st.count && |st'.threads| == |st.threads|
            && forall u: nat {:trigger st'.threads[u]} ::
                 u < |st.threads| ==> st'.threads[u].number == st.threads[u].number
  {
  }

  lemma SameArrays(st: State, t: nat, created: int)
    requires InBounds(st, t) && st.threads[t].pc != CasRoot
    ensures |Step(st, t, created).arrays| == |st.arrays|
  {
  }

  lemma StepCountOk(st: State, t: nat, created: int)
    requires Inv(st) && InBounds(st, t) && CountOk(st)
    ensures CountOk(Step(st, t, created))
  {
    var st' := Step(st, t, created);
    if st.threads[t].pc == Count {
      assert Numbered(st', t);
    } else {
      SameCount(st, t, created);
      if st.count > 0 {
        var u: nat :| Numbered(st, u);
        assert Numbered(st', u);
      }
      if st.threads[t].pc == CasRoot {
        assert ThreadOk(st, t);
      } else {
        SameArrays(st, t, created);
      }
    }
  }

  lemma {:induction false} ReachedCountOk(init: State, schedule: seq<Move>, st: State)
    requires Reaches(init, schedule, st)
    ensures CountOk(st)
    decreases |schedule|
  {
    if schedule != [] {
      var n := |schedule| - 1;
      var mid :| Reaches(init, schedule[..n], mid) && Next(mid, schedule[n], st);
      ReachedCountOk(init, schedule[..n], mid);
      ReachedInv(init, schedule[..n], mid);
      StepCountOk(mid, schedule[n].thread, schedule[n].created);
    }
  }

  /** Thread t has its number and has not yet seen to the size of the root. */
  predicate BetweenCountAndRoot(st: State, t: nat) {
    t < |st.threads| && (st.threads[t].pc == CheckRoot || st.threads[t].pc == CasRoot)
  }

  /** "The root is null if and only if the count is 0" holds exactly when there is a root or no thread
      is between incrementing the count and installing one. */
  lemma RootNullExactly(init: State, schedule: seq<Move>, st: State)
    requires Reaches(init, schedule, st)
    ensures (st.root == -1 <==> st.count == 0) <==> (st.root != -1 || forall t: nat :: !BetweenCountAndRoot(st, t))
  {
    ReachedInv(init, schedule, st);
    ReachedCountOk(init, schedule, st);
    if st.root == -1 {
      if st.count > 0 {
        var t: nat :| Numbered(st, t);
        assert ThreadOk(st, t);
        assert BetweenCountAndRoot(st, t);
      }
      if t: nat :| BetweenCountAndRoot(st, t) {
        assert ThreadOk(st, t);
      }
    }
  }

  // ---------- the sizes of neighbouring arrays ----------

  /** "Each array is half the size of its predecessor": a new root has twice the slots of the old one
      exactly when the number of the thread that installs it is at most the old root's size. */
  lemma TwiceTheSizeExactly(st: State, t: nat, created: int)
    requires Inv(st) && InBounds(st, t) && st.threads[t].pc == CasRoot && 0 <= st.root == st.threads[t].r
    ensures var st', old' := Step(st, t, created), st.arrays[st.root];
            && st'.root == |st.arrays| && st'.arrays[st'.root].next == st.root && st'.arrays[st.root] == old'
            && (st'.arrays[st'.root].lg == old'.lg + 1 <==> st.threads[t].number <= Pow2(old'.lg))
  {
    assert ThreadOk(st, t) && ArrayOk(st, st.root);
    var x, l := st.threads[t], st.arrays[st.root].lg;
    if x.s >= l + 2 {
      Pow2Monotone(l, x.s - 2);
    }
  }

  // ---------- runs where the comments fail ----------

  ghost predicate Reachable(init: State, st: State) {
    exists schedule: seq<Move> :: Reaches(init, schedule, st)
  }

  lemma ReachNext(init: State, st: State, t: nat, st': State)
    requires Reachable(init, st) && InBounds(st, t) && st' == Step(st, t, 0)
    ensures Reachable(init, st')
  {
    var schedule: seq<Move> :| Reaches(init, schedule, st);
    var m := Move(t, 0);
    assert (schedule + [m])[..|schedule|] == schedule;
    assert Next(st, m, st');
    assert Reaches(init, schedule + [m], st');
  }

  function New(): Thread {
    Thread(Idle, 0, 0, 0, 0, 0, 0, 0, -1)
  }

  /** n threads, no array. */
  function Start(n: nat, home: (nat, nat) -> nat): State {
    State(-1, 0, [], seq(n, _ => New()), home)
  }

  /** A new thread that has just got number c. */
  function Counted(c: nat): Thread {
    New().(pc := CheckRoot, number := c)
  }

  /** A new thread that finds no root gets the next number. */
  lemma GetsNumber(init: State, st: State, t: nat)
    requires Reachable(init, st) && st.root == -1 && t < |st.threads| && st.threads[t] == New() && st.arrays == []
    ensures Reachable(init, st.(threads := st.threads[t := Counted(st.count + 1)], count := st.count + 1))
  {
    var s1 := Step(st, t, 0);
    ReachNext(init, st, t, s1);
    var s2 := Step(s1, t, 0);
    ReachNext(init, s1, t, s2);
    var s3 := Step(s2, t, 0);
    ReachNext(init, s2, t, s3);
    var s4 := Step(s3, t, 0);
    ReachNext(init, s3, t, s4);
    assert s4.threads[t] == Counted(st.count + 1);
    assert s4 == st.(threads := st.threads[t := Counted(st.count + 1)], count := st.count + 1);
  }

  /** The count is 1 and there is no root. */
  lemma CountedWithoutRoot(home: (nat, nat) -> nat)
    requires forall t: nat, lg: nat :: home(t, lg) < Pow2(lg)
    ensures exists st: State :: Reachable(Start(1, home), st) && st.root == -1 && st.count > 0
  {
    var init := Start(1, home);
    assert Reaches(init, [], init);
    GetsNumber(init, init, 0);
  }

  function FirstCounted(k: nat, home: (nat, nat) -> nat): State
    requires k <= 5
  {
    State(-1, k, [], seq(5, i requires 0 <= i < 5 => if i < k then Counted(i + 1) else New()), home)
  }

  lemma {:induction false} AllCounted(k: nat, home: (nat, nat) -> nat)
    requires k <= 5 && forall t: nat, lg: nat :: home(t, lg) < Pow2(lg)
    ensures Reachable(Start(5, home), FirstCounted(k, home))
  {
    var init := Start(5, home);
    if k == 0 {
      assert init == FirstCounted(0, home);
      assert Reaches(init, [], init);
    } else {
      AllCounted(k - 1, home);
      var st := FirstCounted(k - 1, home);
      GetsNumber(init, st, k - 1);
      assert st.threads[k - 1 := Counted(k)] == FirstCounted(k, home).threads;
    }
  }

  /** A thread with number c installs the first array, or one before the first. */
  lemma Installs(init: State, st: State, t: nat, c: nat, s: nat) returns (st': State)
    requires Reachable(init, st) && t < |st.threads| && st.threads[t] == Counted(c)
    requires st.root == |st.arrays| - 1 && (st.root >= 0 ==> st.arrays[st.root].lg == 2 && c > 2)
    requires s == Fit(c, 2)
    ensures Reachable(init, st') && st'.root == |st.arrays| && st'.arrays == st.arrays + [NewArray(s, st.root)]
    ensures |st'.threads| == |st.threads|
    ensures forall u: nat :: u < |st.threads| && u != t ==> st'.threads[u] == st.threads[u]
  {
    assert Pow2(2) == 4;
    var s1 := Step(st, t, 0);
    ReachNext(init, st, t, s1);
    assert s1.threads[t].pc == CasRoot && s1.threads[t].r == st.root && s1.threads[t].s == s;
    st' := Step(s1, t, 0);
    ReachNext(init, s1, t, st');
  }

  /** An array of 16 slots right before one of 4: five threads are counted, the first installs an
      array, the fifth the next one. */
  lemma SizesSkip(home: (nat, nat) -> nat)
    requires forall t: nat, lg: nat :: home(t, lg) < Pow2(lg)
    ensures exists st: State :: Reachable(Start(5, home), st) && |st.arrays| == 2
              && st.arrays[1].next == 0 && st.arrays[0].lg == 2 && st.arrays[1].lg == 4
  {
    var init := Start(5, home);
    AllCounted(5, home);
    assert Pow2(1) == 2 && Pow2(2) == 4 && Pow2(3) == 8;
    assert Fit(1, 2) == 2 && Fit(5, 4) == 4 && Fit(5, 3) == 4 && Fit(5, 2) == 4;
    var s1 := Installs(init, FirstCounted(5, home), 0, 1, 2);
    var s2 := Installs(init, s1, 4, 5, 4);
  }
}
