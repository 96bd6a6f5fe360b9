/** The aggregator: operations pile up in a mailbox, one thread at a time runs them.
    Every access to shared memory is one step of one thread; a run is any interleaving. */
module Aggregator {

  datatype Ptr = Null | Node(id: nat)

  /** Where a thread stands in execute_impl, start_handle_operations and the handler loop. */
  datatype Pc =
    | Idle        // outside
    | Read        // about to read the mailbox into res and my_next
    | Cas         // about to swap its operation into the mailbox
    | Spin        // first in the list: waiting for handler_busy to become 0
    | SetBusy     // about to store 1 into handler_busy
    | Grab        // about to take the whole mailbox
    | Advance     // handler: about to take the next operation of op_list
    | Apply       // handler: about to run the operation taken
    | Finish      // handler: about to set its status
    | Release     // handler: about to store 0 into handler_busy
    | Wait        // not first: waiting for the status of its operation

  /** A thread and its operation, which lives in the thread's stack frame: a node is named by its
      thread and reused by the thread's next call. submitted and runs count calls and executions. */
  datatype Thread = Thread(pc: Pc, res: Ptr, list: Ptr, cur: nat,
                           next: Ptr, finished: bool, submitted: nat, runs: nat)

  datatype State = State(mailbox: Ptr, busy: bool, threads: seq<Thread>)

  predicate Init(s: State) {
    && s.mailbox == Null && !s.busy
    && forall t :: 0 <= t < |s.threads| ==> s.threads[t].pc == Idle && s.threads[t].submitted == s.threads[t].runs == 0
  }

  /** Spinning threads move only when what they wait for has happened. Nodes that are followed
      exist. */
  predicate Enabled(s: State, t: nat) {
    && t < |s.threads|
    && var x := s.threads[t];
       match x.pc
       case Spin => !s.busy
       case Wait => x.finished
       case Advance => x.list.Node? ==> x.list.id < |s.threads|
       case Apply => x.cur < |s.threads|
       case Finish => x.cur < |s.threads|
       case _ => true
  }

  function Set(s: State, t: nat, x: Thread): State
    requires t < |s.threads|
  {
    s.(threads := s.threads[t := x])
  }

  function Step(s: State, t: nat): State
    requires Enabled(s, t)
  {
    var x := s.threads[t];
    match x.pc
    case Idle => Set(s, t, x.(pc := Read, next := Null, finished := false, submitted := x.submitted + 1))
    case Read => Set(s, t, x.(pc := Cas, res := s.mailbox, next := s.mailbox))
    case Cas =>
      if s.mailbox != x.res then Set(s, t, x.(pc := Read))
      else Set(s, t, x.(pc := if x.res == Null then Spin else Wait)).(mailbox := Node(t))
    case Spin => Set(s, t, x.(pc := SetBusy))
    case SetBusy => Set(s, t, x.(pc := Grab)).(busy := true)
    case Grab => Set(s, t, x.(pc := Advance, list := s.mailbox)).(mailbox := Null)
    case Advance =>
      if x.list == Null then Set(s, t, x.(pc := Release))
      else Set(s, t, x.(pc := Apply, cur := x.list.id, list := s.threads[x.list.id].next))
    case Apply =>
      var s' := Set(s, t, x.(pc := Finish));
      Set(s', x.cur, s'.threads[x.cur].(runs := s'.threads[x.cur].runs + 1))
    case Finish =>
      var s' := Set(s, t, x.(pc := Advance));
      Set(s', x.cur, s'.threads[x.cur].(finished := true))
    case Release => Set(s, t, x.(pc := Idle)).(busy := false)
    case Wait => Set(s, t, x.(pc := Idle))
  }

  // ---------- the invariant ----------

  /** What the proof keeps about a state: the operations in the mailbox and in the handler's
      list, in list order, and who holds the handler role. */
  datatype View = View(queue: seq<nat>, batch: seq<nat>, handler: Ptr)

  predicate WaitsForRole(pc: Pc) {
    pc == Spin || pc == SetBusy || pc == Grab
  }

  predicate HoldsRole(pc: Pc) {
    pc == Grab || pc == Advance || pc == Apply || pc == Finish || pc == Release
  }

  predicate HasList(pc: Pc) {
    pc == Advance || pc == Apply || pc == Finish
  }

  function At(l: seq<nat>, i: nat): Ptr {
    if i < |l| then Node(l[i]) else Null
  }

  /** l is the list of distinct nodes that starts at p. */
  ghost predicate IsList(s: State, p: Ptr, l: seq<nat>) {
    && p == At(l, 0)
    && (forall i {:trigger l[i]} :: 0 <= i < |l| ==> l[i] < |s.threads| && s.threads[l[i]].next == At(l, i + 1))
    && (forall i, j :: 0 <= i < j < |l| ==> l[i] != l[j])
  }

  /** The operation the handler is running now. */
  ghost predicate IsCurrent(s: State, v: View, t: nat) {
    && v.handler.Node? && v.handler.id < |s.threads|
    && (s.threads[v.handler.id].pc == Apply || s.threads[v.handler.id].pc == Finish)
    && s.threads[v.handler.id].cur == t
  }

  /** Who holds the role, and the list it works on. */
  ghost predicate HandlerOk(s: State, v: View) {
    match v.handler
    case Null => !s.busy && v.batch == []
    case Node(h) =>
      && s.busy && h < |s.threads|
      && var x := s.threads[h];
         && HoldsRole(x.pc)
         && (if HasList(x.pc) then IsList(s, x.list, v.batch) else v.batch == [])
         && (x.pc == Apply || x.pc == Finish ==> x.cur < |s.threads| && x.cur !in v.batch && x.cur !in v.queue)
  }

  ghost predicate ThreadOk(s: State, v: View, t: nat)
    requires t < |s.threads|
  {
    var x := s.threads[t];
    && (HoldsRole(x.pc) ==> v.handler == Node(t))
    && (WaitsForRole(x.pc) ==> v.queue != [] && v.queue[|v.queue| - 1] == t)
    && (x.pc == SetBusy ==> v.handler == Null)
    && (x.pc == Cas ==> x.next == x.res)
    && (if t in v.queue then
          && !x.finished && x.runs + 1 == x.submitted && t !in v.batch
          && (if v.queue[|v.queue| - 1] == t then WaitsForRole(x.pc) else x.pc == Wait)
        else if t in v.batch then
          && !x.finished && x.runs + 1 == x.submitted
          && (x.pc == Wait || HasList(x.pc))
        else if IsCurrent(s, v, t) then
          && !x.finished && (x.pc == Wait || v.handler == Node(t))
          && x.submitted == x.runs + (if s.threads[v.handler.id].pc == Apply then 1 else 0)
        else if x.pc == Read || x.pc == Cas then
          !x.finished && x.runs + 1 == x.submitted
        else
          x.runs == x.submitted && (x.pc != Idle ==> x.finished))
  }

  ghost predicate Inv(s: State, v: View) {
    && IsList(s, s.mailbox, v.queue)
    && HandlerOk(s, v)
    && forall t {:trigger s.threads[t]} :: 0 <= t < |s.threads| ==> ThreadOk(s, v, t)
  }

  lemma InitInv(s: State)
    requires Init(s)
    ensures Inv(s, View([], [], Null))
  {
    forall t | 0 <= t < |s.threads| ensures ThreadOk(s, View([], [], Null), t) {
      assert s.threads[t].pc == Idle;
    }
  }

  lemma ListFrame(s: State, s': State, p: Ptr, l: seq<nat>)
    requires IsList(s, p, l) && |s'.threads| == |s.threads|
    requires forall i :: 0 <= i < |l| ==> s'.threads[l[i]].next == s.threads[l[i]].next
    ensures IsList(s', p, l)
  {
  }

  ghost predicate OthersSame(s: State, s': State, t: nat) {
    && |s'.threads| == |s.threads|
    && forall i {:trigger s'.threads[i]} :: 0 <= i < |s.threads| && i != t ==> s'.threads[i] == s.threads[i]
  }

  /** A step of a thread without the role that touches neither list concerns that thread only. */
  lemma PrivateStep(s: State, v: View, t: nat, s': State)
    requires Inv(s, v) && t < |s.threads| && v.handler != Node(t)
    requires OthersSame(s, s', t) && s'.mailbox == s.mailbox && s'.busy == s.busy
    requires t in v.queue + v.batch ==> s'.threads[t].next == s.threads[t].next
    requires ThreadOk(s', v, t)
    ensures Inv(s', v)
  {
    ListFrame(s, s', s.mailbox, v.queue);
    if v.handler.Node? && HasList(s.threads[v.handler.id].pc) {
      ListFrame(s, s', s.threads[v.handler.id].list, v.batch);
    }
    forall i | 0 <= i < |s'.threads| && i != t ensures ThreadOk(s', v, i) {
      assert ThreadOk(s, v, i);
      assert s'.threads[i] == s.threads[i];
    }
  }

  lemma StepIdle(s: State, v: View, t: nat)
    requires Inv(s, v) && Enabled(s, t) && s.threads[t].pc == Idle
    ensures Inv(Step(s, t), v)
  {
    assert ThreadOk(s, v, t);
    PrivateStep(s, v, t, Step(s, t));
  }

  lemma StepRead(s: State, v: View, t: nat)
    requires Inv(s, v) && Enabled(s, t) && s.threads[t].pc == Read
    ensures Inv(Step(s, t), v)
  {
    assert ThreadOk(s, v, t);
    PrivateStep(s, v, t, Step(s, t));
  }

  /** The swap fails: another operation has arrived, or the mailbox was taken, since the read. */
  lemma StepCasFails(s: State, v: View, t: nat)
    requires Inv(s, v) && Enabled(s, t) && s.threads[t].pc == Cas && s.mailbox != s.threads[t].res
    ensures Inv(Step(s, t), v)
  {
    assert ThreadOk(s, v, t);
    PrivateStep(s, v, t, Step(s, t));
  }

  lemma StepSpin(s: State, v: View, t: nat)
    requires Inv(s, v) && Enabled(s, t) && s.threads[t].pc == Spin
    ensures Inv(Step(s, t), v)
  {
    assert ThreadOk(s, v, t);
    PrivateStep(s, v, t, Step(s, t));
  }

  lemma StepWait(s: State, v: View, t: nat)
    requires Inv(s, v) && Enabled(s, t) && s.threads[t].pc == Wait
    ensures Inv(Step(s, t), v)
  {
    assert ThreadOk(s, v, t);
    PrivateStep(s, v, t, Step(s, t));
  }

  lemma LongerList(s: State, s': State, t: nat, l: seq<nat>)
    requires IsList(s, At(l, 0), l) && t < |s.threads| && t !in l && OthersSame(s, s', t)
    requires s'.threads[t].next == At(l, 0)
    ensures IsList(s', Node(t), [t] + l)
  {
    var l' := [t] + l;
    forall i | 0 <= i < |l'| ensures l'[i] < |s'.threads| && s'.threads[l'[i]].next == At(l', i + 1) {
      if i > 0 {
        assert l'[i] == l[i - 1];
      }
    }
  }

  /** The swap succeeds: the operation is the new head of the mailbox list. */
  lemma StepCas(s: State, v: View, t: nat)
    requires Inv(s, v) && Enabled(s, t) && s.threads[t].pc == Cas && s.mailbox == s.threads[t].res
    ensures Inv(Step(s, t), v.(queue := [t] + v.queue))
  {
    var s', v' := Step(s, t), v.(queue := [t] + v.queue);
    assert ThreadOk(s, v, t);
    LongerList(s, s', t, v.queue);
    if v.handler.Node? && HasList(s.threads[v.handler.id].pc) {
      ListFrame(s, s', s.threads[v.handler.id].list, v.batch);
    }
    assert v'.queue[|v'.queue| - 1] == if v.queue == [] then t else v.queue[|v.queue| - 1];
    assert forall i :: i in v'.queue <==> i == t || i in v.queue;
    forall i | 0 <= i < |s'.threads| ensures ThreadOk(s', v', i) {
      assert ThreadOk(s, v, i);
      CasThread(s, v, t, s', v', i);
    }
  }

  lemma CasThread(s: State, v: View, t: nat, s': State, v': View, i: nat)
    requires t < |s.threads| && i < |s.threads| && OthersSame(s, s', t)
    requires ThreadOk(s, v, t) && ThreadOk(s, v, i) && s.threads[t].pc == Cas
    requires s'.threads[t] == s.threads[t].(pc := if v.queue == [] then Spin else Wait)
    requires v' == v.(queue := v'.queue) && v'.queue != []
    requires v'.queue[|v'.queue| - 1] == if v.queue == [] then t else v.queue[|v.queue| - 1]
    requires (i in v'.queue <==> i == t || i in v.queue) && t !in v.queue
    requires v.queue != [] ==> v.queue[|v.queue| - 1] in v.queue
    ensures ThreadOk(s', v', i)
  {
  }

  /** The plain store into handler_busy is safe: nobody holds the role, nobody else wants it. */
  lemma StepSetBusy(s: State, v: View, t: nat)
    requires Inv(s, v) && Enabled(s, t) && s.threads[t].pc == SetBusy
    ensures !s.busy && Inv(Step(s, t), v.(handler := Node(t)))
  {
    var s', v' := Step(s, t), v.(handler := Node(t));
    assert ThreadOk(s, v, t);
    ListFrame(s, s', s.mailbox, v.queue);
    forall i | 0 <= i < |s'.threads| ensures ThreadOk(s', v', i) {
      assert ThreadOk(s, v, i);
    }
  }

  lemma StepGrab(s: State, v: View, t: nat)
    requires Inv(s, v) && Enabled(s, t) && s.threads[t].pc == Grab
    ensures Inv(Step(s, t), v.(queue := [], batch := v.queue))
  {
    var s', v' := Step(s, t), v.(queue := [], batch := v.queue);
    assert ThreadOk(s, v, t);
    ListFrame(s, s', s.mailbox, v.queue);
    forall i | 0 <= i < |s'.threads| ensures ThreadOk(s', v', i) {
      assert ThreadOk(s, v, i);
    }
  }

  lemma StepAdvanceEnd(s: State, v: View, t: nat)
    requires Inv(s, v) && Enabled(s, t) && s.threads[t].pc == Advance && v.batch == []
    ensures Inv(Step(s, t), v)
  {
    var s' := Step(s, t);
    assert ThreadOk(s, v, t);
    ListFrame(s, s', s.mailbox, v.queue);
    forall i | 0 <= i < |s'.threads| ensures ThreadOk(s', v, i) {
      assert ThreadOk(s, v, i);
    }
  }

  lemma ShorterList(s: State, s': State, l: seq<nat>)
    requires l != [] && IsList(s, At(l, 0), l) && |s'.threads| == |s.threads|
    requires forall i {:trigger s'.threads[i]} :: 0 <= i < |s.threads| ==> s'.threads[i].next == s.threads[i].next
    ensures l[0] !in l[1..] && s.threads[l[0]].next == At(l[1..], 0)
    ensures IsList(s', At(l[1..], 0), l[1..])
  {
    var rest := l[1..];
    assert forall i :: 0 <= i < |rest| ==> rest[i] == l[i + 1];
    forall i | 0 <= i < |rest| ensures rest[i] < |s'.threads| && s'.threads[rest[i]].next == At(rest, i + 1) {
      assert rest[i] == l[i + 1];
    }
  }

  lemma StepAdvance(s: State, v: View, t: nat)
    requires Inv(s, v) && Enabled(s, t) && s.threads[t].pc == Advance && v.batch != []
    ensures Inv(Step(s, t), v.(batch := v.batch[1..]))
  {
    var s', v', c := Step(s, t), v.(batch := v.batch[1..]), v.batch[0];
    assert ThreadOk(s, v, t);
    assert ThreadOk(s, v, c);
    ShorterList(s, s', v.batch);
    ListFrame(s, s', s.mailbox, v.queue);
    assert forall i :: i in v.batch <==> i == c || i in v'.batch;
    forall i | 0 <= i < |s'.threads| ensures ThreadOk(s', v', i) {
      assert ThreadOk(s, v, i);
      AdvanceThread(s, v, t, s', v', i);
    }
  }

  lemma AdvanceThread(s: State, v: View, t: nat, s': State, v': View, i: nat)
    requires t < |s.threads| && i < |s.threads| && OthersSame(s, s', t) && v.handler == Node(t)
    requires ThreadOk(s, v, i) && v.batch != [] && v' == v.(batch := v.batch[1..])
    requires s.threads[t].pc == Advance && s'.threads[t].pc == Apply && s'.threads[t].cur == v.batch[0]
    requires s'.threads[t] == s.threads[t].(pc := Apply, cur := v.batch[0], list := s'.threads[t].list)
    requires i in v.batch <==> i == v.batch[0] || i in v'.batch
    requires v.batch[0] !in v'.batch
    ensures ThreadOk(s', v', i)
  {
  }

  lemma StepApply(s: State, v: View, t: nat)
    requires Inv(s, v) && Enabled(s, t) && s.threads[t].pc == Apply
    ensures Inv(Step(s, t), v)
  {
    var s' := Step(s, t);
    assert ThreadOk(s, v, t);
    assert ThreadOk(s, v, s.threads[t].cur);
    ListFrame(s, s', s.mailbox, v.queue);
    ListFrame(s, s', s.threads[t].list, v.batch);
    forall i | 0 <= i < |s'.threads| ensures ThreadOk(s', v, i) {
      assert ThreadOk(s, v, i);
      ApplyThread(s, v, t, s', i);
    }
  }

  lemma ApplyThread(s: State, v: View, t: nat, s': State, i: nat)
    requires t < |s.threads| && i < |s.threads| && |s'.threads| == |s.threads| && v.handler == Node(t)
    requires s.threads[t].pc == Apply && s.threads[t].cur < |s.threads|
    requires ThreadOk(s, v, i) && ThreadOk(s, v, t) && ThreadOk(s, v, s.threads[t].cur)
    requires s.threads[t].cur !in v.queue && s.threads[t].cur !in v.batch
    requires s'.threads == Step(s, t).threads
    ensures ThreadOk(s', v, i)
  {
  }

  lemma StepFinish(s: State, v: View, t: nat)
    requires Inv(s, v) && Enabled(s, t) && s.threads[t].pc == Finish
    ensures Inv(Step(s, t), v)
  {
    var s' := Step(s, t);
    assert ThreadOk(s, v, t);
    assert ThreadOk(s, v, s.threads[t].cur);
    ListFrame(s, s', s.mailbox, v.queue);
    ListFrame(s, s', s.threads[t].list, v.batch);
    forall i | 0 <= i < |s'.threads| ensures ThreadOk(s', v, i) {
      assert ThreadOk(s, v, i);
      FinishThread(s, v, t, s', i);
    }
  }

  lemma FinishThread(s: State, v: View, t: nat, s': State, i: nat)
    requires t < |s.threads| && i < |s.threads| && |s'.threads| == |s.threads| && v.handler == Node(t)
    requires s.threads[t].pc == Finish && s.threads[t].cur < |s.threads|
    requires ThreadOk(s, v, i) && ThreadOk(s, v, t) && ThreadOk(s, v, s.threads[t].cur)
    requires s.threads[t].cur !in v.queue && s.threads[t].cur !in v.batch
    requires s'.threads == Step(s, t).threads
    ensures ThreadOk(s', v, i)
  {
  }

  lemma StepRelease(s: State, v: View, t: nat)
    requires Inv(s, v) && Enabled(s, t) && s.threads[t].pc == Release
    ensures Inv(Step(s, t), v.(handler := Null))
  {
    var s', v' := Step(s, t), v.(handler := Null);
    assert ThreadOk(s, v, t);
    ListFrame(s, s', s.mailbox, v.queue);
    forall i | 0 <= i < |s'.threads| ensures ThreadOk(s', v', i) {
      assert ThreadOk(s, v, i);
    }
  }

  /** What a step does to the view. */
  ghost function NextView(s: State, v: View, t: nat): View
    requires t < |s.threads|
  {
    match s.threads[t].pc
    case Cas => if s.mailbox == s.threads[t].res then v.(queue := [t] + v.queue) else v
    case SetBusy => v.(handler := Node(t))
    case Grab => v.(queue := [], batch := v.queue)
    case Advance => if v.batch == [] then v else v.(batch := v.batch[1..])
    case Release => v.(handler := Null)
    case _ => v
  }

  /** Every step of every thread keeps the invariant. */
  lemma StepInv(s: State, v: View, t: nat)
    requires Inv(s, v) && Enabled(s, t)
    ensures Inv(Step(s, t), NextView(s, v, t))
  {
    match s.threads[t].pc
    case Idle => StepIdle(s, v, t);
    case Read => StepRead(s, v, t);
    case Cas =>
      if s.mailbox != s.threads[t].res {
        StepCasFails(s, v, t);
      } else {
        StepCas(s, v, t);
      }
    case Spin => StepSpin(s, v, t);
    case SetBusy => StepSetBusy(s, v, t);
    case Grab => StepGrab(s, v, t);
    case Advance =>
      if v.batch == [] {
        StepAdvanceEnd(s, v, t);
      } else {
        StepAdvance(s, v, t);
      }
    case Apply => StepApply(s, v, t);
    case Finish => StepFinish(s, v, t);
    case Release => StepRelease(s, v, t);
    case Wait => StepWait(s, v, t);
  }

  // ---------- whole runs ----------

  ghost predicate Next(s: State, t: nat, s': State) {
    Enabled(s, t) && s' == Step(s, t)
  }

  /** The state reached from an initial state when the threads named by the schedule make their
      next steps, one after the other. Every state of every run is reached by some schedule. */
  ghost predicate Reaches(init: State, schedule: seq<nat>, s: State) {
    if schedule == [] then Init(init) && s == init
    else
      var n := |schedule| - 1;
      exists mid :: Reaches(init, schedule[..n], mid) && Next(mid, schedule[n], s)
  }

  ghost predicate Sound(s: State) {
    exists v :: Inv(s, v)
  }

  lemma NextSound(s: State, t: nat, s': State)
    requires Sound(s) && Next(s, t, s')
    ensures Sound(s')
  {
    var v :| Inv(s, v);
    StepInv(s, v, t);
  }

  lemma {:induction false} ReachedSound(init: State, schedule: seq<nat>, s: State)
    requires Reaches(init, schedule, s)
    ensures Sound(s)
    decreases |schedule|
  {
    if schedule == [] {
      InitInv(s);
    } else {
      var n := |schedule| - 1;
      var mid :| Reaches(init, schedule[..n], mid) && Next(mid, schedule[n], s);
      ReachedSound(init, schedule[..n], mid);
      NextSound(mid, schedule[n], s);
    }
  }

  /** At most one thread waits for the role and at most one holds it. */
  ghost predicate OneWaiterOneHandler(s: State) {
    && (forall t, u :: 0 <= t < |s.threads| && 0 <= u < |s.threads| ==>
          WaitsForRole(s.threads[t].pc) && WaitsForRole(s.threads[u].pc) ==> t == u)
    && (forall t, u :: 0 <= t < |s.threads| && 0 <= u < |s.threads| ==>
          HoldsRole(s.threads[t].pc) && HoldsRole(s.threads[u].pc) ==> t == u)
  }

  /** Between reading 0 and storing 1 in handler_busy nobody else gets the role. */
  ghost predicate TestThenSetSafe(s: State) {
    forall t, u :: 0 <= t < |s.threads| && 0 <= u < |s.threads| && s.threads[t].pc == SetBusy ==>
      !s.busy && !HoldsRole(s.threads[u].pc)
  }

  /** An operation is run at most once per submission; the thread about to be handed one finds it
      not yet run; a thread about to return, or back outside, has had its operation run. */
  ghost predicate RunsExactlyOnce(s: State) {
    forall t {:trigger s.threads[t]} :: 0 <= t < |s.threads| ==>
      var x := s.threads[t];
      && x.runs <= x.submitted <= x.runs + 1
      && (x.pc == Idle || x.pc == Release || (x.pc == Wait && x.finished) ==> x.runs == x.submitted)
      && (x.pc == Apply ==> x.cur < |s.threads| && s.threads[x.cur].runs + 1 == s.threads[x.cur].submitted)
  }

  /** If some thread is inside, some thread inside can move. */
  ghost predicate NotStuck(s: State) {
    (exists t :: 0 <= t < |s.threads| && s.threads[t].pc != Idle) ==>
    (exists t :: 0 <= t < |s.threads| && s.threads[t].pc != Idle && Enabled(s, t))
  }

  lemma InvIsSafe(s: State, v: View)
    requires Inv(s, v)
    ensures OneWaiterOneHandler(s) && TestThenSetSafe(s)
  {
    forall t | 0 <= t < |s.threads| ensures ThreadOk(s, v, t) {
    }
  }

  lemma InvRunsOnce(s: State, v: View)
    requires Inv(s, v)
    ensures RunsExactlyOnce(s)
  {
    forall t | 0 <= t < |s.threads|
      ensures ThreadOk(s, v, t)
      ensures s.threads[t].pc == Apply ==> v.handler == Node(t) && ThreadOk(s, v, s.threads[t].cur)
    {
      assert ThreadOk(s, v, t);
      if s.threads[t].pc == Apply {
        assert ThreadOk(s, v, s.threads[t].cur);
      }
    }
  }

  lemma InvNotStuck(s: State, v: View)
    requires Inv(s, v)
    ensures NotStuck(s)
  {
    if t :| 0 <= t < |s.threads| && s.threads[t].pc != Idle {
      assert ThreadOk(s, v, t);
      if v.handler.Node? {
        assert ThreadOk(s, v, v.handler.id);
        assert Enabled(s, v.handler.id);
      } else if v.queue != [] {
        var w := v.queue[|v.queue| - 1];
        assert ThreadOk(s, v, w);
        assert Enabled(s, w);
      } else {
        assert Enabled(s, t);
      }
    }
  }

  /** In every state of every run, under every schedule and for any number of threads. */
  lemma EveryRunIsSafe(init: State, schedule: seq<nat>, s: State)
    requires Reaches(init, schedule, s)
    ensures OneWaiterOneHandler(s) && TestThenSetSafe(s) && RunsExactlyOnce(s) && NotStuck(s)
  {
    ReachedSound(init, schedule, s);
    var v :| Inv(s, v);
    InvIsSafe(s, v);
    InvRunsOnce(s, v);
    InvNotStuck(s, v);
  }
}
