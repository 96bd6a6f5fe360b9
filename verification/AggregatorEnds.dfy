/** Operations given to the aggregator are run: in every fair run a thread that has put its operation
    into the mailbox returns with its operation run, whether it handles the batch or waits. */
module AggregatorEnds {
  import opened Aggregator

  /** The thread's operation is in the mailbox, or has been. */
  predicate Published(pc: Pc) {
    pc != Idle && pc != Read && pc != Cas
  }

  /** Whose step brings thread t on: its own if its operation is done, else that of the handler, and
      if there is none that of the thread that waits for the role. */
  ghost function Responsible(s: State, v: View, t: nat): nat
    requires t < |s.threads| && (v.handler.Null? && !Done(s.threads[t]) ==> v.queue != [])
  {
    if Done(s.threads[t]) then t
    else if v.handler.Node? then v.handler.id
    else v.queue[|v.queue| - 1]
  }

  /** The thread waits and finds its operation finished. */
  predicate Done(x: Thread) {
    x.pc == Wait && x.finished
  }

  // ---------- the measure ----------

  /** In the mailbox while a batch is handled; in the mailbox about to be taken; in the batch; done. */
  ghost function Stage(s: State, v: View, t: nat): nat
    requires t < |s.threads|
  {
    if s.threads[t].pc == Idle then 0
    else if Done(s.threads[t]) then 1
    else if v.handler.Node? && v.handler.id < |s.threads| && s.threads[v.handler.id].pc != Grab then
      if t in v.queue then 4 else 2
    else 3
  }

  /** What the handler has left of its batch. */
  ghost function HandlerWork(s: State, v: View, h: nat): nat
    requires h < |s.threads|
  {
    3 * |v.batch| +
    match s.threads[h].pc
    case Advance => 1
    case Apply => 3
    case Finish => 2
    case _ => 0
  }

  /** What is left of the stage. */
  ghost function Work(s: State, v: View, t: nat): nat
    requires t < |s.threads|
  {
    if Done(s.threads[t]) then 0
    else if v.handler.Node? then if v.handler.id < |s.threads| then HandlerWork(s, v, v.handler.id) else 0
    else if v.queue != [] && v.queue[|v.queue| - 1] < |s.threads| then
      match s.threads[v.queue[|v.queue| - 1]].pc
      case Spin => 2
      case SetBusy => 1
      case _ => 0
    else 0
  }

  /** The thread to which it falls to step is inside and can. */
  lemma ResponsibleCanStep(s: State, v: View, t: nat)
    requires Inv(s, v) && t < |s.threads| && Published(s.threads[t].pc)
    ensures v.handler.Null? && !Done(s.threads[t]) ==> v.queue != []
    ensures var r := Responsible(s, v, t); Enabled(s, r) && s.threads[r].pc != Idle
  {
    assert ThreadOk(s, v, t);
    if !Done(s.threads[t]) {
      var r := if v.handler.Node? then v.handler.id else v.queue[|v.queue| - 1];
      assert ThreadOk(s, v, r);
    }
  }

  /** Thread t has come nearer to its end. */
  ghost predicate Nearer(s: State, v: View, s': State, v': View, t: nat) {
    && t < |s.threads| && t < |s'.threads| && (s'.threads[t].pc == Idle || Published(s'.threads[t].pc))
    && (Stage(s', v', t) < Stage(s, v, t)
        || (Stage(s', v', t) == Stage(s, v, t) && Work(s', v', t) < Work(s, v, t)))
  }

  /** What the handler's step depends on. */
  ghost predicate HandlerReady(s: State, v: View, h: nat) {
    && h < |s.threads| && v.handler == Node(h) && HoldsRole(s.threads[h].pc)
    && (if HasList(s.threads[h].pc) then s.threads[h].list == At(v.batch, 0) else v.batch == [])
  }

  lemma InvHandlerReady(s: State, v: View)
    requires Inv(s, v) && v.handler.Node?
    ensures HandlerReady(s, v, v.handler.id)
  {
  }

  lemma HandlerEnds(s: State, v: View, t: nat, h: nat)
    requires HandlerReady(s, v, h) && Enabled(s, h) && t < |s.threads| && ThreadOk(s, v, t)
    requires s.threads[h].pc == Grab || s.threads[h].pc == Release
    requires Published(s.threads[t].pc) && !Done(s.threads[t])
    ensures Nearer(s, v, Step(s, h), NextView(s, v, h), t) == true
  {
  }

  lemma HandlerAdvances(s: State, v: View, t: nat, h: nat)
    requires HandlerReady(s, v, h) && Enabled(s, h) && t < |s.threads| && HasList(s.threads[h].pc)
    requires Published(s.threads[t].pc) && !Done(s.threads[t])
    ensures Nearer(s, v, Step(s, h), NextView(s, v, h), t) == true
  {
  }

  lemma WaiterStep(s: State, v: View, t: nat, w: nat)
    requires v.handler.Null? && v.batch == [] && v.queue != [] && v.queue[|v.queue| - 1] == w
    requires Enabled(s, w) && (s.threads[w].pc == Spin || s.threads[w].pc == SetBusy)
    requires t < |s.threads| && Published(s.threads[t].pc) && !Done(s.threads[t])
    ensures Nearer(s, v, Step(s, w), NextView(s, v, w), t) == true
  {
  }

  lemma NoHandler(s: State, v: View, t: nat)
    requires Inv(s, v) && t < |s.threads| && Published(s.threads[t].pc) && !Done(s.threads[t]) && v.handler.Null?
    ensures v.queue != []
    ensures var w := v.queue[|v.queue| - 1];
            w < |s.threads| && (s.threads[w].pc == Spin || s.threads[w].pc == SetBusy)
  {
    assert ThreadOk(s, v, t);
    var w := v.queue[|v.queue| - 1];
    assert ThreadOk(s, v, w);
  }

  /** Its step brings thread t on. */
  lemma ResponsibleStep(s: State, v: View, t: nat)
    requires Inv(s, v) && t < |s.threads| && Published(s.threads[t].pc)
    requires v.handler.Null? && !Done(s.threads[t]) ==> v.queue != []
    requires Enabled(s, Responsible(s, v, t))
    ensures Nearer(s, v, Step(s, Responsible(s, v, t)), NextView(s, v, Responsible(s, v, t)), t) == true
  {
    if !Done(s.threads[t]) {
      if v.handler.Null? {
        NoHandler(s, v, t);
        WaiterStep(s, v, t, Responsible(s, v, t));
      } else {
        InvHandlerReady(s, v);
        if HasList(s.threads[v.handler.id].pc) {
          HandlerAdvances(s, v, t, v.handler.id);
        } else {
          assert ThreadOk(s, v, t);
          HandlerEnds(s, v, t, v.handler.id);
        }
      }
    }
  }

  /** Thread t is as near to its end, by the same thread's step. */
  ghost predicate AsNear(s: State, v: View, s': State, v': View, t: nat)
    requires t < |s.threads| && (v.handler.Null? && !Done(s.threads[t]) ==> v.queue != [])
  {
    && t < |s'.threads| && s'.threads[t].pc == s.threads[t].pc
    && (v'.handler.Null? && !Done(s'.threads[t]) ==> v'.queue != [])
    && Responsible(s', v', t) == Responsible(s, v, t)
    && Stage(s', v', t) == Stage(s, v, t) && Work(s', v', t) == Work(s, v, t)
  }

  /** Another's step leaves a finished operation finished. */
  lemma OthersKeepDone(s: State, v: View, t: nat, u: nat)
    requires t < |s.threads| && Done(s.threads[t]) && Enabled(s, u) && u != t
    ensures AsNear(s, v, Step(s, u), NextView(s, v, u), t) == true
  {
  }

  /** A thread that is neither handler nor waiter changes at most its own fields and the head of the
      mailbox. */
  lemma BystanderStep(s: State, v: View, t: nat, u: nat)
    requires t < |s.threads| && Published(s.threads[t].pc) && !Done(s.threads[t])
    requires v.handler.Null? ==> v.queue != []
    requires Enabled(s, u) && t != u && u != Responsible(s, v, t)
    requires !HoldsRole(s.threads[u].pc) && s.threads[u].pc != Spin && s.threads[u].pc != SetBusy
    ensures AsNear(s, v, Step(s, u), NextView(s, v, u), t) == true
  {
  }

  /** The steps of all others leave it to the same thread, and as near. */
  lemma OtherStep(s: State, v: View, t: nat, u: nat)
    requires Inv(s, v) && t < |s.threads| && Published(s.threads[t].pc)
    requires v.handler.Null? && !Done(s.threads[t]) ==> v.queue != []
    requires Enabled(s, u) && u != Responsible(s, v, t)
    ensures AsNear(s, v, Step(s, u), NextView(s, v, u), t) == true
  {
    if Done(s.threads[t]) {
      OthersKeepDone(s, v, t, u);
    } else {
      NotBystander(s, v, t, u);
      BystanderStep(s, v, t, u);
    }
  }

  lemma NotBystander(s: State, v: View, t: nat, u: nat)
    requires Inv(s, v) && t < |s.threads| && Published(s.threads[t].pc) && !Done(s.threads[t])
    requires v.handler.Null? ==> v.queue != []
    requires Enabled(s, u) && u != Responsible(s, v, t)
    ensures u != t && !HoldsRole(s.threads[u].pc) && s.threads[u].pc != Spin && s.threads[u].pc != SetBusy
  {
    assert ThreadOk(s, v, u);
  }

  // ---------- infinite runs ----------

  ghost predicate RunStep(run: nat -> State, turns: nat -> nat, i: nat) {
    Next(run(i), turns(i), run(i + 1))
  }

  ghost predicate IsRun(run: nat -> State, turns: nat -> nat) {
    Init(run(0)) && forall i: nat {:trigger RunStep(run, turns, i)} :: RunStep(run, turns, i)
  }

  /** At time i thread t steps, or is outside, or has to wait. */
  predicate StepsOrWaits(run: nat -> State, turns: nat -> nat, t: nat, i: nat) {
    turns(i) == t || !Enabled(run(i), t) || run(i).threads[t].pc == Idle
  }

  ghost predicate GetsTurn(run: nat -> State, turns: nat -> nat, t: nat, i: nat) {
    exists j: nat :: i <= j && StepsOrWaits(run, turns, t, j)
  }

  /** No thread inside that could step all the time is left out for ever. */
  ghost predicate Fair(run: nat -> State, turns: nat -> nat) {
    forall t: nat, i: nat {:trigger GetsTurn(run, turns, t, i)} :: GetsTurn(run, turns, t, i)
  }

  /** The view that goes with the state at time i. */
  ghost function ViewAt(run: nat -> State, turns: nat -> nat, i: nat): View
    requires IsRun(run, turns)
  {
    if i == 0 then View([], [], Null)
    else
      assert RunStep(run, turns, i - 1);
      NextView(run(i - 1), ViewAt(run, turns, i - 1), turns(i - 1))
  }

  lemma {:induction false} RunInv(run: nat -> State, turns: nat -> nat, i: nat)
    requires IsRun(run, turns)
    ensures Inv(run(i), ViewAt(run, turns, i)) == true
  {
    if i == 0 {
      InitInv(run(0));
    } else {
      RunInv(run, turns, i - 1);
      assert RunStep(run, turns, i - 1);
      StepInv(run(i - 1), ViewAt(run, turns, i - 1), turns(i - 1));
    }
  }

  lemma {:induction false} SameThreads(run: nat -> State, turns: nat -> nat, i: nat)
    requires IsRun(run, turns)
    ensures |run(i).threads| == |run(0).threads|
  {
    if i > 0 {
      SameThreads(run, turns, i - 1);
      assert RunStep(run, turns, i - 1);
    }
  }

  predicate OutsideAt(run: nat -> State, t: nat, i: nat) {
    t < |run(i).threads| && run(i).threads[t].pc == Idle
  }

  /** Thread t is inside with its operation published, and some thread is responsible for it. */
  ghost predicate Awaited(s: State, v: View, t: nat) {
    t < |s.threads| && Published(s.threads[t].pc) && (v.handler.Null? && !Done(s.threads[t]) ==> v.queue != [])
  }

  lemma PublishedAwaited(run: nat -> State, turns: nat -> nat, t: nat, i: nat)
    requires IsRun(run, turns) && t < |run(i).threads| && Published(run(i).threads[t].pc)
    ensures Awaited(run(i), ViewAt(run, turns, i), t)
    ensures var r := Responsible(run(i), ViewAt(run, turns, i), t);
            Enabled(run(i), r) && run(i).threads[r].pc != Idle
  {
    RunInv(run, turns, i);
    ResponsibleCanStep(run(i), ViewAt(run, turns, i), t);
  }

  /** One step of the run, as a published operation sees it. */
  lemma RunNearer(run: nat -> State, turns: nat -> nat, t: nat, i: nat)
    requires IsRun(run, turns) && Awaited(run(i), ViewAt(run, turns, i), t)
    ensures if turns(i) == Responsible(run(i), ViewAt(run, turns, i), t) then
              Nearer(run(i), ViewAt(run, turns, i), run(i + 1), ViewAt(run, turns, i + 1), t)
            else
              AsNear(run(i), ViewAt(run, turns, i), run(i + 1), ViewAt(run, turns, i + 1), t)
  {
    RunInv(run, turns, i);
    assert RunStep(run, turns, i);
    if turns(i) == Responsible(run(i), ViewAt(run, turns, i), t) {
      ResponsibleStep(run(i), ViewAt(run, turns, i), t);
    } else {
      OtherStep(run(i), ViewAt(run, turns, i), t, turns(i));
    }
  }

  /** From time i on thread t, for which thread r is responsible and gets its turn at time j, comes to
      its end. */
  lemma {:induction false} EndsAfter(run: nat -> State, turns: nat -> nat, t: nat, r: nat, i: nat, j: nat,
                                     s: State, v: View)
    requires IsRun(run, turns) && Fair(run, turns)
    requires s == run(i) && v == ViewAt(run, turns, i) && Awaited(s, v, t)
    requires r == Responsible(s, v, t) && i <= j && StepsOrWaits(run, turns, r, j)
    ensures exists e: nat :: i <= e && OutsideAt(run, t, e)
    decreases Stage(s, v, t), Work(s, v, t), j - i
  {
    PublishedAwaited(run, turns, t, i);
    RunNearer(run, turns, t, i);
    var s', v' := run(i + 1), ViewAt(run, turns, i + 1);
    if turns(i) != r {
      EndsAfter(run, turns, t, r, i + 1, j, s', v');
    } else if s'.threads[t].pc == Idle {
      assert OutsideAt(run, t, i + 1);
    } else {
      PublishedAwaited(run, turns, t, i + 1);
      var r' := Responsible(s', v', t);
      assert GetsTurn(run, turns, r', i + 1);
      var k: nat :| i + 1 <= k && StepsOrWaits(run, turns, r', k);
      EndsAfter(run, turns, t, r', i + 1, k, s', v');
    }
  }

  lemma PublishedEnds(run: nat -> State, turns: nat -> nat, t: nat, i: nat)
    requires IsRun(run, turns) && Fair(run, turns)
    requires t < |run(i).threads| && Published(run(i).threads[t].pc)
    ensures exists e: nat :: i <= e && OutsideAt(run, t, e)
  {
    PublishedAwaited(run, turns, t, i);
    var r := Responsible(run(i), ViewAt(run, turns, i), t);
    assert GetsTurn(run, turns, r, i);
    var j: nat :| i <= j && StepsOrWaits(run, turns, r, j);
    EndsAfter(run, turns, t, r, i, j, run(i), ViewAt(run, turns, i));
  }

  lemma StepSubmitted(s: State, u: nat, t: nat)
    requires Enabled(s, u) && t < |s.threads| && s.threads[t].pc != Idle
    ensures t < |Step(s, u).threads| && Step(s, u).threads[t].submitted == s.threads[t].submitted
  {
  }

  lemma RunsOnceAt(run: nat -> State, turns: nat -> nat, t: nat, i: nat)
    requires IsRun(run, turns) && OutsideAt(run, t, i)
    ensures run(i).threads[t].runs == run(i).threads[t].submitted
  {
    RunInv(run, turns, i);
    InvRunsOnce(run(i), ViewAt(run, turns, i));
  }

  /** When a thread is outside next, it is back from the same call, and its operation has been run. */
  lemma {:induction false} BackFromCall(run: nat -> State, turns: nat -> nat, t: nat, i: nat, e: nat)
    requires IsRun(run, turns) && i <= e && t < |run(i).threads| && OutsideAt(run, t, e)
    ensures exists f: nat :: i <= f && OutsideAt(run, t, f)
              && run(f).threads[t].runs == run(f).threads[t].submitted == run(i).threads[t].submitted
    decreases e - i
  {
    if run(i).threads[t].pc == Idle {
      assert OutsideAt(run, t, i);
      RunsOnceAt(run, turns, t, i);
    } else {
      assert RunStep(run, turns, i);
      StepSubmitted(run(i), turns(i), t);
      BackFromCall(run, turns, t, i + 1, e);
    }
  }

  /** In every fair run: once its operation is in the mailbox a thread returns from that call, and the
      operation has been run. */
  lemma PublishedIsRun(run: nat -> State, turns: nat -> nat, t: nat, i: nat)
    requires IsRun(run, turns) && Fair(run, turns)
    requires t < |run(i).threads| && Published(run(i).threads[t].pc)
    ensures exists e: nat :: i <= e && OutsideAt(run, t, e)
              && run(e).threads[t].runs == run(e).threads[t].submitted == run(i).threads[t].submitted
  {
    PublishedEnds(run, turns, t, i);
    var e: nat :| i <= e && OutsideAt(run, t, e);
    BackFromCall(run, turns, t, i, e);
  }

  // ---------- getting into the mailbox ----------

  /** At time i some operation gets into the mailbox. */
  predicate Swaps(run: nat -> State, turns: nat -> nat, i: nat) {
    && turns(i) < |run(i).threads| && run(i).threads[turns(i)].pc == Cas
    && run(i).mailbox == run(i).threads[turns(i)].res
  }

  ghost predicate SwapsFrom(run: nat -> State, turns: nat -> nat, i: nat) {
    exists j: nat :: i <= j && Swaps(run, turns, j)
  }

  ghost predicate SwapsForever(run: nat -> State, turns: nat -> nat) {
    forall i: nat {:trigger SwapsFrom(run, turns, i)} :: SwapsFrom(run, turns, i)
  }

  ghost predicate MailboxStays(run: nat -> State, i: nat, box: Ptr) {
    forall j: nat {:trigger run(j)} :: i <= j ==> run(j).mailbox == box
  }

  lemma MailboxStep(run: nat -> State, turns: nat -> nat, i: nat)
    requires IsRun(run, turns) && !Swaps(run, turns, i)
    ensures run(i + 1).mailbox == run(i).mailbox || run(i + 1).mailbox == Null
  {
    assert RunStep(run, turns, i);
  }

  lemma {:induction false} EmptyStays(run: nat -> State, turns: nat -> nat, i: nat, j: nat)
    requires IsRun(run, turns) && !SwapsFrom(run, turns, i) && run(i).mailbox == Null && i <= j
    ensures run(j).mailbox == Null
    decreases j
  {
    if i < j {
      EmptyStays(run, turns, i, j - 1);
      assert !Swaps(run, turns, j - 1);
      MailboxStep(run, turns, j - 1);
    }
  }

  lemma {:induction false} StaysUnlessEmptied(run: nat -> State, turns: nat -> nat, i: nat, j: nat)
    requires IsRun(run, turns) && !SwapsFrom(run, turns, i) && i <= j
    requires forall k: nat {:trigger run(k)} :: i <= k ==> run(k).mailbox != Null
    ensures run(j).mailbox == run(i).mailbox
    decreases j
  {
    if i < j {
      StaysUnlessEmptied(run, turns, i, j - 1);
      assert !Swaps(run, turns, j - 1);
      MailboxStep(run, turns, j - 1);
      assert run(j).mailbox != Null;
    }
  }

  /** Without further operations the mailbox comes to rest. */
  lemma MailboxRests(run: nat -> State, turns: nat -> nat, i: nat) returns (j: nat)
    requires IsRun(run, turns) && !SwapsFrom(run, turns, i)
    ensures i <= j && MailboxStays(run, j, run(j).mailbox)
  {
    if k: nat :| i <= k && run(k).mailbox == Null {
      j := k;
      forall l: nat | j <= l ensures run(l).mailbox == Null {
        EmptyStays(run, turns, k, l);
      }
    } else {
      j := i;
      forall l: nat | i <= l ensures run(l).mailbox == run(i).mailbox {
        StaysUnlessEmptied(run, turns, i, l);
      }
    }
  }

  /** The steps up to a swap that finds the mailbox as it was read. */
  function Tries(x: Thread, box: Ptr): nat {
    if x.pc == Read then 1 else if x.res != box then 2 else 0
  }

  /** A thread that wants into a mailbox at rest gets there. */
  lemma {:induction false} WillSwap(run: nat -> State, turns: nat -> nat, t: nat, i: nat, j: nat, box: Ptr)
    requires IsRun(run, turns) && Fair(run, turns) && MailboxStays(run, i, box)
    requires t < |run(i).threads| && (run(i).threads[t].pc == Read || run(i).threads[t].pc == Cas)
    requires i <= j && StepsOrWaits(run, turns, t, j)
    ensures SwapsFrom(run, turns, i)
    decreases Tries(run(i).threads[t], box), j - i
  {
    assert RunStep(run, turns, i);
    assert run(i).mailbox == box && run(i + 1).mailbox == box;
    if turns(i) == t {
      if run(i).threads[t].pc == Cas && run(i).threads[t].res == box {
        assert Swaps(run, turns, i);
      } else {
        assert GetsTurn(run, turns, t, i + 1);
        var k: nat :| i + 1 <= k && StepsOrWaits(run, turns, t, k);
        WillSwap(run, turns, t, i + 1, k, box);
      }
    } else {
      OtherKeepsTrying(run(i), turns(i), t);
      WillSwap(run, turns, t, i + 1, j, box);
    }
  }

  lemma OtherKeepsTrying(s: State, u: nat, t: nat)
    requires Enabled(s, u) && t < |s.threads| && t != u
    ensures t < |Step(s, u).threads|
    ensures Step(s, u).threads[t].pc == s.threads[t].pc && Step(s, u).threads[t].res == s.threads[t].res
  {
  }

  /** In every fair run: every call returns with its operation run, unless operations get into the
      mailbox again and again for ever, which may keep one thread from getting its own in. */
  lemma EveryOperationIsRun(run: nat -> State, turns: nat -> nat, t: nat, i: nat)
    requires IsRun(run, turns) && Fair(run, turns) && t < |run(i).threads|
    ensures SwapsForever(run, turns)
            || exists e: nat :: i <= e && OutsideAt(run, t, e)
                 && run(e).threads[t].runs == run(e).threads[t].submitted == run(i).threads[t].submitted
  {
    if !SwapsForever(run, turns) {
      var n: nat :| !SwapsFrom(run, turns, n);
      var k := if n < i then i else n;
      assert !SwapsFrom(run, turns, k);
      var j := MailboxRests(run, turns, k);
      SameThreads(run, turns, i);
      SameThreads(run, turns, j);
      var pc := run(j).threads[t].pc;
      if pc == Read || pc == Cas {
        assert GetsTurn(run, turns, t, j);
        var l: nat :| j <= l && StepsOrWaits(run, turns, t, l);
        WillSwap(run, turns, t, j, l, run(j).mailbox);
        assert false;
      }
      if pc == Idle {
        assert OutsideAt(run, t, j);
      } else {
        PublishedEnds(run, turns, t, j);
      }
      var e: nat :| i <= e && OutsideAt(run, t, e);
      BackFromCall(run, turns, t, i, e);
    }
  }
}
