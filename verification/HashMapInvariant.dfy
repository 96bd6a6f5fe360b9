/** What every step of every thread keeps: where nodes are, which buckets are rehashed, who holds
    which lock. */
module HashMapInvariant {
  import opened Masks
  import opened HashMap

  ghost predicate PendingBy(st: State, t: nat, b: nat) {
    t < |st.threads| && Has(st.threads[t].pending, b)
  }

  predicate Marked(st: State, b: nat) {
    b < |st.buckets| && st.buckets[b].Rehashed?
  }

  /** Bucket b is split off: marked, and filled with all the nodes that belong into it. */
  ghost predicate Finished(st: State, b: nat) {
    Marked(st, b) && forall t: nat {:trigger PendingBy(st, t, b)} :: !PendingBy(st, t, b)
  }

  /** Bucket b has a node with key k. */
  predicate Stored(st: State, b: nat, k: nat) {
    Marked(st, b) && Has(st.buckets[b].list, k)
  }

  ghost predicate Present(st: State, k: nat) {
    exists b: nat :: Stored(st, b, k)
  }

  /** No bucket behind b on the chain of h is split off. */
  ghost predicate LastFinished(st: State, b: nat, h: nat) {
    forall d: nat {:trigger OnChain(d, h)} :: d > b && OnChain(d, h) ==> !Finished(st, d)
  }

  /** Thread u is filling bucket b from its parent and has the parent locked for writing. */
  ghost predicate Filling(x: Thread, b: nat) {
    b >= 2 && x.cur == Parent(b) && x.mode == Write
  }

  /** A node is in the last bucket of its chain that is split off, or in the one after it that is
      just being filled. */
  ghost predicate NodeOk(st: State, b: nat, k: nat) {
    && OnChain(b, st.hash(k)) && b >= Cut(st.hash(k), st.base)
    && (Finished(st, b) || (b >= 2 && Finished(st, Parent(b))))
    && LastFinished(st, b, st.hash(k))
    && (forall u: nat {:trigger PendingBy(st, u, b)} :: PendingBy(st, u, b) ==> Filling(st.threads[u], b))
  }

  ghost predicate Nodes(st: State) {
    forall b: nat, k: nat {:trigger Stored(st, b, k)} :: Stored(st, b, k) ==> NodeOk(st, b, k)
  }

  /** No key is stored twice. */
  ghost predicate Unique(st: State) {
    && (forall b: nat, c: nat, k: nat {:trigger Stored(st, b, k), Stored(st, c, k)} ::
          Stored(st, b, k) && Stored(st, c, k) ==> b == c)
    && (forall b: nat {:trigger Marked(st, b)} :: Marked(st, b) ==> Distinct(st.buckets[b].list))
  }

  ghost predicate ClosedAt(st: State, b: nat) {
    Finished(st, b) && b >= 2 && b >= Pow2(st.base) ==> Finished(st, Parent(b))
  }

  /** What is split off has been split off from something split off itself. */
  ghost predicate Closed(st: State) {
    forall b: nat {:trigger ClosedAt(st, b)} :: ClosedAt(st, b)
  }

  ghost predicate Shape(st: State) {
    1 <= st.base <= st.level && |st.buckets| == Pow2(st.level) && Marked(st, 0) && Marked(st, 1)
  }

  /** A lock held for writing is held by nobody else. */
  ghost predicate Exclusive(st: State) {
    forall t: nat, u: nat, b: nat {:trigger Writes(st.threads[t], b), Locks(st.threads[u], b)} ::
      t < |st.threads| && u < |st.threads| && t != u && Writes(st.threads[t], b) ==> !Locks(st.threads[u], b)
  }

  /** The pending buckets follow bucket cur on the chain of h without a gap. */
  ghost predicate StackOk(st: State, cur: nat, pending: List, h: nat)
    decreases pending
  {
    pending.Cons? ==>
      pending.head >= 2 && Parent(pending.head) == cur && OnChain(pending.head, h) && Marked(st, pending.head)
      && StackOk(st, pending.head, pending.tail, h)
  }

  ghost predicate Recorded(st: State, t: nat, x: Thread) {
    0 <= x.since <= x.mark < |st.log| && st.log[x.mark] == Event(t, x.op, x.key, x.result)
  }

  /** The operation has at most one entry in the log. */
  ghost predicate Once(st: State, t: nat, x: Thread) {
    x.since <= |st.log| &&
    forall i {:trigger st.log[i]} :: x.since <= i < |st.log| && st.log[i].thread == t ==> i == x.mark
  }

  predicate Decided(pc: Pc) {
    pc == Grow || pc == Uncount || pc == Leave || pc == Enable
  }

  /** The thread has bucket cur locked and it is rehashed. */
  ghost predicate Holding(st: State, x: Thread) {
    x.mode != None && Marked(st, x.cur)
  }

  /** Bucket cur is the last bucket of the chain for the thread's mask; or no bucket behind it can be
      split off, as the thread has it locked for writing. */
  ghost predicate AtTarget(st: State, x: Thread) {
    var h := st.hash(x.key);
    x.cur == Cut(h, x.level) || (x.mode == Write && LastFinished(st, x.cur, h))
  }

  /** No bucket of the chain of h lies between b and c. */
  ghost predicate NothingBetween(b: nat, c: nat, h: nat) {
    forall d: nat {:trigger OnChain(d, h)} :: OnChain(d, h) && d > b ==> d >= c
  }

  ghost predicate ProbeOk(st: State, x: Thread) {
    var h := st.hash(x.key);
    x.probe < |st.buckets| &&
    ((OnChain(x.probe, h) && x.probe >= Pow2(st.base) && NothingBetween(x.cur, x.probe, h))
     || (x.mode == Write && LastFinished(st, x.cur, h)))
  }

  /** What the thread knows about its key from the search. */
  ghost predicate MissOk(st: State, x: Thread) {
    && (x.missed ==> !Stored(st, x.cur, x.key))
    && (x.op != Erase ==> x.missed)
    && (x.op == Insert || !x.missed ==> x.mode == Write)
  }

  /** The thread has read what it needs to write bucket cur. */
  ghost predicate ReadyToWrite(st: State, x: Thread) {
    && x.mode == Read && Holding(st, x)
    && (x.pending.Nil? ==>
          && x.op != Find && x.cur == Cut(st.hash(x.key), x.level) && x.missed == (x.op == Insert)
          && Stored(st, x.cur, x.key) == (x.op == Erase))
  }

  ghost predicate PhaseOk(st: State, t: nat, x: Thread) {
    var h := st.hash(x.key);
    match x.pc
    case Idle => true
    case Load => true
    case Enable => x.grow
    case Acquire => x.mode == None
    case TryLock => x.mode == None
    case Lock => x.mode == None && (Marked(st, x.cur) || !NoWriter(st, t, x.cur))
    case Recheck => x.mode == Write
    case Mark => x.mode == Write && !Marked(st, x.cur)
    case Scan => Holding(st, x) && x.pending.Cons?
    case Pop => Holding(st, x) && x.pending.Cons? && !AnyFor(st.buckets[x.cur].list, x.pending.head, st.hash)
    case Upgrade => ReadyToWrite(st, x)
    case WaitUpgrade => ReadyToWrite(st, x)
    case WaitWrite =>
      && x.mode == None && Marked(st, x.cur)
      && (x.pending.Nil? ==> x.op != Find && x.cur == Cut(h, x.level) && x.missed == (x.op == Insert))
    case Search => Holding(st, x) && x.pending.Nil? && AtTarget(st, x)
    case Check => Holding(st, x) && x.pending.Nil? && AtTarget(st, x) && MissOk(st, x)
    case CheckFlag => Holding(st, x) && x.pending.Nil? && ProbeOk(st, x) && MissOk(st, x)
    case Restart => Holding(st, x) && x.pending.Nil?
    case Count => Holding(st, x) && x.pending.Nil? && MissOk(st, x) && x.op == Insert && LastFinished(st, x.cur, h)
    case Add => Holding(st, x) && x.pending.Nil? && MissOk(st, x) && x.op == Insert && LastFinished(st, x.cur, h)
    case Unlink => x.mode == Write && x.pending.Nil? && x.op == Erase && Stored(st, x.cur, x.key)
    case Grow => Holding(st, x) && x.pending.Nil?
    case Uncount => Holding(st, x) && x.pending.Nil?
    case Leave => Holding(st, x) && x.pending.Nil?
  }

  predicate Outside(pc: Pc) {
    pc == Idle || pc == Load || pc == Enable
  }

  predicate Entering(pc: Pc) {
    pc == Acquire || pc == TryLock || pc == Recheck || pc == Mark || pc == Lock
  }

  /** Where the thread is on the chain of its key, and what it has pending. */
  ghost predicate PlaceOk(st: State, x: Thread) {
    var h := st.hash(x.key);
    && (if Outside(x.pc) then x.mode == None && x.pending == Nil
        else
          && st.base <= x.level <= st.level && x.cur < |st.buckets| && OnChain(x.cur, h)
          && StackOk(st, x.cur, x.pending, h) && (x.pending.Nil? ==> x.cur >= Cut(h, st.base)))
    && (x.pending.Nil? && Entering(x.pc) ==> x.cur == Cut(h, x.level))
    && (x.pending.Cons? ==> AtStackBottom(x.pending, Cut(h, x.level)))
  }

  /** The operation has entered the log if and only if it is decided. */
  ghost predicate EntryOk(st: State, t: nat, x: Thread) {
    && Once(st, t, x)
    && (Decided(x.pc) ==> Recorded(st, t, x))
    && (!Decided(x.pc) ==> x.mark == -1 || (x.pc == Idle && Recorded(st, t, x)))
  }

  ghost predicate ThreadOk(st: State, t: nat)
    requires t < |st.threads|
  {
    var x := st.threads[t];
    PlaceOk(st, x) && PhaseOk(st, t, x) && EntryOk(st, t, x)
  }

  predicate AtStackBottom(pending: List, target: nat)
    decreases pending
  {
    pending.Cons? && if pending.tail.Nil? then pending.head == target else AtStackBottom(pending.tail, target)
  }

  /** One thread at most is about to enlarge the table, by the segment that comes next. */
  ghost predicate GrowOk(st: State) {
    && (forall t: nat {:trigger st.threads[t]} ::
          t < |st.threads| && st.threads[t].grow ==>
            st.growing && st.threads[t].level == st.level && (st.threads[t].pc == Leave || st.threads[t].pc == Enable))
    && (forall t: nat, u: nat {:trigger st.threads[t], st.threads[u]} ::
          t < |st.threads| && u < |st.threads| && t != u && st.threads[t].grow ==> !st.threads[u].grow)
  }

  ghost predicate Inv(st: State) {
    && Shape(st) && Closed(st) && Nodes(st) && Unique(st) && Exclusive(st) && GrowOk(st)
    && (forall t: nat {:trigger ThreadOk(st, t)} :: t < |st.threads| ==> ThreadOk(st, t))
  }

  // ---------- consequences ----------

  /** Where a thread is and what it knows, without its entry in the log. */
  lemma Own(st: State, t: nat)
    requires Inv(st) && t < |st.threads|
    ensures PlaceOk(st, st.threads[t]) && PhaseOk(st, t, st.threads[t])
  {
    assert ThreadOk(st, t);
  }

  lemma {:induction false} PendingIs(st: State, cur: nat, pending: List, h: nat, b: nat)
    requires StackOk(st, cur, pending, h) && Has(pending, b)
    ensures b > cur && b >= 2 && OnChain(b, h) && Marked(st, b)
    decreases pending
  {
    if pending.head != b {
      PendingIs(st, pending.head, pending.tail, h, b);
    }
  }

  /** A bucket a thread has locked and found rehashed is split off. */
  lemma HeldFinished(st: State, t: nat)
    requires Exclusive(st) && t < |st.threads| && ThreadOk(st, t) && !Outside(st.threads[t].pc)
    requires Holding(st, st.threads[t])
    ensures Finished(st, st.threads[t].cur)
  {
    var x := st.threads[t];
    forall u: nat ensures !PendingBy(st, u, x.cur) {
      if PendingBy(st, u, x.cur) {
        assert Writes(st.threads[u], x.cur) && Locks(x, x.cur);
        PendingIs(st, x.cur, x.pending, st.hash(x.key), x.cur);
        assert false;
      }
    }
  }

  lemma {:induction false} FinishedDown(st: State, b: nat, e: nat, h: nat)
    requires Closed(st) && Finished(st, b) && OnChain(b, h) && OnChain(e, h) && Pow2(st.base) <= e <= b
    ensures Finished(st, e)
    decreases b
  {
    if e < b {
      assert ClosedAt(st, b);
      ChainOrder(e, b, h);
      ParentOnChain(b, h);
      FinishedDown(st, Parent(b), e, h);
    }
  }

  /** If a thread holds bucket cur, cur lacks the key, and no bucket behind it on the chain is split
      off, then the map lacks the key. */
  lemma AbsentEverywhere(st: State, t: nat, k: nat)
    requires Inv(st) && t < |st.threads| && Holding(st, st.threads[t]) && !Outside(st.threads[t].pc)
    requires st.threads[t].pending.Nil? && OnChain(st.threads[t].cur, st.hash(k))
    requires !Stored(st, st.threads[t].cur, k) && LastFinished(st, st.threads[t].cur, st.hash(k))
    ensures !Present(st, k)
  {
    var x := st.threads[t];
    var h := st.hash(k);
    HeldFinished(st, t);
    forall b: nat ensures !Stored(st, b, k) {
      if Stored(st, b, k) {
        assert NodeOk(st, b, k);
        if b > x.cur {
          ChainOrder(x.cur, b, h);
          ParentOnChain(b, h);
          assert !Finished(st, b);
          assert Parent(b) == x.cur;
          var u: nat :| PendingBy(st, u, b);
          assert Filling(st.threads[u], b);
          assert Writes(st.threads[u], x.cur) && Locks(x, x.cur);
          assert false;
        } else {
          assert false;
        }
      }
    }
  }

  /** With a current mask, or a stale one that makes no difference for the hash code, no bucket
      behind cur exists. */
  lemma CurrentMask(st: State, x: Thread)
    requires Shape(st) && 1 <= x.level <= st.level && AtTarget(st, x)
    requires Cut(st.hash(x.key), x.level) == Cut(st.hash(x.key), st.level)
    ensures LastFinished(st, x.cur, st.hash(x.key))
  {
    var h := st.hash(x.key);
    if x.cur == Cut(h, x.level) {
      forall d: nat | d > x.cur && OnChain(d, h) ensures !Finished(st, d) {
        if d < |st.buckets| {
          CutIsLast(d, h, st.level);
        }
      }
    }
  }

  /** With a stale mask: if the next bucket of the chain is not marked, no bucket behind cur is split
      off. */
  lemma StaleMask(st: State, x: Thread)
    requires Closed(st) && ProbeOk(st, x) && !Marked(st, x.probe)
    ensures LastFinished(st, x.cur, st.hash(x.key))
  {
    var h := st.hash(x.key);
    if OnChain(x.probe, h) && x.probe >= Pow2(st.base) && NothingBetween(x.cur, x.probe, h) {
      forall d: nat | d > x.cur && OnChain(d, h) ensures !Finished(st, d) {
        if Finished(st, d) {
          FinishedDown(st, d, x.probe, h);
        }
      }
    }
  }

  // ---------- initial states ----------

  lemma InitInv(st: State)
    requires Init(st)
    ensures Inv(st)
  {
    assert Pow2(1) == 2;
    forall t: nat | t < |st.threads| ensures ThreadOk(st, t) {
      assert st.threads[t].pc == Idle;
    }
    forall b: nat | Finished(st, b) ensures b < 2 {
    }
  }

  // ---------- what a step of one thread leaves to the others ----------

  /** Thread t has added to the log or left it alone. */
  ghost predicate LogGrown(st: State, t: nat, st': State) {
    && |st.log| <= |st'.log|
    && (forall i {:trigger st'.log[i]} :: 0 <= i < |st.log| ==> st'.log[i] == st.log[i])
    && (forall i {:trigger st'.log[i]} :: |st.log| <= i < |st'.log| ==> st'.log[i].thread == t)
  }

  /** Thread t makes a step: other threads stay, buckets stay marked, and only buckets it has locked
      for writing change; a bucket becomes split off only when its parent is locked by t. */
  ghost predicate Frame(st: State, t: nat, st': State) {
    && t < |st.threads| == |st'.threads| && st'.hash == st.hash && st'.base == st.base && st.level <= st'.level
    && |st.buckets| <= |st'.buckets|
    && (forall u: nat {:trigger st'.threads[u]} :: u < |st.threads| && u != t ==> st'.threads[u] == st.threads[u])
    && (forall b: nat {:trigger st'.buckets[b]} ::
          b < |st.buckets| && !Writes(st.threads[t], b) ==> st'.buckets[b] == st.buckets[b])
    && (forall b: nat {:trigger Marked(st', b)} :: Marked(st, b) ==> Marked(st', b))
    && (forall b: nat {:trigger Writes(st.threads[t], b)} ::
          Writes(st.threads[t], b) ==> Marked(st', b) || Writes(st'.threads[t], b))
    && (forall d: nat {:trigger Finished(st', d)} ::
          Finished(st', d) ==>
            Finished(st, d) || (d >= 2 && Locks(st.threads[t], Parent(d)) && Finished(st, Parent(d))))
    && LogGrown(st, t, st')
  }

  lemma {:induction false} FrameStack(st: State, t: nat, st': State, cur: nat, pending: List, h: nat)
    requires Frame(st, t, st') && StackOk(st, cur, pending, h)
    ensures StackOk(st', cur, pending, h)
    decreases pending
  {
    if pending.Cons? {
      FrameStack(st, t, st', pending.head, pending.tail, h);
    }
  }

  /** A bucket that another thread has locked keeps its nodes. */
  lemma OtherBucket(st: State, t: nat, st': State, u: nat)
    requires Frame(st, t, st') && Exclusive(st) && u < |st.threads| && u != t
    requires st.threads[u].mode != None && st.threads[u].cur < |st.buckets|
    ensures st'.buckets[st.threads[u].cur] == st.buckets[st.threads[u].cur]
  {
    var b := st.threads[u].cur;
    assert Locks(st.threads[u], b);
    assert !Writes(st.threads[t], b);
  }

  lemma OtherLast(st: State, t: nat, st': State, u: nat)
    requires Frame(st, t, st') && Exclusive(st) && u < |st.threads| && u != t
    requires var x := st.threads[u];
             x.mode == Write && OnChain(x.cur, st.hash(x.key)) && LastFinished(st, x.cur, st.hash(x.key))
    ensures LastFinished(st', st.threads[u].cur, st.hash(st.threads[u].key))
  {
    var x := st.threads[u];
    var h := st.hash(x.key);
    forall d: nat | d > x.cur && OnChain(d, h) ensures !Finished(st', d) {
      if Finished(st', d) {
        ChainOrder(x.cur, d, h);
        ParentOnChain(d, h);
        assert Writes(x, x.cur);
      }
    }
  }

  lemma OtherLock(st: State, t: nat, st': State, u: nat)
    requires Frame(st, t, st') && u < |st.threads| && u != t
    requires Marked(st, st.threads[u].cur) || !NoWriter(st, u, st.threads[u].cur)
    ensures Marked(st', st.threads[u].cur) || !NoWriter(st', u, st.threads[u].cur)
  {
    var b := st.threads[u].cur;
    if !Marked(st, b) {
      var v: nat :| v < |st.threads| && v != u && Writes(st.threads[v], b);
      if v != t {
        assert Writes(st'.threads[v], b);
      }
    }
  }

  lemma OtherThread(st: State, t: nat, st': State, u: nat)
    requires Frame(st, t, st') && Exclusive(st) && u < |st.threads| && u != t && ThreadOk(st, u)
    ensures ThreadOk(st', u)
  {
    var x := st.threads[u];
    var h := st.hash(x.key);
    assert st'.threads[u] == x;
    FrameStack(st, t, st', x.cur, x.pending, h);
    if !Outside(x.pc) {
      if x.mode != None {
        OtherBucket(st, t, st', u);
      }
      if x.mode == Write && LastFinished(st, x.cur, h) {
        OtherLast(st, t, st', u);
      }
      if x.pc == Lock {
        OtherLock(st, t, st', u);
      }
    }
  }
}
