/** Whole runs of the concurrent hash map: every operation takes effect at one moment between its
    start and its end, as if the map were a set of keys used by one thread. */
module HashMapRuns {
  import opened Masks
  import opened HashMap
  import opened HashMapInvariant
  import opened HashMapSteps
  import SerialRehash

  // ---------- a set of keys ----------

  /** Whether key k is in the set after the operations of the log. */
  predicate Replay(log: seq<Event>, k: nat)
    decreases |log|
  {
    if |log| == 0 then false
    else
      var e := log[|log| - 1];
      if e.key == k && e.result && e.op != Find then e.op == Insert else Replay(log[..|log| - 1], k)
  }

  /** Find and Erase report whether the key is there, Insert whether it was not. */
  predicate ResultOk(present: bool, e: Event) {
    e.result == (present != (e.op == Insert))
  }

  /** Every operation of the log has the result it has on a set. */
  predicate Legal(log: seq<Event>)
    decreases |log|
  {
    |log| == 0 ||
    (var n := |log| - 1; Legal(log[..n]) && ResultOk(Replay(log[..n], log[n].key), log[n]))
  }

  ghost predicate LogOk(st: State) {
    Legal(st.log) && forall k: nat {:trigger Present(st, k)} :: Present(st, k) <==> Replay(st.log, k)
  }

  lemma Appended(log: seq<Event>, e: Event)
    ensures (log + [e])[..|log|] == log
    ensures Legal(log + [e]) <==> Legal(log) && ResultOk(Replay(log, e.key), e)
    ensures forall k: nat :: Replay(log + [e], k) <==>
                             if e.key == k && e.result && e.op != Find then e.op == Insert else Replay(log, k)
  {
  }

  // ---------- what a step does to the stored keys ----------

  predicate Moves(st: State, x: Thread)
    requires x.pc == Scan ==> x.pending.Cons? && Marked(st, x.cur)
  {
    x.pc == Scan && x.mode == Write && AnyFor(st.buckets[x.cur].list, x.pending.head, st.hash)
  }

  predicate Touches(pc: Pc) {
    pc == Mark || pc == Add || pc == Unlink || pc == Enable
  }

  lemma SameTable(st: State, m: Move)
    requires InBounds(st, m.thread)
    requires var x := st.threads[m.thread]; !Touches(x.pc) && !Moves(st, x)
    ensures Step(st, m).buckets == st.buckets
  {
  }

  lemma MarkStored(st: State, m: Move, b: nat, k: nat)
    requires InBounds(st, m.thread) && st.threads[m.thread].pc == Mark && !Marked(st, st.threads[m.thread].cur)
    ensures Stored(Step(st, m), b, k) <==> Stored(st, b, k)
  {
  }

  lemma EnableStored(st: State, m: Move, b: nat, k: nat)
    requires InBounds(st, m.thread) && st.threads[m.thread].pc == Enable
    ensures Stored(Step(st, m), b, k) <==> Stored(st, b, k)
  {
    assert Step(st, m).buckets == st.buckets + Fresh(Pow2(NextLevel(st.threads[m.thread].level)) - |st.buckets|);
  }

  lemma SameStored(st: State, m: Move, b: nat, k: nat)
    requires Inv(st) && InBounds(st, m.thread)
    requires var x := st.threads[m.thread]; x.pc != Add && x.pc != Unlink && !Moves(st, x)
    ensures Stored(Step(st, m), b, k) <==> Stored(st, b, k)
  {
    var x := st.threads[m.thread];
    if x.pc == Mark {
      assert ThreadOk(st, m.thread);
      MarkStored(st, m, b, k);
    } else if x.pc == Enable {
      EnableStored(st, m, b, k);
    } else {
      SameTable(st, m);
    }
  }

  lemma SamePresent(st: State, m: Move, k: nat)
    requires Inv(st) && InBounds(st, m.thread)
    requires var x := st.threads[m.thread]; x.pc != Add && x.pc != Unlink
    ensures Present(Step(st, m), k) <==> Present(st, k)
  {
    var st' := Step(st, m);
    var x := st.threads[m.thread];
    assert ThreadOk(st, m.thread);
    if Moves(st, x) {
      var b, d := x.cur, x.pending.head;
      var j := FirstFor(st.buckets[b].list, d, st.hash);
      FirstForIn(st.buckets[b].list, d, st.hash);
      forall c: nat
        ensures Stored(st', c, k) <==> if k == j && c == b then false else Stored(st, c, k) || (k == j && c == d)
      {
        MovedStored(st, m.thread, st', j, c, k);
      }
      if k == j {
        assert Stored(st', d, k) && Stored(st, b, k);
      }
    } else {
      forall c: nat ensures Stored(st', c, k) <==> Stored(st, c, k) {
        SameStored(st, m, c, k);
      }
    }
  }

  lemma AddPresent(st: State, m: Move, k: nat)
    requires Inv(st) && InBounds(st, m.thread) && st.threads[m.thread].pc == Add
    ensures Present(Step(st, m), k) <==> Present(st, k) || k == st.threads[m.thread].key
  {
    var st', x := Step(st, m), st.threads[m.thread];
    assert ThreadOk(st, m.thread);
    forall c: nat ensures Stored(st', c, k) <==> Stored(st, c, k) || (c == x.cur && k == x.key) {
    }
  }

  lemma UnlinkPresent(st: State, m: Move, k: nat)
    requires Inv(st) && InBounds(st, m.thread) && st.threads[m.thread].pc == Unlink
    ensures Present(st, st.threads[m.thread].key)
    ensures Present(Step(st, m), k) <==> Present(st, k) && k != st.threads[m.thread].key
  {
    var st', x := Step(st, m), st.threads[m.thread];
    assert ThreadOk(st, m.thread);
    assert Stored(st, x.cur, x.key);
    forall c: nat ensures Stored(st', c, k) <==> Stored(st, c, k) && k != x.key {
      WithoutHas(st.buckets[x.cur].list, x.key, k);
      assert Stored(st, c, x.key) ==> c == x.cur;
    }
  }

  /** An operation that reports its key missing is right at that moment, whatever mask it uses. */
  lemma MissIsTrue(st: State, m: Move)
    requires Inv(st) && InBounds(st, m.thread)
    requires var x := st.threads[m.thread];
             && (x.pc == Check || x.pc == CheckFlag) && x.op != Insert && x.missed
             && Step(st, m).threads[m.thread].pc == Leave
    ensures !Present(st, st.threads[m.thread].key)
  {
    var x := st.threads[m.thread];
    assert ThreadOk(st, m.thread);
    if x.pc == Check {
      CurrentMask(st, x);
    } else {
      StaleMask(st, x);
    }
    AbsentEverywhere(st, m.thread, x.key);
  }

  /** If a search with a stale mask has missed a key that is there, the thread finds that its mask is
      stale, and the next bucket of the chain marked, and starts over. */
  lemma StaleSearchRestarts(st: State, m: Move)
    requires Inv(st) && InBounds(st, m.thread)
    requires var x := st.threads[m.thread];
             (x.pc == Check || x.pc == CheckFlag) && x.missed && Present(st, x.key)
    ensures var x, x' := st.threads[m.thread], Step(st, m).threads[m.thread];
            && (x.pc == Check ==>
                  && x'.pc == CheckFlag && x.level < st.level
                  && Cut(st.hash(x.key), x.level) != Cut(st.hash(x.key), st.level))
            && (x.pc == CheckFlag ==> x'.pc == Restart && Marked(st, x.probe))
  {
    var x := st.threads[m.thread];
    assert ThreadOk(st, m.thread);
    if x.pc == Check && Cut(st.hash(x.key), x.level) == Cut(st.hash(x.key), st.level) {
      CurrentMask(st, x);
      AbsentEverywhere(st, m.thread, x.key);
    } else if x.pc == CheckFlag && !Marked(st, x.probe) {
      StaleMask(st, x);
      AbsentEverywhere(st, m.thread, x.key);
    }
  }

  // ---------- the log ----------

  /** The step adds an entry for the operation, true of the stored keys, and it says that the
      operation has changed the map only if the step does. */
  ghost predicate TrueEntry(st: State, m: Move, e: Event)
    requires m.thread < |st.threads|
  {
    var x := st.threads[m.thread];
    && e.thread == m.thread && e.key == x.key && e.op == x.op && ResultOk(Present(st, e.key), e)
    && (e.op != Find && e.result <==> x.pc == Add || x.pc == Unlink)
  }

  predicate MayDecide(pc: Pc) {
    pc == Search || pc == Check || pc == CheckFlag || pc == Add || pc == Unlink
  }

  lemma SameLog(st: State, m: Move)
    requires InBounds(st, m.thread) && !MayDecide(st.threads[m.thread].pc)
    ensures Step(st, m).log == st.log
  {
  }

  lemma SearchEntry(st: State, m: Move)
    requires Inv(st) && InBounds(st, m.thread) && st.threads[m.thread].pc == Search
    ensures Step(st, m).log == st.log || exists e: Event :: Step(st, m).log == st.log + [e] && TrueEntry(st, m, e)
  {
    var x := st.threads[m.thread];
    if Has(st.buckets[x.cur].list, x.key) && x.op != Erase {
      var e := Event(m.thread, x.op, x.key, x.op == Find);
      assert Stored(st, x.cur, x.key);
      assert Step(st, m).log == st.log + [e] && TrueEntry(st, m, e);
    }
  }

  lemma MissEntry(st: State, m: Move)
    requires Inv(st) && InBounds(st, m.thread)
    requires st.threads[m.thread].pc == Check || st.threads[m.thread].pc == CheckFlag
    ensures Step(st, m).log == st.log || exists e: Event :: Step(st, m).log == st.log + [e] && TrueEntry(st, m, e)
  {
    var x := st.threads[m.thread];
    assert ThreadOk(st, m.thread);
    if Step(st, m).threads[m.thread].pc == Leave {
      var e := Event(m.thread, x.op, x.key, false);
      MissIsTrue(st, m);
      assert Step(st, m).log == st.log + [e] && TrueEntry(st, m, e);
    }
  }

  /** The entry a step adds to the log has the result it has on the set of stored keys. */
  lemma EntryIsTrue(st: State, m: Move)
    requires Inv(st) && InBounds(st, m.thread)
    ensures Step(st, m).log == st.log || exists e: Event :: Step(st, m).log == st.log + [e] && TrueEntry(st, m, e)
  {
    var x := st.threads[m.thread];
    assert ThreadOk(st, m.thread);
    if x.pc == Search {
      SearchEntry(st, m);
    } else if x.pc == Check || x.pc == CheckFlag {
      MissEntry(st, m);
    } else if x.pc == Add || x.pc == Unlink {
      var e := Event(m.thread, x.op, x.key, true);
      if x.pc == Add {
        StepAdd(st, m);
      } else {
        UnlinkPresent(st, m, x.key);
      }
      assert Step(st, m).log == st.log + [e] && TrueEntry(st, m, e);
    } else {
      SameLog(st, m);
    }
  }

  lemma StepLog(st: State, m: Move)
    requires Inv(st) && InBounds(st, m.thread) && LogOk(st)
    ensures LogOk(Step(st, m))
  {
    var st', x := Step(st, m), st.threads[m.thread];
    EntryIsTrue(st, m);
    forall k: nat
      ensures Present(st', k) <==>
                if x.pc == Add && k == x.key then true
                else if x.pc == Unlink && k == x.key then false
                else Present(st, k)
    {
      if x.pc == Add {
        AddPresent(st, m, k);
      } else if x.pc == Unlink {
        UnlinkPresent(st, m, k);
      } else {
        SamePresent(st, m, k);
      }
    }
    if st'.log != st.log {
      var e :| st'.log == st.log + [e] && TrueEntry(st, m, e);
      Appended(st.log, e);
      assert ThreadOk(st, m.thread);
      assert Present(st, e.key) <==> Replay(st.log, e.key);
    }
  }

  // ---------- my_size ----------

  function InBucket(b: Bucket): nat {
    if b.Rehashed? then Length(b.list) else 0
  }

  function IsAhead(x: Thread): nat {
    if x.pc == Add || x.pc == Uncount then 1 else 0
  }

  /** Nodes in the first n buckets. */
  ghost function Total(buckets: seq<Bucket>, n: nat): nat
    requires n <= |buckets|
  {
    if n == 0 then 0
    else Total(buckets, n - 1) + InBucket(buckets[n - 1])
  }

  /** Threads among the first n that are between changing my_size and changing a bucket. */
  ghost function Ahead(threads: seq<Thread>, n: nat): nat
    requires n <= |threads|
  {
    if n == 0 then 0
    else Ahead(threads, n - 1) + IsAhead(threads[n - 1])
  }

  ghost predicate SizeOk(st: State) {
    st.size == Total(st.buckets, |st.buckets|) + Ahead(st.threads, |st.threads|)
  }

  lemma {:induction false} TotalSet(buckets: seq<Bucket>, b: nat, x: Bucket, n: nat)
    requires b < |buckets| && n <= |buckets|
    ensures Total(buckets[b := x], n) == Total(buckets, n) + if b < n then InBucket(x) - InBucket(buckets[b]) else 0
    decreases n
  {
    if n > 0 {
      TotalSet(buckets, b, x, n - 1);
    }
  }

  lemma {:induction false} TotalFresh(buckets: seq<Bucket>, more: nat, n: nat)
    requires n <= |buckets| + more
    ensures Total(buckets + Fresh(more), n) == Total(buckets, if n < |buckets| then n else |buckets|)
    decreases n
  {
    if n > 0 {
      TotalFresh(buckets, more, n - 1);
    }
  }

  lemma {:induction false} AheadSet(threads: seq<Thread>, t: nat, x: Thread, n: nat)
    requires t < |threads| && n <= |threads|
    ensures Ahead(threads[t := x], n) == Ahead(threads, n) + if t < n then IsAhead(x) - IsAhead(threads[t]) else 0
    decreases n
  {
    if n > 0 {
      AheadSet(threads, t, x, n - 1);
    }
  }

  lemma {:induction false} WithoutLength(l: List, k: nat)
    requires Has(l, k)
    ensures Length(Without(l, k)) + 1 == Length(l)
  {
    if l.head != k {
      WithoutLength(l.tail, k);
    }
  }

  /** The change of the number of nodes by a step. */
  function NodesDelta(pc: Pc): int {
    if pc == Add then 1 else if pc == Unlink then -1 else 0
  }

  lemma LinkTotal(st: State, m: Move)
    requires InBounds(st, m.thread)
    requires var x := st.threads[m.thread];
             || (x.pc == Mark && !Marked(st, x.cur))
             || x.pc == Add
             || (x.pc == Unlink && Stored(st, x.cur, x.key))
    ensures Step(st, m).buckets == st.buckets[st.threads[m.thread].cur := Step(st, m).buckets[st.threads[m.thread].cur]]
    ensures Total(Step(st, m).buckets, |st.buckets|)
            == Total(st.buckets, |st.buckets|) + NodesDelta(st.threads[m.thread].pc)
  {
    var x := st.threads[m.thread];
    if x.pc == Unlink {
      WithoutLength(st.buckets[x.cur].list, x.key);
    }
    TotalSet(st.buckets, x.cur, Step(st, m).buckets[x.cur], |st.buckets|);
  }

  /** What the thread knows before it changes a bucket. */
  ghost predicate LinkReady(st: State, t: nat)
    requires InBounds(st, t)
  {
    var x := st.threads[t];
    && (x.pc == Mark ==> !Marked(st, x.cur))
    && (x.pc == Unlink ==> Stored(st, x.cur, x.key))
    && (x.pc == Scan ==> x.cur != x.pending.head)
  }

  lemma InvLinkReady(st: State, t: nat)
    requires Inv(st) && InBounds(st, t)
    ensures LinkReady(st, t)
  {
    assert ThreadOk(st, t);
  }

  lemma EnableTotal(st: State, m: Move)
    requires InBounds(st, m.thread) && st.threads[m.thread].pc == Enable
    ensures var st' := Step(st, m); Total(st'.buckets, |st'.buckets|) == Total(st.buckets, |st.buckets|)
  {
    var more := Pow2(NextLevel(st.threads[m.thread].level)) - |st.buckets|;
    assert Step(st, m).buckets == st.buckets + Fresh(more);
    TotalFresh(st.buckets, more, |st.buckets| + more);
  }

  lemma StepTotal(st: State, m: Move)
    requires InBounds(st, m.thread) && LinkReady(st, m.thread)
    ensures var st' := Step(st, m);
            Total(st'.buckets, |st'.buckets|) == Total(st.buckets, |st.buckets|) + NodesDelta(st.threads[m.thread].pc)
  {
    var x := st.threads[m.thread];
    if x.pc == Mark || x.pc == Add || x.pc == Unlink {
      LinkTotal(st, m);
    } else if x.pc == Enable {
      EnableTotal(st, m);
    } else if Moves(st, x) {
      MoveTotal(st, m);
    } else {
      SameTable(st, m);
    }
  }

  lemma MoveTotal(st: State, m: Move)
    requires InBounds(st, m.thread) && st.threads[m.thread].pc == Scan && Moves(st, st.threads[m.thread])
    requires st.threads[m.thread].cur != st.threads[m.thread].pending.head
    ensures |Step(st, m).buckets| == |st.buckets|
    ensures Total(Step(st, m).buckets, |st.buckets|) == Total(st.buckets, |st.buckets|)
  {
    var x := st.threads[m.thread];
    var b, d := x.cur, x.pending.head;
    var l := st.buckets[b].list;
    var k := FirstFor(l, d, st.hash);
    FirstForIn(l, d, st.hash);
    WithoutLength(l, k);
    var mid := st.buckets[b := Rehashed(Without(l, k))];
    TotalSet(st.buckets, b, Rehashed(Without(l, k)), |st.buckets|);
    TotalSet(mid, d, Rehashed(Cons(k, st.buckets[d].list)), |st.buckets|);
  }

  lemma SameThreads(st: State, m: Move)
    requires InBounds(st, m.thread)
    ensures Step(st, m).threads == st.threads[m.thread := Step(st, m).threads[m.thread]]
  {
  }

  lemma SizeDelta(st: State, m: Move)
    requires InBounds(st, m.thread)
    ensures var pc := st.threads[m.thread].pc;
            Step(st, m).size - st.size == if pc == Count then 1 else if pc == Uncount then -1 else 0
  {
  }

  predicate MaySearch(pc: Pc) {
    pc == Search || pc == Check || pc == CheckFlag
  }

  predicate AfterSearch(pc: Pc) {
    || pc == Search || pc == Check || pc == CheckFlag || pc == Upgrade || pc == Unlink || pc == Restart
    || pc == Count || pc == Leave
  }

  lemma SearchLeadsTo(st: State, m: Move)
    requires InBounds(st, m.thread) && st.threads[m.thread].pc == Search
    ensures AfterSearch(Step(st, m).threads[m.thread].pc)
  {
  }

  lemma CheckLeadsTo(st: State, m: Move)
    requires InBounds(st, m.thread) && MaySearch(st.threads[m.thread].pc)
    ensures AfterSearch(Step(st, m).threads[m.thread].pc)
  {
    if st.threads[m.thread].pc == Search {
      SearchLeadsTo(st, m);
    }
  }

  lemma AheadNext(st: State, m: Move)
    requires InBounds(st, m.thread)
    ensures var pc := st.threads[m.thread].pc;
            IsAhead(Step(st, m).threads[m.thread]) == if pc == Count || pc == Unlink then 1 else 0
  {
    if MaySearch(st.threads[m.thread].pc) {
      CheckLeadsTo(st, m);
    }
  }

  lemma StepSize(st: State, m: Move)
    requires Inv(st) && InBounds(st, m.thread) && SizeOk(st)
    ensures SizeOk(Step(st, m))
  {
    var t, st' := m.thread, Step(st, m);
    InvLinkReady(st, t);
    StepTotal(st, m);
    SameThreads(st, m);
    SizeDelta(st, m);
    AheadNext(st, m);
    AheadSet(st.threads, t, st'.threads[t], |st.threads|);
  }

  // ---------- between operations ----------

  ghost predicate Quiescent(st: State) {
    forall t: nat {:trigger st.threads[t]} :: t < |st.threads| ==> st.threads[t].pc == Idle
  }

  ghost function Keys(l: List): set<nat> {
    if l.Nil? then {} else {l.head} + Keys(l.tail)
  }

  lemma {:induction false} KeysOf(l: List, k: nat)
    ensures k in Keys(l) <==> Has(l, k)
  {
    if l.Cons? {
      KeysOf(l.tail, k);
    }
  }

  lemma {:induction false} KeysLength(l: List)
    requires Distinct(l)
    ensures |Keys(l)| == Length(l)
  {
    if l.Cons? {
      KeysLength(l.tail);
      KeysOf(l.tail, l.head);
    }
  }

  /** The keys in the first n buckets. */
  ghost function TableKeys(bs: seq<Bucket>, n: nat): set<nat>
    requires n <= |bs|
  {
    if n == 0 then {}
    else TableKeys(bs, n - 1) + if bs[n - 1].Rehashed? then Keys(bs[n - 1].list) else {}
  }

  lemma {:induction false} TableKeysOf(bs: seq<Bucket>, n: nat, k: nat)
    requires n <= |bs|
    ensures k in TableKeys(bs, n) <==> exists b: nat :: b < n && SerialRehash.In(bs, b, k)
    decreases n
  {
    if n > 0 {
      TableKeysOf(bs, n - 1, k);
      if bs[n - 1].Rehashed? {
        KeysOf(bs[n - 1].list, k);
      }
      assert SerialRehash.In(bs, n - 1, k) <==> bs[n - 1].Rehashed? && Has(bs[n - 1].list, k);
    }
  }

  /** Without doubles there are as many nodes as keys. */
  lemma {:induction false} TotalIsKeys(bs: seq<Bucket>, n: nat)
    requires SerialRehash.UniqueTable(bs) && n <= |bs|
    ensures Total(bs, n) == |TableKeys(bs, n)|
    decreases n
  {
    if n > 0 {
      TotalIsKeys(bs, n - 1);
      if bs[n - 1].Rehashed? {
        assert SerialRehash.IsMarked(bs, n - 1);
        var l := bs[n - 1].list;
        KeysLength(l);
        forall k | k in Keys(l) ensures k !in TableKeys(bs, n - 1) {
          KeysOf(l, k);
          TableKeysOf(bs, n - 1, k);
          assert SerialRehash.In(bs, n - 1, k);
        }
        assert TableKeys(bs, n - 1) !! Keys(l);
      }
    }
  }

  lemma SameTotal(bs: seq<Bucket>, bs': seq<Bucket>)
    requires SerialRehash.UniqueTable(bs) && SerialRehash.UniqueTable(bs') && SerialRehash.SameKeys(bs, bs')
    ensures Total(bs, |bs|) == Total(bs', |bs'|)
  {
    TotalIsKeys(bs, |bs|);
    TotalIsKeys(bs', |bs'|);
    forall k: nat ensures k in TableKeys(bs, |bs|) <==> k in TableKeys(bs', |bs'|) {
      TableKeysOf(bs, |bs|, k);
      TableKeysOf(bs', |bs'|, k);
      assert SerialRehash.Contains(bs, k) <==> SerialRehash.Contains(bs', k);
    }
    assert TableKeys(bs, |bs|) == TableKeys(bs', |bs'|);
  }

  lemma {:induction false} NobodyAhead(threads: seq<Thread>, n: nat)
    requires n <= |threads| && forall t: nat :: t < |threads| ==> threads[t].pc == Idle
    ensures Ahead(threads, n) == 0
    decreases n
  {
    if n > 0 {
      NobodyAhead(threads, n - 1);
    }
  }

  lemma QuiescentFinished(st: State, b: nat)
    requires Quiescent(st)
    requires forall t: nat {:trigger st.threads[t]} :: t < |st.threads| ==> st.threads[t].pending == Nil
    ensures Finished(st, b) <==> SerialRehash.IsMarked(st.buckets, b)
  {
    forall t: nat ensures !PendingBy(st, t, b) {
    }
  }

  lemma QuiescentPresent(st: State, k: nat)
    ensures Present(st, k) <==> SerialRehash.Contains(st.buckets, k)
  {
    forall b: nat ensures Stored(st, b, k) <==> SerialRehash.In(st.buckets, b, k) {
    }
  }

  /** When no operation is under way, the table is fit for serial rehashing. */
  lemma QuiescentFits(st: State)
    requires Inv(st) && Quiescent(st)
    ensures SerialRehash.TableOk(st.buckets, st.hash, st.level, st.base)
    ensures forall t: nat {:trigger st.threads[t]} :: t < |st.threads| ==>
              st.threads[t].pending == Nil && st.threads[t].mode == None && !st.threads[t].grow
  {
    var bs := st.buckets;
    forall t: nat | t < |st.threads|
      ensures st.threads[t].pending == Nil && st.threads[t].mode == None && !st.threads[t].grow
    {
      assert ThreadOk(st, t);
    }
    forall b: nat ensures Finished(st, b) <==> SerialRehash.IsMarked(bs, b) {
      QuiescentFinished(st, b);
    }
    forall b: nat, k: nat ensures Stored(st, b, k) <==> SerialRehash.In(bs, b, k) {
    }
    forall b: nat | b >= Pow2(st.base) ensures SerialRehash.ParentMarked(bs, b) {
      assert ClosedAt(st, b);
    }
    forall b: nat, k: nat | SerialRehash.In(bs, b, k)
      ensures OnChain(b, st.hash(k)) && b >= Cut(st.hash(k), st.base) && SerialRehash.LastMarked(bs, b, st.hash(k))
    {
      assert Stored(st, b, k);
      assert NodeOk(st, b, k);
    }
    assert Marked(st, 0) && Marked(st, 1);
    forall b: nat | SerialRehash.IsMarked(bs, b) ensures Distinct(bs[b].list) {
      assert Marked(st, b);
    }
  }

  /** Between operations the table is rehashed serially to n buckets. */
  ghost predicate RehashStep(st: State, n: nat, st': State) {
    && Quiescent(st) && st' == st.(level := st'.level, base := st'.base, buckets := st'.buckets)
    && SerialRehash.Rehashes(st.buckets, st.hash, st.level, st.base, st.size, n, st'.buckets, st'.level, st'.base)
  }

  lemma RehashInv(st: State, n: nat, st': State)
    requires Inv(st) && RehashStep(st, n, st')
    ensures Inv(st')
  {
    QuiescentFits(st);
    var bs := st'.buckets;
    assert SerialRehash.IsMarked(bs, 0) && SerialRehash.IsMarked(bs, 1);
    forall b: nat ensures Finished(st', b) <==> SerialRehash.IsMarked(bs, b) {
      QuiescentFinished(st', b);
    }
    forall b: nat ensures ClosedAt(st', b) {
      assert b >= Pow2(st'.base) ==> SerialRehash.ParentMarked(bs, b);
    }
    forall b: nat, k: nat ensures Stored(st', b, k) <==> SerialRehash.In(bs, b, k) {
    }
    forall b: nat, k: nat | Stored(st', b, k) ensures NodeOk(st', b, k) {
      assert SerialRehash.In(bs, b, k);
      forall d: nat | d > b && OnChain(d, st.hash(k)) ensures !Finished(st', d) {
      }
    }
    forall b: nat | Marked(st', b) ensures Distinct(bs[b].list) {
      assert SerialRehash.IsMarked(bs, b);
    }
    forall t: nat | t < |st'.threads| ensures ThreadOk(st', t) {
      assert ThreadOk(st, t);
    }
  }

  lemma RehashKeeps(st: State, n: nat, st': State)
    requires Inv(st) && LogOk(st) && SizeOk(st) && RehashStep(st, n, st')
    ensures Inv(st') && LogOk(st') && SizeOk(st')
  {
    RehashInv(st, n, st');
    QuiescentFits(st);
    SameTotal(st.buckets, st'.buckets);
    forall k: nat ensures Present(st', k) <==> Present(st, k) {
      QuiescentPresent(st, k);
      QuiescentPresent(st', k);
      assert SerialRehash.Contains(st.buckets, k) <==> SerialRehash.Contains(st'.buckets, k);
    }
  }

  // ---------- runs ----------

  /** A thread makes its next step, or, while all are outside, the table is rehashed. */
  datatype Action = Turn(move: Move) | Rehash(n: nat)

  ghost predicate Next(st: State, a: Action, st': State) {
    match a
    case Turn(m) => m.thread < |st.threads| && InBounds(st, m.thread) && Enabled(st, m) && st' == Step(st, m)
    case Rehash(n) => RehashStep(st, n, st')
  }

  /** The state reached from an initial state by the actions of a schedule, one after the other. */
  ghost predicate Reaches(init: State, schedule: seq<Action>, st: State) {
    if schedule == [] then Init(init) && st == init
    else
      var n := |schedule| - 1;
      exists mid :: Reaches(init, schedule[..n], mid) && Next(mid, schedule[n], st)
  }

  lemma InitOk(st: State)
    requires Init(st)
    ensures Inv(st) && LogOk(st) && SizeOk(st)
  {
    InitInv(st);
    forall k: nat ensures !Present(st, k) {
    }
    InitAhead(st, |st.threads|);
    assert Total(st.buckets, 1) == 0;
  }

  lemma {:induction false} InitAhead(st: State, n: nat)
    requires Init(st) && n <= |st.threads|
    ensures Ahead(st.threads, n) == 0
    decreases n
  {
    if n > 0 {
      InitAhead(st, n - 1);
    }
  }

  /** Nobody upgrades a lock another thread is upgrading. */
  ghost predicate UpgradesOk(st: State) {
    forall t: nat {:trigger st.threads[t]} ::
      t < |st.threads| && st.threads[t].pc == WaitUpgrade ==> NoUpgrade(st, t, st.threads[t].cur)
  }

  lemma UpgradeNext(st: State, m: Move)
    requires InBounds(st, m.thread) && Step(st, m).threads[m.thread].pc == WaitUpgrade
    ensures var x := st.threads[m.thread];
            x.pc == Upgrade && !m.lose && Step(st, m).threads[m.thread].cur == x.cur
  {
    if MaySearch(st.threads[m.thread].pc) {
      CheckLeadsTo(st, m);
    }
  }

  lemma StepUpgrades(st: State, m: Move)
    requires InBounds(st, m.thread) && Enabled(st, m) && UpgradesOk(st)
    ensures UpgradesOk(Step(st, m))
  {
    var st' := Step(st, m);
    SameThreads(st, m);
    if st'.threads[m.thread].pc == WaitUpgrade {
      UpgradeNext(st, m);
    }
    forall t: nat, u: nat
      | t < |st'.threads| && u < |st'.threads| && t != u && st'.threads[t].pc == st'.threads[u].pc == WaitUpgrade
      ensures st'.threads[u].cur != st'.threads[t].cur
    {
      assert t != m.thread ==> st'.threads[t] == st.threads[t];
      assert u != m.thread ==> st'.threads[u] == st.threads[u];
    }
  }

  /** An idle thread without an entry in the log has never done anything. */
  ghost predicate Untouched(init: State, st: State) {
    && |st.threads| == |init.threads|
    && forall t: nat {:trigger st.threads[t]} ::
         t < |st.threads| && st.threads[t].pc == Idle && st.threads[t].mark == -1 ==> st.threads[t] == init.threads[t]
  }

  lemma ReturnFrom(st: State, m: Move)
    requires InBounds(st, m.thread)
    requires st.threads[m.thread].pc != Idle && Step(st, m).threads[m.thread].pc == Idle
    ensures var x, x' := st.threads[m.thread], Step(st, m).threads[m.thread];
            Decided(x.pc) && x' == x.(pc := Idle, mode := x'.mode, grow := x'.grow)
  {
    if MaySearch(st.threads[m.thread].pc) {
      CheckLeadsTo(st, m);
    }
  }

  /** Only an operation that has taken effect returns, with the result it has in the log. */
  lemma OnlyDecidedReturn(st: State, m: Move)
    requires Inv(st) && InBounds(st, m.thread)
    requires st.threads[m.thread].pc != Idle && Step(st, m).threads[m.thread].pc == Idle
    ensures var x, x' := st.threads[m.thread], Step(st, m).threads[m.thread];
            Decided(x.pc) && Recorded(st, m.thread, x) && x'.mark == x.mark && x'.result == x.result
  {
    ReturnFrom(st, m);
    assert EntryOk(st, m.thread, st.threads[m.thread]) by {
      assert ThreadOk(st, m.thread);
    }
  }

  lemma StepUntouched(init: State, st: State, m: Move)
    requires Inv(st) && InBounds(st, m.thread) && Untouched(init, st)
    ensures Untouched(init, Step(st, m))
  {
    var st' := Step(st, m);
    SameThreads(st, m);
    var x, x' := st.threads[m.thread], st'.threads[m.thread];
    if x'.pc == Idle && x.pc != Idle {
      OnlyDecidedReturn(st, m);
    }
    forall t: nat | t < |st'.threads| && st'.threads[t].pc == Idle && st'.threads[t].mark == -1
      ensures st'.threads[t] == init.threads[t]
    {
      assert t != m.thread ==> st'.threads[t] == st.threads[t];
    }
  }

  lemma {:induction false} ReachedOk(init: State, schedule: seq<Action>, st: State)
    requires Reaches(init, schedule, st)
    ensures Inv(st) && LogOk(st) && SizeOk(st) && UpgradesOk(st) && Untouched(init, st)
    decreases |schedule|
  {
    if schedule == [] {
      InitOk(st);
    } else {
      var n := |schedule| - 1;
      var mid :| Reaches(init, schedule[..n], mid) && Next(mid, schedule[n], st);
      ReachedOk(init, schedule[..n], mid);
      match schedule[n]
      case Turn(m) =>
        StepInv(mid, m);
        StepLog(mid, m);
        StepSize(mid, m);
        StepUpgrades(mid, m);
        StepUntouched(init, mid, m);
      case Rehash(n) =>
        RehashKeeps(mid, n, st);
        assert Untouched(init, mid) && UpgradesOk(mid);
    }
  }

  lemma ScanInBounds(st: State, t: nat)
    requires t < |st.threads| && PlaceOk(st, st.threads[t]) && PhaseOk(st, t, st.threads[t])
    requires st.threads[t].pc == Scan || st.threads[t].pc == Pop
    ensures InBounds(st, t)
  {
  }

  lemma MarkInBounds(st: State, t: nat)
    requires t < |st.threads| && PlaceOk(st, st.threads[t]) && PhaseOk(st, t, st.threads[t])
    requires st.threads[t].pc == Mark && Marked(st, 0) && Marked(st, 1)
    ensures InBounds(st, t)
  {
  }

  lemma OkInBounds(st: State, t: nat)
    requires Shape(st) && t < |st.threads| && PlaceOk(st, st.threads[t]) && PhaseOk(st, t, st.threads[t])
    requires st.threads[t].pc == Enable ==> st.threads[t].level == st.level && |st.buckets| <= Pow2(NextLevel(st.level))
    ensures InBounds(st, t)
  {
    var x := st.threads[t];
    if x.pc == Scan || x.pc == Pop {
      ScanInBounds(st, t);
    } else if x.pc == Mark {
      MarkInBounds(st, t);
    }
  }

  /** The code's assertions hold: no thread can get to a step that is out of bounds. */
  lemma NeverOutOfBounds(st: State, t: nat)
    requires Inv(st) && t < |st.threads|
    ensures InBounds(st, t)
  {
    Pow2Monotone(st.level, NextLevel(st.level));
    Own(st, t);
    OkInBounds(st, t);
  }

  /** Every run behaves like a set of keys: the operations, in the order in which they took effect,
      have the results they have on a set; the stored keys are that set; and an operation that has
      returned or is about to has exactly one place in that order, after its start, with the result
      it returns. A thread outside without such an operation has never been inside. */
  lemma EveryRunIsLinearizable(init: State, schedule: seq<Action>, st: State)
    requires Reaches(init, schedule, st)
    ensures Legal(st.log)
    ensures forall k: nat {:trigger Present(st, k)} :: Present(st, k) <==> Replay(st.log, k)
    ensures |st.threads| == |init.threads|
    ensures forall t: nat {:trigger st.threads[t]} ::
              t < |st.threads| && (st.threads[t].pc == Idle || Decided(st.threads[t].pc)) ==>
                || (Recorded(st, t, st.threads[t]) && Once(st, t, st.threads[t]))
                || (st.threads[t].pc == Idle && st.threads[t] == init.threads[t])
  {
    ReachedOk(init, schedule, st);
    forall t: nat | t < |st.threads| && (st.threads[t].pc == Idle || Decided(st.threads[t].pc))
      ensures || (Recorded(st, t, st.threads[t]) && Once(st, t, st.threads[t]))
              || (st.threads[t].pc == Idle && st.threads[t] == init.threads[t])
    {
      assert ThreadOk(st, t);
    }
  }

  /** In every state of every run: a node is in the last bucket of its chain that is split off or in
      the one after it while that is being filled; what is split off has its parent split off, at
      least beyond base bits; no key is stored twice; write locks are exclusive; and the size is right
      up to the threads that are just changing it. */
  lemma EveryRunKeepsPlaces(init: State, schedule: seq<Action>, st: State)
    requires Reaches(init, schedule, st)
    ensures forall b: nat, k: nat {:trigger Stored(st, b, k)} :: Stored(st, b, k) ==>
              && OnChain(b, st.hash(k)) && LastFinished(st, b, st.hash(k))
              && (Finished(st, b) || (b >= 2 && Finished(st, Parent(b))))
    ensures Closed(st) && Unique(st) && Exclusive(st) && SizeOk(st)
    ensures forall t: nat {:trigger InBounds(st, t)} :: t < |st.threads| ==> InBounds(st, t)
  {
    ReachedOk(init, schedule, st);
    forall b: nat, k: nat | Stored(st, b, k)
      ensures OnChain(b, st.hash(k)) && LastFinished(st, b, st.hash(k))
      ensures Finished(st, b) || (b >= 2 && Finished(st, Parent(b)))
    {
      assert NodeOk(st, b, k);
    }
    forall t: nat | t < |st.threads| ensures InBounds(st, t) {
      NeverOutOfBounds(st, t);
    }
  }

  /** Serial rehashing is all that can mark a bucket without its parent, and only when an emptied map
      with unmarked buckets grows. */
  lemma BaseChanges(st: State, a: Action, st': State)
    requires Inv(st) && Next(st, a, st')
    ensures a.Turn? ==> st'.base == st.base
    ensures a.Rehash? ==>
              st'.base == if st.size == 0 && a.n > |st.buckets| && !SerialRehash.AllMarked(st.buckets)
                          then st'.level else st.base
  {
    if a.Turn? {
      SameBase(st, a.move);
    }
  }

  lemma SameBase(st: State, m: Move)
    requires InBounds(st, m.thread)
    ensures Step(st, m).base == st.base
  {
  }

  /** Without it, split-off buckets are closed under parents, all of them. */
  lemma {:induction false} ClosedWithoutRehash(init: State, schedule: seq<Action>, st: State)
    requires Reaches(init, schedule, st) && forall i :: 0 <= i < |schedule| ==> schedule[i].Turn?
    ensures st.base == 1
    ensures forall b: nat {:trigger Finished(st, b)} :: Finished(st, b) && b >= 2 ==> Finished(st, Parent(b))
    decreases |schedule|
  {
    ReachedOk(init, schedule, st);
    if schedule != [] {
      var n := |schedule| - 1;
      var mid :| Reaches(init, schedule[..n], mid) && Next(mid, schedule[n], st);
      ClosedWithoutRehash(init, schedule[..n], mid);
      SameBase(mid, schedule[n].move);
    }
    assert Pow2(1) == 2;
    forall b: nat | Finished(st, b) && b >= 2 ensures Finished(st, Parent(b)) {
      assert ClosedAt(st, b);
    }
  }

  // ---------- no deadlock ----------

  /** Thread t, inside an operation, can step, even if every writer waiting for a bucket has already
      been noticed by its readers. */
  ghost predicate CanStep(st: State, t: nat) {
    && t < |st.threads| && st.threads[t].pc != Idle
    && var x := st.threads[t];
       match x.pc
       case Lock => CanRead(st, t, x.cur) && !WriterPending(st, t, x.cur)
       case WaitWrite => CanWrite(st, t, x.cur)
       case WaitUpgrade => CanWrite(st, t, x.cur)
       case _ => true
  }

  /** An upgrading reader either may upgrade or finds another one upgrading and may give up. */
  lemma CanStepIsEnabled(st: State, t: nat)
    requires Inv(st) && CanStep(st, t)
    ensures exists m: Move :: m.thread == t && Enabled(st, m)
  {
    var x := st.threads[t];
    if x.pc == Upgrade && !NoUpgrade(st, t, x.cur) {
      var u: nat :| u < |st.threads| && u != t && st.threads[u].pc == WaitUpgrade && st.threads[u].cur == x.cur;
      assert ThreadOk(st, u);
      assert Locks(st.threads[u], x.cur);
      assert Enabled(st, Move(t, Find, 0, true));
    } else {
      assert Enabled(st, Move(t, Find, 0, false));
    }
  }

  /** How a waiting thread depends on others for the same bucket: readers wait for writers, writers
      for upgrading readers, and these for readers that do not wait. */
  function Waits(pc: Pc): nat {
    match pc
    case Lock => 3
    case WaitWrite => 2
    case WaitUpgrade => 1
    case _ => 0
  }

  /** Whom a waiting thread waits for. */
  lemma Blocker(st: State, t: nat) returns (u: nat)
    requires Inv(st) && UpgradesOk(st) && t < |st.threads| && st.threads[t].pc != Idle && !CanStep(st, t)
    ensures u < |st.threads| && st.threads[u].pc != Idle
    ensures var x, y := st.threads[t], st.threads[u];
            y.cur < x.cur || (y.cur == x.cur && Waits(y.pc) < Waits(x.pc))
  {
    var x := st.threads[t];
    if x.pc == Lock && NoWriter(st, t, x.cur) {
      if v: nat :| v < |st.threads| && v != t && st.threads[v].cur == x.cur
                   && (st.threads[v].pc == WaitUpgrade || st.threads[v].pc == WaitWrite) {
        u := v;
      } else {
        assert false;
      }
    } else {
      if x.pc == Lock {
        u :| u < |st.threads| && u != t && Writes(st.threads[u], x.cur);
      } else {
        u :| u < |st.threads| && u != t && Locks(st.threads[u], x.cur);
      }
      var y := st.threads[u];
      assert ThreadOk(st, u);
      if Has(y.pending, x.cur) {
        PendingIs(st, y.cur, y.pending, st.hash(y.key), x.cur);
      }
    }
  }

  /** Whoever waits for a bucket waits for threads at smaller buckets, or at the same bucket with less
      to wait for, so some thread is not waiting. */
  lemma {:induction false} NotStuck(st: State, t: nat)
    requires Inv(st) && UpgradesOk(st) && t < |st.threads| && st.threads[t].pc != Idle
    ensures exists u: nat :: CanStep(st, u)
    decreases st.threads[t].cur, Waits(st.threads[t].pc)
  {
    if !CanStep(st, t) {
      var u := Blocker(st, t);
      NotStuck(st, u);
    }
  }

  /** In every run, while some thread is inside an operation, one that is inside can step. */
  lemma NeverStuck(init: State, schedule: seq<Action>, st: State, t: nat)
    requires Reaches(init, schedule, st) && t < |st.threads| && st.threads[t].pc != Idle
    ensures exists m: Move :: && m.thread < |st.threads| && st.threads[m.thread].pc != Idle
                              && InBounds(st, m.thread) && Next(st, Turn(m), Step(st, m))
  {
    ReachedOk(init, schedule, st);
    NotStuck(st, t);
    var u: nat :| CanStep(st, u);
    CanStepIsEnabled(st, u);
    var m: Move :| m.thread == u && Enabled(st, m);
    NeverOutOfBounds(st, u);
    assert Next(st, Turn(m), Step(st, m));
  }

  /** After any run, with no operation under way, the table is fit for serial rehashing, my_size is
      the number of keys in the map, and it is 0 just when the table is empty. */
  lemma QuiescentTable(init: State, schedule: seq<Action>, st: State)
    requires Reaches(init, schedule, st) && Quiescent(st)
    ensures SerialRehash.TableOk(st.buckets, st.hash, st.level, st.base)
    ensures st.size == |TableKeys(st.buckets, |st.buckets|)|
    ensures forall k: nat :: k in TableKeys(st.buckets, |st.buckets|) <==> Replay(st.log, k)
    ensures st.size == 0 <==> SerialRehash.EmptyTable(st.buckets)
  {
    var bs := st.buckets;
    ReachedOk(init, schedule, st);
    QuiescentFits(st);
    NobodyAhead(st.threads, |st.threads|);
    TotalIsKeys(bs, |bs|);
    forall k: nat ensures k in TableKeys(bs, |bs|) <==> Replay(st.log, k)
      ensures k in TableKeys(bs, |bs|) <==> SerialRehash.Contains(bs, k)
    {
      TableKeysOf(bs, |bs|, k);
      QuiescentPresent(st, k);
      assert Present(st, k) <==> Replay(st.log, k);
    }
    if st.size == 0 {
      forall b: nat, k: nat ensures !SerialRehash.In(bs, b, k) {
        assert k !in TableKeys(bs, |bs|);
        assert !SerialRehash.Contains(bs, k);
      }
    } else {
      var k :| k in TableKeys(bs, |bs|);
      assert SerialRehash.Contains(bs, k);
    }
  }
}
