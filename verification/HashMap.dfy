/** The concurrent hash map: buckets under reader-writer locks, a table that grows by publishing a
    wider mask, and buckets that are split off from their parents only when first used. Every
    access to shared memory and every lock operation is one step of one thread. */
module HashMap {
  import opened Masks

  /** Linked nodes, by key; also a stack of bucket numbers. */
  datatype List = Nil | Cons(head: nat, tail: List)

  predicate Has(l: List, k: nat) {
    l.Cons? && (l.head == k || Has(l.tail, k))
  }

  predicate Distinct(l: List) {
    l.Cons? ==> !Has(l.tail, l.head) && Distinct(l.tail)
  }

  function Length(l: List): nat {
    if l.Nil? then 0 else 1 + Length(l.tail)
  }

  /** The list with the first node of key k unlinked. */
  function Without(l: List, k: nat): List {
    if l.Nil? then Nil
    else if l.head == k then l.tail
    else Cons(l.head, Without(l.tail, k))
  }

  lemma {:induction false} WithoutHas(l: List, k: nat, j: nat)
    requires Distinct(l)
    ensures Has(Without(l, k), j) <==> Has(l, j) && j != k
  {
    if l.Cons? {
      WithoutHas(l.tail, k, j);
    }
  }

  lemma {:induction false} WithoutDistinct(l: List, k: nat)
    requires Distinct(l)
    ensures Distinct(Without(l, k))
  {
    if l.Cons? {
      WithoutDistinct(l.tail, k);
      WithoutHas(l.tail, k, l.head);
    }
  }

  /** Some node of the list belongs into bucket b. */
  predicate AnyFor(l: List, b: nat, hash: nat -> nat) {
    l.Cons? && (OnChain(b, hash(l.head)) || AnyFor(l.tail, b, hash))
  }

  function FirstFor(l: List, b: nat, hash: nat -> nat): nat
    requires AnyFor(l, b, hash)
  {
    if OnChain(b, hash(l.head)) then l.head else FirstFor(l.tail, b, hash)
  }

  lemma {:induction false} FirstForIn(l: List, b: nat, hash: nat -> nat)
    requires AnyFor(l, b, hash)
    ensures Has(l, FirstFor(l, b, hash)) && OnChain(b, hash(FirstFor(l, b, hash)))
  {
    if !OnChain(b, hash(l.head)) {
      FirstForIn(l.tail, b, hash);
    }
  }

  lemma {:induction false} NoneFor(l: List, b: nat, hash: nat -> nat, k: nat)
    requires !AnyFor(l, b, hash) && Has(l, k)
    ensures !OnChain(b, hash(k))
  {
    if l.head != k {
      NoneFor(l.tail, b, hash, k);
    }
  }

  /** A bucket not yet split off from its parent carries only a mark. */
  datatype Bucket = RehashReq | Rehashed(list: List)

  datatype Op = Find | Insert | Erase

  /** How the thread holds the lock of the bucket it works on. */
  datatype Mode = None | Read | Write

  datatype Pc =
    | Idle       // outside
    | Load       // about to read my_mask
    | Acquire    // about to read whether bucket cur is rehashed
    | TryLock    // about to try to lock bucket cur for writing
    | Recheck    // bucket cur locked: about to read again whether it is rehashed
    | Mark       // about to mark bucket cur as rehashed
    | Lock       // waiting to lock bucket cur for reading
    | Scan       // moving the nodes of cur that belong into the last pending bucket
    | Pop        // all of them moved: about to unlock cur
    | Search     // about to search cur for the key
    | Upgrade    // about to ask for the write lock on cur while holding the read lock
    | WaitUpgrade  // no reader or writer gets in any more: waiting for the other readers to leave
    | WaitWrite  // gave up the read lock: waiting to lock cur for writing
    | Check      // about to compare its mask with my_mask
    | CheckFlag  // mask was stale: about to read whether bucket probe is rehashed
    | Restart    // about to unlock cur and start over with the new mask
    | Count      // about to increment my_size
    | Add        // about to add the node to cur
    | Grow       // about to see whether the next segment is needed
    | Unlink     // about to unlink the node of the key from cur
    | Uncount    // about to decrement my_size
    | Leave      // about to unlock cur
    | Enable     // about to publish the next segment

  /** level is the number of bits of the thread's mask; pending the buckets it has marked but not
      yet filled, innermost first, all of them locked for writing; missed says that its last search
      failed. since and mark are kept for the proof only: the length of the log when the operation
      began, and the place of its entry in the log, -1 before there is one. */
  datatype Thread = Thread(pc: Pc, op: Op, key: nat, level: nat, cur: nat, pending: List, mode: Mode,
                           missed: bool, probe: nat, sz: int, grow: bool, result: bool, since: nat, mark: int)

  datatype Event = Event(thread: nat, op: Op, key: nat, result: bool)

  /** my_mask is 2^level - 1; growing says that the segment after it is being allocated. log and base
      are kept for the proof only: the operations in the order in which they take effect, and the
      level up to which serial growth may have marked buckets without regard to their parents. */
  datatype State = State(level: nat, base: nat, growing: bool, size: int, buckets: seq<Bucket>,
                         threads: seq<Thread>, hash: nat -> nat, log: seq<Event>)

  predicate Init(st: State) {
    && st.level == st.base == 1 && !st.growing && st.size == 0 && st.log == []
    && st.buckets == [Rehashed(Nil), Rehashed(Nil)]
    && (forall t :: 0 <= t < |st.threads| ==>
          var x := st.threads[t];
          x.pc == Idle && x.pending == Nil && x.mode == None && !x.grow && x.mark == -1 && x.since == 0)
  }

  predicate Writes(x: Thread, b: nat) {
    Has(x.pending, b) || (x.mode == Write && x.cur == b)
  }

  predicate Locks(x: Thread, b: nat) {
    Has(x.pending, b) || (x.mode != None && x.cur == b)
  }

  /** No other thread has bucket b locked for writing. */
  predicate NoWriter(st: State, t: nat, b: nat) {
    forall u: nat :: u < |st.threads| && u != t ==> !Writes(st.threads[u], b)
  }

  /** No other thread is upgrading its lock on bucket b. */
  predicate NoUpgrade(st: State, t: nat, b: nat) {
    forall u: nat :: u < |st.threads| && u != t && st.threads[u].pc == WaitUpgrade ==> st.threads[u].cur != b
  }

  predicate CanRead(st: State, t: nat, b: nat) {
    NoWriter(st, t, b) && NoUpgrade(st, t, b)
  }

  predicate CanWrite(st: State, t: nat, b: nat) {
    forall u: nat :: u < |st.threads| && u != t ==> !Locks(st.threads[u], b)
  }

  /** Another thread wants to write bucket b. */
  predicate WriterPending(st: State, t: nat, b: nat) {
    exists u: nat :: u < |st.threads| && u != t && st.threads[u].cur == b
                     && (st.threads[u].pc == WaitUpgrade || st.threads[u].pc == WaitWrite)
  }

  /** Which thread moves; the operation it starts if it is idle; and lose: that an upgrade gives up its
      read lock, or that a try to lock fails as the lock word is changing. */
  datatype Move = Move(thread: nat, op: Op, key: nat, lose: bool)

  /** Locks make a thread wait. Of several readers of a bucket one can upgrade at a time; another one
      finds a writer pending and another reader, and gives up its lock. A pending writer may or may
      not have been noticed yet if it is not upgrading. */
  predicate Enabled(st: State, m: Move)
    requires m.thread < |st.threads|
  {
    var x := st.threads[m.thread];
    match x.pc
    case Lock => CanRead(st, m.thread, x.cur)
    case WaitWrite => CanWrite(st, m.thread, x.cur)
    case Upgrade =>
      if m.lose then WriterPending(st, m.thread, x.cur) && !CanWrite(st, m.thread, x.cur)
      else NoUpgrade(st, m.thread, x.cur)
    case WaitUpgrade => CanWrite(st, m.thread, x.cur)
    case _ => true
  }

  /** The first block of segments is allocated in one piece. */
  const FIRST_BLOCK := 8

  function NextLevel(level: nat): nat {
    if level < FIRST_BLOCK then FIRST_BLOCK else level + 1
  }

  /** The first growth makes 256 buckets, every other one twice as many as there were. */
  lemma NextSize(level: nat)
    ensures Pow2(NextLevel(level)) == if Pow2(level) < 256 then 256 else 2 * Pow2(level)
  {
    assert Pow2(8) == 256;
    Pow2Monotone(if level < 8 then level else 8, if level < 8 then 8 else level);
  }

  /** What the code asserts or takes for granted at the next step: buckets it touches exist, are
      rehashed where it reads their nodes, and only buckets with a parent are split off. */
  predicate InBounds(st: State, t: nat) {
    && t < |st.threads|
    && var x := st.threads[t];
       match x.pc
       case Acquire => x.cur < |st.buckets|
       case TryLock => x.cur < |st.buckets|
       case Recheck => x.cur < |st.buckets|
       case Mark => x.cur < |st.buckets| && x.cur >= 2
       case Scan => x.cur < |st.buckets| && st.buckets[x.cur].Rehashed? && x.pending.Cons?
                    && x.pending.head < |st.buckets| && st.buckets[x.pending.head].Rehashed?
       case Pop => x.pending.Cons?
       case Search => x.cur < |st.buckets| && st.buckets[x.cur].Rehashed?
       case Check => 1 <= x.level <= st.level
       case CheckFlag => x.probe < |st.buckets|
       case Add => x.cur < |st.buckets| && st.buckets[x.cur].Rehashed?
       case Unlink => x.cur < |st.buckets| && st.buckets[x.cur].Rehashed?
       case Enable => x.level == st.level && |st.buckets| <= Pow2(NextLevel(x.level))
       case _ => true
  }

  function Set(st: State, t: nat, x: Thread): State
    requires t < |st.threads|
  {
    st.(threads := st.threads[t := x])
  }

  /** The operation takes effect now, with this result. */
  function Decide(st: State, t: nat, x: Thread, pc: Pc, result: bool): State
    requires t < |st.threads|
  {
    Set(st, t, x.(pc := pc, result := result, mark := |st.log|)).(log := st.log + [Event(t, x.op, x.key, result)])
  }

  /** Bucket cur is locked: search it, or move nodes out of it if buckets are pending. */
  function Locked(x: Thread, mode: Mode): Thread {
    x.(mode := mode, pc := if x.pending.Nil? then Search else Scan)
  }

  /** The mask check found no collision. */
  function NoRace(st: State, t: nat, x: Thread): State
    requires t < |st.threads|
  {
    match x.op
    case Find => Decide(st, t, x, Leave, false)
    case Insert => Set(st, t, x.(pc := Count))
    case Erase => if x.missed then Decide(st, t, x, Leave, false) else Set(st, t, x.(pc := Search))
  }

  function Fresh(n: nat): seq<Bucket> {
    seq(n, _ => RehashReq)
  }

  function SetList(st: State, b: nat, l: List): State
    requires b < |st.buckets|
  {
    st.(buckets := st.buckets[b := Rehashed(l)])
  }

  function SearchStep(st: State, t: nat): State
    requires InBounds(st, t) && st.threads[t].pc == Search
  {
    var x := st.threads[t];
    var found := Has(st.buckets[x.cur].list, x.key);
    match x.op
    case Find => if found then Decide(st, t, x, Leave, true) else Set(st, t, x.(pc := Check, missed := true))
    case Insert =>
      if found then Decide(st, t, x, Leave, false)
      else if x.mode == Write then Set(st, t, x.(pc := Check, missed := true))
      else Set(st, t, x.(pc := Upgrade, missed := true))
    case Erase =>
      if !found then Set(st, t, x.(pc := Check, missed := true))
      else if x.mode == Write then Set(st, t, x.(pc := Unlink, missed := false))
      else Set(st, t, x.(pc := Upgrade, missed := false))
  }

  function ScanStep(st: State, t: nat): State
    requires InBounds(st, t) && st.threads[t].pc == Scan
  {
    var x := st.threads[t];
    var l, b := st.buckets[x.cur].list, x.pending.head;
    if !AnyFor(l, b, st.hash) then Set(st, t, x.(pc := Pop))
    else if x.mode != Write then Set(st, t, x.(pc := Upgrade))
    else
      var k := FirstFor(l, b, st.hash);
      SetList(SetList(st, x.cur, Without(l, k)), b, Cons(k, st.buckets[b].list))
  }

  function UpgradedStep(st: State, t: nat): State
    requires t < |st.threads|
  {
    var x := st.threads[t];
    if x.pending.Cons? then Set(st, t, x.(pc := Scan, mode := Write))
    else Set(st, t, x.(pc := if x.op == Insert then Check else Unlink, mode := Write))
  }

  function WaitWriteStep(st: State, t: nat): State
    requires t < |st.threads|
  {
    var x := st.threads[t];
    if x.pending.Nil? && x.op == Erase then Set(st, t, x.(pc := Check, mode := Write))
    else Set(st, t, Locked(x, Write))
  }

  function CheckStep(st: State, t: nat): State
    requires InBounds(st, t) && st.threads[t].pc == Check
  {
    var x := st.threads[t];
    var h := st.hash(x.key);
    if Cut(h, x.level) == Cut(h, st.level) then NoRace(st, t, x.(level := st.level))
    else Set(st, t, x.(pc := CheckFlag, level := st.level, probe := NextOnChain(h, x.level, st.level)))
  }

  /** The next step of thread m.thread. */
  function Step(st: State, m: Move): State
    requires InBounds(st, m.thread)
  {
    var t := m.thread;
    var x := st.threads[t];
    match x.pc
    case Idle => Set(st, t, x.(pc := Load, op := m.op, key := m.key, mark := -1, since := |st.log|))
    case Load => Set(st, t, x.(pc := Acquire, level := st.level, cur := Cut(st.hash(x.key), st.level)))
    case Acquire => Set(st, t, x.(pc := if st.buckets[x.cur].RehashReq? then TryLock else Lock))
    case TryLock =>
      if CanWrite(st, t, x.cur) && (st.buckets[x.cur].RehashReq? || !m.lose) then
        Set(st, t, x.(pc := Recheck, mode := Write))
      else Set(st, t, x.(pc := Lock))
    case Recheck => Set(st, t, if st.buckets[x.cur].RehashReq? then x.(pc := Mark) else Locked(x, Write))
    case Mark =>
      Set(SetList(st, x.cur, Nil), t,
          x.(pc := Acquire, pending := Cons(x.cur, x.pending), cur := Parent(x.cur), mode := None))
    case Lock => Set(st, t, Locked(x, Read))
    case Scan => ScanStep(st, t)
    case Pop => Set(st, t, Locked(x.(cur := x.pending.head, pending := x.pending.tail), Write))
    case Search => SearchStep(st, t)
    case Upgrade => Set(st, t, if m.lose then x.(pc := WaitWrite, mode := None) else x.(pc := WaitUpgrade))
    case WaitUpgrade => UpgradedStep(st, t)
    case WaitWrite => WaitWriteStep(st, t)
    case Check => CheckStep(st, t)
    case CheckFlag => if st.buckets[x.probe].RehashReq? then NoRace(st, t, x) else Set(st, t, x.(pc := Restart))
    case Restart => Set(st, t, x.(pc := Acquire, mode := None, cur := Cut(st.hash(x.key), x.level)))
    case Count => Set(st, t, x.(pc := Add, sz := st.size + 1)).(size := st.size + 1)
    case Add => Decide(SetList(st, x.cur, Cons(x.key, st.buckets[x.cur].list)), t, x, Grow, true)
    case Grow =>
      if x.sz >= Pow2(x.level) - 1 && x.level == st.level && !st.growing then
        Set(st, t, x.(pc := Leave, grow := true)).(growing := true)
      else Set(st, t, x.(pc := Leave))
    case Unlink => Decide(SetList(st, x.cur, Without(st.buckets[x.cur].list, x.key)), t, x, Uncount, true)
    case Uncount => Set(st, t, x.(pc := Leave)).(size := st.size - 1)
    case Leave => Set(st, t, x.(pc := if x.grow then Enable else Idle, mode := None))
    case Enable =>
      Set(st, t, x.(pc := Idle, grow := false)).(
        level := NextLevel(x.level), growing := false,
        buckets := st.buckets + Fresh(Pow2(NextLevel(x.level)) - |st.buckets|))
  }
}
