/** The thread-keyed table behind enumerable_thread_specific: a list of growing arrays, searched
    and filled by linear probing without locks. Every access to shared memory is one step. */
module ThreadTable {

  import opened Masks

  /** Half the slots of an array of 2^lg. */
  function Half(lg: nat): nat {
    if lg == 0 then 0 else Pow2(lg - 1)
  }

  /** The smallest size, from s on, of which c is at most half. */
  function Fit(c: nat, s: nat): (r: nat)
    requires 1 <= s
    ensures s <= r && c <= Pow2(r - 1)
    ensures s < r ==> c > Pow2(r - 2)
    decreases if c > Pow2(s - 1) then c - Pow2(s - 1) else 0
  {
    if c > Pow2(s - 1) then Fit(c, s + 1) else s
  }

  const EMPTY := -1

  /** An array of 2^lg slots; keys are thread numbers, EMPTY in an unclaimed slot. next is the
      index of the array it replaced as root. */
  datatype Arr = Arr(lg: nat, keys: seq<int>, ptrs: seq<int>, next: int)

  datatype Pc =
    | Idle       // outside
    | LoadRoot   // about to read my_root
    | Probe      // about to read the key of slot i of array r
    | Match      // key found in array r: about to compare r with my_root
    | NextArr    // about to go on to the array behind r
    | Create     // key found nowhere: about to create the local object
    | Count      // about to increment my_count
    | CheckRoot  // about to compare its number with the size of the root
    | CasRoot    // about to swap in a bigger array
    | Insert     // about to read my_root for the insertion
    | Seek       // looking for an empty slot of array r
    | Claim      // about to swap its key into slot i of array r
    | SetPtr     // about to write the pointer of the claimed slot

  /** number is the value the thread got from my_count, 0 before; first the pointer its first
      lookup created; got the pointer its last lookup returned. at is kept for the proof only:
      the newest array holding the thread's key, -1 if none. */
  datatype Thread = Thread(pc: Pc, r: int, i: nat, number: nat, s: nat, found: int,
                           first: int, got: int, at: int)

  /** home gives the slot where probing for a thread's key starts in an array of a given size. */
  datatype State = State(root: int, count: nat, arrays: seq<Arr>, threads: seq<Thread>, home: (nat, nat) -> nat)

  predicate Init(st: State) {
    && st.root == -1 && st.count == 0 && st.arrays == []
    && (forall t :: 0 <= t < |st.threads| ==>
          st.threads[t].pc == Idle && st.threads[t].number == 0 && st.threads[t].at == -1)
  }

  ghost predicate HomesOk(st: State) {
    forall t: nat, lg: nat :: st.home(t, lg) < Pow2(lg)
  }

  function NextSlot(i: nat, size: nat): nat {
    if i + 1 == size then 0 else i + 1
  }

  /** The arrays and slots the thread is about to touch exist. */
  predicate InBounds(st: State, t: nat) {
    && t < |st.threads|
    && var x := st.threads[t];
       match x.pc
       case Probe => 0 <= x.r < |st.arrays| && x.i < |st.arrays[x.r].keys|
       case Match => 0 <= x.r < |st.arrays| && x.i < |st.arrays[x.r].ptrs|
       case NextArr => 0 <= x.r < |st.arrays| && -1 <= st.arrays[x.r].next < |st.arrays|
       case CheckRoot => -1 <= st.root < |st.arrays| && (st.root >= 0 ==> 1 <= st.arrays[st.root].lg)
       case CasRoot => -1 <= st.root < |st.arrays| && (st.root != x.r ==> st.root >= 0)
       case Insert => 0 <= st.root < |st.arrays|
       case Seek => 0 <= x.r < |st.arrays| && x.i < |st.arrays[x.r].keys|
       case Claim => 0 <= x.r < |st.arrays| && x.i < |st.arrays[x.r].keys|
       case SetPtr => 0 <= x.r < |st.arrays| && x.i < |st.arrays[x.r].ptrs|
       case LoadRoot => -1 <= st.root < |st.arrays|
       case _ => true
  }

  function Set(st: State, t: nat, x: Thread): State
    requires t < |st.threads|
  {
    st.(threads := st.threads[t := x])
  }

  function EnterArray(st: State, t: nat, x: Thread, r: int): Thread
    requires -1 <= r < |st.arrays|
  {
    if r == -1 then x.(pc := Create) else x.(pc := Probe, r := r, i := st.home(t, st.arrays[r].lg))
  }

  function NewArray(lg: nat, next: int): Arr {
    Arr(lg, seq(Pow2(lg), _ => EMPTY), seq(Pow2(lg), _ => 0), next)
  }

  /** The next step of thread t; created is the pointer create_local would return. */
  function Step(st: State, t: nat, created: int): State
    requires InBounds(st, t)
  {
    var x := st.threads[t];
    match x.pc
    case Idle => Set(st, t, x.(pc := LoadRoot))
    case LoadRoot => Set(st, t, EnterArray(st, t, x, st.root))
    case Probe =>
      var key := st.arrays[x.r].keys[x.i];
      if key == EMPTY then Set(st, t, x.(pc := NextArr))
      else if key == t then Set(st, t, x.(pc := Match))
      else Set(st, t, x.(i := NextSlot(x.i, |st.arrays[x.r].keys|)))
    case Match =>
      if x.r == st.root then Set(st, t, x.(pc := Idle, got := st.arrays[x.r].ptrs[x.i]))
      else Set(st, t, x.(pc := Insert, found := st.arrays[x.r].ptrs[x.i]))
    case NextArr => Set(st, t, EnterArray(st, t, x, st.arrays[x.r].next))
    case Create => Set(st, t, x.(pc := Count, found := created, first := created))
    case Count => Set(st, t, x.(pc := CheckRoot, number := st.count + 1)).(count := st.count + 1)
    case CheckRoot =>
      if st.root == -1 || x.number > Pow2(st.arrays[st.root].lg) / 2 then
        Set(st, t, x.(pc := CasRoot, r := st.root,
                      s := Fit(x.number, if st.root == -1 then 2 else st.arrays[st.root].lg)))
      else Set(st, t, x.(pc := Insert))
    case CasRoot =>
      if st.root == x.r then
        Set(st, t, x.(pc := Insert)).(arrays := st.arrays + [NewArray(x.s, x.r)], root := |st.arrays|)
      else if st.arrays[st.root].lg >= x.s then Set(st, t, x.(pc := Insert))
      else Set(st, t, x.(r := st.root))
    case Insert =>
      Set(st, t, x.(pc := Seek, r := st.root, i := st.home(t, st.arrays[st.root].lg)))
    case Seek =>
      if st.arrays[x.r].keys[x.i] == EMPTY then Set(st, t, x.(pc := Claim))
      else Set(st, t, x.(i := NextSlot(x.i, |st.arrays[x.r].keys|)))
    case Claim =>
      var a := st.arrays[x.r];
      if a.keys[x.i] == EMPTY then
        Set(st, t, x.(pc := SetPtr, at := x.r)).(arrays := st.arrays[x.r := a.(keys := a.keys[x.i := t])])
      else Set(st, t, x.(pc := Seek, i := NextSlot(x.i, |a.keys|)))
    case SetPtr =>
      var a := st.arrays[x.r];
      Set(st, t, x.(pc := Idle, got := x.found)).(arrays := st.arrays[x.r := a.(ptrs := a.ptrs[x.i := x.found])])
  }

  // ---------- the invariant ----------

  /** Slot e lies on the way from h to i, i excluded, probing forward and around the end. */
  predicate Passed(h: nat, i: nat, e: nat) {
    if h <= i then h <= e < i else h <= e || e < i
  }

  /** All slots probed from the thread's home up to slot i are claimed. */
  ghost predicate ClaimedUpTo(st: State, r: nat, t: nat, i: nat)
    requires r < |st.arrays|
  {
    var a := st.arrays[r];
    forall e {:trigger a.keys[e]} :: 0 <= e < |a.keys| && Passed(st.home(t, a.lg), i, e) ==> a.keys[e] != EMPTY
  }

  ghost predicate Holds(st: State, r: int, t: nat) {
    0 <= r < |st.arrays| && t in st.arrays[r].keys
  }

  ghost predicate KeyOk(st: State, j: nat, p: nat)
    requires j < |st.arrays| && p < |st.arrays[j].keys| && |st.arrays[j].keys| == |st.arrays[j].ptrs|
  {
    var a := st.arrays[j];
    var k := a.keys[p];
    k == EMPTY ||
    (&& 0 <= k < |st.threads|
     && 1 <= st.threads[k].number <= Half(a.lg)
     && ClaimedUpTo(st, j, k, p)
     && (a.ptrs[p] == st.threads[k].first ||
         (st.threads[k].pc == SetPtr && st.threads[k].r == j && st.threads[k].i == p)))
  }

  ghost predicate ArrayOk(st: State, j: nat)
    requires j < |st.arrays|
  {
    var a := st.arrays[j];
    && 2 <= a.lg && |a.keys| == |a.ptrs| == Pow2(a.lg) && a.next == j - 1
    && (forall p {:trigger a.keys[p]} :: 0 <= p < |a.keys| ==> KeyOk(st, j, p))
    && (forall p, q :: 0 <= p < q < |a.keys| && a.keys[p] == a.keys[q] ==> a.keys[p] == EMPTY)
  }

  /** The newest array holding the thread's key. */
  ghost predicate AtOk(st: State, t: nat)
    requires t < |st.threads|
  {
    var x := st.threads[t];
    && -1 <= x.at < |st.arrays|
    && (x.at >= 0 ==> Holds(st, x.at, t))
    && (forall j {:trigger Holds(st, j, t)} :: x.at < j < |st.arrays| ==> !Holds(st, j, t))
  }

  ghost predicate Probing(st: State, t: nat)
    requires t < |st.threads|
  {
    var x := st.threads[t];
    0 <= x.r < |st.arrays| && x.i < |st.arrays[x.r].keys| && ClaimedUpTo(st, x.r, t, x.i)
  }

  /** No slot probed so far holds the thread's own key. */
  ghost predicate NotPassed(st: State, t: nat)
    requires t < |st.threads| && Probing(st, t)
  {
    var x := st.threads[t];
    var a := st.arrays[x.r];
    forall e {:trigger a.keys[e]} :: 0 <= e < |a.keys| && Passed(st.home(t, a.lg), x.i, e) ==> a.keys[e] != t
  }

  /** The thread carries the pointer its key will be inserted with. */
  ghost predicate Holding(x: Thread) {
    x.number >= 1 && x.found == x.first
  }

  /** The array of size 2^s the thread offers is the smallest of 4 and more slots that its number half
      fills at most, and is bigger than array r. */
  ghost predicate Allocated(st: State, x: Thread) {
    && 2 <= x.s && x.number <= Half(x.s) && (x.s > 2 ==> x.number > Pow2(x.s - 2))
    && -1 <= x.r < |st.arrays| && (x.r >= 0 ==> st.arrays[x.r].lg < x.s)
  }

  /** Slot i of array r holds the thread's key. */
  ghost predicate Owns(st: State, t: nat)
    requires t < |st.threads|
  {
    var x := st.threads[t];
    0 <= x.r < |st.arrays| && x.at == x.r && x.i < |st.arrays[x.r].keys| && st.arrays[x.r].keys[x.i] == t
  }

  ghost predicate ThreadOk(st: State, t: nat)
    requires t < |st.threads|
  {
    var x := st.threads[t];
    && AtOk(st, t)
    && (x.number == 0 ==> x.at == -1)
    && x.number <= st.count
    && match x.pc
       case Idle => x.number == 0 || (x.at >= 0 && x.got == x.first)
       case LoadRoot => x.number == 0 || x.at >= 0
       case Probe => (x.number == 0 || x.at >= 0) && Probing(st, t) && x.at <= x.r && NotPassed(st, t)
       case Match => x.number >= 1 && Owns(st, t)
       case NextArr => (x.number == 0 || x.at >= 0) && 0 <= x.r < |st.arrays| && x.at < x.r
       case Create => x.number == 0
       case Count => x.number == 0 && x.found == x.first
       case CheckRoot => Holding(x) && x.at == -1
       case CasRoot => Holding(x) && x.at == -1 && Allocated(st, x)
       case Insert =>
         Holding(x) && 0 <= st.root < |st.arrays| && x.at < st.root && x.number <= Half(st.arrays[st.root].lg)
       case Seek => Holding(x) && Probing(st, t) && x.at < x.r && x.number <= Half(st.arrays[x.r].lg)
       case Claim => Holding(x) && Probing(st, t) && x.at < x.r && x.number <= Half(st.arrays[x.r].lg)
       case SetPtr => Holding(x) && Owns(st, t)
  }

  ghost predicate NumbersOk(st: State) {
    forall t, u :: 0 <= t < u < |st.threads| && st.threads[t].number == st.threads[u].number ==>
                     st.threads[t].number == 0
  }

  ghost predicate SizesOk(st: State) {
    forall j, k {:trigger st.arrays[j], st.arrays[k]} :: 0 <= j < k < |st.arrays| ==> st.arrays[j].lg < st.arrays[k].lg
  }

  ghost predicate Inv(st: State) {
    && HomesOk(st)
    && st.root == |st.arrays| - 1
    && SizesOk(st)
    && NumbersOk(st)
    && (forall j {:trigger st.arrays[j]} :: 0 <= j < |st.arrays| ==> ArrayOk(st, j))
    && (forall t {:trigger st.threads[t]} :: 0 <= t < |st.threads| ==> ThreadOk(st, t))
  }

  lemma InitInv(st: State)
    requires Init(st) && HomesOk(st)
    ensures Inv(st)
  {
    forall t | 0 <= t < |st.threads| ensures ThreadOk(st, t) {
      assert st.threads[t].pc == Idle;
    }
  }

  // ---------- probing ----------

  lemma PassedNext(h: nat, i: nat, e: nat, size: nat)
    requires h < size && i < size && e < size && Passed(h, NextSlot(i, size), e)
    ensures Passed(h, i, e) || e == i
  {
  }

  lemma PassedOneWay(h: nat, p: nat, i: nat)
    requires p != i
    ensures Passed(h, p, i) || Passed(h, i, p)
  {
  }

  /** Meeting an empty slot means that the key is not in the array. */
  lemma EmptySlotEndsSearch(st: State, t: nat)
    requires Inv(st) && t < |st.threads| && Probing(st, t) && NotPassed(st, t)
    requires st.arrays[st.threads[t].r].keys[st.threads[t].i] == EMPTY
    ensures !Holds(st, st.threads[t].r, t)
  {
    var x := st.threads[t];
    var a := st.arrays[x.r];
    if Holds(st, x.r, t) {
      assert ArrayOk(st, x.r);
      var p :| 0 <= p < |a.keys| && a.keys[p] == t;
      assert KeyOk(st, x.r, p);
      PassedOneWay(st.home(t, a.lg), p, x.i);
    }
  }

  lemma ProbeOn(st: State, t: nat, st': State)
    requires Inv(st) && t < |st.threads| && Probing(st, t) && |st'.threads| == |st.threads|
    requires st'.arrays == st.arrays && st'.home == st.home
    requires var x := st.threads[t];
             && st.arrays[x.r].keys[x.i] != EMPTY
             && st'.threads[t].r == x.r && st'.threads[t].i == NextSlot(x.i, |st.arrays[x.r].keys|)
    ensures Probing(st', t)
    ensures NotPassed(st, t) && st.arrays[st.threads[t].r].keys[st.threads[t].i] != t ==> NotPassed(st', t)
  {
    var x := st.threads[t];
    var a := st.arrays[x.r];
    assert ArrayOk(st, x.r);
    forall e | 0 <= e < |a.keys| && Passed(st.home(t, a.lg), st'.threads[t].i, e)
      ensures Passed(st.home(t, a.lg), x.i, e) || e == x.i
    {
      PassedNext(st.home(t, a.lg), x.i, e, |a.keys|);
    }
  }

  // ---------- steps that touch the thread's own record only ----------

  ghost predicate Private(st: State, t: nat, st': State)
    requires t < |st.threads|
  {
    && |st'.threads| == |st.threads|
    && st'.arrays == st.arrays && st'.root == st.root && st'.count == st.count && st'.home == st.home
    && (forall u {:trigger st'.threads[u]} :: 0 <= u < |st.threads| && u != t ==> st'.threads[u] == st.threads[u])
    && st'.threads[t].number == st.threads[t].number && st'.threads[t].at == st.threads[t].at
    && (st.threads[t].number >= 1 ==> st'.threads[t].first == st.threads[t].first)
    && st.threads[t].pc != SetPtr
  }

  lemma PrivateKey(st: State, t: nat, st': State, j: nat, p: nat)
    requires t < |st.threads| && Private(st, t, st')
    requires j < |st.arrays| && p < |st.arrays[j].keys| && |st.arrays[j].keys| == |st.arrays[j].ptrs| && KeyOk(st, j, p)
    ensures KeyOk(st', j, p)
  {
  }

  lemma PrivateArray(st: State, t: nat, st': State, j: nat)
    requires t < |st.threads| && Private(st, t, st') && j < |st.arrays| && ArrayOk(st, j)
    ensures ArrayOk(st', j)
  {
    forall p | 0 <= p < |st'.arrays[j].keys| ensures KeyOk(st', j, p) {
      PrivateKey(st, t, st', j, p);
    }
  }

  /** What a thread knows about itself depends on the arrays and its own record. */
  lemma ThreadFrame(st: State, st': State, u: nat)
    requires u < |st.threads| == |st'.threads| && ThreadOk(st, u) && st'.threads[u] == st.threads[u]
    requires st'.arrays == st.arrays && st'.root == st.root && st'.count >= st.count && st'.home == st.home
    ensures ThreadOk(st', u)
  {
    forall j | st.threads[u].at < j < |st.arrays| ensures !Holds(st', j, u) {
      assert !Holds(st, j, u);
    }
  }

  lemma AtFrame(st: State, st': State, t: nat)
    requires t < |st.threads| == |st'.threads| && AtOk(st, t) && st'.arrays == st.arrays
    requires st'.threads[t].at == st.threads[t].at
    ensures AtOk(st', t)
  {
    forall j | st.threads[t].at < j < |st.arrays| ensures !Holds(st', j, t) {
      assert !Holds(st, j, t);
    }
  }

  lemma PrivateStep(st: State, t: nat, st': State)
    requires Inv(st) && t < |st.threads| && Private(st, t, st')
    requires ThreadOk(st', t)
    ensures Inv(st')
  {
    forall j | 0 <= j < |st'.arrays| ensures ArrayOk(st', j) {
      PrivateArray(st, t, st', j);
    }
    forall u | 0 <= u < |st'.threads| ensures ThreadOk(st', u) {
      if u != t {
        ThreadFrame(st, st', u);
      }
    }
    forall u, w | 0 <= u < w < |st'.threads| && st'.threads[u].number == st'.threads[w].number
      ensures st'.threads[u].number == 0
    {
      assert st'.threads[u].number == st.threads[u].number && st'.threads[w].number == st.threads[w].number;
    }
  }

  lemma StepIdle(st: State, t: nat, created: int)
    requires Inv(st) && InBounds(st, t) && st.threads[t].pc == Idle
    ensures Inv(Step(st, t, created))
  {
    var st' := Step(st, t, created);
    assert ThreadOk(st, t);
    AtFrame(st, st', t);
    PrivateStep(st, t, st');
  }

  lemma Entered(st: State, t: nat, r: int, st': State)
    requires Inv(st) && t < |st.threads| && -1 <= r < |st.arrays| && Private(st, t, st')
    requires st'.threads[t] == EnterArray(st, t, st.threads[t], r)
    requires st.threads[t].number == 0 || st.threads[t].at >= 0
    requires st.threads[t].at <= r
    ensures ThreadOk(st', t)
  {
    assert ThreadOk(st, t);
    AtFrame(st, st', t);
    if r >= 0 {
      assert ArrayOk(st, r);
      assert st.home(t, st.arrays[r].lg) < Pow2(st.arrays[r].lg);
    }
  }

  lemma StepLoadRoot(st: State, t: nat, created: int)
    requires Inv(st) && InBounds(st, t) && st.threads[t].pc == LoadRoot
    ensures Inv(Step(st, t, created))
  {
    var st' := Step(st, t, created);
    assert ThreadOk(st, t);
    Entered(st, t, st.root, st');
    PrivateStep(st, t, st');
  }

  lemma StepNextArr(st: State, t: nat, created: int)
    requires Inv(st) && InBounds(st, t) && st.threads[t].pc == NextArr
    ensures Inv(Step(st, t, created))
  {
    var st' := Step(st, t, created);
    assert ThreadOk(st, t);
    assert ArrayOk(st, st.threads[t].r);
    Entered(st, t, st.arrays[st.threads[t].r].next, st');
    PrivateStep(st, t, st');
  }

  lemma StepProbe(st: State, t: nat, created: int)
    requires Inv(st) && InBounds(st, t) && st.threads[t].pc == Probe
    ensures Inv(Step(st, t, created))
  {
    var st', x := Step(st, t, created), st.threads[t];
    assert ThreadOk(st, t);
    AtFrame(st, st', t);
    var a := st.arrays[x.r];
    if a.keys[x.i] == EMPTY {
      EmptySlotEndsSearch(st, t);
    } else if a.keys[x.i] == t {
      assert ArrayOk(st, x.r);
      assert KeyOk(st, x.r, x.i);
      assert Holds(st, x.r, t);
    } else {
      ProbeOn(st, t, st');
    }
    PrivateStep(st, t, st');
  }

  /** The pointer in a slot is the owner's first one, unless the owner has still to write it. */
  lemma SlotPointer(st: State, j: nat, p: nat, t: nat)
    requires Inv(st) && j < |st.arrays| && p < |st.arrays[j].keys| && st.arrays[j].keys[p] == t
    requires t < |st.threads| && st.threads[t].pc != SetPtr
    ensures p < |st.arrays[j].ptrs| && st.arrays[j].ptrs[p] == st.threads[t].first
    ensures 1 <= st.threads[t].number <= Half(st.arrays[j].lg)
  {
    assert ArrayOk(st, j);
    assert KeyOk(st, j, p);
  }

  lemma LargerRoot(st: State, j: nat)
    requires Inv(st) && j < |st.arrays|
    ensures 2 <= st.arrays[j].lg <= st.arrays[st.root].lg
    ensures Half(st.arrays[j].lg) <= Half(st.arrays[st.root].lg)
  {
    assert ArrayOk(st, j);
    assert j < st.root ==> st.arrays[j].lg < st.arrays[st.root].lg;
    Pow2Monotone(st.arrays[j].lg - 1, st.arrays[st.root].lg - 1);
  }

  lemma StepMatch(st: State, t: nat, created: int)
    requires Inv(st) && InBounds(st, t) && st.threads[t].pc == Match
    ensures Inv(Step(st, t, created))
  {
    var st', x := Step(st, t, created), st.threads[t];
    assert ThreadOk(st, t);
    AtFrame(st, st', t);
    SlotPointer(st, x.r, x.i, t);
    LargerRoot(st, x.r);
    PrivateStep(st, t, st');
  }

  lemma StepCreate(st: State, t: nat, created: int)
    requires Inv(st) && InBounds(st, t) && st.threads[t].pc == Create
    ensures Inv(Step(st, t, created))
  {
    var st' := Step(st, t, created);
    assert ThreadOk(st, t);
    AtFrame(st, st', t);
    PrivateStep(st, t, st');
  }

  lemma StepCheckRoot(st: State, t: nat, created: int)
    requires Inv(st) && InBounds(st, t) && st.threads[t].pc == CheckRoot
    ensures Inv(Step(st, t, created))
  {
    var st' := Step(st, t, created);
    assert ThreadOk(st, t);
    AtFrame(st, st', t);
    if st.root >= 0 {
      assert ArrayOk(st, st.root);
    }
    PrivateStep(st, t, st');
  }

  lemma StepCasFails(st: State, t: nat, created: int)
    requires Inv(st) && InBounds(st, t) && st.threads[t].pc == CasRoot && st.root != st.threads[t].r
    ensures Inv(Step(st, t, created))
  {
    var st', x := Step(st, t, created), st.threads[t];
    assert ThreadOk(st, t);
    AtFrame(st, st', t);
    if st.arrays[st.root].lg >= x.s {
      Pow2Monotone(x.s - 1, st.arrays[st.root].lg - 1);
    }
    PrivateStep(st, t, st');
  }

  lemma StepInsert(st: State, t: nat, created: int)
    requires Inv(st) && InBounds(st, t) && st.threads[t].pc == Insert
    ensures Inv(Step(st, t, created))
  {
    var st' := Step(st, t, created);
    assert ThreadOk(st, t);
    AtFrame(st, st', t);
    assert ArrayOk(st, st.root);
    assert st.home(t, st.arrays[st.root].lg) < Pow2(st.arrays[st.root].lg);
    PrivateStep(st, t, st');
  }

  lemma StepSeek(st: State, t: nat, created: int)
    requires Inv(st) && InBounds(st, t) && st.threads[t].pc == Seek
    ensures Inv(Step(st, t, created))
  {
    var st', x := Step(st, t, created), st.threads[t];
    assert ThreadOk(st, t);
    AtFrame(st, st', t);
    if st.arrays[x.r].keys[x.i] != EMPTY {
      ProbeOn(st, t, st');
    }
    PrivateStep(st, t, st');
  }

  lemma StepClaimFails(st: State, t: nat, created: int)
    requires Inv(st) && InBounds(st, t) && st.threads[t].pc == Claim
    requires st.arrays[st.threads[t].r].keys[st.threads[t].i] != EMPTY
    ensures Inv(Step(st, t, created))
  {
    var st' := Step(st, t, created);
    assert ThreadOk(st, t);
    AtFrame(st, st', t);
    ProbeOn(st, t, st');
    PrivateStep(st, t, st');
  }

  // ---------- steps on shared memory ----------

  lemma StepCount(st: State, t: nat, created: int)
    requires Inv(st) && InBounds(st, t) && st.threads[t].pc == Count
    ensures Inv(Step(st, t, created))
  {
    var st' := Step(st, t, created);
    assert ThreadOk(st, t);
    AtFrame(st, st', t);
    forall j | 0 <= j < |st'.arrays| ensures ArrayOk(st', j) {
      assert ArrayOk(st, j);
      assert !Holds(st, j, t);
      forall p | 0 <= p < |st'.arrays[j].keys| ensures KeyOk(st', j, p) {
        assert KeyOk(st, j, p);
      }
    }
    forall u | 0 <= u < |st'.threads| ensures ThreadOk(st', u) {
      assert ThreadOk(st, u);
      if u != t {
        ThreadFrame(st, st', u);
      }
    }
    forall u, w | 0 <= u < w < |st'.threads| && st'.threads[u].number == st'.threads[w].number
      ensures st'.threads[u].number == 0
    {
      assert ThreadOk(st, u) && ThreadOk(st, w);
    }
  }

  /** A bigger array becomes the root. */
  ghost predicate Grown(st: State, t: nat, st': State)
    requires t < |st.threads|
  {
    var x := st.threads[t];
    && x.pc == CasRoot && st.root == x.r == |st.arrays| - 1
    && st'.arrays == st.arrays + [NewArray(x.s, x.r)] && st'.root == |st.arrays|
    && st'.threads == st.threads[t := x.(pc := Insert)] && st'.count == st.count && st'.home == st.home
  }

  lemma GrownHolds(st: State, t: nat, st': State, j: int, u: nat)
    requires t < |st.threads| && Grown(st, t, st')
    ensures Holds(st', j, u) <==> Holds(st, j, u)
  {
    if j < |st.arrays| {
      assert 0 <= j ==> st'.arrays[j] == st.arrays[j];
    }
  }

  /** Publishing an empty array concerns nobody's key. */
  lemma GrownThread(st: State, t: nat, st': State, u: nat)
    requires t < |st.threads| && u < |st.threads| && Grown(st, t, st') && ThreadOk(st, t) && ThreadOk(st, u)
    requires st.root >= 0 ==> 2 <= st.arrays[st.root].lg
    ensures ThreadOk(st', u)
  {
    var x, n := st.threads[u], |st.arrays|;
    assert forall j :: 0 <= j < n ==> st'.arrays[j] == st.arrays[j];
    forall j ensures Holds(st', j, u) <==> Holds(st, j, u) {
      GrownHolds(st, t, st', j, u);
    }
    forall j | x.at < j < |st'.arrays| ensures !Holds(st', j, u) {
      assert j < n ==> !Holds(st, j, u);
    }
    if x.pc == Insert {
      Pow2Monotone(st.arrays[st.root].lg - 1, st.threads[t].s - 1);
    }
  }

  lemma StepCasRoot(st: State, t: nat, created: int)
    requires Inv(st) && InBounds(st, t) && st.threads[t].pc == CasRoot && st.root == st.threads[t].r
    ensures Inv(Step(st, t, created))
  {
    var st', x, n := Step(st, t, created), st.threads[t], |st.arrays|;
    assert ThreadOk(st, t);
    assert Grown(st, t, st');
    assert st.root >= 0 ==> ArrayOk(st, st.root);
    assert forall j :: 0 <= j < n ==> st'.arrays[j] == st.arrays[j];
    forall j | 0 <= j < |st'.arrays| ensures ArrayOk(st', j) {
      forall p | 0 <= p < |st'.arrays[j].keys| ensures j < n ==> ArrayOk(st, j)
        ensures |st'.arrays[j].keys| == |st'.arrays[j].ptrs| && KeyOk(st', j, p)
      {
        if j < n {
          assert ArrayOk(st, j);
          assert KeyOk(st, j, p);
        }
      }
      assert j < n ==> ArrayOk(st, j);
    }
    forall u | 0 <= u < |st'.threads| ensures ThreadOk(st', u) {
      assert ThreadOk(st, u);
      GrownThread(st, t, st', u);
    }
    forall j, k | 0 <= j < k < |st'.arrays| ensures st'.arrays[j].lg < st'.arrays[k].lg {
      if k < n {
        assert st.arrays[j].lg < st.arrays[k].lg;
      } else {
        assert j < st.root ==> st.arrays[j].lg < st.arrays[st.root].lg;
      }
    }
    forall u, w | 0 <= u < w < |st'.threads| && st'.threads[u].number == st'.threads[w].number
      ensures st'.threads[u].number == 0
    {
      assert st'.threads[u].number == st.threads[u].number && st'.threads[w].number == st.threads[w].number;
    }
  }

  /** Claiming an empty slot writes one key into one array. */
  ghost predicate Claimed(st: State, t: nat, st': State)
    requires t < |st.threads|
  {
    var x := st.threads[t];
    && 0 <= x.r < |st.arrays| && x.i < |st.arrays[x.r].keys| && st.arrays[x.r].keys[x.i] == EMPTY
    && |st'.arrays| == |st.arrays| && st'.home == st.home && st'.root == st.root && st'.count == st.count
    && (forall j {:trigger st'.arrays[j]} :: 0 <= j < |st.arrays| && j != x.r ==> st'.arrays[j] == st.arrays[j])
    && st'.arrays[x.r] == st.arrays[x.r].(keys := st.arrays[x.r].keys[x.i := t])
    && st'.threads == st.threads[t := x.(pc := SetPtr, at := x.r)]
  }

  lemma ClaimedHolds(st: State, t: nat, st': State, j: int, u: nat)
    requires t < |st.threads| && Claimed(st, t, st')
    ensures Holds(st', j, u) <==> Holds(st, j, u) || (u == t && j == st.threads[t].r)
  {
    var x := st.threads[t];
    if j == x.r {
      var a, b := st.arrays[j].keys, st'.arrays[j].keys;
      if u in a {
        var p :| 0 <= p < |a| && a[p] == u;
        assert b[p] == u;
      }
      assert b[x.i] == t;
      if u in b && u != t {
        var p :| 0 <= p < |b| && b[p] == u;
        assert a[p] == u;
      }
    }
  }

  lemma ClaimedKey(st: State, t: nat, st': State, j: nat, p: nat)
    requires t < |st.threads| && Claimed(st, t, st') && j < |st.arrays| && ArrayOk(st, j)
    requires p < |st.arrays[j].keys| && st.threads[t].pc == Claim
    requires ThreadOk(st, t)
    ensures KeyOk(st', j, p)
  {
    assert KeyOk(st, j, p);
  }

  lemma ClaimedArray(st: State, t: nat, st': State, j: nat)
    requires t < |st.threads| && Claimed(st, t, st') && j < |st.arrays| && ArrayOk(st, j)
    requires st.threads[t].pc == Claim && ThreadOk(st, t)
    ensures ArrayOk(st', j)
  {
    forall p | 0 <= p < |st'.arrays[j].keys| ensures KeyOk(st', j, p) {
      ClaimedKey(st, t, st', j, p);
    }
    var x := st.threads[t];
    if j == x.r {
      assert !Holds(st, j, t);
      assert forall p :: 0 <= p < |st.arrays[j].keys| ==> st.arrays[j].keys[p] != t;
    }
  }

  lemma ClaimedThread(st: State, t: nat, st': State, u: nat)
    requires t < |st.threads| && u < |st.threads| && Claimed(st, t, st')
    requires st.threads[t].pc == Claim && ThreadOk(st, t) && ThreadOk(st, u)
    ensures ThreadOk(st', u)
  {
    forall j ensures Holds(st', j, u) <==> Holds(st, j, u) || (u == t && j == st.threads[t].r) {
      ClaimedHolds(st, t, st', j, u);
    }
    forall j | st'.threads[u].at < j < |st'.arrays| ensures !Holds(st', j, u) {
      assert !Holds(st, j, u);
    }
  }

  lemma StepClaim(st: State, t: nat, created: int)
    requires Inv(st) && InBounds(st, t) && st.threads[t].pc == Claim
    requires st.arrays[st.threads[t].r].keys[st.threads[t].i] == EMPTY
    ensures Inv(Step(st, t, created))
  {
    var st' := Step(st, t, created);
    assert ThreadOk(st, t);
    assert Claimed(st, t, st');
    forall j | 0 <= j < |st'.arrays| ensures ArrayOk(st', j) {
      ClaimedArray(st, t, st', j);
    }
    forall u | 0 <= u < |st'.threads| ensures ThreadOk(st', u) {
      assert ThreadOk(st, u);
      ClaimedThread(st, t, st', u);
    }
    forall j, k | 0 <= j < k < |st'.arrays| ensures st'.arrays[j].lg < st'.arrays[k].lg {
      assert st'.arrays[j].lg == st.arrays[j].lg && st'.arrays[k].lg == st.arrays[k].lg;
    }
    forall u, w | 0 <= u < w < |st'.threads| && st'.threads[u].number == st'.threads[w].number
      ensures st'.threads[u].number == 0
    {
      assert st'.threads[u].number == st.threads[u].number && st'.threads[w].number == st.threads[w].number;
    }
  }

  /** Writing the pointer leaves all keys alone. */
  ghost predicate PtrSet(st: State, t: nat, st': State)
    requires t < |st.threads|
  {
    var x := st.threads[t];
    && 0 <= x.r < |st.arrays| && x.i < |st.arrays[x.r].ptrs|
    && |st'.arrays| == |st.arrays| && st'.home == st.home && st'.root == st.root && st'.count == st.count
    && (forall j {:trigger st'.arrays[j]} :: 0 <= j < |st.arrays| && j != x.r ==> st'.arrays[j] == st.arrays[j])
    && st'.arrays[x.r] == st.arrays[x.r].(ptrs := st.arrays[x.r].ptrs[x.i := x.found])
    && st'.threads == st.threads[t := x.(pc := Idle, got := x.found)]
  }

  lemma PtrSetKey(st: State, t: nat, st': State, j: nat, p: nat)
    requires t < |st.threads| && PtrSet(st, t, st') && j < |st.arrays| && ArrayOk(st, j)
    requires p < |st.arrays[j].keys| && st.threads[t].pc == SetPtr && ThreadOk(st, t)
    ensures KeyOk(st', j, p)
  {
    assert KeyOk(st, j, p);
  }

  lemma PtrSetThread(st: State, t: nat, st': State, u: nat)
    requires t < |st.threads| && u < |st.threads| && PtrSet(st, t, st')
    requires st.threads[t].pc == SetPtr && ThreadOk(st, t) && ThreadOk(st, u)
    ensures ThreadOk(st', u)
  {
    assert forall j :: 0 <= j < |st.arrays| ==>
                         st'.arrays[j].keys == st.arrays[j].keys && st'.arrays[j].lg == st.arrays[j].lg;
    forall j | st'.threads[u].at < j < |st'.arrays| ensures !Holds(st', j, u) {
      assert !Holds(st, j, u);
    }
    if st.threads[u].at >= 0 {
      assert Holds(st, st.threads[u].at, u);
    }
  }

  lemma StepSetPtr(st: State, t: nat, created: int)
    requires Inv(st) && InBounds(st, t) && st.threads[t].pc == SetPtr
    ensures Inv(Step(st, t, created))
  {
    var st' := Step(st, t, created);
    assert ThreadOk(st, t);
    assert PtrSet(st, t, st');
    forall j | 0 <= j < |st'.arrays| ensures ArrayOk(st', j) {
      assert ArrayOk(st, j);
      forall p | 0 <= p < |st'.arrays[j].keys| ensures KeyOk(st', j, p) {
        PtrSetKey(st, t, st', j, p);
      }
    }
    forall u | 0 <= u < |st'.threads| ensures ThreadOk(st', u) {
      assert ThreadOk(st, u);
      PtrSetThread(st, t, st', u);
    }
    forall j, k | 0 <= j < k < |st'.arrays| ensures st'.arrays[j].lg < st'.arrays[k].lg {
      assert st'.arrays[j].lg == st.arrays[j].lg && st'.arrays[k].lg == st.arrays[k].lg;
    }
    forall u, w | 0 <= u < w < |st'.threads| && st'.threads[u].number == st'.threads[w].number
      ensures st'.threads[u].number == 0
    {
      assert st'.threads[u].number == st.threads[u].number && st'.threads[w].number == st.threads[w].number;
    }
  }

  // ---------- how full the arrays get ----------

  /** Slots with distinct numbers between 1 and m are at most m. */
  lemma {:induction false} DistinctNumbers(slots: set<nat>, number: seq<nat>, m: nat)
    requires forall p :: p in slots ==> p < |number| && 1 <= number[p] <= m
    requires forall p, q :: p in slots && q in slots && number[p] == number[q] ==> p == q
    ensures |slots| <= m
    decreases m
  {
    if m > 0 {
      if p :| p in slots && number[p] == m {
        DistinctNumbers(slots - {p}, number, m - 1);
      } else {
        DistinctNumbers(slots, number, m - 1);
      }
    } else {
      assert slots == {};
    }
  }

  ghost function ClaimedSlots(a: Arr): set<nat> {
    set p: nat | p < |a.keys| && a.keys[p] != EMPTY
  }

  /** An array of 2^lg slots never holds more than 2^(lg - 1) keys. */
  lemma AtMostHalf(st: State, j: nat)
    requires Inv(st) && j < |st.arrays|
    ensures |ClaimedSlots(st.arrays[j])| <= Half(st.arrays[j].lg)
  {
    var a := st.arrays[j];
    assert ArrayOk(st, j);
    forall p | 0 <= p < |a.keys| ensures KeyOk(st, j, p) {
    }
    var number := seq(|a.keys|, p requires 0 <= p < |a.keys| =>
      if 0 <= a.keys[p] < |st.threads| then st.threads[a.keys[p]].number else 0);
    forall p, q | p in ClaimedSlots(a) && q in ClaimedSlots(a) && number[p] == number[q] ensures p == q {
      assert KeyOk(st, j, p) && KeyOk(st, j, q);
      var k, l := a.keys[p], a.keys[q];
      assert st.threads[k].number == st.threads[l].number >= 1;
    }
    DistinctNumbers(ClaimedSlots(a), number, Half(a.lg));
  }

  ghost function AllSlots(n: nat): (s: set<nat>)
    ensures |s| == n
    ensures forall p: nat :: p in s <==> p < n
  {
    if n == 0 then {} else AllSlots(n - 1) + {n - 1}
  }

  /** The slot the thread is about to read is empty, or the one after it is not where the thread
      started to probe. */
  ghost predicate NotAround(st: State, t: nat)
    requires t < |st.threads| && Probing(st, t)
  {
    var a := st.arrays[st.threads[t].r];
    a.keys[st.threads[t].i] == EMPTY || NextSlot(st.threads[t].i, |a.keys|) != st.home(t, a.lg)
  }

  /** So probing always meets an empty slot before it comes round to where it started. */
  lemma ProbingEnds(st: State, t: nat)
    requires Inv(st) && t < |st.threads| && Probing(st, t)
    ensures NotAround(st, t)
  {
    var x := st.threads[t];
    var a := st.arrays[x.r];
    assert ArrayOk(st, x.r);
    var h := st.home(t, a.lg);
    if a.keys[x.i] != EMPTY && NextSlot(x.i, |a.keys|) == h {
      forall e: nat | e < |a.keys| ensures e in ClaimedSlots(a) {
        assert e == x.i || Passed(h, x.i, e);
      }
      assert ClaimedSlots(a) == AllSlots(|a.keys|);
      AtMostHalf(st, x.r);
    }
  }

  // ---------- whole runs ----------

  lemma StepInv(st: State, t: nat, created: int)
    requires Inv(st) && InBounds(st, t)
    ensures Inv(Step(st, t, created))
  {
    match st.threads[t].pc
    case Idle => StepIdle(st, t, created);
    case LoadRoot => StepLoadRoot(st, t, created);
    case Probe => StepProbe(st, t, created);
    case Match => StepMatch(st, t, created);
    case NextArr => StepNextArr(st, t, created);
    case Create => StepCreate(st, t, created);
    case Count => StepCount(st, t, created);
    case CheckRoot => StepCheckRoot(st, t, created);
    case CasRoot =>
      if st.root == st.threads[t].r {
        StepCasRoot(st, t, created);
      } else {
        StepCasFails(st, t, created);
      }
    case Insert => StepInsert(st, t, created);
    case Seek => StepSeek(st, t, created);
    case Claim =>
      if st.arrays[st.threads[t].r].keys[st.threads[t].i] == EMPTY {
        StepClaim(st, t, created);
      } else {
        StepClaimFails(st, t, created);
      }
    case SetPtr => StepSetPtr(st, t, created);
  }

  /** Which thread moves, and what create_local would return to it. */
  datatype Move = Move(thread: nat, created: int)

  ghost predicate Next(st: State, m: Move, st': State) {
    m.thread < |st.threads| && InBounds(st, m.thread) && st' == Step(st, m.thread, m.created)
  }

  /** The state reached from an initial state by the moves of a schedule, one after the other. */
  ghost predicate Reaches(init: State, schedule: seq<Move>, st: State) {
    if schedule == [] then Init(init) && HomesOk(init) && st == init
    else
      var n := |schedule| - 1;
      exists mid :: Reaches(init, schedule[..n], mid) && Next(mid, schedule[n], st)
  }

  lemma {:induction false} ReachedInv(init: State, schedule: seq<Move>, st: State)
    requires Reaches(init, schedule, st)
    ensures Inv(st)
    decreases |schedule|
  {
    if schedule == [] {
      InitInv(st);
    } else {
      var n := |schedule| - 1;
      var mid :| Reaches(init, schedule[..n], mid) && Next(mid, schedule[n], st);
      ReachedInv(init, schedule[..n], mid);
      StepInv(mid, schedule[n].thread, schedule[n].created);
    }
  }

  lemma NeverOutOfBounds(st: State, t: nat)
    requires Inv(st) && t < |st.threads|
    ensures InBounds(st, t)
  {
    assert ThreadOk(st, t);
    var x := st.threads[t];
    if 0 <= x.r < |st.arrays| {
      assert ArrayOk(st, x.r);
    }
    if st.root >= 0 {
      assert ArrayOk(st, st.root);
    }
  }

  /** The array holds each key once and at most half as many keys as it has slots. */
  ghost predicate ArraySafe(st: State, j: nat)
    requires j < |st.arrays|
  {
    var a := st.arrays[j];
    && |a.keys| == Pow2(a.lg) && |ClaimedSlots(a)| <= Pow2(a.lg) / 2
    && forall p: nat, q: nat :: p < q < |a.keys| ==> a.keys[p] != a.keys[q] || a.keys[p] == EMPTY
  }

  /** The thread does not step out of bounds; if it is probing it meets an empty slot before it is back
      where it started; and if it is back from a lookup it has the pointer its first one created. */
  ghost predicate ThreadSafe(st: State, t: nat)
    requires t < |st.threads|
  {
    var x := st.threads[t];
    && InBounds(st, t)
    && (x.pc == Probe || x.pc == Seek ==> Probing(st, t) && NotAround(st, t))
    && (x.pc == Idle && x.number >= 1 ==> x.got == x.first)
  }

  lemma InvArraySafe(st: State, j: nat)
    requires Inv(st) && j < |st.arrays|
    ensures ArraySafe(st, j)
  {
    AtMostHalf(st, j);
    assert ArrayOk(st, j);
  }

  lemma InvThreadSafe(st: State, t: nat)
    requires Inv(st) && t < |st.threads|
    ensures ThreadSafe(st, t)
  {
    NeverOutOfBounds(st, t);
    assert ThreadOk(st, t);
    if st.threads[t].pc == Probe || st.threads[t].pc == Seek {
      ProbingEnds(st, t);
    }
  }

  /** In every state of every run, for any number of threads and any hash function. */
  lemma EveryRunIsSafe(init: State, schedule: seq<Move>, st: State)
    requires Reaches(init, schedule, st)
    ensures forall t: nat {:trigger ThreadSafe(st, t)} :: t < |st.threads| ==> ThreadSafe(st, t)
    ensures forall j: nat {:trigger ArraySafe(st, j)} :: j < |st.arrays| ==> ArraySafe(st, j)
  {
    ReachedInv(init, schedule, st);
    forall t: nat | t < |st.threads| ensures ThreadSafe(st, t) {
      InvThreadSafe(st, t);
    }
    forall j: nat | j < |st.arrays| ensures ArraySafe(st, j) {
      InvArraySafe(st, j);
    }
  }

  /** The pointer of the first lookup is created once and for all. */
  lemma FirstPointerStays(st: State, t: nat, u: nat, created: int)
    requires Inv(st) && InBounds(st, t) && u < |st.threads| && st.threads[u].number >= 1
    ensures var x := Step(st, t, created).threads[u]; x.number >= 1 && x.first == st.threads[u].first
  {
    assert ThreadOk(st, t);
  }
}
