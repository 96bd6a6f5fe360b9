/** Batches of a concurrent priority queue: pushes and pops collected by the aggregator and
    handled by one thread over a vector that is a heap up to mark. */
module PriorityQueue {

  /** Elements are compared by priority only; distinct elements may have the same priority. */
  datatype Item = Item(prio: int, id: int)

  predicate Less(a: Item, b: Item) {
    a.prio < b.prio
  }

  datatype Op = Push(item: Item) | Pop
  /** Operations linked by their next fields, named by their indices in the batch. */
  datatype OpList = Nil | Cons(op: nat, next: OpList)

  datatype Outcome = Waiting | Pushed | Popped(item: Item) | Failed

  // ---------- the sequential queue ----------

  /** How often x stands among the first n elements of s. */
  ghost function Count<T>(s: seq<T>, n: nat, x: T): nat
    requires n <= |s|
  {
    if n == 0 then 0 else Count(s, n - 1, x) + (if s[n - 1] == x then 1 else 0)
  }

  /** A sequential run: the operations in the order in which they take effect, by their indices
      in the batch, each with its outcome. */
  datatype Run = Start | Then(earlier: Run, op: nat, outcome: Outcome)

  /** How often operation i occurs in the run. */
  ghost function Occurs(run: Run, i: nat): nat {
    match run
    case Start => 0
    case Then(earlier, j, _) => Occurs(earlier, i) + (if i == j then 1 else 0)
  }

  /** How many copies of x a queue that started with d0 holds after the run. */
  ghost function Held(d0: seq<Item>, ops: seq<Op>, run: Run, x: Item): int {
    match run
    case Start => Count(d0, |d0|, x)
    case Then(earlier, i, res) => Held(d0, ops, earlier, x) + Change(if i < |ops| then ops[i] else Pop, res, x)
  }

  ghost function Change(op: Op, res: Outcome, x: Item): int {
    match op
    case Push(y) => if y == x then 1 else 0
    case Pop => if res == Popped(x) then -1 else 0
  }

  /** A push succeeds; a pop takes a largest element, and fails only on the empty queue. */
  ghost predicate Legal(d0: seq<Item>, ops: seq<Op>, run: Run, op: Op, res: Outcome) {
    match op
    case Push(_) => res == Pushed
    case Pop =>
      match res
      case Popped(x) => Held(d0, ops, run, x) > 0 && forall y :: Held(d0, ops, run, y) > 0 ==> y.prio <= x.prio
      case Failed => forall y :: Held(d0, ops, run, y) <= 0
      case _ => false
  }

  /** Every operation of the run has a legal outcome on the contents it finds. */
  ghost predicate LegalRun(d0: seq<Item>, ops: seq<Op>, run: Run) {
    match run
    case Start => true
    case Then(earlier, i, res) => i < |ops| && LegalRun(d0, ops, earlier) && Legal(d0, ops, earlier, ops[i], res)
  }

  /** The run leads from the contents d0 to the first n elements of d1, one legal operation at a
      time. */
  ghost predicate Leads(d0: seq<Item>, ops: seq<Op>, run: Run, d1: seq<Item>, n: nat)
    requires n <= |d1|
  {
    LegalRun(d0, ops, run) && forall x :: Held(d0, ops, run, x) == Count(d1, n, x)
  }

  /** The outcomes in the run are those reported to the callers. */
  ghost predicate Agrees(run: Run, results: seq<Outcome>) {
    match run
    case Start => true
    case Then(earlier, i, res) => i < |results| && results[i] == res && Agrees(earlier, results)
  }

  /** Reporting the result of an operation not yet in the run changes nothing. */
  lemma {:induction false} AgreesFrame(run: Run, results: seq<Outcome>, i: nat, res: Outcome)
    requires Agrees(run, results) && i < |results| && Occurs(run, i) == 0
    ensures Agrees(run, results[i := res])
  {
    if run.Then? {
      AgreesFrame(run.earlier, results, i, res);
    }
  }

  lemma {:induction false} CountIsMultiset<T>(s: seq<T>, n: nat, x: T)
    requires n <= |s|
    ensures Count(s, n, x) == multiset(s[..n])[x]
  {
    if n > 0 {
      CountIsMultiset(s, n - 1, x);
      assert s[..n] == s[..n - 1] + [s[n - 1]];
    }
  }

  lemma {:induction false} CountFrame<T>(s: seq<T>, r: seq<T>, n: nat, x: T)
    requires n <= |s| && n <= |r| && forall k :: 0 <= k < n ==> s[k] == r[k]
    ensures Count(s, n, x) == Count(r, n, x)
  {
    if n > 0 {
      CountFrame(s, r, n - 1, x);
    }
  }

  lemma {:induction false} CountMember<T>(s: seq<T>, n: nat, k: nat)
    requires k < n <= |s|
    ensures Count(s, n, s[k]) > 0
  {
    if k < n - 1 {
      CountMember(s, n - 1, k);
    }
  }

  lemma {:induction false} CountWitness<T>(s: seq<T>, n: nat, x: T) returns (k: nat)
    requires n <= |s| && Count(s, n, x) > 0
    ensures k < n && s[k] == x
  {
    if s[n - 1] == x {
      k := n - 1;
    } else {
      k := CountWitness(s, n - 1, x);
    }
  }

  // ---------- heaps ----------

  function Parent(k: nat): nat
    requires 0 < k
  {
    (k - 1) / 2
  }

  predicate Edge(data: seq<Item>, k: nat)
    requires 0 < k < |data|
  {
    !Less(data[Parent(k)], data[k])
  }

  predicate IsHeap(data: seq<Item>, mark: nat)
    requires mark <= |data|
  {
    forall k {:trigger Edge(data, k)} :: 0 < k < mark ==> Edge(data, k)
  }

  lemma {:induction false} RootIsLargest(data: seq<Item>, mark: nat, k: nat)
    requires mark <= |data| && IsHeap(data, mark) && k < mark
    ensures !Less(data[0], data[k])
  {
    if k > 0 {
      assert Edge(data, k);
      RootIsLargest(data, mark, Parent(k));
    }
  }

  /** No element of the heap is larger than its top. */
  lemma HeapTop(data: seq<Item>, mark: nat)
    requires mark <= |data| && IsHeap(data, mark)
    ensures forall y :: Count(data, mark, y) > 0 ==> mark > 0 && y.prio <= data[0].prio
    ensures mark > 0 ==> Count(data, mark, data[0]) > 0
  {
    forall y | Count(data, mark, y) > 0 ensures mark > 0 && y.prio <= data[0].prio {
      var k := CountWitness(data, mark, y);
      RootIsLargest(data, mark, k);
    }
    if mark > 0 {
      CountMember(data, mark, 0);
    }
  }

  lemma UpdateMultiset(s: seq<Item>, k: nat, x: Item)
    requires k < |s|
    ensures multiset(s[k := x]) == multiset(s) - multiset{s[k]} + multiset{x}
  {
    assert s == s[..k] + [s[k]] + s[k + 1..];
    assert s[k := x] == s[..k] + [x] + s[k + 1..];
  }

  /** Moving a child into the hole moves the hole to the child. */
  lemma MoveHole(s: seq<Item>, hole: nat, child: nat, x: Item)
    requires hole < |s| && child < |s| && hole != child
    ensures multiset(s[hole := s[child]][child := x]) == multiset(s[hole := x])
  {
    UpdateMultiset(s, hole, s[child]);
    UpdateMultiset(s[hole := s[child]], child, x);
    UpdateMultiset(s, hole, x);
  }

  // ---------- pushing the last element down from the root ----------

  /** The heap order holds around the hole at cur, and x fits the edge above it. */
  ghost predicate HoleOrder(data: seq<Item>, m: nat, cur: nat, x: Item)
    requires m <= |data|
  {
    && (cur < m || (m == 0 && cur == 0))
    && (forall k {:trigger Edge(data, k)} :: 0 < k < m && k != cur && Parent(k) != cur ==> Edge(data, k))
    && (cur > 0 ==> !Less(data[Parent(cur)], x))
    && (cur > 0 ==>
          forall k {:trigger Parent(k)} :: 0 < k < m && Parent(k) == cur ==> !Less(data[Parent(cur)], data[k]))
  }

  /** With x in the hole the first m slots hold what they held, except the old top. */
  ghost predicate HoleContents(d0: seq<Item>, data: seq<Item>, m: nat, cur: nat, x: Item)
    requires m <= |d0| == |data|
  {
    0 < m && cur < m ==> multiset(data[..m][cur := x]) == multiset(d0[..m]) - multiset{d0[0]} + multiset{x}
  }

  ghost predicate HoleInv(d0: seq<Item>, data: seq<Item>, m: nat, cur: nat, x: Item)
    requires m <= |d0|
  {
    && |data| == |d0| >= 1 && cur < |data|
    && data[|data| - 1] == x == d0[|d0| - 1]
    && data[m..] == d0[m..]
    && HoleOrder(data, m, cur, x)
    && HoleContents(d0, data, m, cur, x)
  }

  /** No child of cur is larger than x. */
  ghost predicate Fits(data: seq<Item>, m: nat, cur: nat, x: Item)
    requires m <= |data|
  {
    forall k {:trigger Parent(k)} :: 0 < k < m && Parent(k) == cur ==> !Less(x, data[k])
  }

  lemma HoleStart(d0: seq<Item>, m: nat)
    requires 1 <= |d0| && m <= |d0| && IsHeap(d0, m)
    ensures HoleInv(d0, d0, m, 0, d0[|d0| - 1])
  {
    if m > 0 {
      UpdateMultiset(d0[..m], 0, d0[|d0| - 1]);
    }
  }

  lemma HoleDownOrder(data: seq<Item>, m: nat, cur: nat, x: Item, target: nat, b: seq<Item>)
    requires m <= |data| && HoleOrder(data, m, cur, x)
    requires 0 < target < m && Parent(target) == cur && !Less(data[target], x)
    requires Fits(data, m, cur, data[target])
    requires b == data[cur := data[target]]
    ensures HoleOrder(b, m, target, x)
  {
    forall k | 0 < k < m && k != target && Parent(k) != target ensures Edge(b, k) {
      if k != cur && Parent(k) != cur {
        assert Edge(data, k);
      }
    }
    forall k | 0 < k < m && Parent(k) == target ensures !Less(b[Parent(target)], b[k]) {
      assert k != cur;
      assert Edge(data, k);
    }
  }

  lemma HoleDownContents(d0: seq<Item>, data: seq<Item>, m: nat, cur: nat, x: Item, target: nat, b: seq<Item>)
    requires m <= |d0| == |data| && HoleContents(d0, data, m, cur, x)
    requires cur < m && target < m && cur != target && b == data[cur := data[target]]
    ensures HoleContents(d0, b, m, target, x)
  {
    var s := data[..m];
    MoveHole(s, cur, target, x);
    assert b[..m] == s[cur := s[target]];
  }

  /** The larger child, not smaller than x, moves into the hole. */
  lemma HoleDown(d0: seq<Item>, data: seq<Item>, m: nat, cur: nat, x: Item, target: nat)
    requires m <= |d0| && HoleInv(d0, data, m, cur, x)
    requires 0 < target < m && Parent(target) == cur && !Less(data[target], x)
    requires Fits(data, m, cur, data[target])
    ensures HoleInv(d0, data[cur := data[target]], m, target, x)
  {
    var b := data[cur := data[target]];
    HoleDownOrder(data, m, cur, x, target, b);
    HoleDownContents(d0, data, m, cur, x, target, b);
    assert b[m..] == data[m..];
  }

  lemma FilledIsHeap(d0: seq<Item>, data: seq<Item>, m: nat, cur: nat, x: Item, b: seq<Item>, m': nat)
    requires m <= |d0| && HoleInv(d0, data, m, cur, x)
    requires Fits(data, m, cur, x)
    requires b == data[cur := x][..|data| - 1] && m' <= m && m' <= |b|
    ensures IsHeap(b, m')
  {
    forall k | 0 < k < m' ensures Edge(b, k) {
      assert Parent(k) < k;
      if k != cur && Parent(k) != cur {
        assert Edge(data, k);
      }
    }
  }

  lemma FilledContents(d0: seq<Item>, data: seq<Item>, m: nat, cur: nat, x: Item, b: seq<Item>)
    requires 0 < m <= |d0| == |data| && HoleContents(d0, data, m, cur, x)
    requires cur < m && data[|data| - 1] == x && b == data[cur := x][..|data| - 1]
    ensures m < |d0| ==> multiset(b[..m]) == multiset(d0[..m]) - multiset{d0[0]} + multiset{x}
    ensures m == |d0| ==> multiset(b) == multiset(d0[..m]) - multiset{d0[0]}
  {
    var s := data[..m][cur := x];
    if m < |d0| {
      assert b[..m] == s;
    } else {
      assert s == b + [x];
      var rest := multiset(d0[..m]) - multiset{d0[0]};
      assert multiset(b) == multiset(s) - multiset{x} == rest + multiset{x} - multiset{x};
    }
  }

  lemma FilledRest(d0: seq<Item>, data: seq<Item>, m: nat, cur: nat, x: Item, b: seq<Item>)
    requires m < |d0| && HoleInv(d0, data, m, cur, x)
    requires b == data[cur := x][..|data| - 1]
    ensures 0 < m ==> b[m..] == d0[m..|d0| - 1]
    ensures m == 0 ==> b == if |d0| == 1 then [] else [x] + d0[1..|d0| - 1]
  {
    if 0 < m {
      assert forall k :: m <= k < |d0| ==> data[k] == data[m..][k - m] == d0[m..][k - m] == d0[k];
    } else {
      assert data == data[0..] == d0[0..] == d0;
    }
  }

  lemma Children(cur: nat, k: nat)
    requires 0 < k
    ensures Parent(k) == cur <==> k == 2 * cur + 1 || k == 2 * cur + 2
  {
  }

  lemma NoChildren(data: seq<Item>, m: nat, cur: nat, x: Item)
    requires m <= |data| && m <= 2 * cur + 1
    ensures Fits(data, m, cur, x)
  {
  }

  /** The child picked by the comparison is the larger one. */
  lemma LargerChild(data: seq<Item>, m: nat, cur: nat, target: nat)
    requires 2 * cur + 1 < m <= |data|
    requires target ==
             if 2 * cur + 2 < m && Less(data[2 * cur + 1], data[2 * cur + 2]) then 2 * cur + 2 else 2 * cur + 1
    ensures 0 < target < m && Parent(target) == cur
    ensures Fits(data, m, cur, data[target])
  {
    forall k | 0 < k < m && Parent(k) == cur ensures !Less(data[target], data[k]) {
      Children(cur, k);
    }
  }

  // ---------- merging the unsorted elements into the heap ----------

  /** The hole at cur stands for x on its way up among the slots 0 .. m. */
  ghost predicate RiseInv(data: seq<Item>, m: nat, cur: nat, x: Item, all: multiset<Item>)
    requires m < |data|
  {
    && cur <= m
    && (forall k {:trigger Edge(data, k)} :: 0 < k <= m && k != cur && Parent(k) != cur ==> Edge(data, k))
    && (forall k {:trigger Parent(k)} :: 0 < k <= m && Parent(k) == cur ==> !Less(x, data[k]))
    && (cur > 0 ==>
          forall k {:trigger Parent(k)} :: 0 < k <= m && Parent(k) == cur ==> !Less(data[Parent(cur)], data[k]))
    && multiset(data[cur := x]) == all
  }

  lemma RiseStart(data: seq<Item>, m: nat)
    requires 0 < m < |data| && IsHeap(data, m)
    ensures RiseInv(data, m, m, data[m], multiset(data))
  {
    assert data[m := data[m]] == data;
    forall k | 0 < k <= m && k != m && Parent(k) != m ensures Edge(data, k) {
    }
    forall k | 0 < k <= m ensures Parent(k) != m {
    }
  }

  /** A parent smaller than x moves down into the hole. */
  lemma RiseUp(data: seq<Item>, m: nat, cur: nat, x: Item, all: multiset<Item>)
    requires m < |data| && RiseInv(data, m, cur, x, all)
    requires 0 < cur && Less(data[Parent(cur)], x)
    ensures RiseInv(data[cur := data[Parent(cur)]], m, Parent(cur), x, all)
  {
    var p := Parent(cur);
    var b := data[cur := data[p]];
    MoveHole(data, cur, p, x);
    forall k | 0 < k <= m && k != p && Parent(k) != p ensures Edge(b, k) {
      if k != cur && Parent(k) != cur {
        assert Edge(data, k);
      }
    }
    forall k | 0 < k <= m && Parent(k) == p
      ensures !Less(x, b[k])
      ensures p > 0 ==> !Less(b[Parent(p)], b[k])
    {
      if k != cur {
        assert Edge(data, k);
      }
      if p > 0 {
        assert Edge(data, p);
      }
    }
  }

  lemma RiseDone(data: seq<Item>, m: nat, cur: nat, x: Item, all: multiset<Item>)
    requires m < |data| && RiseInv(data, m, cur, x, all)
    requires cur == 0 || !Less(data[Parent(cur)], x)
    ensures IsHeap(data[cur := x], m + 1) && multiset(data[cur := x]) == all
  {
    var b := data[cur := x];
    forall k | 0 < k < m + 1 ensures Edge(b, k) {
      if k != cur && Parent(k) != cur {
        assert Edge(data, k);
      }
    }
  }

  // ---------- one batch ----------

  /** How often operation i stands in the list linked by next. */
  ghost function Queued(popl: OpList, i: nat): nat {
    match popl
    case Nil => 0
    case Cons(j, next) => (if i == j then 1 else 0) + Queued(next, i)
  }

  /** Every operation read so far is in exactly one of the run and the two lists, once. */
  ghost predicate IndexInv(k: nat, run: Run, pend: seq<nat>, popl: OpList) {
    forall i: nat {:trigger Occurs(run, i)} ::
      Occurs(run, i) + Count(pend, |pend|, i) + Queued(popl, i) == if i < k then 1 else 0
  }

  /** The pending pushes are reported as done; their elements stand behind the heap. */
  ghost predicate PendingFits(ops: seq<Op>, results: seq<Outcome>, pend: seq<nat>, data: seq<Item>, mark: nat) {
    && |results| == |ops| && mark <= |data| && |pend| == |data| - mark
    && forall j {:trigger pend[j]} :: 0 <= j < |pend| ==>
         pend[j] < |ops| && ops[pend[j]] == Push(data[mark + j]) && results[pend[j]] == Pushed
  }

  ghost predicate PostponedFits(ops: seq<Op>, popl: OpList) {
    popl.Cons? ==> popl.op < |ops| && ops[popl.op] == Pop && PostponedFits(ops, popl.next)
  }

  /** k operations have been read. run holds those already given their place in a sequential
      run, which has led to the contents of the heap; pend the pushes whose elements still stand
      behind the heap; popl the postponed pops. */
  ghost predicate BatchInv(d0: seq<Item>, ops: seq<Op>, results: seq<Outcome>, k: nat, run: Run, pend: seq<nat>,
                           popl: OpList, data: seq<Item>, mark: nat)
  {
    && k <= |ops|
    && PendingFits(ops, results, pend, data, mark)
    && IsHeap(data, mark)
    && IndexInv(k, run, pend, popl)
    && PostponedFits(ops, popl)
    && Agrees(run, results)
    && Leads(d0, ops, run, data, mark)
  }

  lemma BatchStart(ops: seq<Op>, results: seq<Outcome>, data: seq<Item>)
    requires |results| == |ops| && IsHeap(data, |data|)
    ensures BatchInv(data, ops, results, 0, Start, [], Nil, data, |data|)
  {
  }

  lemma NotCounted(pend: seq<nat>, i: nat)
    requires Count(pend, |pend|, i) == 0
    ensures i !in pend
  {
    if i in pend {
      var j :| 0 <= j < |pend| && pend[j] == i;
      CountMember(pend, |pend|, j);
    }
  }

  lemma NextIndex(k: nat, run: Run, pend: seq<nat>, popl: OpList)
    requires IndexInv(k, run, pend, popl)
    ensures IndexInv(k + 1, run, pend + [k], popl)
    ensures IndexInv(k + 1, run, pend, Cons(k, popl))
    ensures Occurs(run, k) == 0 && k !in pend
  {
    assert Occurs(run, k) >= 0;
    NotCounted(pend, k);
    var longer := pend + [k];
    forall i: nat ensures Occurs(run, i) + Count(longer, |longer|, i) + Queued(popl, i) == if i < k + 1 then 1 else 0 {
      CountFrame(pend, longer, |pend|, i);
    }
  }

  lemma PrefixHeap(d0: seq<Item>, ops: seq<Op>, run: Run, data: seq<Item>, mark: nat, b: seq<Item>)
    requires mark <= |data| && mark <= |b| && IsHeap(data, mark) && Leads(d0, ops, run, data, mark)
    requires forall k :: 0 <= k < mark ==> b[k] == data[k]
    ensures IsHeap(b, mark) && Leads(d0, ops, run, b, mark)
  {
    forall x ensures Held(d0, ops, run, x) == Count(b, mark, x) {
      CountFrame(b, data, mark, x);
    }
    forall j | 0 < j < mark ensures Edge(b, j) {
      assert Edge(data, j);
    }
  }

  lemma BatchPush(d0: seq<Item>, ops: seq<Op>, results: seq<Outcome>, k: nat, run: Run, pend: seq<nat>, popl: OpList,
                  data: seq<Item>, mark: nat)
    requires BatchInv(d0, ops, results, k, run, pend, popl, data, mark)
    requires k < |ops| && ops[k].Push?
    ensures BatchInv(d0, ops, results[k := Pushed], k + 1, run, pend + [k], popl, data + [ops[k].item], mark)
  {
    NextIndex(k, run, pend, popl);
    AgreesFrame(run, results, k, Pushed);
    PrefixHeap(d0, ops, run, data, mark, data + [ops[k].item]);
  }

  lemma BatchPostpone(d0: seq<Item>, ops: seq<Op>, results: seq<Outcome>, k: nat, run: Run, pend: seq<nat>,
                      popl: OpList, data: seq<Item>, mark: nat)
    requires BatchInv(d0, ops, results, k, run, pend, popl, data, mark)
    requires k < |ops| && ops[k] == Pop
    ensures BatchInv(d0, ops, results, k + 1, run, pend, Cons(k, popl), data, mark)
  {
    NextIndex(k, run, pend, popl);
  }

  /** The next postponed pop is served: it has no place in the run yet. */
  lemma NextPop(k: nat, run: Run, pend: seq<nat>, popl: OpList, res: Outcome)
    requires IndexInv(k, run, pend, popl) && popl.Cons?
    ensures Occurs(run, popl.op) == 0 && popl.op !in pend
    ensures IndexInv(k, Then(run, popl.op, res), pend, popl.next)
  {
    var i := popl.op;
    assert Occurs(run, i) >= 0;
    NotCounted(pend, i);
    forall l: nat
      ensures Occurs(Then(run, i, res), l) + Count(pend, |pend|, l) + Queued(popl.next, l) == if l < k then 1 else 0
    {
      assert Occurs(run, l) >= 0;
    }
  }

  /** The run after a pending push p and the pop i served with it. */
  ghost function Served(run: Run, p: nat, i: nat, x: Item): Run {
    Then(Then(run, p, Pushed), i, Popped(x))
  }

  /** Bookkeeping of a pending push p and the pop at the head of the list, served together. */
  lemma ServedBookkeeping(ops: seq<Op>, results: seq<Outcome>, k: nat, run: Run, pend: seq<nat>, popl: OpList, p: nat,
                          pend': seq<nat>, x: Item)
    requires IndexInv(k, run, pend, popl) && popl.Cons?
    requires forall i: nat {:trigger Count(pend, |pend|, i)} ::
               Count(pend, |pend|, i) == Count(pend', |pend'|, i) + if i == p then 1 else 0
    requires PostponedFits(ops, popl) && Agrees(run, results) && |results| == |ops|
    requires p in pend && p < |ops| && results[p] == Pushed
    ensures popl.op < |ops| && ops[popl.op] == Pop && popl.op !in pend
    ensures IndexInv(k, Served(run, p, popl.op, x), pend', popl.next)
    ensures Agrees(Served(run, p, popl.op, x), results[popl.op := Popped(x)]) && PostponedFits(ops, popl.next)
  {
    NextPop(k, run, pend, popl, Popped(x));
    AgreesFrame(run, results, popl.op, Popped(x));
    forall l: nat
      ensures Occurs(Served(run, p, popl.op, x), l) + Count(pend', |pend'|, l) + Queued(popl.next, l)
              == if l < k then 1 else 0
    {
      assert Occurs(Then(run, popl.op, Popped(x)), l) >= 0;
    }
  }

  /** Dropping the last pending push, while the elements of the others stay where they are. */
  lemma PendingDropLast(ops: seq<Op>, results: seq<Outcome>, pend: seq<nat>, data: seq<Item>, mark: nat, i: nat,
                        res: Outcome, b: seq<Item>)
    requires PendingFits(ops, results, pend, data, mark) && mark < |data| && i < |ops| && i !in pend
    requires |b| == |data| - 1 && forall k :: mark <= k < |b| ==> b[k] == data[k]
    ensures PendingFits(ops, results[i := res], pend[..|pend| - 1], b, mark)
    ensures forall l: nat {:trigger Count(pend, |pend|, l)} ::
              Count(pend, |pend|, l)
              == Count(pend[..|pend| - 1], |pend| - 1, l) + if l == pend[|pend| - 1] then 1 else 0
    ensures pend[|pend| - 1] in pend && ops[pend[|pend| - 1]] == Push(data[|data| - 1])
  {
    forall l: nat
      ensures Count(pend, |pend|, l)
              == Count(pend[..|pend| - 1], |pend| - 1, l) + if l == pend[|pend| - 1] then 1 else 0
    {
      CountFrame(pend, pend[..|pend| - 1], |pend| - 1, l);
    }
    forall j | 0 <= j < |pend| - 1 ensures pend[j] != i {
      assert pend[j] in pend;
    }
  }

  /** The last element behind the heap goes to a pop when it is larger than the top. */
  lemma ServeLast(d0: seq<Item>, ops: seq<Op>, results: seq<Outcome>, k: nat, run: Run, pend: seq<nat>, popl: OpList,
                  data: seq<Item>, mark: nat)
    requires BatchInv(d0, ops, results, k, run, pend, popl, data, mark) && popl.Cons?
    requires mark < |data| && (mark == 0 || Less(data[0], data[|data| - 1]))
    ensures popl.op < |ops| && |pend| >= 1
    ensures BatchInv(d0, ops, results[popl.op := Popped(data[|data| - 1])], k,
                     Served(run, pend[|pend| - 1], popl.op, data[|data| - 1]), pend[..|pend| - 1], popl.next,
                     data[..|data| - 1], mark)
  {
    var i, p, x, b := popl.op, pend[|pend| - 1], data[|data| - 1], data[..|data| - 1];
    NextPop(k, run, pend, popl, Popped(x));
    PendingDropLast(ops, results, pend, data, mark, i, Popped(x), b);
    ServedBookkeeping(ops, results, k, run, pend, popl, p, pend[..|pend| - 1], x);
    LastLeads(d0, ops, run, data, mark, p, i);
    PrefixHeap(d0, ops, Served(run, p, i, x), data, mark, b);
  }

  /** A push and a pop right after it, taking a largest element x. */
  lemma PushThenPop(d0: seq<Item>, ops: seq<Op>, run: Run, data: seq<Item>, mark: nat, p: nat, y: Item, i: nat, x: Item)
    requires mark <= |data| && Leads(d0, ops, run, data, mark)
    requires p < |ops| && ops[p] == Push(y) && i < |ops| && ops[i] == Pop
    requires x == y || Count(data, mark, x) > 0
    requires y.prio <= x.prio && forall z :: Count(data, mark, z) > 0 ==> z.prio <= x.prio
    ensures LegalRun(d0, ops, Served(run, p, i, x))
    ensures forall z :: Held(d0, ops, Served(run, p, i, x), z) ==
              Count(data, mark, z) + (if z == y then 1 else 0) - (if z == x then 1 else 0)
  {
    var r := Then(run, p, Pushed);
    forall z ensures Held(d0, ops, r, z) == Count(data, mark, z) + if z == y then 1 else 0 {
      assert Held(d0, ops, run, z) == Count(data, mark, z);
    }
    assert Legal(d0, ops, r, Pop, Popped(x));
  }

  lemma LastLeads(d0: seq<Item>, ops: seq<Op>, run: Run, data: seq<Item>, mark: nat, p: nat, i: nat)
    requires mark < |data| && IsHeap(data, mark) && Leads(d0, ops, run, data, mark)
    requires mark == 0 || Less(data[0], data[|data| - 1])
    requires p < |ops| && ops[p] == Push(data[|data| - 1]) && i < |ops| && ops[i] == Pop
    ensures Leads(d0, ops, Served(run, p, i, data[|data| - 1]), data, mark)
  {
    var x := data[|data| - 1];
    HeapTop(data, mark);
    PushThenPop(d0, ops, run, data, mark, p, x, i, x);
  }

  /** In the first pass such a pop is served at once. */
  lemma BatchServe(d0: seq<Item>, ops: seq<Op>, results: seq<Outcome>, k: nat, run: Run, pend: seq<nat>, popl: OpList,
                   data: seq<Item>, mark: nat)
    requires BatchInv(d0, ops, results, k, run, pend, popl, data, mark)
    requires k < |ops| && ops[k] == Pop
    requires mark < |data| && (mark == 0 || Less(data[0], data[|data| - 1]))
    ensures |pend| >= 1
    ensures BatchInv(d0, ops, results[k := Popped(data[|data| - 1])], k + 1,
                     Served(run, pend[|pend| - 1], k, data[|data| - 1]), pend[..|pend| - 1], popl,
                     data[..|data| - 1], mark)
  {
    BatchPostpone(d0, ops, results, k, run, pend, popl, data, mark);
    ServeLast(d0, ops, results, k + 1, run, pend, Cons(k, popl), data, mark);
  }

  lemma ServeFail(d0: seq<Item>, ops: seq<Op>, results: seq<Outcome>, k: nat, run: Run, pend: seq<nat>, popl: OpList,
                  data: seq<Item>, mark: nat)
    requires BatchInv(d0, ops, results, k, run, pend, popl, data, mark) && popl.Cons? && data == []
    ensures popl.op < |ops|
    ensures BatchInv(d0, ops, results[popl.op := Failed], k, Then(run, popl.op, Failed), pend, popl.next, data, mark)
  {
    NextPop(k, run, pend, popl, Failed);
    AgreesFrame(run, results, popl.op, Failed);
    assert Legal(d0, ops, run, Pop, Failed);
    forall x ensures Held(d0, ops, Then(run, popl.op, Failed), x) == Count(data, mark, x) {
      assert Held(d0, ops, run, x) == Count(data, mark, x);
    }
  }

  /** What taking out the top does to the contents of the heap. */
  lemma ReheapCounts(data: seq<Item>, mark: nat, b: seq<Item>, mark': nat, x: Item)
    requires 0 < mark <= |data| && ReheapPost(data, mark, b, mark') && Count(data, mark, data[0]) > 0
    ensures Count(b, mark', x) == Count(data, mark, x) - (if x == data[0] then 1 else 0)
                                  + (if mark < |data| && x == data[|data| - 1] then 1 else 0)
  {
    CountIsMultiset(data, mark, x);
    CountIsMultiset(b, mark', x);
    if mark == |data| {
      assert data[..mark] == data && b[..mark'] == b;
    }
  }

  lemma TopLeads(d0: seq<Item>, ops: seq<Op>, run: Run, data: seq<Item>, mark: nat, p: nat, i: nat, b: seq<Item>,
                 mark': nat)
    requires 0 < mark < |data| && IsHeap(data, mark) && Leads(d0, ops, run, data, mark)
    requires !Less(data[0], data[|data| - 1]) && ReheapPost(data, mark, b, mark')
    requires p < |ops| && ops[p] == Push(data[|data| - 1]) && i < |ops| && ops[i] == Pop
    ensures Leads(d0, ops, Served(run, p, i, data[0]), b, mark')
  {
    HeapTop(data, mark);
    PushThenPop(d0, ops, run, data, mark, p, data[|data| - 1], i, data[0]);
    forall x ensures Held(d0, ops, Served(run, p, i, data[0]), x) == Count(b, mark', x) {
      ReheapCounts(data, mark, b, mark', x);
    }
  }

  lemma TopOnlyLeads(d0: seq<Item>, ops: seq<Op>, run: Run, data: seq<Item>, i: nat, b: seq<Item>, mark': nat)
    requires 0 < |data| && IsHeap(data, |data|) && Leads(d0, ops, run, data, |data|)
    requires ReheapPost(data, |data|, b, mark') && i < |ops| && ops[i] == Pop
    ensures Leads(d0, ops, Then(run, i, Popped(data[0])), b, mark')
  {
    HeapTop(data, |data|);
    forall y ensures Held(d0, ops, run, y) == Count(data, |data|, y) {
    }
    assert Legal(d0, ops, run, Pop, Popped(data[0]));
    forall x ensures Held(d0, ops, Then(run, i, Popped(data[0])), x) == Count(b, mark', x) {
      assert Held(d0, ops, run, x) == Count(data, |data|, x);
      ReheapCounts(data, |data|, b, mark', x);
    }
  }

  /** The top goes to a pop; the last element behind the heap joins the heap. */
  lemma ServeTop(d0: seq<Item>, ops: seq<Op>, results: seq<Outcome>, k: nat, run: Run, pend: seq<nat>, popl: OpList,
                 data: seq<Item>, mark: nat, b: seq<Item>, mark': nat)
    requires BatchInv(d0, ops, results, k, run, pend, popl, data, mark) && popl.Cons?
    requires 0 < mark < |data| && !Less(data[0], data[|data| - 1]) && ReheapPost(data, mark, b, mark')
    ensures popl.op < |ops| && |pend| >= 1
    ensures BatchInv(d0, ops, results[popl.op := Popped(data[0])], k,
                     Served(run, pend[|pend| - 1], popl.op, data[0]), pend[..|pend| - 1], popl.next, b, mark')
  {
    var i, p, x := popl.op, pend[|pend| - 1], data[0];
    forall j | mark <= j < |b| ensures b[j] == data[j] {
      assert b[mark..][j - mark] == data[mark..|data| - 1][j - mark];
    }
    NextPop(k, run, pend, popl, Popped(x));
    PendingDropLast(ops, results, pend, data, mark, i, Popped(x), b);
    ServedBookkeeping(ops, results, k, run, pend, popl, p, pend[..|pend| - 1], x);
    TopLeads(d0, ops, run, data, mark, p, i, b, mark');
  }

  lemma ServeTopOnly(d0: seq<Item>, ops: seq<Op>, results: seq<Outcome>, k: nat, run: Run, pend: seq<nat>,
                     popl: OpList, data: seq<Item>, mark: nat, b: seq<Item>, mark': nat)
    requires BatchInv(d0, ops, results, k, run, pend, popl, data, mark) && popl.Cons?
    requires 0 < mark == |data| && ReheapPost(data, mark, b, mark')
    ensures popl.op < |ops|
    ensures BatchInv(d0, ops, results[popl.op := Popped(data[0])], k, Then(run, popl.op, Popped(data[0])), pend,
                     popl.next, b, mark')
  {
    NextPop(k, run, pend, popl, Popped(data[0]));
    AgreesFrame(run, results, popl.op, Popped(data[0]));
    TopOnlyLeads(d0, ops, run, data, popl.op, b, mark');
  }

  lemma {:induction false} CountPrepend(s: seq<nat>, n: nat, i: nat)
    requires 1 <= n <= |s|
    ensures Count(s, n, i) == (if s[0] == i then 1 else 0) + Count(s[1..n], n - 1, i)
  {
    if n > 1 {
      CountPrepend(s, n - 1, i);
      CountFrame(s[1..n], s[1..n - 1], n - 2, i);
    }
  }

  lemma MovedCounts(pend: seq<nat>, pend': seq<nat>, i: nat)
    requires pend != [] && pend' == if |pend| == 1 then [] else [pend[|pend| - 1]] + pend[1..|pend| - 1]
    ensures Count(pend, |pend|, i) == Count(pend', |pend'|, i) + if i == pend[0] then 1 else 0
  {
    if |pend| > 1 {
      CountPrepend(pend, |pend| - 1, i);
      CountPrepend(pend', |pend'|, i);
      assert pend'[1..|pend'|] == pend[1..|pend| - 1];
    }
  }

  lemma PendingMoved(ops: seq<Op>, results: seq<Outcome>, pend: seq<nat>, data: seq<Item>, i: nat, res: Outcome,
                     b: seq<Item>, pend': seq<nat>)
    requires PendingFits(ops, results, pend, data, 0) && 0 < |data| && i < |ops| && i !in pend
    requires b == if |data| == 1 then [] else [data[|data| - 1]] + data[1..|data| - 1]
    requires pend' == if |pend| == 1 then [] else [pend[|pend| - 1]] + pend[1..|pend| - 1]
    ensures PendingFits(ops, results[i := res], pend', b, 0)
  {
    forall j | 0 <= j < |pend'|
      ensures pend'[j] < |ops| && ops[pend'[j]] == Push(b[j]) && results[i := res][pend'[j]] == Pushed
    {
      var l := if j == 0 then |pend| - 1 else j;
      assert pend'[j] == pend[l] && b[j] == data[l] && pend[l] in pend;
    }
  }

  /** Without a heap the first unsorted element goes to a pop; the last one takes its slot. */
  lemma ServeFirst(d0: seq<Item>, ops: seq<Op>, results: seq<Outcome>, k: nat, run: Run, pend: seq<nat>, popl: OpList,
                   data: seq<Item>, b: seq<Item>, pend': seq<nat>)
    requires BatchInv(d0, ops, results, k, run, pend, popl, data, 0) && popl.Cons?
    requires 0 < |data| && ReheapPost(data, 0, b, 0)
    requires pend' == if |pend| == 1 then [] else [pend[|pend| - 1]] + pend[1..|pend| - 1]
    ensures popl.op < |ops|
    ensures BatchInv(d0, ops, results[popl.op := Popped(data[0])], k, Served(run, pend[0], popl.op, data[0]), pend',
                     popl.next, b, 0)
  {
    var i, p, x := popl.op, pend[0], data[0];
    forall l: nat ensures Count(pend, |pend|, l) == Count(pend', |pend'|, l) + if l == p then 1 else 0 {
      MovedCounts(pend, pend', l);
    }
    ServedBookkeeping(ops, results, k, run, pend, popl, p, pend', x);
    PushThenPop(d0, ops, run, data, 0, p, x, i, x);
    PendingMoved(ops, results, pend, data, i, Popped(x), b, pend');
  }

  /** The three ways in which taking out the top serves a pop. */
  lemma ServeReheaped(d0: seq<Item>, ops: seq<Op>, results: seq<Outcome>, run0: Run, pend0: seq<nat>, popl: OpList,
                      data: seq<Item>, mark: nat, b: seq<Item>, mark': nat)
    returns (run: Run, pend: seq<nat>)
    requires BatchInv(d0, ops, results, |ops|, run0, pend0, popl, data, mark) && popl.Cons?
    requires 0 < |data| && (mark < |data| ==> !Less(data[0], data[|data| - 1])) && ReheapPost(data, mark, b, mark')
    ensures popl.op < |ops|
    ensures BatchInv(d0, ops, results[popl.op := Popped(data[0])], |ops|, run, pend, popl.next, b, mark')
  {
    if mark == 0 {
      run := Served(run0, pend0[0], popl.op, data[0]);
      pend := if |pend0| == 1 then [] else [pend0[|pend0| - 1]] + pend0[1..|pend0| - 1];
      ServeFirst(d0, ops, results, |ops|, run0, pend0, popl, data, b, pend);
    } else if mark < |data| {
      ServeTop(d0, ops, results, |ops|, run0, pend0, popl, data, mark, b, mark');
      run, pend := Served(run0, pend0[|pend0| - 1], popl.op, data[0]), pend0[..|pend0| - 1];
    } else {
      ServeTopOnly(d0, ops, results, |ops|, run0, pend0, popl, data, mark, b, mark');
      run, pend := Then(run0, popl.op, Popped(data[0])), pend0;
    }
  }

  // ---------- the end of the batch ----------

  /** The run extended by the first n pushes listed. */
  ghost function PushAll(run: Run, pend: seq<nat>, n: nat): Run
    requires n <= |pend|
  {
    if n == 0 then run else Then(PushAll(run, pend, n - 1), pend[n - 1], Pushed)
  }

  lemma {:induction false} PushAllOccurs(run: Run, pend: seq<nat>, n: nat, i: nat)
    requires n <= |pend|
    ensures Occurs(PushAll(run, pend, n), i) == Occurs(run, i) + Count(pend, n, i)
  {
    if n > 0 {
      PushAllOccurs(run, pend, n - 1, i);
    }
  }

  lemma {:induction false} PushAllAgrees(run: Run, pend: seq<nat>, results: seq<Outcome>, n: nat)
    requires n <= |pend| && Agrees(run, results)
    requires forall j :: 0 <= j < |pend| ==> pend[j] < |results| && results[pend[j]] == Pushed
    ensures Agrees(PushAll(run, pend, n), results)
  {
    if n > 0 {
      PushAllAgrees(run, pend, results, n - 1);
    }
  }

  /** The pushes still pending take their places at the end of the run. */
  lemma {:induction false} PushAllLeads(d0: seq<Item>, ops: seq<Op>, results: seq<Outcome>, run: Run, pend: seq<nat>,
                                        data: seq<Item>, mark: nat, n: nat)
    requires PendingFits(ops, results, pend, data, mark) && n <= |pend|
    requires Leads(d0, ops, run, data, mark)
    ensures Leads(d0, ops, PushAll(run, pend, n), data, mark + n)
  {
    if n > 0 {
      PushAllLeads(d0, ops, results, run, pend, data, mark, n - 1);
      var before, after := PushAll(run, pend, n - 1), PushAll(run, pend, n);
      assert ops[pend[n - 1]] == Push(data[mark + n - 1]);
      forall x ensures Held(d0, ops, after, x) == Count(data, mark + n, x) {
        assert Held(d0, ops, before, x) == Count(data, mark + n - 1, x);
      }
    }
  }

  /** run is a sequential run of the whole batch: every operation once, each with its result. */
  ghost predicate Linearizes(d0: seq<Item>, ops: seq<Op>, results: seq<Outcome>, run: Run, d1: seq<Item>) {
    && |results| == |ops|
    && (forall i: nat :: Occurs(run, i) == if i < |ops| then 1 else 0)
    && Leads(d0, ops, run, d1, |d1|) && Agrees(run, results)
  }

  lemma BatchDone(d0: seq<Item>, ops: seq<Op>, results: seq<Outcome>, run: Run, pend: seq<nat>, data: seq<Item>,
                  mark: nat)
    requires BatchInv(d0, ops, results, |ops|, run, pend, Nil, data, mark)
    ensures Linearizes(d0, ops, results, PushAll(run, pend, |pend|), data)
  {
    PushAllLeads(d0, ops, results, run, pend, data, mark, |pend|);
    PushAllAgrees(run, pend, results, |pend|);
    forall i: nat ensures Occurs(PushAll(run, pend, |pend|), i) == if i < |ops| then 1 else 0 {
      PushAllOccurs(run, pend, |pend|, i);
      assert Occurs(run, i) >= 0;
    }
  }

  // ---------- how many pops succeed ----------

  ghost function PushCount(ops: seq<Op>, n: nat): nat
    requires n <= |ops|
  {
    if n == 0 then 0 else PushCount(ops, n - 1) + if ops[n - 1].Push? then 1 else 0
  }

  ghost function PopCount(ops: seq<Op>, n: nat): nat
    requires n <= |ops|
  {
    if n == 0 then 0 else PopCount(ops, n - 1) + if ops[n - 1].Pop? then 1 else 0
  }

  ghost function PoppedCount(results: seq<Outcome>, n: nat): nat
    requires n <= |results|
  {
    if n == 0 then 0 else PoppedCount(results, n - 1) + if results[n - 1].Popped? then 1 else 0
  }

  lemma {:induction false} PoppedCountSet(results: seq<Outcome>, i: nat, res: Outcome, n: nat)
    requires i < |results| && n <= |results| && !results[i].Popped?
    ensures PoppedCount(results[i := res], n) == PoppedCount(results, n) + if i < n && res.Popped? then 1 else 0
    decreases n
  {
    if n > 0 {
      PoppedCountSet(results, i, res, n - 1);
    }
  }

  ghost predicate NoneFailed(results: seq<Outcome>) {
    forall i :: 0 <= i < |results| ==> results[i] != Failed
  }

  /** After k operations have been read there are size elements: those at the start and those pushed,
      without those popped. Operations not read and postponed pops are waiting, and no pop has failed
      before all were read and the vector was empty. */
  ghost predicate Tally(start: nat, ops: seq<Op>, results: seq<Outcome>, k: nat, popl: OpList, size: nat) {
    && |results| == |ops| && k <= |ops|
    && (forall i: nat {:trigger Queued(popl, i)} ::
          i < |ops| && (i >= k || Queued(popl, i) > 0) ==> results[i] == Waiting)
    && size + PoppedCount(results, |results|) == start + PushCount(ops, k)
    && (k < |ops| || size > 0 ==> NoneFailed(results))
  }

  lemma {:induction false} NonePopped(n: nat, m: nat)
    requires m <= n
    ensures PoppedCount(seq(n, _ => Waiting), m) == 0
    decreases m
  {
    if m > 0 {
      NonePopped(n, m - 1);
    }
  }

  /** The results of a batch not yet begun. */
  lemma TallyStart(start: nat, ops: seq<Op>)
    ensures Tally(start, ops, seq(|ops|, _ => Waiting), 0, Nil, start)
  {
    NonePopped(|ops|, |ops|);
  }

  lemma TallyPush(start: nat, ops: seq<Op>, results: seq<Outcome>, k: nat, popl: OpList, size: nat)
    requires Tally(start, ops, results, k, popl, size) && k < |ops| && ops[k].Push? && Queued(popl, k) == 0
    ensures Tally(start, ops, results[k := Pushed], k + 1, popl, size + 1)
  {
    assert Queued(popl, k) >= 0;
    PoppedCountSet(results, k, Pushed, |results|);
  }

  lemma TallyPostpone(start: nat, ops: seq<Op>, results: seq<Outcome>, k: nat, popl: OpList, size: nat)
    requires Tally(start, ops, results, k, popl, size) && k < |ops| && ops[k].Pop?
    ensures Tally(start, ops, results, k + 1, Cons(k, popl), size)
  {
    forall i: nat | i < |ops| && (i >= k + 1 || Queued(Cons(k, popl), i) > 0) ensures results[i] == Waiting {
      assert Queued(popl, i) >= 0;
    }
  }

  /** The pop at the head of the list gets its result. */
  lemma TallyServe(start: nat, ops: seq<Op>, results: seq<Outcome>, k: nat, popl: OpList, size: nat, res: Outcome)
    requires Tally(start, ops, results, k, popl, size) && popl.Cons? && popl.op < k && Queued(popl.next, popl.op) == 0
    requires if res.Popped? then size > 0 else res == Failed && size == 0 && k == |ops|
    ensures Tally(start, ops, results[popl.op := res], k, popl.next, if res.Popped? then size - 1 else 0)
  {
    assert Queued(popl, popl.op) == 1;
    assert results[popl.op] == Waiting;
    PoppedCountSet(results, popl.op, res, |results|);
    forall i: nat | i < |ops| && (i >= k || Queued(popl.next, i) > 0) ensures results[popl.op := res][i] == Waiting {
      assert Queued(popl, i) >= Queued(popl.next, i);
    }
  }

  /** An operation waits in one list only. */
  lemma QueuedOnce(k: nat, run: Run, pend: seq<nat>, popl: OpList)
    requires IndexInv(k, run, pend, popl)
    ensures Queued(popl, k) == 0
    ensures popl.Cons? ==> popl.op < k && Queued(popl.next, popl.op) == 0
  {
    assert Occurs(run, k) >= 0;
    if popl.Cons? {
      assert Occurs(run, popl.op) >= 0;
    }
  }

  /** The outcome of an operation of the run is one of its kind. */
  lemma {:induction false} OutcomeKind(d0: seq<Item>, ops: seq<Op>, results: seq<Outcome>, run: Run, i: nat)
    requires LegalRun(d0, ops, run) && Agrees(run, results) && Occurs(run, i) > 0
    ensures i < |ops| && i < |results|
    ensures if ops[i].Push? then results[i] == Pushed else results[i].Popped? || results[i] == Failed
  {
    if run.op != i {
      OutcomeKind(d0, ops, results, run.earlier, i);
    }
  }

  lemma {:induction false} KindCounts(ops: seq<Op>, results: seq<Outcome>, n: nat)
    requires n <= |ops| == |results|
    requires forall i :: 0 <= i < |ops| ==>
               if ops[i].Push? then results[i] == Pushed else results[i].Popped? || results[i] == Failed
    ensures PoppedCount(results, n) <= PopCount(ops, n)
    ensures NoneFailed(results) ==> PoppedCount(results, n) == PopCount(ops, n)
    decreases n
  {
    if n > 0 {
      KindCounts(ops, results, n - 1);
    }
  }

  function Min(a: nat, b: nat): nat {
    if a < b then a else b
  }

  /** As many pops succeed as there are elements for, those pushed by the batch included; one fails
      only when the batch leaves nothing behind. */
  ghost predicate ServesAll(start: nat, ops: seq<Op>, results: seq<Outcome>, data: seq<Item>) {
    && |results| == |ops|
    && PoppedCount(results, |results|) == Min(PopCount(ops, |ops|), start + PushCount(ops, |ops|))
    && |data| + PoppedCount(results, |results|) == start + PushCount(ops, |ops|)
    && (data == [] || NoneFailed(results))
  }

  lemma TallyDone(d0: seq<Item>, ops: seq<Op>, results: seq<Outcome>, run: Run, d1: seq<Item>)
    requires Linearizes(d0, ops, results, run, d1) && Tally(|d0|, ops, results, |ops|, Nil, |d1|)
    ensures ServesAll(|d0|, ops, results, d1)
  {
    forall i | 0 <= i < |ops|
      ensures if ops[i].Push? then results[i] == Pushed else results[i].Popped? || results[i] == Failed
    {
      assert Occurs(run, i) == 1;
      OutcomeKind(d0, ops, results, run, i);
    }
    KindCounts(ops, results, |ops|);
  }

  /** Rearranging the contents does not matter. */
  lemma LinearizesRearranged(d0: seq<Item>, ops: seq<Op>, results: seq<Outcome>, run: Run, d1: seq<Item>, d2: seq<Item>)
    requires Linearizes(d0, ops, results, run, d1) && multiset(d1) == multiset(d2)
    ensures Linearizes(d0, ops, results, run, d2)
  {
    forall x ensures Held(d0, ops, run, x) == Count(d2, |d2|, x) {
      CountIsMultiset(d1, |d1|, x);
      CountIsMultiset(d2, |d2|, x);
      assert d1[..|d1|] == d1 && d2[..|d2|] == d2;
    }
  }

  class ConcurrentPriorityQueue {
    var data: seq<Item>
    var mark: nat
    var mySize: nat

    /** Between batches the whole vector is a heap. */
    ghost predicate Valid()
      reads this
    {
      mark == |data| == mySize && IsHeap(data, mark)
    }

    constructor ()
      ensures Valid() && data == []
    {
      data, mark, mySize := [], 0, 0;
    }

    /** The loop of Reheap: moves the hole down to where the last element fits. */
    method FindHole(ghost d0: seq<Item>) returns (curPos: nat)
      requires 1 <= |data| && mark <= |data| && IsHeap(data, mark) && d0 == data
      modifies this`data
      ensures HoleInv(d0, data, mark, curPos, d0[|d0| - 1])
      ensures Fits(data, mark, curPos, d0[|d0| - 1])
    {
      ghost var m, last := mark, data[|data| - 1];
      HoleStart(d0, mark);
      curPos := 0;
      var child := 1;
      while child < mark
        invariant child == 2 * curPos + 1
        invariant mark == m && HoleInv(d0, data, m, curPos, last)
        decreases mark - child
      {
        ghost var d := data;
        var target := if child + 1 < mark && Less(data[child], data[child + 1]) then child + 1 else child;
        LargerChild(d, m, curPos, target);
        if Less(data[target], data[|data| - 1]) {
          assert Fits(d, m, curPos, last);
          return;
        }
        HoleDown(d0, d, m, curPos, last, target);
        data := data[curPos := data[target]];
        curPos := target;
        child := 2 * curPos + 1;
      }
      NoChildren(data, m, curPos, last);
    }

    /** The end of Reheap: the last element goes into the hole and its old slot is dropped. */
    method PlaceLast(curPos: nat, ghost d0: seq<Item>)
      requires 1 <= |d0| && mark <= |d0| && HoleInv(d0, data, mark, curPos, d0[|d0| - 1])
      requires Fits(data, mark, curPos, d0[|d0| - 1])
      modifies this`data, this`mark
      ensures ReheapPost(d0, old(mark), data, mark)
    {
      ghost var d, m := data, mark;
      if curPos != |data| - 1 {
        data := data[curPos := data[|data| - 1]];
      }
      ghost var e := data;
      data := data[..|data| - 1];
      if mark > |data| {
        mark := |data|;
      }
      ReheapDone(d0, d, m, curPos, e, data, mark);
    }

    /** Takes the top out by pushing the last element down from the root. */
    method Reheap()
      requires 1 <= |data| && mark <= |data| && IsHeap(data, mark)
      modifies this`data, this`mark
      ensures ReheapPost(old(data), old(mark), data, mark)
    {
      ghost var d0 := data;
      var curPos := FindHole(d0);
      PlaceLast(curPos, d0);
    }

    /** Merges the elements behind mark into the heap, one after the other. */
    method Heapify()
      requires mark <= |data| && IsHeap(data, mark)
      modifies this`data, this`mark
      ensures mark == |data| == |old(data)| && IsHeap(data, mark)
      ensures multiset(data) == multiset(old(data))
    {
      if mark == 0 && |data| > 0 {
        mark := 1;
      }
      while mark < |data|
        invariant mark <= |data| == |old(data)| && (|data| > 0 ==> 0 < mark) && IsHeap(data, mark)
        invariant multiset(data) == multiset(old(data))
        decreases |data| - mark
      {
        ghost var all := multiset(data);
        var curPos: nat := mark;
        var toPlace := data[mark];
        RiseStart(data, mark);
        ghost var m := mark;
        while curPos != 0 && Less(data[(curPos - 1) / 2], toPlace)
          invariant mark == m < |data| == |old(data)| && RiseInv(data, mark, curPos, toPlace, all)
          decreases curPos
        {
          RiseUp(data, mark, curPos, toPlace, all);
          var parent := (curPos - 1) / 2;
          data := data[curPos := data[parent]];
          curPos := parent;
        }
        RiseDone(data, mark, curPos, toPlace, all);
        data := data[curPos := toPlace];
        mark := mark + 1;
      }
    }

    /** Handles one batch: pushes and easy pops first, postponed pops next, the heap last. The
        results are those of some sequential order of the operations, in which every pop takes a
        largest element and fails only when the queue is empty. */
    method HandleOperations(ops: seq<Op>) returns (results: seq<Outcome>, ghost run: Run)
      requires Valid()
      modifies this
      ensures Valid()
      ensures Linearizes(old(data), ops, results, run, data)
      ensures ServesAll(|old(data)|, ops, results, data)
    {
      ghost var d0, pend := data, [];
      var popList;
      results := seq(|ops|, _ => Waiting);
      BatchStart(ops, results, data);
      TallyStart(|data|, ops);
      results, popList, run, pend := ServeAtOnce(ops, results, d0);
      results, run, pend := ServePostponed(ops, results, popList, d0, run, pend);
      BatchDone(d0, ops, results, run, pend, data, mark);
      run := PushAll(run, pend, |pend|);
      ghost var unsorted := data;
      if mark < |data| {
        Heapify();
      }
      LinearizesRearranged(d0, ops, results, run, unsorted, data);
      TallyDone(d0, ops, results, run, data);
    }

    /** The first pass: pushes go to the back, a pop takes the last element if that one is larger
        than the top, all other pops are postponed. */
    method ServeAtOnce(ops: seq<Op>, results0: seq<Outcome>, ghost d0: seq<Item>)
      returns (results: seq<Outcome>, popList: OpList, ghost run: Run, ghost pend: seq<nat>)
      requires mySize == |data| && BatchInv(d0, ops, results0, 0, Start, [], Nil, data, mark)
      requires Tally(|d0|, ops, results0, 0, Nil, |data|)
      modifies this
      ensures mySize == |data| && BatchInv(d0, ops, results, |ops|, run, pend, popList, data, mark)
      ensures Tally(|d0|, ops, results, |ops|, popList, |data|)
    {
      results, popList, run, pend := results0, Nil, Start, [];
      var k := 0;
      while k < |ops|
        invariant mySize == |data| && BatchInv(d0, ops, results, k, run, pend, popList, data, mark)
        invariant Tally(|d0|, ops, results, k, popList, |data|)
      {
        if ops[k].Pop? {
          results, popList, run, pend := PopOrPostpone(ops, k, results, popList, d0, run, pend);
        } else {
          results, pend := PushBack(ops, k, results, popList, d0, run, pend);
        }
        k := k + 1;
      }
    }

    method PushBack(ops: seq<Op>, k: nat, results0: seq<Outcome>, ghost popList: OpList, ghost d0: seq<Item>,
                    ghost run: Run, ghost pend0: seq<nat>)
      returns (results: seq<Outcome>, ghost pend: seq<nat>)
      requires mySize == |data| && BatchInv(d0, ops, results0, k, run, pend0, popList, data, mark)
      requires Tally(|d0|, ops, results0, k, popList, |data|)
      requires k < |ops| && ops[k].Push?
      modifies this
      ensures mySize == |data| && BatchInv(d0, ops, results, k + 1, run, pend, popList, data, mark)
      ensures Tally(|d0|, ops, results, k + 1, popList, |data|)
      ensures results == results0[k := Pushed] && data == old(data) + [ops[k].item] && mark == old(mark)
    {
      QueuedOnce(k, run, pend0, popList);
      TallyPush(|d0|, ops, results0, k, popList, |data|);
      BatchPush(d0, ops, results0, k, run, pend0, popList, data, mark);
      results, pend := results0[k := Pushed], pend0 + [k];
      data := data + [ops[k].item];
      mySize := mySize + 1;
    }

    /** A pop takes the last element if that one is larger than the top, or is put on the list. */
    method PopOrPostpone(ops: seq<Op>, k: nat, results0: seq<Outcome>, popList0: OpList, ghost d0: seq<Item>,
                         ghost run0: Run, ghost pend0: seq<nat>)
      returns (results: seq<Outcome>, popList: OpList, ghost run: Run, ghost pend: seq<nat>)
      requires mySize == |data| && BatchInv(d0, ops, results0, k, run0, pend0, popList0, data, mark)
      requires Tally(|d0|, ops, results0, k, popList0, |data|)
      requires k < |ops| && ops[k] == Pop
      modifies this
      ensures mySize == |data| && BatchInv(d0, ops, results, k + 1, run, pend, popList, data, mark)
      ensures Tally(|d0|, ops, results, k + 1, popList, |data|)
      ensures mark == old(mark)
      ensures if old(mark < |data| && Less(data[0], data[|data| - 1])) then
                && results == results0[k := Popped(old(data)[|old(data)| - 1])]
                && data == old(data)[..|old(data)| - 1] && popList == popList0
              else
                results == results0 && data == old(data) && popList == Cons(k, popList0)
    {
      results, popList, run, pend := results0, popList0, run0, pend0;
      QueuedOnce(k, run, pend, popList);
      TallyPostpone(|d0|, ops, results, k, popList, |data|);
      if mark < |data| && Less(data[0], data[|data| - 1]) {
        BatchServe(d0, ops, results, k, run, pend, popList, data, mark);
        TallyServe(|d0|, ops, results, k + 1, Cons(k, popList), |data|, Popped(data[|data| - 1]));
        results := results[k := Popped(data[|data| - 1])];
        run, pend := Served(run, pend[|pend| - 1], k, data[|data| - 1]), pend[..|pend| - 1];
        mySize := mySize - 1;
        data := data[..|data| - 1];
      } else {
        BatchPostpone(d0, ops, results, k, run, pend, popList, data, mark);
        popList := Cons(k, popList);
      }
    }

    /** The second pass over the postponed pops, latest first. */
    method ServePostponed(ops: seq<Op>, results0: seq<Outcome>, popList0: OpList, ghost d0: seq<Item>,
                          ghost run0: Run, ghost pend0: seq<nat>)
      returns (results: seq<Outcome>, ghost run: Run, ghost pend: seq<nat>)
      requires mySize == |data| && BatchInv(d0, ops, results0, |ops|, run0, pend0, popList0, data, mark)
      requires Tally(|d0|, ops, results0, |ops|, popList0, |data|)
      modifies this
      ensures mySize == |data| && BatchInv(d0, ops, results, |ops|, run, pend, Nil, data, mark)
      ensures Tally(|d0|, ops, results, |ops|, Nil, |data|)
    {
      results, run, pend := results0, run0, pend0;
      var popList := popList0;
      while popList.Cons?
        invariant mySize == |data| && BatchInv(d0, ops, results, |ops|, run, pend, popList, data, mark)
        invariant Tally(|d0|, ops, results, |ops|, popList, |data|)
        decreases popList
      {
        if data == [] {
          QueuedOnce(|ops|, run, pend, popList);
          TallyServe(|d0|, ops, results, |ops|, popList, 0, Failed);
          ServeFail(d0, ops, results, |ops|, run, pend, popList, data, mark);
          results, run := results[popList.op := Failed], Then(run, popList.op, Failed);
        } else {
          results, run, pend := ServePop(ops, results, popList, d0, run, pend);
        }
        popList := popList.next;
      }
    }

    /** A postponed pop on a nonempty vector takes the last element if that one is unsorted and larger
        than the top, and otherwise the top. */
    method ServePop(ops: seq<Op>, results0: seq<Outcome>, popList: OpList, ghost d0: seq<Item>, ghost run0: Run,
                    ghost pend0: seq<nat>)
      returns (results: seq<Outcome>, ghost run: Run, ghost pend: seq<nat>)
      requires mySize == |data| && BatchInv(d0, ops, results0, |ops|, run0, pend0, popList, data, mark)
      requires Tally(|d0|, ops, results0, |ops|, popList, |data|)
      requires popList.Cons? && data != []
      modifies this
      ensures mySize == |data| && BatchInv(d0, ops, results, |ops|, run, pend, popList.next, data, mark)
      ensures Tally(|d0|, ops, results, |ops|, popList.next, |data|)
      ensures popList.op < |results0| && old(mark) <= |old(data)|
      ensures if old(mark < |data| && Less(data[0], data[|data| - 1])) then
                && results == results0[popList.op := Popped(old(data)[|old(data)| - 1])]
                && data == old(data)[..|old(data)| - 1] && mark == old(mark)
              else
                && results == results0[popList.op := Popped(old(data)[0])]
                && ReheapPost(old(data), old(mark), data, mark)
    {
      QueuedOnce(|ops|, run0, pend0, popList);
      if mark < |data| && Less(data[0], data[|data| - 1]) {
        TallyServe(|d0|, ops, results0, |ops|, popList, |data|, Popped(data[|data| - 1]));
        ServeLast(d0, ops, results0, |ops|, run0, pend0, popList, data, mark);
        results := results0[popList.op := Popped(data[|data| - 1])];
        run, pend := Served(run0, pend0[|pend0| - 1], popList.op, data[|data| - 1]), pend0[..|pend0| - 1];
        mySize := mySize - 1;
        data := data[..|data| - 1];
      } else {
        ghost var before, m0 := data, mark;
        TallyServe(|d0|, ops, results0, |ops|, popList, |data|, Popped(data[0]));
        results := results0[popList.op := Popped(data[0])];
        mySize := mySize - 1;
        Reheap();
        run, pend := ServeReheaped(d0, ops, results0, run0, pend0, popList, before, m0, data, mark);
      }
    }
  }

  /** What taking out the top does: the heap loses its first element and, if there are elements
      behind it, gains the last of them; without a heap the first slot gets the last element. */
  ghost predicate ReheapPost(d0: seq<Item>, m: nat, data: seq<Item>, mark: nat)
    requires 1 <= |d0| && m <= |d0|
  {
    && |data| == |d0| - 1 && mark == (if m < |d0| then m else |d0| - 1)
    && IsHeap(data, mark)
    && (0 < m < |d0| ==> multiset(data[..m]) == multiset(d0[..m]) - multiset{d0[0]} + multiset{d0[|d0| - 1]})
    && (0 < m < |d0| ==> data[m..] == d0[m..|d0| - 1])
    && (m == |d0| ==> multiset(data) == multiset(d0) - multiset{d0[0]})
    && (m == 0 ==> data == if |d0| == 1 then [] else [d0[|d0| - 1]] + d0[1..|d0| - 1])
  }

  lemma ReheapDone(d0: seq<Item>, data: seq<Item>, m: nat, cur: nat, e: seq<Item>, b: seq<Item>, m': nat)
    requires 1 <= |d0| && m <= |d0| && HoleInv(d0, data, m, cur, d0[|d0| - 1])
    requires Fits(data, m, cur, d0[|d0| - 1])
    requires e == (if cur != |data| - 1 then data[cur := data[|data| - 1]] else data) && b == e[..|data| - 1]
    requires m' == if m > |b| then |b| else m
    ensures ReheapPost(d0, m, b, m')
  {
    var x := d0[|d0| - 1];
    assert b == data[cur := x][..|data| - 1];
    FilledIsHeap(d0, data, m, cur, x, b, m');
    if 0 < m {
      FilledContents(d0, data, m, cur, x, b);
      assert d0[..|d0|] == d0;
    }
    if m < |d0| {
      FilledRest(d0, data, m, cur, x, b);
    }
  }
}
