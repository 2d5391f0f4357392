/** The lock-less single list of rt-thread/include/rtatomic.h.

    Every load, store and compare-exchange of `rt_ll_slist_enqueue` and
    `rt_ll_slist_dequeue` is one step of its own, and the steps of any number
    of threads interleave freely.  A history records where each operation is
    called, where it takes effect and where it returns.  The main result,
    `Linearizable`, says that the effects form a legal run of a sequential
    stack whose contents are the nodes chained from the list head, and that
    every operation takes effect between its call and its return and returns
    what the stack gave. */
module LlSlist {

  /** A node is its address; NULL is address 0. */
  type Node = nat
  const NULL: Node := 0

  type Tid = nat

  /** Where a thread stands inside the two functions, with its locals. */
  datatype Pc =
    | Idle
    | EnqLoad(n: Node)             // about to load l->next into exp
    | EnqWrite(n: Node, exp: Node) // about to store exp into n->next
    | EnqCas(n: Node, exp: Node)   // about to compare-exchange l->next
    | EnqDone(n: Node)
    | DeqLoad                      // about to load l->next into exp
    | DeqTest(exp: Node)           // head := exp, about to test it for NULL
    | DeqNext(head: Node)          // about to load head->next
    | DeqCas(head: Node, nx: Node) // about to compare-exchange l->next
    | DeqDone(head: Node)

  datatype Call = Enqueue(n: Node) | Dequeue

  /** An operation of the sequential stack. */
  datatype Op = Push(n: Node) | Pop(n: Node) | PopEmpty

  datatype Event =
    | Called(t: Tid, call: Call)
    | Effect(t: Tid, op: Op)
    | Returned(t: Tid, result: Node)

  /** `first` is l->next; `next` holds the next field of every written node. */
  datatype State = State(first: Node, next: map<Node, Node>, pcs: map<Tid, Pc>, hist: seq<Event>)

  function PcOf(s: State, t: Tid): Pc {
    if t in s.pcs then s.pcs[t] else Idle
  }

  const INIT := State(NULL, map[], map[], [])

  // ----- the steps -----

  datatype Step =
    | CallEnqueue(t: Tid, n: Node)
    | CallDequeue(t: Tid)
    | Advance(t: Tid)              // the next load, store, test, exchange or return of t

  function Goto(s: State, t: Tid, pc: Pc): State {
    s.(pcs := s.pcs[t := pc])
  }

  function Emit(s: State, e: Event): State {
    s.(hist := s.hist + [e])
  }

  /** The value a load of p->next gives (any value where p was never written). */
  function LoadNext(next: map<Node, Node>, p: Node): Node {
    if p in next then next[p] else NULL
  }

  function Apply(s: State, e: Step): State {
    match e
    case CallEnqueue(t, n) => Goto(Emit(s, Called(t, Enqueue(n))), t, EnqLoad(n))
    case CallDequeue(t) => Goto(Emit(s, Called(t, Dequeue)), t, DeqLoad)
    case Advance(t) =>
      match PcOf(s, t)
      case Idle => s
      case EnqLoad(n) => Goto(s, t, EnqWrite(n, s.first))
      case EnqWrite(n, exp) => Goto(s.(next := s.next[n := exp]), t, EnqCas(n, exp))
      case EnqCas(n, exp) =>
        if s.first == exp
        then Goto(Emit(s.(first := n), Effect(t, Push(n))), t, EnqDone(n))
        else Goto(s, t, EnqWrite(n, s.first))
      case EnqDone(_) => Goto(Emit(s, Returned(t, NULL)), t, Idle)
      // a load that sees NULL is where an empty dequeue takes effect
      case DeqLoad => SawFirst(s, t)
      case DeqTest(exp) => Goto(s, t, if exp == NULL then DeqDone(NULL) else DeqNext(exp))
      case DeqNext(head) => Goto(s, t, DeqCas(head, LoadNext(s.next, head)))
      case DeqCas(head, nx) =>
        if s.first == head
        then Goto(Emit(s.(first := nx), Effect(t, Pop(head))), t, DeqDone(head))
        else SawFirst(s, t)
      case DeqDone(head) => Goto(Emit(s, Returned(t, head)), t, Idle)
  }

  function SawFirst(s: State, t: Tid): State {
    Goto(if s.first == NULL then Emit(s, Effect(t, PopEmpty)) else s, t, DeqTest(s.first))
  }

  /** Thread t is enqueueing n and has not published it yet. */
  predicate Publishing(pc: Pc, n: Node) {
    (pc.EnqLoad? || pc.EnqWrite? || pc.EnqCas?) && pc.n == n
  }

  /** The thread is inside a dequeue that has read n from the list head. */
  predicate HasRead(pc: Pc, n: Node) {
    (pc.DeqTest? && pc.exp == n) || (pc.DeqNext? && pc.head == n) || (pc.DeqCas? && pc.head == n)
  }

  /** What a caller must guarantee to call at all: it is not inside another
      call, and the node it enqueues is a real node that nobody else is
      enqueueing and that is not in the list. */
  ghost predicate Enabled(s: State, e: Step) {
    match e
    case CallEnqueue(t, n) =>
      PcOf(s, t) == Idle && n != NULL && n !in Contents(s.hist) &&
      forall u | u in s.pcs :: !Publishing(s.pcs[u], n)
    case CallDequeue(t) => PcOf(s, t) == Idle
    case Advance(t) => PcOf(s, t) != Idle
  }

  /** The reuse discipline: no node is enqueued while a dequeue that read it is
      still in flight. */
  predicate Disciplined(s: State, e: Step) {
    e.CallEnqueue? ==> forall u | u in s.pcs :: !HasRead(s.pcs[u], e.n)
  }

  /** s' follows from s by the steps es, each callable and disciplined. */
  ghost predicate Run(s: State, es: seq<Step>, s': State)
    decreases |es|
  {
    if es == [] then s == s'
    else Enabled(s, es[0]) && Disciplined(s, es[0]) && Run(Apply(s, es[0]), es[1..], s')
  }

  // ----- the sequential stack and the specification of a history -----

  /** A sequential stack, top first; None once an operation was illegal. */
  datatype Stack = Bad | Stack(top: seq<Node>)

  function Do(k: Stack, op: Op): Stack {
    match k
    case Bad => Bad
    case Stack(s) =>
      match op
      case Push(n) => Stack([n] + s)
      case Pop(n) => if s != [] && s[0] == n then Stack(s[1..]) else Bad
      case PopEmpty => if s == [] then k else Bad
  }

  /** The stack after all effects of a history, in the order they took effect. */
  function Replay(hist: seq<Event>): Stack {
    if hist == [] then Stack([])
    else
      var last := hist[|hist| - 1];
      var before := Replay(hist[..|hist| - 1]);
      if last.Effect? then Do(before, last.op) else before
  }

  function Contents(hist: seq<Event>): seq<Node> {
    match Replay(hist)
    case Bad => []
    case Stack(s) => s
  }

  /** What a history says thread t is doing. */
  datatype Phase = Outside | Pending(call: Call) | Effected(op: Op) | Broken

  function NextPhase(p: Phase, e: Event): Phase {
    match e
    case Called(_, call) => if p == Outside then Pending(call) else Broken
    case Effect(_, op) =>
      if p.Pending? && (match op case Push(n) => p.call == Enqueue(n) case _ => p.call == Dequeue)
      then Effected(op) else Broken
    case Returned(_, r) =>
      if p.Effected? && (match p.op case Push(_) => true case Pop(n) => r == n case PopEmpty => r == NULL)
      then Outside else Broken
  }

  function PhaseOf(hist: seq<Event>, t: Tid): Phase {
    if hist == [] then Outside
    else
      var last := hist[|hist| - 1];
      var before := PhaseOf(hist[..|hist| - 1], t);
      if last.t == t then NextPhase(before, last) else before
  }

  lemma ReplayEmit(hist: seq<Event>, e: Event)
    ensures Replay(hist + [e]) == if e.Effect? then Do(Replay(hist), e.op) else Replay(hist)
  {
    assert (hist + [e])[..|hist|] == hist;
  }

  lemma PhaseEmit(hist: seq<Event>, e: Event, t: Tid)
    ensures PhaseOf(hist + [e], t) == if e.t == t then NextPhase(PhaseOf(hist, t), e) else PhaseOf(hist, t)
  {
    assert (hist + [e])[..|hist|] == hist;
  }

  // ----- the invariant -----

  /** Following next fields from h gives exactly the nodes of s, then NULL. */
  ghost predicate Chain(next: map<Node, Node>, h: Node, s: seq<Node>)
    decreases |s|
  {
    if s == [] then h == NULL
    else h == s[0] && h != NULL && h in next && Chain(next, next[h], s[1..])
  }

  ghost predicate Distinct(s: seq<Node>) {
    forall i, j | 0 <= i < j < |s| :: s[i] != s[j]
  }

  /** The phase a program point stands for. */
  predicate PhaseFits(pc: Pc, p: Phase) {
    match pc
    case Idle => p == Outside
    case EnqLoad(n) => p == Pending(Enqueue(n))
    case EnqWrite(n, _) => p == Pending(Enqueue(n))
    case EnqCas(n, _) => p == Pending(Enqueue(n))
    case EnqDone(n) => p == Effected(Push(n))
    case DeqLoad => p == Pending(Dequeue)
    case DeqTest(exp) => p == if exp == NULL then Effected(PopEmpty) else Pending(Dequeue)
    case DeqNext(_) => p == Pending(Dequeue)
    case DeqCas(_, _) => p == Pending(Dequeue)
    case DeqDone(h) => p == Effected(if h == NULL then PopEmpty else Pop(h))
  }

  /** What the locals of one thread say about the shared words. */
  predicate LocalsFit(next: map<Node, Node>, pc: Pc) {
    match pc
    case EnqCas(n, exp) => n in next && next[n] == exp
    case DeqTest(exp) => exp == NULL || exp in next
    case DeqNext(h) => h != NULL && h in next
    case DeqCas(h, nx) => h != NULL && h in next && next[h] == nx
    case _ => true
  }

  ghost predicate ThreadsFit(s: State) {
    && (forall t | t in s.pcs :: LocalsFit(s.next, s.pcs[t]))
    && (forall t :: PhaseFits(PcOf(s, t), PhaseOf(s.hist, t)))
  }

  /** Node n is private to thread t: not among the listed nodes c, not read by
      a dequeue in flight, and published by nobody else. */
  ghost predicate PrivateTo(pcs: map<Tid, Pc>, c: seq<Node>, t: Tid, n: Node) {
    && n != NULL
    && n !in c
    && (forall u | u in pcs :: !HasRead(pcs[u], n))
    && (forall u | u in pcs && u != t :: !Publishing(pcs[u], n))
  }

  predicate InPublication(pc: Pc) {
    pc.EnqLoad? || pc.EnqWrite? || pc.EnqCas?
  }

  ghost predicate Private(pcs: map<Tid, Pc>, c: seq<Node>) {
    forall t | t in pcs && InPublication(pcs[t]) :: PrivateTo(pcs, c, t, pcs[t].n)
  }

  ghost predicate Inv(s: State) {
    && Replay(s.hist).Stack?
    && Distinct(Contents(s.hist))
    && Chain(s.next, s.first, Contents(s.hist))
    && ThreadsFit(s)
    && Private(s.pcs, Contents(s.hist))
  }

  lemma {:induction false} ChainFrame(next: map<Node, Node>, h: Node, s: seq<Node>, n: Node, v: Node)
    requires Chain(next, h, s) && n !in s
    ensures Chain(next[n := v], h, s)
    decreases |s|
  {
    if s != [] {
      ChainFrame(next, next[h], s[1..], n, v);
    }
  }

  /** Thread t moves to pc while the listed nodes change from c to d. */
  lemma MoveKeepsPrivate(pcs: map<Tid, Pc>, c: seq<Node>, d: seq<Node>, t: Tid, pc: Pc)
    requires Private(pcs, c)
    requires forall n | n in d :: n in c || (t in pcs && Publishing(pcs[t], n) && !InPublication(pc))
    requires InPublication(pc) ==> PrivateTo(pcs, d, t, pc.n)
    requires forall n | HasRead(pc, n) && n != NULL :: n in d || (t in pcs && HasRead(pcs[t], n))
    ensures Private(pcs[t := pc], d)
  {
    var after := pcs[t := pc];
    forall u | u in after && InPublication(after[u])
      ensures PrivateTo(after, d, u, after[u].n)
    {
      assert Publishing(after[u], after[u].n);
      if u != t {
        assert PrivateTo(pcs, c, u, pcs[u].n);
      }
    }
  }

  /** A step that changes no node's next field keeps the thread facts once the
      moving thread's own facts are shown. */
  lemma MoveKeepsThreads(s: State, s': State, t: Tid, pc: Pc)
    requires ThreadsFit(s)
    requires s'.pcs == s.pcs[t := pc]
    requires forall u | u in s.pcs && u != t :: LocalsFit(s'.next, s.pcs[u])
    requires s'.hist == s.hist || (|s'.hist| > 0 && s'.hist[..|s'.hist| - 1] == s.hist && s'.hist[|s'.hist| - 1].t == t)
    requires LocalsFit(s'.next, pc) && PhaseFits(pc, PhaseOf(s'.hist, t))
    ensures ThreadsFit(s')
  {
    forall u ensures PhaseFits(PcOf(s', u), PhaseOf(s'.hist, u)) {
      if u != t {
        assert PcOf(s', u) == PcOf(s, u);
      }
    }
  }

  /** A step that adds at most one event of the moving thread and writes no
      next field keeps the invariant once its own obligations are met. */
  lemma MoveKeepsInv(s: State, s': State, t: Tid, pc: Pc)
    requires Inv(s)
    requires s'.pcs == s.pcs[t := pc] && s'.next == s.next
    requires s'.hist == s.hist || (|s'.hist| > 0 && s'.hist[..|s'.hist| - 1] == s.hist && s'.hist[|s'.hist| - 1].t == t)
    requires LocalsFit(s'.next, pc) && PhaseFits(pc, PhaseOf(s'.hist, t))
    requires Replay(s'.hist).Stack? && Distinct(Contents(s'.hist)) && Chain(s'.next, s'.first, Contents(s'.hist))
    requires forall n | n in Contents(s'.hist) :: n in Contents(s.hist) || (t in s.pcs && Publishing(s.pcs[t], n) && !InPublication(pc))
    requires InPublication(pc) ==> PrivateTo(s.pcs, Contents(s'.hist), t, pc.n)
    requires forall n | HasRead(pc, n) && n != NULL :: n in Contents(s'.hist) || (t in s.pcs && HasRead(s.pcs[t], n))
    ensures Inv(s')
  {
    MoveKeepsPrivate(s.pcs, Contents(s.hist), Contents(s'.hist), t, pc);
    MoveKeepsThreads(s, s', t, pc);
  }

  lemma CallEnqueueKeepsInv(s: State, t: Tid, n: Node)
    requires Inv(s) && Enabled(s, CallEnqueue(t, n)) && Disciplined(s, CallEnqueue(t, n))
    ensures Inv(Apply(s, CallEnqueue(t, n)))
  {
    var ev := Called(t, Enqueue(n));
    ReplayEmit(s.hist, ev);
    PhaseEmit(s.hist, ev, t);
    assert PhaseFits(PcOf(s, t), PhaseOf(s.hist, t));
    MoveKeepsInv(s, Apply(s, CallEnqueue(t, n)), t, EnqLoad(n));
  }

  lemma CallDequeueKeepsInv(s: State, t: Tid)
    requires Inv(s) && PcOf(s, t) == Idle
    ensures Inv(Apply(s, CallDequeue(t)))
  {
    var ev := Called(t, Dequeue);
    ReplayEmit(s.hist, ev);
    PhaseEmit(s.hist, ev, t);
    assert PhaseFits(PcOf(s, t), PhaseOf(s.hist, t));
    MoveKeepsInv(s, Apply(s, CallDequeue(t)), t, DeqLoad);
  }

  /** The store to n->next changes no other thread's view, because n is private. */
  lemma WriteKeepsInv(s: State, t: Tid)
    requires Inv(s) && PcOf(s, t).EnqWrite?
    ensures Inv(Apply(s, Advance(t)))
  {
    var s' := Apply(s, Advance(t));
    var pc := PcOf(s, t);
    assert PrivateTo(s.pcs, Contents(s.hist), t, pc.n);
    ChainFrame(s.next, s.first, Contents(s.hist), pc.n, pc.exp);
    MoveKeepsPrivate(s.pcs, Contents(s.hist), Contents(s'.hist), t, s'.pcs[t]);
    forall u | u in s.pcs && u != t ensures LocalsFit(s'.next, s.pcs[u]) {
      assert !HasRead(s.pcs[u], pc.n) && !Publishing(s.pcs[u], pc.n);
    }
    MoveKeepsThreads(s, s', t, s'.pcs[t]);
  }

  lemma EnqueueKeepsInv(s: State, t: Tid)
    requires Inv(s) && (PcOf(s, t).EnqLoad? || PcOf(s, t).EnqCas?)
    ensures Inv(Apply(s, Advance(t)))
  {
    var s' := Apply(s, Advance(t));
    var pc := PcOf(s, t);
    assert PrivateTo(s.pcs, Contents(s.hist), t, pc.n);
    assert PhaseFits(pc, PhaseOf(s.hist, t));
    if pc.EnqCas? && s.first == pc.exp {
      var ev := Effect(t, Push(pc.n));
      ReplayEmit(s.hist, ev);
      PhaseEmit(s.hist, ev, t);
      assert Contents(s'.hist)[1..] == Contents(s.hist);
      assert Publishing(s.pcs[t], pc.n);
    }
    MoveKeepsInv(s, s', t, s'.pcs[t]);
  }

  /** A load of l->next inside a dequeue: the first one, or the one a failed
      compare-exchange makes. */
  lemma LoadKeepsInv(s: State, t: Tid)
    requires Inv(s) && PhaseOf(s.hist, t) == Pending(Dequeue)
    ensures Inv(SawFirst(s, t))
  {
    var ev := Effect(t, PopEmpty);
    ReplayEmit(s.hist, ev);
    PhaseEmit(s.hist, ev, t);
    MoveKeepsInv(s, SawFirst(s, t), t, DeqTest(s.first));
  }

  /** A successful compare-exchange pops: the next field that was read is still
      the one the head node has. */
  lemma PopKeepsInv(s: State, t: Tid)
    requires Inv(s) && PcOf(s, t).DeqCas? && s.first == PcOf(s, t).head
    ensures Inv(Apply(s, Advance(t)))
  {
    var s' := Apply(s, Advance(t));
    var ev := Effect(t, Pop(s.first));
    ReplayEmit(s.hist, ev);
    PhaseEmit(s.hist, ev, t);
    assert PhaseFits(PcOf(s, t), PhaseOf(s.hist, t));
    MoveKeepsInv(s, s', t, s'.pcs[t]);
  }

  lemma DequeueKeepsInv(s: State, t: Tid)
    requires Inv(s) && (PcOf(s, t).DeqTest? || PcOf(s, t).DeqNext? || PcOf(s, t).DeqCas? || PcOf(s, t).DeqLoad?)
    ensures Inv(Apply(s, Advance(t)))
  {
    var pc := PcOf(s, t);
    assert PhaseFits(pc, PhaseOf(s.hist, t));
    if pc.DeqLoad? || (pc.DeqCas? && s.first != pc.head) {
      LoadKeepsInv(s, t);
    } else if pc.DeqCas? {
      PopKeepsInv(s, t);
    } else {
      var s' := Apply(s, Advance(t));
      MoveKeepsInv(s, s', t, s'.pcs[t]);
    }
  }

  lemma ReturnKeepsInv(s: State, t: Tid)
    requires Inv(s) && (PcOf(s, t).EnqDone? || PcOf(s, t).DeqDone?)
    ensures Inv(Apply(s, Advance(t)))
  {
    var pc := PcOf(s, t);
    var ev := Returned(t, if pc.DeqDone? then pc.head else NULL);
    ReplayEmit(s.hist, ev);
    PhaseEmit(s.hist, ev, t);
    assert PhaseFits(pc, PhaseOf(s.hist, t));
    MoveKeepsInv(s, Apply(s, Advance(t)), t, Idle);
  }

  lemma StepKeepsInv(s: State, e: Step)
    requires Inv(s) && Enabled(s, e) && Disciplined(s, e)
    ensures Inv(Apply(s, e))
  {
    match e
    case Advance(t) =>
      var pc := PcOf(s, t);
      if pc.EnqWrite? {
        WriteKeepsInv(s, t);
      } else if pc.EnqLoad? || pc.EnqCas? {
        EnqueueKeepsInv(s, t);
      } else if pc.EnqDone? || pc.DeqDone? {
        ReturnKeepsInv(s, t);
      } else {
        DequeueKeepsInv(s, t);
      }
    case CallEnqueue(t, n) => CallEnqueueKeepsInv(s, t, n);
    case CallDequeue(t) => CallDequeueKeepsInv(s, t);
  }

  lemma {:induction false} RunKeepsInv(s: State, es: seq<Step>, s': State)
    requires Inv(s) && Run(s, es, s')
    ensures Inv(s')
    decreases |es|
  {
    if es != [] {
      StepKeepsInv(s, es[0]);
      RunKeepsInv(Apply(s, es[0]), es[1..], s');
    }
  }

  // ----- results -----

  /** In every disciplined interleaving the effects are a legal stack run, the
      list holds exactly the stack, and every thread's calls, effects and
      returns alternate with matching values. */
  lemma Linearizable(es: seq<Step>, s: State)
    requires Run(INIT, es, s)
    ensures Replay(s.hist).Stack? && Chain(s.next, s.first, Contents(s.hist)) && Distinct(Contents(s.hist))
    ensures forall t :: PhaseOf(s.hist, t) != Broken
  {
    RunKeepsInv(INIT, es, s);
    forall t ensures PhaseOf(s.hist, t) != Broken {
      assert PhaseFits(PcOf(s, t), PhaseOf(s.hist, t));
    }
  }

  function Pushes(hist: seq<Event>, n: Node): nat {
    if hist == [] then 0
    else Pushes(hist[..|hist| - 1], n) + if hist[|hist| - 1].Effect? && hist[|hist| - 1].op == Push(n) then 1 else 0
  }

  function Pops(hist: seq<Event>, n: Node): nat {
    if hist == [] then 0
    else Pops(hist[..|hist| - 1], n) + if hist[|hist| - 1].Effect? && hist[|hist| - 1].op == Pop(n) then 1 else 0
  }

  lemma {:induction false} ReplayCounts(hist: seq<Event>, n: Node)
    requires Replay(hist).Stack?
    ensures multiset(Contents(hist))[n] == Pushes(hist, n) - Pops(hist, n)
  {
    if hist != [] {
      var last := hist[|hist| - 1];
      var before := hist[..|hist| - 1];
      ReplayCounts(before, n);
      if last.Effect? && last.op.Pop? {
        assert Contents(before) == [last.op.n] + Contents(hist);
      }
    }
  }

  lemma {:induction false} DistinctCount(s: seq<Node>, n: Node)
    requires Distinct(s)
    ensures multiset(s)[n] == if n in s then 1 else 0
  {
    if s != [] {
      DistinctCount(s[1..], n);
      assert s == [s[0]] + s[1..] && s[0] !in s[1..];
    }
  }

  /** No node is returned twice for one enqueue: dequeues of n never outnumber
      enqueues of n, and the difference says whether n is listed now. */
  lemma ReturnedOncePerEnqueue(es: seq<Step>, s: State, n: Node)
    requires Run(INIT, es, s)
    ensures Pushes(s.hist, n) - Pops(s.hist, n) == if n in Contents(s.hist) then 1 else 0
  {
    RunKeepsInv(INIT, es, s);
    ReplayCounts(s.hist, n);
    DistinctCount(Contents(s.hist), n);
  }

  // ----- why the discipline is needed -----

  lemma {:induction false} RunSplit(s: State, es: seq<Step>, m: State, fs: seq<Step>, s': State)
    requires Run(s, es, m) && Run(m, fs, s')
    ensures Run(s, es + fs, s')
    decreases |es|
  {
    if es == [] {
      assert es + fs == fs;
    } else {
      assert (es + fs)[1..] == es[1..] + fs;
      RunSplit(Apply(s, es[0]), es[1..], m, fs, s');
    }
  }

  /** Some disciplined run leads from s to s'. */
  ghost predicate Reaches(s: State, s': State) {
    exists es :: Run(s, es, s')
  }

  lemma ReachesTransitive(s: State, m: State, s': State)
    requires Reaches(s, m) && Reaches(m, s')
    ensures Reaches(s, s')
  {
    var es :| Run(s, es, m);
    var fs :| Run(m, fs, s');
    RunSplit(s, es, m, fs, s');
  }

  lemma ReachesStep(s: State, m: State, e: Step)
    requires Reaches(s, m) && Enabled(m, e) && Disciplined(m, e)
    ensures Reaches(s, Apply(m, e))
  {
    var s' := Apply(m, e);
    assert Run(s', [], s');
    assert [e][1..] == [];
    assert Run(m, [e], s');
    ReachesTransitive(s, m, s');
  }

  /** Thread t takes its next step. */
  lemma Next(s: State, m: State, t: Tid) returns (m': State)
    requires Reaches(s, m) && PcOf(m, t) != Idle
    ensures Reaches(s, m') && m' == Apply(m, Advance(t))
  {
    ReachesStep(s, m, Advance(t));
    m' := Apply(m, Advance(t));
  }

  lemma Here(s: State)
    ensures Reaches(s, s)
  {
    assert Run(s, [], s);
  }

  lemma First(s: State, e: Step) returns (m: State)
    requires Enabled(s, e) && Disciplined(s, e)
    ensures Reaches(s, m) && m == Apply(s, e)
  {
    Here(s);
    ReachesStep(s, s, e);
    m := Apply(s, e);
  }

  /** An enqueue that is called and then runs undisturbed publishes its node. */
  lemma Publish(s: State, t: Tid, n: Node) returns (s': State)
    requires PcOf(s, t) == EnqLoad(n)
    ensures Reaches(s, s')
    ensures s' == State(n, s.next[n := s.first], s.pcs[t := EnqDone(n)], s.hist + [Effect(t, Push(n))])
  {
    Here(s);
    s' := Next(s, s, t);
    s' := Next(s, s', t);
    s' := Next(s, s', t);
  }

  /** An undisturbed enqueue pushes its node. */
  lemma EnqueueAlone(s: State, t: Tid, n: Node) returns (s': State)
    requires Enabled(s, CallEnqueue(t, n)) && Disciplined(s, CallEnqueue(t, n))
    ensures Reaches(s, s')
    ensures s'.first == n && s'.next == s.next[n := s.first] && s'.pcs == s.pcs[t := Idle]
    ensures s'.hist == s.hist + [Called(t, Enqueue(n)), Effect(t, Push(n)), Returned(t, NULL)]
  {
    var m := First(s, CallEnqueue(t, n));
    var k := Publish(m, t, n);
    ReachesTransitive(s, m, k);
    s' := Next(s, k, t);
  }

  /** A dequeue that runs undisturbed up to its compare-exchange. */
  lemma DequeueReads(s: State, t: Tid) returns (s': State)
    requires Enabled(s, CallDequeue(t)) && s.first != NULL && s.first in s.next
    ensures Reaches(s, s')
    ensures s' == s.(pcs := s.pcs[t := DeqCas(s.first, s.next[s.first])], hist := s.hist + [Called(t, Dequeue)])
  {
    s' := First(s, CallDequeue(t));
    s' := Next(s, s', t);
    s' := Next(s, s', t);
    s' := Next(s, s', t);
  }

  /** An undisturbed dequeue of a nonempty list pops its first node. */
  lemma DequeueAlone(s: State, t: Tid) returns (s': State)
    requires Enabled(s, CallDequeue(t)) && s.first != NULL && s.first in s.next
    ensures Reaches(s, s')
    ensures s'.first == s.next[s.first] && s'.next == s.next && s'.pcs == s.pcs[t := Idle]
    ensures s'.hist == s.hist + [Called(t, Dequeue), Effect(t, Pop(s.first)), Returned(t, s.first)]
  {
    s' := DequeueReads(s, t);
    s' := Next(s, s', t);
    s' := Next(s, s', t);
  }

  lemma ReplayThree(hist: seq<Event>, a: Event, b: Event, c: Event)
    requires a.Called? && b.Effect? && c.Returned?
    ensures Replay(hist + [a, b, c]) == Do(Replay(hist), b.op)
  {
    assert hist + [a, b, c] == hist + [a] + [b] + [c];
    ReplayEmit(hist, a);
    ReplayEmit(hist + [a], b);
    ReplayEmit(hist + [a] + [b], c);
  }

  lemma {:induction false} Above(used: set<nat>) returns (b: nat)
    ensures forall x | x in used :: x < b
  {
    if used == {} {
      b := 0;
    } else {
      var x :| x in used;
      var c := Above(used - {x});
      b := if c <= x then x + 1 else c;
      assert forall y | y in used :: y == x || y in used - {x};
    }
  }

  /** The node a thread is working with. */
  function NodeOf(pc: Pc): Node {
    match pc
    case Idle => NULL
    case EnqLoad(n) => n
    case EnqWrite(n, _) => n
    case EnqCas(n, _) => n
    case EnqDone(n) => n
    case DeqLoad => NULL
    case DeqTest(exp) => exp
    case DeqNext(h) => h
    case DeqCas(h, _) => h
    case DeqDone(h) => h
  }

  /** Some thread can always enqueue some node, by the discipline, that is not a
      given one. */
  lemma Newcomer(s: State, other: Node) returns (t: Tid, m: Node)
    ensures t !in s.pcs && m != other
    ensures Enabled(s, CallEnqueue(t, m)) && Disciplined(s, CallEnqueue(t, m))
  {
    var busy := set u | u in s.pcs;
    t := Above(busy);
    assert t !in busy;
    var used := (set u | u in s.pcs :: NodeOf(s.pcs[u])) + (set n | n in Contents(s.hist)) + {NULL, other};
    m := Above(used);
    assert t !in s.pcs && m !in used;
    forall u | u in s.pcs ensures NodeOf(s.pcs[u]) in used {
    }
  }

  /** A dequeue that has read n goes on to its compare-exchange. */
  lemma ReaderReady(s: State, u: Tid, n: Node) returns (s': State, nx: Node)
    requires HasRead(PcOf(s, u), n) && n != NULL
    ensures Reaches(s, s') && s' == s.(pcs := s.pcs[u := DeqCas(n, nx)])
  {
    Here(s);
    s' := s;
    if PcOf(s', u).DeqTest? {
      s' := Next(s, s', u);
    }
    if PcOf(s', u).DeqNext? {
      s' := Next(s, s', u);
    }
    nx := PcOf(s', u).nx;
  }

  /** Thread t has called an enqueue of n, and thread u is about to exchange n for
      nx.  A newcomer's node slips under n, and u's exchange takes it along. */
  lemma Overtaken(s: State, t: Tid, u: Tid, n: Node, nx: Node) returns (s': State, m: Node)
    requires t != u && PcOf(s, t) == EnqLoad(n) && PcOf(s, u) == DeqCas(n, nx)
    requires Replay(s.hist).Stack?
    ensures Reaches(s, s') && s'.first == nx != m && Replay(s'.hist) == Stack([m] + Contents(s.hist))
  {
    var v;
    v, m := Newcomer(s, nx);
    var s1 := EnqueueAlone(s, v, m);
    ReplayThree(s.hist, Called(v, Enqueue(m)), Effect(v, Push(m)), Returned(v, NULL));
    var s2 := Publish(s1, t, n);
    ReplayEmit(s1.hist, Effect(t, Push(n)));
    ReachesTransitive(s, s1, s2);
    s' := Next(s, s2, u);
    ReplayEmit(s2.hist, Effect(u, Pop(n)));
  }

  /** One enqueue against the discipline is enough to lose a node: from every
      state of a disciplined run, the steps after it can be disciplined. */
  lemma ReuseLosesNode(s: State, t: Tid, n: Node) returns (s': State, m: Node)
    requires Inv(s) && Enabled(s, CallEnqueue(t, n)) && !Disciplined(s, CallEnqueue(t, n))
    ensures Reaches(Apply(s, CallEnqueue(t, n)), s')
    ensures Replay(s'.hist) == Stack([m] + Contents(s.hist)) && s'.first != m
    ensures !Chain(s'.next, s'.first, Contents(s'.hist))
  {
    var u :| u in s.pcs && HasRead(s.pcs[u], n);
    var s1 := Apply(s, CallEnqueue(t, n));
    ReplayEmit(s.hist, Called(t, Enqueue(n)));
    var s2, nx := ReaderReady(s1, u, n);
    s', m := Overtaken(s2, t, u, n, nx);
    ReachesTransitive(s1, s2, s');
  }

  /** The list is the stack of the effects in everything that can follow a step by
      disciplined steps. */
  ghost predicate StaysStack(s: State) {
    forall s' | Reaches(s, s') :: Replay(s'.hist).Stack? && Chain(s'.next, s'.first, Contents(s'.hist))
  }

  /** After any disciplined run, a step that can be taken keeps the list a stack
      exactly when it is disciplined. */
  lemma DisciplineIff(es: seq<Step>, s: State, e: Step)
    requires Run(INIT, es, s) && Enabled(s, e)
    ensures StaysStack(Apply(s, e)) <==> Disciplined(s, e)
  {
    RunKeepsInv(INIT, es, s);
    if Disciplined(s, e) {
      StepKeepsInv(s, e);
      forall s' | Reaches(Apply(s, e), s') ensures Inv(s') {
        var fs :| Run(Apply(s, e), fs, s');
        RunKeepsInv(Apply(s, e), fs, s');
      }
    } else {
      var s', m := ReuseLosesNode(s, e.t, e.n);
    }
  }

  /** Thread 0 has enqueued node 1 and thread 1 has read it. */
  lemma ReaderPauses() returns (s: State)
    ensures Reaches(INIT, s) && Replay(s.hist) == Stack([1])
    ensures s.first == 1 && s.next == map[1 := NULL] && s.pcs == map[0 := Idle, 1 := DeqCas(1, NULL)]
  {
    var s1 := EnqueueAlone(INIT, 0, 1);
    ReplayThree(INIT.hist, Called(0, Enqueue(1)), Effect(0, Push(1)), Returned(0, NULL));
    s := DequeueReads(s1, 1);
    ReplayEmit(s1.hist, Called(1, Dequeue));
    ReachesTransitive(INIT, s1, s);
  }

  /** The discipline excludes something: thread 0 dequeues node 1 and could
      enqueue it again. */
  lemma ReuseIsPossible() returns (s: State)
    ensures Reaches(INIT, s)
    ensures Enabled(s, CallEnqueue(0, 1)) && !Disciplined(s, CallEnqueue(0, 1))
  {
    var s1 := ReaderPauses();
    s := DequeueAlone(s1, 0);
    ReplayThree(s1.hist, Called(0, Dequeue), Effect(0, Pop(1)), Returned(0, 1));
    ReachesTransitive(INIT, s1, s);
    assert HasRead(s.pcs[1], 1);
  }

  // ----- progress -----

  /** n steps of thread t, or fewer if it is back before. */
  function Alone(s: State, t: Tid, n: nat): State
    decreases n
  {
    if n == 0 || PcOf(s, t) == Idle then s else Alone(Apply(s, Advance(t)), t, n - 1)
  }

  /** How many steps are left, counting the retry after a stale value. */
  function Rank(s: State, t: Tid): nat {
    match PcOf(s, t)
    case Idle => 0
    case EnqLoad(_) => 4
    case EnqWrite(_, exp) => if exp == s.first then 3 else 5
    case EnqCas(_, exp) => if exp == s.first then 2 else 4
    case EnqDone(_) => 1
    case DeqLoad => 5
    case DeqTest(exp) => if exp == NULL then 2 else if exp == s.first then 4 else 7
    case DeqNext(head) => if head == s.first then 3 else 6
    case DeqCas(head, _) => if head == s.first then 2 else 5
    case DeqDone(_) => 1
  }

  /** A call in flight returns within 7 steps of its own when no other thread takes
      one: a failed compare-exchange reloads the head. */
  lemma {:induction false} ReturnsAlone(s: State, t: Tid, n: nat)
    requires Rank(s, t) <= n
    ensures PcOf(Alone(s, t, n), t) == Idle && Rank(s, t) <= 7
    decreases n
  {
    if PcOf(s, t) != Idle {
      RankFalls(s, t);
      ReturnsAlone(Apply(s, Advance(t)), t, n - 1);
    }
  }

  lemma RankFalls(s: State, t: Tid)
    requires PcOf(s, t) != Idle
    ensures Rank(Apply(s, Advance(t)), t) < Rank(s, t)
  {
  }
}
