/** The blocking allocator of rt-thread/src/mempool.c as a step system.

    Each region that `rt_mp_alloc` and `rt_mp_free` run under the pool's spin
    lock is one step; the steps of any number of threads, the expiry of their
    timers and the timer callbacks interleave freely.  Blocks are conserved in
    every run.  No block is stranded exactly as long as every free meets no
    waiter, or one it can wake, or enough woken threads; it cannot wake the first
    waiter when that waiter's timer has expired and its callback has not run yet. */
module PoolWaiters {
  import opened Wrappers

  type Tid = nat
  type Block = nat

  datatype Error = EOK | ETIMEOUT | ERROR

  /** Where a thread stands inside rt_mp_alloc.  `resumed` marks a thread that
      was woken with EOK and has not rechecked the free count since. */
  datatype Pc =
    | Idle
    | Trying(time: int, resumed: bool)
    | Waiting(time: int, timerSet: bool, timerActive: bool)
    | Woken(error: Error, time: int)

  /** What a history records: the call, the answer, the sleeps in between with what
      ended them and the ticks they took, and the frees. */
  datatype Event =
    | Called(t: Tid, time: int)
    | Slept(t: Tid)
    | Woke(t: Tid, error: Error)
    | Ran(t: Tid, elapsed: nat)
    | Answered(t: Tid, block: Option<Block>)
    | Freed(b: Block)

  /** `blocks` is the free list from block_list on and `free` the counter
      block_free_count; `held` are the blocks handed out.  `firing` are the
      threads whose timer left the timer list with its callback still to run,
      `missed` counts the dequeues that found a waiter and woke nobody,
      and `failed` records a failed assertion. */
  datatype State = State(
    free: int, blocks: seq<Block>, held: multiset<Block>,
    waiters: seq<Tid>, pcs: map<Tid, Pc>, firing: set<Tid>,
    missed: nat, failed: bool, hist: seq<Event>)

  function PcOf(s: State, t: Tid): Pc {
    if t in s.pcs then s.pcs[t] else Idle
  }

  function Init(blocks: seq<Block>): State {
    State(|blocks|, blocks, multiset{}, [], map[], {}, 0, false, [])
  }

  datatype Step =
    | Call(t: Tid, time: int)       // rt_mp_alloc(mp, time)
    | Enter(t: Tid)                 // the locked region from the loop test on
    | Expire(t: Tid)                // the timer of t is taken off the timer list
    | Callback(t: Tid)              // _thread_timeout runs for t
    | Resume(t: Tid, elapsed: nat)  // t runs again after rt_schedule
    | Free(b: Block)                // rt_mp_free
    | Detach                        // rt_mp_detach

  function Goto(s: State, t: Tid, pc: Pc): State {
    s.(pcs := s.pcs[t := pc])
  }

  function Emit(s: State, e: Event): State {
    s.(hist := s.hist + [e])
  }

  function Without(q: seq<Tid>, t: Tid): seq<Tid> {
    if q == [] then [] else if q[0] == t then q[1..] else [q[0]] + Without(q[1..], t)
  }

  /** rt_susp_list_dequeue can resume the first waiter: it stops the waiter's
      timer first, and stopping fails when the timer is no longer active. */
  predicate CanResume(pc: Pc) {
    pc.Waiting? && (pc.timerSet ==> pc.timerActive)
  }

  /** rt_susp_list_dequeue: the first waiter resumes with `error`, or only has
      its timer mark cleared. */
  function Dequeue(s: State, error: Error): State {
    if s.waiters == [] then s
    else
      var t := s.waiters[0];
      var pc := PcOf(s, t);
      if CanResume(pc) then Emit(Goto(s, t, Woken(error, pc.time)).(waiters := s.waiters[1..]), Woke(t, error))
      else if pc.Waiting? then Goto(s, t, pc.(timerSet := false)).(missed := s.missed + 1)
      else s
  }

  /** rt_susp_list_resume_all: dequeue until a dequeue resumes nobody. */
  function ResumeAll(s: State, error: Error): State
    decreases |s.waiters|
  {
    var s' := Dequeue(s, error);
    if |s'.waiters| < |s.waiters| then ResumeAll(s', error) else s'
  }

  /** The locked region of rt_mp_alloc: take a block, give up, or suspend. */
  function TryAlloc(s: State, t: Tid, time: int): State {
    if s.free == 0 then
      if time == 0 then Emit(Goto(s, t, Idle), Answered(t, None))
      else Emit(Goto(s, t, Waiting(time, time > 0, time > 0)).(waiters := s.waiters + [t]), Slept(t))
    else if s.blocks == [] then s.(failed := true)
    else
      var b := s.blocks[0];
      Emit(Goto(s, t, Idle).(free := s.free - 1, blocks := s.blocks[1..], held := s.held + multiset{b}),
           Answered(t, Some(b)))
  }

  function Elapse(time: int, elapsed: nat): int {
    if time > 0 then (if time - elapsed < 0 then 0 else time - elapsed) else time
  }

  /** The block goes to the front of the free list. */
  function Link(s: State, b: Block): State {
    Emit(s.(free := s.free + 1, blocks := [b] + s.blocks, held := s.held - multiset{b}), Freed(b))
  }

  function FreeBlock(s: State, b: Block): State {
    Dequeue(Link(s, b), EOK)
  }

  predicate Enabled(s: State, e: Step) {
    match e
    case Call(t, _) => PcOf(s, t) == Idle
    case Enter(t) => PcOf(s, t).Trying?
    case Expire(t) => PcOf(s, t).Waiting? && PcOf(s, t).timerActive
    case Callback(t) => t in s.firing
    case Resume(t, _) => PcOf(s, t).Woken?
    case Free(b) => b in s.held
    case Detach => true
  }

  function Apply(s: State, e: Step): State
    requires Enabled(s, e)
  {
    match e
    case Call(t, time) => Emit(Goto(s, t, Trying(time, false)), Called(t, time))
    case Enter(t) => TryAlloc(s, t, PcOf(s, t).time)
    case Expire(t) => Goto(s, t, PcOf(s, t).(timerActive := false)).(firing := s.firing + {t})
    case Callback(t) =>
      var pc := PcOf(s, t);
      if pc.Waiting?
      then
        Emit(Goto(s, t, Woken(ETIMEOUT, pc.time)).(firing := s.firing - {t}, waiters := Without(s.waiters, t)),
             Woke(t, ETIMEOUT))
      else s.(firing := s.firing - {t}, failed := true)
    case Resume(t, elapsed) =>
      var pc := PcOf(s, t);
      if pc.error != EOK then Emit(Emit(Goto(s, t, Idle), Ran(t, elapsed)), Answered(t, None))
      else Emit(Goto(s, t, Trying(Elapse(pc.time, elapsed), true)), Ran(t, elapsed))
    case Free(b) => FreeBlock(s, b)
    case Detach => ResumeAll(s, ERROR)
  }

  ghost predicate Run(s: State, es: seq<Step>, s': State)
    decreases |es|
  {
    if es == [] then s == s'
    else Enabled(s, es[0]) && Run(Apply(s, es[0]), es[1..], s')
  }

  // ----- the invariant -----

  /** Resumed with EOK and not yet back at the loop test. */
  predicate IsPending(pc: Pc) {
    (pc.Woken? && pc.error == EOK) || (pc.Trying? && pc.resumed)
  }

  function Pending(pcs: map<Tid, Pc>): set<Tid> {
    set t | t in pcs && IsPending(pcs[t])
  }

  /** Free blocks and waiting threads exist together only while enough woken
      threads are on their way to take the blocks. */
  predicate NoStrand(s: State) {
    s.waiters != [] ==> s.free <= |Pending(s.pcs)|
  }

  predicate Unique(q: seq<Tid>) {
    forall i, j | 0 <= i < j < |q| :: q[i] != q[j]
  }

  ghost predicate QueueInv(s: State) {
    Unique(s.waiters) && forall t :: t in s.waiters <==> PcOf(s, t).Waiting?
  }

  ghost predicate BlocksInv(s: State, all: multiset<Block>) {
    s.free == |s.blocks| && multiset(s.blocks) + s.held == all
  }

  /** While no free was missed, a timer callback still to run belongs to a
      thread that is waiting for exactly that callback. */
  ghost predicate TimersInv(s: State) {
    && (s.missed == 0 ==>
          (forall t | t in s.firing :: PcOf(s, t).Waiting? && PcOf(s, t).timerSet && !PcOf(s, t).timerActive))
    && (forall t | t in s.pcs && s.pcs[t].Waiting? && s.pcs[t].timerActive :: s.pcs[t].timerSet)
    && (s.missed == 0 ==> !s.failed)
  }

  /** Every free block beyond a missed dequeue is matched by a woken thread. */
  predicate CountInv(s: State) {
    s.waiters != [] ==> s.free <= |Pending(s.pcs)| + s.missed
  }

  ghost predicate Inv(s: State, all: multiset<Block>) {
    BlocksInv(s, all) && QueueInv(s) && TimersInv(s) && CountInv(s)
  }

  lemma PendingMove(pcs: map<Tid, Pc>, t: Tid, pc: Pc)
    ensures |Pending(pcs[t := pc])| == |Pending(pcs)|
      - (if t in pcs && IsPending(pcs[t]) then 1 else 0) + (if IsPending(pc) then 1 else 0)
  {
    var rest := Pending(pcs) - {t};
    if t in pcs && IsPending(pcs[t]) {
      assert Pending(pcs) == rest + {t};
    } else {
      assert Pending(pcs) == rest;
    }
    if IsPending(pc) {
      assert Pending(pcs[t := pc]) == rest + {t};
    } else {
      assert Pending(pcs[t := pc]) == rest;
    }
  }

  lemma {:induction false} WithoutRemoves(q: seq<Tid>, t: Tid)
    requires Unique(q) && t in q
    ensures Unique(Without(q, t)) && |Without(q, t)| == |q| - 1
    ensures forall u :: u in Without(q, t) <==> u in q && u != t
  {
    assert forall u :: u in q <==> u == q[0] || u in q[1..];
    if q[0] != t {
      WithoutRemoves(q[1..], t);
      assert q[0] !in Without(q[1..], t);
    }
  }

  /** A thread moves without joining or leaving the queue. */
  lemma QuietMove(s: State, t: Tid, pc: Pc)
    requires QueueInv(s) && (PcOf(s, t).Waiting? <==> pc.Waiting?)
    ensures QueueInv(Goto(s, t, pc))
  {
    forall u ensures u in s.waiters <==> PcOf(Goto(s, t, pc), u).Waiting? {
      assert u in s.waiters <==> PcOf(s, u).Waiting?;
    }
  }

  /** A thread leaves the queue. */
  lemma LeaveQueue(s: State, t: Tid, pc: Pc, q: seq<Tid>)
    requires QueueInv(s) && !pc.Waiting? && Unique(q)
    requires forall u :: u in q <==> u in s.waiters && u != t
    ensures QueueInv(Goto(s, t, pc).(waiters := q))
  {
    var s' := Goto(s, t, pc).(waiters := q);
    forall u ensures u in q <==> PcOf(s', u).Waiting? {
      assert u in s.waiters <==> PcOf(s, u).Waiting?;
    }
  }

  /** What one dequeue does to the queue, the timers and the count of threads
      that are on their way. */
  lemma DequeueEffect(s: State, error: Error)
    requires QueueInv(s) && TimersInv(s)
    ensures QueueInv(Dequeue(s, error)) && TimersInv(Dequeue(s, error))
    ensures s.waiters == [] ==> Dequeue(s, error) == s
    ensures s.waiters != [] ==>
      var resumes := CanResume(PcOf(s, s.waiters[0]));
      var s' := Dequeue(s, error);
      s'.waiters == (if resumes then s.waiters[1..] else s.waiters)
      && |Pending(s'.pcs)| == |Pending(s.pcs)| + (if resumes && error == EOK then 1 else 0)
      && s'.missed == s.missed + (if resumes then 0 else 1)
  {
    if s.waiters != [] {
      var t := s.waiters[0];
      var s' := Dequeue(s, error);
      assert t in s.waiters;
      PendingMove(s.pcs, t, s'.pcs[t]);
      if CanResume(PcOf(s, t)) {
        assert forall u :: u in s.waiters <==> u == t || u in s.waiters[1..];
        LeaveQueue(s, t, s'.pcs[t], s.waiters[1..]);
      } else {
        QuietMove(s, t, s'.pcs[t]);
      }
    }
  }

  lemma FreeKeepsInv(s: State, b: Block, all: multiset<Block>)
    requires Inv(s, all) && b in s.held
    ensures Inv(FreeBlock(s, b), all)
  {
    DequeueEffect(Link(s, b), EOK);
  }

  lemma {:induction false} ResumeAllKeepsInv(s: State, all: multiset<Block>)
    requires Inv(s, all)
    ensures Inv(ResumeAll(s, ERROR), all)
    decreases |s.waiters|
  {
    var s' := Dequeue(s, ERROR);
    DequeueEffect(s, ERROR);
    if |s'.waiters| < |s.waiters| {
      ResumeAllKeepsInv(s', all);
    }
  }

  lemma SuspendKeepsInv(s: State, t: Tid, all: multiset<Block>)
    requires Inv(s, all) && PcOf(s, t).Trying? && s.free == 0 && PcOf(s, t).time != 0
    ensures Inv(TryAlloc(s, t, PcOf(s, t).time), all)
  {
    var s' := TryAlloc(s, t, PcOf(s, t).time);
    assert t !in s.waiters;
    forall u ensures u in s'.waiters <==> PcOf(s', u).Waiting? {
      assert u in s.waiters <==> PcOf(s, u).Waiting?;
    }
  }

  lemma TakeKeepsBlocks(s: State, t: Tid, time: int, all: multiset<Block>)
    requires BlocksInv(s, all)
    ensures BlocksInv(TryAlloc(s, t, time), all)
  {
    assert s.blocks != [] ==> s.blocks == [s.blocks[0]] + s.blocks[1..];
  }

  lemma TakeKeepsInv(s: State, t: Tid, all: multiset<Block>)
    requires Inv(s, all) && PcOf(s, t).Trying? && (s.free > 0 || PcOf(s, t).time == 0)
    ensures Inv(TryAlloc(s, t, PcOf(s, t).time), all)
  {
    TakeKeepsBlocks(s, t, PcOf(s, t).time, all);
    QuietMove(s, t, Idle);
    PendingMove(s.pcs, t, Idle);
  }

  lemma CallbackKeepsInv(s: State, t: Tid, all: multiset<Block>)
    requires Inv(s, all) && t in s.firing
    ensures Inv(Apply(s, Callback(t)), all)
  {
    var s' := Apply(s, Callback(t));
    if PcOf(s, t).Waiting? {
      assert t in s.waiters;
      WithoutRemoves(s.waiters, t);
      LeaveQueue(s, t, s'.pcs[t], s'.waiters);
      PendingMove(s.pcs, t, s'.pcs[t]);
    }
  }

  /** Call, Expire and Resume move one thread and touch no block. */
  lemma MoveKeepsInv(s: State, e: Step, all: multiset<Block>)
    requires Inv(s, all) && Enabled(s, e) && (e.Call? || e.Expire? || e.Resume?)
    ensures Inv(Apply(s, e), all)
  {
    var pc := Apply(s, e).pcs[e.t];
    QuietMove(s, e.t, pc);
    PendingMove(s.pcs, e.t, pc);
  }

  lemma StepKeepsInv(s: State, e: Step, all: multiset<Block>)
    requires Inv(s, all) && Enabled(s, e)
    ensures Inv(Apply(s, e), all)
  {
    match e
    case Enter(t) =>
      if s.free == 0 && PcOf(s, t).time != 0 {
        SuspendKeepsInv(s, t, all);
      } else {
        TakeKeepsInv(s, t, all);
      }
    case Callback(t) => CallbackKeepsInv(s, t, all);
    case Free(b) => FreeKeepsInv(s, b, all);
    case Detach => ResumeAllKeepsInv(s, all);
    case _ => MoveKeepsInv(s, e, all);
  }

  lemma {:induction false} RunKeepsInv(s: State, es: seq<Step>, s': State, all: multiset<Block>)
    requires Inv(s, all) && Run(s, es, s')
    ensures Inv(s', all)
    decreases |es|
  {
    if es != [] {
      StepKeepsInv(s, es[0], all);
      RunKeepsInv(Apply(s, es[0]), es[1..], s', all);
    }
  }

  // ----- results -----

  /** In every run blocks are conserved: each is on the free list or handed out
      once, and the counter is the length of the list, so a block is never held
      twice and the allocator's block_list assertion cannot fail. */
  lemma BlocksConserved(blocks: seq<Block>, es: seq<Step>, s: State)
    requires Run(Init(blocks), es, s)
    ensures multiset(s.blocks) + s.held == multiset(blocks) && s.free == |s.blocks|
    ensures (forall b :: multiset(blocks)[b] <= 1) ==> forall b :: s.held[b] <= 1 && (b in s.held ==> b !in s.blocks)
  {
    RunKeepsInv(Init(blocks), es, s, multiset(blocks));
    if forall b :: multiset(blocks)[b] <= 1 {
      forall b ensures s.held[b] <= 1 && (b in s.held ==> b !in s.blocks) {
        assert (multiset(s.blocks) + s.held)[b] == multiset(s.blocks)[b] + s.held[b] == multiset(blocks)[b];
      }
    }
  }

  /** A free is harmless when there is nobody to wake, the first waiter's timer
      can still be stopped, or woken threads outnumber the free blocks already. */
  predicate Harmless(s: State) {
    s.waiters == [] || CanResume(PcOf(s, s.waiters[0])) || s.free < |Pending(s.pcs)|
  }

  /** A free keeps the property exactly when it is harmless. */
  lemma FreeStrandsIff(s: State, b: Block, all: multiset<Block>)
    requires Inv(s, all) && NoStrand(s) && b in s.held
    ensures NoStrand(FreeBlock(s, b)) <==> Harmless(s)
  {
    DequeueEffect(Link(s, b), EOK);
  }

  lemma {:induction false} ResumeAllKeepsNoStrand(s: State)
    requires QueueInv(s) && TimersInv(s) && NoStrand(s)
    ensures NoStrand(ResumeAll(s, ERROR))
    decreases |s.waiters|
  {
    var s' := Dequeue(s, ERROR);
    DequeueEffect(s, ERROR);
    if |s'.waiters| < |s.waiters| {
      ResumeAllKeepsNoStrand(s');
    }
  }

  lemma AllocKeepsNoStrand(s: State, t: Tid, time: int)
    requires NoStrand(s) && PcOf(s, t).Trying?
    ensures NoStrand(TryAlloc(s, t, time))
  {
    PendingMove(s.pcs, t, TryAlloc(s, t, time).pcs[t]);
  }

  /** No other step strands a block. */
  lemma OthersKeepNoStrand(s: State, e: Step, all: multiset<Block>)
    requires Inv(s, all) && NoStrand(s) && Enabled(s, e) && !e.Free?
    ensures NoStrand(Apply(s, e))
  {
    if e.Detach? {
      ResumeAllKeepsNoStrand(s);
    } else if e.Enter? {
      AllocKeepsNoStrand(s, e.t, PcOf(s, e.t).time);
    } else {
      PendingMove(s.pcs, e.t, PcOf(Apply(s, e), e.t));
    }
  }

  /** The property holds in s and after every step of the run. */
  predicate NeverStrands(s: State, es: seq<Step>)
    decreases |es|
  {
    NoStrand(s) && (es == [] || !Enabled(s, es[0]) || NeverStrands(Apply(s, es[0]), es[1..]))
  }

  /** Every free of the run is harmless where it happens. */
  predicate FreesHarmlessly(s: State, es: seq<Step>)
    decreases |es|
  {
    es == [] || !Enabled(s, es[0]) ||
    ((es[0].Free? ==> Harmless(s)) && FreesHarmlessly(Apply(s, es[0]), es[1..]))
  }

  lemma {:induction false} StrandsIff(s: State, es: seq<Step>, s': State, all: multiset<Block>)
    requires Inv(s, all) && NoStrand(s) && Run(s, es, s')
    ensures NeverStrands(s, es) <==> FreesHarmlessly(s, es)
    decreases |es|
  {
    if es != [] {
      var m := Apply(s, es[0]);
      StepKeepsInv(s, es[0], all);
      if es[0].Free? {
        FreeStrandsIff(s, es[0].b, all);
      } else {
        OthersKeepNoStrand(s, es[0], all);
      }
      if NoStrand(m) {
        StrandsIff(m, es[1..], s', all);
      }
    }
  }

  /** In every run: whenever a thread waits there are no more free blocks than
      threads woken with EOK that are still on their way, exactly if every free of
      the run is harmless. */
  lemma NothingStrandedIff(blocks: seq<Block>, es: seq<Step>, s: State)
    requires Run(Init(blocks), es, s)
    ensures NeverStrands(Init(blocks), es) <==> FreesHarmlessly(Init(blocks), es)
  {
    StrandsIff(Init(blocks), es, s, multiset(blocks));
  }

  /** Nor does an assertion fail as long as no dequeue missed its waiter. */
  lemma NothingFails(blocks: seq<Block>, es: seq<Step>, s: State)
    requires Run(Init(blocks), es, s) && s.missed == 0
    ensures !s.failed
  {
    RunKeepsInv(Init(blocks), es, s, multiset(blocks));
  }

  // ----- what the calls answer -----

  function Ledger(out: multiset<Block>, e: Event): multiset<Block> {
    match e
    case Answered(_, block) => if block.Some? then out + multiset{block.value} else out
    case Freed(b) => out - multiset{b}
    case _ => out
  }

  /** The blocks that were answered and not freed since. */
  function Outstanding(hist: seq<Event>): multiset<Block> {
    if hist == [] then multiset{} else Ledger(Outstanding(hist[..|hist| - 1]), hist[|hist| - 1])
  }

  /** What is left of the time of a call after `slept` ticks of sleep; a negative
      time is forever. */
  function TimeLeft(time: int, slept: nat): int {
    if time <= 0 then time else if time <= slept then 0 else time - slept
  }

  /** What a history says of the call of one thread: the time it was called with
      and the ticks it slept so far. */
  datatype Phase =
    | Outside
    | In(time: int, slept: nat)
    | Asleep(time: int, slept: nat)
    | Awake(error: Error, time: int, slept: nat)
    | Failing
    | Broken

  /** A call may take a block; it sleeps only while the pool is empty and time is
      left; and it fails only after a sleep that ended with an error, or when the
      pool is empty and no time is left. */
  function NextPhase(p: Phase, e: Event, empty: bool): Phase {
    match e
    case Called(_, time) => if p == Outside then In(time, 0) else Broken
    case Slept(_) => if p.In? && empty && TimeLeft(p.time, p.slept) != 0 then Asleep(p.time, p.slept) else Broken
    case Woke(_, error) => if p.Asleep? then Awake(error, p.time, p.slept) else Broken
    case Ran(_, elapsed) =>
      if !p.Awake? then Broken else if p.error == EOK then In(p.time, p.slept + elapsed) else Failing
    case Answered(_, block) =>
      if block.Some? then (if p.In? && !empty then Outside else Broken)
      else if p.Failing? || (p.In? && empty && TimeLeft(p.time, p.slept) == 0) then Outside else Broken
    case Freed(_) => p
  }

  predicate IsOf(e: Event, t: Tid) {
    !e.Freed? && e.t == t
  }

  /** The pool has `total` blocks. */
  function PhaseOf(hist: seq<Event>, total: nat, t: Tid): Phase {
    if hist == [] then Outside else
    var last, before := hist[|hist| - 1], hist[..|hist| - 1];
    var p := PhaseOf(before, total, t);
    if IsOf(last, t) then NextPhase(p, last, |Outstanding(before)| == total) else p
  }

  predicate PhaseFits(pc: Pc, p: Phase) {
    match pc
    case Idle => p == Outside
    case Trying(time, _) => p.In? && time == TimeLeft(p.time, p.slept)
    case Waiting(time, _, _) => p.Asleep? && time == TimeLeft(p.time, p.slept)
    case Woken(error, time) => p.Awake? && p.error == error && time == TimeLeft(p.time, p.slept)
  }

  ghost predicate Logged(s: State, total: nat) {
    Outstanding(s.hist) == s.held && forall t: Tid :: PhaseFits(PcOf(s, t), PhaseOf(s.hist, total, t))
  }

  lemma Emitted(hist: seq<Event>, e: Event, total: nat, t: Tid)
    ensures PhaseOf(hist + [e], total, t) ==
      if IsOf(e, t) then NextPhase(PhaseOf(hist, total, t), e, |Outstanding(hist)| == total) else PhaseOf(hist, total, t)
  {
    assert (hist + [e])[..|hist|] == hist;
  }

  lemma EmittedBlocks(hist: seq<Event>, e: Event)
    ensures Outstanding(hist + [e]) == Ledger(Outstanding(hist), e)
  {
    assert (hist + [e])[..|hist|] == hist;
  }

  /** Thread t moves to pc with one event. */
  lemma MoveLogged(s: State, s': State, t: Tid, e: Event, total: nat)
    requires Logged(s, total) && s'.hist == s.hist + [e] && IsOf(e, t) && Outstanding(s'.hist) == s'.held
    requires forall u | u != t :: PcOf(s', u) == PcOf(s, u)
    requires PhaseFits(PcOf(s', t), NextPhase(PhaseOf(s.hist, total, t), e, |s.held| == total))
    ensures Logged(s', total)
  {
    forall u: Tid ensures PhaseFits(PcOf(s', u), PhaseOf(s'.hist, total, u)) {
      Emitted(s.hist, e, total, u);
      assert PhaseFits(PcOf(s, u), PhaseOf(s.hist, total, u));
    }
  }

  lemma EmptyIff(s: State, all: multiset<Block>)
    requires BlocksInv(s, all)
    ensures s.free == 0 <==> |s.held| == |all|
  {
    assert |multiset(s.blocks)| + |s.held| == |all|;
  }

  /** A thread changes its timer marks only. */
  lemma MarkLogged(s: State, s': State, t: Tid, total: nat)
    requires Logged(s, total) && s'.hist == s.hist && s'.held == s.held
    requires forall u | u != t :: PcOf(s', u) == PcOf(s, u)
    requires PcOf(s, t).Waiting? && PcOf(s', t).Waiting? && PcOf(s', t).time == PcOf(s, t).time
    ensures Logged(s', total)
  {
    forall u: Tid ensures PhaseFits(PcOf(s', u), PhaseOf(s'.hist, total, u)) {
      assert PhaseFits(PcOf(s, u), PhaseOf(s.hist, total, u));
    }
  }

  /** A waiting thread is woken. */
  lemma WakeLogged(s: State, s': State, t: Tid, error: Error, total: nat)
    requires Logged(s, total) && PcOf(s, t).Waiting? && s'.held == s.held
    requires s'.pcs == s.pcs[t := Woken(error, PcOf(s, t).time)] && s'.hist == s.hist + [Woke(t, error)]
    ensures Logged(s', total)
  {
    assert PhaseFits(PcOf(s, t), PhaseOf(s.hist, total, t));
    EmittedBlocks(s.hist, Woke(t, error));
    MoveLogged(s, s', t, Woke(t, error), total);
  }

  lemma DequeueLogged(s: State, error: Error, total: nat)
    requires Logged(s, total)
    ensures Logged(Dequeue(s, error), total)
  {
    if s.waiters != [] {
      var t := s.waiters[0];
      if CanResume(PcOf(s, t)) {
        WakeLogged(s, Dequeue(s, error), t, error, total);
      } else if PcOf(s, t).Waiting? {
        MarkLogged(s, Dequeue(s, error), t, total);
      }
    }
  }

  lemma {:induction false} ResumeAllLogged(s: State, error: Error, total: nat)
    requires Logged(s, total)
    ensures Logged(ResumeAll(s, error), total)
    decreases |s.waiters|
  {
    var s' := Dequeue(s, error);
    DequeueLogged(s, error, total);
    if |s'.waiters| < |s.waiters| {
      ResumeAllLogged(s', error, total);
    }
  }

  lemma FreeLogged(s: State, b: Block, total: nat)
    requires Logged(s, total) && b in s.held
    ensures Logged(FreeBlock(s, b), total)
  {
    var m := Link(s, b);
    EmittedBlocks(s.hist, Freed(b));
    forall u: Tid ensures PhaseFits(PcOf(m, u), PhaseOf(m.hist, total, u)) {
      Emitted(s.hist, Freed(b), total, u);
      assert PhaseFits(PcOf(s, u), PhaseOf(s.hist, total, u));
    }
    DequeueLogged(m, EOK, total);
  }

  function TryEvent(s: State, t: Tid, time: int): Event {
    if s.free == 0 then (if time == 0 then Answered(t, None) else Slept(t))
    else if s.blocks == [] then Slept(t)
    else Answered(t, Some(s.blocks[0]))
  }

  /** The locked region adds one event, which the phase allows. */
  lemma TryAllowed(s: State, t: Tid, p: Phase)
    requires s.free == |s.blocks| && PcOf(s, t).Trying? && PhaseFits(PcOf(s, t), p)
    ensures var e := TryEvent(s, t, PcOf(s, t).time); var s' := TryAlloc(s, t, PcOf(s, t).time);
      && s'.hist == s.hist + [e] && s'.held == Ledger(s.held, e)
      && (forall u | u != t :: PcOf(s', u) == PcOf(s, u))
      && PhaseFits(PcOf(s', t), NextPhase(p, e, s.free == 0))
  {
  }

  lemma TryLogged(s: State, t: Tid, all: multiset<Block>)
    requires Logged(s, |all|) && BlocksInv(s, all) && PcOf(s, t).Trying?
    ensures Logged(TryAlloc(s, t, PcOf(s, t).time), |all|)
  {
    var e := TryEvent(s, t, PcOf(s, t).time);
    assert PhaseFits(PcOf(s, t), PhaseOf(s.hist, |all|, t));
    EmptyIff(s, all);
    TryAllowed(s, t, PhaseOf(s.hist, |all|, t));
    EmittedBlocks(s.hist, e);
    MoveLogged(s, TryAlloc(s, t, PcOf(s, t).time), t, e, |all|);
  }

  lemma ElapseIs(time: int, slept: nat, elapsed: nat)
    ensures Elapse(TimeLeft(time, slept), elapsed) == TimeLeft(time, slept + elapsed)
  {
  }

  lemma RanLogged(s: State, t: Tid, elapsed: nat, total: nat)
    requires Logged(s, total) && PcOf(s, t).Woken? && PcOf(s, t).error == EOK
    ensures Logged(Apply(s, Resume(t, elapsed)), total)
  {
    var e, s', p := Ran(t, elapsed), Apply(s, Resume(t, elapsed)), PhaseOf(s.hist, total, t);
    assert PhaseFits(PcOf(s, t), p);
    EmittedBlocks(s.hist, e);
    ElapseIs(p.time, p.slept, elapsed);
    assert PcOf(s', t) == Trying(Elapse(PcOf(s, t).time, elapsed), true);
    assert PhaseFits(PcOf(s', t), NextPhase(p, e, |s.held| == total));
    MoveLogged(s, s', t, e, total);
  }

  lemma EmittedTwo(hist: seq<Event>, a: Event, b: Event, total: nat, t: Tid, u: Tid)
    requires a.Ran? && b == Answered(t, None) && a.t == t
    ensures Outstanding(hist + [a] + [b]) == Outstanding(hist)
    ensures PhaseOf(hist + [a] + [b], total, u) ==
      var p := PhaseOf(hist, total, u);
      if u != t then p else if p.Awake? && p.error != EOK then Outside else PhaseOf(hist + [a] + [b], total, t)
  {
    EmittedBlocks(hist, a);
    EmittedBlocks(hist + [a], b);
    Emitted(hist, a, total, u);
    Emitted(hist + [a], b, total, u);
  }

  lemma FailedLogged(s: State, t: Tid, elapsed: nat, total: nat)
    requires Logged(s, total) && PcOf(s, t).Woken? && PcOf(s, t).error != EOK
    ensures Logged(Apply(s, Resume(t, elapsed)), total)
  {
    var s' := Apply(s, Resume(t, elapsed));
    assert s'.held == s.held && s'.hist == s.hist + [Ran(t, elapsed)] + [Answered(t, None)];
    EmittedTwo(s.hist, Ran(t, elapsed), Answered(t, None), total, t, t);
    forall u: Tid ensures PhaseFits(PcOf(s', u), PhaseOf(s'.hist, total, u)) {
      assert PhaseFits(PcOf(s, u), PhaseOf(s.hist, total, u));
      EmittedTwo(s.hist, Ran(t, elapsed), Answered(t, None), total, t, u);
    }
  }

  lemma CallbackLogged(s: State, t: Tid, total: nat)
    requires Logged(s, total) && t in s.firing
    ensures Logged(Apply(s, Callback(t)), total)
  {
    if PcOf(s, t).Waiting? {
      WakeLogged(s, Apply(s, Callback(t)), t, ETIMEOUT, total);
    }
  }

  lemma CallLogged(s: State, t: Tid, time: int, total: nat)
    requires Logged(s, total) && PcOf(s, t) == Idle
    ensures Logged(Apply(s, Call(t, time)), total)
  {
    assert PhaseFits(PcOf(s, t), PhaseOf(s.hist, total, t));
    EmittedBlocks(s.hist, Called(t, time));
    MoveLogged(s, Apply(s, Call(t, time)), t, Called(t, time), total);
  }

  lemma StepKeepsLogged(s: State, e: Step, all: multiset<Block>)
    requires Inv(s, all) && Logged(s, |all|) && Enabled(s, e)
    ensures Logged(Apply(s, e), |all|)
  {
    match e
    case Call(t, time) => CallLogged(s, t, time, |all|);
    case Enter(t) => TryLogged(s, t, all);
    case Expire(t) => MarkLogged(s, Apply(s, e), t, |all|);
    case Callback(t) => CallbackLogged(s, t, |all|);
    case Resume(t, elapsed) =>
      if PcOf(s, t).error == EOK {
        RanLogged(s, t, elapsed, |all|);
      } else {
        FailedLogged(s, t, elapsed, |all|);
      }
    case Free(b) => FreeLogged(s, b, |all|);
    case Detach => ResumeAllLogged(s, ERROR, |all|);
  }

  lemma {:induction false} RunKeepsLogged(s: State, es: seq<Step>, s': State, all: multiset<Block>)
    requires Inv(s, all) && Logged(s, |all|) && Run(s, es, s')
    ensures Logged(s', |all|)
    decreases |es|
  {
    if es != [] {
      StepKeepsInv(s, es[0], all);
      StepKeepsLogged(s, es[0], all);
      RunKeepsLogged(Apply(s, es[0]), es[1..], s', all);
    }
  }

  /** In every run every call keeps to NextPhase: woken with an error it answers
      NULL in the step in which it runs again, and NULL is answered for no other
      reason than that, or an empty pool with no time left of what the call was
      given less the ticks it slept.  A thread is back exactly when its call was
      answered and queued exactly while it sleeps, and the blocks handed out are those answered and not freed. */
  lemma CallsAnswer(blocks: seq<Block>, es: seq<Step>, s: State, t: Tid)
    requires Run(Init(blocks), es, s)
    ensures var p := PhaseOf(s.hist, |blocks|, t);
      && p != Broken && p != Failing
      && (PcOf(s, t) == Idle <==> p == Outside)
      && (PcOf(s, t).Waiting? <==> p.Asleep?) && (PcOf(s, t).Woken? <==> p.Awake?)
      && (t in s.waiters <==> p.Asleep?)
    ensures Outstanding(s.hist) == s.held
  {
    RunKeepsInv(Init(blocks), es, s, multiset(blocks));
    RunKeepsLogged(Init(blocks), es, s, multiset(blocks));
    assert PhaseFits(PcOf(s, t), PhaseOf(s.hist, |blocks|, t));
  }

  lemma {:induction false} ResumeAllLeaves(s: State, error: Error, t: Tid)
    requires t !in s.waiters
    ensures var s' := ResumeAll(s, error);
      PcOf(s', t) == PcOf(s, t) && s'.free == s.free && s'.blocks == s.blocks && s'.held == s.held
    decreases |s.waiters|
  {
    var s' := Dequeue(s, error);
    if |s'.waiters| < |s.waiters| {
      ResumeAllLeaves(s', error, t);
    }
  }

  /** The first k waiters, and no more, can be resumed. */
  ghost predicate Resumable(s: State, k: nat) {
    && k <= |s.waiters|
    && (forall i | 0 <= i < k :: CanResume(PcOf(s, s.waiters[i])))
    && (k < |s.waiters| ==> !CanResume(PcOf(s, s.waiters[k])))
  }

  lemma ResumableNext(s: State, error: Error, k: nat)
    requires QueueInv(s) && TimersInv(s) && Resumable(s, k) && k > 0
    ensures var s' := Dequeue(s, error);
      QueueInv(s') && TimersInv(s') && Resumable(s', k - 1) && s'.waiters == s.waiters[1..]
      && (forall t | t != s.waiters[0] :: PcOf(s', t) == PcOf(s, t))
      && PcOf(s', s.waiters[0]) == Woken(error, PcOf(s, s.waiters[0]).time)
  {
    var s' := Dequeue(s, error);
    DequeueEffect(s, error);
    forall i | 0 <= i < |s'.waiters| ensures PcOf(s', s'.waiters[i]) == PcOf(s, s.waiters[i + 1]) {
      assert s'.waiters[i] == s.waiters[i + 1] != s.waiters[0];
    }
  }

  /** The waiters before the first that cannot be resumed leave the queue; each is
      woken with `error`. */
  lemma {:induction false} ResumeAllStops(s: State, error: Error, k: nat)
    requires QueueInv(s) && TimersInv(s) && Resumable(s, k)
    ensures ResumeAll(s, error).waiters == s.waiters[k..]
    decreases |s.waiters|
  {
    if k > 0 {
      ResumableNext(s, error, k);
      ResumeAllStops(Dequeue(s, error), error, k - 1);
    }
  }

  lemma {:induction false} ResumeAllWakes(s: State, error: Error, k: nat, i: nat)
    requires QueueInv(s) && TimersInv(s) && Resumable(s, k) && i < k
    ensures PcOf(ResumeAll(s, error), s.waiters[i]) == Woken(error, PcOf(s, s.waiters[i]).time)
    decreases |s.waiters|
  {
    var s' := Dequeue(s, error);
    ResumableNext(s, error, k);
    if i == 0 {
      ResumeAllLeaves(s', error, s.waiters[0]);
    } else {
      assert s'.waiters[i - 1] == s.waiters[i] != s.waiters[0];
      ResumeAllWakes(s', error, k - 1, i - 1);
    }
  }

  /** A detach in any run leaves the queue empty exactly when every waiter's timer
      can be stopped, and then every waiter is woken with ERROR, the error for
      which CallsAnswer has its call answer NULL. */
  lemma DetachWakes(blocks: seq<Block>, es: seq<Step>, s: State)
    requires Run(Init(blocks), es, s)
    ensures var s' := Apply(s, Detach);
      && (s'.waiters == [] <==> forall t | t in s.waiters :: CanResume(PcOf(s, t)))
      && (s'.waiters == [] ==> forall t | t in s.waiters :: PcOf(s', t) == Woken(ERROR, PcOf(s, t).time))
  {
    RunKeepsInv(Init(blocks), es, s, multiset(blocks));
    var k := Wakeable(s, s.waiters);
    ResumeAllStops(s, ERROR, k);
    forall i | 0 <= i < k ensures PcOf(Apply(s, Detach), s.waiters[i]) == Woken(ERROR, PcOf(s, s.waiters[i]).time) {
      ResumeAllWakes(s, ERROR, k, i);
    }
    if k < |s.waiters| {
      assert s.waiters[k] in s.waiters && Apply(s, Detach).waiters[0] == s.waiters[k];
    }
  }

  /** The number of waiters in front that can be resumed. */
  function Wakeable(s: State, q: seq<Tid>): (k: nat)
    ensures k <= |q| && (forall i | 0 <= i < k :: CanResume(PcOf(s, q[i])))
    ensures k < |q| ==> !CanResume(PcOf(s, q[k]))
  {
    if q == [] || !CanResume(PcOf(s, q[0])) then 0 else 1 + Wakeable(s, q[1..])
  }

  // ----- the order of the waiters -----

  /** The threads asleep, longest asleep first. */
  function Sleepers(hist: seq<Event>): seq<Tid> {
    if hist == [] then [] else
    var q := Sleepers(hist[..|hist| - 1]);
    match hist[|hist| - 1]
    case Slept(t) => q + [t]
    case Woke(t, _) => Without(q, t)
    case _ => q
  }

  lemma SleepersEmit(hist: seq<Event>, e: Event)
    ensures Sleepers(hist + [e]) ==
      if e.Slept? then Sleepers(hist) + [e.t] else if e.Woke? then Without(Sleepers(hist), e.t) else Sleepers(hist)
  {
    assert (hist + [e])[..|hist|] == hist;
  }

  predicate InOrder(s: State) {
    s.waiters == Sleepers(s.hist)
  }

  lemma DequeueInOrder(s: State, error: Error)
    requires InOrder(s)
    ensures InOrder(Dequeue(s, error))
  {
    if s.waiters != [] {
      SleepersEmit(s.hist, Woke(s.waiters[0], error));
    }
  }

  lemma {:induction false} ResumeAllInOrder(s: State, error: Error)
    requires InOrder(s)
    ensures InOrder(ResumeAll(s, error))
    decreases |s.waiters|
  {
    var s' := Dequeue(s, error);
    DequeueInOrder(s, error);
    if |s'.waiters| < |s.waiters| {
      ResumeAllInOrder(s', error);
    }
  }

  lemma ResumeInOrder(s: State, t: Tid, elapsed: nat)
    requires InOrder(s) && Enabled(s, Resume(t, elapsed))
    ensures InOrder(Apply(s, Resume(t, elapsed)))
  {
    SleepersEmit(s.hist, Ran(t, elapsed));
    SleepersEmit(s.hist + [Ran(t, elapsed)], Answered(t, None));
  }

  lemma StepInOrder(s: State, e: Step)
    requires InOrder(s) && Enabled(s, e)
    ensures InOrder(Apply(s, e))
  {
    match e
    case Call(t, time) => SleepersEmit(s.hist, Called(t, time));
    case Enter(t) => SleepersEmit(s.hist, TryEvent(s, t, PcOf(s, t).time));
    case Callback(t) => SleepersEmit(s.hist, Woke(t, ETIMEOUT));
    case Free(b) =>
      SleepersEmit(s.hist, Freed(b));
      DequeueInOrder(Link(s, b), EOK);
    case Detach => ResumeAllInOrder(s, ERROR);
    case Resume(t, elapsed) => ResumeInOrder(s, t, elapsed);
    case Expire(_) =>
  }

  lemma {:induction false} RunInOrder(s: State, es: seq<Step>, s': State)
    requires InOrder(s) && Run(s, es, s')
    ensures InOrder(s')
    decreases |es|
  {
    if es != [] {
      StepInOrder(s, es[0]);
      RunInOrder(Apply(s, es[0]), es[1..], s');
    }
  }

  /** In every run the pool serves in turn: a free that wakes a thread wakes the one
      that has been asleep the longest. */
  lemma LongestWaiterFirst(blocks: seq<Block>, es: seq<Step>, s: State, b: Block)
    requires Run(Init(blocks), es, s) && b in s.held
    ensures s.waiters == Sleepers(s.hist)
    ensures var s' := FreeBlock(s, b);
      s'.hist == s.hist + [Freed(b)] ||
      (Sleepers(s.hist) != [] && s'.hist == s.hist + [Freed(b)] + [Woke(Sleepers(s.hist)[0], EOK)])
  {
    RunInOrder(Init(blocks), es, s);
  }

  // ----- when a timer callback fails -----

  /** Threads that a dequeue resumed although their callback was still to run. */
  function Orphaned(s: State, e: Step, orphans: set<Tid>): set<Tid>
    requires Enabled(s, e)
  {
    match e
    case Callback(t) => orphans - {t}
    case Free(_) => orphans + Left(s, Apply(s, e))
    case Detach => orphans + Left(s, Apply(s, e))
    case _ => orphans
  }

  function Left(s: State, s': State): set<Tid> {
    set t | t in s.firing && PcOf(s, t).Waiting? && !PcOf(s', t).Waiting?
  }

  function Orphans(s: State, es: seq<Step>, orphans: set<Tid>): set<Tid>
    decreases |es|
  {
    if es == [] || !Enabled(s, es[0]) then orphans
    else Orphans(Apply(s, es[0]), es[1..], Orphaned(s, es[0], orphans))
  }

  predicate Known(s: State, orphans: set<Tid>) {
    orphans <= s.firing && forall t | t in s.firing :: PcOf(s, t).Waiting? || t in orphans
  }

  lemma {:induction false} ResumeAllKeepsTimers(s: State, error: Error)
    ensures ResumeAll(s, error).firing == s.firing && ResumeAll(s, error).failed == s.failed
    decreases |s.waiters|
  {
    var s' := Dequeue(s, error);
    if |s'.waiters| < |s.waiters| {
      ResumeAllKeepsTimers(s', error);
    }
  }

  lemma LeftKeepsKnown(s: State, s': State, orphans: set<Tid>)
    requires Known(s, orphans) && s'.firing == s.firing
    ensures Known(s', orphans + Left(s, s'))
  {
  }

  /** A step that moves one thread and makes it leave no wait. */
  lemma MoveKeepsKnown(s: State, s': State, t: Tid, orphans: set<Tid>)
    requires Known(s, orphans) && (s'.firing == s.firing || s'.firing == s.firing + {t})
    requires forall u | u != t :: PcOf(s', u) == PcOf(s, u)
    requires t in s'.firing && (PcOf(s, t).Waiting? || t !in s.firing) ==> PcOf(s', t).Waiting?
    ensures Known(s', orphans)
  {
  }

  lemma CallbackKeepsKnown(s: State, t: Tid, orphans: set<Tid>)
    requires Known(s, orphans) && t in s.firing
    ensures Known(Apply(s, Callback(t)), orphans - {t})
  {
    var s' := Apply(s, Callback(t));
    assert forall u | u in s'.firing :: PcOf(s', u) == PcOf(s, u);
  }

  lemma QuietKeepsKnown(s: State, e: Step, orphans: set<Tid>)
    requires Known(s, orphans) && Enabled(s, e) && (e.Call? || e.Enter? || e.Expire? || e.Resume?)
    ensures Known(Apply(s, e), orphans)
  {
    MoveKeepsKnown(s, Apply(s, e), e.t, orphans);
  }

  lemma StepKeepsKnown(s: State, e: Step, orphans: set<Tid>)
    requires Known(s, orphans) && Enabled(s, e)
    ensures Known(Apply(s, e), Orphaned(s, e, orphans))
  {
    match e
    case Callback(t) => CallbackKeepsKnown(s, t, orphans);
    case Free(b) => LeftKeepsKnown(s, Apply(s, e), orphans);
    case Detach =>
      ResumeAllKeepsTimers(s, ERROR);
      LeftKeepsKnown(s, Apply(s, e), orphans);
    case _ => QuietKeepsKnown(s, e, orphans);
  }

  lemma {:induction false} RunKeepsKnown(s: State, es: seq<Step>, s': State, orphans: set<Tid>)
    requires Known(s, orphans) && Run(s, es, s')
    ensures Known(s', Orphans(s, es, orphans))
    decreases |es|
  {
    if es != [] {
      StepKeepsKnown(s, es[0], orphans);
      RunKeepsKnown(Apply(s, es[0]), es[1..], s', Orphaned(s, es[0], orphans));
    }
  }

  /** In every run an assertion fails exactly in a callback of a thread that a
      dequeue resumed after its timer expired and that is not waiting again. */
  lemma FailsIff(blocks: seq<Block>, es: seq<Step>, s: State, e: Step)
    requires Run(Init(blocks), es, s) && Enabled(s, e) && !s.failed
    ensures Apply(s, e).failed <==>
      e.Callback? && e.t in Orphans(Init(blocks), es, {}) && !PcOf(s, e.t).Waiting?
  {
    RunKeepsInv(Init(blocks), es, s, multiset(blocks));
    RunKeepsKnown(Init(blocks), es, s, {});
    if e.Detach? {
      ResumeAllKeepsTimers(s, ERROR);
    }
  }

  ghost predicate Reaches(s: State, s': State) {
    exists es :: Run(s, es, s')
  }

  lemma {:induction false} RunAppend(s: State, es: seq<Step>, m: State, e: Step)
    requires Run(s, es, m) && Enabled(m, e)
    ensures Run(s, es + [e], Apply(m, e))
    decreases |es|
  {
    if es == [] {
      assert ([e])[1..] == [];
    } else {
      assert (es + [e])[1..] == es[1..] + [e];
      RunAppend(Apply(s, es[0]), es[1..], m, e);
    }
  }

  lemma Next(s: State, m: State, e: Step) returns (m': State)
    requires Reaches(s, m) && Enabled(m, e)
    ensures Reaches(s, m') && m' == Apply(m, e)
  {
    var es :| Run(s, es, m);
    RunAppend(s, es, m, e);
    m' := Apply(m, e);
  }

  /** A caller that finds the pool empty joins the end of the queue. */
  lemma Suspends(i: State, s: State, t: Tid, time: int) returns (s': State)
    requires Reaches(i, s) && s.free == 0 && t !in s.pcs && time != 0
    ensures Reaches(i, s')
    ensures s' == s.(waiters := s.waiters + [t], pcs := s.pcs[t := Waiting(time, time > 0, time > 0)], hist := s'.hist)
  {
    s' := Next(i, s, Call(t, time));
    s' := Next(i, s', Enter(t));
  }

  /** Thread 0 holds the only block. */
  lemma OneHolds() returns (s: State)
    ensures Reaches(Init([5]), s)
    ensures s == State(0, [], multiset{5}, [], map[0 := Idle], {}, 0, false, s.hist)
  {
    var i := Init([5]);
    assert Run(i, [], i);
    s := Next(i, i, Call(0, 0));
    s := Next(i, s, Enter(0));
  }

  /** Thread 1 then waits for at most 10 ticks and thread 2 waits forever. */
  lemma TwoWait() returns (s: State)
    ensures Reaches(Init([5]), s)
    ensures s == State(0, [], multiset{5}, [1, 2],
                       map[0 := Idle, 1 := Waiting(10, true, true), 2 := Waiting(-1, false, false)], {}, 0, false, s.hist)
  {
    s := OneHolds();
    s := Suspends(Init([5]), s, 1, 10);
    s := Suspends(Init([5]), s, 2, -1);
  }

  /** A run that strands a block: thread 1's timer expires, the block is freed
      before the callback runs, and the callback then ends thread 1's wait.  The
      block is free, thread 2 waits and nobody is on the way. */
  lemma StrandedRun() returns (s: State)
    ensures Reaches(Init([5]), s)
    ensures s.waiters == [2] && s.free == 1 && Pending(s.pcs) == {} && !NoStrand(s) && s.missed == 1
  {
    s := MissedFree();
    s := Next(Init([5]), s, Callback(1));
  }

  /** Thread 1's timer expires and the block is freed before its callback runs. */
  lemma MissedFree() returns (s: State)
    ensures Reaches(Init([5]), s)
    ensures s == State(1, [5], multiset{}, [1, 2],
                       map[0 := Idle, 1 := Waiting(10, false, false), 2 := Waiting(-1, false, false)], {1}, 1, false, s.hist)
  {
    s := TwoWait();
    s := Next(Init([5]), s, Expire(1));
    s := Next(Init([5]), s, Free(5));
  }

  /** A run in which the assertion of the timeout callback fails: two frees wake
      thread 1, the first of them in vain, between the expiry and the callback. */
  lemma FailedRun() returns (s: State)
    ensures Reaches(Init([5]), s) && s.failed
  {
    var i := Init([5]);
    s := MissedFree();
    s := OrphanMade(i, s);
    s := Next(i, s, Callback(1));
  }

  /** Another thread takes the block and frees it again. */
  lemma OrphanMade(i: State, s: State) returns (s': State)
    requires Reaches(i, s) && 3 !in s.pcs && s.free == 1 && s.blocks == [5] && s.waiters == [1, 2]
    requires 1 in s.pcs && s.pcs[1].Waiting? && !s.pcs[1].timerSet && 1 in s.firing && !s.failed
    ensures Reaches(i, s') && 1 in s'.firing && 1 in s'.pcs && !s'.pcs[1].Waiting?
  {
    s' := Next(i, s, Call(3, 0));
    s' := Next(i, s', Enter(3));
    s' := Next(i, s', Free(5));
  }
}
