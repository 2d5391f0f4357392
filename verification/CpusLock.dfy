/** The global CPU lock of rt-thread/src/cpu_mp.c: `rt_cpus_lock` and
    `rt_cpus_unlock` over one hardware spin lock, with a nest count for each
    thread and one saved critical level.

    Every access to shared state is a step of its own and the steps of all CPUs
    interleave freely.  Each CPU runs one thread, or none before the scheduler
    starts, for the whole run.  Between lock calls a thread may enter and leave
    critical sections of its own, as long as it leaves what it entered last. */
module CpusLock {
  import opened Nesting
  import opened Wrappers

  type Cpu = nat

  /** The IRQ state a lock call saved, and the critical level it was made at. */
  datatype Saved = Saved(irq: bool, level: nat)

  datatype Pc =
    | Outside                // not inside either function
    | Disabled               // lock: IRQs are off, the nest count is next
    | FirstNest              // lock: this is the outermost call, enter critical
    | Spinning               // lock: waiting for the spin lock
    | Acquired               // lock: about to save the critical level
    | Unnesting              // unlock: about to count down
    | LastNest               // unlock: about to fetch the saved level
    | Fetched(level: nat)    // unlock: about to release the spin lock
    | Released(level: nat)   // unlock: about to exit critical with the level
    | Restoring              // unlock: about to restore the IRQ state

  /** `nest` is cpus_lock_nest, `critical` the thread's critical level, `open`
      what it has open, last first, `irq` whether the CPU takes interrupts. */
  datatype Local = Local(threaded: bool, pc: Pc, nest: nat, critical: nat, irq: bool, open: seq<Frame<Saved>>)

  /** `holder` has the spin lock, `saved` is _cpus_critical_level, `clean` says
      that every rt_exit_critical_safe so far was given the current level. */
  datatype State = State(holder: Option<Cpu>, saved: nat, cpus: map<Cpu, Local>, clean: bool)

  datatype Step =
    | Lock(c: Cpu)
    | Unlock(c: Cpu)
    | EnterCritical(c: Cpu)
    | ExitCritical(c: Cpu)
    | Advance(c: Cpu)

  function Put(s: State, c: Cpu, l: Local): State {
    s.(cpus := s.cpus[c := l])
  }

  predicate Enabled(s: State, e: Step) {
    e.c in s.cpus &&
    var l := s.cpus[e.c];
    match e
    case Lock(_) => l.pc == Outside
    case Unlock(_) => l.pc == Outside && l.open != [] && l.open[0].LockFrame?
    case EnterCritical(_) => l.pc == Outside && l.threaded
    case ExitCritical(_) => l.pc == Outside && l.threaded && l.open != [] && l.open[0].CriticalFrame?
    case Advance(c) => l.pc != Outside && (l.pc == Spinning ==> s.holder == None)
  }

  function Apply(s: State, e: Step): State
    requires Enabled(s, e)
  {
    var l := s.cpus[e.c];
    match e
    case Lock(c) =>
      Put(s, c, l.(pc := if l.threaded then Disabled else Outside, irq := false,
                   open := [LockFrame(Saved(l.irq, l.critical))] + l.open))
    case Unlock(c) => Put(s, c, l.(pc := if l.threaded then Unnesting else Restoring))
    case EnterCritical(c) => Put(s, c, l.(critical := l.critical + 1, open := [CriticalFrame] + l.open))
    case ExitCritical(c) => Put(s, c, l.(critical := if l.critical > 0 then l.critical - 1 else 0, open := l.open[1..]))
    case Advance(c) => Continue(s, c, l)
  }

  /** The step's effect on the CPU and its thread. */
  function Move(l: Local, saved: nat): Local {
    match l.pc
    case Outside => l
    case Disabled => l.(nest := l.nest + 1, pc := if l.nest == 0 then FirstNest else Outside)
    case FirstNest => l.(critical := l.critical + 1, pc := Spinning)
    case Spinning => l.(pc := Acquired)
    case Acquired => l.(pc := Outside)
    case Unnesting =>
      if l.nest == 0 then l else l.(nest := l.nest - 1, pc := if l.nest == 1 then LastNest else Restoring)
    case LastNest => l.(pc := Fetched(saved))
    case Fetched(level) => l.(pc := Released(level))
    case Released(level) => l.(critical := if l.critical > 0 then l.critical - 1 else 0, pc := Restoring)
    case Restoring =>
      if l.open != [] && l.open[0].LockFrame? then l.(irq := l.open[0].saved.irq, open := l.open[1..], pc := Outside) else l
  }

  /** The step's effect on the saved level. */
  function NextSaved(l: Local, saved: nat): nat {
    if l.pc == Acquired then l.critical else if l.pc == LastNest then 0 else saved
  }

  function Continue(s: State, c: Cpu, l: Local): State {
    State(
      if l.pc == Spinning then Some(c) else if l.pc.Fetched? then None else s.holder,
      NextSaved(l, s.saved),
      s.cpus[c := Move(l, s.saved)],
      s.clean && (l.pc.Released? ==> l.pc.level == l.critical))
  }

  ghost predicate Run(s: State, es: seq<Step>, s': State)
    decreases |es|
  {
    if es == [] then s == s'
    else Enabled(s, es[0]) && Run(Apply(s, es[0]), es[1..], s')
  }

  /** Nobody is inside, every CPU takes interrupts, no section is open. */
  ghost predicate Init(s: State) {
    s.holder == None && s.saved == 0 && s.clean &&
    forall c | c in s.cpus ::
      var l := s.cpus[c];
      l.pc == Outside && l.nest == 0 && l.irq && l.open == [] && l.critical == 0
  }

  // ----- the invariant -----

  /** Every frame saved what held when it was opened: an outermost lock call
      saved enabled interrupts, an inner one disabled ones, and each lock call
      the level its frames explain. */
  predicate FramesFit(open: seq<Frame<Saved>>, threaded: bool)
    decreases |open|
  {
    open == [] ||
    (FramesFit(open[1..], threaded) &&
     (open[0].LockFrame? ==>
        open[0].saved.irq == (Locks(open[1..]) == 0)
        && open[0].saved.level == Criticals(open[1..]) + (if threaded && Locks(open[1..]) > 0 then 1 else 0)))
  }

  /** The pcs at which the CPU has counted itself as having the lock. */
  predicate Holding(l: Local) {
    l.pc == Acquired || l.pc == LastNest || l.pc.Fetched?
    || (l.nest > 0 && l.pc != FirstNest && l.pc != Spinning)
  }

  /** The holder has saved its level and not fetched it back. */
  predicate SavedCounts(l: Local) {
    l.threaded && Holding(l) && l.pc != Acquired && !l.pc.Fetched?
  }

  /** The nest count agrees with the open lock calls. */
  predicate NestFits(l: Local) {
    match l.pc
    case Outside => l.nest == Locks(l.open)
    case Disabled => l.nest + 1 == Locks(l.open)
    case FirstNest => l.nest == 1 == Locks(l.open)
    case Spinning => l.nest == 1 == Locks(l.open)
    case Acquired => l.nest == 1 == Locks(l.open)
    case Unnesting => l.nest == Locks(l.open)
    case LastNest => l.nest == 0 && Locks(l.open) == 1
    case Fetched(_) => l.nest == 0 && Locks(l.open) == 1
    case Released(_) => l.nest == 0 && Locks(l.open) == 1
    case Restoring => l.nest + 1 == Locks(l.open)
  }

  /** The critical level counts the open sections, and one for the lock. */
  predicate LevelFits(l: Local) {
    l.critical == Criticals(l.open) +
      (if l.pc == FirstNest then 0
       else if l.pc == Spinning || l.pc == LastNest || l.pc.Fetched? || l.pc.Released? || l.nest > 0 then 1 else 0)
  }

  /** What one CPU's state must satisfy, given the saved level. */
  predicate LocalInv(l: Local, saved: nat) {
    && FramesFit(l.open, l.threaded)
    && (l.threaded ==> NestFits(l) && LevelFits(l))
    && (!l.threaded ==>
          l.nest == 0 && l.critical == 0 && Criticals(l.open) == 0 && (l.pc == Outside || l.pc == Restoring))
    && (l.irq <==> Locks(l.open) == 0)
    && (l.pc != Outside ==> l.open != [] && l.open[0].LockFrame?)
    && (SavedCounts(l) ==> saved == Beneath(l.open) + 1)
    && (l.threaded && Holding(l) && !SavedCounts(l) ==> saved == 0)
    && (l.pc.Fetched? || l.pc.Released? ==> l.pc.level == l.critical)
  }

  /** The spin lock is held by exactly the CPU that counts itself as having it. */
  ghost predicate Exclusive(s: State) {
    forall c | c in s.cpus :: s.cpus[c].threaded && Holding(s.cpus[c]) <==> s.holder == Some(c)
  }

  ghost predicate Locals(s: State) {
    forall c | c in s.cpus :: LocalInv(s.cpus[c], s.saved)
  }

  ghost predicate Inv(s: State) {
    s.clean && Exclusive(s) && Locals(s) && (s.holder == None ==> s.saved == 0)
  }

  /** The local part of a call or of a critical section of the thread's own. */
  lemma CallKeepsLocal(s: State, e: Step)
    requires Inv(s) && Enabled(s, e) && !e.Advance?
    ensures LocalInv(Apply(s, e).cpus[e.c], s.saved)
    ensures Holding(Apply(s, e).cpus[e.c]) <==> Holding(s.cpus[e.c])
  {
    var l, l' := s.cpus[e.c], Apply(s, e).cpus[e.c];
    if e.Lock? || e.EnterCritical? {
      assert l'.open[1..] == l.open;
    }
  }

  /** The local part of a step inside rt_cpus_lock. */
  lemma LockKeepsLocal(l: Local, saved: nat)
    requires LocalInv(l, saved) && (l.pc == Disabled || l.pc == FirstNest || l.pc == Spinning || l.pc == Acquired)
    requires l.pc == Spinning ==> saved == 0
    ensures LocalInv(Move(l, saved), NextSaved(l, saved))
  {
  }

  /** The local part of a step inside rt_cpus_unlock. */
  lemma UnlockKeepsLocal(l: Local, saved: nat)
    requires LocalInv(l, saved) && (l.pc == Unnesting || l.pc == LastNest || l.pc.Fetched? || l.pc.Released? || l.pc == Restoring)
    ensures LocalInv(Move(l, saved), NextSaved(l, saved))
  {
    assert l.open == [l.open[0]] + l.open[1..];
  }

  /** Other CPUs see no difference they depend on. */
  lemma OthersKeepLocal(s: State, c: Cpu, d: Cpu)
    requires Inv(s) && Enabled(s, Advance(c)) && d in s.cpus && d != c
    ensures LocalInv(s.cpus[d], NextSaved(s.cpus[c], s.saved))
  {
    assert s.cpus[d].threaded && Holding(s.cpus[d]) ==> s.holder == Some(d);
    if s.cpus[c].pc == Acquired || s.cpus[c].pc == LastNest {
      assert Holding(s.cpus[c]) && s.cpus[c].threaded && s.holder == Some(c);
    }
  }

  lemma AdvanceKeepsLocals(s: State, c: Cpu)
    requires Inv(s) && Enabled(s, Advance(c))
    ensures Locals(Apply(s, Advance(c)))
  {
    var l := s.cpus[c];
    assert LocalInv(l, s.saved);
    if l.pc == Disabled || l.pc == FirstNest || l.pc == Spinning || l.pc == Acquired {
      LockKeepsLocal(l, s.saved);
    } else {
      UnlockKeepsLocal(l, s.saved);
    }
    forall d | d in s.cpus && d != c ensures LocalInv(s.cpus[d], NextSaved(l, s.saved)) {
      OthersKeepLocal(s, c, d);
    }
  }

  lemma AdvanceKeepsInv(s: State, c: Cpu)
    requires Inv(s) && Enabled(s, Advance(c))
    ensures Inv(Apply(s, Advance(c)))
  {
    AdvanceKeepsLocals(s, c);
    SharedStep(s, c);
  }

  lemma StepKeepsInv(s: State, e: Step)
    requires Inv(s) && Enabled(s, e)
    ensures Inv(Apply(s, e))
  {
    if e.Advance? {
      AdvanceKeepsInv(s, e.c);
    } else {
      CallKeepsLocal(s, e);
    }
  }

  /** What one step may do to the shared words: only the holder changes the
      saved level or gives the lock up, and the lock is taken only when free. */
  lemma SharedStep(s: State, c: Cpu)
    requires Inv(s) && Enabled(s, Advance(c))
    ensures var s' := Apply(s, Advance(c));
      (s'.saved != s.saved || (s'.holder != s.holder && s.holder != None) ==> s.holder == Some(c))
      && (s'.holder != s.holder && s.holder == None ==> s'.holder == Some(c))
      && s'.clean && (s'.holder == None ==> s'.saved == 0)
      && (s'.cpus[c].threaded && Holding(s'.cpus[c]) <==> s'.holder == Some(c))
  {
    assert LocalInv(s.cpus[c], s.saved);
    assert s.cpus[c].threaded && Holding(s.cpus[c]) <==> s.holder == Some(c);
  }

  lemma {:induction false} RunKeepsInv(s: State, es: seq<Step>, s': State)
    requires Inv(s) && Run(s, es, s')
    ensures Inv(s')
    decreases |es|
  {
    if es != [] {
      StepKeepsInv(s, es[0]);
      RunKeepsInv(Apply(s, es[0]), es[1..], s');
    }
  }

  // ----- results -----

  /** Between the return of a lock call and the unlock call that ends it. */
  predicate Locked(l: Local) {
    l.pc == Outside && Locks(l.open) > 0
  }

  /** In every run at most one CPU is inside, and every rt_exit_critical_safe was
      given the level the thread was at. */
  lemma MutualExclusion(s0: State, es: seq<Step>, s: State, c: Cpu, d: Cpu)
    requires Init(s0) && Run(s0, es, s)
    requires c in s.cpus && d in s.cpus && c != d && s.cpus[c].threaded && s.cpus[d].threaded
    ensures !(Holding(s.cpus[c]) && Holding(s.cpus[d])) && s.clean
    ensures !(Locked(s.cpus[c]) && Locked(s.cpus[d]))
  {
    RunKeepsInv(s0, es, s);
    assert LocalInv(s.cpus[c], s.saved) && LocalInv(s.cpus[d], s.saved);
  }

  /** While no CPU has the lock the saved level is 0. */
  lemma SavedWhenFree(s0: State, es: seq<Step>, s: State)
    requires Init(s0) && Run(s0, es, s)
    ensures s.holder == None ==> s.saved == 0
  {
    RunKeepsInv(s0, es, s);
  }

  /** The steps that store or fetch the saved level. */
  predicate Touches(s: State, e: Step)
    requires Enabled(s, e)
  {
    e.Advance? && (s.cpus[e.c].pc == Acquired || s.cpus[e.c].pc == LastNest)
  }

  /** The saved level is stored and fetched, with whatever value, only by the CPU
      that has the lock; no other step changes it. */
  lemma OnlyHolderTouches(s0: State, es: seq<Step>, s: State, e: Step)
    requires Init(s0) && Run(s0, es, s) && Enabled(s, e)
    ensures Touches(s, e) ==> s.holder == Some(e.c)
    ensures !Touches(s, e) ==> Apply(s, e).saved == s.saved
  {
    RunKeepsInv(s0, es, s);
    assert s.cpus[e.c].threaded && Holding(s.cpus[e.c]) <==> s.holder == Some(e.c);
    assert LocalInv(s.cpus[e.c], s.saved);
  }

  /** An unlock restores what its lock call found: the interrupt state and the
      critical level; the outermost one enables interrupts again and leaves the
      thread with its own sections only. */
  lemma UnlockRestores(s0: State, es: seq<Step>, s: State, c: Cpu)
    requires Init(s0) && Run(s0, es, s) && c in s.cpus && s.cpus[c].pc == Restoring
    ensures var l, l' := s.cpus[c], Apply(s, Advance(c)).cpus[c];
      l.open != [] && l.open[0].LockFrame? && l'.pc == Outside && l'.open == l.open[1..]
      && l'.irq == l.open[0].saved.irq && l'.critical == l.open[0].saved.level
      && (Locks(l'.open) == 0 ==> l'.irq && l'.nest == 0 && l'.critical == Criticals(l'.open) && s.holder != Some(c))
  {
    RunKeepsInv(s0, es, s);
    var l := s.cpus[c];
    assert l.threaded && Holding(l) <==> s.holder == Some(c);
  }

  /** The assertion in unlock that the nest count is positive never fails. */
  lemma NestPositive(s0: State, es: seq<Step>, s: State, c: Cpu)
    requires Init(s0) && Run(s0, es, s) && c in s.cpus && s.cpus[c].pc == Unnesting
    ensures s.cpus[c].nest > 0 && s.holder == Some(c)
  {
    RunKeepsInv(s0, es, s);
  }
}
