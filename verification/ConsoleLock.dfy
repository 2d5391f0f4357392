/** The console lock of rt-thread/src/kservice.c: `_console_take` and
    `_console_release`, a nestable lock whose owner also stays in a critical
    section, kept in order by swapping the critical level that the guarding spin
    lock remembers.

    The words below are touched only under that spin lock, so one attempt to
    take and one release are one step each; the steps of any number of threads
    interleave freely, and threads may have critical sections of their own open.
    Critical debugging is on: every exit from a critical section is checked
    against the level it was given. */
module ConsoleLock {
  import opened Nesting
  import opened Wrappers

  type Tid = nat

  /** A thread's critical level, and what it has open; a take records the level
      it was called at. */
  datatype Local = Local(level: nat, open: seq<Frame<nat>>)

  /** `owner` is _pr_curr_user, `nested` _pr_curr_user_nested, `lockLevel` the
      level in _syscon_lock, `prLevel` _pr_critical_level; `clean` says that every
      checked exit so far was given the current level. */
  datatype State = State(owner: Option<Tid>, nested: int, lockLevel: nat, prLevel: nat, locals: map<Tid, Local>, clean: bool)

  const INIT := State(None, 0, 0, 0, map[], true)

  function At(s: State, t: Tid): Local {
    if t in s.locals then s.locals[t] else Local(0, [])
  }

  function SetLevel(s: State, t: Tid, level: nat): State {
    s.(locals := s.locals[t := At(s, t).(level := level)])
  }

  /** rt_exit_critical_safe. */
  function ExitSafe(s: State, t: Tid, level: nat): State {
    var l := At(s, t).level;
    SetLevel(s, t, if l > 0 then l - 1 else 0).(clean := s.clean && level == l)
  }

  /** rt_spin_lock_irqsave on the console's spin lock. */
  function SpinLock(s: State, t: Tid): State {
    SetLevel(s, t, At(s, t).level + 1).(lockLevel := At(s, t).level + 1)
  }

  function SpinUnlock(s: State, t: Tid): State {
    ExitSafe(s, t, s.lockLevel)
  }

  /** One round of _console_take: own it already, take it, or give way. */
  function TryTake(s: State, t: Tid): State {
    var s1 := SpinLock(s, t);
    if s1.owner == Some(t) then SpinUnlock(s1.(nested := s1.nested + 1), t)
    else if s1.owner == None then
      var level := At(s1, t).level + 1;
      SpinUnlock(SetLevel(s1, t, level).(prLevel := s1.lockLevel, lockLevel := level, owner := Some(t), nested := s1.nested + 1), t)
    else SpinUnlock(s1, t)
  }

  /** _console_release by its owner. */
  function DoRelease(s: State, t: Tid): State {
    var s1 := SpinLock(s, t).(nested := s.nested - 1);
    if s1.nested == 0 then
      SpinUnlock(ExitSafe(s1.(owner := None), t, s1.lockLevel).(lockLevel := s1.prLevel), t)
    else SpinUnlock(s1, t)
  }

  datatype Step = Take(t: Tid) | Release(t: Tid) | EnterCritical(t: Tid) | ExitCritical(t: Tid)

  function Push(s: State, t: Tid, f: Frame<nat>): State {
    s.(locals := s.locals[t := At(s, t).(open := [f] + At(s, t).open)])
  }

  function Pop(s: State, t: Tid): State {
    var open := At(s, t).open;
    s.(locals := s.locals[t := At(s, t).(open := if open == [] then [] else open[1..])])
  }

  /** A thread closes what it opened last. */
  predicate Enabled(s: State, e: Step) {
    var open := At(s, e.t).open;
    match e
    case Release(_) => open != [] && open[0].LockFrame?
    case ExitCritical(_) => open != [] && open[0].CriticalFrame?
    case _ => true
  }

  function Apply(s: State, e: Step): State {
    match e
    case Take(t) =>
      var s' := TryTake(s, t);
      if s'.owner == Some(t) then Push(s', t, LockFrame(At(s, t).level)) else s'
    case Release(t) => Pop(DoRelease(s, t), t)
    case EnterCritical(t) => Push(SetLevel(s, t, At(s, t).level + 1), t, CriticalFrame)
    case ExitCritical(t) => Pop(ExitSafe(s, t, At(s, t).level), t)
  }

  ghost predicate Run(s: State, es: seq<Step>, s': State)
    decreases |es|
  {
    if es == [] then s == s'
    else Enabled(s, es[0]) && Run(Apply(s, es[0]), es[1..], s')
  }

  // ----- the invariant -----

  /** Every take recorded the level that the frames beneath it explain. */
  predicate FramesFit(open: seq<Frame<nat>>)
    decreases |open|
  {
    open == [] ||
    (FramesFit(open[1..]) &&
     (open[0].LockFrame? ==> open[0].saved == Criticals(open[1..]) + (if Locks(open[1..]) > 0 then 1 else 0)))
  }

  predicate LocalInv(l: Local) {
    FramesFit(l.open) && l.level == Criticals(l.open) + (if Locks(l.open) > 0 then 1 else 0)
  }

  ghost predicate Inv(s: State) {
    && s.clean
    && (forall t: Tid :: LocalInv(At(s, t)))
    && (forall t: Tid :: Locks(At(s, t).open) > 0 <==> s.owner == Some(t))
    && s.nested == (if s.owner == None then 0 else Locks(At(s, s.owner.value).open))
    && (s.owner.Some? ==> s.prLevel == Beneath(At(s, s.owner.value).open) + 1)
  }

  /** What a take and a release do, in terms of the level they start from. */
  lemma TakeEffect(s: State, t: Tid)
    requires s.clean
    ensures var l := At(s, t).level; var s' := TryTake(s, t);
      s'.clean
      && (s.owner == Some(t) ==> s' == SetLevel(s, t, l).(lockLevel := l + 1, nested := s.nested + 1))
      && (s.owner == None ==> s' == SetLevel(s, t, l + 1).(lockLevel := l + 2, prLevel := l + 1, owner := Some(t), nested := s.nested + 1))
      && (s.owner != Some(t) && s.owner != None ==> s' == SetLevel(s, t, l).(lockLevel := l + 1))
  {
    var l := At(s, t).level;
    assert SetLevel(SetLevel(s, t, l + 1), t, l) == SetLevel(s, t, l);
    assert SetLevel(SetLevel(SetLevel(s, t, l + 1), t, l + 2), t, l + 1) == SetLevel(s, t, l + 1);
  }

  lemma ReleaseEffect(s: State, t: Tid)
    requires s.clean
    ensures var l := At(s, t).level; var s' := DoRelease(s, t);
      (s.nested != 1 ==> s' == SetLevel(s, t, l).(lockLevel := l + 1, nested := s.nested - 1))
      && (s.nested == 1 ==>
            (s'.clean <==> s.prLevel == l)
            && s' == SetLevel(s, t, if l > 0 then l - 1 else 0).(lockLevel := s.prLevel, owner := None, nested := 0, clean := s'.clean))
  {
    var l := At(s, t).level;
    assert SetLevel(SetLevel(s, t, l + 1), t, l) == SetLevel(s, t, l);
    assert SetLevel(SetLevel(s, t, l), t, l) == SetLevel(s, t, l);
    assert l > 0 ==> SetLevel(SetLevel(SetLevel(s, t, l + 1), t, l), t, l - 1) == SetLevel(s, t, l - 1);
  }

  lemma TakeKeepsInv(s: State, t: Tid)
    requires Inv(s)
    ensures Inv(Apply(s, Take(t)))
  {
    TakeEffect(s, t);
    var s' := Apply(s, Take(t));
    var l := At(s, t);
    assert LocalInv(l) && (Locks(l.open) > 0 <==> s.owner == Some(t));
    if s.owner == Some(t) || s.owner == None {
      var frame := LockFrame(l.level);
      assert At(s', t).open == [frame] + l.open && ([frame] + l.open)[1..] == l.open;
    }
    OthersSame(s, s', t);
  }

  /** A step of t leaves the other threads' records alone. */
  lemma OthersSame(s: State, s': State, t: Tid)
    requires Inv(s) && LocalInv(At(s', t)) && s'.locals == s.locals[t := At(s', t)]
    requires Locks(At(s', t).open) > 0 <==> s'.owner == Some(t)
    requires s'.owner == s.owner || (s.owner == None && s'.owner == Some(t)) || (s.owner == Some(t) && s'.owner == None)
    ensures forall u: Tid :: LocalInv(At(s', u)) && (Locks(At(s', u).open) > 0 <==> s'.owner == Some(u))
    ensures forall u: Tid | u != t :: At(s', u) == At(s, u)
  {
    forall u: Tid ensures LocalInv(At(s', u)) && (Locks(At(s', u).open) > 0 <==> s'.owner == Some(u)) {
      if u != t {
        assert At(s', u) == At(s, u) && LocalInv(At(s, u));
        assert Locks(At(s, u).open) > 0 <==> s.owner == Some(u);
      }
    }
  }

  lemma ReleaseKeepsInv(s: State, t: Tid)
    requires Inv(s) && Enabled(s, Release(t))
    ensures Inv(Apply(s, Release(t)))
    ensures At(Apply(s, Release(t)), t).level == At(s, t).open[0].saved
  {
    ReleaseEffect(s, t);
    var l := At(s, t);
    assert LocalInv(l) && (Locks(l.open) > 0 <==> s.owner == Some(t));
    assert Locks(l.open) == Locks(l.open[1..]) + 1;
    OthersSame(s, Apply(s, Release(t)), t);
  }

  lemma SectionKeepsInv(s: State, e: Step)
    requires Inv(s) && Enabled(s, e) && (e.EnterCritical? || e.ExitCritical?)
    ensures Inv(Apply(s, e))
  {
    var t, s' := e.t, Apply(s, e);
    var l := At(s, t);
    assert LocalInv(l) && (Locks(l.open) > 0 <==> s.owner == Some(t));
    if e.EnterCritical? {
      assert At(s', t).open == [CriticalFrame] + l.open && At(s', t).open[1..] == l.open;
    }
    OthersSame(s, s', t);
  }

  lemma StepKeepsInv(s: State, e: Step)
    requires Inv(s) && Enabled(s, e)
    ensures Inv(Apply(s, e))
  {
    match e
    case Take(t) => TakeKeepsInv(s, t);
    case Release(t) => ReleaseKeepsInv(s, t);
    case _ => SectionKeepsInv(s, e);
  }

  lemma {:induction false} RunKeepsInv(s: State, es: seq<Step>, s': State)
    requires Inv(s) && Run(s, es, s')
    ensures Inv(s')
    decreases |es|
  {
    if es != [] {
      StepKeepsInv(s, es[0]);
      RunKeepsInv(Apply(s, es[0]), es[1..], s');
    }
  }

  // ----- results -----

  /** In every run only the owner has takes outstanding, the nest count is how
      many, and every checked exit was given the current level. */
  lemma OneOwner(es: seq<Step>, s: State, t: Tid)
    requires Run(INIT, es, s)
    ensures Locks(At(s, t).open) > 0 <==> s.owner == Some(t)
    ensures s.owner == Some(t) ==> s.nested == Locks(At(s, t).open)
    ensures s.owner == None ==> s.nested == 0
    ensures s.clean
  {
    RunKeepsInv(INIT, es, s);
  }

  /** A release puts the thread back at the level its take was called at. */
  lemma ReleaseRestoresLevel(es: seq<Step>, s: State, t: Tid)
    requires Run(INIT, es, s) && Enabled(s, Release(t))
    ensures At(Apply(s, Release(t)), t).level == At(s, t).open[0].saved && Apply(s, Release(t)).clean
  {
    RunKeepsInv(INIT, es, s);
    ReleaseKeepsInv(s, t);
  }

  /** Without the nesting discipline the last release fails its level check
      exactly when the owner is not at the level the first take left it at. */
  lemma LastReleaseCleanIff(es: seq<Step>, s: State, t: Tid)
    requires Run(INIT, es, s) && s.owner == Some(t) && s.nested == 1
    ensures DoRelease(s, t).clean <==> At(s, t).level == Beneath(At(s, t).open) + 1
  {
    RunKeepsInv(INIT, es, s);
    ReleaseEffect(s, t);
  }

  /** Such a release: the owner has entered a critical section of its own since. */
  lemma ReleaseInsideSection(t: Tid) returns (es: seq<Step>, s: State)
    ensures Run(INIT, es, s) && s.owner == Some(t) && s.nested == 1 && !DoRelease(s, t).clean
  {
    var m := Apply(INIT, Take(t));
    s := Apply(m, EnterCritical(t));
    es := [Take(t), EnterCritical(t)];
    assert es[1..] == [EnterCritical(t)] && es[1..][1..] == [];
    assert Run(m, [EnterCritical(t)], s);
    RunKeepsInv(INIT, es, s);
    ReleaseEffect(s, t);
  }

  // ----- the two functions -----

  /** The static variables of the console and the critical level of each
      thread. */
  class Console {
    var owner: Option<Tid>
    var nested: int
    var lockLevel: nat
    var prLevel: nat
    var locals: map<Tid, Local>
    var clean: bool

    constructor ()
      ensures Snap() == INIT
    {
      owner, nested, lockLevel, prLevel, locals, clean := None, 0, 0, 0, map[], true;
    }

    ghost function Snap(): State
      reads this
    {
      State(owner, nested, lockLevel, prLevel, locals, clean)
    }

    method Enter(t: Tid) returns (level: nat)
      modifies this`locals
      ensures Snap() == SetLevel(old(Snap()), t, level) && level == At(old(Snap()), t).level + 1
    {
      var local := if t in locals then locals[t] else Local(0, []);
      level := local.level + 1;
      locals := locals[t := local.(level := level)];
    }

    method Exit(t: Tid, level: nat)
      modifies this`locals, this`clean
      ensures Snap() == ExitSafe(old(Snap()), t, level)
    {
      var local := if t in locals then locals[t] else Local(0, []);
      clean := clean && level == local.level;
      locals := locals[t := local.(level := if local.level > 0 then local.level - 1 else 0)];
    }

    /** One round of _console_take's loop by thread t, the lock taken around it;
        `done` when the thread owns the console. */
    method TakeRound(t: Tid) returns (done: bool)
      modifies this
      ensures Snap() == TryTake(old(Snap()), t)
      ensures done <==> owner == Some(t)
    {
      lockLevel := Enter(t);
      if owner == None {
        var criticalLevel := Enter(t);
        prLevel := lockLevel;
        lockLevel := criticalLevel;
        owner := Some(t);
      }
      done := owner == Some(t);
      if done {
        nested := nested + 1;
      }
      Exit(t, lockLevel);
    }

    /** _console_release by the owner. */
    method Release(t: Tid)
      requires owner == Some(t)
      modifies this
      ensures Snap() == DoRelease(old(Snap()), t)
    {
      lockLevel := Enter(t);
      nested := nested - 1;
      if nested == 0 {
        owner := None;
        Exit(t, lockLevel);
        lockLevel := prLevel;
      }
      Exit(t, lockLevel);
    }
  }
}
