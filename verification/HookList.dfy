/** The hook lists of rt-thread/include/rtdef.h: callers count themselves in
    under a spin lock and then walk the list without it; `sethook` and `rmhook`
    edit the list under the lock once nobody is counted.

    Lock acquisitions, loads of list links, handler calls and edits are steps of
    their own and the steps of any number of threads interleave freely. */
module HookList {
  import opened Wrappers

  type Tid = nat

  /** A hook is the address of its list node; the list head is address 0. */
  type Hook = nat
  const HEAD: Hook := 0

  datatype Edit = Add(h: Hook) | Remove(h: Hook)

  datatype Pc =
    | Idle
    // _RT_OBJECT_HOOKLIST_CALL
    | CallWants                        // about to take the lock
    | CallHolds                        // about to count itself in
    | CallCounted                      // about to release the lock
    | Testing                          // about to test the list for emptiness
    | LoadFirst                        // about to load head->next
    | LoadNext(iter: Hook)             // about to load iter->next
    | Loop(iter: Hook, next: Hook)     // loop test, then iter's handler
    | LeaveWants                       // about to take the lock
    | LeaveHolds                       // about to count itself out
    | LeaveDone                        // about to release the lock
    // sethook and rmhook
    | EditWants(edit: Edit)
    | EditTests(edit: Edit)            // holds the lock, tests the counter
    | EditActs(edit: Edit)             // holds the lock, edits the list
    | EditDone(edit: Edit)             // about to release the lock

  /** `snap` is the list when the thread counted itself in, `ran` the hooks it
      has run since. */
  datatype Thread = Thread(pc: Pc, snap: seq<Hook>, ran: seq<Hook>)

  /** What a history records: of sethook and rmhook the call, the change of the
      list and the return; of a walk the call, its counting in, the handlers it
      runs and the return. */
  datatype Event =
    | Called(t: Tid, edit: Edit)
    | Effect(t: Tid, edit: Edit)
    | Returned(t: Tid)
    | Entered(t: Tid)
    | CountedIn(t: Tid)
    | Ran(t: Tid, h: Hook)
    | Left(t: Tid)

  datatype State = State(hooks: seq<Hook>, lock: Option<Tid>, nested: int, threads: map<Tid, Thread>, hist: seq<Event>)

  function ThreadOf(s: State, t: Tid): Thread {
    if t in s.threads then s.threads[t] else Thread(Idle, [], [])
  }

  const INIT := State([], None, 0, map[], [])

  datatype Step = Call(t: Tid) | Change(t: Tid, edit: Edit) | Advance(t: Tid)

  /** The thread has an edit adding h under way. */
  predicate Adding(pc: Pc, h: Hook) {
    (pc.EditWants? || pc.EditTests? || pc.EditActs?) && pc.edit == Add(h)
  }

  predicate WantsLock(pc: Pc) {
    pc.CallWants? || pc.LeaveWants? || pc.EditWants?
  }

  predicate HoldsLock(pc: Pc) {
    pc.CallHolds? || pc.CallCounted? || pc.LeaveHolds? || pc.LeaveDone? || pc.EditTests? || pc.EditActs? || pc.EditDone?
  }

  /** Callers add only a node that is not registered and not being registered. */
  predicate Enabled(s: State, e: Step) {
    match e
    case Call(t) => ThreadOf(s, t).pc == Idle
    case Change(t, edit) =>
      ThreadOf(s, t).pc == Idle && edit.h != HEAD &&
      (edit.Add? ==> edit.h !in s.hooks && forall u | u in s.threads :: !Adding(s.threads[u].pc, edit.h))
    case Advance(t) =>
      ThreadOf(s, t).pc != Idle && (WantsLock(ThreadOf(s, t).pc) ==> s.lock == None)
  }

  /** The next link of a node of the ring, or of a node on its own. */
  function Next(hooks: seq<Hook>, x: Hook): Hook {
    if x == HEAD then (if hooks == [] then HEAD else hooks[0]) else NextFrom(hooks, x)
  }

  function NextFrom(hooks: seq<Hook>, x: Hook): Hook {
    if hooks == [] then x
    else if hooks[0] == x then (if |hooks| == 1 then HEAD else hooks[1])
    else NextFrom(hooks[1..], x)
  }

  function Without(hooks: seq<Hook>, h: Hook): seq<Hook> {
    if hooks == [] then [] else if hooks[0] == h then hooks[1..] else [hooks[0]] + Without(hooks[1..], h)
  }

  /** rt_list_insert_before the head appends; rt_list_remove unlinks the node,
      and leaves a node that is in no list as it is. */
  function EditHooks(hooks: seq<Hook>, edit: Edit): seq<Hook> {
    match edit
    case Add(h) => hooks + [h]
    case Remove(h) => Without(hooks, h)
  }

  /** The thread's own part of a step. */
  function Move(s: State, th: Thread): Thread {
    match th.pc
    case Idle => th
    case CallWants => th.(pc := CallHolds)
    case CallHolds => Thread(CallCounted, s.hooks, [])
    case CallCounted => th.(pc := Testing)
    case Testing => th.(pc := if Next(s.hooks, HEAD) == HEAD then LeaveWants else LoadFirst)
    case LoadFirst => th.(pc := LoadNext(Next(s.hooks, HEAD)))
    case LoadNext(iter) => th.(pc := Loop(iter, Next(s.hooks, iter)))
    case Loop(iter, next) =>
      if iter == HEAD then th.(pc := LeaveWants) else th.(pc := LoadNext(next), ran := th.ran + [iter])
    case LeaveWants => th.(pc := LeaveHolds)
    case LeaveHolds => th.(pc := LeaveDone)
    case LeaveDone => th.(pc := Idle)
    case EditWants(edit) => th.(pc := EditTests(edit))
    case EditTests(edit) => th.(pc := if s.nested != 0 then EditWants(edit) else EditActs(edit))
    case EditActs(edit) => th.(pc := EditDone(edit))
    case EditDone(_) => th.(pc := Idle)
  }

  function Apply(s: State, e: Step): State {
    match e
    case Call(t) =>
      s.(threads := s.threads[t := ThreadOf(s, t).(pc := CallWants)], hist := s.hist + [Entered(t)])
    case Change(t, edit) =>
      s.(threads := s.threads[t := ThreadOf(s, t).(pc := EditWants(edit))], hist := s.hist + [Called(t, edit)])
    case Advance(t) =>
      var th := ThreadOf(s, t);
      var th' := Move(s, th);
      State(
        if th.pc.EditActs? then EditHooks(s.hooks, th.pc.edit) else s.hooks,
        if WantsLock(th.pc) then Some(t) else if HoldsLock(th.pc) && !HoldsLock(th'.pc) then None else s.lock,
        s.nested + (if th.pc == CallHolds then 1 else if th.pc == LeaveHolds then -1 else 0),
        s.threads[t := th'],
        s.hist + Events(t, th.pc))
  }

  /** What a step of thread t adds to the history. */
  function Events(t: Tid, pc: Pc): seq<Event> {
    match pc
    case EditActs(edit) => [Effect(t, edit)]
    case EditDone(_) => [Returned(t)]
    case CallHolds => [CountedIn(t)]
    case Loop(iter, _) => if iter == HEAD then [] else [Ran(t, iter)]
    case LeaveDone => [Left(t)]
    case _ => []
  }

  ghost predicate Run(s: State, es: seq<Step>, s': State)
    decreases |es|
  {
    if es == [] then s == s'
    else Enabled(s, es[0]) && Run(Apply(s, es[0]), es[1..], s')
  }

  // ----- the invariant -----

  /** Between counting in and counting out. */
  predicate Counted(pc: Pc) {
    pc.CallCounted? || pc.Testing? || pc.LoadFirst? || pc.LoadNext? || pc.Loop? || pc.LeaveWants? || pc.LeaveHolds?
  }

  function Callers(threads: map<Tid, Thread>): set<Tid> {
    set t | t in threads && Counted(threads[t].pc)
  }

  ghost predicate Distinct(hooks: seq<Hook>) {
    HEAD !in hooks && forall i, j | 0 <= i < j < |hooks| :: hooks[i] != hooks[j]
  }

  function Nth(hooks: seq<Hook>, k: nat): Hook {
    if k < |hooks| then hooks[k] else HEAD
  }

  /** A caller's list is still the one it counted itself in on, and it has run
      the hooks in front of the one it stands at. */
  ghost predicate WalkFits(th: Thread, hooks: seq<Hook>) {
    Counted(th.pc) ==>
      var k := |th.ran|;
      th.snap == hooks && th.ran <= hooks &&
      (th.pc.CallCounted? || th.pc.Testing? || th.pc.LoadFirst? ==> k == 0) &&
      (th.pc.LoadNext? ==> th.pc.iter == Nth(hooks, k)) &&
      (th.pc.Loop? ==> th.pc.iter == Nth(hooks, k) && (k < |hooks| ==> th.pc.next == Nth(hooks, k + 1))) &&
      (th.pc.LeaveWants? || th.pc.LeaveHolds? ==> th.ran == hooks)
  }

  ghost predicate Walks(s: State) {
    forall t | t in s.threads :: WalkFits(s.threads[t], s.hooks)
  }

  ghost predicate LockFits(s: State) {
    forall t: Tid :: HoldsLock(ThreadOf(s, t).pc) <==> s.lock == Some(t)
  }

  /** The counter counts the callers, and an editor that acts sees none. */
  ghost predicate CountFits(s: State) {
    && s.nested == |Callers(s.threads)|
    && forall t | t in s.threads && s.threads[t].pc.EditActs? :: s.nested == 0
  }

  /** A node being added is not registered and is added by one thread only. */
  ghost predicate AddsFit(s: State) {
    forall t | t in s.threads ::
      var pc := s.threads[t].pc;
      (pc.EditWants? || pc.EditTests? || pc.EditActs?) && pc.edit.Add? ==>
        pc.edit.h != HEAD && pc.edit.h !in s.hooks
        && forall u | u in s.threads && u != t :: !Adding(s.threads[u].pc, pc.edit.h)
  }

  ghost predicate Inv(s: State) {
    Distinct(s.hooks) && Walks(s) && LockFits(s) && CountFits(s) && AddsFit(s)
  }

  lemma CallersMove(threads: map<Tid, Thread>, t: Tid, th: Thread)
    ensures |Callers(threads[t := th])| == |Callers(threads)|
      - (if t in threads && Counted(threads[t].pc) then 1 else 0) + (if Counted(th.pc) then 1 else 0)
  {
    var rest := Callers(threads) - {t};
    if t in threads && Counted(threads[t].pc) {
      assert Callers(threads) == rest + {t};
    } else {
      assert Callers(threads) == rest;
    }
    if Counted(th.pc) {
      assert Callers(threads[t := th]) == rest + {t};
    } else {
      assert Callers(threads[t := th]) == rest;
    }
  }

  /** Following the links visits the list in order. */
  lemma {:induction false} NextIsNth(hooks: seq<Hook>, k: nat)
    requires Distinct(hooks) && k < |hooks|
    ensures Next(hooks, hooks[k]) == Nth(hooks, k + 1)
  {
    assert hooks[k] in hooks;
    NextFromIsNth(hooks, k);
  }

  lemma {:induction false} NextFromIsNth(hooks: seq<Hook>, k: nat)
    requires Distinct(hooks) && k < |hooks|
    ensures NextFrom(hooks, hooks[k]) == Nth(hooks, k + 1)
    decreases |hooks|
  {
    if k > 0 {
      assert hooks[0] != hooks[k];
      NextFromIsNth(hooks[1..], k - 1);
    }
  }

  lemma {:induction false} WithoutRemoves(hooks: seq<Hook>, h: Hook)
    requires Distinct(hooks)
    ensures Distinct(Without(hooks, h))
    ensures forall x :: x in Without(hooks, h) <==> x in hooks && x != h
  {
    if hooks != [] {
      assert forall x :: x in hooks <==> x == hooks[0] || x in hooks[1..];
      if hooks[0] != h {
        WithoutRemoves(hooks[1..], h);
        assert hooks[0] !in Without(hooks[1..], h);
      }
    }
  }

  /** No caller is counted, so the walks do not depend on the list. */
  lemma NobodyCounted(s: State, t: Tid)
    requires CountFits(s) && s.nested == 0 && t in s.threads
    ensures !Counted(s.threads[t].pc)
  {
    assert t !in Callers(s.threads);
  }

  lemma CallKeepsInv(s: State, e: Step)
    requires Inv(s) && Enabled(s, e) && !e.Advance?
    ensures Inv(Apply(s, e))
  {
    var s' := Apply(s, e);
    CallersMove(s.threads, e.t, s'.threads[e.t]);
    forall u: Tid ensures HoldsLock(ThreadOf(s', u).pc) <==> s'.lock == Some(u) {
      assert HoldsLock(ThreadOf(s, u).pc) <==> s.lock == Some(u);
    }
  }

  lemma WalkStep(s: State, t: Tid)
    requires Inv(s) && Enabled(s, Advance(t)) && !ThreadOf(s, t).pc.EditActs?
    ensures WalkFits(Move(s, ThreadOf(s, t)), s.hooks)
  {
    var th := ThreadOf(s, t);
    if th.pc.LoadNext? && |th.ran| < |s.hooks| {
      NextIsNth(s.hooks, |th.ran|);
    }
    if Counted(th.pc) && |th.ran| == |s.hooks| {
      assert th.ran == s.hooks;
    }
  }

  lemma StepKeepsLock(s: State, t: Tid)
    requires LockFits(s) && Enabled(s, Advance(t))
    ensures LockFits(Apply(s, Advance(t)))
  {
    var s' := Apply(s, Advance(t));
    forall u: Tid ensures HoldsLock(ThreadOf(s', u).pc) <==> s'.lock == Some(u) {
      assert HoldsLock(ThreadOf(s, u).pc) <==> s.lock == Some(u);
      assert HoldsLock(ThreadOf(s, t).pc) <==> s.lock == Some(t);
    }
  }

  /** Counting in and out happens under the lock, so not while an editor acts. */
  lemma StepKeepsCount(s: State, t: Tid)
    requires CountFits(s) && LockFits(s) && Enabled(s, Advance(t))
    ensures CountFits(Apply(s, Advance(t)))
  {
    var s' := Apply(s, Advance(t));
    CallersMove(s.threads, t, s'.threads[t]);
    forall u | u in s'.threads && s'.threads[u].pc.EditActs? ensures s'.nested == 0 {
      assert HoldsLock(ThreadOf(s, u).pc) <==> s.lock == Some(u);
      assert HoldsLock(ThreadOf(s, t).pc) <==> s.lock == Some(t);
    }
  }

  lemma QuietKeepsInv(s: State, t: Tid)
    requires Inv(s) && Enabled(s, Advance(t)) && !ThreadOf(s, t).pc.EditActs?
    ensures Inv(Apply(s, Advance(t)))
  {
    WalkStep(s, t);
    StepKeepsLock(s, t);
    StepKeepsCount(s, t);
    QuietKeepsAdds(s, t);
  }

  /** A thread never starts adding anything but by a call. */
  lemma QuietKeepsAdds(s: State, t: Tid)
    requires AddsFit(s) && Enabled(s, Advance(t)) && !ThreadOf(s, t).pc.EditActs?
    ensures AddsFit(Apply(s, Advance(t)))
  {
    var s' := Apply(s, Advance(t));
    forall u, h | u in s'.threads && Adding(s'.threads[u].pc, h) ensures u in s.threads && Adding(s.threads[u].pc, h) {
    }
  }

  lemma ActKeepsInv(s: State, t: Tid)
    requires Inv(s) && ThreadOf(s, t).pc.EditActs?
    ensures Inv(Apply(s, Advance(t)))
  {
    var s' := Apply(s, Advance(t));
    var edit := ThreadOf(s, t).pc.edit;
    WithoutRemoves(s.hooks, edit.h);
    StepKeepsLock(s, t);
    StepKeepsCount(s, t);
    forall u | u in s'.threads ensures WalkFits(s'.threads[u], s'.hooks) {
      if u != t {
        NobodyCounted(s, u);
      }
    }
    assert Adding(s.threads[t].pc, edit.h) <==> edit.Add?;
  }

  lemma StepKeepsInv(s: State, e: Step)
    requires Inv(s) && Enabled(s, e)
    ensures Inv(Apply(s, e))
  {
    if !e.Advance? {
      CallKeepsInv(s, e);
    } else if ThreadOf(s, e.t).pc.EditActs? {
      ActKeepsInv(s, e.t);
    } else {
      QuietKeepsInv(s, e.t);
    }
  }

  lemma {:induction false} RunKeepsInv(s: State, es: seq<Step>, s': State)
    requires Inv(s) && Run(s, es, s')
    ensures Inv(s')
    decreases |es|
  {
    if es != [] {
      StepKeepsInv(s, es[0]);
      RunKeepsInv(Apply(s, es[0]), es[1..], s');
    }
  }

  // ----- results -----

  /** In every run the counter is the number of calls in progress and the list
      changes only while there are none. */
  lemma ListStable(es: seq<Step>, s: State, e: Step)
    requires Run(INIT, es, s) && Enabled(s, e)
    ensures s.nested == |Callers(s.threads)|
    ensures Apply(s, e).hooks != s.hooks ==> Callers(s.threads) == {}
  {
    RunKeepsInv(INIT, es, s);
  }

  /** A call that is done walking has run every hook registered when it counted
      itself in, once each and in list order, and no other. */
  lemma EachHookOnce(es: seq<Step>, s: State, t: Tid)
    requires Run(INIT, es, s) && t in s.threads && (s.threads[t].pc.LeaveWants? || s.threads[t].pc.LeaveHolds?)
    ensures s.threads[t].ran == s.threads[t].snap == s.hooks && Distinct(s.hooks)
  {
    RunKeepsInv(INIT, es, s);
  }

  /** A walk stays on the list: the node whose handler is about to run is the
      one after those that ran. */
  lemma WalkOnList(es: seq<Step>, s: State, t: Tid)
    requires Run(INIT, es, s) && t in s.threads && s.threads[t].pc.Loop? && s.threads[t].pc.iter != HEAD
    ensures var th := s.threads[t];
      |th.ran| < |s.hooks| && th.pc.iter == s.hooks[|th.ran|] && th.ran == s.hooks[..|th.ran|]
  {
    RunKeepsInv(INIT, es, s);
  }

  /** Editing adds at the end or removes exactly the node, when it is there. */
  lemma EditMeans(hooks: seq<Hook>, h: Hook, x: Hook)
    requires Distinct(hooks)
    ensures x in EditHooks(hooks, Add(h)) <==> x in hooks || x == h
    ensures x in EditHooks(hooks, Remove(h)) <==> x in hooks && x != h
    ensures h !in hooks ==> EditHooks(hooks, Remove(h)) == hooks && EditHooks(hooks, Add(h)) == hooks + [h]
  {
    WithoutRemoves(hooks, h);
    if h !in hooks {
      WithoutAbsent(hooks, h);
    }
  }

  lemma {:induction false} WithoutAbsent(hooks: seq<Hook>, h: Hook)
    requires h !in hooks
    ensures Without(hooks, h) == hooks
  {
    if hooks != [] {
      WithoutAbsent(hooks[1..], h);
    }
  }

  // ----- the edits of a history -----

  /** The edits in the order they took effect. */
  function Effects(hist: seq<Event>): seq<Edit> {
    if hist == [] then [] else
    var last := hist[|hist| - 1];
    var before := Effects(hist[..|hist| - 1]);
    if last.Effect? then before + [last.edit] else before
  }

  /** The index of the last edit of node x, or -1. */
  function LastAt(edits: seq<Edit>, x: Hook): (k: int)
    ensures -1 <= k < |edits| && (k >= 0 ==> edits[k].h == x)
    ensures forall i | k < i < |edits| :: edits[i].h != x
  {
    if edits == [] then -1
    else if edits[|edits| - 1].h == x then |edits| - 1
    else LastAt(edits[..|edits| - 1], x)
  }

  /** The last edit of x that took effect was its sethook. */
  predicate Registered(edits: seq<Edit>, x: Hook) {
    var k := LastAt(edits, x);
    k >= 0 && edits[k].Add?
  }

  ghost predicate Ordered(hooks: seq<Hook>, edits: seq<Edit>) {
    forall i, j | 0 <= i < j < |hooks| :: LastAt(edits, hooks[i]) < LastAt(edits, hooks[j])
  }

  /** The list holds what the edits registered, in the order of the sethooks. */
  ghost predicate ListFits(hooks: seq<Hook>, edits: seq<Edit>) {
    (forall x :: x in hooks <==> Registered(edits, x)) && Ordered(hooks, edits)
  }

  /** The list after the effects of a history. */
  function Listing(hist: seq<Event>): seq<Hook> {
    if hist == [] then [] else
    var last := hist[|hist| - 1];
    var before := Listing(hist[..|hist| - 1]);
    if last.Effect? then EditHooks(before, last.edit) else before
  }

  /** What a history says thread t is doing; a walk has the hooks `todo` to run. */
  datatype Phase = Outside | Pending(edit: Edit) | Effected | Entering | Walking(todo: seq<Hook>) | Broken

  function NextPhase(p: Phase, e: Event, hooks: seq<Hook>): Phase {
    match e
    case Called(_, edit) => if p == Outside then Pending(edit) else Broken
    case Effect(_, edit) => if p == Pending(edit) then Effected else Broken
    case Returned(_) => if p == Effected then Outside else Broken
    case Entered(_) => if p == Outside then Entering else Broken
    case CountedIn(_) => if p == Entering then Walking(hooks) else Broken
    case Ran(_, h) => if p.Walking? && p.todo != [] && p.todo[0] == h then Walking(p.todo[1..]) else Broken
    case Left(_) => if p == Walking([]) then Outside else Broken
  }

  function PhaseOf(hist: seq<Event>, t: Tid): Phase {
    if hist == [] then Outside else
    var last := hist[|hist| - 1];
    var before := PhaseOf(hist[..|hist| - 1], t);
    if last.t == t then NextPhase(before, last, Listing(hist[..|hist| - 1])) else before
  }

  predicate PhaseFits(th: Thread, p: Phase) {
    match th.pc
    case EditWants(edit) => p == Pending(edit)
    case EditTests(edit) => p == Pending(edit)
    case EditActs(edit) => p == Pending(edit)
    case EditDone(_) => p == Effected
    case CallWants => p == Entering
    case CallHolds => p == Entering
    case LeaveDone => p == Walking([])
    case Idle => p == Outside
    case _ => |th.ran| <= |th.snap| && p == Walking(th.snap[|th.ran|..])
  }

  ghost predicate Logged(s: State) {
    && s.hooks == Listing(s.hist) && ListFits(s.hooks, Effects(s.hist))
    && forall t: Tid :: PhaseFits(ThreadOf(s, t), PhaseOf(s.hist, t))
  }

  lemma Emitted(hist: seq<Event>, e: Event, t: Tid)
    ensures Effects(hist + [e]) == if e.Effect? then Effects(hist) + [e.edit] else Effects(hist)
    ensures Listing(hist + [e]) == if e.Effect? then EditHooks(Listing(hist), e.edit) else Listing(hist)
    ensures PhaseOf(hist + [e], t) ==
      if e.t == t then NextPhase(PhaseOf(hist, t), e, Listing(hist)) else PhaseOf(hist, t)
  {
    assert (hist + [e])[..|hist|] == hist;
  }

  lemma LastAtSnoc(edits: seq<Edit>, e: Edit, x: Hook)
    ensures LastAt(edits + [e], x) == if e.h == x then |edits| else LastAt(edits, x)
  {
    assert (edits + [e])[..|edits|] == edits;
  }

  lemma AddFits(hooks: seq<Hook>, edits: seq<Edit>, h: Hook)
    requires ListFits(hooks, edits) && h !in hooks
    ensures ListFits(hooks + [h], edits + [Add(h)])
  {
    forall x ensures x in hooks + [h] <==> Registered(edits + [Add(h)], x) {
      LastAtSnoc(edits, Add(h), x);
    }
    forall i, j | 0 <= i < j < |hooks + [h]|
      ensures LastAt(edits + [Add(h)], (hooks + [h])[i]) < LastAt(edits + [Add(h)], (hooks + [h])[j]) {
      LastAtSnoc(edits, Add(h), (hooks + [h])[i]);
      LastAtSnoc(edits, Add(h), (hooks + [h])[j]);
    }
  }

  lemma {:induction false} WithoutKeepsOrder(hooks: seq<Hook>, edits: seq<Edit>, h: Hook)
    requires Distinct(hooks) && Ordered(hooks, edits)
    ensures Ordered(Without(hooks, h), edits)
  {
    if hooks != [] && hooks[0] != h {
      var rest := Without(hooks[1..], h);
      WithoutKeepsOrder(hooks[1..], edits, h);
      WithoutRemoves(hooks[1..], h);
      forall j | 0 <= j < |rest| ensures LastAt(edits, hooks[0]) < LastAt(edits, rest[j]) {
        assert rest[j] in hooks[1..];
      }
    }
  }

  lemma RemoveFits(hooks: seq<Hook>, edits: seq<Edit>, h: Hook)
    requires ListFits(hooks, edits) && Distinct(hooks)
    ensures ListFits(Without(hooks, h), edits + [Remove(h)])
  {
    var hooks' := Without(hooks, h);
    WithoutRemoves(hooks, h);
    WithoutKeepsOrder(hooks, edits, h);
    forall x ensures x in hooks' <==> Registered(edits + [Remove(h)], x) {
      LastAtSnoc(edits, Remove(h), x);
    }
    forall i, j | 0 <= i < j < |hooks'|
      ensures LastAt(edits + [Remove(h)], hooks'[i]) < LastAt(edits + [Remove(h)], hooks'[j]) {
      assert hooks'[i] in hooks' && hooks'[j] in hooks';
      LastAtSnoc(edits, Remove(h), hooks'[i]);
      LastAtSnoc(edits, Remove(h), hooks'[j]);
    }
  }

  function PhaseAfter(p: Phase, events: seq<Event>, hooks: seq<Hook>): Phase {
    if events == [] then p else NextPhase(p, events[0], hooks)
  }

  lemma WalkPhase(s: State, t: Tid, th: Thread, p: Phase)
    requires PhaseFits(th, p) && WalkFits(th, s.hooks) && Distinct(s.hooks) && (Counted(th.pc) || th.pc.CallHolds?)
    ensures PhaseFits(Move(s, th), PhaseAfter(p, Events(t, th.pc), s.hooks))
  {
    if th.pc.Loop? && th.pc.iter != HEAD {
      assert th.snap[|th.ran|..][1..] == th.snap[|th.ran| + 1..];
    }
  }

  lemma OtherPhase(s: State, t: Tid, th: Thread, p: Phase)
    requires PhaseFits(th, p) && !Counted(th.pc) && !th.pc.CallHolds?
    ensures PhaseFits(Move(s, th), PhaseAfter(p, Events(t, th.pc), s.hooks))
  {
  }

  /** The moving thread's own phase. */
  lemma MovedPhase(s: State, e: Step)
    requires Inv(s) && Logged(s) && Enabled(s, e)
    ensures PhaseFits(ThreadOf(Apply(s, e), e.t), PhaseOf(Apply(s, e).hist, e.t))
  {
    var s' := Apply(s, e);
    var th, p := ThreadOf(s, e.t), PhaseOf(s.hist, e.t);
    assert PhaseFits(th, p);
    if |s'.hist| > |s.hist| {
      Emitted(s.hist, s'.hist[|s.hist|], e.t);
    } else {
      assert s'.hist == s.hist;
    }
    if e.Advance? {
      if Counted(th.pc) || th.pc.CallHolds? {
        WalkPhase(s, e.t, th, p);
      } else {
        OtherPhase(s, e.t, th, p);
      }
    }
  }

  /** A step adds at most one event, of the thread it moves. */
  lemma OthersSamePhase(s: State, e: Step, u: Tid)
    requires u != e.t
    ensures ThreadOf(Apply(s, e), u) == ThreadOf(s, u) && PhaseOf(Apply(s, e).hist, u) == PhaseOf(s.hist, u)
  {
    var s' := Apply(s, e);
    if |s'.hist| > |s.hist| {
      Emitted(s.hist, s'.hist[|s.hist|], u);
    } else {
      assert s'.hist == s.hist;
    }
  }

  lemma QuietKeepsList(s: State, e: Step)
    requires !(e.Advance? && ThreadOf(s, e.t).pc.EditActs?)
    ensures var s' := Apply(s, e);
      s'.hooks == s.hooks && Listing(s'.hist) == Listing(s.hist) && Effects(s'.hist) == Effects(s.hist)
  {
    var s' := Apply(s, e);
    if |s'.hist| > |s.hist| {
      Emitted(s.hist, s'.hist[|s.hist|], e.t);
    } else {
      assert s'.hist == s.hist;
    }
  }

  lemma EditFits(hooks: seq<Hook>, edits: seq<Edit>, edit: Edit)
    requires ListFits(hooks, edits) && Distinct(hooks) && (edit.Add? ==> edit.h !in hooks)
    ensures ListFits(EditHooks(hooks, edit), edits + [edit])
  {
    match edit
    case Add(h) => AddFits(hooks, edits, h);
    case Remove(h) => RemoveFits(hooks, edits, h);
  }

  lemma NewWhenAdded(s: State, t: Tid)
    requires AddsFit(s) && ThreadOf(s, t).pc.EditActs?
    ensures var edit := ThreadOf(s, t).pc.edit; edit.Add? ==> edit.h !in s.hooks
  {
  }

  lemma ActKeepsList(s: State, t: Tid)
    requires Inv(s) && Logged(s) && ThreadOf(s, t).pc.EditActs?
    ensures var s' := Apply(s, Advance(t)); s'.hooks == Listing(s'.hist) && ListFits(s'.hooks, Effects(s'.hist))
  {
    var edit := ThreadOf(s, t).pc.edit;
    NewWhenAdded(s, t);
    EditFits(s.hooks, Effects(s.hist), edit);
    Emitted(s.hist, Effect(t, edit), t);
  }

  lemma StepKeepsLogged(s: State, e: Step)
    requires Inv(s) && Logged(s) && Enabled(s, e)
    ensures Logged(Apply(s, e))
  {
    if e.Advance? && ThreadOf(s, e.t).pc.EditActs? {
      ActKeepsList(s, e.t);
    } else {
      QuietKeepsList(s, e);
    }
    MovedPhase(s, e);
    forall u: Tid | u != e.t ensures PhaseFits(ThreadOf(Apply(s, e), u), PhaseOf(Apply(s, e).hist, u)) {
      OthersSamePhase(s, e, u);
    }
  }

  lemma {:induction false} RunKeepsLogged(s: State, es: seq<Step>, s': State)
    requires Inv(s) && Logged(s) && Run(s, es, s')
    ensures Logged(s')
    decreases |es|
  {
    if es != [] {
      StepKeepsInv(s, es[0]);
      StepKeepsLogged(s, es[0]);
      RunKeepsLogged(Apply(s, es[0]), es[1..], s');
    }
  }

  /** In every run a node is on the list exactly when the last edit of it that took
      effect was its sethook, and the list is in the order of those sethooks. */
  lemma ListIsEdits(es: seq<Step>, s: State)
    requires Run(INIT, es, s)
    ensures forall x :: x in s.hooks <==> Registered(Effects(s.hist), x)
    ensures Ordered(s.hooks, Effects(s.hist))
  {
    RunKeepsLogged(INIT, es, s);
  }

  /** Every edit takes effect once between its call and its return.  Every walk,
      between counting in and its return, runs the hooks that were registered when
      it counted itself in, in list order, and nothing else.  A thread that is back
      has nothing pending and does not hold the lock. */
  lemma CallsComplete(es: seq<Step>, s: State, t: Tid)
    requires Run(INIT, es, s)
    ensures PhaseOf(s.hist, t) != Broken
    ensures ThreadOf(s, t).pc == Idle ==> PhaseOf(s.hist, t) == Outside && s.lock != Some(t)
  {
    RunKeepsInv(INIT, es, s);
    RunKeepsLogged(INIT, es, s);
    assert PhaseFits(ThreadOf(s, t), PhaseOf(s.hist, t));
  }

  /** The node of a sethook that took effect is on the list until an rmhook of it
      takes effect. */
  lemma StaysRegistered(es: seq<Step>, s: State, k: nat)
    requires Run(INIT, es, s)
    requires var edits := Effects(s.hist);
      k < |edits| && edits[k].Add? && forall i | k < i < |edits| :: edits[i] != Remove(edits[k].h)
    ensures Effects(s.hist)[k].h in s.hooks
  {
    ListIsEdits(es, s);
    var edits := Effects(s.hist);
    var last := LastAt(edits, edits[k].h);
    assert last >= k;
  }
}
