/** Reference counting with rt-thread/include/rtatomic.h:
    `rt_atomic_inc_not_zero`, a load and a compare-exchange loop, takes a
    reference, and `rt_atomic_dec_and_test`, one atomic subtraction, gives one
    back and says whether it was the last.

    Loads and compare-exchanges are steps of their own and the steps of any
    number of threads interleave freely, so a compare-exchange may fail any
    number of times.  The counter word wraps around. */
module RefCount {

  type Tid = nat

  /** rt_atomic_t holds 32 bits. */
  const RANGE: nat := 0x1_0000_0000

  datatype Pc =
    | Idle
    | Loading            // about to load the counter
    | Trying(c: nat)     // c == u test, then compare-exchange from c to c + 1
    | Got(c: nat)        // fetch_add_unless returned c

  /** `held` is how many references exist, `peak` the most there ever were,
      `lasts` how many decrements answered TRUE; `yes` counts the increments that
      returned TRUE and `decs` the decrements. */
  datatype State = State(count: nat, pcs: map<Tid, Pc>, held: nat, peak: nat, lasts: nat, yes: nat, decs: nat)

  /** The creator's reference. */
  const INIT := State(1, map[], 1, 1, 0, 0, 0)

  function PcOf(s: State, t: Tid): Pc {
    if t in s.pcs then s.pcs[t] else Idle
  }

  datatype Step =
    | CallInc(t: Tid)   // rt_atomic_inc_not_zero
    | Advance(t: Tid)
    | Dec               // rt_atomic_dec_and_test by the owner of a reference

  predicate Enabled(s: State, e: Step) {
    match e
    case CallInc(t) => PcOf(s, t) == Idle
    case Advance(t) => PcOf(s, t) != Idle
    case Dec => s.held > 0
  }

  function Goto(s: State, t: Tid, pc: Pc): State {
    s.(pcs := s.pcs[t := pc])
  }

  function Max(a: nat, b: nat): nat {
    if a < b then b else a
  }

  function Apply(s: State, e: Step): State {
    match e
    case CallInc(t) => Goto(s, t, Loading)
    case Dec =>
      s.(count := (s.count + RANGE - 1) % RANGE, held := if s.held > 0 then s.held - 1 else 0,
         lasts := s.lasts + (if s.count == 1 then 1 else 0), decs := s.decs + 1)
    case Advance(t) =>
      match PcOf(s, t)
      case Idle => s
      case Loading => Goto(s, t, Trying(s.count))
      case Trying(c) =>
        if c == 0 then Goto(s, t, Got(c))
        else if s.count == c then
          Goto(s, t, Got(c)).(count := (c + 1) % RANGE, held := s.held + 1, peak := Max(s.peak, s.held + 1))
        else Goto(s, t, Trying(s.count))
      case Got(c) => Goto(s, t, Idle).(yes := s.yes + if Succeeded(Got(c)) then 1 else 0)
  }

  /** The boolean rt_atomic_inc_not_zero returns from Got(c). */
  predicate Succeeded(pc: Pc) {
    pc.Got? && pc.c != 0
  }

  ghost predicate Run(s: State, es: seq<Step>, s': State)
    decreases |es|
  {
    if es == [] then s == s'
    else Enabled(s, es[0]) && Run(Apply(s, es[0]), es[1..], s')
  }

  // ----- the invariant -----

  /** The word counts the references modulo its range.  As long as it never
      wrapped, a zero seen by anybody is final and the last decrement was the
      one that answered TRUE. */
  ghost predicate Inv(s: State) {
    && s.count == s.held % RANGE
    && s.held <= s.peak
    && (s.peak < RANGE ==>
          s.lasts == (if s.held == 0 then 1 else 0)
          && forall t | t in s.pcs && (s.pcs[t].Trying? || s.pcs[t].Got?) && s.pcs[t].c == 0 :: s.held == 0)
  }

  lemma WrapUp(n: nat)
    ensures (n % RANGE + 1) % RANGE == (n + 1) % RANGE
  {
  }

  lemma WrapDown(n: nat)
    requires n > 0
    ensures (n % RANGE + RANGE - 1) % RANGE == (n - 1) % RANGE
  {
  }

  lemma StepKeepsInv(s: State, e: Step)
    requires Inv(s) && Enabled(s, e)
    ensures Inv(Apply(s, e)) && s.peak <= Apply(s, e).peak
  {
    if e.Dec? {
      WrapDown(s.held);
    } else {
      WrapUp(s.held);
    }
  }

  lemma {:induction false} RunKeepsInv(s: State, es: seq<Step>, s': State)
    requires Inv(s) && Run(s, es, s')
    ensures Inv(s') && s.peak <= s'.peak
    decreases |es|
  {
    if es != [] {
      StepKeepsInv(s, es[0]);
      RunKeepsInv(Apply(s, es[0]), es[1..], s');
    }
  }

  // ----- results -----

  /** In every run the word equals the number of references exactly when there
      are fewer of them than the word can count. */
  lemma CountIsHeldIff(es: seq<Step>, s: State)
    requires Run(INIT, es, s)
    ensures s.count == s.held <==> s.held < RANGE
  {
    RunKeepsInv(INIT, es, s);
  }

  /** In every run in which the references never outgrew the word, no decrement
      has answered TRUE while a reference is left and exactly one has once none
      is left. */
  lemma OneLastReference(es: seq<Step>, s: State)
    requires Run(INIT, es, s) && s.peak < RANGE
    ensures s.lasts == if s.held == 0 then 1 else 0
  {
    RunKeepsInv(INIT, es, s);
  }

  /** Once the last reference is gone it stays gone: nothing after that point
      takes a reference, whatever calls were under way. */
  lemma NoneAfterLast(es0: seq<Step>, s: State, es: seq<Step>, s': State)
    requires Run(INIT, es0, s) && s.held == 0 && s.peak < RANGE && Run(s, es, s')
    ensures s'.held == 0 && s'.count == 0 && s'.lasts == s.lasts == 1
  {
    RunKeepsInv(INIT, es0, s);
    StaysGone(s, es, s');
  }

  lemma {:induction false} StaysGone(s: State, es: seq<Step>, s': State)
    requires Inv(s) && s.held == 0 && s.peak < RANGE && Run(s, es, s')
    ensures s'.held == 0 && s'.count == 0 && s'.lasts == s.lasts
    decreases |es|
  {
    if es != [] {
      StepKeepsInv(s, es[0]);
      StaysGone(Apply(s, es[0]), es[1..], s');
    }
  }

  /** So an increment that starts after that point fails. */
  lemma IncFailsAfterLast(es0: seq<Step>, s: State, es: seq<Step>, s': State, t: Tid)
    requires Run(INIT, es0, s) && s.held == 0 && s.peak < RANGE && PcOf(s, t) == Idle && Run(s, es, s')
    ensures !Succeeded(PcOf(s', t))
  {
    RunKeepsInv(INIT, es0, s);
    IncFails(s, es, s', t);
  }

  lemma {:induction false} IncFails(s: State, es: seq<Step>, s': State, t: Tid)
    requires Inv(s) && s.held == 0 && s.peak < RANGE && Run(s, es, s')
    requires !Succeeded(PcOf(s, t)) && (PcOf(s, t).Trying? ==> PcOf(s, t).c == 0)
    ensures !Succeeded(PcOf(s', t))
    decreases |es|
  {
    if es != [] {
      StepKeepsInv(s, es[0]);
      IncFails(Apply(s, es[0]), es[1..], s', t);
    }
  }

  /** An increment reports failure only when no reference was left. */
  lemma FailureMeansNoneLeft(es: seq<Step>, s: State, t: Tid)
    requires Run(INIT, es, s) && s.peak < RANGE && PcOf(s, t).Got? && !Succeeded(PcOf(s, t))
    ensures s.held == 0
  {
    RunKeepsInv(INIT, es, s);
  }

  lemma {:induction false} RunAppend(s: State, es: seq<Step>, m: State, e: Step)
    requires Run(s, es, m) && Enabled(m, e)
    ensures Run(s, es + [e], Apply(m, e))
    decreases |es|
  {
    if es == [] {
      assert ([e])[1..] == [];
    } else {
      assert (es + [e])[1..] == es[1..] + [e];
      RunAppend(Apply(s, es[0]), es[1..], m, e);
    }
  }

  /** One thread takes n references more, as long as the word can count them. */
  lemma {:induction false} Taken(n: nat) returns (es: seq<Step>, s: State)
    requires n < RANGE
    ensures Run(INIT, es, s) && s.held == n + 1 && s.count == (n + 1) % RANGE && PcOf(s, 0) == Idle
  {
    if n == 0 {
      es, s := [], INIT;
    } else {
      es, s := Taken(n - 1);
      es, s := OneMore(es, s);
    }
  }

  lemma OneMore(es: seq<Step>, s: State) returns (es': seq<Step>, s': State)
    requires Run(INIT, es, s) && 0 < s.count < RANGE && PcOf(s, 0) == Idle
    ensures Run(INIT, es', s') && PcOf(s', 0) == Idle
    ensures s'.held == s.held + 1 && s'.count == (s.count + 1) % RANGE
  {
    var s1 := Apply(s, CallInc(0));
    RunAppend(INIT, es, s, CallInc(0));
    var s2 := Apply(s1, Advance(0));
    RunAppend(INIT, es + [CallInc(0)], s1, Advance(0));
    var s3 := Apply(s2, Advance(0));
    RunAppend(INIT, es + [CallInc(0)] + [Advance(0)], s2, Advance(0));
    s' := Apply(s3, Advance(0));
    es' := es + [CallInc(0)] + [Advance(0)] + [Advance(0)] + [Advance(0)];
    RunAppend(INIT, es + [CallInc(0)] + [Advance(0)] + [Advance(0)], s3, Advance(0));
  }

  /** A run with 2^32 references, which the word counts as none. */
  lemma WordOverflows() returns (es: seq<Step>, s: State)
    ensures Run(INIT, es, s) && s.held == RANGE && s.count == 0
  {
    es, s := Taken(RANGE - 1);
  }

  // ----- what the answers mean -----

  /** Calls that are about to return TRUE. */
  function Returning(pcs: map<Tid, Pc>): set<Tid> {
    set t | t in pcs && Succeeded(pcs[t])
  }

  lemma ReturningMove(pcs: map<Tid, Pc>, t: Tid, pc: Pc)
    ensures |Returning(pcs[t := pc])| == |Returning(pcs)|
      - (if t in pcs && Succeeded(pcs[t]) then 1 else 0) + (if Succeeded(pc) then 1 else 0)
  {
    var rest := Returning(pcs) - {t};
    if t in pcs && Succeeded(pcs[t]) {
      assert Returning(pcs) == rest + {t};
    } else {
      assert Returning(pcs) == rest;
    }
    if Succeeded(pc) {
      assert Returning(pcs[t := pc]) == rest + {t};
    } else {
      assert Returning(pcs[t := pc]) == rest;
    }
  }

  ghost predicate Balanced(s: State) {
    s.held + s.decs == 1 + s.yes + |Returning(s.pcs)|
  }

  lemma StepKeepsBalanced(s: State, e: Step)
    requires Balanced(s) && Enabled(s, e)
    ensures Balanced(Apply(s, e))
  {
    if !e.Dec? {
      ReturningMove(s.pcs, e.t, PcOf(Apply(s, e), e.t));
    }
  }

  lemma {:induction false} RunKeepsBalanced(s: State, es: seq<Step>, s': State)
    requires Balanced(s) && Run(s, es, s')
    ensures Balanced(s')
    decreases |es|
  {
    if es != [] {
      StepKeepsBalanced(s, es[0]);
      RunKeepsBalanced(Apply(s, es[0]), es[1..], s');
    }
  }

  /** In every run the references held are the first one and one for each increment
      that returned TRUE or is about to, less one for each decrement. */
  lemma TrueMeansTaken(es: seq<Step>, s: State)
    requires Run(INIT, es, s)
    ensures s.held == 1 + s.yes + |Returning(s.pcs)| - s.decs
  {
    RunKeepsBalanced(INIT, es, s);
  }

  /** n steps of thread t, or fewer if it is back before. */
  function Alone(s: State, t: Tid, n: nat): State
    decreases n
  {
    if n == 0 || PcOf(s, t) == Idle then s else Alone(Apply(s, Advance(t)), t, n - 1)
  }

  /** How many steps are left, counting the retry after a stale value. */
  function Rank(s: State, t: Tid): nat {
    match PcOf(s, t)
    case Idle => 0
    case Loading => 3
    case Trying(c) => if c == 0 || c == s.count then 2 else 3
    case Got(_) => 1
  }

  /** An increment under way returns within 3 steps of its own when no other thread
      takes one: a failed compare-exchange reloads the counter. */
  lemma {:induction false} IncReturnsAlone(s: State, t: Tid, n: nat)
    requires Rank(s, t) <= n
    ensures PcOf(Alone(s, t, n), t) == Idle && Rank(s, t) <= 3
    decreases n
  {
    if PcOf(s, t) != Idle {
      IncReturnsAlone(Apply(s, Advance(t)), t, n - 1);
    }
  }
}
