/** The two views of rt-thread/src/mempool.c together: the memory of a pool
    while any number of threads allocate, wait, free and write into the blocks
    they hold. */
module PoolMemory {
  import opened Arith
  import M = Mempool
  import W = PoolWaiters

  datatype State = State(mem: M.Memory, threads: W.State)

  datatype Step =
    | Pool(e: W.Step)
    | Write(i: nat, k: nat, v: int)   // a holder stores into its block

  /** The memory part of a step: what the locked regions of rt_mp_alloc and
      rt_mp_free store. */
  function Store(l: M.Layout, s: State, e: W.Step): M.Memory {
    match e
    case Enter(_) => M.Alloc(l, s.mem).0
    case Free(b) => M.Free(l, s.mem, l.UserPointer(b))
    case _ => s.mem
  }

  predicate Enabled(l: M.Layout, s: State, step: Step) {
    match step
    case Pool(e) => W.Enabled(s.threads, e)
    case Write(i, k, _) => i in s.threads.held && k < l.stride - M.PTR_SIZE
  }

  function Apply(l: M.Layout, s: State, step: Step): State
    requires Enabled(l, s, step)
  {
    match step
    case Pool(e) => State(Store(l, s, e), W.Apply(s.threads, e))
    case Write(i, k, v) => State(M.Write(l, s.mem, i, k, v), s.threads)
  }

  ghost predicate Run(l: M.Layout, s: State, steps: seq<Step>, s': State)
    decreases |steps|
  {
    if steps == [] then s == s'
    else Enabled(l, s, steps[0]) && Run(l, Apply(l, s, steps[0]), steps[1..], s')
  }

  /** The memory holds the free list of the threads' view. */
  ghost predicate Agree(l: M.Layout, s: State) {
    && M.Holds(l, s.mem, s.threads.blocks)
    && W.Inv(s.threads, multiset(Upto(l.total)))
  }

  /** A block that is handed out is one of the pool's and not on the list. */
  lemma HeldIsOff(l: M.Layout, s: W.State, b: nat)
    requires W.BlocksInv(s, multiset(Upto(l.total))) && b in s.held
    ensures b < l.total && b !in s.blocks
  {
    var all := multiset(Upto(l.total));
    UptoOnce(l.total, b);
    assert all[b] == multiset(s.blocks)[b] + s.held[b];
  }

  lemma {:induction false} UptoOnce(n: nat, b: nat)
    ensures multiset(Upto(n))[b] <= 1 && (b in multiset(Upto(n)) ==> b < n)
  {
    if n > 0 {
      UptoOnce(n - 1, b);
      assert Upto(n) == Upto(n - 1) + [n - 1];
    }
  }

  /** Only a dequeue follows the stores of a free, and it touches no block. */
  lemma DequeueKeepsBlocks(s: W.State, error: W.Error)
    ensures W.Dequeue(s, error).blocks == s.blocks
  {
  }

  lemma {:induction false} ResumeAllKeepsBlocks(s: W.State, error: W.Error)
    ensures W.ResumeAll(s, error).blocks == s.blocks
    decreases |s.waiters|
  {
    var s' := W.Dequeue(s, error);
    DequeueKeepsBlocks(s, error);
    if |s'.waiters| < |s.waiters| {
      ResumeAllKeepsBlocks(s', error);
    }
  }

  lemma PoolStepAgrees(l: M.Layout, s: State, e: W.Step)
    requires Agree(l, s) && W.Enabled(s.threads, e)
    ensures M.Holds(l, Store(l, s, e), W.Apply(s.threads, e).blocks)
  {
    match e
    case Enter(t) => M.AllocTakesFirst(l, s.mem, s.threads.blocks);
    case Free(b) =>
      HeldIsOff(l, s.threads, b);
      M.FreePutsFirst(l, s.mem, s.threads.blocks, b);
    case Detach => ResumeAllKeepsBlocks(s.threads, W.ERROR);
    case _ =>
  }

  lemma StepAgrees(l: M.Layout, s: State, step: Step)
    requires Agree(l, s) && Enabled(l, s, step)
    ensures Agree(l, Apply(l, s, step))
  {
    match step
    case Pool(e) =>
      PoolStepAgrees(l, s, e);
      W.StepKeepsInv(s.threads, e, multiset(Upto(l.total)));
    case Write(i, k, v) =>
      HeldIsOff(l, s.threads, i);
      M.WriteKeepsList(l, s.mem, s.threads.blocks, i, k, v);
  }

  /** In every run of the threads over an initialised pool, the memory holds the
      free list: NULL-terminated, of distinct blocks, as long as the counter; so
      block_list is not NULL when the counter is positive. */
  lemma {:induction false} RunAgrees(l: M.Layout, s: State, steps: seq<Step>, s': State)
    requires Agree(l, s) && Run(l, s, steps, s')
    ensures Agree(l, s') && s'.mem.free == s'.threads.free
    ensures s'.mem.free != 0 ==> s'.mem.list != M.NULL
    decreases |steps|
  {
    if steps != [] {
      StepAgrees(l, s, steps[0]);
      RunAgrees(l, Apply(l, s, steps[0]), steps[1..], s');
    }
  }

  /** rt_mp_init and rt_mp_create start such runs. */
  lemma StartAgrees(l: M.Layout, m: M.Memory)
    requires M.Holds(l, m, Upto(l.total))
    ensures Agree(l, State(m, W.Init(Upto(l.total))))
  {
    var s := W.Init(Upto(l.total));
    assert multiset(s.blocks) + s.held == multiset(Upto(l.total));
  }

  /** Two threads are never given the same memory: of the blocks handed out each
      is so once, and they lie apart. */
  lemma HeldApart(l: M.Layout, m: M.Memory, steps: seq<Step>, s: State, i: nat, j: nat)
    requires M.Holds(l, m, Upto(l.total))
    requires Run(l, State(m, W.Init(Upto(l.total))), steps, s)
    requires i in s.threads.held && j in s.threads.held && i < j
    ensures s.threads.held[i] == 1
    ensures l.UserPointer(i) + (l.stride - M.PTR_SIZE) <= l.Address(j)
  {
    StartAgrees(l, m);
    RunAgrees(l, State(m, W.Init(Upto(l.total))), steps, s);
    UptoOnce(l.total, i);
    assert multiset(Upto(l.total))[i] == multiset(s.threads.blocks)[i] + s.threads.held[i];
    M.BlocksApart(l, i, j);
  }
}
