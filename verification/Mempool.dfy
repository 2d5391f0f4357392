/** The memory pool of rt-thread/src/mempool.c: a free list threaded through the
    headers of fixed-size blocks in one raw area.

    Addresses are integers and NULL is 0.  The area is an array of cells, one
    for each byte address; a stored pointer is kept in the cell of its first
    byte.  The free list is kept as long as the counter says, NULL-terminated
    and made of distinct blocks, and every handed-out header points back to the
    pool, in every sequence of allocations, frees and writes by the owners of
    handed-out blocks. */
module Mempool {
  import opened Arith

  const NULL := 0
  const PTR_SIZE := 4
  const ALIGN_SIZE := 8
  const WORD: nat := 0x1_0000_0000

  function AlignDown(size: nat): nat {
    size - size % ALIGN_SIZE
  }

  /** RT_ALIGN in 32 bits: the last few sizes wrap around to 0. */
  function AlignUp(size: nat): nat {
    AlignDown((size + ALIGN_SIZE - 1) % WORD)
  }

  lemma AlignDownIs(size: nat)
    ensures AlignDown(size) <= size < AlignDown(size) + ALIGN_SIZE && AlignDown(size) % ALIGN_SIZE == 0
  {
  }

  /** A block size is rounded up to a multiple of ALIGN_SIZE, by less than one. */
  lemma AlignUpIs(size: nat)
    requires size < WORD
    ensures AlignUp(size) % ALIGN_SIZE == 0
    ensures size <= WORD - ALIGN_SIZE ==> size <= AlignUp(size) < size + ALIGN_SIZE
    ensures size > WORD - ALIGN_SIZE ==> AlignUp(size) == 0
  {
    AlignDownIs((size + ALIGN_SIZE - 1) % WORD);
  }

  /** The area: its address, the distance between blocks, how many blocks there
      are, and the address of the pool object. */
  datatype Layout = Layout(start: int, stride: int, total: nat, pool: int) {
    ghost predicate Sound() {
      start > 0 && stride >= PTR_SIZE && pool != NULL
    }

    /** Offset of the header of block i in the area. */
    function Header(i: nat): int {
      i * stride
    }

    function Address(i: nat): int {
      start + Header(i)
    }

    /** The pointer a caller gets for block i. */
    function UserPointer(i: nat): int {
      Address(i) + PTR_SIZE
    }
  }

  /** The memory of a pool: the cells, block_list and block_free_count. */
  datatype Memory = Memory(cells: seq<int>, list: int, free: int)

  lemma BlocksApart(l: Layout, i: nat, j: nat)
    requires l.Sound() && i < j
    ensures l.Header(i) + l.stride <= l.Header(j)
  {
    assert l.Header(j) - l.Header(i) == (j - i) * l.stride;
    assert (j - i - 1) * l.stride >= 0;
  }

  lemma BlockFits(l: Layout, m: Memory, i: nat)
    requires l.Sound() && l.total * l.stride <= |m.cells| && i < l.total
    ensures 0 <= l.Header(i) && l.Header(i) + l.stride <= |m.cells|
  {
    if i + 1 < l.total {
      BlocksApart(l, i, l.total);
    }
    assert (i + 1) * l.stride == l.Header(i) + l.stride;
  }

  /** The bytes a caller asked for end before the next header, and the blocks end
      inside the area. */
  ghost predicate Roomy(l: Layout, requested: nat, bytes: nat) {
    forall i: nat | i < l.total :: l.UserPointer(i) + requested <= l.Address(i + 1) <= l.start + bytes
  }

  lemma RoomyIs(l: Layout, requested: nat, bytes: nat)
    requires l.Sound() && requested + PTR_SIZE <= l.stride && l.total * l.stride <= bytes
    ensures Roomy(l, requested, bytes)
  {
    forall i: nat | i < l.total ensures l.UserPointer(i) + requested <= l.Address(i + 1) <= l.start + bytes {
      BlocksApart(l, i, i + 1);
      if i + 1 < l.total {
        BlocksApart(l, i + 1, l.total);
      }
    }
  }

  // ----- the free list -----

  /** Where the k-th link of the chain must point. */
  function LinkTo(l: Layout, chain: seq<nat>, k: nat): int {
    if k < |chain| then l.Address(chain[k]) else NULL
  }

  ghost predicate Distinct(chain: seq<nat>) {
    forall i, j | 0 <= i < j < |chain| :: chain[i] != chain[j]
  }

  /** The memory holds exactly the blocks of `chain` on the free list, in that
      order; every other block's header points to the pool. */
  ghost predicate Holds(l: Layout, m: Memory, chain: seq<nat>) {
    && l.Sound()
    && l.total * l.stride <= |m.cells|
    && Distinct(chain)
    && (forall k | 0 <= k < |chain| :: chain[k] < l.total)
    && m.free == |chain|
    && m.list == LinkTo(l, chain, 0)
    && (forall k | 0 <= k < |chain| :: HeaderIs(l, m, chain[k], LinkTo(l, chain, k + 1)))
    && (forall i: nat | i < l.total && i !in chain :: HeaderIs(l, m, i, l.pool))
  }

  ghost predicate HeaderIs(l: Layout, m: Memory, i: nat, v: int) {
    0 <= l.Header(i) < |m.cells| && m.cells[l.Header(i)] == v
  }

  /** A store that misses the header of block i leaves it alone. */
  lemma StoreElsewhere(l: Layout, m: Memory, m': Memory, x: int, v: int, i: nat, h: int)
    requires HeaderIs(l, m, i, h) && 0 <= x < |m.cells| && x != l.Header(i)
    requires m'.cells == m.cells[x := v]
    ensures HeaderIs(l, m', i, h)
  {
  }

  // ----- the operations on memory -----

  /** rt_mp_alloc once a block is available, or with time 0. */
  function Alloc(l: Layout, m: Memory): (r: (Memory, int)) {
    var x := m.list - l.start;
    if m.free == 0 || !(0 <= x < |m.cells|) then (m, NULL)
    else (Memory(m.cells[x := l.pool], m.cells[x], m.free - 1), m.list + PTR_SIZE)
  }

  /** The memory part of rt_mp_free. */
  function Free(l: Layout, m: Memory, block: int): Memory {
    var x := block - PTR_SIZE - l.start;
    if block == NULL || !(0 <= x < |m.cells|) then m
    else Memory(m.cells[x := m.list], block - PTR_SIZE, m.free + 1)
  }

  /** The owner of block i stores v at offset k of its block. */
  function Write(l: Layout, m: Memory, i: nat, k: nat, v: int): Memory {
    var x := l.Header(i) + PTR_SIZE + k;
    if 0 <= x < |m.cells| then m.(cells := m.cells[x := v]) else m
  }

  lemma AllocTakesFirst(l: Layout, m: Memory, chain: seq<nat>)
    requires Holds(l, m, chain)
    ensures chain == [] ==> Alloc(l, m) == (m, NULL)
    ensures chain != [] ==> Alloc(l, m).1 == l.UserPointer(chain[0]) && Holds(l, Alloc(l, m).0, chain[1..])
  {
    if chain != [] {
      var m' := Alloc(l, m).0;
      var first := chain[0];
      BlockFits(l, m, first);
      assert HeaderIs(l, m, first, LinkTo(l, chain, 1));
      forall k | 0 <= k < |chain[1..]| ensures HeaderIs(l, m', chain[1..][k], LinkTo(l, chain[1..], k + 1)) {
        HeadersDiffer(l, first, chain[k + 1]);
        StoreElsewhere(l, m, m', l.Header(first), l.pool, chain[k + 1], LinkTo(l, chain, k + 2));
      }
      forall i: nat | i < l.total && i !in chain[1..] ensures HeaderIs(l, m', i, l.pool) {
        if i != first {
          assert i !in chain;
          HeadersDiffer(l, first, i);
          StoreElsewhere(l, m, m', l.Header(first), l.pool, i, l.pool);
        }
      }
    }
  }

  lemma HeadersDiffer(l: Layout, i: nat, j: nat)
    requires l.Sound() && i != j
    ensures l.Header(i) != l.Header(j)
  {
    if i < j {
      BlocksApart(l, i, j);
    } else {
      BlocksApart(l, j, i);
    }
  }

  lemma FreePutsFirst(l: Layout, m: Memory, chain: seq<nat>, i: nat)
    requires Holds(l, m, chain) && i < l.total && i !in chain
    ensures Holds(l, Free(l, m, l.UserPointer(i)), [i] + chain)
  {
    var m' := Free(l, m, l.UserPointer(i));
    var chain' := [i] + chain;
    BlockFits(l, m, i);
    forall k | 0 <= k < |chain'| ensures HeaderIs(l, m', chain'[k], LinkTo(l, chain', k + 1)) {
      if k > 0 {
        HeadersDiffer(l, i, chain[k - 1]);
        StoreElsewhere(l, m, m', l.Header(i), m.list, chain[k - 1], LinkTo(l, chain, k));
      }
    }
    forall j: nat | j < l.total && j !in chain' ensures HeaderIs(l, m', j, l.pool) {
      assert j != i && j !in chain;
      HeadersDiffer(l, i, j);
      StoreElsewhere(l, m, m', l.Header(i), m.list, j, l.pool);
    }
  }

  /** What rt_mp_free reads and writes when it is given block i. */
  lemma FreeTouches(l: Layout, m: Memory, chain: seq<nat>, i: nat, block: int)
    requires Holds(l, m, chain) && i < l.total && i !in chain && block == l.UserPointer(i)
    ensures var x := block - PTR_SIZE - l.start;
      0 <= x < |m.cells| && m.cells[x] == l.pool && block != NULL
      && Free(l, m, block) == Memory(m.cells[x := m.list], block - PTR_SIZE, m.free + 1)
    ensures Holds(l, Free(l, m, block), [i] + chain)
  {
    BlockFits(l, m, i);
    FreePutsFirst(l, m, chain, i);
    assert HeaderIs(l, m, i, l.pool);
  }

  /** A store inside the user part of any block touches no header. */
  lemma WriteKeepsList(l: Layout, m: Memory, chain: seq<nat>, i: nat, k: nat, v: int)
    requires Holds(l, m, chain) && i < l.total && k < l.stride - PTR_SIZE
    ensures Holds(l, Write(l, m, i, k, v), chain)
  {
    var m' := Write(l, m, i, k, v);
    var x := l.Header(i) + PTR_SIZE + k;
    BlockFits(l, m, i);
    forall j: nat, h | HeaderIs(l, m, j, h) ensures HeaderIs(l, m', j, h) {
      if j < i {
        BlocksApart(l, j, i);
      } else if i < j {
        BlocksApart(l, i, j);
      }
      StoreElsewhere(l, m, m', x, v, j, h);
    }
  }

  // ----- runs of the operations -----

  datatype Op = DoAlloc | DoFree(i: nat) | DoWrite(i: nat, k: nat, v: int)

  /** What the operations do to the list of free block numbers. */
  function Track(chain: seq<nat>, op: Op): seq<nat> {
    match op
    case DoAlloc => if chain == [] then [] else chain[1..]
    case DoFree(i) => [i] + chain
    case DoWrite(_, _, _) => chain
  }

  /** Callers free only handed-out blocks and write only inside them. */
  predicate Allowed(l: Layout, chain: seq<nat>, op: Op) {
    match op
    case DoAlloc => true
    case DoFree(i) => i < l.total && i !in chain
    case DoWrite(i, k, _) => i < l.total && i !in chain && k < l.stride - PTR_SIZE
  }

  function Perform(l: Layout, m: Memory, op: Op): Memory {
    match op
    case DoAlloc => Alloc(l, m).0
    case DoFree(i) => Free(l, m, l.UserPointer(i))
    case DoWrite(i, k, v) => Write(l, m, i, k, v)
  }

  ghost predicate Run(l: Layout, m: Memory, chain: seq<nat>, ops: seq<Op>, m': Memory, chain': seq<nat>)
    decreases |ops|
  {
    if ops == [] then m == m' && chain == chain'
    else
      && Allowed(l, chain, ops[0])
      && Run(l, Perform(l, m, ops[0]), Track(chain, ops[0]), ops[1..], m', chain')
  }

  /** After any allowed sequence of operations the memory still holds the free
      list that the sequence of takes and returns says. */
  lemma {:induction false} RunKeepsList(l: Layout, m: Memory, chain: seq<nat>, ops: seq<Op>, m': Memory, chain': seq<nat>)
    requires Holds(l, m, chain) && Run(l, m, chain, ops, m', chain')
    ensures Holds(l, m', chain')
    decreases |ops|
  {
    if ops != [] {
      match ops[0] {
        case DoAlloc => AllocTakesFirst(l, m, chain);
        case DoFree(i) => FreePutsFirst(l, m, chain, i);
        case DoWrite(i, k, v) => WriteKeepsList(l, m, chain, i, k, v);
      }
      RunKeepsList(l, Perform(l, m, ops[0]), Track(chain, ops[0]), ops[1..], m', chain');
    }
  }

  /** The assertion that block_list is not NULL when the counter is positive
      never fails, and the block taken is inside the area. */
  lemma ListNonNull(l: Layout, m: Memory, chain: seq<nat>, ops: seq<Op>, m': Memory, chain': seq<nat>)
    requires Holds(l, m, chain) && Run(l, m, chain, ops, m', chain') && m'.free != 0
    ensures m'.list != NULL
    ensures l.start <= m'.list && m'.list + l.stride <= l.start + |m'.cells|
  {
    RunKeepsList(l, m, chain, ops, m', chain');
    BlockFits(l, m', chain'[0]);
  }

  // ----- initialisation -----

  /** How many blocks rt_mp_init finds room for. */
  function BlockCount(size: nat, blockSize: nat): nat {
    Quot(AlignDown(size), AlignUp(blockSize) + PTR_SIZE)
  }

  /** As many blocks as fit. */
  lemma BlockCountIs(size: nat, blockSize: nat)
    ensures var n, s := BlockCount(size, blockSize), AlignUp(blockSize) + PTR_SIZE;
      n * s <= AlignDown(size) < (n + 1) * s
  {
  }

  /** The offset at which rt_mp_init stores the terminating NULL. */
  function LastHeader(size: nat, blockSize: nat): int {
    (BlockCount(size, blockSize) - 1) * (AlignUp(blockSize) + PTR_SIZE)
  }

  /** rt_mp_init stays inside its area exactly when the area has room for a
      block: with none, the terminating NULL is stored in front of it. */
  lemma InitStaysInsideIff(size: nat, blockSize: nat)
    requires size > 0 && blockSize > 0
    ensures 0 <= LastHeader(size, blockSize) < size <==> AlignUp(blockSize) + PTR_SIZE <= AlignDown(size)
  {
    var s := AlignUp(blockSize) + PTR_SIZE;
    DivisionFacts(AlignDown(size), s);
    var n := BlockCount(size, blockSize);
    assert LastHeader(size, blockSize) == n * s - s;
    if n >= 1 {
      MulMono(1, s, n, s);
    }
  }

  /** The size that rt_mp_create asks of rt_malloc. */
  function CreateSize(blockSize: nat, blockCount: nat): nat {
    (AlignUp(blockSize) + PTR_SIZE) * blockCount % WORD
  }

  /** The last header that rt_mp_create stores is inside what it allocated exactly
      when the product does not overflow. */
  lemma CreateStaysInsideIff(blockSize: nat, blockCount: nat)
    requires blockCount > 0
    ensures var s := AlignUp(blockSize) + PTR_SIZE;
      (blockCount - 1) * s + PTR_SIZE <= CreateSize(blockSize, blockCount) <==> s * blockCount < WORD
  {
    var s := AlignUp(blockSize) + PTR_SIZE;
    var p := s * blockCount;
    assert (blockCount - 1) * s == p - s;
    if p >= WORD {
      assert p % WORD <= p - WORD;
    }
  }

  lemma DivisionFacts(a: nat, s: nat)
    requires s > 0
    ensures a >= s ==> Quot(a, s) >= 1
    ensures a < s ==> Quot(a, s) == 0
  {
    if a >= s {
      QuotMono(s, a, s);
      QuotIs(s, s, 1);
    } else {
      QuotIs(a, s, 0);
    }
  }

  lemma UptoHasAll(n: nat)
    ensures forall i: nat | i < n :: i in Upto(n)
  {
    forall i: nat | i < n ensures i in Upto(n) {
      assert Upto(n)[i] == i;
    }
  }

  ghost predicate PointsToNext(l: Layout, m: Memory, i: nat) {
    HeaderIs(l, m, i, l.Address(i + 1))
  }

  /** The first n headers each point to the following block. */
  ghost predicate Threaded(l: Layout, m: Memory, n: nat) {
    forall i: nat | i < n :: PointsToNext(l, m, i)
  }

  lemma ThreadOne(l: Layout, m: Memory, n: nat)
    requires l.Sound() && n < l.total && l.total * l.stride <= |m.cells| && Threaded(l, m, n)
    ensures 0 <= l.Header(n) < |m.cells|
    ensures Threaded(l, m.(cells := m.cells[l.Header(n) := l.Address(n + 1)]), n + 1)
  {
    BlockFits(l, m, n);
    var m' := m.(cells := m.cells[l.Header(n) := l.Address(n + 1)]);
    forall i: nat | i < n + 1 ensures PointsToNext(l, m', i) {
      if i < n {
        assert PointsToNext(l, m, i);
        HeadersDiffer(l, i, n);
      }
    }
  }

  lemma ThreadEnd(l: Layout, m: Memory)
    requires l.Sound() && l.total >= 1 && l.total * l.stride <= |m.cells| && Threaded(l, m, l.total)
    requires m.list == l.start && m.free == l.total
    ensures 0 <= l.Header(l.total - 1) < |m.cells|
    ensures Holds(l, m.(cells := m.cells[l.Header(l.total - 1) := NULL]), Upto(l.total))
  {
    var last := l.total - 1;
    BlockFits(l, m, last);
    var m' := m.(cells := m.cells[l.Header(last) := NULL]);
    var chain := Upto(l.total);
    forall k | 0 <= k < |chain| ensures HeaderIs(l, m', chain[k], LinkTo(l, chain, k + 1)) {
      if k < last {
        assert PointsToNext(l, m, k);
        HeadersDiffer(l, k, last);
      }
    }
    UptoHasAll(l.total);
  }

  class Pool {
    const address: int
    var start: int
    var size: nat
    var blockSize: nat
    var totalCount: nat
    var freeCount: int
    var blockList: int
    var area: array<int>

    ghost function TheLayout(): Layout
      reads this
    {
      Layout(start, blockSize + PTR_SIZE, totalCount, address)
    }

    ghost function TheMemory(): Memory
      reads this, area
    {
      Memory(area[..], blockList, freeCount)
    }

    /** rt_mp_init on an area of `size` bytes at address `start`. */
    constructor Init(address: int, start: int, area: array<int>, size: nat, blockSize: nat)
      requires address != NULL && start > 0
      requires size > 0 && blockSize > 0 && area.Length == size
      requires AlignUp(blockSize) + PTR_SIZE <= AlignDown(size)
      modifies area
      ensures this.area == area && this.start == start && this.address == address
      ensures this.blockSize == AlignUp(blockSize) && totalCount == BlockCount(size, blockSize) >= 1
      ensures totalCount * (this.blockSize + PTR_SIZE) <= AlignDown(size) < (totalCount + 1) * (this.blockSize + PTR_SIZE)
      ensures blockSize <= WORD - ALIGN_SIZE ==> Roomy(TheLayout(), blockSize, AlignDown(size))
      ensures Holds(TheLayout(), TheMemory(), Upto(totalCount))
    {
      this.address := address;
      this.start := start;
      this.area := area;
      this.size := AlignDown(size);
      this.blockSize := AlignUp(blockSize);
      this.totalCount := BlockCount(size, blockSize);
      this.freeCount := BlockCount(size, blockSize);
      this.blockList := start;
      new;
      DivisionFacts(AlignDown(size), this.blockSize + PTR_SIZE);
      BlockCountIs(size, blockSize);
      if blockSize <= WORD - ALIGN_SIZE {
        AlignUpIs(blockSize);
        RoomyIs(TheLayout(), blockSize, AlignDown(size));
      }
      ThreadList();
    }

    /** rt_mp_create: `address` is what the object allocation returned and `area`
        what rt_malloc returned for the whole pool; without either there is no
        pool. */
    static method Create(address: int, start: int, area: array?<int>, blockCount: nat, blockSize: nat) returns (p: Pool?)
      requires start > 0 && blockCount > 0 && blockSize > 0
      requires area != null ==> area.Length == (AlignUp(blockSize) + PTR_SIZE) * blockCount
      modifies if area != null then {area} else {}
      ensures address == NULL || area == null <==> p == null
      ensures p != null ==>
        fresh(p) && p.area == area && p.start == start && p.address == address
        && p.blockSize == AlignUp(blockSize) && p.totalCount == blockCount
        && (blockSize <= WORD - ALIGN_SIZE ==> Roomy(p.TheLayout(), blockSize, area.Length))
        && Holds(p.TheLayout(), p.TheMemory(), Upto(blockCount))
    {
      if address == NULL || area == null {
        return null;
      }
      p := new Pool.Over(address, start, area, blockCount, AlignUp(blockSize));
      if blockSize <= WORD - ALIGN_SIZE {
        AlignUpIs(blockSize);
        RoomyIs(p.TheLayout(), blockSize, area.Length);
      }
    }

    constructor Over(address: int, start: int, area: array<int>, blockCount: nat, blockSize: nat)
      requires address != NULL && start > 0 && blockCount > 0
      requires area.Length == (blockSize + PTR_SIZE) * blockCount
      modifies area
      ensures this.area == area && this.start == start && this.address == address
      ensures this.blockSize == blockSize && totalCount == blockCount
      ensures Holds(TheLayout(), TheMemory(), Upto(blockCount))
    {
      this.address := address;
      this.start := start;
      this.area := area;
      this.size := (blockSize + PTR_SIZE) * blockCount;
      this.blockSize := blockSize;
      this.totalCount := blockCount;
      this.freeCount := blockCount;
      this.blockList := start;
      new;
      ThreadList();
    }

    /** The loop both initialisers share: each header points to the next block,
        the last one to NULL. */
    method ThreadList()
      requires TheLayout().Sound() && totalCount >= 1 && freeCount == totalCount && blockList == start
      requires totalCount * (blockSize + PTR_SIZE) <= area.Length
      modifies area
      ensures Holds(TheLayout(), TheMemory(), Upto(totalCount))
    {
      ghost var l := TheLayout();
      var offset := 0;
      while offset < totalCount
        invariant 0 <= offset <= totalCount && l == TheLayout()
        invariant Threaded(l, TheMemory(), offset)
      {
        ThreadBlock(offset);
        offset := offset + 1;
      }
      ghost var m := TheMemory();
      ThreadEnd(l, m);
      area[(offset - 1) * (blockSize + PTR_SIZE)] := NULL;
      assert TheMemory() == m.(cells := m.cells[l.Header(offset - 1) := NULL]);
    }

    /** The body of that loop. */
    method ThreadBlock(offset: nat)
      requires TheLayout().Sound() && offset < totalCount
      requires totalCount * (blockSize + PTR_SIZE) <= area.Length && Threaded(TheLayout(), TheMemory(), offset)
      modifies area
      ensures Threaded(TheLayout(), TheMemory(), offset + 1)
    {
      ghost var l, m := TheLayout(), TheMemory();
      ThreadOne(l, m, offset);
      area[offset * (blockSize + PTR_SIZE)] := start + (offset + 1) * (blockSize + PTR_SIZE);
      assert TheMemory() == m.(cells := m.cells[l.Header(offset) := l.Address(offset + 1)]);
    }

    /** rt_mp_alloc when a block is free, or with time 0. */
    method AllocNow(ghost chain: seq<nat>) returns (block: int)
      requires Holds(TheLayout(), TheMemory(), chain)
      modifies this`freeCount, this`blockList, area
      ensures (TheMemory(), block) == old(Alloc(TheLayout(), TheMemory()))
      ensures block == if chain == [] then NULL else TheLayout().UserPointer(chain[0])
      ensures Holds(TheLayout(), TheMemory(), Track(chain, DoAlloc))
    {
      ghost var l, m := TheLayout(), TheMemory();
      AllocTakesFirst(l, m, chain);
      if freeCount == 0 {
        return NULL;
      }
      BlockFits(l, m, chain[0]);
      freeCount := freeCount - 1;
      var blockPtr := blockList;
      assert blockPtr != NULL;
      blockList := area[blockPtr - start];
      area[blockPtr - start] := address;
      assert area[..] == m.cells[m.list - l.start := l.pool];
      block := blockPtr + PTR_SIZE;
      assert (TheMemory(), block) == Alloc(l, m) && TheLayout() == l;
    }

    /** rt_mp_free of NULL or of the handed-out block i. */
    method FreeNow(block: int, ghost chain: seq<nat>, ghost i: nat)
      requires Holds(TheLayout(), TheMemory(), chain)
      requires block != NULL ==> i < totalCount && i !in chain && block == TheLayout().UserPointer(i)
      modifies this`freeCount, this`blockList, area
      ensures TheMemory() == old(Free(TheLayout(), TheMemory(), block))
      ensures Holds(TheLayout(), TheMemory(), if block == NULL then chain else Track(chain, DoFree(i)))
    {
      if block == NULL {
        return;
      }
      ghost var l, m := TheLayout(), TheMemory();
      FreeTouches(l, m, chain, i, block);
      var blockPtr := block - PTR_SIZE;
      var pool := area[blockPtr - start];
      assert pool == address;
      freeCount := freeCount + 1;
      area[blockPtr - start] := blockList;
      blockList := blockPtr;
      assert area[..] == m.cells[blockPtr - start := m.list];
      assert TheMemory() == Free(l, m, block) && TheLayout() == l;
    }
  }
}
