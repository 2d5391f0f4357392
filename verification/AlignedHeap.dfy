/** rt_malloc_align and rt_free_align of rt-thread/src/kservice.c, on 32-bit
    addresses and sizes. The pointer that rt_malloc returned is kept in the word
    in front of the aligned area. */
module AlignedHeap {

  const WORD: int := 0x1_0000_0000

  type Word = x: int | 0 <= x < WORD

  /** Bits that are set in both. */
  function And(x: Word, y: Word): (r: Word)
    ensures r <= x
  {
    if x == 0 || y == 0 then 0 else
    (if x % 2 == 1 && y % 2 == 1 then 1 else 0) + 2 * And(x / 2, y / 2)
  }

  /** x & ~m. */
  function Clear(x: Word, m: Word): (r: Word)
    ensures r <= x
  {
    x - And(x, m)
  }

  /** x % a. */
  function Rem(x: nat, a: nat): (r: nat)
    requires a > 0
    ensures r < a && r <= x
  {
    if x < a then x else Rem(x - a, a)
  }

  /** A sum or difference of two words. */
  function U32(x: int): (r: Word)
    requires -WORD <= x < 2 * WORD
  {
    if x < 0 then x + WORD else if x < WORD then x else x - WORD
  }

  /** Up to a whole number of pointers of 4 bytes. */
  function RoundUp(x: Word): Word {
    Clear(U32(x + 3), 3)
  }

  /** The number of bytes asked of rt_malloc. */
  function BlockSize(size: Word, align: Word): Word {
    U32(RoundUp(size) + RoundUp(align))
  }

  /** The address handed out for a block that starts at ptr and the alignment
      a, which is rounded up already. */
  function Place(ptr: Word, a: Word): Word {
    Branch(ptr, a, And(ptr, U32(a - 1)), Clear(U32(ptr + U32(a - 1)), U32(a - 1)))
  }

  function Branch(ptr: Word, a: Word, low: Word, up: Word): Word {
    if low == 0 then U32(ptr + a) else up
  }

  // ----- masks -----

  function Pow2(k: nat): (p: nat)
    ensures p > 0
  {
    if k == 0 then 1 else 2 * Pow2(k - 1)
  }

  ghost predicate PowerOfTwo(a: nat) {
    exists k :: a == Pow2(k)
  }

  lemma AndOdd(x: Word, h: Word)
    requires 2 * h + 1 < WORD
    ensures And(x, 2 * h + 1) == x % 2 + 2 * And(x / 2, h)
  {
    assert (2 * h + 1) / 2 == h;
  }

  /** A mask of the low bits is a remainder. */
  lemma {:induction false} LowBits(x: Word, k: nat)
    requires Pow2(k) <= WORD
    ensures And(x, Pow2(k) - 1) == Rem(x, Pow2(k))
  {
    if k == 0 {
      Units(x);
    } else {
      var p := Pow2(k - 1);
      AndOdd(x, p - 1);
      LowBits(x / 2, k - 1);
      Halves(x, p);
    }
  }

  lemma {:induction false} Units(x: nat)
    ensures Rem(x, 1) == 0
  {
    if x > 0 {
      Units(x - 1);
    }
  }

  lemma {:induction false} Halves(x: nat, p: nat)
    requires p > 0
    ensures Rem(x, 2 * p) == x % 2 + 2 * Rem(x / 2, p)
  {
    if x >= 2 * p {
      Halves(x - 2 * p, p);
      assert (x - 2 * p) / 2 == x / 2 - p;
    }
  }

  // ----- where the area goes -----

  lemma And3(y: Word)
    ensures And(y, 3) == y % 4
  {
    AndOdd(y, 1);
    AndOdd(y / 2, 0);
  }

  lemma Rounded(x: Word)
    ensures RoundUp(x) % 4 == 0
    ensures x < WORD - 3 ==> x <= RoundUp(x) <= x + 3
    ensures x >= WORD - 3 ==> RoundUp(x) == 0
  {
    And3(U32(x + 3));
  }

  /** The sizes do not wrap around. */
  predicate Fits(size: Word, align: Word) {
    size < WORD - 3 && RoundUp(size) + RoundUp(align) < WORD
  }

  /** The header word and the area lie in the block, in this order. */
  predicate Within(q: nat, size: nat, ptr: nat, len: nat) {
    ptr + 4 <= q && q + size <= ptr + len
  }

  /** The first multiple of a behind ptr. */
  function Behind(ptr: nat, a: nat): (q: nat)
    requires a > 0
    ensures ptr < q <= ptr + a
  {
    ptr - Rem(ptr, a) + a
  }

  lemma NotZero(a: nat)
    requires PowerOfTwo(a)
    ensures a > 0
  {
    var k :| a == Pow2(k);
  }

  lemma {:induction false} WholeMultiple(x: nat, a: nat)
    requires a > 0
    ensures Rem(x - Rem(x, a), a) == 0
  {
    if x >= a {
      WholeMultiple(x - a, a);
    }
  }

  lemma {:induction false} WordMultiple(x: nat, a: nat)
    requires a > 0 && x % 4 == 0 && a % 4 == 0
    ensures Rem(x, a) % 4 == 0
  {
    if x >= a {
      WordMultiple(x - a, a);
    }
  }

  lemma BehindAligned(ptr: nat, a: nat)
    requires a > 0 && ptr % 4 == 0 && a % 4 == 0
    ensures Rem(Behind(ptr, a), a) == 0 && Behind(ptr, a) % 4 == 0
  {
    WholeMultiple(ptr, a);
    WordMultiple(ptr, a);
  }

  lemma LowMask(x: Word, a: Word)
    requires PowerOfTwo(a)
    ensures a > 0 && And(x, a - 1) == Rem(x, a)
  {
    var k :| a == Pow2(k);
    LowBits(x, k);
  }

  lemma Masks(ptr: Word, a: Word)
    requires PowerOfTwo(a) && ptr + a < WORD
    ensures a > 0 && And(ptr, U32(a - 1)) == Rem(ptr, a)
    ensures Clear(U32(ptr + U32(a - 1)), U32(a - 1)) == ptr + (a - 1) - Rem(ptr + (a - 1), a)
  {
    LowMask(ptr, a);
    LowMask(ptr + (a - 1), a);
  }

  lemma BranchIs(ptr: Word, a: Word)
    requires 0 < a && ptr + a < WORD
    ensures Branch(ptr, a, Rem(ptr, a), ptr + (a - 1) - Rem(ptr + (a - 1), a)) == Behind(ptr, a)
  {
    if Rem(ptr, a) != 0 {
      RemBehind(ptr, a);
    }
  }

  /** Either branch goes to the first multiple behind ptr. */
  lemma PlaceIs(ptr: Word, a: Word)
    requires PowerOfTwo(a) && ptr + a < WORD
    ensures a > 0 && Place(ptr, a) == Behind(ptr, a)
  {
    Masks(ptr, a);
    BranchIs(ptr, a);
  }

  lemma {:induction false} RemBehind(ptr: nat, a: nat)
    requires a > 0 && Rem(ptr, a) != 0
    ensures Rem(ptr + (a - 1), a) == Rem(ptr, a) - 1
  {
    if ptr >= a {
      RemBehind(ptr - a, a);
    }
  }

  lemma WithinIff(ptr: Word, size: Word, r: Word, a: Word, q: Word)
    requires if size < WORD - 3 then size <= r <= size + 3 else r == 0
    requires 0 < a && a % 4 == 0 && ptr % 4 == 0
    requires r + a < WORD ==> ptr < q <= ptr + a && q % 4 == 0
    ensures q % 4 == 0 && Within(q, size, ptr, U32(r + a)) <==> size < WORD - 3 && r + a < WORD
  {
  }

  /** For an alignment that rounds to a power of two and a block that rt_malloc
      may return: the result is a multiple of it, and header and area are inside
      the block, exactly when the sizes do not wrap around. */
  lemma PlaceIff(ptr: Word, size: Word, align: Word)
    requires PowerOfTwo(RoundUp(align))
    requires ptr % 4 == 0 && ptr + BlockSize(size, align) < WORD
    ensures var q, a := Place(ptr, RoundUp(align)), RoundUp(align);
      a > 0 && q % 4 == 0 && Rem(q, a) == 0 && Within(q, size, ptr, BlockSize(size, align))
      <==> Fits(size, align)
  {
    var r, a := RoundUp(size), RoundUp(align);
    NotZero(a);
    Rounded(size);
    Rounded(align);
    if r + a < WORD {
      PlaceIs(ptr, a);
      BehindAligned(ptr, a);
    }
    WithinIff(ptr, size, r, a, Place(ptr, a));
  }

  lemma {:induction false} Bracket(a: nat) returns (h: nat)
    requires a > 0
    ensures Pow2(h) <= a < Pow2(h + 1)
  {
    if a == 1 {
      h := 0;
    } else {
      h := Bracket(a / 2);
      h := h + 1;
    }
  }

  lemma {:induction false} NoCommonBits(n: nat, m: Word)
    requires m < Pow2(n) < WORD
    ensures And(Pow2(n), m) == 0
  {
    if n > 0 && m > 0 {
      NoCommonBits(n - 1, m / 2);
    }
  }

  /** A power of two strictly between a and twice a. */
  lemma NextPower(a: Word) returns (n: nat)
    requires a >= 4 && a < 0x8000_0000 && !PowerOfTwo(a)
    ensures a < Pow2(n) < 2 * a && Pow2(n) <= 0x8000_0000 && Pow2(n) % 4 == 0
  {
    var h := Bracket(a);
    n := h + 1;
    assert a != Pow2(h);
    Quadruple(n);
    assert Pow2(8) == 256;
    assert Pow2(16) == 0x1_0000;
    assert Pow2(24) == 0x100_0000;
    assert Pow2(31) == 0x8000_0000;
    Below(h, 31);
  }

  /** A block there is taken for an aligned one. */
  lemma NotKept(a: Word) returns (ptr: Word)
    requires a > 0 && a % 4 == 0 && a < 0x8000_0000 && !PowerOfTwo(a)
    ensures ptr > 0 && ptr % 4 == 0 && ptr + a < WORD && Rem(Place(ptr, a), a) != 0
  {
    var n := NextPower(a);
    ptr := Pow2(n);
    NoCommonBits(n, a - 1);
    JustBehind(ptr, a);
  }

  lemma JustBehind(ptr: Word, a: Word)
    requires a < ptr < 2 * a && ptr + a < WORD && And(ptr, a - 1) == 0
    ensures Rem(Place(ptr, a), a) != 0
  {
    assert Place(ptr, a) == ptr + a;
    assert Rem(ptr + a, a) == Rem(ptr, a) == Rem(ptr - a, a) == ptr - a;
  }

  lemma {:induction false} Quadruple(n: nat)
    ensures n >= 2 ==> Pow2(n) % 4 == 0
    ensures n < 2 ==> Pow2(n) <= 2
  {
    if n > 2 {
      Quadruple(n - 1);
    }
  }

  lemma {:induction false} Below(h: nat, n: nat)
    requires Pow2(h) < Pow2(n)
    ensures 2 * Pow2(h) <= Pow2(n)
  {
    if h > 0 && n > 0 {
      Below(h - 1, n - 1);
    }
  }

  /** Among the alignments up to half of the address space, those that round to
      a power of two are the ones that every block leads to a multiple of. */
  lemma AlignmentKeptIff(a: Word)
    requires a > 0 && a % 4 == 0 && a < 0x8000_0000
    ensures (forall ptr: Word | ptr > 0 && ptr % 4 == 0 && ptr + a < WORD :: Rem(Place(ptr, a), a) == 0)
      <==> PowerOfTwo(a)
  {
    if PowerOfTwo(a) {
      forall ptr: Word | ptr > 0 && ptr % 4 == 0 && ptr + a < WORD ensures Rem(Place(ptr, a), a) == 0 {
        PlaceIs(ptr, a);
        BehindAligned(ptr, a);
      }
    } else {
      var ptr := NotKept(a);
    }
  }

  // ----- the heap -----

  /** What rt_malloc gave for an area: its start, its length, and the size that
      the caller asked for. */
  datatype Block = Block(ptr: Word, len: Word, size: Word)

  /** The memory by words, and the blocks of the areas in use. */
  datatype State = State(mem: map<Word, Word>, live: map<Word, Block>)

  function Store(mem: map<Word, Word>, a: Word, v: Word): map<Word, Word> {
    mem[a := v]
  }

  predicate InBlock(a: Word, b: Block) {
    b.ptr <= a < b.ptr + b.len
  }

  predicate Apart(b: Block, c: Block) {
    b.ptr + b.len <= c.ptr || c.ptr + c.len <= b.ptr
  }

  /** rt_malloc found memory outside all blocks, or had none. */
  ghost predicate Grants(s: State, ptr: Word, len: Word) {
    ptr == 0 ||
    (&& ptr % 4 == 0 && ptr + len < WORD
     && forall q | q in s.live :: Apart(s.live[q], Block(ptr, len, 0)))
  }

  datatype Result = Result(state: State, ptr: Word)

  /** The pointer to the block goes into the word in front of the area. */
  function AddArea(s: State, q: Word, b: Block): State {
    State(Store(s.mem, U32(q - 4), b.ptr), s.live[q := b])
  }

  /** rt_malloc_align, when rt_malloc returns ptr. */
  function MallocAlign(s: State, size: Word, align: Word, ptr: Word): (r: Result)
  {
    if ptr == 0 then Result(s, 0) else
    var q := Place(ptr, RoundUp(align));
    Result(AddArea(s, q, Block(ptr, BlockSize(size, align), size)), q)
  }

  /** The pointer rt_free_align passes to rt_free, which is null for null. */
  function FreedPtr(s: State, q: Word): Word {
    if q == 0 then 0 else if U32(q - 4) in s.mem then s.mem[U32(q - 4)] else 0
  }

  /** Malloc and Free are the two functions. Write is a store of a user into an
      area, by the word it hits; Other is a store of anyone else, rt_malloc and
      rt_free included, outside the blocks in use. */
  datatype Step =
    | Malloc(size: Word, align: Word, ptr: Word)
    | Free(q: Word)
    | Write(q: Word, at: Word, v: Word)
    | Other(at: Word, v: Word)

  /** Callers ask for alignments that round to a power of two and for sizes that
      do not wrap around, and write inside their own areas. */
  ghost predicate Allowed(s: State, step: Step) {
    match step
    case Malloc(size, align, ptr) =>
      && PowerOfTwo(RoundUp(align)) && Fits(size, align)
      && Grants(s, ptr, BlockSize(size, align))
    case Free(q) => q == 0 || q in s.live
    case Write(q, at, _) => q in s.live && q <= at < q + s.live[q].size
    case Other(at, _) => at % 4 == 0 && forall q | q in s.live :: !InBlock(at, s.live[q])
  }

  function Apply(s: State, step: Step): State {
    match step
    case Malloc(size, align, ptr) => MallocAlign(s, size, align, ptr).state
    case Free(q) => State(s.mem, s.live - {q})
    case Write(_, at, v) => s.(mem := Store(s.mem, at - at % 4, v))
    case Other(at, v) => s.(mem := Store(s.mem, at, v))
  }

  /** An area, its header and its block. */
  ghost predicate Sound(mem: map<Word, Word>, q: Word, b: Block) {
    && b.ptr > 0 && b.ptr % 4 == 0 && q % 4 == 0
    && Within(q, b.size, b.ptr, b.len) && b.ptr + b.len < WORD
    && q - 4 in mem && mem[q - 4] == b.ptr
  }

  ghost predicate Inv(s: State) {
    && (forall q | q in s.live :: Sound(s.mem, q, s.live[q]))
    && (forall q, p | q in s.live && p in s.live && q != p :: Apart(s.live[q], s.live[p]))
  }

  /** A store outside the headers keeps the areas sound. */
  lemma StoreKeeps(s: State, at: Word, v: Word)
    requires Inv(s) && forall q | q in s.live :: at != q - 4
    ensures Inv(s.(mem := Store(s.mem, at, v)))
  {
    var s' := s.(mem := Store(s.mem, at, v));
    forall q | q in s'.live ensures Sound(s'.mem, q, s'.live[q]) {
      assert Sound(s.mem, q, s.live[q]);
    }
  }

  lemma WriteKeepsInv(s: State, q: Word, at: Word, v: Word)
    requires Inv(s) && q in s.live && q <= at < q + s.live[q].size
    ensures Inv(s.(mem := Store(s.mem, at - at % 4, v)))
  {
    var w := at - at % 4;
    assert Sound(s.mem, q, s.live[q]);
    assert q <= w;
    forall p | p in s.live ensures w != p - 4 {
      assert Sound(s.mem, p, s.live[p]);
      assert p != q ==> Apart(s.live[q], s.live[p]);
    }
    StoreKeeps(s, w, v);
  }

  lemma MallocKeepsInv(s: State, size: Word, align: Word, ptr: Word)
    requires Inv(s) && Allowed(s, Malloc(size, align, ptr)) && ptr != 0
    ensures Inv(MallocAlign(s, size, align, ptr).state)
    ensures var q := MallocAlign(s, size, align, ptr).ptr; q !in s.live && q != 0
  {
    PlaceIff(ptr, size, align);
    NewBlock(s, Place(ptr, RoundUp(align)), Block(ptr, BlockSize(size, align), size));
  }

  /** The answer is null, and nothing changes, exactly when rt_malloc had no memory;
      else it is a new area in the block that rt_malloc returned. */
  lemma MallocAnswers(s: State, size: Word, align: Word, ptr: Word)
    requires Inv(s) && Allowed(s, Malloc(size, align, ptr))
    ensures var r := MallocAlign(s, size, align, ptr);
      && (r.ptr == 0 <==> ptr == 0)
      && (ptr == 0 ==> r.state == s)
      && (ptr != 0 ==> r.ptr !in s.live && r.state.live == s.live[r.ptr := Block(ptr, BlockSize(size, align), size)])
  {
    if ptr != 0 {
      MallocKeepsInv(s, size, align, ptr);
    }
  }

  lemma NewBlock(s: State, q: Word, b: Block)
    requires Inv(s) && b.ptr > 0 && b.ptr % 4 == 0 && q % 4 == 0 && b.ptr + b.len < WORD
    requires Within(q, b.size, b.ptr, b.len)
    requires forall p | p in s.live :: Apart(s.live[p], Block(b.ptr, b.len, 0))
    ensures q !in s.live && Inv(AddArea(s, q, b))
  {
    var s' := AddArea(s, q, b);
    forall p | p in s.live ensures q - 4 != p - 4 && Sound(s'.mem, p, s.live[p]) && Apart(s.live[p], b) {
      assert Sound(s.mem, p, s.live[p]) && Apart(s.live[p], Block(b.ptr, b.len, 0));
    }
    assert Sound(s'.mem, q, b);
  }

  lemma StepKeepsInv(s: State, step: Step)
    requires Inv(s) && Allowed(s, step)
    ensures Inv(Apply(s, step))
  {
    match step
    case Malloc(size, align, ptr) =>
      if ptr != 0 {
        MallocKeepsInv(s, size, align, ptr);
      }
    case Free(q) =>
    case Write(q, at, v) => WriteKeepsInv(s, q, at, v);
    case Other(at, v) =>
      forall q | q in s.live ensures at != q - 4 {
        assert Sound(s.mem, q, s.live[q]) && !InBlock(at, s.live[q]);
      }
      StoreKeeps(s, at, v);
  }

  /** A free gives the whole block back: rt_malloc may return it again, or any part
      of it, and the other areas stay in use. */
  lemma FreeReturnsBlock(s: State, q: Word, ptr: Word, len: Word)
    requires Inv(s) && q in s.live && ptr % 4 == 0
    requires s.live[q].ptr <= ptr && ptr + len <= s.live[q].ptr + s.live[q].len
    ensures var s' := Apply(s, Free(q));
      Grants(s', ptr, len) && forall p | p != q :: p in s.live <==> p in s'.live && s'.live[p] == s.live[p]
  {
    assert Sound(s.mem, q, s.live[q]);
    var s' := Apply(s, Free(q));
    forall p | p in s'.live ensures Apart(s'.live[p], Block(ptr, len, 0)) {
      assert Apart(s.live[q], s.live[p]);
    }
  }

  ghost predicate Run(tr: seq<State>) {
    && tr != [] && tr[0].live == map[]
    && forall i | 0 < i < |tr| :: Goes(tr[i - 1], tr[i])
  }

  ghost predicate Goes(s: State, s': State) {
    exists step :: Allowed(s, step) && s' == Apply(s, step)
  }

  lemma {:induction false} RunKeepsInv(tr: seq<State>)
    requires Run(tr)
    ensures Inv(tr[|tr| - 1])
  {
    var n := |tr| - 1;
    if n > 0 {
      RunKeepsInv(tr[..n]);
      assert Goes(tr[n - 1], tr[n]);
      var step :| Allowed(tr[n - 1], step) && tr[n] == Apply(tr[n - 1], step);
      StepKeepsInv(tr[n - 1], step);
    }
  }

  /** In every run, whatever was written, allocated and freed in between, a free
      passes on the pointer that rt_malloc returned for the area. */
  lemma FreePassesBack(tr: seq<State>, q: Word)
    requires Run(tr) && q in tr[|tr| - 1].live
    ensures var s := tr[|tr| - 1]; q != 0 && FreedPtr(s, q) == s.live[q].ptr
  {
    var s := tr[|tr| - 1];
    RunKeepsInv(tr);
    assert Sound(s.mem, q, s.live[q]);
  }

  /** And two areas in use never share a byte, headers included. */
  lemma AreasDisjoint(tr: seq<State>, q: Word, p: Word)
    requires Run(tr) && q != p && q in tr[|tr| - 1].live && p in tr[|tr| - 1].live
    ensures var live := tr[|tr| - 1].live;
      q + live[q].size <= p - 4 || p + live[p].size <= q - 4
  {
    var s := tr[|tr| - 1];
    RunKeepsInv(tr);
    assert Sound(s.mem, q, s.live[q]) && Sound(s.mem, p, s.live[p]) && Apart(s.live[q], s.live[p]);
  }

  /** The memory, with the two functions as they work on it. */
  class Heap {
    var mem: map<Word, Word>

    /** The branch of rt_malloc_align on the block's own alignment. */
    static method AlignPtr(ptr: Word, a: Word) returns (alignPtr: Word)
      ensures alignPtr == Place(ptr, a)
    {
      if And(ptr, U32(a - 1)) == 0 {
        alignPtr := U32(ptr + a);
      } else {
        alignPtr := Clear(U32(ptr + U32(a - 1)), U32(a - 1));
      }
    }

    /** rt_malloc_align; `block` is what rt_malloc returns for BlockSize bytes. */
    method Malloc(size: Word, align: Word, block: Word, ghost live: map<Word, Block>) returns (ptr: Word)
      modifies this
      ensures var r := MallocAlign(State(old(mem), live), size, align, block);
        ptr == r.ptr && mem == r.state.mem
    {
      ptr := block;
      if ptr != 0 {
        var alignPtr: int := AlignPtr(ptr, RoundUp(align));
        mem := Store(mem, U32(alignPtr - 4), ptr);
        ptr := alignPtr;
      }
    }

    /** rt_free_align; the result is what it passes to rt_free. */
    method Free(ptr: Word) returns (realPtr: Word)
      ensures forall live :: realPtr == FreedPtr(State(mem, live), ptr)
    {
      if ptr == 0 {
        return 0;
      }
      var header := U32(ptr - 4);
      realPtr := if header in mem then mem[header] else 0;
    }
  }
}
