/** Reception over a circular DMA buffer: libraries/rt_drivers/drv_usart_v2.c
    turns the DMA counter into lengths, and the receive branch of
    rt_hw_serial_isr copies the reported bytes out of the DMA buffer. */
module UsartDma {
  import opened Arith
  import opened SerialRing
  import opened Wrappers

  type Byte = bv8

  /** dma_rx_isr: the bytes since `last`, when the counter reads `counter`. */
  function Report(bufsz: nat, last: nat, counter: nat): (len: nat)
    requires last <= bufsz && counter <= bufsz
    ensures len <= bufsz
  {
    if counter <= last then last - counter else bufsz + last - counter
  }

  /** last_index after a report of `len`. */
  function LastIndex(last: nat, len: nat, counter: nat): nat {
    if len == 0 then last else counter
  }

  /** RT_SERIAL_RX_MINBUFSZ / 2. */
  const MIN_PING: nat := 32

  /** The size of the DMA buffer for a configured dma_ping_bufsz: opening the
      device raises it to the minimum. */
  function BufferSize(configured: nat): nat {
    if configured < MIN_PING then MIN_PING else configured
  }

  class Uart {
    var bufsz: nat
    var lastIndex: nat

    /** A device configured before it is opened. */
    constructor (pingBufsz: nat)
      ensures bufsz == lastIndex == pingBufsz
    {
      bufsz, lastIndex := pingBufsz, pingBufsz;
    }

    /** at32_configure. */
    method Configure(open: bool)
      modifies this`lastIndex
      ensures lastIndex == if open then old(lastIndex) else bufsz
    {
      if !open {
        lastIndex := bufsz;
      }
    }

    /** The buffer size in rt_serial_rx_enable; last_index is not set again. */
    method RxEnable()
      modifies this`bufsz
      ensures bufsz == BufferSize(old(bufsz))
    {
      if bufsz < MIN_PING {
        bufsz := MIN_PING;
      }
    }

    /** dma_rx_isr; the length goes to rt_hw_serial_isr when it is not 0. */
    method DmaRxIsr(counter: nat) returns (recvLen: nat)
      requires lastIndex <= bufsz && counter <= bufsz
      modifies this`lastIndex
      ensures recvLen == Report(bufsz, old(lastIndex), counter)
      ensures lastIndex == LastIndex(old(lastIndex), recvLen, counter)
    {
      if counter <= lastIndex {
        recvLen := lastIndex - counter;
      } else {
        recvLen := bufsz + lastIndex - counter;
      }
      if recvLen != 0 {
        lastIndex := counter;
      }
    }
  }

  /** What the counter reads when the DMA writes place `pos` next: at the wrap
      point it shows 0 until it is reloaded. */
  predicate Shows(sz: nat, pos: nat, counter: nat) {
    counter == sz - pos || (pos == 0 && counter == 0)
  }

  /** The report is the number u of bytes that came since the last one exactly
      while the DMA has not gone once around, or has to the byte with the wrap
      point read first as full and then as 0. */
  lemma ReportIff(sz: nat, d: nat, u: nat, pos: nat, last: nat, counter: nat)
    requires d < sz && pos < sz && (u <= sz ==> pos == At(sz, d, u))
    requires Shows(sz, d, last) && Shows(sz, pos, counter)
    requires u == 0 && last == sz ==> counter != 0
    ensures Report(sz, last, counter) == u <==> u < sz || (u == sz && last == sz && counter == 0)
  {
  }

  // ----- the DMA, the handler and the copy, over whole runs -----

  /** `written` is all the DMA stored, `delivered` what was copied out of the
      buffer, `since` counts the bytes after the last look at the counter, and
      `pending` is the length of a call that has not copied yet. */
  datatype State = State(buf: seq<Byte>, pos: nat, counter: nat,
                         last: nat, ring: Ring, pending: Option<nat>,
                         reported: nat, since: nat, written: seq<Byte>, delivered: seq<Byte>)
  {
    function Size(): nat {
      |buf|
    }

    predicate Valid() {
      && pos < Size() && counter <= Size() && last <= Size()
      && ring.Valid() && ring.size <= Size()
    }
  }

  /** A device that was configured with c is opened. */
  ghost predicate Init(s: State, c: nat) {
    var sz := BufferSize(c);
    && |s.buf| == sz && s.pos == 0 && s.counter == sz
    && s.last == c && s.ring == Ring(sz - sz % 8, 0, false, 0, false) && s.pending == None
    && s.reported == 0 && s.since == 0 && s.written == [] && s.delivered == []
  }

  /** Byte stores one byte, and reloads the counter at once or leaves it 0. */
  datatype Step = Byte(b: Byte, atOnce: bool) | Reload | Read | Copy

  /** A call looks at the counter before a whole buffer came in, and copies
      before what it reported is stored over. */
  predicate Timely(s: State, step: Step) {
    match step
    case Byte(_, _) => true
    case Reload => s.counter == 0
    case Read => s.pending.None? && s.since < s.Size()
    case Copy => s.pending.Some? && s.pending.value + s.since <= s.Size()
  }

  function StoreByte(s: State, b: Byte, atOnce: bool): (s': State)
    requires s.Valid()
    ensures s'.Valid() && s'.Size() == s.Size()
  {
    var counter := (if s.counter == 0 then s.Size() else s.counter) - 1;
    s.(buf := s.buf[s.pos := b],
       pos := if s.pos + 1 < s.Size() then s.pos + 1 else 0,
       counter := if counter == 0 && atOnce then s.Size() else counter,
       since := s.since + 1,
       written := s.written + [b])
  }

  function ReadCounter(s: State): (s': State)
    requires s.Valid()
    ensures s'.Valid() && s'.Size() == s.Size()
  {
    var len := Report(s.Size(), s.last, s.counter);
    s.(last := LastIndex(s.last, len, s.counter),
       pending := if len == 0 then None else Some(len),
       reported := s.reported + len,
       since := 0)
  }

  /** The receive branch of rt_hw_serial_isr. */
  function CopyOut(s: State): (s': State)
    requires s.Valid() && s.pending.Some?
    ensures s'.Valid() && s'.Size() == s.Size()
  {
    var p := Peek(UpdateWrite(s.ring, s.pending.value));
    var q := Peek(p.ring);
    s.(ring := q.ring,
       pending := None,
       delivered := s.delivered + (Extract(s.buf, p) + Extract(s.buf, q)))
  }

  function Apply(s: State, step: Step): (s': State)
    requires s.Valid() && Timely(s, step)
    ensures s'.Valid() && s'.Size() == s.Size()
  {
    match step
    case Byte(b, atOnce) => StoreByte(s, b, atOnce)
    case Reload => s.(counter := s.Size())
    case Read => ReadCounter(s)
    case Copy => CopyOut(s)
  }

  ghost predicate Run(tr: seq<State>, c: nat) {
    && tr != [] && Init(tr[0], c)
    && (forall i | 0 < i < |tr| :: Goes(tr[i - 1], tr[i]))
  }

  ghost predicate Goes(s: State, s': State) {
    s.Valid() && exists step :: Timely(s, step) && s' == Apply(s, step)
  }

  function Pending(s: State): nat {
    if s.pending.Some? then s.pending.value else 0
  }

  // ----- the accounting, for every buffer size -----

  /** The place the DMA was at when the counter was last looked at. */
  function Mark(s: State): (m: nat)
    requires s.Valid()
    ensures m < s.Size() && Shows(s.Size(), m, s.last)
  {
    if s.last == 0 then 0 else s.Size() - s.last
  }

  /** The reports sum up to the bytes stored before the last look. */
  ghost predicate Accounted(s: State) {
    && s.Valid()
    && s.reported + s.since == |s.written|
    && Shows(s.Size(), s.pos, s.counter)
    && (s.since <= s.Size() ==> s.pos == At(s.Size(), Mark(s), s.since))
    && (s.since == 0 && s.last == s.Size() ==> s.counter != 0)
  }

  /** In a state that is accounted for, the next report is right exactly under
      the condition of ReportIff. */
  lemma NextReportIff(s: State)
    requires Accounted(s)
    ensures Report(s.Size(), s.last, s.counter) == s.since <==>
      s.since < s.Size() || (s.since == s.Size() && s.last == s.Size() && s.counter == 0)
  {
    ReportIff(s.Size(), Mark(s), s.since, s.pos, s.last, s.counter);
  }

  lemma StepKeepsAccounted(s: State, step: Step)
    requires Accounted(s) && Timely(s, step)
    ensures Accounted(Apply(s, step))
  {
    if step.Read? {
      NextReportIff(s);
    }
  }

  lemma {:induction false} RunKeepsAccounted(tr: seq<State>, c: nat)
    requires Run(tr, c) && Usable(c)
    ensures Accounted(tr[|tr| - 1])
  {
    var n := |tr| - 1;
    if n > 0 {
      RunKeepsAccounted(tr[..n], c);
      assert Goes(tr[n - 1], tr[n]);
      var step :| Timely(tr[n - 1], step) && tr[n] == Apply(tr[n - 1], step);
      StepKeepsAccounted(tr[n - 1], step);
    }
  }

  /** The configured size is the one the DMA counts from, or 0, which the counter
      shows at the start of a buffer as well. */
  predicate Usable(c: nat) {
    c == 0 || c >= MIN_PING
  }

  predicate Summed(s: State) {
    s.reported + s.since == |s.written|
  }

  ghost predicate Reaches(s: State, c: nat) {
    exists tr :: Run(tr, c) && tr[|tr| - 1] == s
  }

  /** In every run with less than a buffer of bytes between looks at the counter
      the reports sum up to the bytes stored, exactly when the configured size was
      0 or not raised. */
  lemma SumOfReportsIff(c: nat)
    ensures (forall s | Reaches(s, c) :: Summed(s)) <==> Usable(c)
  {
    if Usable(c) {
      forall s | Reaches(s, c) ensures Summed(s) {
        var tr :| Run(tr, c) && tr[|tr| - 1] == s;
        RunKeepsAccounted(tr, c);
      }
    } else {
      var s := RaisedFails(c);
    }
  }

  lemma Next(s: State, step: Step, c: nat) returns (s': State)
    requires Reaches(s, c) && s.Valid() && Timely(s, step)
    ensures s' == Apply(s, step) && Reaches(s', c)
  {
    s' := Apply(s, step);
    var tr :| Run(tr, c) && tr[|tr| - 1] == s;
    var tr' := tr + [s'];
    assert Goes(s, s');
    forall i | 0 < i < |tr'| ensures Goes(tr'[i - 1], tr'[i]) {
      if i < |tr| {
        assert Goes(tr[i - 1], tr[i]);
      }
    }
    assert Run(tr', c) && tr'[|tr'| - 1] == s';
  }

  lemma Start(c: nat) returns (s: State)
    ensures Init(s, c) && Reaches(s, c)
  {
    var sz := BufferSize(c);
    var ring := Ring(sz - sz % 8, 0, false, 0, false);
    s := State(seq(sz, i => 0), 0, sz, c, ring, None, 0, 0, [], []);
    assert Run([s], c) && [s][|[s]| - 1] == s;
  }

  /** When the size was raised, the first report after one byte is wrong: 0 for a
      configured size one short of the minimum, else one more than the size. */
  lemma RaisedFails(c: nat) returns (s: State)
    requires !Usable(c)
    ensures Reaches(s, c) && !Summed(s) && |s.written| == 1
    ensures s.reported == if c == MIN_PING - 1 then 0 else c + 1
  {
    s := Start(c);
    s := Next(s, Step.Byte(0, true), c);
    s := Next(s, Read, c);
  }

  // ----- the bytes, for buffers the ring describes in full -----

  /** The bytes behind the delivered ones lie in the buffer, from the read index
      on, as long as they are no more than a buffer. */
  ghost predicate Held(s: State)
    requires s.Valid() && s.ring.ri < s.Size()
  {
    var u := |s.written| - |s.delivered|;
    0 <= u <= s.Size() ==> Walk(s.buf, s.ring.ri, u) == s.written[|s.delivered|..]
  }

  /** The ring stands where the DMA was at the last look, but for the bytes of a
      call that has not copied yet. */
  ghost predicate InStep(s: State) {
    && s.Valid() && s.ring.size == s.Size() && s.ring.Empty() && s.ring.ri < s.Size()
    && (s.pending.Some? ==> 0 < Pending(s)) && Pending(s) < s.Size()
    && s.reported == |s.delivered| + Pending(s)
    && Mark(s) == At(s.Size(), s.ring.ri, Pending(s))
  }

  ghost predicate Inv(s: State) {
    Accounted(s) && InStep(s) && Held(s) && s.delivered == s.written[..|s.delivered|]
  }

  lemma StoreKeepsHeld(s: State, s': State, u: nat, b: Byte)
    requires s.Valid() && s'.Valid() && s.ring.ri < s.Size() && Held(s)
    requires u == |s.written| - |s.delivered| && s.delivered == s.written[..|s.delivered|]
    requires u < s.Size() ==> s.pos == At(s.Size(), s.ring.ri, u)
    requires s'.buf == s.buf[s.pos := b] && s'.written == s.written + [b]
    requires s'.ring == s.ring && s'.delivered == s.delivered
    ensures Held(s') && s'.delivered == s'.written[..|s'.delivered|]
  {
    assert s'.written[|s.delivered|..] == s.written[|s.delivered|..] + [b];
    if u < s.Size() {
      WalkStore(s.buf, s.ring.ri, u, b);
    }
  }

  lemma ByteKeepsInStep(s: State, b: Byte, atOnce: bool)
    requires InStep(s)
    ensures InStep(StoreByte(s, b, atOnce))
  {
  }

  lemma ByteKeepsInv(s: State, b: Byte, atOnce: bool)
    requires Inv(s)
    ensures Inv(StoreByte(s, b, atOnce))
  {
    StepKeepsAccounted(s, Step.Byte(b, atOnce));
    ByteKeepsInStep(s, b, atOnce);
    var u := |s.written| - |s.delivered|;
    if u < s.Size() {
      assert s.pos == At(s.Size(), s.ring.ri, u);
    }
    StoreKeepsHeld(s, StoreByte(s, b, atOnce), u, b);
  }

  lemma ReadKeepsInv(s: State)
    requires Inv(s) && Timely(s, Read)
    ensures Inv(ReadCounter(s))
  {
    StepKeepsAccounted(s, Read);
    NextReportIff(s);
  }

  /** What a copy does, without the ring arithmetic. */
  ghost predicate Copies(s: State, s': State)
    requires InStep(s) && s.pending.Some?
  {
    var n := s.pending.value;
    && s' == s.(ring := s'.ring, pending := None, delivered := s.delivered + Walk(s.buf, s.ring.ri, n))
    && s'.Valid() && s'.ring.size == s.ring.size
    && s'.ring.Empty() && s'.ring.ri == At(s.Size(), s.ring.ri, n)
  }

  lemma CopyEffect(s: State)
    requires InStep(s) && s.pending.Some?
    ensures Copies(s, CopyOut(s))
  {
    PeeksCover(s.ring, s.buf, s.pending.value);
  }

  lemma CopiesKeepsHeld(s: State, s': State)
    requires InStep(s) && Held(s) && s.pending.Some? && Copies(s, s')
    requires |s.delivered| + s.pending.value <= |s.written| <= |s.delivered| + s.Size()
    requires s.delivered == s.written[..|s.delivered|]
    ensures Held(s') && s'.delivered == s'.written[..|s'.delivered|]
  {
    var n := s.pending.value;
    WalkSplit(s.buf, s.ring.ri, |s.written| - |s.delivered|, n);
    Parts(s.written, |s.delivered|, n);
  }

  lemma Parts<T>(w: seq<T>, d: nat, n: nat)
    requires d + n <= |w|
    ensures w[..d] + w[d..][..n] == w[..d + n] && w[d..][n..] == w[d + n..]
  {
  }

  lemma StepKeepsInv(s: State, step: Step)
    requires Inv(s) && Timely(s, step)
    ensures Inv(Apply(s, step))
  {
    match step
    case Byte(b, atOnce) => ByteKeepsInv(s, b, atOnce);
    case Reload =>
    case Read => ReadKeepsInv(s);
    case Copy => CopyEffect(s); CopiesKeepsHeld(s, CopyOut(s));
  }

  lemma {:induction false} RunKeepsInv(tr: seq<State>, c: nat)
    requires Run(tr, c) && Usable(c) && c % 8 == 0
    ensures Inv(tr[|tr| - 1])
  {
    var n := |tr| - 1;
    if n > 0 {
      RunKeepsInv(tr[..n], c);
      assert Goes(tr[n - 1], tr[n]);
      var step :| Timely(tr[n - 1], step) && tr[n] == Apply(tr[n - 1], step);
      StepKeepsInv(tr[n - 1], step);
    }
  }

  /** The reports are right, what was copied out is what was stored, and no
      reported byte is left in the buffer when no call is at work. */
  ghost predicate Faithful(s: State) {
    && Summed(s)
    && |s.delivered| <= |s.written| && s.delivered == s.written[..|s.delivered|]
    && (s.pending.None? ==> |s.delivered| == s.reported)
  }

  // ----- buffers that are not a multiple of RT_ALIGN_SIZE -----

  /** n bytes 0, short of the end of the buffer. */
  lemma {:induction false} Zeros(sz: nat, n: nat) returns (s: State)
    requires MIN_PING <= sz && n < sz
    ensures Reaches(s, sz) && s.Valid() && s.Size() == sz
    ensures s.pos == n && s.counter == sz - n && s.last == sz && s.since == n && s.reported == 0
    ensures s.ring == Ring(sz - sz % 8, 0, false, 0, false) && s.pending == None && s.delivered == []
    ensures s.written == seq(n, i => 0) && (n > 0 ==> s.buf[0] == 0)
  {
    if n == 0 {
      s := Start(sz);
    } else {
      s := Zeros(sz, n - 1);
      s := Next(s, Step.Byte(0, true), sz);
    }
  }

  /** A ring's worth of bytes and the call that delivers them. */
  lemma OneRound(sz: nat, n: nat) returns (s: State)
    requires MIN_PING <= sz && sz % 8 != 0 && n == sz - sz % 8
    ensures Reaches(s, sz) && s.Valid() && s.Size() == sz
    ensures s.pos == n && s.counter == s.last == sz - n && s.since == 0 && s.pending == None
    ensures s.ring.size == n && s.ring.Empty() && s.ring.ri == 0 && |s.delivered| == n
    ensures s.written == seq(n, i => 0) && s.buf[0] == 0
  {
    s := Zeros(sz, n);
    s := Next(s, Read, sz);
    s := Next(s, Copy, sz);
  }

  lemma OneMore(sz: nat, n: nat) returns (s: State)
    requires MIN_PING <= sz && sz % 8 != 0 && n == sz - sz % 8
    ensures Reaches(s, sz) && s.Valid() && s.Size() == sz
    ensures s.since == 0 && s.pending == Some(1)
    ensures s.ring.size == n && s.ring.Empty() && s.ring.ri == 0 && |s.delivered| == n
    ensures |s.written| == n + 1 && s.written[n] == 1 && s.buf[0] == 0
  {
    s := OneRound(sz, n);
    s := Next(s, Step.Byte(1, true), sz);
    s := Next(s, Read, sz);
  }

  /** After a ring's worth of bytes the ring is back at its start, the DMA is
      not, and the next byte delivered is not the one that came. */
  lemma MisalignedFails(sz: nat) returns (s: State)
    requires MIN_PING <= sz && sz % 8 != 0
    ensures Reaches(s, sz) && !Faithful(s)
  {
    var n := sz - sz % 8;
    s := OneMore(sz, n);
    s := Next(s, Copy, sz);
    assert s.delivered[n] == 0;
  }

  /** Every timely run hands on the bytes as they came exactly when the configured
      size was 0 or not raised, and is a multiple of RT_ALIGN_SIZE. */
  lemma FaithfulIff(c: nat)
    ensures (forall s | Reaches(s, c) :: Faithful(s)) <==> Usable(c) && c % 8 == 0
  {
    if !Usable(c) {
      var s := RaisedFails(c);
    } else if c % 8 != 0 {
      var s := MisalignedFails(c);
    } else {
      forall s | Reaches(s, c) ensures Faithful(s) {
        var tr :| Run(tr, c) && tr[|tr| - 1] == s;
        RunKeepsInv(tr, c);
      }
    }
  }
}
