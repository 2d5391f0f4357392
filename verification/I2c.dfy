/** The chunked transfer engine of libraries/rt_drivers/drv_hard_i2c.c (the
    branch for AT32F435 and its relatives), in interrupt and in DMA mode.

    A transfer longer than the peripheral's 8-bit counter is split into chunks.
    `Sys` is the handle's `comm` record next to the registers the driver and the
    hardware share; the ISRs are functions on it, and the class `Handle` below
    carries them out in place.  Interrupts, bytes passing the wire, ends of
    chunks, DMA transfers and a refusal by the slave are steps of their own and
    come in any order the hardware's own counter allows. */
module I2c {
  import opened Arith

  /** The largest count of one programmed chunk, within the 8 bits it has. */
  type ChunkSize = n: nat | 0 < n < 0x100 witness 1
  const MAX_TRANSFER_CNT: ChunkSize

  datatype Mode = Reload | AutoStop
  datatype Error = OK | ACKFAIL | TIMEOUT

  /** struct i2c_comm_type; pbuff is an offset in the caller's buffer. */
  datatype Comm = Comm(pbuff: nat, pcount: int, psize: int, ended: bool, error: Error)

  /** The I2C peripheral: the chunk counter and what happens at its end, a refusal
      by the slave and its flag, a byte to be sent or to be read, TCRLD, a stop
      made by software, and the interrupt enables that the DMA mode switches. */
  datatype Port = Port(cnt: nat, mode: Mode, refused: bool, ackfail: bool,
                       tx: bool, rx: bool, tcrld: bool, stop: bool, tdcInt: bool, stopInt: bool)

  /** The DMA channel with its transfer-complete flag. */
  datatype Channel = Channel(addr: nat, left: nat, on: bool, request: bool, fdt: bool)

  /** Bytes over the wire, offsets of the bytes moved between buffer and data
      register, DMA set-ups, programmed chunks. */
  datatype History = History(passed: nat, moved: seq<nat>, dmaLog: seq<(nat, int)>, progLog: seq<(int, Mode)>)

  datatype Sys = Sys(comm: Comm, port: Port, dma: Channel, hist: History)

  /** The flags an event ISR reads. */
  datatype Flags = Flags(ackfail: bool, tdis: bool, tcrld: bool, rdbf: bool, tdc: bool, stopf: bool)

  function Fresh(size: nat): Sys {
    Sys(Comm(0, size, 0, false, OK),
        Port(0, AutoStop, false, false, false, false, false, false, false, false),
        Channel(0, 0, false, false, false),
        History(0, [], [], []))
  }

  /** The bus stayed busy. */
  function Busy(size: nat): Sys {
    var s := Fresh(size);
    s.(comm := s.comm.(error := TIMEOUT))
  }

  /** i2c_transmit_set: the counter register holds 8 bits; TCRLD is answered. */
  function Program(s: Sys, count: int, mode: Mode): Sys
    requires count >= 0
  {
    s.(port := s.port.(cnt := count % 0x100, mode := mode, tcrld := false),
       hist := s.hist.(progLog := s.hist.progLog + [(count, mode)]))
  }

  function ChunkOf(pcount: int): int {
    if pcount > MAX_TRANSFER_CNT then MAX_TRANSFER_CNT else pcount
  }

  function ModeOf(pcount: int): Mode {
    if pcount > MAX_TRANSFER_CNT then Reload else AutoStop
  }

  /** i2c_start_transfer. */
  function StartTransfer(s: Sys): Sys
    requires s.comm.pcount >= 0
  {
    Program(s.(comm := s.comm.(psize := ChunkOf(s.comm.pcount))), ChunkOf(s.comm.pcount), ModeOf(s.comm.pcount))
  }

  /** i2c_dma_config. */
  function DmaConfig(s: Sys): Sys
    requires s.comm.psize >= 0
  {
    s.(dma := s.dma.(addr := s.comm.pbuff, left := s.comm.psize, on := true),
       hist := s.hist.(dmaLog := s.hist.dmaLog + [(s.comm.pbuff, s.comm.psize)]))
  }

  /** i2c_start_transfer_dma. */
  function StartTransferDma(s: Sys): Sys
    requires s.comm.pcount >= 0
  {
    var s1 := DmaConfig(s.(comm := s.comm.(psize := ChunkOf(s.comm.pcount))));
    Program(s1, ChunkOf(s.comm.pcount), ModeOf(s.comm.pcount))
  }

  /** i2c_dma_enable. */
  function Request(s: Sys): Sys {
    s.(dma := s.dma.(request := true))
  }

  function BeginInt(size: nat): Sys {
    StartTransfer(Fresh(size))
  }

  function BeginDma(size: nat): Sys {
    Request(StartTransferDma(Fresh(size)))
  }

  // ----- interrupt mode -----

  /** i2c_data_send or i2c_data_receive at pbuff. */
  function MoveByte(s: Sys, send: bool): Sys {
    s.(comm := s.comm.(pbuff := s.comm.pbuff + 1, pcount := s.comm.pcount - 1, psize := s.comm.psize - 1),
       port := if send then s.port.(tx := true) else s.port.(rx := false),
       hist := s.hist.(moved := s.hist.moved + [s.comm.pbuff]))
  }

  /** i2c_master_isr_int; a byte that the slave will not take is flushed. */
  function IsrInt(s: Sys, f: Flags): Sys
    requires s.comm.pcount >= 0
  {
    if f.ackfail then
      s.(comm := if s.comm.pcount != 0 then s.comm.(error := ACKFAIL) else s.comm,
         port := s.port.(ackfail := false, tx := false))
    else if f.tdis then MoveByte(s, true)
    else if f.tcrld then (if s.comm.psize == 0 && s.comm.pcount != 0 then StartTransfer(s) else s)
    else if f.rdbf then MoveByte(s, false)
    else if f.tdc then
      (if s.comm.pcount == 0 && s.port.mode != AutoStop then s.(port := s.port.(stop := true)) else s)
    else if f.stopf then
      s.(comm := s.comm.(ended := true), port := s.port.(ackfail := false, tx := false))
    else s
  }

  /** The direction of the transfer, and whether the hardware raises TCRLD
      together with the last byte of a chunk or some time after it. */
  datatype Wiring = Wiring(receive: bool, eager: bool)

  /** A byte passes the wire, from the slave into the register or from there to
      the slave, and is counted. */
  function PassByte(w: Wiring, s: Sys): Sys
    requires s.port.cnt > 0
  {
    var last := s.port.cnt == 1 && s.port.mode == Reload;
    s.(port := s.port.(cnt := s.port.cnt - 1, tx := false, rx := w.receive, tcrld := s.port.tcrld || (w.eager && last)),
       hist := s.hist.(passed := s.hist.passed + 1))
  }

  /** What an interrupt can read: TDIS asks for a byte that is still to be
      counted, RDBF says that one waits, and STOPF comes after a refusal or at the
      end of an auto-stop chunk.  TDC needs a mode this engine never programs. */
  predicate Shows(w: Wiring, s: Sys, f: Flags) {
    && f.ackfail == s.port.ackfail
    && (f.tdis ==> !w.receive && !s.port.tx && s.port.cnt > 0 && !s.port.refused)
    && f.tcrld == s.port.tcrld
    && f.rdbf == s.port.rx
    && !f.tdc
    && (f.stopf ==> s.port.refused || (s.port.cnt == 0 && s.port.mode == AutoStop))
  }

  datatype IntStep = Interrupt(f: Flags) | Pass | ChunkEnd | Refuse

  predicate CanPass(w: Wiring, s: Sys) {
    s.port.cnt > 0 && !s.port.refused && (if w.receive then !s.port.rx else s.port.tx)
  }

  predicate CanEndChunk(s: Sys) {
    s.port.cnt == 0 && s.port.mode == Reload && !s.port.refused && !s.port.tcrld
  }

  /** The slave may refuse its address or a byte sent to it. */
  predicate CanRefuse(w: Wiring, s: Sys) {
    !s.port.refused && (s.hist.passed == 0 || (!w.receive && s.port.cnt > 0))
  }

  function RaiseTcrld(s: Sys): Sys {
    s.(port := s.port.(tcrld := true))
  }

  function Reject(s: Sys): Sys {
    s.(port := s.port.(refused := true, ackfail := true))
  }

  predicate IntEnabled(w: Wiring, s: Sys, e: IntStep) {
    !s.comm.ended && match e
                case Interrupt(f) => s.comm.pcount >= 0 && Shows(w, s, f)
                case Pass => CanPass(w, s)
                case ChunkEnd => CanEndChunk(s)
                case Refuse => CanRefuse(w, s)
  }

  function IntApply(w: Wiring, s: Sys, e: IntStep): Sys
    requires IntEnabled(w, s, e)
  {
    match e
    case Interrupt(f) => IsrInt(s, f)
    case Pass => PassByte(w, s)
    case ChunkEnd => RaiseTcrld(s)
    case Refuse => Reject(s)
  }

  ghost predicate IntRun(w: Wiring, s: Sys, es: seq<IntStep>, s': Sys)
    decreases |es|
  {
    if es == [] then s == s'
    else IntEnabled(w, s, es[0]) && IntRun(w, IntApply(w, s, es[0]), es[1..], s')
  }

  lemma UptoStep(n: nat)
    ensures Upto(n + 1) == Upto(n) + [n]
  {
  }

  function Bit(b: bool): nat {
    if b then 1 else 0
  }

  /** Driver and wire agree but for the byte in the register. */
  predicate InStep(w: Wiring, s: Sys) {
    && (w.receive ==> !s.port.tx) && (!w.receive ==> !s.port.rx)
    && s.comm.psize == s.port.cnt + Bit(s.port.rx) - Bit(s.port.tx)
    && s.hist.passed == s.comm.pbuff + Bit(s.port.rx) - Bit(s.port.tx)
  }

  ghost predicate IntInv(w: Wiring, s: Sys, size: nat) {
    && 0 <= s.comm.psize <= s.comm.pcount && s.comm.pbuff + s.comm.pcount == size
    && s.hist.moved == Upto(s.comm.pbuff) && (s.comm.pbuff == 0 ==> s.comm.psize == ChunkOf(size))
    && (!s.port.refused && !s.comm.ended ==> InStep(w, s))
    && (s.port.mode == AutoStop <==> s.comm.pcount == s.comm.psize)
    && (s.port.tcrld ==> s.port.cnt == 0 && s.port.mode == Reload && !s.port.refused)
    && (s.port.ackfail ==> s.port.refused)
    && (s.port.refused ==> !s.port.rx && (size > 0 ==> s.hist.passed < size))
    && (s.comm.error == if s.port.refused && !s.port.ackfail && s.comm.pcount > 0 then ACKFAIL else OK)
    && (s.comm.ended && s.comm.error == OK ==> s.comm.pcount == 0 && (s.port.refused || s.hist.passed == size))
  }

  lemma IsrKeepsInv(w: Wiring, s: Sys, f: Flags, size: nat)
    requires IntInv(w, s, size) && Shows(w, s, f) && !s.comm.ended
    ensures IntInv(w, IsrInt(s, f), size)
  {
    if !f.ackfail && (f.tdis || (f.rdbf && !f.tcrld)) {
      UptoStep(s.comm.pbuff);
    }
  }

  lemma WireKeepsInv(w: Wiring, s: Sys, e: IntStep, size: nat)
    requires IntInv(w, s, size) && IntEnabled(w, s, e) && !e.Interrupt?
    ensures IntInv(w, IntApply(w, s, e), size)
  {
  }

  lemma IntStepKeepsInv(w: Wiring, s: Sys, e: IntStep, size: nat)
    requires IntInv(w, s, size) && IntEnabled(w, s, e)
    ensures IntInv(w, IntApply(w, s, e), size)
  {
    match e
    case Interrupt(f) => IsrKeepsInv(w, s, f, size);
    case _ => WireKeepsInv(w, s, e, size);
  }

  lemma {:induction false} IntRunKeepsInv(w: Wiring, s: Sys, es: seq<IntStep>, s': Sys, size: nat)
    requires IntInv(w, s, size) && IntRun(w, s, es, s')
    ensures IntInv(w, s', size)
    decreases |es|
  {
    if es != [] {
      IntStepKeepsInv(w, s, es[0], size);
      IntRunKeepsInv(w, IntApply(w, s, es[0]), es[1..], s', size);
    }
  }

  /** In every run of the interrupt mode, pbuff is the start plus what is done and
      the bytes moved are the first ones in order; while nothing was refused,
      psize is the hardware remainder, one more for a byte to be read and one less
      for a byte to be sent. */
  lemma InterruptMode(w: Wiring, size: nat, es: seq<IntStep>, s: Sys)
    requires IntRun(w, BeginInt(size), es, s)
    ensures s.comm.pbuff == size - s.comm.pcount && s.hist.moved == Upto(s.comm.pbuff)
    ensures !s.port.refused && !s.comm.ended ==> s.comm.psize == s.port.cnt + Bit(s.port.rx) - Bit(s.port.tx)
  {
    IntRunKeepsInv(w, BeginInt(size), es, s, size);
  }

  /** A transfer ends without an error exactly when every byte was moved between
      buffer and register; all of them passed the wire exactly when the slave
      refused nothing. */
  lemma EndsCleanIff(w: Wiring, size: nat, es: seq<IntStep>, s: Sys)
    requires IntRun(w, BeginInt(size), es, s) && s.comm.ended
    ensures s.comm.error == OK <==> s.comm.pcount == 0
    ensures s.comm.error == OK <==> s.hist.moved == Upto(size)
    ensures s.comm.error == OK && size > 0 ==> (s.hist.passed == size <==> !s.port.refused)
  {
    IntRunKeepsInv(w, BeginInt(size), es, s, size);
    assert |Upto(size)| == size && |Upto(s.comm.pbuff)| == s.comm.pbuff;
  }

  /** A refused transfer can end with at most two more interrupts, which move
      nothing, and then reports the refusal exactly when bytes are left to move. */
  lemma RefusedEnds(w: Wiring, size: nat, es: seq<IntStep>, s: Sys) returns (more: seq<IntStep>, s': Sys)
    requires IntRun(w, BeginInt(size), es, s) && s.port.refused && !s.comm.ended
    ensures IntRun(w, s, more, s') && |more| <= 2 && s'.comm.ended && s'.hist == s.hist
    ensures s'.comm.error == if s.comm.pcount > 0 then ACKFAIL else OK
  {
    IntRunKeepsInv(w, BeginInt(size), es, s, size);
    var first := Show(s, false, !s.port.ackfail);
    s' := IntApply(w, s, first);
    more := [first];
    assert IntRun(w, s', [], s');
    if s.port.ackfail {
      var m, last := s', Show(s', false, true);
      s' := IntApply(w, m, last);
      more := [first, last];
      assert more[1..] == [last] && [last][1..] == [];
      assert IntRun(w, m, [last], s');
    }
  }

  /** Some run ends refused and without an error. */
  ghost predicate CanHideRefusal(w: Wiring, s: Sys) {
    exists es, s' :: IntRun(w, s, es, s') && s'.comm.ended && s'.port.refused && s'.comm.error == OK
  }

  /** A refusal can go unreported exactly when bytes are sent, the last of them
      being refused, or there are none. */
  lemma CanHideRefusalIff(w: Wiring, size: nat)
    ensures CanHideRefusal(w, BeginInt(size)) <==> !w.receive || size == 0
  {
    var s := BeginInt(size);
    assert Going(w, s, size);
    if !w.receive || size == 0 {
      var es, s' := HideRefusal(w, s, size);
    } else {
      forall es, s' | IntRun(w, s, es, s') && s'.comm.ended && s'.port.refused ensures s'.comm.error != OK {
        IntRunKeepsInv(w, s, es, s', size);
        EarlyRefusal(w, s, es, s', size);
      }
    }
  }

  /** A receive is refused before its first byte. */
  lemma {:induction false} EarlyRefusal(w: Wiring, s: Sys, es: seq<IntStep>, s': Sys, size: nat)
    requires w.receive && IntInv(w, s, size) && IntRun(w, s, es, s') && (s.port.refused ==> s.comm.pbuff == 0)
    ensures s'.port.refused ==> s'.comm.pbuff == 0
    decreases |es|
  {
    if es != [] {
      var m := IntApply(w, s, es[0]);
      IntStepKeepsInv(w, s, es[0], size);
      EarlyStep(w, s, es[0], size);
      EarlyRefusal(w, m, es[1..], s', size);
    }
  }

  lemma EarlyStep(w: Wiring, s: Sys, e: IntStep, size: nat)
    requires w.receive && IntInv(w, s, size) && IntEnabled(w, s, e) && (s.port.refused ==> s.comm.pbuff == 0)
    ensures var m := IntApply(w, s, e); m.port.refused ==> m.comm.pbuff == 0
  {
  }

  /** Send up to the last byte, which the slave then refuses. */
  lemma {:induction false} HideRefusal(w: Wiring, s: Sys, size: nat) returns (es: seq<IntStep>, s': Sys)
    requires Going(w, s, size) && !Doomed(w, s) && (!w.receive || size == 0)
    requires s.comm.pcount > 0 || s.port.cnt > 0 || size == 0
    ensures IntRun(w, s, es, s') && s'.comm.ended && s'.port.refused && s'.comm.error == OK
    decreases size - s.hist.passed, size - s.comm.pbuff, Rank(s)
  {
    if s.comm.pcount == 0 {
      es, s' := RefuseLast(w, s, size);
    } else {
      var e := Onward(w, s);
      var m := IntApply(w, s, e);
      OnwardGoes(w, s, size);
      StillSending(w, s, size);
      Bounded(w, s, size);
      Bounded(w, m, size);
      es, s' := HideRefusal(w, m, size);
      es := [e] + es;
    }
  }

  lemma StillSending(w: Wiring, s: Sys, size: nat)
    requires Going(w, s, size) && !w.receive && s.comm.pcount > 0 && IntEnabled(w, s, Onward(w, s))
    ensures var m := IntApply(w, s, Onward(w, s)); !m.comm.ended && (m.comm.pcount > 0 || m.port.cnt > 0)
  {
  }

  lemma RefuseLast(w: Wiring, s: Sys, size: nat) returns (es: seq<IntStep>, s': Sys)
    requires Going(w, s, size) && s.comm.pcount == 0 && (s.port.cnt > 0 || size == 0) && (!w.receive || size == 0)
    ensures IntRun(w, s, es, s') && s'.comm.ended && s'.port.refused && s'.comm.error == OK
  {
    var s1 := IntApply(w, s, Refuse);
    var s2 := IntApply(w, s1, Show(s1, false, false));
    s' := IntApply(w, s2, Show(s2, false, true));
    es := RunOfThree(w, s, Refuse, s1, Show(s1, false, false), s2, Show(s2, false, true));
  }

  lemma RunOfThree(w: Wiring, s: Sys, a: IntStep, s1: Sys, b: IntStep, s2: Sys, c: IntStep) returns (es: seq<IntStep>)
    requires IntEnabled(w, s, a) && s1 == IntApply(w, s, a)
    requires IntEnabled(w, s1, b) && s2 == IntApply(w, s1, b) && IntEnabled(w, s2, c)
    ensures IntRun(w, s, es, IntApply(w, s2, c))
  {
    es := [a, b, c];
    assert es[1..] == [b, c] && [b, c][1..] == [c] && [c][1..] == [];
    assert IntRun(w, s2, [c], IntApply(w, s2, c));
    assert IntRun(w, s1, [b, c], IntApply(w, s2, c));
  }

  // ----- which transfers end -----

  /** The last byte of a chunk waits in the register beside TCRLD. */
  predicate Jammed(s: Sys) {
    !s.comm.ended && !s.port.refused && s.port.rx && s.port.tcrld
  }

  /** Then nothing that can happen changes anything: the interrupt looks at TCRLD
      first and waits for psize to be 0. */
  lemma JammedStays(w: Wiring, s: Sys, e: IntStep, size: nat)
    requires IntInv(w, s, size) && Jammed(s) && IntEnabled(w, s, e)
    ensures IntApply(w, s, e) == s
  {
  }

  lemma {:induction false} JammedForever(w: Wiring, s: Sys, es: seq<IntStep>, s': Sys, size: nat)
    requires IntInv(w, s, size) && Jammed(s) && IntRun(w, s, es, s')
    ensures s' == s
    decreases |es|
  {
    if es != [] {
      JammedStays(w, s, es[0], size);
      JammedForever(w, s, es[1..], s', size);
    }
  }

  /** An interrupt that asks for a byte, or for the end, if it may. */
  function Show(s: Sys, tdis: bool, stopf: bool): IntStep {
    Interrupt(Flags(s.port.ackfail, tdis, s.port.tcrld, s.port.rx, false, stopf))
  }

  /** The step that takes the transfer on. */
  function Onward(w: Wiring, s: Sys): IntStep {
    if s.port.tx then Pass
    else if s.port.rx then Show(s, false, false)
    else if s.port.cnt > 0 then (if w.receive then Pass else Show(s, true, false))
    else if s.port.mode == AutoStop then Show(s, false, true)
    else if s.port.tcrld then Show(s, false, false)
    else ChunkEnd
  }

  function Rank(s: Sys): nat {
    if s.port.tx || s.port.rx then 0 else if s.port.cnt > 0 then 1 else if s.port.tcrld then 2 else 3
  }

  /** Jammed already, or bound to be: a chunk to be continued is received and
      TCRLD comes with its last byte. */
  predicate Doomed(w: Wiring, s: Sys) {
    w.receive && s.port.mode == Reload && (w.eager || (s.port.rx && s.port.tcrld))
  }

  /** Under way, with nothing refused. */
  ghost predicate Going(w: Wiring, s: Sys, size: nat) {
    IntInv(w, s, size) && !s.comm.ended && !s.port.refused
  }

  /** Nearer to the end. */
  predicate Advances(s: Sys, s': Sys) {
    || s'.hist.passed > s.hist.passed
    || (s'.hist.passed == s.hist.passed && s'.comm.pbuff > s.comm.pbuff)
    || (s'.hist.passed == s.hist.passed && s'.comm.pbuff == s.comm.pbuff && Rank(s') < Rank(s))
  }

  lemma FullGoes(w: Wiring, s: Sys, size: nat)
    requires Going(w, s, size) && !Doomed(w, s) && (s.port.tx || s.port.rx)
    ensures IntEnabled(w, s, Onward(w, s))
    ensures var s' := IntApply(w, s, Onward(w, s));
      !s'.comm.ended && !s'.port.refused && !Doomed(w, s') && Advances(s, s')
  {
  }

  lemma EmptyGoes(w: Wiring, s: Sys, size: nat)
    requires Going(w, s, size) && !Doomed(w, s) && !s.port.tx && !s.port.rx && s.port.cnt > 0
    ensures IntEnabled(w, s, Onward(w, s))
    ensures var s' := IntApply(w, s, Onward(w, s));
      !s'.comm.ended && !s'.port.refused && !Doomed(w, s') && Advances(s, s')
  {
  }

  lemma ReloadGoes(w: Wiring, s: Sys, size: nat)
    requires Going(w, s, size) && !Doomed(w, s) && !s.port.tx && !s.port.rx && s.port.cnt == 0 && s.port.mode == Reload
    ensures IntEnabled(w, s, Onward(w, s))
    ensures var s' := IntApply(w, s, Onward(w, s));
      !s'.comm.ended && !s'.port.refused && !Doomed(w, s') && Advances(s, s')
  {
  }

  lemma LastGoes(w: Wiring, s: Sys, size: nat)
    requires Going(w, s, size) && !s.port.tx && !s.port.rx && s.port.cnt == 0 && s.port.mode == AutoStop
    ensures IntEnabled(w, s, Onward(w, s))
    ensures var s' := IntApply(w, s, Onward(w, s)); s'.comm.ended && s'.comm.error == OK && !s'.port.refused
  {
  }

  lemma OnwardGoes(w: Wiring, s: Sys, size: nat)
    requires Going(w, s, size) && !Doomed(w, s)
    ensures IntEnabled(w, s, Onward(w, s))
    ensures var s' := IntApply(w, s, Onward(w, s));
      && IntInv(w, s', size) && !s'.port.refused
      && (if s'.comm.ended then s'.comm.error == OK else !Doomed(w, s') && Advances(s, s'))
  {
    if s.port.tx || s.port.rx {
      FullGoes(w, s, size);
    } else if s.port.cnt > 0 {
      EmptyGoes(w, s, size);
    } else if s.port.mode == Reload {
      ReloadGoes(w, s, size);
    } else {
      LastGoes(w, s, size);
    }
    IntStepKeepsInv(w, s, Onward(w, s), size);
  }

  lemma Bounded(w: Wiring, s: Sys, size: nat)
    requires Going(w, s, size)
    ensures s.hist.passed <= size && s.comm.pbuff <= size
  {
  }

  /** From a state that is not doomed the transfer can end with every byte moved. */
  lemma {:induction false} Finish(w: Wiring, s: Sys, size: nat) returns (es: seq<IntStep>, s': Sys)
    requires Going(w, s, size) && !Doomed(w, s)
    ensures IntRun(w, s, es, s') && s'.comm.ended && !s'.port.refused && s'.comm.error == OK && IntInv(w, s', size)
    decreases size - s.hist.passed, size - s.comm.pbuff, Rank(s)
  {
    var e := Onward(w, s);
    OnwardGoes(w, s, size);
    var m := IntApply(w, s, e);
    if m.comm.ended {
      es, s' := [e], m;
    } else {
      Bounded(w, s, size);
      Bounded(w, m, size);
      es, s' := Finish(w, m, size);
      es := [e] + es;
    }
  }

  /** On eager hardware a doomed receive stays doomed, as long as the slave does
      not refuse it. */
  ghost predicate Hopeless(w: Wiring, s: Sys, size: nat) {
    && Going(w, s, size) && w.receive && w.eager && s.port.mode == Reload
    && (s.port.tcrld <==> s.port.cnt == 0) && (s.port.tcrld ==> s.port.rx)
  }

  lemma HopelessStays(w: Wiring, s: Sys, e: IntStep, size: nat)
    requires Hopeless(w, s, size) && IntEnabled(w, s, e)
    ensures var s' := IntApply(w, s, e); s'.port.refused || Hopeless(w, s', size)
  {
    IntStepKeepsInv(w, s, e, size);
  }

  lemma {:induction false} HopelessNeverEnds(w: Wiring, s: Sys, es: seq<IntStep>, s': Sys, size: nat)
    requires IntRun(w, s, es, s') && (s.port.refused || Hopeless(w, s, size))
    ensures s'.port.refused || !s'.comm.ended
    decreases |es|
  {
    if es != [] {
      var m := IntApply(w, s, es[0]);
      if !s.port.refused {
        HopelessStays(w, s, es[0], size);
      }
      HopelessNeverEnds(w, m, es[1..], s', size);
    }
  }

  /** Some run ends with nothing refused and every byte moved. */
  ghost predicate CanFinish(w: Wiring, s: Sys, size: nat) {
    exists es, s' :: IntRun(w, s, es, s') && s'.comm.ended && !s'.port.refused && s'.hist.moved == Upto(size)
  }

  ghost predicate CanJam(w: Wiring, s: Sys) {
    exists es, s' :: IntRun(w, s, es, s') && Jammed(s')
  }

  /** An unrefused transfer can end with every byte moved exactly when it is not a
      receive of more than one chunk on hardware that raises TCRLD with the last
      byte of a chunk. */
  lemma CanFinishIff(w: Wiring, size: nat)
    ensures CanFinish(w, BeginInt(size), size) <==> !(w.receive && w.eager && size > MAX_TRANSFER_CNT)
  {
    var s := BeginInt(size);
    assert Going(w, s, size);
    if w.receive && w.eager && size > MAX_TRANSFER_CNT {
      assert Hopeless(w, s, size);
      forall es, s' | IntRun(w, s, es, s') ensures s'.port.refused || !s'.comm.ended {
        HopelessNeverEnds(w, s, es, s', size);
      }
    } else {
      var es, s' := Finish(w, s, size);
    }
  }

  /** Reading every byte but the last of the chunk leads to a jam. */
  lemma {:induction false} Jam(w: Wiring, s: Sys, size: nat) returns (es: seq<IntStep>, s': Sys)
    requires Going(w, s, size) && w.receive && s.port.mode == Reload && (s.port.rx || s.port.cnt > 0)
    ensures IntRun(w, s, es, s') && Jammed(s')
    decreases s.port.cnt, if s.port.rx then 1 else 0, if s.port.tcrld then 0 else 1
  {
    if Jammed(s) {
      es, s' := [], s;
    } else {
      var e := if s.port.cnt == 0 then ChunkEnd else if s.port.rx then Show(s, false, false) else Pass;
      IntStepKeepsInv(w, s, e, size);
      es, s' := Jam(w, IntApply(w, s, e), size);
      es := [e] + es;
    }
  }

  /** With either kind of hardware some run jams exactly when more than one chunk
      is received. */
  lemma CanJamIff(w: Wiring, size: nat)
    ensures CanJam(w, BeginInt(size)) <==> w.receive && size > MAX_TRANSFER_CNT
  {
    var s := BeginInt(size);
    assert Going(w, s, size);
    if w.receive && size > MAX_TRANSFER_CNT {
      var es, s' := Jam(w, s, size);
    } else {
      forall es, s' | IntRun(w, s, es, s') ensures !Jammed(s') {
        IntRunKeepsInv(w, s, es, s', size);
        if !w.receive {
          assert Jammed(s') ==> InStep(w, s');
        } else {
          OneChunk(w, s, es, s', size);
        }
      }
    }
  }

  lemma {:induction false} OneChunk(w: Wiring, s: Sys, es: seq<IntStep>, s': Sys, size: nat)
    requires IntInv(w, s, size) && s.port.mode == AutoStop && IntRun(w, s, es, s')
    ensures s'.port.mode == AutoStop && !s'.port.tcrld
    decreases |es|
  {
    if es != [] {
      IntStepKeepsInv(w, s, es[0], size);
      OneChunk(w, IntApply(w, s, es[0]), es[1..], s', size);
    }
  }

  // ----- DMA mode -----

  /** i2c_dma_isr on transfer complete. */
  function DmaIsr(s: Sys): Sys
    requires s.comm.pcount >= s.comm.psize >= 0
  {
    var dma := s.dma.(fdt := false, request := false, on := false);
    var pcount := s.comm.pcount - s.comm.psize;
    if pcount == 0 then
      s.(comm := s.comm.(pcount := pcount), dma := dma, port := s.port.(stopInt := true))
    else
      DmaConfig(s.(comm := s.comm.(pcount := pcount, pbuff := s.comm.pbuff + s.comm.psize, psize := ChunkOf(pcount)),
                   dma := dma, port := s.port.(tdcInt := true)))
  }

  /** i2c_master_isr_dma. */
  function IsrDma(s: Sys, f: Flags): Sys
    requires s.comm.pcount >= 0
  {
    if f.ackfail then
      s.(comm := if s.comm.pcount != 0 then s.comm.(error := ACKFAIL) else s.comm,
         port := s.port.(ackfail := false, tx := false, stopInt := true))
    else if f.tcrld then
      var s1 := s.(port := s.port.(tdcInt := false));
      if s1.comm.pcount != 0 then Request(StartTransfer(s1)) else s1
    else if f.stopf then
      s.(comm := s.comm.(ended := true),
         port := s.port.(ackfail := false, tx := false, tdcInt := false, stopInt := false))
    else s
  }

  /** The channel moves one byte into the data register or out of it. */
  function DmaByte(w: Wiring, s: Sys): Sys
    requires s.dma.left > 0
  {
    s.(port := if w.receive then s.port.(rx := false) else s.port.(tx := true),
       dma := s.dma.(left := s.dma.left - 1, addr := s.dma.addr + 1, fdt := s.dma.left == 1),
       hist := s.hist.(moved := s.hist.moved + [s.dma.addr]))
  }

  /** The flags of the events: STOPF comes after a refusal or at the end of an
      auto-stop chunk. */
  predicate DmaShows(s: Sys, f: Flags) {
    && f.ackfail == s.port.ackfail
    && f.tcrld == s.port.tcrld
    && (f.stopf ==> s.port.refused || (s.port.cnt == 0 && s.port.mode == AutoStop))
  }

  datatype DmaStep = Byte | Wire | ChunkOver | Complete | Event(f: Flags) | DmaRefuse

  /** The peripheral requests a byte to be counted, or the one that waits. */
  predicate Requests(w: Wiring, s: Sys) {
    !s.port.refused && (if w.receive then s.port.rx else !s.port.tx && s.port.cnt > 0)
  }

  predicate DmaEnabled(w: Wiring, s: Sys, e: DmaStep) {
    !s.comm.ended && match e
                case Byte => s.dma.on && s.dma.request && s.dma.left > 0 && Requests(w, s)
                case Wire => CanPass(w, s)
                case ChunkOver => CanEndChunk(s)
                case Complete => s.dma.fdt && s.comm.pcount >= s.comm.psize >= 0
                case Event(f) =>
                  && s.comm.pcount >= 0 && DmaShows(s, f)
                  && (f.ackfail || (f.tcrld && s.port.tdcInt) || (f.stopf && s.port.stopInt))
                case DmaRefuse => CanRefuse(w, s)
  }

  function DmaApply(w: Wiring, s: Sys, e: DmaStep): Sys
    requires DmaEnabled(w, s, e)
  {
    match e
    case Byte => DmaByte(w, s)
    case Wire => PassByte(w, s)
    case ChunkOver => RaiseTcrld(s)
    case Complete => DmaIsr(s)
    case Event(f) => IsrDma(s, f)
    case DmaRefuse => Reject(s)
  }

  ghost predicate DmaRun(w: Wiring, s: Sys, es: seq<DmaStep>, s': Sys)
    decreases |es|
  {
    if es == [] then s == s'
    else DmaEnabled(w, s, es[0]) && DmaRun(w, DmaApply(w, s, es[0]), es[1..], s')
  }

  // ----- the chunks of a transfer -----

  datatype Chunk = Chunk(offset: nat, len: nat, mode: Mode)

  /** The intended split of `count` bytes from `offset` on. */
  function Plan(offset: nat, count: nat): (p: seq<Chunk>)
    ensures |p| > 0
    decreases count
  {
    if count <= MAX_TRANSFER_CNT then [Chunk(offset, count, AutoStop)]
    else [Chunk(offset, MAX_TRANSFER_CNT, Reload)] + Plan(offset + MAX_TRANSFER_CNT, count - MAX_TRANSFER_CNT)
  }

  /** The split covers the bytes exactly: consecutive chunks from the first byte
      to the last, none empty, RELOAD on all but the last. */
  lemma {:induction false} PlanCovers(offset: nat, count: nat)
    requires count > 0
    ensures var p := Plan(offset, count);
      p[0].offset == offset
      && (forall i | 0 <= i < |p| - 1 :: p[i + 1].offset == p[i].offset + p[i].len)
      && p[|p| - 1].offset + p[|p| - 1].len == offset + count
      && (forall i | 0 <= i < |p| :: 0 < p[i].len <= MAX_TRANSFER_CNT && (p[i].mode == Reload <==> i < |p| - 1))
    decreases count
  {
    if count > MAX_TRANSFER_CNT {
      var rest := Plan(offset + MAX_TRANSFER_CNT, count - MAX_TRANSFER_CNT);
      PlanCovers(offset + MAX_TRANSFER_CNT, count - MAX_TRANSFER_CNT);
      var p := Plan(offset, count);
      forall i | 0 <= i < |p| - 1 ensures p[i + 1].offset == p[i].offset + p[i].len {
        assert p[i + 1] == rest[i];
      }
    }
  }

  /** The DMA was set up for the first chunks of the plan. */
  ghost predicate DmaFollows(log: seq<(nat, int)>, size: nat) {
    var p := Plan(0, size);
    |log| <= |p| && forall i | 0 <= i < |log| :: log[i] == (p[i].offset, p[i].len)
  }

  /** The peripheral was programmed with the first chunks of the plan. */
  ghost predicate ProgFollows(log: seq<(int, Mode)>, size: nat) {
    var p := Plan(0, size);
    |log| <= |p| && forall i | 0 <= i < |log| :: log[i] == (p[i].len, p[i].mode)
  }

  /** Chunk number k of the plan starts at pbuff with pcount bytes to go. */
  ghost predicate AtChunk(size: nat, k: nat, pbuff: nat, pcount: int) {
    && 0 < pcount && k < |Plan(0, size)| && pbuff + pcount == size
    && Plan(0, size)[k..] == Plan(pbuff, pcount)
  }

  lemma NextChunk(size: nat, k: nat, pbuff: nat, pcount: int)
    requires AtChunk(size, k, pbuff, pcount)
    ensures Plan(0, size)[k] == Chunk(pbuff, ChunkOf(pcount), ModeOf(pcount))
    ensures pcount > MAX_TRANSFER_CNT ==> AtChunk(size, k + 1, pbuff + MAX_TRANSFER_CNT, pcount - MAX_TRANSFER_CNT)
    ensures pcount <= MAX_TRANSFER_CNT ==> k + 1 == |Plan(0, size)|
  {
    assert Plan(0, size)[k] == Plan(0, size)[k..][0];
    assert Plan(0, size)[k + 1..] == Plan(0, size)[k..][1..];
    if pcount > MAX_TRANSFER_CNT {
      assert Plan(pbuff, pcount)[1..] == Plan(pbuff + MAX_TRANSFER_CNT, pcount - MAX_TRANSFER_CNT);
    }
  }

  /** Setting up or programming the chunk at pbuff is the plan's next entry. */
  lemma LogNext(dmaLog: seq<(nat, int)>, progLog: seq<(int, Mode)>, size: nat, pbuff: nat, pcount: int)
    requires DmaFollows(dmaLog, size) && ProgFollows(progLog, size)
    ensures AtChunk(size, |dmaLog|, pbuff, pcount) ==> DmaFollows(dmaLog + [(pbuff, ChunkOf(pcount))], size)
    ensures AtChunk(size, |progLog|, pbuff, pcount) ==> ProgFollows(progLog + [(ChunkOf(pcount), ModeOf(pcount))], size)
  {
    if AtChunk(size, |dmaLog|, pbuff, pcount) {
      NextChunk(size, |dmaLog|, pbuff, pcount);
    }
    if AtChunk(size, |progLog|, pbuff, pcount) {
      NextChunk(size, |progLog|, pbuff, pcount);
    }
  }

  /** A chunk is under way: the channel and the peripheral count it down, at most
      the byte in the register apart. */
  ghost predicate InChunk(s: Sys, size: nat) {
    && |s.hist.progLog| == |s.hist.dmaLog| > 0
    && AtChunk(size, |s.hist.dmaLog| - 1, s.comm.pbuff, s.comm.pcount)
    && s.comm.psize == ChunkOf(s.comm.pcount) && s.port.mode == ModeOf(s.comm.pcount)
    && (!s.port.refused ==> s.port.cnt + Bit(s.port.rx) == s.dma.left + Bit(s.port.tx))
    && s.dma.left <= s.comm.psize && s.dma.addr == s.comm.pbuff + s.comm.psize - s.dma.left
    && s.dma.on && s.dma.request && (s.dma.fdt <==> s.dma.left == 0) && !s.port.tdcInt
  }

  /** The channel waits for the next chunk to be programmed; the last byte of the
      one before may still be in the register. */
  ghost predicate BetweenChunks(s: Sys, size: nat) {
    && |s.hist.dmaLog| == |s.hist.progLog| + 1
    && AtChunk(size, |s.hist.dmaLog| - 1, s.comm.pbuff, s.comm.pcount)
    && s.comm.psize == ChunkOf(s.comm.pcount) == s.dma.left && s.dma.addr == s.comm.pbuff > 0
    && (!s.port.refused ==> s.port.cnt == Bit(s.port.tx) && !s.port.rx)
    && s.port.mode == Reload && s.dma.on && !s.dma.request && !s.dma.fdt && s.port.tdcInt
  }

  ghost predicate AllDone(s: Sys, size: nat) {
    && |s.hist.dmaLog| == |s.hist.progLog| == |Plan(0, size)|
    && s.comm.pcount == 0 && s.dma.addr == size && s.port.mode == AutoStop
    && (!s.port.refused ==> s.port.cnt == Bit(s.port.tx) && !s.port.rx)
    && !s.dma.on && !s.dma.request && !s.dma.fdt && !s.port.tdcInt
  }

  /** What passed the wire and what the channel moved. */
  ghost predicate WireFits(w: Wiring, s: Sys, size: nat) {
    && (w.receive ==> !s.port.tx) && (!w.receive ==> !s.port.rx)
    && (!s.port.refused && !s.comm.ended ==> s.hist.passed + Bit(s.port.tx) == s.dma.addr + Bit(s.port.rx))
    && (s.port.tcrld ==> s.port.cnt == 0 && s.port.mode == Reload && !s.port.refused)
    && (s.port.refused ==> s.hist.passed < size && (w.receive ==> s.dma.addr == 0))
    && (s.comm.ended && !s.port.refused ==> s.hist.passed == size)
  }

  ghost predicate DmaInv(w: Wiring, s: Sys, size: nat) {
    && size > 0 && DmaFollows(s.hist.dmaLog, size) && ProgFollows(s.hist.progLog, size)
    && s.hist.moved == Upto(s.dma.addr) && WireFits(w, s, size)
    && (InChunk(s, size) || BetweenChunks(s, size) || AllDone(s, size) || (s.comm.ended && s.comm.error != OK))
    && |s.hist.progLog| <= |s.hist.dmaLog| <= |s.hist.progLog| + 1
    && s.dma.addr <= size
    && (s.port.ackfail ==> s.port.refused)
    && (s.comm.error != OK ==> s.port.refused && s.comm.error == ACKFAIL)
    && (s.port.refused && !s.port.ackfail && !s.comm.ended ==> s.port.stopInt)
    && (s.port.refused && !s.port.ackfail && s.comm.error == OK ==> s.comm.pcount == 0)
    && (s.port.stopInt ==> s.comm.pcount == 0 || s.port.refused)
    && (s.comm.pcount == 0 && !s.comm.ended ==> s.port.stopInt)
    && (s.comm.ended && s.comm.error == OK ==> AllDone(s, size))
  }

  lemma BeginDmaInv(w: Wiring, size: nat)
    requires size > 0
    ensures DmaInv(w, BeginDma(size), size) && InChunk(BeginDma(size), size)
  {
    assert Plan(0, size)[0..] == Plan(0, size);
    LogNext([], [], size, 0, size);
  }

  /** The channel is done with a chunk that was not the last. */
  lemma ContinueFollows(s: Sys, size: nat)
    requires InChunk(s, size) && s.dma.left == 0 && s.comm.pcount > MAX_TRANSFER_CNT && !(s.port.tx && s.port.rx)
    requires DmaFollows(s.hist.dmaLog, size) && ProgFollows(s.hist.progLog, size)
    ensures BetweenChunks(DmaIsr(s), size) && DmaFollows(DmaIsr(s).hist.dmaLog, size)
  {
    NextChunk(size, |s.hist.dmaLog| - 1, s.comm.pbuff, s.comm.pcount);
    LogNext(s.hist.dmaLog, s.hist.progLog, size, s.comm.pbuff + s.comm.psize, s.comm.pcount - s.comm.psize);
  }

  lemma ContinueKeepsInv(w: Wiring, s: Sys, size: nat)
    requires DmaInv(w, s, size) && InChunk(s, size) && s.dma.left == 0
    requires s.comm.pcount > MAX_TRANSFER_CNT && !s.comm.ended
    ensures DmaInv(w, DmaIsr(s), size)
  {
    ContinueFollows(s, size);
  }

  /** The channel is done with the last chunk. */
  lemma LastKeepsInv(w: Wiring, s: Sys, size: nat)
    requires DmaInv(w, s, size) && InChunk(s, size) && s.dma.left == 0
    requires s.comm.pcount <= MAX_TRANSFER_CNT && !s.comm.ended
    ensures DmaInv(w, DmaIsr(s), size) && AllDone(DmaIsr(s), size)
  {
    NextChunk(size, |s.hist.dmaLog| - 1, s.comm.pbuff, s.comm.pcount);
  }

  lemma CompleteKeepsInv(w: Wiring, s: Sys, size: nat)
    requires DmaInv(w, s, size) && DmaEnabled(w, s, Complete)
    ensures DmaInv(w, DmaIsr(s), size)
  {
    assert InChunk(s, size);
    if s.comm.pcount > MAX_TRANSFER_CNT {
      ContinueKeepsInv(w, s, size);
    } else {
      LastKeepsInv(w, s, size);
    }
  }

  lemma EventKeepsInv(w: Wiring, s: Sys, f: Flags, size: nat)
    requires DmaInv(w, s, size) && DmaEnabled(w, s, Event(f))
    ensures DmaInv(w, IsrDma(s, f), size)
    ensures !f.ackfail && f.tcrld ==> InChunk(IsrDma(s, f), size)
  {
    if !f.ackfail && f.tcrld {
      LogNext(s.hist.dmaLog, s.hist.progLog, size, s.comm.pbuff, s.comm.pcount);
    }
  }

  lemma ByteKeepsInv(w: Wiring, s: Sys, size: nat)
    requires DmaInv(w, s, size) && DmaEnabled(w, s, Byte)
    ensures DmaInv(w, DmaByte(w, s), size)
  {
    assert InChunk(s, size);
    UptoStep(s.dma.addr);
  }

  lemma WireByteKeepsInv(w: Wiring, s: Sys, size: nat)
    requires DmaInv(w, s, size) && DmaEnabled(w, s, Wire)
    ensures DmaInv(w, PassByte(w, s), size)
  {
  }

  lemma ChunkOverKeepsInv(w: Wiring, s: Sys, size: nat)
    requires DmaInv(w, s, size) && DmaEnabled(w, s, ChunkOver)
    ensures DmaInv(w, RaiseTcrld(s), size)
  {
  }

  /** What can be refused has not passed the wire. */
  lemma RefusedShort(w: Wiring, s: Sys, size: nat)
    requires DmaInv(w, s, size) && !s.comm.ended && CanRefuse(w, s)
    ensures s.hist.passed < size && (w.receive ==> s.dma.addr == 0) && !s.port.tcrld
  {
  }

  lemma RefuseKeepsInv(w: Wiring, s: Sys, size: nat)
    requires DmaInv(w, s, size) && DmaEnabled(w, s, DmaRefuse)
    ensures DmaInv(w, Reject(s), size)
  {
    RefusedShort(w, s, size);
  }

  lemma DmaStepKeepsInv(w: Wiring, s: Sys, e: DmaStep, size: nat)
    requires DmaInv(w, s, size) && DmaEnabled(w, s, e)
    ensures DmaInv(w, DmaApply(w, s, e), size)
  {
    match e
    case Byte => ByteKeepsInv(w, s, size);
    case Complete => CompleteKeepsInv(w, s, size);
    case Event(f) => EventKeepsInv(w, s, f, size);
    case Wire => WireByteKeepsInv(w, s, size);
    case ChunkOver => ChunkOverKeepsInv(w, s, size);
    case DmaRefuse => RefuseKeepsInv(w, s, size);
  }

  lemma {:induction false} DmaRunKeepsInv(w: Wiring, s: Sys, es: seq<DmaStep>, s': Sys, size: nat)
    requires DmaInv(w, s, size) && DmaRun(w, s, es, s')
    ensures DmaInv(w, s', size)
    decreases |es|
  {
    if es != [] {
      DmaStepKeepsInv(w, s, es[0], size);
      DmaRunKeepsInv(w, DmaApply(w, s, es[0]), es[1..], s', size);
    }
  }

  /** In every run of the DMA mode the channel set-ups and the programmed counts
      follow one plan, at most one set-up ahead, so each set-up length is the
      count programmed next; the bytes moved are the first ones in order; and a
      transfer that ends without an error has moved every byte once. */
  lemma DmaMode(w: Wiring, size: nat, es: seq<DmaStep>, s: Sys)
    requires size > 0 && DmaRun(w, BeginDma(size), es, s)
    ensures DmaFollows(s.hist.dmaLog, size) && ProgFollows(s.hist.progLog, size)
    ensures |s.hist.progLog| <= |s.hist.dmaLog| <= |s.hist.progLog| + 1
    ensures forall i | 0 <= i < |s.hist.progLog| :: s.hist.progLog[i].0 == s.hist.dmaLog[i].1
    ensures s.hist.moved == Upto(|s.hist.moved|) && |s.hist.moved| <= size
    ensures s.comm.ended && s.comm.error == OK ==>
      s.hist.moved == Upto(size) && |s.hist.progLog| == |s.hist.dmaLog| == |Plan(0, size)|
  {
    BeginDmaInv(w, size);
    DmaRunKeepsInv(w, BeginDma(size), es, s, size);
  }

  /** After a clean end all bytes passed the wire exactly when nothing was
      refused. */
  lemma DmaPassedIff(w: Wiring, size: nat, es: seq<DmaStep>, s: Sys)
    requires size > 0 && DmaRun(w, BeginDma(size), es, s) && s.comm.ended && s.comm.error == OK
    ensures s.hist.passed == size <==> !s.port.refused
  {
    BeginDmaInv(w, size);
    DmaRunKeepsInv(w, BeginDma(size), es, s, size);
  }

  // ----- how DMA transfers end -----

  function ShowEvent(s: Sys): DmaStep {
    Event(Flags(s.port.ackfail, false, s.port.tcrld, false, false, s.port.refused || s.port.mode == AutoStop))
  }

  /** The step that takes the transfer on. */
  function OnwardDma(w: Wiring, s: Sys): DmaStep {
    if s.dma.fdt then Complete
    else if s.port.tx then Wire
    else if s.port.rx then Byte
    else if s.port.cnt > 0 then (if w.receive then Wire else Byte)
    else if s.port.mode == Reload && !s.port.tcrld then ChunkOver
    else ShowEvent(s)
  }

  function DmaRank(s: Sys): nat {
    if s.dma.fdt then 4 else if s.port.cnt > 0 then 1 else if s.port.tcrld then 2 else 3
  }

  predicate DmaAdvances(s: Sys, s': Sys) {
    || s'.hist.passed > s.hist.passed
    || (s'.hist.passed == s.hist.passed && s'.dma.addr > s.dma.addr)
    || (s'.hist.passed == s.hist.passed && s'.dma.addr == s.dma.addr && DmaRank(s') < DmaRank(s))
  }

  ghost predicate DmaGoing(w: Wiring, s: Sys, size: nat) {
    DmaInv(w, s, size) && !s.comm.ended && !s.port.refused
  }

  lemma OnwardDmaEnabled(w: Wiring, s: Sys, size: nat)
    requires DmaGoing(w, s, size)
    ensures DmaEnabled(w, s, OnwardDma(w, s))
  {
  }

  lemma OnwardDmaGoes(w: Wiring, s: Sys, size: nat)
    requires DmaGoing(w, s, size) && DmaEnabled(w, s, OnwardDma(w, s))
    ensures var s' := DmaApply(w, s, OnwardDma(w, s));
      && DmaInv(w, s', size) && !s'.port.refused
      && (if s'.comm.ended then s'.comm.error == OK else DmaAdvances(s, s'))
  {
    DmaStepKeepsInv(w, s, OnwardDma(w, s), size);
  }

  lemma DmaBounded(w: Wiring, s: Sys, size: nat)
    requires DmaGoing(w, s, size)
    ensures s.hist.passed <= size && s.dma.addr <= size
  {
  }

  /** From every state that is not refused the transfer can end with every byte
      moved. */
  lemma {:induction false} FinishDma(w: Wiring, s: Sys, size: nat) returns (es: seq<DmaStep>, s': Sys)
    requires DmaGoing(w, s, size)
    ensures DmaRun(w, s, es, s') && s'.comm.ended && !s'.port.refused && s'.comm.error == OK && DmaInv(w, s', size)
    decreases size - s.hist.passed, size - s.dma.addr, DmaRank(s)
  {
    var e := OnwardDma(w, s);
    OnwardDmaEnabled(w, s, size);
    OnwardDmaGoes(w, s, size);
    var m := DmaApply(w, s, e);
    if m.comm.ended {
      es, s' := [e], m;
    } else {
      DmaBounded(w, s, size);
      DmaBounded(w, m, size);
      es, s' := FinishDma(w, m, size);
      es := [e] + es;
    }
  }

  /** Some run ends with nothing refused and every byte moved. */
  ghost predicate CanFinishDma(w: Wiring, s: Sys, size: nat) {
    exists es, s' :: DmaRun(w, s, es, s') && s'.comm.ended && !s'.port.refused && s'.hist.moved == Upto(size)
  }

  /** A DMA transfer can end with every byte moved exactly when there are any: with
      none, the channel never completes, and only a completion or a refusal enables
      the stop interrupt. */
  lemma CanFinishDmaIff(w: Wiring, size: nat)
    ensures CanFinishDma(w, BeginDma(size), size) <==> size > 0
  {
    var s := BeginDma(size);
    if size > 0 {
      BeginDmaInv(w, size);
      var es, s' := FinishDma(w, s, size);
    } else {
      forall es, s' | DmaRun(w, s, es, s') ensures s'.port.refused || !s'.comm.ended {
        EmptyNeverEnds(w, s, es, s');
      }
    }
  }

  /** Nothing is left to count or to move, and nothing enables an interrupt. */
  predicate Idle(s: Sys) {
    && !s.comm.ended && s.dma.left == 0 && !s.dma.fdt && s.port.cnt == 0 && s.port.mode == AutoStop
    && !s.port.tcrld && !s.port.stopInt && !s.port.ackfail
  }

  lemma RefusedStays(w: Wiring, s: Sys, e: DmaStep)
    requires DmaEnabled(w, s, e) && s.port.refused
    ensures DmaApply(w, s, e).port.refused
  {
    if e.Event? {
      EventKeepsRefused(s, e.f);
    }
  }

  lemma EventKeepsRefused(s: Sys, f: Flags)
    requires s.comm.pcount >= 0 && s.port.refused
    ensures IsrDma(s, f).port.refused
  {
  }

  lemma {:induction false} EmptyNeverEnds(w: Wiring, s: Sys, es: seq<DmaStep>, s': Sys)
    requires DmaRun(w, s, es, s') && (s.port.refused || Idle(s))
    ensures s'.port.refused || !s'.comm.ended
    decreases |es|
  {
    if es != [] {
      var m := DmaApply(w, s, es[0]);
      if s.port.refused {
        RefusedStays(w, s, es[0]);
      } else {
        assert es[0].DmaRefuse?;
      }
      EmptyNeverEnds(w, m, es[1..], s');
    }
  }

  /** A refused transfer can end with at most two more events, which move nothing,
      and then reports the refusal if bytes were left to move. */
  lemma RefusedEndsDma(w: Wiring, size: nat, es: seq<DmaStep>, s: Sys) returns (more: seq<DmaStep>, s': Sys)
    requires size > 0 && DmaRun(w, BeginDma(size), es, s) && s.port.refused && !s.comm.ended
    ensures DmaRun(w, s, more, s') && |more| <= 2 && s'.comm.ended && s'.hist == s.hist
    ensures s.comm.error == OK ==> s'.comm.error == if s.comm.pcount > 0 then ACKFAIL else OK
    ensures s.comm.error != OK ==> s'.comm.error == ACKFAIL
  {
    BeginDmaInv(w, size);
    DmaRunKeepsInv(w, BeginDma(size), es, s, size);
    var first := ShowEvent(s);
    s' := DmaApply(w, s, first);
    more := [first];
    assert DmaRun(w, s', [], s');
    if s.port.ackfail {
      var m, last := s', ShowEvent(s');
      s' := DmaApply(w, m, last);
      more := [first, last];
      assert more[1..] == [last] && [last][1..] == [];
      assert DmaRun(w, m, [last], s');
    }
  }

  /** Some run ends refused and without an error. */
  ghost predicate CanHideDmaRefusal(w: Wiring, s: Sys) {
    exists es, s' :: DmaRun(w, s, es, s') && s'.comm.ended && s'.port.refused && s'.comm.error == OK
  }

  /** A refusal can go unreported exactly when bytes are sent, the channel being
      done while the last of them is still in the register, or there are none. */
  lemma CanHideDmaRefusalIff(w: Wiring, size: nat)
    ensures CanHideDmaRefusal(w, BeginDma(size)) <==> !w.receive || size == 0
  {
    var s := BeginDma(size);
    if size == 0 {
      var es, s' := RefuseLastDma(w, s);
    } else {
      BeginDmaInv(w, size);
      if !w.receive {
        var es, s' := HideDmaRefusal(w, s, size);
      } else {
        forall es, s' | DmaRun(w, s, es, s') && s'.comm.ended && s'.port.refused ensures s'.comm.error != OK {
          DmaRunKeepsInv(w, s, es, s', size);
        }
      }
    }
  }

  /** Send up to the completion of the last chunk; the slave then refuses its last
      byte. */
  lemma {:induction false} HideDmaRefusal(w: Wiring, s: Sys, size: nat) returns (es: seq<DmaStep>, s': Sys)
    requires DmaGoing(w, s, size) && !w.receive
    requires (s.comm.pcount == 0 || s.dma.fdt) ==> s.port.tx
    ensures DmaRun(w, s, es, s') && s'.comm.ended && s'.port.refused && s'.comm.error == OK
    decreases size - s.hist.passed, size - s.dma.addr, DmaRank(s)
  {
    if s.comm.pcount == 0 {
      es, s' := RefuseLastDma(w, s);
    } else {
      var m := DmaApply(w, s, OnwardDma(w, s));
      OnwardDmaEnabled(w, s, size);
      OnwardDmaGoes(w, s, size);
      StillInRegister(w, s, size);
      DmaBounded(w, s, size);
      DmaBounded(w, m, size);
      es, s' := HideDmaRefusal(w, m, size);
      es := [OnwardDma(w, s)] + es;
    }
  }

  lemma StillInRegister(w: Wiring, s: Sys, size: nat)
    requires DmaGoing(w, s, size) && !w.receive && s.comm.pcount > 0 && (s.dma.fdt ==> s.port.tx)
    requires DmaEnabled(w, s, OnwardDma(w, s))
    ensures var m := DmaApply(w, s, OnwardDma(w, s));
      !m.comm.ended && ((m.comm.pcount == 0 || m.dma.fdt) ==> m.port.tx)
  {
  }

  lemma RefuseLastDma(w: Wiring, s: Sys) returns (es: seq<DmaStep>, s': Sys)
    requires !s.comm.ended && s.comm.error == OK && s.comm.pcount == 0 && CanRefuse(w, s) && !s.port.tcrld
    ensures DmaRun(w, s, es, s') && s'.comm.ended && s'.port.refused && s'.comm.error == OK
  {
    var s1 := DmaApply(w, s, DmaRefuse);
    var s2 := DmaApply(w, s1, ShowEvent(s1));
    s' := DmaApply(w, s2, ShowEvent(s2));
    es := [DmaRefuse, ShowEvent(s1), ShowEvent(s2)];
    assert es[1..] == [ShowEvent(s1), ShowEvent(s2)] && es[1..][1..] == [ShowEvent(s2)] && es[1..][1..][1..] == [];
    assert DmaRun(w, s2, [ShowEvent(s2)], s');
    assert DmaRun(w, s1, [ShowEvent(s1), ShowEvent(s2)], s');
  }

  /** Both modes move the same bytes in the same order. */
  lemma ModesAgree(w: Wiring, size: nat, es: seq<IntStep>, s: Sys, ds: seq<DmaStep>, t: Sys)
    requires size > 0
    requires IntRun(w, BeginInt(size), es, s) && DmaRun(w, BeginDma(size), ds, t)
    requires s.comm.ended && s.comm.error == OK && t.comm.ended && t.comm.error == OK
    ensures s.hist.moved == t.hist.moved == Upto(size)
  {
    EndsCleanIff(w, size, es, s);
    DmaMode(w, size, ds, t);
  }

  // ----- the driver's functions, in place -----

  /** The handle: its comm record, the registers it drives and, as a ghost, the
      history. */
  class Handle {
    var comm: Comm
    var port: Port
    var dma: Channel
    ghost var hist: History

    ghost function Snap(): Sys
      reads this
    {
      Sys(comm, port, dma, hist)
    }

    /** i2c_transmit_set. */
    method TransmitSet(count: int, mode: Mode)
      requires count >= 0
      modifies this
      ensures Snap() == Program(old(Snap()), count, mode)
    {
      port := port.(cnt := count % 0x100, mode := mode, tcrld := false);
      hist := hist.(progLog := hist.progLog + [(count, mode)]);
    }

    /** i2c_dma_config of comm.psize bytes at comm.pbuff. */
    method ConfigDma()
      requires comm.psize >= 0
      modifies this`dma, this`hist
      ensures Snap() == DmaConfig(old(Snap()))
    {
      dma := dma.(left := comm.psize, addr := comm.pbuff, on := true);
      hist := hist.(dmaLog := hist.dmaLog + [(comm.pbuff, comm.psize)]);
    }

    /** i2c_start_transfer. */
    method Start()
      requires comm.pcount >= 0
      modifies this
      ensures Snap() == StartTransfer(old(Snap()))
    {
      if comm.pcount > MAX_TRANSFER_CNT {
        comm := comm.(psize := MAX_TRANSFER_CNT);
        TransmitSet(comm.psize, Reload);
      } else {
        comm := comm.(psize := comm.pcount);
        TransmitSet(comm.psize, AutoStop);
      }
    }

    /** i2c_start_transfer_dma. */
    method StartDma()
      requires comm.pcount >= 0
      modifies this
      ensures Snap() == StartTransferDma(old(Snap()))
    {
      if comm.pcount > MAX_TRANSFER_CNT {
        comm := comm.(psize := MAX_TRANSFER_CNT);
        ConfigDma();
        TransmitSet(comm.psize, Reload);
      } else {
        comm := comm.(psize := comm.pcount);
        ConfigDma();
        TransmitSet(comm.psize, AutoStop);
      }
    }

    /** The initialisation the four i2c_master_ functions share, on an idle
        peripheral; the history starts here. */
    method Initialise(size: nat)
      modifies this
      ensures Snap() == Fresh(size)
    {
      comm := Comm(0, size, 0, false, OK);
      port := Port(0, AutoStop, false, false, false, false, false, false, false, false);
      dma := Channel(0, 0, false, false, false);
      hist := History(0, [], [], []);
    }

    /** i2c_master_transmit_int and i2c_master_receive_int; `busy` says that the
        bus stayed busy until the timeout. */
    method MasterInt(size: nat, busy: bool) returns (ok: bool)
      modifies this
      ensures ok == !busy
      ensures Snap() == if busy then Busy(size) else BeginInt(size)
    {
      Initialise(size);
      if busy {
        comm := comm.(error := TIMEOUT);
        return false;
      }
      Start();
      return true;
    }

    /** i2c_master_transmit_dma and i2c_master_receive_dma. */
    method MasterDma(size: nat, busy: bool) returns (ok: bool)
      modifies this
      ensures ok == !busy
      ensures Snap() == if busy then Busy(size) else BeginDma(size)
    {
      Initialise(size);
      if busy {
        comm := comm.(error := TIMEOUT);
        return false;
      }
      dma := dma.(request := false);
      StartDma();
      dma := dma.(request := true);
      return true;
    }

    /** The data branches of i2c_master_isr_int. */
    method Transfer(send: bool)
      modifies this
      ensures Snap() == MoveByte(old(Snap()), send)
    {
      hist := hist.(moved := hist.moved + [comm.pbuff]);
      port := if send then port.(tx := true) else port.(rx := false);
      comm := comm.(pbuff := comm.pbuff + 1);
      comm := comm.(pcount := comm.pcount - 1);
      comm := comm.(psize := comm.psize - 1);
    }

    method MasterIsrInt(f: Flags)
      requires comm.pcount >= 0
      modifies this
      ensures Snap() == IsrInt(old(Snap()), f)
    {
      if f.ackfail {
        port := port.(ackfail := false, tx := false);
        if comm.pcount != 0 {
          comm := comm.(error := ACKFAIL);
        }
      } else if f.tdis {
        Transfer(true);
      } else if f.tcrld {
        if comm.psize == 0 && comm.pcount != 0 {
          Start();
        }
      } else if f.rdbf {
        Transfer(false);
      } else if f.tdc {
        if comm.pcount == 0 && port.mode != AutoStop {
          port := port.(stop := true);
        }
      } else if f.stopf {
        port := port.(ackfail := false, tx := false);
        comm := comm.(ended := true);
      }
    }

    method MasterIsrDma(f: Flags)
      requires comm.pcount >= 0
      modifies this
      ensures Snap() == IsrDma(old(Snap()), f)
    {
      if f.ackfail {
        port := port.(ackfail := false, tx := false, stopInt := true);
        if comm.pcount != 0 {
          comm := comm.(error := ACKFAIL);
        }
      } else if f.tcrld {
        port := port.(tdcInt := false);
        if comm.pcount != 0 {
          Start();
          dma := dma.(request := true);
        }
      } else if f.stopf {
        port := port.(ackfail := false, tx := false, tdcInt := false, stopInt := false);
        comm := comm.(ended := true);
      }
    }

    /** i2c_dma_isr on transfer complete. */
    method DmaComplete()
      requires comm.pcount >= comm.psize >= 0
      modifies this
      ensures Snap() == DmaIsr(old(Snap()))
    {
      dma := dma.(fdt := false, request := false, on := false);
      comm := comm.(pcount := comm.pcount - comm.psize);
      if comm.pcount == 0 {
        port := port.(stopInt := true);
      } else {
        comm := comm.(pbuff := comm.pbuff + comm.psize);
        comm := comm.(psize := if comm.pcount > MAX_TRANSFER_CNT then MAX_TRANSFER_CNT else comm.pcount);
        ConfigDma();
        port := port.(tdcInt := true);
      }
    }
  }
}
