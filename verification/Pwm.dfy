/** The period and pulse arithmetic of libraries/rt_drivers/drv_pwm.c: set turns
    nanoseconds into the registers of a 16-bit timer, get turns them back. */
module Pwm {
  import opened Arith

  const MAX_PERIOD: nat := 65535
  const MIN_PERIOD: nat := 3
  const MIN_PULSE: nat := 2

  const WORD: nat := 0x1_0000_0000
  const HALFWORD: nat := 0x1_0000

  // ----- arithmetic -----

  function Mul(a: nat, b: nat): nat {
    a * b
  }

  function U32(x: nat): nat { x % WORD }

  function U16(x: nat): nat { x % HALFWORD }

  /** a divides by 1000 and then by psc, or the other way round. */
  lemma Enclosed(x: nat, psc: nat, q: nat, n: nat, a: nat, b: nat)
    requires 0 < a && a * b == 1000 * psc
    requires q * a <= x < q * a + a && n * b <= q < n * b + b
    ensures n * (1000 * psc) <= x < n * (1000 * psc) + 1000 * psc
  {
    calc {
      n * (1000 * psc);
      n * b * a;
    <= { MulMono(n * b, a, q, a); }
      q * a;
    }
    MulMono(q + 1, a, n * b + b, a);
    assert (n * b + b) * a == n * (1000 * psc) + 1000 * psc;
  }

  /** The driver's two divisions are one, in either order. */
  lemma QuotTwice(x: nat, psc: nat)
    requires psc > 0
    ensures Quot(Quot(x, 1000), psc) == Quot(x, 1000 * psc)
    ensures Quot(Quot(x, psc), 1000) == Quot(x, 1000 * psc)
  {
    Enclosed(x, psc, Quot(x, 1000), Quot(Quot(x, 1000), psc), 1000, psc);
    QuotIs(x, 1000 * psc, Quot(Quot(x, 1000), psc));
    Enclosed(x, psc, Quot(x, psc), Quot(Quot(x, psc), 1000), psc, 1000);
    QuotIs(x, 1000 * psc, Quot(Quot(x, psc), 1000));
  }

  // ----- what the registers are to be, in unbounded arithmetic -----

  /** The div, pr and cXdt registers that one call writes. */
  datatype Registers = Registers(div: nat, pr: nat, cdt: nat)

  /** The prescaler for a period of x / 1000 clock ticks. */
  function Prescaler(x: nat): (psc: nat)
    ensures psc > 0
  {
    Quot(Quot(x, 1000), MAX_PERIOD) + 1
  }

  /** The registers for a period of x / 1000 and a pulse of y / 1000 clock ticks. */
  function Exact(x: nat, y: nat): Registers {
    var psc := Prescaler(x);
    var t, q := Quot(x, 1000 * psc), Quot(y, 1000 * psc);
    var p := if t < MIN_PERIOD then MIN_PERIOD else t;
    Registers(psc - 1, p - 1, if q < MIN_PULSE then MIN_PULSE else if q >= p then p + 1 else q)
  }

  /** Nanoseconds in 32 bits times a clock of 1 to 288 MHz. */
  const MAX_TICKS: nat := 0xffff_ffff * 288

  lemma PeriodBelow(x: nat)
    ensures Quot(Quot(x, 1000), Prescaler(x)) <= 65534
  {
    var a, psc := Quot(x, 1000), Prescaler(x);
    var n := Quot(a, psc);
    if n >= 65535 {
      MulMono(65535, psc, n, psc);
    }
  }

  /** Nothing is cut off, in the 32-bit variables or the 16-bit registers. */
  lemma Fits(x: nat, y: nat)
    requires x <= MAX_TICKS && y <= MAX_TICKS
    ensures var psc, r := Prescaler(x), Exact(x, y);
      && Quot(x, 1000) < WORD && psc <= 18875
      && Quot(Quot(y, psc), 1000) < WORD
      && r.div < HALFWORD && 2 <= r.pr <= 65533 && 2 <= r.cdt <= r.pr + 2
  {
    var psc := Prescaler(x);
    QuotTwice(x, psc);
    QuotTwice(y, psc);
    PeriodBelow(x);
    var q := Quot(y, 1000 * psc);
    MulMono(q, 1000, q, 1000 * psc);
  }

  lemma QuotBelow(y: nat, tick: nat, n: nat)
    requires tick > 0
    ensures Quot(y, tick) < n <==> y < n * tick
  {
    var q := Quot(y, tick);
    if q < n {
      MulMono(q + 1, tick, n, tick);
    } else {
      MulMono(n, tick, q, tick);
    }
  }

  /** The prescaler is the least one that brings the period below 65535 ticks. */
  lemma PrescalerLeast(x: nat, n: nat)
    requires n > 0
    ensures Quot(Quot(x, 1000), n) < MAX_PERIOD <==> n >= Prescaler(x)
  {
    var a := Quot(x, 1000);
    QuotBelow(a, n, MAX_PERIOD);
    QuotBelow(a, MAX_PERIOD, n);
    assert MAX_PERIOD * n == n * MAX_PERIOD;
  }

  /** The period: three ticks exactly for those of less than four, and the whole
      ticks else. */
  lemma PeriodIs(x: nat, y: nat)
    ensures var r := Exact(x, y); var tick := 1000 * (r.div + 1);
      && r.div + 1 == Prescaler(x)
      && (r.pr + 1 == MIN_PERIOD <==> x < 4 * tick)
      && (r.pr + 1 > MIN_PERIOD ==> (r.pr + 1) * tick <= x < (r.pr + 2) * tick)
  {
    QuotBelow(x, 1000 * Prescaler(x), 4);
  }

  /** The compare value: the minimum exactly for pulses of less than three
      prescaled ticks, two of them clamped up; one more than the period, always
      on, exactly for pulses that reach it; and the whole ticks else. */
  lemma PulseIs(x: nat, y: nat)
    ensures var r := Exact(x, y); var tick := 1000 * (r.div + 1);
      && (r.cdt == MIN_PULSE <==> y < 3 * tick)
      && (r.cdt == r.pr + 2 <==> y >= (r.pr + 1) * tick)
      && (MIN_PULSE < r.cdt <= r.pr ==> r.cdt * tick <= y < (r.cdt + 1) * tick)
      && r.cdt != r.pr + 1
  {
    var tick := 1000 * Prescaler(x);
    QuotBelow(y, tick, Exact(x, y).pr + 1);
    QuotBelow(y, tick, 3);
  }

  // ----- the driver -----

  /** The 32-bit product of get, for the period (pr + 1 ticks) or a pulse. */
  function ReadBack(ticks: nat, div: nat, clk: nat): nat
    requires clk > 0
  {
    Quot(U32(U32(Mul(ticks, div + 1)) * 1000), clk)
  }

  predicate Request(period: nat, pulse: nat, clk: nat) {
    period < WORD && pulse < WORD && 1 <= clk <= 288
  }

  lemma RequestBounded(period: nat, pulse: nat, clk: nat)
    requires Request(period, pulse, clk)
    ensures Mul(period, clk) <= MAX_TICKS && Mul(pulse, clk) <= MAX_TICKS
  {
    MulMono(period, clk, 0xffff_ffff, 288);
    MulMono(pulse, clk, 0xffff_ffff, 288);
  }

  lemma SetSteps(x: nat, y: nat)
    requires x <= MAX_TICKS && y <= MAX_TICKS
    ensures var a, psc := Quot(x, 1000), Prescaler(x);
      && U32(a) == a
      && U32(Quot(a, MAX_PERIOD) + 1) == psc
      && Quot(a, psc) == Quot(x, 1000 * psc)
      && U32(Quot(Quot(y, psc), 1000)) == Quot(y, 1000 * psc)
  {
    Fits(x, y);
    QuotTwice(x, Prescaler(x));
    QuotTwice(y, Prescaler(x));
  }

  lemma SetRegisters(x: nat, y: nat)
    requires x <= MAX_TICKS && y <= MAX_TICKS
    ensures var r := Exact(x, y); U16(r.div) == r.div && U16(r.pr) == r.pr && U16(r.cdt) == r.cdt
  {
    Fits(x, y);
  }

  /** A 16-bit timer with four channels. */
  class Timer {
    var div: nat
    var pr: nat
    var cdt: seq<nat>

    ghost predicate Valid()
      reads this
    {
      div < HALFWORD && pr < HALFWORD && |cdt| == 4 && forall i | 0 <= i < 4 :: cdt[i] < HALFWORD
    }

    /** drv_pwm_set. Its 32-bit variables and 16-bit registers hold what
        unbounded arithmetic gives. */
    method Set(period: nat, pulse: nat, channel: nat, clk: nat)
      requires Valid() && Request(period, pulse, clk) && 1 <= channel <= 4
      modifies this
      ensures Valid()
      ensures var r := Exact(Mul(period, clk), Mul(pulse, clk));
        div == r.div && pr == r.pr && cdt == old(cdt)[channel - 1 := r.cdt]
    {
      RequestBounded(period, pulse, clk);
      SetSteps(Mul(period, clk), Mul(pulse, clk));
      SetRegisters(Mul(period, clk), Mul(pulse, clk));
      var p := U32(Quot(Mul(period, clk), 1000));
      var psc := U32(Quot(p, MAX_PERIOD) + 1);
      p := Quot(p, psc);
      div := U16(psc - 1);
      if p < MIN_PERIOD {
        p := MIN_PERIOD;
      }
      pr := U16(p - 1);
      var q := U32(Quot(Quot(Mul(pulse, clk), psc), 1000));
      if q < MIN_PULSE {
        q := MIN_PULSE;
      } else if q >= p {
        q := p + 1;
      }
      cdt := cdt[channel - 1 := U16(q)];
    }

    /** drv_pwm_get. */
    method Get(channel: nat, clk: nat) returns (period: nat, pulse: nat)
      requires Valid() && 1 <= clk <= 288 && 1 <= channel <= 4
      ensures period == ReadBack(pr + 1, div, clk)
      ensures pulse == ReadBack(cdt[channel - 1], div, clk)
    {
      period := Quot(U32(U32(Mul(pr + 1, div + 1)) * 1000), clk);
      pulse := Quot(U32(U32(Mul(cdt[channel - 1], div + 1)) * 1000), clk);
    }
  }

  // ----- what get reads back -----

  /** A product of the ticks in x that is cut to 32 bits before the division. */
  lemma CutProduct(x: nat, clk: nat, prescaled: nat, prod: nat)
    requires 1 <= clk <= 288 && 1000 <= prescaled <= 18875000
    requires prod <= x < prod + prescaled
    ensures var back := Quot(U32(prod), clk);
      && back * clk <= x
      && (x < back * clk + clk + prescaled <==> prod < WORD)
  {
    if prod >= WORD {
      assert U32(prod) <= prod - WORD;
    }
  }

  /** Exactly when the 32-bit product does not overflow, the time ns read back
      from its unclamped tick count is less than one prescaled tick and a
      nanosecond short. It is never too long. */
  lemma ReadBackIff(ns: nat, clk: nat, psc: nat)
    requires 1 <= clk <= 288 && 1 <= psc <= 18875
    ensures var t := Quot(Mul(ns, clk), 1000 * psc);
      var back := ReadBack(t, psc - 1, clk);
      && back <= ns
      && (clk * ns < clk * (back + 1) + 1000 * psc <==> Mul(t, psc) * 1000 < WORD)
  {
    var x := Mul(ns, clk);
    var t := Quot(x, 1000 * psc);
    var prod := Mul(t, psc) * 1000;
    ThreeFactors(t, psc);
    CutTwice(Mul(t, psc));
    CutProduct(x, clk, 1000 * psc, prod);
    NoLonger(ReadBack(t, psc - 1, clk), clk, ns);
  }

  lemma ThreeFactors(t: nat, psc: nat)
    ensures Mul(t, psc) * 1000 == t * (1000 * psc)
  {
  }

  lemma NoLonger(a: nat, c: nat, b: nat)
    requires 0 < c && a * c <= Mul(b, c)
    ensures a <= b
    ensures a * c + c == c * (a + 1) && Mul(b, c) == c * b
  {
    if a > b {
      MulMono(b + 1, c, a, c);
    }
  }

  lemma CutTwice(m: nat)
    ensures U32(U32(m) * 1000) == U32(m * 1000)
  {
    var q, r := m / WORD, U32(m);
    var p, u := r * 1000 / WORD, U32(r * 1000);
    assert m * 1000 == (1000 * q + p) * WORD + u;
    QuotIs(m * 1000, WORD, 1000 * q + p);
  }

  /** The period that set takes without clamping, and get then returns. */
  lemma PeriodReadBackIff(period: nat, pulse: nat, clk: nat)
    requires Request(period, pulse, clk) && 3000 <= Mul(period, clk)
    ensures var r := Exact(Mul(period, clk), Mul(pulse, clk));
      var back := ReadBack(r.pr + 1, r.div, clk);
      && back <= period
      && (clk * period < clk * (back + 1) + 1000 * (r.div + 1) <==> Mul(r.pr + 1, r.div + 1) * 1000 < WORD)
  {
    var x, y := Mul(period, clk), Mul(pulse, clk);
    RequestBounded(period, pulse, clk);
    Fits(x, y);
    NotClamped(x);
    ReadBackIff(period, clk, Prescaler(x));
  }

  /** The same for one timer: set a channel, then get it. */
  method SetThenGet(timer: Timer, period: nat, pulse: nat, channel: nat, clk: nat) returns (p: nat, q: nat)
    requires timer.Valid() && Request(period, pulse, clk) && 3000 <= Mul(period, clk) && 1 <= channel <= 4
    modifies timer
    ensures timer.Valid() && p <= period
    ensures clk * period < clk * (p + 1) + 1000 * (timer.div + 1) <==> Mul(timer.pr + 1, timer.div + 1) * 1000 < WORD
    ensures MIN_PULSE < timer.cdt[channel - 1] <= timer.pr ==> q <= pulse
  {
    timer.Set(period, pulse, channel, clk);
    p, q := timer.Get(channel, clk);
    PeriodReadBackIff(period, pulse, clk);
    PulseReadBackIff(period, pulse, clk);
  }

  lemma NotClamped(x: nat)
    ensures Quot(x, 1000 * Prescaler(x)) >= MIN_PERIOD <==> x >= 3000
  {
    var a, psc := Quot(x, 1000), Prescaler(x);
    QuotTwice(x, psc);
    if a >= MIN_PERIOD {
      assert a >= MIN_PERIOD * psc;
      QuotMono(MIN_PERIOD * psc, a, psc);
      QuotIs(MIN_PERIOD * psc, psc, MIN_PERIOD);
    } else {
      assert psc == 1;
    }
  }

  lemma ThreeTicks(clk: nat)
    requires clk > 0
    ensures ReadBack(3, 0, clk) == Quot(3000, clk)
  {
    assert Mul(3, 1) == 3;
  }

  /** A shorter request reads back as three ticks, which is no shorter. */
  lemma ClampedReadBack(period: nat, pulse: nat, clk: nat)
    requires Request(period, pulse, clk) && Mul(period, clk) < 3000
    ensures var r := Exact(Mul(period, clk), Mul(pulse, clk));
      r.div == 0 && r.pr == 2 && period <= ReadBack(r.pr + 1, r.div, clk) == Quot(3000, clk)
  {
    var x := Mul(period, clk);
    NotClamped(x);
    ThreeTicks(clk);
    assert Prescaler(x) == 1;
    QuotMono(x, 3000, clk);
    QuotIs(x, clk, period);
  }

  /** A pulse that is neither clamped up nor full reads back with the same
      bounds as the period; one of at least the period is on all the time. */
  lemma PulseReadBackIff(period: nat, pulse: nat, clk: nat)
    requires Request(period, pulse, clk) && 3000 <= Mul(period, clk)
    ensures var r := Exact(Mul(period, clk), Mul(pulse, clk));
      var back := ReadBack(r.cdt, r.div, clk);
      && (pulse >= period ==> r.cdt == r.pr + 2)
      && (MIN_PULSE < r.cdt <= r.pr ==>
            && back <= pulse
            && (clk * pulse < clk * (back + 1) + 1000 * (r.div + 1) <==> Mul(r.cdt, r.div + 1) * 1000 < WORD))
  {
    var x, y := Mul(period, clk), Mul(pulse, clk);
    RequestBounded(period, pulse, clk);
    Fits(x, y);
    NotClamped(x);
    ReadBackIff(pulse, clk, Prescaler(x));
    if pulse >= period {
      MulMono(period, clk, pulse, clk);
      QuotMono(x, y, 1000 * Prescaler(x));
    }
  }
}
