/** The baud divisor of the 8250 driver, in the driver's 32-bit arithmetic, and what reaches the
    divisor latch of the chip. */
module Divisor {
  import opened Rings
  import opened UartSpec

  const WIDTH: nat := 0x1_0000_0000

  /** `DIV_ROUND_CLOSEST` on unsigned ints: the sum may wrap. */
  function DivRoundClosest(x: nat, d: nat): nat
    requires x < WIDTH && 0 < d < WIDTH
  {
    (x + d / 2) % WIDTH / d
  }

  /** How the port is set up: its clock, the custom divisor of the "custom speed" flag, and the
      flag for the magic divisors of SMSC chips. */
  datatype Clock = Clock(uartclk: nat, custom: bool, customDivisor: nat, magic: bool) {
    /** The rate range that termios changes are held to. */
    function Min(): nat { uartclk / 16 / 0xffff }
    function Max(): nat { uartclk / 16 }
  }

  /** `uart_get_divisor`. */
  function UartGetDivisor(c: Clock, baud: nat): nat
    requires c.uartclk < WIDTH && 0 < 16 * baud < WIDTH
  {
    if baud == 38400 && c.custom then c.customDivisor else DivRoundClosest(c.uartclk, 16 * baud)
  }

  /** `serial8250_get_divisor`. */
  function GetDivisor(c: Clock, baud: nat): nat
    requires c.uartclk < WIDTH && 0 < 16 * baud < WIDTH
  {
    if c.magic && baud == c.uartclk / 4 then 0x8001
    else if c.magic && baud == c.uartclk / 8 then 0x8002
    else UartGetDivisor(c, baud)
  }

  predicate Wraps(c: Clock, baud: nat) { c.uartclk + 8 * baud >= WIDTH }

  function Distance(a: int, b: int): nat { if a < b then b - a else a - b }

  /** No closer multiple of the unit exists. */
  ghost predicate Nearest(x: nat, unit: nat, q: nat) {
    forall p: nat :: Distance(unit * q, x) <= Distance(unit * p, x)
  }

  /** A rate that is above the minimum, at most the maximum, and has no special treatment. */
  predicate Ordinary(c: Clock, baud: nat) {
    c.Min() < baud <= c.Max() && c.uartclk < WIDTH && (baud == 38400 ==> !c.custom)
  }

  lemma RangeHasNoMagic(c: Clock, baud: nat)
    requires Ordinary(c, baud)
    ensures 0 < 16 * baud <= c.uartclk && GetDivisor(c, baud) == DivRoundClosest(c.uartclk, 16 * baud)
  {
  }

  /** Rounding to the closest: the quotient q of x + d / 2. */
  lemma QuotientBounds(x: nat, d: nat)
    requires d > 0
    ensures var q := x / d; d * q <= x < d * q + d
  {
  }

  /** The workaround for Oxford chips that fail on a zero low byte. */
  function Corrected(quot: nat, bugQuot: bool): nat {
    if bugQuot && quot % 256 == 0 then quot + 1 else quot
  }

  /** In the range the divisor fits the 16-bit latch, whatever the clock, and also after the correction. */
  lemma DivisorFits(c: Clock, baud: nat)
    requires Ordinary(c, baud)
    ensures 0 < 16 * baud < WIDTH && GetDivisor(c, baud) <= 0xffff
    ensures forall bug :: Corrected(GetDivisor(c, baud), bug) <= 0xffff
  {
    RangeHasNoMagic(c, baud);
    var d := 16 * baud;
    var y := (c.uartclk + d / 2) % WIDTH;
    QuotientBounds(y, d);
    AboveMin(c, baud);
    var q := y / d;
    MulMonotone(d, 0x10000, q);
  }

  lemma AboveMin(c: Clock, baud: nat)
    requires c.Min() < baud
    ensures c.uartclk < 16 * 0xffff * baud
  {
    var m := c.uartclk / 16;
    QuotientBounds(m, 0xffff);
    assert m < 0xffff * (m / 0xffff + 1) <= 0xffff * baud;
  }

  /** The sum that is divided, when it wraps and when it does not. */
  lemma Dividend(c: Clock, baud: nat)
    requires Ordinary(c, baud)
    ensures (c.uartclk + 16 * baud / 2) % WIDTH == c.uartclk + 8 * baud - if Wraps(c, baud) then WIDTH else 0
  {
    RangeHasNoMagic(c, baud);
    var w := if Wraps(c, baud) then 1 else 0;
    ModUnique(c.uartclk + 8 * baud, WIDTH, w, c.uartclk + 8 * baud - w * WIDTH);
  }

  /** With a wrap the divisor is 0. */
  lemma WrappedDivisor(c: Clock, baud: nat)
    requires Ordinary(c, baud) && Wraps(c, baud)
    ensures 0 < 16 * baud < WIDTH && GetDivisor(c, baud) == 0
  {
    RangeHasNoMagic(c, baud);
    Dividend(c, baud);
    ModUnique(c.uartclk + 8 * baud - WIDTH, 16 * baud, 0, c.uartclk + 8 * baud - WIDTH);
  }

  lemma PlainDivisor(c: Clock, baud: nat)
    requires Ordinary(c, baud) && !Wraps(c, baud)
    ensures 0 < 16 * baud < WIDTH && GetDivisor(c, baud) >= 1
    ensures Distance(16 * baud * GetDivisor(c, baud), c.uartclk) <= 8 * baud
  {
    RangeHasNoMagic(c, baud);
    Dividend(c, baud);
    HalfStep(c.uartclk, 8 * baud, (c.uartclk + 8 * baud) / (16 * baud));
  }

  /** Half a step is added before the division. */
  lemma HalfStep(x: nat, half: nat, q: nat)
    requires 0 < 2 * half <= x && q == (x + half) / (2 * half)
    ensures q >= 1 && Distance(2 * half * q, x) <= half
  {
    var d := 2 * half;
    QuotientBounds(x + half, d);
    MulMonotone(d, q, 0);
  }

  /** In the range, the programmed rate is as close to the wanted one as a divisor can make it,
      exactly if the 32-bit sum does not wrap; then the divisor is not zero, and 16 * baud * divisor
      misses the clock by at most 8 * baud. When the sum wraps, the divisor is 0. */
  lemma ClosestIff(c: Clock, baud: nat)
    requires Ordinary(c, baud)
    ensures 0 < 16 * baud < WIDTH
    ensures Distance(16 * baud * GetDivisor(c, baud), c.uartclk) <= 8 * baud <==> !Wraps(c, baud)
    ensures GetDivisor(c, baud) == 0 <==> Wraps(c, baud)
  {
    RangeHasNoMagic(c, baud);
    hide GetDivisor, DivRoundClosest;
    if Wraps(c, baud) {
      WrappedDivisor(c, baud);
      assert 16 * baud * GetDivisor(c, baud) == 0;
    } else {
      PlainDivisor(c, baud);
    }
  }

  /** A clock at the top of the range and an everyday rate: the sum wraps and the divisor is 0, although
      2330 would be right to within half a step. */
  lemma WrapGivesZero()
    ensures var c := Clock(0xffff_ffff, false, 0, false);
            && Ordinary(c, 115200) && Wraps(c, 115200) && GetDivisor(c, 115200) == 0
            && Distance(16 * 115200 * 2330, c.uartclk) <= 8 * 115200
  {
  }

  /** Within half a unit means nearest. */
  lemma HalfUnitIsNearest(x: nat, unit: nat, q: nat)
    requires 2 * Distance(unit * q, x) <= unit
    ensures Nearest(x, unit, q)
  {
    forall p: nat
      ensures Distance(unit * q, x) <= Distance(unit * p, x)
    {
      NoCloser(x, unit, q, p);
    }
  }

  lemma NoCloser(x: nat, unit: nat, q: nat, p: nat)
    requires 2 * Distance(unit * q, x) <= unit
    ensures Distance(unit * q, x) <= Distance(unit * p, x)
  {
    if p < q {
      MulMonotone(unit, p + 1, q);
      MulNext(unit, p);
    } else if p > q {
      MulMonotone(unit, q + 1, p);
      MulNext(unit, q);
    }
    Nearer(x, unit * q, unit * p, unit);
  }

  lemma MulNext(a: int, b: int)
    ensures a * (b + 1) == a * b + a
  {
  }

  /** Two multiples that are a unit apart, seen from x. */
  lemma Nearer(x: int, a: int, b: int, unit: int)
    requires 2 * Distance(a, x) <= unit && (a == b || a + unit <= b || b + unit <= a)
    ensures Distance(a, x) <= Distance(b, x)
  {
  }

  /** With no wrap, no divisor gives a rate closer to the clock. */
  lemma DivisorIsNearest(c: Clock, baud: nat)
    requires Ordinary(c, baud) && !Wraps(c, baud)
    ensures 0 < 16 * baud < WIDTH && Nearest(c.uartclk, 16 * baud, GetDivisor(c, baud))
  {
    ClosestIff(c, baud);
    HalfUnitIsNearest(c.uartclk, 16 * baud, GetDivisor(c, baud));
  }

  /** The minimum itself is accepted by the range test, but its divisor fits the latch only if the
      clock is below 65535.5 * 16 times the rate (or the 32-bit sum wraps). */
  lemma MinimumFitsIff(c: Clock)
    requires 0 < c.Min() && c.uartclk < WIDTH
    requires c.Min() == 38400 ==> !c.custom
    ensures 0 < 16 * c.Min() < WIDTH
    ensures GetDivisor(c, c.Min()) <= 0xffff <==> Wraps(c, c.Min()) || c.uartclk < 1048568 * c.Min()
  {
    var baud := c.Min();
    QuotientBounds(c.uartclk / 16, 0xffff);
    var d := 16 * baud;
    var w := if Wraps(c, baud) then 1 else 0;
    var y := c.uartclk + d / 2 - w * WIDTH;
    ModUnique(c.uartclk + d / 2, WIDTH, w, y);
    QuotientBounds(y, d);
    var q := y / d;
    MulMonotone(d, q, 0xffff);
    MulMonotone(d, 0x10000, q);
  }

  /** With the usual 1.8432 MHz clock the minimum does not fit: a rate of 1 asks for 115200. */
  lemma MinimumOverflows()
    ensures var c := Clock(1843200, false, 0, false); c.Min() == 1 && GetDivisor(c, c.Min()) == 115200 > 0xffff
  {
  }

  /** The rate that an impossible request is clipped to. */
  function Clip(c: Clock, baud: int): int {
    if baud <= c.Min() then c.Min() + 1 else c.Max() - 1
  }

  /** Clipping keeps clear of the minimum, so a clipped rate always fits the latch. */
  lemma ClippedFits(c: Clock, baud: int)
    requires c.uartclk < WIDTH && c.Min() + 1 < c.Max() && !(c.Min() <= baud <= c.Max())
    requires Clip(c, baud) == 38400 ==> !c.custom
    ensures 0 < 16 * Clip(c, baud) < WIDTH && GetDivisor(c, Clip(c, baud)) <= 0xffff
  {
    DivisorFits(c, Clip(c, baud));
  }

  /** Of the rates strictly between the limits the clipped one is nearest to the request. */
  lemma ClipIsNearest(c: Clock, baud: int)
    requires c.Min() + 1 < c.Max() && !(c.Min() <= baud <= c.Max())
    ensures c.Min() < Clip(c, baud) < c.Max()
    ensures forall r: int :: c.Min() < r < c.Max() ==> Distance(Clip(c, baud), baud) <= Distance(r, baud)
  {
  }

  /** A corrected divisor never has a zero low byte; it is the divisor itself or one more, and on chips without
      the fault always the divisor itself. */
  lemma CorrectedMeans(quot: nat)
    ensures Corrected(quot, true) % 256 != 0 && Corrected(quot, false) == quot
    ensures Corrected(quot, true) == quot || (quot % 256 == 0 && Corrected(quot, true) == quot + 1)
  {
  }

  /** The rates that are not divided out: 38400 on a port with a custom divisor, and on chips with magic
      divisors a quarter and an eighth of the clock. */
  lemma SpecialRates(c: Clock, baud: nat)
    requires c.uartclk < WIDTH && 0 < 16 * baud < WIDTH
    ensures var q := GetDivisor(c, baud);
            && (c.magic && baud == c.uartclk / 4 ==> q == 32769)
            && (c.magic && baud == c.uartclk / 8 && baud != c.uartclk / 4 ==> q == 32770)
            && (c.custom && baud == 38400 && !(c.magic && (baud == c.uartclk / 4 || baud == c.uartclk / 8)) ==> q == c.customDivisor)
  {
  }

  // ---------- Into the chip

  ghost function Out(u: Uart, a: nat, val: bv8): (v: Uart)
    requires Inv(u)
    ensures Inv(v)
  {
    var s := Step.Write(a, val, true, NotSupported);
    NextKeepsInv(u, s);
    Next(u, s)
  }

  function Low(quot: bv32): bv8 { (quot & 0xff) as bv8 }

  function High(quot: bv32): bv8 { ((quot >> 8) & 0xff) as bv8 }

  /** `serial_dl_write` between the two LCR writes of `serial8250_do_set_termios`. */
  ghost function Latch(u: Uart, quot: bv32, cval: bv8): (v: Uart)
    requires Inv(u)
  {
    Out(Out(Out(Out(u, 3, cval | UART_LCR_DLAB), 0, Low(quot)), 1, High(quot)), 3, cval)
  }

  function WithLow(d: bv16, b: bv8): bv16 { (d & 0xff00) | (b as bv16) }

  function WithHigh(d: bv16, b: bv8): bv16 { (d & 0x00ff) | ((b as bv16) << 8) }

  lemma DlabSet(cval: bv8)
    ensures (cval | UART_LCR_DLAB) & UART_LCR_DLAB != 0
  {
  }

  /** The two byte writes put the latch together. */
  lemma LatchBytes(d: bv16, quot: bv32)
    ensures WithHigh(WithLow(d, Low(quot)), High(quot)) == (quot & 0xffff) as bv16
  {
  }

  lemma OutLcr(u: Uart, val: bv8)
    requires Inv(u)
    ensures Out(u, 3, val) == WriteLcr(u, val)
  {
  }

  lemma OutLow(u: Uart, b: bv8)
    requires Inv(u) && u.Dlab()
    ensures Out(u, 0, b) == u.(g := u.g.(divider := WithLow(u.g.divider, b)))
  {
    hide Inv, WriteThr, WriteIer, WriteFcr, WriteLcr, WriteMcr;
  }

  lemma OutHigh(u: Uart, b: bv8)
    requires Inv(u) && u.Dlab()
    ensures Out(u, 1, b) == u.(g := u.g.(divider := WithHigh(u.g.divider, b)))
  {
    hide Inv, WriteThr, WriteIer, WriteFcr, WriteLcr, WriteMcr;
  }

  /** The emulated chip takes the low 16 bits of the divisor, and nothing but the divisor, LCR and
      perhaps the break line changes: the bytes do not reach the transmitter. */
  lemma LatchTakesDivisor(u: Uart, quot: bv32, cval: bv8)
    requires Inv(u)
    ensures var v := Latch(u, quot, cval);
            && v.g == u.g.(divider := (quot & 0xffff) as bv16, lcr := cval)
            && v.rx == u.rx && v.m == u.m && v.w.out == u.w.out
  {
    hide Out, Low, High, WithLow, WithHigh, Inv;
    var u1 := Out(u, 3, cval | UART_LCR_DLAB);
    OutLcr(u, cval | UART_LCR_DLAB);
    DlabSet(cval);
    OutLow(u1, Low(quot));
    var u2 := Out(u1, 0, Low(quot));
    OutHigh(u2, High(quot));
    var u3 := Out(u2, 1, High(quot));
    OutLcr(u3, cval);
    LatchBytes(u.g.divider, quot);
  }

  /** So the chip divides by the computed divisor exactly if that fits 16 bits. */
  lemma LatchExactIff(quot: bv32)
    ensures ((quot & 0xffff) as bv16) as bv32 == quot <==> quot <= 0xffff
  {
  }
}
