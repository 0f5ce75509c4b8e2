/** The registers as the guest sees them, in numbers: what it reads back of what it wrote, what the codes and
    levels are, and what the backend is told of its writes. */
module RegRuns {
  import opened Latches
  import opened UartSpec
  import opened UartRuns
  import opened ModemRuns

  // ---------- What was written is read back

  /** The registers that hold what was written, the divisor latch in its two bytes. */
  datatype Regs = Regs(lcr: bv8, mcr: bv8, ier: bv8, scr: bv8, low: bv8, high: bv8)

  const AT_RESET := Regs(0, 8, 0, 0, 12, 0)

  /** What an access does to them. While the top bit of LCR is set ports 0 and 1 are the divisor latch. MCR has
      five bits and IER four. */
  function After(r: Regs, s: Step): Regs {
    match s
    case Reset => AT_RESET
    case Write(addr, val, _, _) => Put(r, addr % 8, val)
    case _ => r
  }

  function Put(r: Regs, port: nat, val: bv8): Regs {
    match port
    case 0 => if r.lcr >= 128 then r.(low := val) else r
    case 1 => if r.lcr >= 128 then r.(high := val) else r.(ier := val % 16)
    case 3 => r.(lcr := val)
    case 4 => r.(mcr := val % 32)
    case 7 => r.(scr := val)
    case _ => r
  }

  function AfterAll(r: Regs, run: seq<Step>): Regs
    decreases |run|
  {
    if run == [] then r else AfterAll(After(r, run[0]), run[1..])
  }

  function RegsOf(g: Guest): Regs {
    Regs(g.lcr, g.mcr, g.ier, g.scr, LowHalf(g.divider), HighHalf(g.divider))
  }

  function LowHalf(d: bv16): bv8 { (d & 0xff) as bv8 }

  function HighHalf(d: bv16): bv8 { ((d >> 8) & 0xff) as bv8 }

  lemma RegsStep(u: Uart, s: Step)
    requires Inv(u) && Possible(s)
    ensures RegsOf(Next(u, s).g) == After(RegsOf(u.g), s)
  {
    hide RegsOf, WriteReg, Next, Inv, Put;
    InvBounds(u);
    if s.Write? {
      RegsWrite(u, s.addr % 8, s.val, s.flags);
      NextOfWrite(u, s);
    } else {
      RegsOthers(u, s);
    }
  }

  lemma NextOfWrite(u: Uart, s: Step)
    requires s.Write? && |u.rx.fifo| <= UART_FIFO_LENGTH
    ensures Next(u, s) == WriteReg(u, s.addr % 8, s.val, s.flags)
  {
  }

  lemma RegsOthers(u: Uart, s: Step)
    requires |u.rx.fifo| <= UART_FIFO_LENGTH && Possible(s) && !s.Write?
    ensures RegsOf(Next(u, s).g) == After(RegsOf(u.g), s)
  {
    hide WriteReg, LowHalf, HighHalf, ReceiveRx, ReadRx, Polled, PollLines;
    LatchOfReset();
  }

  lemma LatchOfReset()
    ensures LowHalf(0x0C) == 12 && HighHalf(0x0C) == 0
  {
  }

  lemma RegsWrite(u: Uart, a: nat, val: bv8, flags: ModemFlags)
    requires Inv(u) && a < 8
    ensures RegsOf(WriteReg(u, a, val, flags).g) == Put(RegsOf(u.g), a, val)
  {
    hide RegsOf, WriteReg;
    InvBounds(u);
    match a {
      case 0 => RegsWriteLow(u, val, flags);
      case 1 => RegsWriteHigh(u, val, flags);
      case _ => RegsWriteOther(u, a, val, flags);
    }
  }

  lemma RegsWriteLow(u: Uart, val: bv8, flags: ModemFlags)
    requires |u.rx.fifo| <= UART_FIFO_LENGTH
    ensures RegsOf(WriteReg(u, 0, val, flags).g) == if RegsOf(u.g).lcr >= 128 then RegsOf(u.g).(low := val) else RegsOf(u.g)
  {
    hide WriteThr, LowHalf, HighHalf, WriteReg, WithLow, RegsOf;
    LatchWrites(u, val, flags);
    WriteThrOnly(u, val);
    DlabBit(u.g.lcr);
    PutLow(u.g.divider, val);
    RegsOfDivider(u.g, WithLow(u.g.divider, val));
  }

  /** Ports 0 and 1, by the top bit of LCR. */
  lemma LatchWrites(u: Uart, val: bv8, flags: ModemFlags)
    requires |u.rx.fifo| <= UART_FIFO_LENGTH
    ensures WriteReg(u, 0, val, flags) == if u.Dlab() then WithDivider(u, WithLow(u.g.divider, val)) else WriteThr(u, val)
    ensures WriteReg(u, 1, val, flags) == if u.Dlab() then WithDivider(u, WithHigh(u.g.divider, val)) else WriteIer(u, val, flags)
  {
    LowWrite(u, val, flags);
    HighWrite(u, val, flags);
  }

  function WithDivider(u: Uart, d: bv16): Uart { u.(g := u.g.(divider := d)) }

  lemma LowWrite(u: Uart, val: bv8, flags: ModemFlags)
    requires |u.rx.fifo| <= UART_FIFO_LENGTH
    ensures WriteReg(u, 0, val, flags) == if u.Dlab() then WithDivider(u, WithLow(u.g.divider, val)) else WriteThr(u, val)
  {
    hide WriteThr, WriteIer, WriteFcr, WriteLcr, WriteMcr;
  }

  lemma HighWrite(u: Uart, val: bv8, flags: ModemFlags)
    requires |u.rx.fifo| <= UART_FIFO_LENGTH
    ensures WriteReg(u, 1, val, flags) == if u.Dlab() then WithDivider(u, WithHigh(u.g.divider, val)) else WriteIer(u, val, flags)
  {
    hide WriteThr, WriteIer, WriteFcr, WriteLcr, WriteMcr;
  }

  lemma RegsWriteHigh(u: Uart, val: bv8, flags: ModemFlags)
    requires |u.rx.fifo| <= UART_FIFO_LENGTH
    ensures RegsOf(WriteReg(u, 1, val, flags).g)
         == if RegsOf(u.g).lcr >= 128 then RegsOf(u.g).(high := val) else RegsOf(u.g).(ier := val % 16)
  {
    hide LowHalf, HighHalf, WriteReg, WriteIer, WithHigh, RegsOf;
    LatchWrites(u, val, flags);
    RegsOfIer(u.g, val & 0x0f);
    OtherWritesSendNothing(u, val, flags);
    DlabBit(u.g.lcr);
    Masks(val);
    PutHigh(u.g.divider, val);
    RegsOfDivider(u.g, WithHigh(u.g.divider, val));
  }

  lemma RegsWriteOther(u: Uart, a: nat, val: bv8, flags: ModemFlags)
    requires |u.rx.fifo| <= UART_FIFO_LENGTH && 2 <= a < 8
    ensures RegsOf(WriteReg(u, a, val, flags).g)
         == match a
            case 3 => RegsOf(u.g).(lcr := val)
            case 4 => RegsOf(u.g).(mcr := val % 32)
            case 7 => RegsOf(u.g).(scr := val)
            case _ => RegsOf(u.g)
  {
    hide LowHalf, HighHalf, WriteThr, WriteIer, WriteFcr, WriteLcr, WriteMcr;
    OtherWritesSendNothing(u, val, flags);
    GuestOfFcr(u, val);
    Masks(val);
  }

  lemma GuestOfFcr(u: Uart, val: bv8)
    ensures RegsOf(WriteFcr(u, val).g) == RegsOf(u.g)
  {
    hide FcrRx;
  }

  lemma RegsOfIer(g: Guest, ier: bv8)
    ensures RegsOf(g.(ier := ier)) == RegsOf(g).(ier := ier)
  {
  }

  lemma DlabBit(lcr: bv8)
    ensures lcr & UART_LCR_DLAB != 0 <==> lcr >= 128
  {
  }

  lemma Masks(val: bv8)
    ensures val & 0x0f == val % 16 && val & 0x1f == val % 32
  {
  }

  function WithLow(d: bv16, val: bv8): bv16 { (d & 0xff00) | (val as bv16) }

  function WithHigh(d: bv16, val: bv8): bv16 { (d & 0x00ff) | ((val as bv16) << 8) }

  lemma PutLow(d: bv16, val: bv8)
    ensures LowHalf(WithLow(d, val)) == val && HighHalf(WithLow(d, val)) == HighHalf(d)
  {
  }

  lemma PutHigh(d: bv16, val: bv8)
    ensures LowHalf(WithHigh(d, val)) == LowHalf(d) && HighHalf(WithHigh(d, val)) == val
  {
  }

  lemma RegsOfDivider(g: Guest, d: bv16)
    ensures RegsOf(g.(divider := d)) == RegsOf(g).(low := LowHalf(d), high := HighHalf(d))
    ensures RegsOf(g).lcr == g.lcr && RegsOf(g).low == LowHalf(g.divider) && RegsOf(g).high == HighHalf(g.divider)
  {
  }

  lemma {:induction false} RegsRun(u: Uart, run: seq<Step>)
    requires Inv(u) && Runnable(run)
    ensures RegsOf(Run(u, run).g) == AfterAll(RegsOf(u.g), run)
    decreases |run|
  {
    hide Next, RegsOf, After;
    if run != [] {
      InvBounds(u);
      NextKeepsInv(u, run[0]);
      RegsStep(u, run[0]);
      RegsRun(Next(u, run[0]), run[1..]);
    }
  }

  /** Over every run the guest reads back what its accesses, read off alone, have put in the registers. */
  lemma ReadsBack(u: Uart, run: seq<Step>, addr: nat, flags: ModemFlags)
    requires Inv(u) && Runnable(run)
    ensures var r := AfterAll(RegsOf(u.g), run); var value := ReadValue(Run(u, run), addr % 8, flags);
            && (addr % 8 == 3 ==> value == r.lcr) && (addr % 8 == 4 ==> value == r.mcr) && (addr % 8 == 7 ==> value == r.scr)
            && (addr % 8 == 1 ==> value == if r.lcr >= 128 then r.high else r.ier)
            && (addr % 8 == 0 && r.lcr >= 128 ==> value == r.low)
  {
    hide Run, AfterAll;
    RegsRun(u, run);
    DlabBit(Run(u, run).g.lcr);
  }

  /** After a reset the registers read: IER 0, IIR 1, LCR 0, MCR 8, LSR 0x60, MSR 0xB0, SCR 0, RBR 0; the divisor is
      12. */
  lemma ResetReads(u: Uart)
    ensures var v := ResetState(u);
            && RegsOf(v.g) == AT_RESET && v.rx.fifo == [] && !v.rx.dr
            && ReadValue(v, 5, NotSupported) == 0x60 && ReadValue(v, 6, NotSupported) == 0xB0
            && ReadValue(v, 2, NotSupported) == 0x01 && ReadValue(v, 1, NotSupported) == 0
            && ReadValue(v, 0, NotSupported) == 0 && v.w == u.w
  {
  }

  // ---------- Interrupt identification

  /** In numbers: 6 for the line status, 12 for the timeout, 4 for data, 2 for the transmitter, 0 for the modem, if
      the bit of IER with weight 4, 1, 1, 2 or 8 enables it; the first of these that is pending, or 1. */
  function FirstPending(u: Uart): bv8 {
    var ier := u.g.ier;
    if ier / 4 % 2 == 1 && (u.rx.oe || u.rx.bi) then 6
    else if ier % 2 == 1 && u.rx.timeout then 12
    else if ier % 2 == 1 && u.rx.dr && (u.Fifo() ==> |u.rx.fifo| >= u.rx.itl) then 4
    else if ier / 2 % 2 == 1 && u.thrPending then 2
    else if ier / 8 % 2 == 1 && (u.m.delta.cts || u.m.delta.dsr || u.m.delta.ri || u.m.delta.dcd) then 0
    else 1
  }

  /** IIR is that code, and 192 more if the FIFOs are shown as on. */
  lemma IirNumber(u: Uart, addr: nat, flags: ModemFlags)
    requires addr % 8 == 2
    ensures ReadValue(u, addr % 8, flags) == FirstPending(u) + if u.fifoId then 192 else 0
  {
    hide Ident, FirstPending;
    IdentNumber(u);
    IirSum(u);
  }

  lemma IdentNumber(u: Uart)
    ensures Ident(u) == FirstPending(u)
  {
    EnableBits(u.g.ier);
    AnyDelta(u.m.delta);
  }

  lemma EnableBits(ier: bv8)
    ensures (ier & UART_IER_RDI != 0 <==> ier % 2 == 1) && (ier & UART_IER_THRI != 0 <==> ier / 2 % 2 == 1)
    ensures (ier & UART_IER_RLSI != 0 <==> ier / 4 % 2 == 1) && (ier & UART_IER_MSI != 0 <==> ier / 8 % 2 == 1)
  {
  }

  lemma AnyDelta(d: Modem)
    ensures d != NO_DELTA <==> d.cts || d.dsr || d.ri || d.dcd
  {
  }

  lemma IirSum(u: Uart)
    ensures Iir(u) == Ident(u) + if u.fifoId then 192 else 0
  {
  }

  // ---------- Trigger levels

  /** The number of bytes for the top two bits of FCR. */
  function Level(fcr: bv8): nat {
    if fcr < 0x40 then 1 else if fcr < 0x80 then 4 else if fcr < 0xC0 then 8 else 14
  }

  predicate LevelRight(u: Uart) {
    u.Fifo() ==> u.rx.itl == Level(u.g.fcr)
  }

  lemma LevelStep(u: Uart, s: Step)
    requires Inv(u) && Possible(s) && LevelRight(u)
    ensures LevelRight(Next(u, s))
  {
    hide WriteReg, Inv, LevelRight, ReceiveRx;
    InvBounds(u);
    if s.Write? {
      LevelOfWrite(u, s.addr % 8, s.val, s.flags);
    } else {
      LevelOfOthers(u, s);
    }
  }

  lemma LevelOfOthers(u: Uart, s: Step)
    requires |u.rx.fifo| <= UART_FIFO_LENGTH && Possible(s) && !s.Write? && LevelRight(u)
    ensures LevelRight(Next(u, s))
  {
    hide WriteReg, Level, Polled, PollLines;
  }

  lemma LevelOfWrite(u: Uart, a: nat, val: bv8, flags: ModemFlags)
    requires Inv(u) && LevelRight(u)
    ensures LevelRight(WriteReg(u, a, val, flags))
  {
    if a == 2 {
      assert WriteReg(u, 2, val, flags) == WriteFcr(u, val);
      hide WriteFcr;
      LevelWrite(u, val);
    } else {
      hide Level, WriteReg;
      LevelUntouched(u, a, val, flags);
    }
  }

  lemma LevelUntouched(u: Uart, a: nat, val: bv8, flags: ModemFlags)
    requires Inv(u) && a != 2
    ensures WriteReg(u, a, val, flags).rx.itl == u.rx.itl && WriteReg(u, a, val, flags).g.fcr == u.g.fcr
  {
    hide IerModem, PollLines;
  }

  lemma LevelWrite(u: Uart, val: bv8)
    requires LevelRight(u)
    ensures LevelRight(WriteFcr(u, val))
  {
    LevelOfBits(val);
  }

  lemma LevelOfBits(val: bv8)
    ensures TriggerLevel(val) == Level(val) == Level(val & 0xC9) && (val & 0xC9) & UART_FCR_FE == val & UART_FCR_FE
  {
  }

  /** After every run with the FIFOs on, and data interrupts enabled: the received data interrupt is raised from
      1, 4, 8 or 14 bytes on, as the top two bits of FCR are 00, 01, 10 or 11. */
  lemma {:induction false} RaisedAtLevel(u: Uart, run: seq<Step>)
    requires Inv(u) && Runnable(run) && LevelRight(u)
    ensures var v := Run(u, run); LevelRight(v)
    ensures var v := Run(u, run);
            v.Fifo() && v.g.ier % 2 == 1 ==> (Asserted(v, DataReady) <==> |v.rx.fifo| >= Level(v.g.fcr))
    decreases |run|
  {
    if run != [] {
      hide Next, LevelRight;
      InvBounds(u);
      NextKeepsInv(u, run[0]);
      LevelStep(u, run[0]);
      RaisedAtLevel(Next(u, run[0]), run[1..]);
    } else {
      EnableBits(u.g.ier);
    }
  }

  // ---------- Flushing

  /** An FCR write that is no repetition empties the FIFO if its bit 1 is set or its bit 0 is new, and otherwise
      leaves what is in it; either way the FIFOs are on afterwards if bit 0 is set. */
  lemma FcrFlushes(u: Uart, val: bv8)
    ensures var v := WriteFcr(u, val);
            && (u.g.fcr == val ==> v == u)
            && (u.g.fcr != val ==>
                  && v.rx.fifo == (if val / 2 % 2 == 1 || val % 2 != u.g.fcr % 2 then [] else u.rx.fifo)
                  && (v.Fifo() <==> val % 2 == 1))
  {
    FlushBits(u.g.fcr, val);
  }

  lemma FlushBits(fcr: bv8, val: bv8)
    ensures fcr != val ==> (Flushes(fcr, val) <==> val / 2 % 2 == 1 || val % 2 != fcr % 2)
    ensures (val & 0xC9) & UART_FCR_FE != 0 <==> val % 2 == 1
  {
  }

  /** An empty FIFO reads as 0. */
  lemma EmptyFifoReadsZero(u: Uart, addr: nat, flags: ModemFlags)
    requires addr % 8 == 0 && u.Fifo() && u.rx.fifo == [] && !u.Dlab()
    ensures ReadValue(u, addr % 8, flags) == 0
  {
  }

  // ---------- Room for the backend

  /** With the FIFOs on the room leads just up to the trigger level; at the level itself there is none, above it
      one byte at a time, until the FIFO is full. With the FIFOs off there is room for a byte unless one is
      there. */
  lemma RoomMeans(u: Uart)
    requires Inv(u)
    ensures u.Fifo() && |u.rx.fifo| <= u.rx.itl ==> |u.rx.fifo| + Room(u) == u.rx.itl
    ensures u.Fifo() && u.rx.itl < |u.rx.fifo| < 16 ==> Room(u) == 1
    ensures u.Fifo() && |u.rx.fifo| == 16 ==> Room(u) == 0
    ensures !u.Fifo() ==> Room(u) == if u.rx.dr then 0 else 1
  {
  }

  /** The backend is told to go on once for every RBR read outside loopback. */
  predicate TellsBackend(r: Regs, s: Step) {
    s.Read? && s.addr % 8 == 0 && r.lcr < 128 && r.mcr / 16 % 2 == 0
  }

  function Tellings(r: Regs, run: seq<Step>): nat
    decreases |run|
  {
    if run == [] then 0 else (if TellsBackend(r, run[0]) then 1 else 0) + Tellings(After(r, run[0]), run[1..])
  }

  lemma {:induction false} AcceptsAreReads(u: Uart, run: seq<Step>)
    requires Inv(u) && Runnable(run)
    ensures Run(u, run).w.accepts == u.w.accepts + Tellings(RegsOf(u.g), run)
    decreases |run|
  {
    hide Next, RegsOf, After, TellsBackend;
    if run != [] {
      InvBounds(u);
      NextKeepsInv(u, run[0]);
      RegsStep(u, run[0]);
      AcceptStep(u, run[0]);
      AcceptsAreReads(Next(u, run[0]), run[1..]);
    }
  }

  lemma AcceptStep(u: Uart, s: Step)
    requires Inv(u) && Possible(s)
    ensures Next(u, s).w.accepts == u.w.accepts + if TellsBackend(RegsOf(u.g), s) then 1 else 0
  {
    hide IerModem, FcrRx, ReceiveRx, LowHalf, HighHalf;
    LoopBit(u.g.mcr);
    DlabBit(u.g.lcr);
    match s {
      case Write(addr, val, _, flags) =>
      case Read(addr, flags) =>
      case _ =>
    }
  }

  lemma LoopBit(mcr: bv8)
    ensures mcr & UART_MCR_LOOP != 0 <==> mcr / 16 % 2 == 1
  {
  }

  // ---------- Modem status

  /** The top half of an MSR read. Outside loopback these are the lines as just polled, or as last polled if
      the backend knows none; in loopback DTR, RTS, OUT1 and OUT2 of MCR come back as DSR, CTS, RI and DCD,
      and no delta. */
  lemma MsrShowsLines(u: Uart, addr: nat, flags: ModemFlags)
    requires addr % 8 == 6
    ensures var v := ReadValue(u, addr % 8, flags);
            var line := if u.m.poll >= 0 && flags.Tiocm? then flags.lines else u.m.line;
            if u.Loop() then
              v == (if u.g.mcr % 2 == 1 then 0x20 else 0) + (if u.g.mcr / 2 % 2 == 1 then 0x10 else 0)
                   + (if u.g.mcr / 4 % 2 == 1 then 0x40 else 0) + (if u.g.mcr / 8 % 2 == 1 then 0x80 else 0)
            else
              && (v & 0x10 != 0 <==> line.cts) && (v & 0x20 != 0 <==> line.dsr)
              && (v & 0x40 != 0 <==> line.ri) && (v & 0x80 != 0 <==> line.dcd)
  {
    hide Msr;
    if u.Loop() {
      LoopValue(u.g.mcr);
    } else {
      var p := Polled(u.m, flags);
      TopBits(p.line, p.delta);
    }
  }

  lemma LoopValue(mcr: bv8)
    ensures LoopMsr(mcr) == (if mcr % 2 == 1 then 0x20 else 0) + (if mcr / 2 % 2 == 1 then 0x10 else 0)
                            + (if mcr / 4 % 2 == 1 then 0x40 else 0) + (if mcr / 8 % 2 == 1 then 0x80 else 0)
  {
  }

  lemma TopBits(line: Modem, delta: Modem)
    ensures var v := Msr(line, delta);
            && (v & 0x10 != 0 <==> line.cts) && (v & 0x20 != 0 <==> line.dsr)
            && (v & 0x40 != 0 <==> line.ri) && (v & 0x80 != 0 <==> line.dcd)
  {
  }

  /** The lines that a step leaves known: those of its poll, if it polls and the backend knows them, and CTS, DSR
      and DCD after a reset. */
  lemma LineStep(u: Uart, s: Step)
    requires Inv(u) && Possible(s)
    ensures Next(u, s).m.line ==
      if s.Reset? then Modem(true, true, false, true) else if PollBy(u, s).Tiocm? then PollBy(u, s).lines else u.m.line
  {
    match s {
      case Write(addr, val, _, flags) => LineWrite(u, addr % 8, val, flags);
      case Read(addr, flags) =>
      case _ =>
    }
  }

  lemma LineWrite(u: Uart, a: nat, val: bv8, flags: ModemFlags)
    requires Inv(u)
    ensures WriteReg(u, a, val, flags).m.line ==
      if a == 1 && !u.Dlab() && u.m.poll >= 0 && val & UART_IER_MSI != 0 && flags.Tiocm? then flags.lines else u.m.line
  {
    hide DeltaAfter, FcrRx, ReceiveRx;
    assert (val & 0x0f) & UART_IER_MSI == val & UART_IER_MSI;
    match a {
      case 1 =>
      case 2 =>
      case _ =>
    }
  }

  /** Polling is on exactly while modem interrupts are enabled, unless the backend has said that it knows no
      lines; and while it is on its timer runs. */
  predicate PollRight(u: Uart) {
    && u.m.poll in {-1, 0, 1}
    && (u.m.poll >= 0 ==> (u.m.poll == 1 <==> u.g.ier / 8 % 2 == 1))
    && (u.m.poll == 1 ==> u.m.timer)
  }

  lemma PollStep(u: Uart, s: Step)
    requires Inv(u) && Possible(s) && PollRight(u)
    ensures PollRight(Next(u, s))
    ensures u.m.poll == -1 && !s.Reset? ==> Next(u, s).m.poll == -1
    ensures s.Reset? ==> Next(u, s).m.poll == 0
  {
    hide DeltaAfter, WriteReg;
    match s {
      case Write(addr, val, _, flags) => PollWrite(u, addr % 8, val, flags);
      case Read(addr, flags) =>
      case _ =>
    }
  }

  lemma PollWrite(u: Uart, a: nat, val: bv8, flags: ModemFlags)
    requires Inv(u) && PollRight(u)
    ensures PollRight(WriteReg(u, a, val, flags)) && (u.m.poll == -1 ==> WriteReg(u, a, val, flags).m.poll == -1)
  {
    hide DeltaAfter, WriteFcr, WriteThr, WriteIer, WriteMcr, WriteLcr, Inv;
    InvBounds(u);
    PollOfIer(u, val, flags);
    PollOfOthers(u, val);
    match a {
      case 0 =>
      case 1 =>
      case 2 =>
      case 3 =>
      case 4 =>
      case _ =>
    }
  }

  lemma PollOfIer(u: Uart, val: bv8, flags: ModemFlags)
    requires PollRight(u)
    ensures PollRight(WriteIer(u, val, flags)) && (u.m.poll == -1 ==> WriteIer(u, val, flags).m.poll == -1)
  {
    hide DeltaAfter;
    EnableBits(val & 0x0f);
  }

  lemma PollOfOthers(u: Uart, val: bv8)
    requires PollRight(u) && |u.rx.fifo| <= UART_FIFO_LENGTH
    ensures WriteFcr(u, val).m == u.m && WriteFcr(u, val).g.ier == u.g.ier
    ensures WriteThr(u, val).m == u.m && WriteThr(u, val).g.ier == u.g.ier
    ensures WriteLcr(u, val).m == u.m && WriteLcr(u, val).g.ier == u.g.ier
    ensures PollRight(WriteMcr(u, val)) && WriteMcr(u, val).m.poll == u.m.poll
  {
    hide FcrRx, ReceiveRx;
  }

  lemma {:induction false} PollFollowsIer(u: Uart, run: seq<Step>)
    requires Inv(u) && Runnable(run) && PollRight(u)
    ensures PollRight(Run(u, run))
    decreases |run|
  {
    hide Next, PollRight;
    if run != [] {
      InvBounds(u);
      NextKeepsInv(u, run[0]);
      PollStep(u, run[0]);
      PollFollowsIer(Next(u, run[0]), run[1..]);
    }
  }

  // ---------- What the backend is told

  function LcrIoctls(lcr: bv8, val: bv8): seq<Ioctl> {
    if val / 64 % 2 != lcr / 64 % 2 then [SetBreak(val / 64 % 2 == 1)] else []
  }

  function McrIoctls(mcr: bv8, val: bv8): seq<Ioctl> {
    if val / 16 % 2 == 0 && val % 32 != mcr then [SetLines(val / 2 % 2 == 1, val % 2 == 1)] else []
  }

  /** The ioctls of a step: a break that begins or ends with bit 6 of LCR, and RTS and DTR from a write that
      changes MCR, outside loopback, while the backend knows modem lines. */
  lemma IoctlStep(u: Uart, s: Step)
    requires Inv(u) && Possible(s)
    ensures Next(u, s).w.ioctls == u.w.ioctls +
      if s.Write? && s.addr % 8 == 3 then LcrIoctls(u.g.lcr, s.val)
      else if s.Write? && s.addr % 8 == 4 && u.m.poll >= 0 then McrIoctls(u.g.mcr, s.val) else []
  {
    hide WriteReg, Inv, LcrIoctls, McrIoctls;
    InvBounds(u);
    match s {
      case Write(addr, val, _, flags) => IoctlWrite(u, addr % 8, val, flags);
      case Read(addr, flags) =>
      case _ =>
    }
  }

  lemma IoctlWrite(u: Uart, a: nat, val: bv8, flags: ModemFlags)
    requires |u.rx.fifo| <= UART_FIFO_LENGTH
    ensures WriteReg(u, a, val, flags).w.ioctls == u.w.ioctls +
      if a == 3 then LcrIoctls(u.g.lcr, val) else if a == 4 && u.m.poll >= 0 then McrIoctls(u.g.mcr, val) else []
  {
    hide LcrIoctls, McrIoctls, WriteThr, WriteIer, WriteFcr, WriteLcr, WriteMcr;
    OthersTellNothing(u, val, flags);
    LcrTells(u, val);
    McrTells(u, val);
    match a {
      case 0 =>
      case 1 =>
      case 2 =>
      case 3 =>
      case 4 =>
      case _ =>
    }
  }

  lemma LcrTells(u: Uart, val: bv8)
    ensures WriteLcr(u, val).w.ioctls
      == u.w.ioctls + LcrIoctls(u.g.lcr, val)
  {
    hide BreakBit;
    BreakBits(val);
    BreakBits(u.g.lcr);
  }

  lemma McrTells(u: Uart, val: bv8)
    ensures WriteMcr(u, val).w.ioctls == u.w.ioctls + if u.m.poll >= 0 then McrIoctls(u.g.mcr, val) else []
  {
    LineBits(val);
  }

  lemma OthersTellNothing(u: Uart, val: bv8, flags: ModemFlags)
    requires |u.rx.fifo| <= UART_FIFO_LENGTH
    ensures WriteThr(u, val).w.ioctls == u.w.ioctls
    ensures WriteIer(u, val, flags).w.ioctls == u.w.ioctls && WriteFcr(u, val).w.ioctls == u.w.ioctls
  {
    hide ReceiveRx, IerModem, FcrRx;
  }

  lemma BreakBits(lcr: bv8)
    ensures BreakBit(lcr) <==> lcr / 64 % 2 == 1
    ensures lcr / 64 % 2 == 0 || lcr / 64 % 2 == 1
  {
  }

  lemma LineBits(val: bv8)
    ensures (val & UART_MCR_LOOP != 0 <==> val / 16 % 2 != 0) && val & 0x1f == val % 32
    ensures (val & UART_MCR_RTS != 0 <==> val / 2 % 2 == 1) && (val & UART_MCR_DTR != 0 <==> val % 2 == 1)
  {
  }

  /** Whether the backend has been told to hold the line in a break. */
  function Breaking(ioctls: seq<Ioctl>): bool
    decreases |ioctls|
  {
    if ioctls == [] then false
    else if ioctls[|ioctls| - 1].SetBreak? then ioctls[|ioctls| - 1].on else Breaking(ioctls[..|ioctls| - 1])
  }

  /** The line is in a break that LCR does not ask for. */
  predicate BreakStays(u: Uart) { Breaking(u.w.ioctls) && !BreakBit(u.g.lcr) }

  predicate BreakHeld(u: Uart) { BreakBit(u.g.lcr) ==> Breaking(u.w.ioctls) }

  /** A reset clears LCR without a word to the backend. */
  predicate ForgetsBreak(u: Uart, s: Step) { s.Reset? && BreakBit(u.g.lcr) }

  predicate AsksForBreak(s: Step) { s.Write? && s.addr % 8 == 3 && BreakBit(s.val) }

  lemma BreakStep(u: Uart, s: Step)
    requires Inv(u) && Possible(s) && BreakHeld(u)
    ensures var v := Next(u, s);
            BreakHeld(v) && (BreakStays(v) <==> ForgetsBreak(u, s) || (BreakStays(u) && !AsksForBreak(s)))
  {
    hide Next, Inv, BreakBit;
    InvBounds(u);
    IoctlStep(u, s);
    LcrStep(u, s);
    if s.Write? {
      BreakBits(s.val);
    }
    BreakBits(u.g.lcr);
    NoBreakBit();
    var before, after := u.w.ioctls, Next(u, s).w.ioctls;
    if after != before {
      assert after[..|after| - 1] == before;
    }
  }

  lemma NoBreakBit()
    ensures !BreakBit(0)
  {
  }

  lemma LcrStep(u: Uart, s: Step)
    requires Inv(u) && Possible(s)
    ensures Next(u, s).g.lcr == LcrAfter(u.g.lcr, s)
  {
    StepSends(u, s);
  }

  ghost predicate ForgottenAt(u: Uart, run: seq<Step>, i: nat)
    requires Inv(u) && Runnable(run) && i < |run|
  {
    ForgetsBreak(At(u, run, i), run[i])
  }

  ghost predicate AskedAt(run: seq<Step>, i: nat)
    requires i < |run|
  {
    AsksForBreak(run[i])
  }

  /** Step i was such a reset, and no later write has asked for a break. */
  ghost predicate ForgottenSince(u: Uart, run: seq<Step>, i: nat)
    requires Inv(u) && Runnable(run)
  {
    i < |run| && ForgottenAt(u, run, i) && forall k :: i < k < |run| ==> !AskedAt(run, k)
  }

  lemma {:induction false} BreakHeldAt(u: Uart, run: seq<Step>, n: nat)
    requires Inv(u) && Runnable(run) && BreakHeld(u) && n <= |run|
    ensures BreakHeld(At(u, run, n))
    decreases n
  {
    hide BreakHeld, BreakStays, Next;
    AtEnds(u, run);
    if n > 0 {
      BreakHeldAt(u, run, n - 1);
      AtNext(u, run, n - 1);
      BreakStep(At(u, run, n - 1), run[n - 1]);
    }
  }

  /** Over every run: the backend holds a break exactly while bit 6 of LCR is set, but for a break that a reset
      has left on the line, which stays until a write asks for a break again. */
  lemma BreakIff(u: Uart, run: seq<Step>)
    requires Inv(u) && Runnable(run) && Breaking(u.w.ioctls) == BreakBit(u.g.lcr)
    ensures var v := Run(u, run);
            && (v.g.lcr / 64 % 2 == 1 ==> Breaking(v.w.ioctls))
            && (v.g.lcr / 64 % 2 == 0 ==> (Breaking(v.w.ioctls) <==> exists i :: ForgottenSince(u, run, i)))
  {
    hide Next, Inv, ForgetsBreak, AsksForBreak, BreakBit, Breaking;
    var n := |run|;
    var flag := seq(n + 1, i requires 0 <= i <= n => BreakStays(At(u, run, i)));
    var up := seq(n, i requires 0 <= i < n => ForgottenAt(u, run, i));
    var down := seq(n, i requires 0 <= i < n => AskedAt(run, i));
    forall i | 0 <= i < n
      ensures flag[i + 1] <==> up[i] || (flag[i] && !down[i])
    {
      AtNext(u, run, i);
      BreakHeldAt(u, run, i);
      BreakStep(At(u, run, i), run[i]);
    }
    AtEnds(u, run);
    BreakHeldAt(u, run, n);
    SetIff(flag, up, down);
    BreakBits(Run(u, run).g.lcr);
    assert forall i :: 0 <= i < n ==> up[i] == ForgottenAt(u, run, i);
    assert forall i :: 0 <= i < n ==> down[i] == AskedAt(run, i);
    forall i: nat | i < n
      ensures SetSince(up, down, i) <==> ForgottenSince(u, run, i)
    {
    }
    StaysOrHeld(u, run);
  }

  lemma StaysOrHeld(u: Uart, run: seq<Step>)
    requires Inv(u) && Runnable(run)
    requires BreakStays(Run(u, run)) <==> exists i :: ForgottenSince(u, run, i)
    ensures !BreakBit(Run(u, run).g.lcr) ==> (Breaking(Run(u, run).w.ioctls) <==> exists i :: ForgottenSince(u, run, i))
  {
  }

  /** A break, a reset, and LCR cleared again: the backend was told of the beginning only. */
  lemma BreakOutlivesReset(u: Uart, taken: bool, flags: ModemFlags)
    requires Inv(u) && u.g.lcr == 0 && !Breaking(u.w.ioctls)
    ensures var v := Next(Next(Next(u, Step.Write(3, 0x40, taken, flags)), Reset), Step.Write(3, 0x00, taken, flags));
            v.g.lcr == 0 && v.w.ioctls == u.w.ioctls + [SetBreak(true)] && Breaking(v.w.ioctls)
  {
    hide Next, Inv;
    InvBounds(u);
    var u1 := Next(u, Step.Write(3, 0x40, taken, flags));
    InvBounds(u);
    NextKeepsInv(u, Step.Write(3, 0x40, taken, flags));
    InvBounds(u1);
    IoctlStep(u, Step.Write(3, 0x40, taken, flags));
    LcrStep(u, Step.Write(3, 0x40, taken, flags));
    var u2 := Next(u1, Reset);
    NextKeepsInv(u1, Reset);
    InvBounds(u2);
    IoctlStep(u1, Reset);
    LcrStep(u1, Reset);
    IoctlStep(u2, Step.Write(3, 0x00, taken, flags));
    LcrStep(u2, Step.Write(3, 0x00, taken, flags));
  }
}
