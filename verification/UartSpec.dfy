/** The 16550A as a guest and a backend see it. The interrupt line, the interrupt identification
    and the transmitter-empty bits are not state here: they are functions of the state. */
module UartSpec {

  const UART_LCR_DLAB: bv8 := 0x80
  const UART_IER_MSI: bv8 := 0x08
  const UART_IER_RLSI: bv8 := 0x04
  const UART_IER_THRI: bv8 := 0x02
  const UART_IER_RDI: bv8 := 0x01
  const UART_IIR_NO_INT: bv8 := 0x01
  const UART_IIR_ID: bv8 := 0x06
  const UART_IIR_MSI: bv8 := 0x00
  const UART_IIR_THRI: bv8 := 0x02
  const UART_IIR_RDI: bv8 := 0x04
  const UART_IIR_RLSI: bv8 := 0x06
  const UART_IIR_CTI: bv8 := 0x0C
  const UART_IIR_FE: bv8 := 0xC0
  const UART_MCR_LOOP: bv8 := 0x10
  const UART_MCR_RTS: bv8 := 0x02
  const UART_MCR_DTR: bv8 := 0x01
  const UART_MCR_OUT2: bv8 := 0x08
  const UART_FCR_XFR: bv8 := 0x04
  const UART_FCR_RFR: bv8 := 0x02
  const UART_FCR_FE: bv8 := 0x01
  const UART_FIFO_LENGTH: nat := 16

  /** What the backend answers to a request for the modem lines. */
  datatype ModemFlags = NotSupported | Tiocm(lines: Modem)

  datatype Modem = Modem(cts: bool, dsr: bool, ri: bool, dcd: bool)

  const NO_DELTA := Modem(false, false, false, false)

  /** A byte leaving the transmit shift register. */
  datatype Out = ToBackend(b: bv8) | LoopedBack(b: bv8)

  datatype Ioctl = SetBreak(on: bool) | SetLines(rts: bool, dtr: bool)

  /** Registers that only hold what the guest wrote. */
  datatype Guest = Guest(divider: bv16, lcr: bv8, mcr: bv8, scr: bv8, ier: bv8, fcr: bv8)

  /** The receiver: RBR, the FIFO with its trigger level, data ready, overrun, break, and the
      character timeout with its timer. */
  datatype Rx = Rx(rbr: bv8, fifo: seq<bv8>, itl: nat, dr: bool, oe: bool, bi: bool, timeout: bool, timer: bool)

  /** The modem lines as last polled, the deltas since they were last read, and the poll mode
      (negative: not supported, 0: off, 1: on) with its timer. */
  datatype ModemState = ModemState(line: Modem, delta: Modem, poll: int, timer: bool)

  /** What the backend has been handed so far. */
  datatype Wire = Wire(out: seq<Out>, ioctls: seq<Ioctl>, accepts: nat)

  datatype Uart = Uart(g: Guest, rx: Rx, m: ModemState, w: Wire, fifoId: bool, thrPending: bool) {
    predicate Fifo() { g.fcr & UART_FCR_FE != 0 }
    predicate Loop() { g.mcr & UART_MCR_LOOP != 0 }
    predicate Dlab() { g.lcr & UART_LCR_DLAB != 0 }
  }

  /** What the guest, the backend and the timers can do. `flags` is the backend's answer in case
      the step asks for the modem lines; `taken` says whether a backend write is accepted. */
  datatype Step =
    | Write(addr: nat, val: bv8, taken: bool, flags: ModemFlags)
    | Read(addr: nat, flags: ModemFlags)
    | Receive(buf: seq<bv8>)
    | BreakIn
    | FifoTimeout
    | ModemPoll(flags: ModemFlags)
    | Reset

  // ---------- Interrupts

  datatype Source = LineStatus | CharTimeout | DataReady | ThrEmpty | ModemStatus

  /** A source asks for service and is enabled. */
  predicate Asserted(u: Uart, s: Source) {
    match s
    case LineStatus => u.g.ier & UART_IER_RLSI != 0 && (u.rx.oe || u.rx.bi)
    case CharTimeout => u.g.ier & UART_IER_RDI != 0 && u.rx.timeout
    case DataReady => u.g.ier & UART_IER_RDI != 0 && u.rx.dr && (u.Fifo() ==> |u.rx.fifo| >= u.rx.itl)
    case ThrEmpty => u.g.ier & UART_IER_THRI != 0 && u.thrPending
    case ModemStatus => u.g.ier & UART_IER_MSI != 0 && u.m.delta != NO_DELTA
  }

  function Priority(s: Source): nat {
    match s
    case LineStatus => 0
    case CharTimeout => 1
    case DataReady => 2
    case ThrEmpty => 3
    case ModemStatus => 4
  }

  function Code(s: Source): bv8 {
    match s
    case LineStatus => UART_IIR_RLSI
    case CharTimeout => UART_IIR_CTI
    case DataReady => UART_IIR_RDI
    case ThrEmpty => UART_IIR_THRI
    case ModemStatus => UART_IIR_MSI
  }

  /** `code` names the asserted source that comes first, or says that there is none. */
  ghost predicate Identifies(u: Uart, code: bv8) {
    if code == UART_IIR_NO_INT then forall s :: !Asserted(u, s)
    else exists s ::
      && Asserted(u, s) && code == Code(s)
      && forall t :: Asserted(u, t) ==> Priority(s) <= Priority(t)
  }

  /** The low nibble of IIR. */
  function Ident(u: Uart): bv8 {
    if Asserted(u, LineStatus) then Code(LineStatus)
    else if Asserted(u, CharTimeout) then Code(CharTimeout)
    else if Asserted(u, DataReady) then Code(DataReady)
    else if Asserted(u, ThrEmpty) then Code(ThrEmpty)
    else if Asserted(u, ModemStatus) then Code(ModemStatus)
    else UART_IIR_NO_INT
  }

  // ---------- Receiving

  /** A bounded queue of 16: what does not fit is lost and the contents stay. */
  function Push(rx: seq<bv8>, buf: seq<bv8>): seq<bv8>
    requires |rx| <= UART_FIFO_LENGTH
  {
    if |rx| + |buf| <= UART_FIFO_LENGTH then rx + buf else rx + buf[..UART_FIFO_LENGTH - |rx|]
  }

  predicate Overflows(rx: seq<bv8>, buf: seq<bv8>) {
    |rx| + |buf| > UART_FIFO_LENGTH
  }

  function ReceiveRx(rx: Rx, buf: seq<bv8>, fifo: bool): Rx
    requires buf != [] && |rx.fifo| <= UART_FIFO_LENGTH
  {
    if fifo then
      rx.(fifo := Push(rx.fifo, buf), oe := rx.oe || Overflows(rx.fifo, buf), dr := true, timer := true)
    else
      rx.(rbr := buf[0], oe := rx.oe || rx.dr, dr := true)
  }

  function ReceiveBytes(u: Uart, buf: seq<bv8>): Uart
    requires buf != [] && |u.rx.fifo| <= UART_FIFO_LENGTH
  {
    u.(rx := ReceiveRx(u.rx, buf, u.Fifo()))
  }

  /** A break puts a null byte in the FIFO even while the FIFOs are switched off. */
  function BreakRx(rx: Rx): Rx
    requires |rx.fifo| <= UART_FIFO_LENGTH
  {
    rx.(rbr := 0, fifo := Push(rx.fifo, [0]), oe := rx.oe || Overflows(rx.fifo, [0]), bi := true, dr := true)
  }

  /** Data has waited in the FIFO for four character times. */
  function TimeoutRx(rx: Rx): Rx {
    rx.(timeout := rx.timeout || rx.fifo != [], timer := false)
  }

  /** How many bytes the UART offers to take. */
  function Room(u: Uart): int {
    if u.Fifo() then
      if |u.rx.fifo| < UART_FIFO_LENGTH then
        (if |u.rx.fifo| <= u.rx.itl then u.rx.itl - |u.rx.fifo| else 1)
      else 0
    else if u.rx.dr then 0 else 1
  }

  // ---------- Modem lines

  /** One poll of the lines: every changed line leaves its delta; the ring delta (TERI) survives or
      appears only if the ring line was high before the change. */
  function PollLines(m: ModemState, flags: ModemFlags): ModemState {
    if flags.NotSupported? then m.(timer := false, poll := -1)
    else m.(line := flags.lines, delta := DeltaAfter(m.line, m.delta, flags.lines), timer := m.poll != 0)
  }

  function DeltaAfter(o: Modem, d: Modem, v: Modem): Modem {
    if v == o then d
    else Modem(d.cts || v.cts != o.cts, d.dsr || v.dsr != o.dsr,
               (d.ri || v.ri != o.ri) && o.ri, d.dcd || v.dcd != o.dcd)
  }

  // ---------- Guest writes

  /** A byte leaves the shift register. */
  function HandedOver(u: Uart, b: bv8): Uart
    requires |u.rx.fifo| <= UART_FIFO_LENGTH
  {
    u.(rx := if u.Loop() then ReceiveRx(u.rx, [b], u.Fifo()) else u.rx,
       w := u.w.(out := u.w.out + [if u.Loop() then LoopedBack(b) else ToBackend(b)]))
  }

  function WriteThr(u: Uart, b: bv8): Uart
    requires |u.rx.fifo| <= UART_FIFO_LENGTH
  {
    HandedOver(u, b).(thrPending := true)
  }

  function IerModem(m: ModemState, ier: bv8, flags: ModemFlags): ModemState {
    if m.poll < 0 then m
    else if ier & UART_IER_MSI != 0 then PollLines(m.(poll := 1), flags)
    else m.(timer := false, poll := 0)
  }

  function WriteIer(u: Uart, val: bv8, flags: ModemFlags): Uart {
    u.(g := u.g.(ier := val & 0x0f), m := IerModem(u.m, val & 0x0f, flags), thrPending := true)
  }

  function TriggerLevel(val: bv8): nat {
    match val & 0xC0
    case 0x00 => 1
    case 0x40 => 4
    case 0x80 => 8
    case _ => 14
  }

  /** Emptying the receive FIFO leaves data ready, overrun and break as they are. */
  function FlushRx(rx: Rx, flush: bool): Rx {
    rx.(fifo := if flush then [] else rx.fifo, timeout := rx.timeout && !flush, timer := rx.timer && !flush)
  }

  /** Switching the FIFOs on or off empties them, and so does RFR. */
  predicate Flushes(fcr: bv8, val: bv8) {
    fcr != val && ((val ^ fcr) & UART_FCR_FE != 0 || val & UART_FCR_RFR != 0)
  }

  function FcrRx(rx: Rx, fcr: bv8, val: bv8): Rx {
    FlushRx(rx, Flushes(fcr, val)).(itl := if val & UART_FCR_FE != 0 then TriggerLevel(val) else rx.itl)
  }

  function WriteFcr(u: Uart, val: bv8): Uart {
    if u.g.fcr == val then u
    else u.(g := u.g.(fcr := val & 0xC9), rx := FcrRx(u.rx, u.g.fcr, val), fifoId := val & UART_FCR_FE != 0)
  }

  predicate BreakBit(lcr: bv8) { lcr & 0x40 != 0 }

  function WriteLcr(u: Uart, val: bv8): Uart {
    u.(g := u.g.(lcr := val),
       w := if BreakBit(val) == BreakBit(u.g.lcr) then u.w
            else u.w.(ioctls := u.w.ioctls + [SetBreak(BreakBit(val))]))
  }

  function WriteMcr(u: Uart, val: bv8): Uart {
    var quiet := val & UART_MCR_LOOP != 0 || u.m.poll < 0 || val & 0x1f == u.g.mcr;
    u.(g := u.g.(mcr := val & 0x1f),
       m := u.m.(timer := u.m.timer || !quiet),
       w := if quiet then u.w
            else u.w.(ioctls := u.w.ioctls + [SetLines(val & UART_MCR_RTS != 0, val & UART_MCR_DTR != 0)]))
  }

  function WriteReg(u: Uart, a: nat, val: bv8, flags: ModemFlags): Uart
    requires |u.rx.fifo| <= UART_FIFO_LENGTH
  {
    match a
    case 0 => if u.Dlab() then u.(g := u.g.(divider := (u.g.divider & 0xff00) | (val as bv16))) else WriteThr(u, val)
    case 1 => if u.Dlab() then u.(g := u.g.(divider := (u.g.divider & 0x00ff) | ((val as bv16) << 8)))
              else WriteIer(u, val, flags)
    case 2 => WriteFcr(u, val)
    case 3 => WriteLcr(u, val)
    case 4 => WriteMcr(u, val)
    case 7 => u.(g := u.g.(scr := val))
    case _ => u
  }

  // ---------- Guest reads

  function ReadRx(rx: Rx, fifo: bool): Rx {
    if fifo then
      var rest := if rx.fifo == [] then [] else rx.fifo[1..];
      rx.(fifo := rest, timeout := false, dr := rx.dr && rest != [], bi := rx.bi && rest != [],
          timer := rx.timer || rest != [])
    else rx.(dr := false, bi := false)
  }

  function ReadRbr(u: Uart): Uart {
    u.(rx := ReadRx(u.rx, u.Fifo()),
       w := u.w.(accepts := if u.Loop() then u.w.accepts else u.w.accepts + 1))
  }

  function RbrValue(rx: Rx, fifo: bool): bv8 {
    if !fifo then rx.rbr else if rx.fifo == [] then 0 else rx.fifo[0]
  }

  function Bit(b: bool, v: bv8): bv8 { if b then v else 0 }

  /** LSR: the transmitter always reads as empty. */
  function Lsr(rx: Rx): bv8 {
    0x60 | Bit(rx.bi, 0x10) | Bit(rx.oe, 0x02) | Bit(rx.dr, 0x01)
  }

  function Msr(line: Modem, delta: Modem): bv8 {
    Bit(line.dcd, 0x80) | Bit(line.ri, 0x40) | Bit(line.dsr, 0x20) | Bit(line.cts, 0x10)
    | Bit(delta.dcd, 0x08) | Bit(delta.ri, 0x04) | Bit(delta.dsr, 0x02) | Bit(delta.cts, 0x01)
  }

  function Iir(u: Uart): bv8 { Ident(u) | Bit(u.fifoId, UART_IIR_FE) }

  /** In loopback the modem outputs RTS, DTR, OUT1, OUT2 appear as CTS, DSR, RI, DCD. */
  function LoopMsr(mcr: bv8): bv8 {
    Msr(Modem(mcr & 0x02 != 0, mcr & 0x01 != 0, mcr & 0x04 != 0, mcr & 0x08 != 0), NO_DELTA)
  }

  /** The lines as an MSR read sees them: polled first, unless polling is known not to work. */
  function Polled(m: ModemState, flags: ModemFlags): ModemState {
    if m.poll >= 0 then PollLines(m, flags) else m
  }

  function ReadReg(u: Uart, a: nat, flags: ModemFlags): Uart {
    match a
    case 0 => if u.Dlab() then u else ReadRbr(u)
    case 2 => u.(thrPending := u.thrPending && Ident(u) != UART_IIR_THRI)
    case 5 => u.(rx := u.rx.(bi := false, oe := false))
    case 6 => if u.Loop() then u else u.(m := Polled(u.m, flags).(delta := NO_DELTA))
    case _ => u
  }

  /** The value a register read returns. */
  function ReadValue(u: Uart, a: nat, flags: ModemFlags): bv8 {
    match a
    case 0 => if u.Dlab() then (u.g.divider & 0xff) as bv8 else RbrValue(u.rx, u.Fifo())
    case 1 => if u.Dlab() then ((u.g.divider >> 8) & 0xff) as bv8 else u.g.ier
    case 2 => Iir(u)
    case 3 => u.g.lcr
    case 4 => u.g.mcr
    case 5 => Lsr(u.rx)
    case 6 => if u.Loop() then LoopMsr(u.g.mcr) else var p := Polled(u.m, flags); Msr(p.line, p.delta)
    case _ => u.g.scr
  }

  // ---------- Steps

  /** Reset keeps FCR, the trigger level, a pending character timeout, the armed timers, and of
      course what has already been sent. */
  function ResetState(u: Uart): Uart {
    Uart(Guest(0x0C, 0, UART_MCR_OUT2, 0, 0, u.g.fcr),
         Rx(0, [], u.rx.itl, false, false, false, u.rx.timeout, u.rx.timer),
         ModemState(Modem(true, true, false, true), NO_DELTA, 0, u.m.timer),
         u.w, false, false)
  }

  predicate Possible(s: Step) {
    s.Receive? ==> s.buf != []
  }

  function Next(u: Uart, s: Step): Uart
    requires |u.rx.fifo| <= UART_FIFO_LENGTH && Possible(s)
  {
    match s
    case Write(addr, val, _, flags) => WriteReg(u, addr % 8, val, flags)
    case Read(addr, flags) => ReadReg(u, addr % 8, flags)
    case Receive(buf) => ReceiveBytes(u, buf)
    case BreakIn => u.(rx := BreakRx(u.rx))
    case FifoTimeout => u.(rx := TimeoutRx(u.rx))
    case ModemPoll(flags) => u.(m := PollLines(u.m, flags))
    case Reset => ResetState(u)
  }

  /** What every step keeps. */
  predicate Inv(u: Uart) {
    && |u.rx.fifo| <= UART_FIFO_LENGTH
    && (u.Fifo() && u.rx.fifo != [] ==> u.rx.dr)
    && (u.Fifo() ==> u.rx.itl in {1, 4, 8, 14})
    && (u.m.delta.ri ==> !u.m.line.ri)
  }

  lemma NextKeepsInv(u: Uart, s: Step)
    requires Inv(u) && Possible(s)
    ensures Inv(Next(u, s))
  {
    match s {
      case Write(addr, val, _, flags) => WriteKeepsInv(u, addr % 8, val, flags);
      case Read(addr, flags) => ReadKeepsInv(u, addr % 8, flags);
      case _ =>
    }
  }

  lemma WriteKeepsInv(u: Uart, a: nat, val: bv8, flags: ModemFlags)
    requires Inv(u)
    ensures Inv(WriteReg(u, a, val, flags))
  {
    match a {
      case 0 => ThrKeepsInv(u, val);
      case 1 => IerKeepsInv(u, val, flags);
      case 2 => FcrKeepsInv(u, val);
      case 3 =>
      case 4 =>
      case _ =>
    }
  }

  lemma ReadKeepsInv(u: Uart, a: nat, flags: ModemFlags)
    requires Inv(u)
    ensures Inv(ReadReg(u, a, flags))
  {
  }

  lemma ThrKeepsInv(u: Uart, val: bv8)
    requires Inv(u)
    ensures Inv(WriteThr(u, val))
  {
  }

  lemma IerKeepsInv(u: Uart, val: bv8, flags: ModemFlags)
    requires Inv(u)
    ensures Inv(WriteIer(u, val, flags))
  {
  }

  lemma FcrKeepsInv(u: Uart, val: bv8)
    requires Inv(u)
    ensures Inv(WriteFcr(u, val))
  {
    FcrSwitch(u.g.fcr, val);
  }

  /** FIFOs that are on after the write without having been emptied were on before it. */
  lemma FcrSwitch(fcr: bv8, val: bv8)
    ensures (val & 0xC9) & UART_FCR_FE == val & UART_FCR_FE
    ensures (val ^ fcr) & UART_FCR_FE == 0 ==> val & UART_FCR_FE == fcr & UART_FCR_FE
  {
  }

  /** The state after `serial_reset` on zeroed memory. */
  const START := Uart(
    Guest(0x0C, 0, UART_MCR_OUT2, 0, 0, 0),
    Rx(0, [], 0, false, false, false, false, false),
    ModemState(Modem(true, true, false, true), NO_DELTA, 0, false),
    Wire([], [], 0), false, false)
}
