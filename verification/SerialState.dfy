/** The UART emulation as the C code keeps it: registers with their bits, two cyclic FIFOs,
    a stored interrupt line. Every handler is proved to act as the machine of `UartSpec`. */
module Serial {
  import opened Rings
  import opened UartSpec

  const UART_LSR_TEMT: bv8 := 0x40
  const UART_LSR_THRE: bv8 := 0x20
  const UART_LSR_BI: bv8 := 0x10
  const UART_LSR_OE: bv8 := 0x02
  const UART_LSR_DR: bv8 := 0x01
  const UART_LSR_INT_ANY: bv8 := 0x1E
  const UART_MSR_DCD: bv8 := 0x80
  const UART_MSR_RI: bv8 := 0x40
  const UART_MSR_DSR: bv8 := 0x20
  const UART_MSR_CTS: bv8 := 0x10
  const UART_MSR_TERI: bv8 := 0x04
  const UART_MSR_ANY_DELTA: bv8 := 0x0F
  const MAX_XMIT_RETRY := 4

  class SerialFifo {
    const data: array<bv8>
    var count: nat
    var itl: nat
    var tail: nat
    var head: nat

    ghost predicate Valid()
      reads this, data
    {
      && data.Length == UART_FIFO_LENGTH && count <= UART_FIFO_LENGTH && tail < UART_FIFO_LENGTH
      && head == Slot(tail, count, UART_FIFO_LENGTH)
    }

    ghost function Contents(): (s: seq<bv8>)
      requires Valid()
      reads this, data
      ensures |s| == count
    {
      Window(data[..], tail, count)
    }

    constructor ()
      ensures Valid() && fresh(data) && Contents() == [] && itl == 0
    {
      data := new bv8[UART_FIFO_LENGTH](_ => 0);
      count, itl, tail, head := 0, 0, 0, 0;
    }

    method Clear()
      requires Valid()
      modifies this, data
      ensures Valid() && Contents() == [] && itl == old(itl)
    {
      for i := 0 to data.Length
        invariant Valid() && itl == old(itl)
      {
        data[i] := 0;
      }
      count, head, tail := 0, 0, 0;
    }

    /** Appends a byte if there is room. `receive` says which FIFO this is: only a receive FIFO may be
        full, and then it keeps its contents. */
    method Put(chr: bv8, receive: bool) returns (overrun: bool)
      requires Valid() && (receive || count < UART_FIFO_LENGTH)
      modifies this, data
      ensures Valid() && itl == old(itl)
      ensures overrun == (old(count) == UART_FIFO_LENGTH)
      ensures Contents() == Push(old(Contents()), [chr])
    {
      overrun := false;
      if count < UART_FIFO_LENGTH {
        PushBack(data[..], tail, count, chr);
      }
      if !receive || count < UART_FIFO_LENGTH {
        data[head] := chr;
        head := head + 1;
        if head == UART_FIFO_LENGTH {
          head := 0;
        }
      }
      if count < UART_FIFO_LENGTH {
        count := count + 1;
      } else if receive {
        overrun := true;
      }
    }

    method Get() returns (c: bv8)
      requires Valid()
      modifies this
      ensures Valid() && itl == old(itl)
      ensures old(Contents()) == [] ==> c == 0 && Contents() == []
      ensures old(Contents()) != [] ==> c == old(Contents())[0] && Contents() == old(Contents())[1..]
    {
      if count == 0 {
        return 0;
      }
      PopFront(data[..], tail, count);
      c := data[tail];
      tail := tail + 1;
      if tail == UART_FIFO_LENGTH {
        tail := 0;
      }
      count := count - 1;
    }
  }

  function LinesOf(msr: bv8): Modem {
    Modem(msr & 0x10 != 0, msr & 0x20 != 0, msr & 0x40 != 0, msr & 0x80 != 0)
  }

  function DeltasOf(msr: bv8): Modem {
    Modem(msr & 0x01 != 0, msr & 0x02 != 0, msr & 0x04 != 0, msr & 0x08 != 0)
  }

  // ---------- What the bit operations do

  lemma LsrErrors(lsr: bv8)
    requires lsr & 0x8C == 0
    ensures lsr & UART_LSR_INT_ANY != 0 <==> lsr & UART_LSR_OE != 0 || lsr & UART_LSR_BI != 0
  {
  }

  lemma AnyDelta(msr: bv8)
    ensures msr & UART_MSR_ANY_DELTA != 0 <==> DeltasOf(msr) != NO_DELTA
  {
  }

  lemma MsrByte(msr: bv8)
    ensures msr == Msr(LinesOf(msr), DeltasOf(msr))
    ensures LinesOf(msr & 0xF0) == LinesOf(msr) && DeltasOf(msr & 0xF0) == NO_DELTA
  {
  }

  /** An idle transmitter makes LSR the byte the machine reads. */
  lemma LsrByte(l: bv8)
    requires l & 0x8C == 0 && l & UART_LSR_THRE != 0 && l & UART_LSR_TEMT != 0
    ensures l == 0x60 | Bit(l & UART_LSR_BI != 0, 0x10) | Bit(l & UART_LSR_OE != 0, 0x02) | Bit(l & UART_LSR_DR != 0, 0x01)
  {
  }

  /** Storing the polled lines, bit by bit. */
  function WithLines(msr: bv8, v: Modem): bv8 {
    var m1 := if v.cts then msr | UART_MSR_CTS else msr & !UART_MSR_CTS;
    var m2 := if v.dsr then m1 | UART_MSR_DSR else m1 & !UART_MSR_DSR;
    var m3 := if v.dcd then m2 | UART_MSR_DCD else m2 & !UART_MSR_DCD;
    if v.ri then m3 | UART_MSR_RI else m3 & !UART_MSR_RI
  }

  lemma LinesStored(msr: bv8, v: Modem)
    ensures LinesOf(WithLines(msr, v)) == v
    ensures DeltasOf(WithLines(msr, v)) == DeltasOf(msr)
    ensures WithLines(msr, v) == msr <==> LinesOf(msr) == v
  {
  }

  /** The shift-and-xor that raises the delta bits, and the correction of the ring delta. */
  function WithDeltas(omsr: bv8, m: bv8): bv8 {
    var d := m | ((m >> 4) ^ (omsr >> 4));
    if d & UART_MSR_TERI != 0 && omsr & UART_MSR_RI == 0 then d & !UART_MSR_TERI else d
  }

  lemma DeltasStored(omsr: bv8, m: bv8)
    requires m != omsr && DeltasOf(m) == DeltasOf(omsr)
    ensures LinesOf(WithDeltas(omsr, m)) == LinesOf(m)
    ensures DeltasOf(WithDeltas(omsr, m)) == DeltaAfter(LinesOf(omsr), DeltasOf(omsr), LinesOf(m))
  {
  }

  function MsrAfterPoll(omsr: bv8, v: Modem): bv8 {
    var m := WithLines(omsr, v);
    if m == omsr then m else WithDeltas(omsr, m)
  }

  lemma PolledBits(omsr: bv8, v: Modem)
    ensures LinesOf(MsrAfterPoll(omsr, v)) == v
    ensures DeltasOf(MsrAfterPoll(omsr, v)) == DeltaAfter(LinesOf(omsr), DeltasOf(omsr), v)
    ensures WithLines(omsr, v) == omsr <==> LinesOf(omsr) == v
  {
    LinesStored(omsr, v);
    if WithLines(omsr, v) != omsr {
      DeltasStored(omsr, WithLines(omsr, v));
    }
  }

  lemma IirBits(tmp: bv8, iir: bv8)
    requires tmp & 0xF0 == 0 && (iir & 0xF0 == 0 || iir & 0xF0 == UART_IIR_FE)
    ensures (tmp | (iir & 0xF0)) & 0xF0 == iir & 0xF0
    ensures tmp | (iir & 0xF0) == tmp | Bit(iir & 0xF0 != 0, UART_IIR_FE)
  {
  }

  /** A stored line and a stored IIR are those that a machine state calls for. */
  predicate IrqFits(irq: bool, iir: bv8, u: Uart) {
    irq == (Ident(u) != UART_IIR_NO_INT) && iir == Iir(u)
  }

  class SerialState {
    var divider: bv16
    var rbr: bv8
    var thr: bv8
    var tsr: bv8
    var ier: bv8
    var iir: bv8
    var lcr: bv8
    var mcr: bv8
    var lsr: bv8
    var msr: bv8
    var scr: bv8
    var fcr: bv8
    var thrIpending: bool
    var timeoutIpending: bool
    var irq: bool
    var lastBreakEnable: bv8
    var tsrRetry: int
    var pollMsl: int
    const recvFifo: SerialFifo
    const xmitFifo: SerialFifo
    // timers, as armed or not
    var fifoTimeoutTimer: bool
    var transmitTimer: bool
    var modemStatusPoll: bool
    // what the backend has been handed so far
    var wire: Wire

    ghost function Repr(): set<object> {
      {this, recvFifo, recvFifo.data, xmitFifo, xmitFifo.data}
    }

    /** Framing and parity errors are never reported, the FIFO bits of IIR go together. */
    ghost predicate Wf()
      reads Repr()
    {
      && recvFifo != xmitFifo && recvFifo.data != xmitFifo.data
      && recvFifo.Valid() && xmitFifo.Valid()
      && lsr & 0x8C == 0 && (iir & 0xF0 == 0 || iir & 0xF0 == UART_IIR_FE)
    }

    /** The machine state these registers stand for. */
    ghost function Abs(): Uart
      requires recvFifo.Valid()
      reads this, recvFifo, recvFifo.data
    {
      Uart(Guest(divider, lcr, mcr, scr, ier, fcr),
           Rx(rbr, recvFifo.Contents(), recvFifo.itl,
              lsr & UART_LSR_DR != 0, lsr & UART_LSR_OE != 0, lsr & UART_LSR_BI != 0,
              timeoutIpending, fifoTimeoutTimer),
           ModemState(LinesOf(msr), DeltasOf(msr), pollMsl, modemStatusPoll),
           wire, iir & 0xF0 != 0, thrIpending)
    }

    /** The stored interrupt state is the one the machine state calls for. */
    ghost predicate IrqRight()
      requires recvFifo.Valid()
      reads this, recvFifo, recvFifo.data
    {
      IrqFits(irq, iir, Abs())
    }

    /** Nothing is left in the transmitter: THRE and TEMT are set, the FIFO is empty and no retry is
        under way, so the transmit timer is never armed. */
    ghost predicate TransmitterIdle()
      reads this, xmitFifo
    {
      && lsr & UART_LSR_THRE != 0 && lsr & UART_LSR_TEMT != 0
      && xmitFifo.count == 0 && tsrRetry <= 0 && !transmitTimer
    }

    /** The state between two steps. */
    ghost predicate Valid()
      reads Repr()
    {
      && Wf() && TransmitterIdle() && IrqRight() && Inv(Abs())
      && lastBreakEnable == (lcr >> 6) & 1
    }

    /** Zeroed memory followed by `serial_reset`. */
    constructor ()
      ensures Valid() && fresh(Repr())
      ensures Abs() == START
    {
      hide LinesOf, DeltasOf, Ident, Asserted, ResetState, IrqFits;
      recvFifo := new SerialFifo();
      xmitFifo := new SerialFifo();
      thr, tsr, fcr := 0, 0, 0;
      timeoutIpending := false;
      fifoTimeoutTimer, transmitTimer, modemStatusPoll := false, false, false;
      wire := Wire([], [], 0);
      new;
      ghost var u := Abs();
      assert u.g.fcr == 0 && u.rx.itl == 0 && !u.rx.timeout && !u.rx.timer && !u.m.timer && u.w == Wire([], [], 0);
      ResetFromZero(u);
      Reset();
    }

    static lemma ResetFromZero(u: Uart)
      requires u.g.fcr == 0 && u.rx.itl == 0 && !u.rx.timeout && !u.rx.timer && !u.m.timer && u.w == Wire([], [], 0)
      ensures ResetState(u) == START
    {
    }

    /** `serial_reset`. */
    method Reset()
      requires recvFifo != xmitFifo && recvFifo.data != xmitFifo.data && recvFifo.Valid() && xmitFifo.Valid()
      requires fcr & UART_FCR_FE != 0 ==> recvFifo.itl in {1, 4, 8, 14}
      requires !transmitTimer
      modifies Repr()
      ensures Valid()
      ensures Abs() == ResetState(old(Abs()))
    {
      ghost var u := Abs();
      ResetAll();
      ResetIsQuiet(u);
    }

    method ResetAll()
      requires recvFifo != xmitFifo && recvFifo.data != xmitFifo.data && recvFifo.Valid() && xmitFifo.Valid()
      modifies Repr()
      ensures Wf() && Abs() == ResetState(old(Abs())) && xmitFifo.count == 0
      ensures !irq && iir == UART_IIR_NO_INT && lsr == 0x60 && tsrRetry == 0 && lastBreakEnable == 0
      ensures transmitTimer == old(transmitTimer)
    {
      hide LinesOf, DeltasOf, SerialFifo.Contents, SerialFifo.Valid, Ident, Asserted;
      ResetAllRegisters();
      ClearFifos();
      ClearFlags();
    }

    method ResetAllRegisters()
      requires recvFifo != xmitFifo && recvFifo.data != xmitFifo.data && recvFifo.Valid() && xmitFifo.Valid()
      modifies `rbr, `ier, `iir, `lcr, `lsr, `msr, `divider, `mcr, `scr, `tsrRetry, `pollMsl
      ensures Wf() && Abs() == ResetButQueues(old(Abs())) && iir == UART_IIR_NO_INT && lsr == 0x60 && tsrRetry == 0
    {
      hide LinesOf, DeltasOf, SerialFifo.Contents, SerialFifo.Valid, Ident, Asserted, ResetState;
      ghost var u := Abs();
      ResetRegisters();
      ResetAbs(u);
    }

    method ClearFlags()
      requires Wf()
      modifies `thrIpending, `lastBreakEnable, `irq
      ensures Wf() && Abs() == old(Abs()).(thrPending := false) && lastBreakEnable == 0 && !irq
    {
      hide LinesOf, DeltasOf, SerialFifo.Contents, SerialFifo.Valid, Ident, Asserted;
      thrIpending := false;
      lastBreakEnable := 0;
      irq := false;
    }

    method ClearFifos()
      requires Wf()
      modifies recvFifo, recvFifo.data, xmitFifo, xmitFifo.data
      ensures Wf() && Abs() == old(Abs()).(rx := old(Abs()).rx.(fifo := [])) && xmitFifo.count == 0
    {
      hide LinesOf, DeltasOf, Ident, Asserted;
      recvFifo.Clear();
      xmitFifo.Clear();
    }

    ghost predicate RegistersReset()
      reads this
    {
      && rbr == 0 && ier == 0 && iir == UART_IIR_NO_INT && lcr == 0 && lsr == 0x60 && msr == 0xB0
      && divider == 0x0C && mcr == UART_MCR_OUT2 && scr == 0 && pollMsl == 0
    }

    /** The machine state of reset registers. */
    lemma ResetAbs(u: Uart)
      requires recvFifo != xmitFifo && recvFifo.data != xmitFifo.data && recvFifo.Valid() && xmitFifo.Valid()
      requires RegistersReset() && fcr == u.g.fcr && recvFifo.Contents() == u.rx.fifo && recvFifo.itl == u.rx.itl
      requires timeoutIpending == u.rx.timeout && fifoTimeoutTimer == u.rx.timer && modemStatusPoll == u.m.timer
      requires wire == u.w && thrIpending == u.thrPending
      ensures Wf() && Abs() == ResetButQueues(u)
    {
      hide LinesOf, DeltasOf, SerialFifo.Contents;
      ResetBits();
    }

    /** A reset state with some other FIFO contents and transmit flag. */
    static function ResetButQueues(u: Uart): Uart {
      ResetState(u).(rx := ResetState(u).rx.(fifo := u.rx.fifo), thrPending := u.thrPending)
    }

    /** The reset values of MSR, LSR and IIR, bit by bit. */
    static lemma ResetBits()
      ensures LinesOf(0xB0) == Modem(true, true, false, true) && DeltasOf(0xB0) == NO_DELTA
      ensures UART_IIR_NO_INT & 0xF0 == 0 && (0x60 as bv8) & 0x8C == 0
      ensures (0x60 as bv8) & UART_LSR_DR == 0 && (0x60 as bv8) & UART_LSR_OE == 0 && (0x60 as bv8) & UART_LSR_BI == 0
    {
    }

    static lemma ResetIsQuiet(u: Uart)
      ensures IrqFits(false, UART_IIR_NO_INT, ResetState(u))
    {
    }

    method ResetRegisters()
      modifies `rbr, `ier, `iir, `lcr, `lsr, `msr, `divider, `mcr, `scr, `tsrRetry, `pollMsl
      ensures RegistersReset() && tsrRetry == 0
    {
      rbr := 0;
      ier := 0;
      iir := UART_IIR_NO_INT;
      lcr := 0;
      lsr := UART_LSR_TEMT | UART_LSR_THRE;
      msr := UART_MSR_DCD | UART_MSR_DSR | UART_MSR_CTS;
      divider := 0x0C;
      mcr := UART_MCR_OUT2;
      scr := 0;
      tsrRetry := 0;
      pollMsl := 0;
    }

    /** The tests of `serial_update_irq` decide the machine's sources. */
    lemma SourceBits()
      requires Wf()
      ensures Asserted(Abs(), LineStatus) == (ier & UART_IER_RLSI != 0 && lsr & UART_LSR_INT_ANY != 0)
      ensures Asserted(Abs(), CharTimeout) == (ier & UART_IER_RDI != 0 && timeoutIpending)
      ensures Asserted(Abs(), DataReady) == (ier & UART_IER_RDI != 0 && lsr & UART_LSR_DR != 0
                                             && (fcr & UART_FCR_FE == 0 || recvFifo.count >= recvFifo.itl))
      ensures Asserted(Abs(), ThrEmpty) == (ier & UART_IER_THRI != 0 && thrIpending)
      ensures Asserted(Abs(), ModemStatus) == (ier & UART_IER_MSI != 0 && msr & UART_MSR_ANY_DELTA != 0)
    {
      LsrErrors(lsr);
      AnyDelta(msr);
    }

    /** The branches of `serial_update_irq`. */
    method PendingCode() returns (code: bv8)
      requires Wf()
      ensures code == Ident(Abs())
    {
      SourceBits();
      if ier & UART_IER_RLSI != 0 && lsr & UART_LSR_INT_ANY != 0 {
        code := UART_IIR_RLSI;
      } else if ier & UART_IER_RDI != 0 && timeoutIpending {
        code := UART_IIR_CTI;
      } else if ier & UART_IER_RDI != 0 && lsr & UART_LSR_DR != 0
                && (fcr & UART_FCR_FE == 0 || recvFifo.count >= recvFifo.itl) {
        code := UART_IIR_RDI;
      } else if ier & UART_IER_THRI != 0 && thrIpending {
        code := UART_IIR_THRI;
      } else if ier & UART_IER_MSI != 0 && msr & UART_MSR_ANY_DELTA != 0 {
        code := UART_IIR_MSI;
      } else {
        code := UART_IIR_NO_INT;
      }
    }

    /** `serial_update_irq`. */
    method UpdateIrq()
      requires Wf()
      modifies `iir, `irq
      ensures Wf() && Abs() == old(Abs()) && IrqRight()
    {
      hide SerialFifo.Contents, LinesOf, DeltasOf, Asserted;
      ghost var u := Abs();
      var tmp := PendingCode();
      IirBits(tmp, iir);
      iir := tmp | (iir & 0xF0);
      irq := tmp != UART_IIR_NO_INT;
      assert Abs() == u;
    }

    /** `fifo_put`, with the overrun it reports in LSR. */
    method FifoPut(receive: bool, chr: bv8)
      requires Wf() && (receive || xmitFifo.count < UART_FIFO_LENGTH)
      modifies `lsr, recvFifo, recvFifo.data, xmitFifo, xmitFifo.data
      ensures Wf() && recvFifo.itl == old(recvFifo.itl)
      ensures receive ==>
        && recvFifo.Contents() == Push(old(recvFifo.Contents()), [chr])
        && xmitFifo.Contents() == old(xmitFifo.Contents())
        && lsr == if Overflows(old(recvFifo.Contents()), [chr]) then old(lsr) | UART_LSR_OE else old(lsr)
      ensures !receive ==>
        && xmitFifo.Contents() == old(xmitFifo.Contents()) + [chr]
        && recvFifo.Contents() == old(recvFifo.Contents()) && lsr == old(lsr)
    {
      var overrun;
      if receive {
        overrun := recvFifo.Put(chr, true);
      } else {
        overrun := xmitFifo.Put(chr, false);
      }
      if overrun {
        lsr := lsr | UART_LSR_OE;
      }
    }

    /** The receive loop over a buffer in FIFO mode. */
    method PutAll(buf: seq<bv8>)
      requires Wf()
      modifies `lsr, recvFifo, recvFifo.data, xmitFifo, xmitFifo.data
      ensures Wf() && recvFifo.itl == old(recvFifo.itl)
      ensures recvFifo.Contents() == Push(old(recvFifo.Contents()), buf)
      ensures xmitFifo.Contents() == old(xmitFifo.Contents())
      ensures lsr == if Overflows(old(recvFifo.Contents()), buf) then old(lsr) | UART_LSR_OE else old(lsr)
    {
      ghost var rx := recvFifo.Contents();
      for i := 0 to |buf|
        invariant Wf() && recvFifo.itl == old(recvFifo.itl)
        invariant recvFifo.Contents() == Push(rx, buf[..i])
        invariant xmitFifo.Contents() == old(xmitFifo.Contents())
        invariant lsr == if Overflows(rx, buf[..i]) then old(lsr) | UART_LSR_OE else old(lsr)
      {
        assert buf[..i + 1] == buf[..i] + [buf[i]];
        PushOne(rx, buf[..i], buf[i]);
        FifoPut(true, buf[i]);
      }
      assert buf[..|buf|] == buf;
    }

    static lemma PushOne(rx: seq<bv8>, buf: seq<bv8>, b: bv8)
      requires |rx| <= UART_FIFO_LENGTH
      ensures |Push(rx, buf)| <= UART_FIFO_LENGTH
      ensures Push(Push(rx, buf), [b]) == Push(rx, buf + [b])
      ensures Overflows(rx, buf) || Overflows(Push(rx, buf), [b]) <==> Overflows(rx, buf + [b])
    {
    }

    /** `serial_receive1` up to the interrupt update. */
    method StoreReceived(buf: seq<bv8>)
      requires Wf() && buf != []
      modifies `lsr, `rbr, `fifoTimeoutTimer, recvFifo, recvFifo.data, xmitFifo, xmitFifo.data
      ensures Wf() && Abs() == ReceiveBytes(old(Abs()), buf)
      ensures xmitFifo.Contents() == old(xmitFifo.Contents())
      ensures lsr & 0x60 == old(lsr) & 0x60
    {
      if fcr & UART_FCR_FE != 0 {
        StoreInFifo(buf);
      } else {
        StoreInRbr(buf[0]);
      }
    }

    method StoreInFifo(buf: seq<bv8>)
      requires Wf() && buf != []
      modifies `lsr, `fifoTimeoutTimer, recvFifo, recvFifo.data, xmitFifo, xmitFifo.data
      ensures Wf() && Abs() == old(Abs()).(rx := ReceiveRx(old(Abs()).rx, buf, true))
      ensures xmitFifo.Contents() == old(xmitFifo.Contents()) && lsr & 0x60 == old(lsr) & 0x60
    {
      PutAll(buf);
      lsr := lsr | UART_LSR_DR;
      fifoTimeoutTimer := true;
    }

    method StoreInRbr(b: bv8)
      requires Wf()
      modifies `lsr, `rbr
      ensures Wf() && Abs() == old(Abs()).(rx := ReceiveRx(old(Abs()).rx, [b], false))
      ensures lsr & 0x60 == old(lsr) & 0x60
    {
      if lsr & UART_LSR_DR != 0 {
        lsr := lsr | UART_LSR_OE;
      }
      rbr := b;
      lsr := lsr | UART_LSR_DR;
    }

    /** `serial_receive1`. */
    method Receive1(buf: seq<bv8>)
      requires Wf() && buf != []
      modifies `lsr, `rbr, `fifoTimeoutTimer, `iir, `irq, recvFifo, recvFifo.data, xmitFifo, xmitFifo.data
      ensures Wf() && IrqRight() && Abs() == ReceiveBytes(old(Abs()), buf)
      ensures xmitFifo.Contents() == old(xmitFifo.Contents())
      ensures lsr & 0x60 == old(lsr) & 0x60
    {
      StoreReceived(buf);
      UpdateIrq();
    }

    /** `serial_update_msl`. */
    method UpdateMsl(flags: ModemFlags)
      requires Wf()
      modifies `msr, `pollMsl, `modemStatusPoll, `iir, `irq
      ensures Wf() && Abs() == old(Abs()).(m := PollLines(old(Abs()).m, flags))
      ensures old(IrqRight()) ==> IrqRight()
    {
      if flags.NotSupported? {
        StopPolling(-1);
      } else {
        PollMsr(flags.lines);
        RearmPoll();
      }
    }

    method StopPolling(mode: int)
      requires Wf()
      modifies `modemStatusPoll, `pollMsl
      ensures Wf() && Abs() == old(Abs()).(m := old(Abs()).m.(timer := false, poll := mode))
      ensures old(IrqRight()) ==> IrqRight()
    {
      ghost var u, fits := Abs(), IrqRight();
      modemStatusPoll := false;
      pollMsl := mode;
      assert Abs() == u.(m := u.m.(timer := false, poll := mode));
      if fits {
        SameSources(irq, iir, u, Abs());
      }
    }

    method RearmPoll()
      requires Wf()
      modifies `modemStatusPoll
      ensures Wf() && Abs() == old(Abs()).(m := old(Abs()).m.(timer := pollMsl != 0))
      ensures old(IrqRight()) ==> IrqRight()
    {
      SetPollTimer(pollMsl != 0);
    }

    method SetPollTimer(armed: bool)
      requires Wf()
      modifies `modemStatusPoll
      ensures Wf() && Abs() == old(Abs()).(m := old(Abs()).m.(timer := armed))
      ensures old(IrqRight()) ==> IrqRight()
    {
      ghost var u, fits := Abs(), IrqRight();
      modemStatusPoll := armed;
      assert Abs() == u.(m := u.m.(timer := armed));
      if fits {
        SameSources(irq, iir, u, Abs());
      }
    }

    /** Lines, poll mode, timers and what was sent raise no interrupt. */
    static lemma SameSources(irq: bool, iir: bv8, u: Uart, v: Uart)
      requires u.g.ier == v.g.ier && u.g.fcr == v.g.fcr && u.thrPending == v.thrPending && u.fifoId == v.fifoId
      requires u.m.delta == v.m.delta && u.rx.(timer := v.rx.timer) == v.rx
      requires IrqFits(irq, iir, u)
      ensures IrqFits(irq, iir, v)
    {
    }

    /** The part of `serial_update_msl` that works on MSR. */
    method PollMsr(v: Modem)
      requires Wf()
      modifies `msr, `iir, `irq
      ensures Wf() && Abs() == old(Abs()).(m := old(Abs()).m.(line := v, delta := DeltaAfter(old(Abs()).m.line, old(Abs()).m.delta, v)))
      ensures old(IrqRight()) ==> IrqRight()
    {
      var changed;
      PolledBits(msr, v);
      msr, changed := PolledMsr(msr, v);
      if changed {
        UpdateIrq();
      }
    }

    /** The new MSR, and whether a line changed. */
    static method PolledMsr(omsr: bv8, v: Modem) returns (m: bv8, changed: bool)
      ensures m == MsrAfterPoll(omsr, v) && changed == (WithLines(omsr, v) != omsr)
    {
      m := StoreLines(omsr, v);
      changed := m != omsr;
      if changed {
        m := m | ((m >> 4) ^ (omsr >> 4));
        if m & UART_MSR_TERI != 0 && omsr & UART_MSR_RI == 0 {
          m := m & !UART_MSR_TERI;
        }
      }
    }

    static method StoreLines(omsr: bv8, v: Modem) returns (m: bv8)
      ensures m == WithLines(omsr, v)
    {
      m := omsr;
      m := if v.cts then m | UART_MSR_CTS else m & !UART_MSR_CTS;
      m := if v.dsr then m | UART_MSR_DSR else m & !UART_MSR_DSR;
      m := if v.dcd then m | UART_MSR_DCD else m & !UART_MSR_DCD;
      m := if v.ri then m | UART_MSR_RI else m & !UART_MSR_RI;
    }

    /** The byte the transmitter shifts next. */
    ghost function NextOut(): bv8
      requires xmitFifo.Valid()
      reads this, xmitFifo, xmitFifo.data
    {
      if fcr & UART_FCR_FE == 0 then thr
      else if xmitFifo.count == 0 then 0 else xmitFifo.Contents()[0]
    }

    /** `serial_xmit` up to the hand-over: loads the shift register. */
    method LoadShiftRegister()
      requires Wf()
      modifies `tsr, `lsr, xmitFifo
      ensures Wf() && Abs() == old(Abs())
      ensures tsr == old(NextOut())
      ensures xmitFifo.Contents() == if fcr & UART_FCR_FE != 0 && old(xmitFifo.Contents()) != []
                                     then old(xmitFifo.Contents())[1..] else old(xmitFifo.Contents())
      ensures fcr & UART_FCR_FE == 0 || xmitFifo.count == 0 ==> lsr & UART_LSR_THRE != 0
      ensures !(fcr & UART_FCR_FE == 0 || xmitFifo.count == 0) ==> lsr == old(lsr)
    {
      hide LinesOf, DeltasOf, Ident, Asserted, Iir, IrqFits;
      if fcr & UART_FCR_FE != 0 {
        tsr := xmitFifo.Get();
        if xmitFifo.count == 0 {
          MarkThrEmpty();
        }
      } else {
        tsr := thr;
        MarkThrEmpty();
        MarkBusy();
      }
    }

    method MarkThrEmpty()
      requires Wf()
      modifies `lsr
      ensures Wf() && Abs() == old(Abs()) && lsr & UART_LSR_THRE != 0
    {
      hide SerialFifo.Contents, LinesOf, DeltasOf, Ident, Asserted, Iir, IrqFits;
      lsr := lsr | UART_LSR_THRE;
    }

    method MarkBusy()
      requires Wf()
      modifies `lsr
      ensures Wf() && Abs() == old(Abs()) && lsr & UART_LSR_THRE == old(lsr) & UART_LSR_THRE
    {
      hide SerialFifo.Contents, LinesOf, DeltasOf, Ident, Asserted, Iir, IrqFits;
      lsr := lsr & !UART_LSR_TEMT;
    }

    /** The hand-over itself: to the receiver in loopback mode, to the backend otherwise. The result
        says that the byte is kept for a retry. */
    method HandOver(taken: bool) returns (retry: bool)
      requires Wf()
      modifies `lsr, `rbr, `fifoTimeoutTimer, `iir, `irq, `wire, `tsrRetry, `transmitTimer
      modifies recvFifo, recvFifo.data, xmitFifo, xmitFifo.data
      ensures Wf() && Abs() == HandedOver(old(Abs()), old(tsr))
      ensures xmitFifo.Contents() == old(xmitFifo.Contents()) && lsr & 0x60 == old(lsr) & 0x60
      ensures retry == (mcr & UART_MCR_LOOP == 0 && !taken && 0 < old(tsrRetry) <= MAX_XMIT_RETRY)
      ensures retry ==> tsrRetry == old(tsrRetry) + 1 && transmitTimer
      ensures !retry ==> (old(tsrRetry) <= 0 ==> tsrRetry <= 0) && transmitTimer == old(transmitTimer)
    {
      hide SerialFifo.Contents, LinesOf, DeltasOf, Ident, Asserted, Iir, IrqFits, ReceiveRx;
      if mcr & UART_MCR_LOOP != 0 {
        LoopBack();
        retry := false;
      } else {
        wire := wire.(out := wire.out + [ToBackend(tsr)]);
        retry := BackendAnswer(taken);
      }
    }

    /** In loopback mode. */
    method LoopBack()
      requires Wf() && mcr & UART_MCR_LOOP != 0
      modifies `lsr, `rbr, `fifoTimeoutTimer, `iir, `irq, `wire, recvFifo, recvFifo.data, xmitFifo, xmitFifo.data
      ensures Wf() && Abs() == HandedOver(old(Abs()), old(tsr))
      ensures xmitFifo.Contents() == old(xmitFifo.Contents()) && lsr & 0x60 == old(lsr) & 0x60
    {
      hide LinesOf, DeltasOf, SerialFifo.Contents, Ident, Asserted, HandedOver, ReceiveBytes;
      ghost var u := Abs();
      wire := wire.(out := wire.out + [LoopedBack(tsr)]);
      assert Abs() == u.(w := u.w.(out := u.w.out + [LoopedBack(tsr)]));
      HandedBack(u, tsr);
      Receive1([tsr]);
    }

    static lemma HandedBack(u: Uart, b: bv8)
      requires u.Loop() && |u.rx.fifo| <= UART_FIFO_LENGTH
      ensures ReceiveBytes(u.(w := u.w.(out := u.w.out + [LoopedBack(b)])), [b]) == HandedOver(u, b)
    {
    }

    /** What a refused or an accepted backend write does to the retry counter. */
    method BackendAnswer(taken: bool) returns (retry: bool)
      modifies `tsrRetry, `transmitTimer
      ensures retry == (!taken && 0 < old(tsrRetry) <= MAX_XMIT_RETRY)
      ensures retry ==> tsrRetry == old(tsrRetry) + 1 && transmitTimer
      ensures !retry ==> (old(tsrRetry) <= 0 ==> tsrRetry <= 0) && transmitTimer == old(transmitTimer)
    {
      retry := false;
      if !taken {
        if tsrRetry > 0 && tsrRetry <= MAX_XMIT_RETRY {
          tsrRetry := tsrRetry + 1;
          transmitTimer := true;
          retry := true;
        } else if pollMsl < 0 {
          tsrRetry := -1;
        }
      } else {
        tsrRetry := 0;
      }
    }

    /** `serial_xmit`. With no retry under way and at most one byte waiting, the byte leaves, the
        transmitter is empty again, and the guest is told. */
    method Xmit(taken: bool)
      requires Wf()
      modifies `tsr, `thrIpending, `lsr, `rbr, `fifoTimeoutTimer, `iir, `irq, `wire, `tsrRetry, `transmitTimer
      modifies recvFifo, recvFifo.data, xmitFifo, xmitFifo.data
      ensures Wf()
      ensures old(tsrRetry) <= 0 ==> tsrRetry <= 0
      ensures old(tsrRetry) <= 0 && old(xmitFifo.count <= if fcr & UART_FCR_FE != 0 then 1 else 0) ==>
        && Abs() == HandedOver(old(Abs()), old(NextOut())).(thrPending := true)
        && IrqRight() && lsr & 0x60 == 0x60 && xmitFifo.count == 0 && transmitTimer == old(transmitTimer)
    {
      if tsrRetry <= 0 {
        LoadShiftRegister();
      }
      var retry := HandOver(taken);
      if !retry {
        AfterHandOver();
      }
    }

    /** The end of `serial_xmit`. */
    method AfterHandOver()
      requires Wf()
      modifies `lsr, `thrIpending, `transmitTimer, `iir, `irq
      ensures Wf()
      ensures old(lsr) & UART_LSR_THRE != 0 ==>
        && Abs() == old(Abs()).(thrPending := true) && IrqRight()
        && lsr & 0x60 == 0x60 && transmitTimer == old(transmitTimer)
    {
      hide SerialFifo.Contents, LinesOf, DeltasOf, Ident, Asserted, Iir, IrqFits;
      if lsr & UART_LSR_THRE == 0 {
        transmitTimer := true;
      }
      if lsr & UART_LSR_THRE != 0 {
        lsr := lsr | UART_LSR_TEMT;
        thrIpending := true;
        UpdateIrq();
      }
    }

    // ---------- Guest writes

    /** A THR write up to the transmission: the byte is put where `serial_xmit` looks for it. */
    method PrepareThr(val: bv8)
      requires Wf() && xmitFifo.count == 0
      modifies `thr, `thrIpending, `lsr, `iir, `irq, recvFifo, recvFifo.data, xmitFifo, xmitFifo.data
      ensures Wf() && Abs() == old(Abs()).(thrPending := false)
      ensures NextOut() == val && xmitFifo.count == if fcr & UART_FCR_FE != 0 then 1 else 0
    {
      thr := val;
      if fcr & UART_FCR_FE != 0 {
        FifoPut(false, thr);
      }
      LeaveEmpty();
    }

    /** The transmitter is no longer empty. */
    method LeaveEmpty()
      requires Wf()
      modifies `thrIpending, `lsr, `iir, `irq
      ensures Wf() && Abs() == old(Abs()).(thrPending := false) && lsr & UART_LSR_THRE == 0
    {
      hide SerialFifo.Contents, LinesOf, DeltasOf, Asserted, Ident, IrqFits;
      thrIpending := false;
      if fcr & UART_FCR_FE != 0 {
        lsr := lsr & !UART_LSR_TEMT;
      }
      lsr := lsr & !UART_LSR_THRE;
      UpdateIrq();
    }

    method WriteThrReg(val: bv8, taken: bool)
      requires Valid()
      modifies Repr()
      ensures Valid() && Abs() == WriteThr(old(Abs()), val)
    {
      PrepareThr(val);
      Xmit(taken);
    }

    method WriteIerReg(val: bv8, flags: ModemFlags)
      requires Valid()
      modifies Repr()
      ensures Valid() && Abs() == WriteIer(old(Abs()), val, flags)
    {
      IerKeepsInv(Abs(), val, flags);
      StoreIer(val, flags);
      RaiseThrEmpty();
    }

    method StoreIer(val: bv8, flags: ModemFlags)
      requires Wf()
      modifies `ier, `msr, `pollMsl, `modemStatusPoll, `iir, `irq
      ensures Wf() && Abs() == old(Abs()).(g := old(Abs()).g.(ier := val & 0x0f), m := IerModem(old(Abs()).m, val & 0x0f, flags))
    {
      ier := val & 0x0f;
      PollIfEnabled(flags);
    }

    /** With THRE set, an IER write makes the transmit interrupt pending and updates the line; with THRE
        clear it would leave the line as it was. */
    method RaiseThrEmpty()
      requires Wf()
      modifies `thrIpending, `iir, `irq
      ensures Wf()
      ensures lsr & UART_LSR_THRE != 0 ==> Abs() == old(Abs()).(thrPending := true) && IrqRight()
      ensures lsr & UART_LSR_THRE == 0 ==> unchanged(this)
    {
      if lsr & UART_LSR_THRE != 0 {
        thrIpending := true;
        UpdateIrq();
      }
    }

    /** Polling of the modem lines follows the modem interrupt enable, if the backend supports it. */
    method PollIfEnabled(flags: ModemFlags)
      requires Wf()
      modifies `msr, `pollMsl, `modemStatusPoll, `iir, `irq
      ensures Wf() && Abs() == old(Abs()).(m := IerModem(old(Abs()).m, ier, flags))
    {
      if pollMsl >= 0 {
        if ier & UART_IER_MSI != 0 {
          pollMsl := 1;
          UpdateMsl(flags);
        } else {
          StopPolling(0);
        }
      }
    }

    method WriteFcrReg(val: bv8)
      requires Valid()
      modifies Repr()
      ensures Valid() && Abs() == WriteFcr(old(Abs()), val)
    {
      hide SerialFifo.Contents, LinesOf, DeltasOf, Ident, Asserted, Iir, IrqFits;
      if fcr != val {
        var v := val;
        if (v ^ fcr) & UART_FCR_FE != 0 {
          v := v | (UART_FCR_XFR | UART_FCR_RFR);
        }
        ApplyFcr(val, v);
        UpdateIrq();
      }
    }

    method ApplyFcr(val: bv8, v: bv8)
      requires Wf() && fcr != val
      requires v == if (val ^ fcr) & UART_FCR_FE != 0 then val | (UART_FCR_XFR | UART_FCR_RFR) else val
      modifies `iir, `fcr, `fifoTimeoutTimer, `timeoutIpending, recvFifo, recvFifo.data, xmitFifo, xmitFifo.data
      ensures Wf() && Abs() == WriteFcr(old(Abs()), val) && (old(xmitFifo.count) == 0 ==> xmitFifo.count == 0)
    {
      hide SerialFifo.Contents, LinesOf, DeltasOf, Ident, Asserted, Iir, IrqFits, SerialFifo.Valid;
      FcrBits(fcr, val);
      FcrKept(val, v);
      FlushFifos(v);
      SetTrigger(v);
      fcr := v & 0xC9;
    }

    /** The FIFO clears that an FCR write asks for. */
    method FlushFifos(v: bv8)
      requires Wf()
      modifies `fifoTimeoutTimer, `timeoutIpending, recvFifo, recvFifo.data, xmitFifo, xmitFifo.data
      ensures Wf() && (old(xmitFifo.count) == 0 ==> xmitFifo.count == 0)
      ensures Abs() == old(Abs()).(rx := FlushRx(old(Abs()).rx, v & UART_FCR_RFR != 0))
    {
      if v & UART_FCR_RFR != 0 {
        fifoTimeoutTimer := false;
        timeoutIpending := false;
        recvFifo.Clear();
      }
      if v & UART_FCR_XFR != 0 {
        xmitFifo.Clear();
      }
    }

    /** The FIFO identification and the trigger level. */
    method SetTrigger(v: bv8)
      requires Wf()
      modifies `iir, recvFifo`itl
      ensures Wf()
      ensures Abs() == old(Abs()).(rx := old(Abs()).rx.(itl := if v & UART_FCR_FE != 0 then TriggerLevel(v) else old(Abs()).rx.itl),
                                   fifoId := v & UART_FCR_FE != 0)
    {
      if v & UART_FCR_FE != 0 {
        iir := iir | UART_IIR_FE;
        recvFifo.itl := match v & 0xC0
                        case 0x00 => 1
                        case 0x40 => 4
                        case 0x80 => 8
                        case _ => 14;
      } else {
        iir := iir & !UART_IIR_FE;
      }
    }

    static lemma FcrBits(fcr: bv8, val: bv8)
      ensures var v := if (val ^ fcr) & UART_FCR_FE != 0 then val | (UART_FCR_XFR | UART_FCR_RFR) else val;
              v & UART_FCR_RFR != 0 <==> (val ^ fcr) & UART_FCR_FE != 0 || val & UART_FCR_RFR != 0
    {
    }

    static lemma FcrKept(val: bv8, v: bv8)
      requires v == val || v == val | (UART_FCR_XFR | UART_FCR_RFR)
      ensures v & 0xC9 == val & 0xC9 && v & UART_FCR_FE == val & UART_FCR_FE && v & 0xC0 == val & 0xC0
      ensures (val & 0xC9) & UART_FCR_FE == val & UART_FCR_FE
    {
    }

    method WriteLcrReg(val: bv8)
      requires Valid()
      modifies Repr()
      ensures Valid() && Abs() == WriteLcr(old(Abs()), val)
    {
      ghost var u := Abs();
      StoreLcr(val);
      SameSources(irq, iir, u, Abs());
    }

    method StoreLcr(val: bv8)
      requires Wf() && lastBreakEnable == (lcr >> 6) & 1
      modifies `lcr, `lastBreakEnable, `wire
      ensures Abs() == WriteLcr(old(Abs()), val) && lastBreakEnable == (lcr >> 6) & 1
    {
      BreakBits(lcr, val);
      ghost var u := Abs();
      lcr := val;
      var breakEnable := (val >> 6) & 1;
      if breakEnable != lastBreakEnable {
        lastBreakEnable := breakEnable;
        wire := wire.(ioctls := wire.ioctls + [SetBreak(breakEnable != 0)]);
        assert Abs() == WriteLcr(u, val);
      } else {
        assert Abs() == WriteLcr(u, val);
      }
    }

    static lemma BreakBits(a: bv8, b: bv8)
      ensures (a >> 6) & 1 == (b >> 6) & 1 <==> BreakBit(a) == BreakBit(b)
      ensures (b >> 6) & 1 != 0 <==> BreakBit(b)
    {
    }

    method WriteMcrReg(val: bv8)
      requires Valid()
      modifies Repr()
      ensures Valid() && Abs() == WriteMcr(old(Abs()), val)
    {
      ghost var u := Abs();
      StoreMcr(val);
      SameSources(irq, iir, u, Abs());
    }

    method StoreMcr(val: bv8)
      requires Wf()
      modifies `mcr, `wire, `modemStatusPoll
      ensures Abs() == WriteMcr(old(Abs()), val)
    {
      hide SerialFifo.Contents, LinesOf, DeltasOf, Ident, Asserted, Iir, IrqFits, SerialFifo.Valid;
      ghost var u := Abs();
      var oldMcr := mcr;
      mcr := val & 0x1f;
      if val & UART_MCR_LOOP == 0 && pollMsl >= 0 && oldMcr != mcr {
        wire := wire.(ioctls := wire.ioctls + [SetLines(val & UART_MCR_RTS != 0, val & UART_MCR_DTR != 0)]);
        modemStatusPoll := true;
        assert Abs() == WriteMcr(u, val);
      } else {
        assert Abs() == WriteMcr(u, val);
      }
    }

    // ---------- Guest reads

    method ReadRbrReg() returns (ret: bv8)
      requires Valid()
      modifies Repr()
      ensures Valid() && Abs() == ReadRbr(old(Abs()))
      ensures ret == RbrValue(old(Abs()).rx, old(Abs()).Fifo())
    {
      ret := TakeReceived();
      UpdateIrq();
      AcceptInput();
    }

    /** Tells the backend that there may be room again, except in loopback mode. */
    method AcceptInput()
      requires Wf() && IrqRight()
      modifies `wire
      ensures Wf() && IrqRight()
      ensures Abs() == old(Abs()).(w := old(Abs()).w.(accepts := if old(Abs()).Loop() then old(Abs()).w.accepts else old(Abs()).w.accepts + 1))
    {
      ghost var u := Abs();
      if mcr & UART_MCR_LOOP == 0 {
        wire := wire.(accepts := wire.accepts + 1);
        assert Abs() == u.(w := u.w.(accepts := u.w.accepts + 1));
        SameSources(irq, iir, u, Abs());
      }
    }

    /** An RBR read up to the interrupt update. */
    method TakeReceived() returns (ret: bv8)
      requires Wf()
      modifies `lsr, `fifoTimeoutTimer, `timeoutIpending, recvFifo
      ensures Wf() && Abs() == old(Abs()).(rx := ReadRx(old(Abs()).rx, old(Abs()).Fifo()))
      ensures ret == RbrValue(old(Abs()).rx, old(Abs()).Fifo())
      ensures lsr & 0x60 == old(lsr) & 0x60
    {
      if fcr & UART_FCR_FE != 0 {
        ret := TakeFromFifo();
      } else {
        ret := rbr;
        lsr := lsr & !(UART_LSR_DR | UART_LSR_BI);
      }
    }

    method TakeFromFifo() returns (ret: bv8)
      requires Wf() && fcr & UART_FCR_FE != 0
      modifies `lsr, `fifoTimeoutTimer, `timeoutIpending, recvFifo
      ensures Wf() && Abs() == old(Abs()).(rx := ReadRx(old(Abs()).rx, true))
      ensures ret == RbrValue(old(Abs()).rx, true)
      ensures lsr & 0x60 == old(lsr) & 0x60
    {
      hide LinesOf, DeltasOf, Ident, Asserted, IrqFits;
      ret := recvFifo.Get();
      timeoutIpending := false;
      AfterTake();
    }

    /** Data ready and break follow the FIFO becoming empty; otherwise the timeout is started again. */
    method AfterTake()
      requires Wf()
      modifies `lsr, `fifoTimeoutTimer
      ensures Wf() && lsr & 0x60 == old(lsr) & 0x60
      ensures Abs() == old(Abs()).(rx := old(Abs()).rx.(
        dr := old(Abs()).rx.dr && recvFifo.count != 0, bi := old(Abs()).rx.bi && recvFifo.count != 0,
        timer := old(Abs()).rx.timer || recvFifo.count != 0))
    {
      hide SerialFifo.Contents, LinesOf, DeltasOf, Ident, Asserted, Iir, IrqFits, SerialFifo.Valid;
      if recvFifo.count == 0 {
        lsr := lsr & !(UART_LSR_DR | UART_LSR_BI);
      } else {
        fifoTimeoutTimer := true;
      }
    }

    method ReadIirReg() returns (ret: bv8)
      requires Valid()
      modifies Repr()
      ensures Valid() && Abs() == ReadReg(old(Abs()), 2, NotSupported) && ret == ReadValue(old(Abs()), 2, NotSupported)
    {
      ret := iir;
      IirId(Abs());
      if ret & UART_IIR_ID == UART_IIR_THRI {
        thrIpending := false;
        UpdateIrq();
      }
    }

    static lemma IirId(u: Uart)
      ensures Iir(u) & UART_IIR_ID == UART_IIR_THRI <==> Ident(u) == UART_IIR_THRI
    {
    }

    method ReadLsrReg() returns (ret: bv8)
      requires Valid()
      modifies Repr()
      ensures Valid() && Abs() == ReadReg(old(Abs()), 5, NotSupported) && ret == ReadValue(old(Abs()), 5, NotSupported)
    {
      hide SerialFifo.Contents, LinesOf, DeltasOf, Ident, Asserted, Iir, IrqFits, ReadRbr, Polled;
      ret := lsr;
      LsrByte(lsr);
      if lsr & (UART_LSR_BI | UART_LSR_OE) != 0 {
        lsr := lsr & !(UART_LSR_BI | UART_LSR_OE);
        UpdateIrq();
      }
    }

    method ReadMsrReg(flags: ModemFlags) returns (ret: bv8)
      requires Valid()
      modifies Repr()
      ensures Valid() && Abs() == ReadReg(old(Abs()), 6, flags) && ret == ReadValue(old(Abs()), 6, flags)
    {
      if mcr & UART_MCR_LOOP != 0 {
        ret := (mcr & 0x0c) << 4;
        ret := ret | ((mcr & 0x02) << 3);
        ret := ret | ((mcr & 0x01) << 5);
        LoopByte(mcr);
      } else {
        ret := ReadPolledMsr(flags);
      }
    }

    static lemma LoopByte(mcr: bv8)
      ensures ((mcr & 0x0c) << 4) | ((mcr & 0x02) << 3) | ((mcr & 0x01) << 5) == LoopMsr(mcr)
    {
    }

    /** An MSR read outside loopback: poll, read, clear the deltas. */
    method ReadPolledMsr(flags: ModemFlags) returns (ret: bv8)
      requires Valid()
      modifies `msr, `pollMsl, `modemStatusPoll, `iir, `irq
      ensures Valid() && Abs() == old(Abs()).(m := Polled(old(Abs()).m, flags).(delta := NO_DELTA))
      ensures ret == Msr(Polled(old(Abs()).m, flags).line, Polled(old(Abs()).m, flags).delta)
    {
      if pollMsl >= 0 {
        UpdateMsl(flags);
      }
      ret := msr;
      MsrByte(msr);
      ClearDeltas();
    }

    method ClearDeltas()
      requires Wf() && IrqRight()
      modifies `msr, `iir, `irq
      ensures Wf() && IrqRight() && Abs() == old(Abs()).(m := old(Abs()).m.(delta := NO_DELTA))
    {
      hide SerialFifo.Contents, LinesOf, DeltasOf, Ident, Asserted, Iir, IrqFits;
      MsrByte(msr);
      AnyDelta(msr);
      if msr & UART_MSR_ANY_DELTA != 0 {
        msr := msr & 0xF0;
        UpdateIrq();
      }
    }

    // ---------- Backend and timers

    /** `serial_receive_break`. */
    method ReceiveBreak()
      requires Valid()
      modifies Repr()
      ensures Valid() && Abs() == old(Abs()).(rx := BreakRx(old(Abs()).rx))
    {
      StoreBreak();
      UpdateIrq();
    }

    method StoreBreak()
      requires Wf()
      modifies `rbr, `lsr, recvFifo, recvFifo.data, xmitFifo, xmitFifo.data
      ensures Wf() && Abs() == old(Abs()).(rx := BreakRx(old(Abs()).rx))
      ensures xmitFifo.count == old(xmitFifo.count) && lsr & 0x60 == old(lsr) & 0x60
    {
      rbr := 0;
      FifoPut(true, 0);
      lsr := lsr | (UART_LSR_BI | UART_LSR_DR);
    }

    /** `fifo_timeout_int`, the callback of the FIFO timer. */
    method FifoTimeoutInt()
      requires Valid()
      modifies Repr()
      ensures Valid() && Abs() == old(Abs()).(rx := TimeoutRx(old(Abs()).rx))
    {
      hide SerialFifo.Contents, LinesOf, DeltasOf, Ident, Asserted, Iir, IrqFits;
      DisarmFifoTimer();
      if recvFifo.count != 0 {
        RaiseTimeout();
      }
    }

    method DisarmFifoTimer()
      requires Wf() && IrqRight()
      modifies `fifoTimeoutTimer
      ensures Wf() && Abs() == old(Abs()).(rx := old(Abs()).rx.(timer := false)) && IrqRight()
    {
      ghost var u := Abs();
      fifoTimeoutTimer := false;
      assert Abs() == u.(rx := u.rx.(timer := false));
      SameSources(irq, iir, u, Abs());
    }

    method RaiseTimeout()
      requires Wf()
      modifies `timeoutIpending, `iir, `irq
      ensures Wf() && Abs() == old(Abs()).(rx := old(Abs()).rx.(timeout := true)) && IrqRight()
    {
      timeoutIpending := true;
      UpdateIrq();
    }

    // ---------- The register file and the steps

    /** `serial_ioport_write`. */
    method IoportWrite(addr: nat, val: bv8, taken: bool, flags: ModemFlags)
      requires Valid()
      modifies Repr()
      ensures Valid() && Abs() == WriteReg(old(Abs()), addr % 8, val, flags)
    {
      hide SerialFifo.Contents, LinesOf, DeltasOf, Ident, Asserted, Iir, IrqFits, Inv,
        WriteThr, WriteIer, WriteFcr, WriteLcr, WriteMcr;
      ghost var u := Abs();
      match addr % 8 {
        case 0 => WriteData(val, taken); assert Abs() == WriteReg(u, addr % 8, val, flags);
        case 1 => WriteEnables(val, flags); assert Abs() == WriteReg(u, addr % 8, val, flags);
        case 2 => WriteFcrReg(val); assert Abs() == WriteReg(u, addr % 8, val, flags);
        case 3 => WriteLcrReg(val); assert Abs() == WriteReg(u, addr % 8, val, flags);
        case 4 => WriteMcrReg(val); assert Abs() == WriteReg(u, addr % 8, val, flags);
        case 7 => SetScratch(val); assert Abs() == WriteReg(u, addr % 8, val, flags);
        case _ =>
      }
    }

    method WriteData(val: bv8, taken: bool)
      requires Valid()
      modifies Repr()
      ensures Valid() && Abs() == WriteReg(old(Abs()), 0, val, NotSupported)
    {
      if lcr & UART_LCR_DLAB != 0 {
        SetDivider((divider & 0xff00) | (val as bv16));
      } else {
        WriteThrReg(val, taken);
      }
    }

    method WriteEnables(val: bv8, flags: ModemFlags)
      requires Valid()
      modifies Repr()
      ensures Valid() && Abs() == WriteReg(old(Abs()), 1, val, flags)
    {
      if lcr & UART_LCR_DLAB != 0 {
        SetDivider((divider & 0x00ff) | ((val as bv16) << 8));
      } else {
        WriteIerReg(val, flags);
      }
    }

    method SetDivider(d: bv16)
      requires Valid()
      modifies `divider
      ensures Valid() && Abs() == old(Abs()).(g := old(Abs()).g.(divider := d))
    {
      ghost var u := Abs();
      divider := d;
      assert Abs() == u.(g := u.g.(divider := d));
      SameSources(irq, iir, u, Abs());
    }

    method SetScratch(val: bv8)
      requires Valid()
      modifies `scr
      ensures Valid() && Abs() == old(Abs()).(g := old(Abs()).g.(scr := val))
    {
      ghost var u := Abs();
      scr := val;
      assert Abs() == u.(g := u.g.(scr := val));
      SameSources(irq, iir, u, Abs());
    }

    /** `serial_ioport_read`. */
    method IoportRead(addr: nat, flags: ModemFlags) returns (ret: bv8)
      requires Valid()
      modifies Repr()
      ensures Valid() && Abs() == ReadReg(old(Abs()), addr % 8, flags)
      ensures ret == ReadValue(old(Abs()), addr % 8, flags)
    {
      var a := addr % 8;
      match a {
        case 0 => ret := ReadData();
        case 2 => ret := ReadIirReg();
        case 5 => ret := ReadLsrReg();
        case 6 => ret := ReadMsrReg(flags);
        case _ => ret := ReadStored(a, flags);
      }
    }

    /** IER (or the divisor), LCR, MCR and SCR: reads that change nothing. */
    method ReadStored(a: nat, flags: ModemFlags) returns (ret: bv8)
      requires Valid() && a < 8 && a !in {0, 2, 5, 6}
      ensures ret == ReadValue(Abs(), a, flags) && ReadReg(Abs(), a, flags) == Abs()
    {
      match a {
        case 1 => ret := if lcr & UART_LCR_DLAB != 0 then ((divider >> 8) & 0xff) as bv8 else ier;
        case 3 => ret := lcr;
        case 4 => ret := mcr;
        case _ => ret := scr;
      }
    }

    method ReadData() returns (ret: bv8)
      requires Valid()
      modifies Repr()
      ensures Valid() && Abs() == ReadReg(old(Abs()), 0, NotSupported)
      ensures ret == ReadValue(old(Abs()), 0, NotSupported)
    {
      if lcr & UART_LCR_DLAB != 0 {
        ret := (divider & 0xff) as bv8;
      } else {
        ret := ReadRbrReg();
      }
    }

    /** `serial_can_receive`. */
    method CanReceive() returns (room: int)
      requires Valid()
      ensures room == Room(Abs())
    {
      if fcr & UART_FCR_FE != 0 {
        if recvFifo.count < UART_FIFO_LENGTH {
          room := if recvFifo.count <= recvFifo.itl then recvFifo.itl - recvFifo.count else 1;
        } else {
          room := 0;
        }
      } else {
        room := if lsr & UART_LSR_DR == 0 then 1 else 0;
      }
    }

    /** Any step of the guest, the backend or a timer. */
    method Do(s: Step) returns (ret: bv8)
      requires Valid() && Possible(s)
      modifies Repr()
      ensures Valid() && Abs() == Next(old(Abs()), s)
      ensures s.Read? ==> ret == ReadValue(old(Abs()), s.addr % 8, s.flags)
    {
      ret := 0;
      match s {
        case Write(addr, val, taken, flags) => IoportWrite(addr, val, taken, flags);
        case Read(addr, flags) => ret := IoportRead(addr, flags);
        case Receive(buf) => DeliverBytes(buf);
        case BreakIn => ReceiveBreak();
        case FifoTimeout => FifoTimeoutInt();
        case ModemPoll(flags) => ModemStatusPoll(flags);
        case Reset => Reset();
      }
    }

    method DeliverBytes(buf: seq<bv8>)
      requires Valid() && buf != []
      modifies Repr()
      ensures Valid() && Abs() == ReceiveBytes(old(Abs()), buf)
    {
      ghost var u := Abs();
      Receive1(buf);
      NextKeepsInv(u, Receive(buf));
    }

    /** `serial_update_msl` as the callback of the modem timer. */
    method ModemStatusPoll(flags: ModemFlags)
      requires Valid()
      modifies `msr, `pollMsl, `modemStatusPoll, `iir, `irq
      ensures Valid() && Abs() == old(Abs()).(m := PollLines(old(Abs()).m, flags))
    {
      UpdateMsl(flags);
    }
  }
}
