/** What the UART does over whole runs: every sequence of guest accesses, backend deliveries,
    breaks, timer callbacks and resets. */
module UartRuns {
  import opened Departures
  import opened Latches
  import opened Rings
  import opened UartSpec
  import opened Serial

  ghost predicate Runnable(run: seq<Step>) {
    forall i :: 0 <= i < |run| ==> Possible(run[i])
  }

  ghost function Run(u: Uart, run: seq<Step>): (v: Uart)
    requires Inv(u) && Runnable(run)
    ensures Inv(v)
    decreases |run|
  {
    if run == [] then u
    else
      NextKeepsInv(u, run[0]);
      Run(Next(u, run[0]), run[1..])
  }

  lemma {:induction false} RunLast(u: Uart, run: seq<Step>, s: Step)
    requires Inv(u) && Runnable(run) && Possible(s)
    ensures Runnable(run + [s]) && Run(u, run + [s]) == Next(Run(u, run), s)
    decreases |run|
  {
    NextKeepsInv(Run(u, run), s);
    if run == [] {
      assert [] + [s] == [s];
    } else {
      NextKeepsInv(u, run[0]);
      RunLast(Next(u, run[0]), run[1..], s);
      assert (run + [s])[1..] == run[1..] + [s];
    }
  }

  // ---------- The interrupt line

  /** The code computed for IIR names the highest-priority asserted source, and no other code does. */
  lemma IdentIsHighest(u: Uart, code: bv8)
    ensures Identifies(u, code) <==> code == Ident(u)
  {
    if Ident(u) != UART_IIR_NO_INT {
      var s := if Asserted(u, LineStatus) then LineStatus else if Asserted(u, CharTimeout) then CharTimeout
               else if Asserted(u, DataReady) then DataReady else if Asserted(u, ThrEmpty) then ThrEmpty else ModemStatus;
      assert Asserted(u, s) && Ident(u) == Code(s) && forall t :: Asserted(u, t) ==> Priority(s) <= Priority(t);
    }
  }

  /** Between steps the line is raised exactly when an enabled source is pending, and the low nibble
      of IIR is the code of the first such source. */
  lemma LineFollowsSources(s: SerialState)
    requires s.Valid()
    ensures s.irq <==> exists x :: Asserted(s.Abs(), x)
    ensures Identifies(s.Abs(), s.iir & 0x0F)
  {
    IdentIsHighest(s.Abs(), Ident(s.Abs()));
    LowNibble(s.Abs());
    if x :| Asserted(s.Abs(), x) {
      assert Ident(s.Abs()) != UART_IIR_NO_INT;
    }
  }

  lemma LowNibble(u: Uart)
    ensures Iir(u) & 0x0F == Ident(u)
  {
  }

  // ---------- The transmitter

  predicate IsThrWrite(lcr: bv8, s: Step) {
    s.Write? && s.addr % 8 == 0 && lcr & UART_LCR_DLAB == 0
  }

  /** The guest's THR writes, read off the accesses alone: writes to port 0 while the last value
      written to LCR has DLAB clear. The last value of MCR says where each byte goes. */
  function ThrWrites(lcr: bv8, mcr: bv8, run: seq<Step>): seq<Out>
    decreases |run|
  {
    if run == [] then []
    else
      ThrWrite(lcr, mcr, run[0]) + ThrWrites(LcrAfter(lcr, run[0]), McrAfter(mcr, run[0]), run[1..])
  }

  function ThrWrite(lcr: bv8, mcr: bv8, s: Step): seq<Out> {
    if !IsThrWrite(lcr, s) then []
    else if mcr & UART_MCR_LOOP != 0 then [LoopedBack(s.val)] else [ToBackend(s.val)]
  }

  function LcrAfter(lcr: bv8, s: Step): bv8 {
    if s.Reset? then 0 else if s.Write? && s.addr % 8 == 3 then s.val else lcr
  }

  function McrAfter(mcr: bv8, s: Step): bv8 {
    if s.Reset? then UART_MCR_OUT2 else if s.Write? && s.addr % 8 == 4 then s.val & 0x1f else mcr
  }

  /** Every THR write leaves the UART at once, exactly once and in order, whether or not the
      backend takes it. */
  lemma {:induction false} SentAreThrWrites(u: Uart, run: seq<Step>)
    requires Inv(u) && Runnable(run)
    ensures Run(u, run).w.out == u.w.out + ThrWrites(u.g.lcr, u.g.mcr, run)
    decreases |run|
  {
    hide Next, LcrAfter, McrAfter, ThrWrite;
    if run != [] {
      NextKeepsInv(u, run[0]);
      StepSends(u, run[0]);
      SentAreThrWrites(Next(u, run[0]), run[1..]);
    }
  }

  lemma StepSends(u: Uart, s: Step)
    requires Inv(u) && Possible(s)
    ensures Next(u, s).w.out == u.w.out + ThrWrite(u.g.lcr, u.g.mcr, s)
    ensures Next(u, s).g.lcr == LcrAfter(u.g.lcr, s) && Next(u, s).g.mcr == McrAfter(u.g.mcr, s)
  {
    hide WriteReg, Inv, ReceiveRx, ReadRx, PollLines;
    InvBounds(u);
    match s {
      case Write(addr, val, _, flags) => WriteSends(u, addr % 8, val, flags);
      case Read(addr, flags) =>
      case _ =>
    }
  }

  lemma WriteSends(u: Uart, a: nat, val: bv8, flags: ModemFlags)
    requires Inv(u)
    ensures WriteReg(u, a, val, flags).w.out == u.w.out +
      if a == 0 && u.g.lcr & UART_LCR_DLAB == 0 then [if u.Loop() then LoopedBack(val) else ToBackend(val)] else []
    ensures WriteReg(u, a, val, flags).g.lcr == if a == 3 then val else u.g.lcr
    ensures WriteReg(u, a, val, flags).g.mcr == if a == 4 then val & 0x1f else u.g.mcr
  {
    hide WriteThr, WriteIer, WriteFcr, WriteLcr, WriteMcr, Inv;
    InvBounds(u);
    WriteThrOnly(u, val);
    OtherWritesSendNothing(u, val, flags);
    match a {
      case 0 =>
      case 1 =>
      case 2 =>
      case 3 =>
      case 4 =>
      case _ =>
    }
  }

  lemma InvBounds(u: Uart)
    requires Inv(u)
    ensures |u.rx.fifo| <= UART_FIFO_LENGTH
  {
  }

  lemma WriteThrOnly(u: Uart, val: bv8)
    requires |u.rx.fifo| <= UART_FIFO_LENGTH
    ensures var v := WriteThr(u, val);
            v.g == u.g && v.w.out == u.w.out + [if u.Loop() then LoopedBack(val) else ToBackend(val)]
  {
    hide ReceiveRx;
  }

  lemma OtherWritesSendNothing(u: Uart, val: bv8, flags: ModemFlags)
    ensures WriteIer(u, val, flags).w == u.w && WriteIer(u, val, flags).g == u.g.(ier := val & 0x0f)
    ensures WriteFcr(u, val).w == u.w && WriteFcr(u, val).g.lcr == u.g.lcr && WriteFcr(u, val).g.mcr == u.g.mcr
    ensures WriteLcr(u, val).w.out == u.w.out && WriteLcr(u, val).g == u.g.(lcr := val)
    ensures WriteMcr(u, val).w.out == u.w.out && WriteMcr(u, val).g == u.g.(mcr := val & 0x1f)
  {
    hide IerModem, FcrRx, BreakBit;
  }

  /** Whether the backend accepts the writes makes no difference to anything the guest can see. */
  lemma {:induction false} BackendRefusalInvisible(u: Uart, run: seq<Step>, other: seq<Step>)
    requires Inv(u) && Runnable(run) && |other| == |run|
    requires forall i :: 0 <= i < |run| ==>
      other[i] == run[i] || (run[i].Write? && other[i] == run[i].(taken := !run[i].taken))
    ensures Runnable(other) && Run(u, other) == Run(u, run)
    decreases |run|
  {
    if run != [] {
      NextKeepsInv(u, run[0]);
      assert Next(u, other[0]) == Next(u, run[0]);
      BackendRefusalInvisible(Next(u, run[0]), run[1..], other[1..]);
    }
  }

  // ---------- The receive FIFO

  /** Bytes a step brings to the FIFO. */
  function Incoming(u: Uart, s: Step): seq<bv8> {
    match s
    case Receive(buf) => if u.Fifo() then buf else []
    case BreakIn => [0]
    case Write(addr, val, _, _) => if IsThrWrite(u.g.lcr, s) && u.Loop() && u.Fifo() then [val] else []
    case _ => []
  }

  function Fitting(rx: seq<bv8>, buf: seq<bv8>): seq<bv8>
    requires |rx| <= UART_FIFO_LENGTH
  {
    if Overflows(rx, buf) then buf[..UART_FIFO_LENGTH - |rx|] else buf
  }

  predicate IsFifoRead(u: Uart, s: Step) {
    s.Read? && s.addr % 8 == 0 && !u.Dlab() && u.Fifo() && u.rx.fifo != []
  }

  predicate FlushesFifo(u: Uart, s: Step) {
    s.Reset? || (s.Write? && s.addr % 8 == 2 && Flushes(u.g.fcr, s.val))
  }

  function Departing(u: Uart, s: Step): seq<Departure> {
    if IsFifoRead(u, s) then Mark([u.rx.fifo[0]], Delivered)
    else if FlushesFifo(u, s) then Mark(u.rx.fifo, Flushed)
    else []
  }

  /** One step of the bounded queue: bytes leave at the front, bytes that fit join at the end. */
  lemma FifoStep(u: Uart, s: Step)
    requires Inv(u) && Possible(s)
    ensures Bytes(Departing(u, s)) + Next(u, s).rx.fifo == u.rx.fifo + Fitting(u.rx.fifo, Incoming(u, s))
  {
    hide WriteReg, ReadReg, Fitting, Bytes, Flushes;
    Idle(u.rx.fifo);
    match s {
      case Write(addr, val, _, flags) => FifoWrite(u, s);
      case Read(addr, flags) => FifoRead(u, s);
      case Receive(buf) => FifoReceive(u, s);
      case BreakIn => FifoReceive(u, s);
      case FifoTimeout =>
      case ModemPoll(_) =>
      case Reset => AllOut(u.rx.fifo);
    }
  }

  lemma FifoReceive(u: Uart, s: Step)
    requires Inv(u) && Possible(s) && (s.Receive? || s.BreakIn?)
    ensures Bytes(Departing(u, s)) + Next(u, s).rx.fifo == u.rx.fifo + Fitting(u.rx.fifo, Incoming(u, s))
  {
    hide Bytes;
    Idle(u.rx.fifo);
  }

  lemma FifoRead(u: Uart, s: Step)
    requires Inv(u) && s.Read?
    ensures Bytes(Departing(u, s)) + Next(u, s).rx.fifo == u.rx.fifo + Fitting(u.rx.fifo, Incoming(u, s))
  {
    hide Next, Fitting, Bytes, Departing, IsFifoRead;
    Idle(u.rx.fifo);
    FifoAfterRead(u, s);
    if IsFifoRead(u, s) {
      ReadDeparts(u, s);
    }
  }

  /** What a read leaves in the FIFO. */
  lemma FifoAfterRead(u: Uart, s: Step)
    requires Inv(u) && s.Read?
    ensures Next(u, s).rx.fifo == if IsFifoRead(u, s) then u.rx.fifo[1..] else u.rx.fifo
    ensures !IsFifoRead(u, s) ==> Departing(u, s) == []
  {
    hide ReadReg;
    RxOfRead(u, s.addr % 8, s.flags);
  }

  lemma ReadDeparts(u: Uart, s: Step)
    requires IsFifoRead(u, s)
    ensures Bytes(Departing(u, s)) + u.rx.fifo[1..] == u.rx.fifo
  {
    hide Bytes;
    AllOut([u.rx.fifo[0]]);
    FirstAndRest(u.rx.fifo);
  }

  lemma FirstAndRest(f: seq<bv8>)
    requires f != []
    ensures [f[0]] + f[1..] == f
  {
  }

  /** Nothing in, nothing out. */
  lemma Idle(f: seq<bv8>)
    requires |f| <= UART_FIFO_LENGTH
    ensures Bytes([]) + f == f + Fitting(f, []) == f && Fitting(f, []) == [] && Bytes([]) == []
  {
  }

  lemma AllOut(f: seq<bv8>)
    ensures Bytes(Mark(f, Flushed)) == f && Bytes(Mark(f, Delivered)) == f
    ensures Bytes(Mark(f, Flushed)) + [] == f + []
  {
  }

  lemma FifoWrite(u: Uart, s: Step)
    requires Inv(u) && s.Write?
    ensures Bytes(Departing(u, s)) + Next(u, s).rx.fifo == u.rx.fifo + Fitting(u.rx.fifo, Incoming(u, s))
  {
    hide WriteReg, Bytes, TriggerLevel;
    RxOfWrite(u, s.addr % 8, s.val, s.flags);
    Idle(u.rx.fifo);
    if FlushesFifo(u, s) {
      AllOut(u.rx.fifo);
    }
  }

  /** Which accesses touch the receiver. */
  lemma RxOfWrite(u: Uart, a: nat, val: bv8, flags: ModemFlags)
    requires Inv(u)
    ensures WriteReg(u, a, val, flags).rx ==
      if a == 0 && !u.Dlab() && u.Loop() then ReceiveRx(u.rx, [val], u.Fifo())
      else if a == 2 && u.g.fcr != val then FcrRx(u.rx, u.g.fcr, val)
      else u.rx
  {
    hide ReceiveRx, FcrRx, IerModem;
    match a {
      case 0 =>
      case 1 =>
      case 2 =>
      case _ =>
    }
  }

  lemma RxOfRead(u: Uart, a: nat, flags: ModemFlags)
    requires Inv(u)
    ensures ReadReg(u, a, flags).rx ==
      if a == 0 && !u.Dlab() then ReadRx(u.rx, u.Fifo()) else if a == 5 then u.rx.(bi := false, oe := false) else u.rx
  {
  }

  /** All that enters, and all that leaves, the FIFO over a run. */
  function Entered(u: Uart, run: seq<Step>): seq<bv8>
    requires Inv(u) && Runnable(run)
    decreases |run|
  {
    if run == [] then []
    else
      NextKeepsInv(u, run[0]);
      Fitting(u.rx.fifo, Incoming(u, run[0])) + Entered(Next(u, run[0]), run[1..])
  }

  function Left(u: Uart, run: seq<Step>): seq<Departure>
    requires Inv(u) && Runnable(run)
    decreases |run|
  {
    if run == [] then []
    else
      NextKeepsInv(u, run[0]);
      Departing(u, run[0]) + Left(Next(u, run[0]), run[1..])
  }

  /** The values that RBR reads of a non-empty FIFO returned. */
  function Returned(u: Uart, run: seq<Step>): seq<bv8>
    requires Inv(u) && Runnable(run)
    decreases |run|
  {
    if run == [] then []
    else
      NextKeepsInv(u, run[0]);
      (if IsFifoRead(u, run[0]) then [ReadValue(u, run[0].addr % 8, run[0].flags)] else [])
      + Returned(Next(u, run[0]), run[1..])
  }

  /** Conservation and order: what left the FIFO, followed by what is in it, is what was in it at
      the start followed by what entered it. Bytes leave by a read or by a flush and in no other way. */
  lemma {:induction false} FifoLedger(u: Uart, run: seq<Step>)
    requires Inv(u) && Runnable(run)
    ensures Bytes(Left(u, run)) + Run(u, run).rx.fifo == u.rx.fifo + Entered(u, run)
    decreases |run|
  {
    if run != [] {
      var v := Next(u, run[0]);
      NextKeepsInv(u, run[0]);
      FifoStep(u, run[0]);
      FifoLedger(v, run[1..]);
      BytesConcat(Departing(u, run[0]), Left(v, run[1..]));
      JoinLedgers(Bytes(Departing(u, run[0])), Bytes(Left(v, run[1..])), u.rx.fifo, v.rx.fifo, Run(u, run).rx.fifo,
                  Fitting(u.rx.fifo, Incoming(u, run[0])), Entered(v, run[1..]));
    }
  }

  /** The bytes that left by a read are the values the guest got, in the same order. */
  lemma {:induction false} ReadsAreDepartures(u: Uart, run: seq<Step>)
    requires Inv(u) && Runnable(run)
    ensures DeliveredBytes(Left(u, run)) == Returned(u, run)
    decreases |run|
  {
    if run != [] {
      NextKeepsInv(u, run[0]);
      ReadsAreDepartures(Next(u, run[0]), run[1..]);
      DeliveredConcat(Departing(u, run[0]), Left(Next(u, run[0]), run[1..]));
      if IsFifoRead(u, run[0]) {
        DeliveredMarks([u.rx.fifo[0]], Delivered);
      } else {
        DeliveredMarks(u.rx.fifo, Flushed);
      }
    }
  }

  ghost predicate Unflushed(u: Uart, run: seq<Step>)
    requires Inv(u) && Runnable(run)
    decreases |run|
  {
    run != [] ==>
      (NextKeepsInv(u, run[0]); !FlushesFifo(u, run[0]) && Unflushed(Next(u, run[0]), run[1..]))
  }

  /** In a run without a flush the guest reads exactly what entered the FIFO, in order. */
  lemma {:induction false} ReadsInOrder(u: Uart, run: seq<Step>)
    requires Inv(u) && Runnable(run) && Unflushed(u, run)
    ensures Returned(u, run) + Run(u, run).rx.fifo == u.rx.fifo + Entered(u, run)
    decreases |run|
  {
    FifoLedger(u, run);
    AllRead(u, run);
  }

  lemma {:induction false} AllRead(u: Uart, run: seq<Step>)
    requires Inv(u) && Runnable(run) && Unflushed(u, run)
    ensures Bytes(Left(u, run)) == Returned(u, run)
    decreases |run|
  {
    if run != [] {
      hide Next, Inv, Fitting;
      var v := Next(u, run[0]);
      NextKeepsInv(u, run[0]);
      AllRead(v, run[1..]);
      BytesConcat(Departing(u, run[0]), Left(v, run[1..]));
    }
  }

  /** A step that brings bytes keeps every byte already in the FIFO, and raises the overrun bit
      exactly if some of the new ones do not fit (or, with the FIFOs off, if RBR was unread). */
  lemma OverrunIffLost(u: Uart, s: Step)
    requires Inv(u) && s.Receive? && Possible(s)
    ensures u.rx.fifo <= Next(u, s).rx.fifo && Next(u, s).rx.dr
    ensures Next(u, s).rx.oe <==>
      u.rx.oe || (if u.Fifo() then |Fitting(u.rx.fifo, s.buf)| < |s.buf| else u.rx.dr)
  {
  }

  // ---------- Flow control

  /** The backend never sends more than the room it was told of, there is no break, and the guest
      does not transmit to itself. */
  ghost predicate Polite(u: Uart, run: seq<Step>)
    requires Inv(u) && Runnable(run)
    decreases |run|
  {
    run != [] ==>
      && (run[0].Receive? ==> |run[0].buf| <= Room(u))
      && !run[0].BreakIn?
      && !(IsThrWrite(u.g.lcr, run[0]) && u.Loop())
      && (NextKeepsInv(u, run[0]); Polite(Next(u, run[0]), run[1..]))
  }

  /** Everything offered to the FIFO over a run, fitting or not. */
  function Offered(u: Uart, run: seq<Step>): seq<bv8>
    requires Inv(u) && Runnable(run)
    decreases |run|
  {
    if run == [] then []
    else
      NextKeepsInv(u, run[0]);
      Incoming(u, run[0]) + Offered(Next(u, run[0]), run[1..])
  }

  /** A backend that respects the advertised room never causes an overrun, and no byte is lost. */
  lemma {:induction false} PoliteBackendNeverOverruns(u: Uart, run: seq<Step>)
    requires Inv(u) && Runnable(run) && Polite(u, run) && !u.rx.oe
    ensures !Run(u, run).rx.oe && Entered(u, run) == Offered(u, run)
    decreases |run|
  {
    if run != [] {
      NextKeepsInv(u, run[0]);
      PoliteStep(u, run[0]);
      PoliteBackendNeverOverruns(Next(u, run[0]), run[1..]);
    }
  }

  lemma PoliteStep(u: Uart, s: Step)
    requires Inv(u) && Possible(s) && !u.rx.oe
    requires s.Receive? ==> |s.buf| <= Room(u)
    requires !s.BreakIn? && !(IsThrWrite(u.g.lcr, s) && u.Loop())
    ensures !Next(u, s).rx.oe && Fitting(u.rx.fifo, Incoming(u, s)) == Incoming(u, s)
  {
    hide WriteReg, ReadReg, TriggerLevel;
    match s {
      case Write(addr, val, _, flags) => RxOfWrite(u, addr % 8, val, flags);
      case Read(addr, flags) => RxOfRead(u, addr % 8, flags);
      case Receive(buf) =>
      case _ =>
    }
  }

  /** One byte, or a break, lowers the advertised room by at most one. */
  lemma RoomFallsByAtMostOne(u: Uart, b: bv8)
    requires Inv(u)
    ensures Room(ReceiveBytes(u, [b])) >= Room(u) - 1
    ensures Room(u.(rx := BreakRx(u.rx))) >= Room(u) - 1
  {
  }

  /** An FCR write, though, can lower it at once: the level of 14 with room for 14, lowered to 1. */
  lemma LevelCutsRoom(u: Uart)
    requires u.g.fcr == 0xC1 && u.rx.fifo == [] && u.rx.itl == 14
    ensures Room(u) == 14 && Room(WriteFcr(u, 0x01)) == 1
  {
    assert !Flushes(u.g.fcr, 0x01) && TriggerLevel(0x01) == 1;
  }

  /** Backpressure is never silent: while the room is 0 a guest that listens for data is interrupted. */
  lemma BackpressureIsNeverSilent(s: SerialState)
    requires s.Valid() && Room(s.Abs()) == 0 && s.ier & UART_IER_RDI != 0
    ensures s.irq
  {
    assert Asserted(s.Abs(), DataReady);
    LineFollowsSources(s);
  }

  /** And it ends: reading RBR makes room, and the backend is told. */
  lemma ReadReopens(u: Uart, s: Step)
    requires Inv(u) && Room(u) == 0 && s.Read? && s.addr % 8 == 0 && !u.Dlab() && !u.Loop()
    ensures Room(Next(u, s)) > 0 && Next(u, s).w.accepts == u.w.accepts + 1
  {
  }

  // ---------- The transmit interrupt

  /** Steps after which the transmit interrupt is pending, and steps after which it is not. */
  predicate RaisesThrEmpty(u: Uart, s: Step) {
    s.Write? && !u.Dlab() && s.addr % 8 in {0, 1}
  }

  predicate LowersThrEmpty(u: Uart, s: Step) {
    s.Reset? || (s.Read? && s.addr % 8 == 2 && Ident(u) == UART_IIR_THRI)
  }

  /** State before step i of a run. */
  ghost function At(u: Uart, run: seq<Step>, i: nat): (v: Uart)
    requires Inv(u) && Runnable(run) && i <= |run|
    ensures Inv(v)
  {
    Run(u, run[..i])
  }

  lemma AtEnds(u: Uart, run: seq<Step>)
    requires Inv(u) && Runnable(run)
    ensures At(u, run, 0) == u && At(u, run, |run|) == Run(u, run)
  {
    assert run[..0] == [] && run[..|run|] == run;
  }

  lemma AtNext(u: Uart, run: seq<Step>, i: nat)
    requires Inv(u) && Runnable(run) && i < |run|
    ensures At(u, run, i + 1) == Next(At(u, run, i), run[i])
  {
    assert run[..i + 1] == run[..i] + [run[i]];
    RunLast(u, run[..i], run[i]);
  }

  ghost predicate RaisedAt(u: Uart, run: seq<Step>, i: nat)
    requires Inv(u) && Runnable(run) && i < |run|
  {
    RaisesThrEmpty(At(u, run, i), run[i])
  }

  ghost predicate LoweredAt(u: Uart, run: seq<Step>, i: nat)
    requires Inv(u) && Runnable(run) && i < |run|
  {
    LowersThrEmpty(At(u, run, i), run[i])
  }

  /** Raised by step i and not lowered since. */
  ghost predicate RaisedSince(u: Uart, run: seq<Step>, i: nat)
    requires Inv(u) && Runnable(run)
  {
    i < |run| && RaisedAt(u, run, i) && forall k :: i < k < |run| ==> !LoweredAt(u, run, k)
  }

  /** From reset on, the transmit interrupt is pending iff some THR or IER write came after the last
      reset and the last IIR read that reported it. */
  lemma ThrEmptyHandshake(u: Uart, run: seq<Step>)
    requires Inv(u) && Runnable(run) && !u.thrPending
    ensures Run(u, run).thrPending <==> exists i :: RaisedSince(u, run, i)
  {
    hide Next, Inv, RaisesThrEmpty, LowersThrEmpty;
    var n := |run|;
    var flag := seq(n + 1, i requires 0 <= i <= n => At(u, run, i).thrPending);
    var up := seq(n, i requires 0 <= i < n => RaisedAt(u, run, i));
    var down := seq(n, i requires 0 <= i < n => LoweredAt(u, run, i));
    forall i | 0 <= i < n
      ensures flag[i + 1] <==> up[i] || (flag[i] && !down[i])
    {
      AtNext(u, run, i);
      ThrStep(At(u, run, i), run[i]);
    }
    AtEnds(u, run);
    SetIff(flag, up, down);
    assert forall i :: 0 <= i < n ==> up[i] == RaisedAt(u, run, i);
    assert forall i :: 0 <= i < n ==> down[i] == LoweredAt(u, run, i);
    forall i: nat | i < n
      ensures SetSince(up, down, i) <==> RaisedSince(u, run, i)
    {
    }
  }

  lemma ThrStep(u: Uart, s: Step)
    requires Inv(u) && Possible(s)
    ensures Next(u, s).thrPending <==> RaisesThrEmpty(u, s) || (u.thrPending && !LowersThrEmpty(u, s))
  {
    match s {
      case Write(addr, val, _, flags) =>
        match addr % 8 {
          case 0 =>
          case 1 =>
          case _ =>
        }
      case Read(addr, flags) =>
      case _ =>
    }
  }

  // ---------- The device itself

  /** Any run of steps on the device. Its output is the guest's THR writes, and every read returns what the
      state at that point says. */
  method DoAll(uart: SerialState, run: seq<Step>) returns (values: seq<bv8>)
    requires uart.Valid() && Runnable(run)
    modifies uart.Repr()
    ensures uart.Valid() && uart.Abs() == Run(old(uart.Abs()), run)
    ensures uart.wire.out == old(uart.wire.out) + ThrWrites(old(uart.lcr), old(uart.mcr), run)
    ensures |values| == |run| && forall i :: 0 <= i < |run| ==> ReadsRight(old(uart.Abs()), run, i, values[i])
  {
    hide SerialState.Valid, SerialState.Abs, Next, Inv;
    ValidMeansInv(uart);
    ghost var u := uart.Abs();
    AtEnds(u, run);
    values := [];
    for i := 0 to |run|
      invariant uart.Valid() && uart.recvFifo.Valid() && uart.Abs() == At(u, run, i)
      invariant |values| == i && forall k :: 0 <= k < i ==> ReadsRight(u, run, k, values[k])
    {
      AtNext(u, run, i);
      var value := uart.Do(run[i]);
      ValidMeansInv(uart);
      values := values + [value];
    }
    SentAreThrWrites(u, run);
    ValidMeansInv(uart);
  }

  lemma ValidMeansInv(uart: SerialState)
    requires uart.Valid()
    ensures uart.recvFifo.Valid() && Inv(uart.Abs())
    ensures uart.Abs().w == uart.wire && uart.Abs().g.lcr == uart.lcr && uart.Abs().g.mcr == uart.mcr
  {
  }

  /** The value is what step i, if it is a read, returns. */
  ghost predicate ReadsRight(u: Uart, run: seq<Step>, i: nat, value: bv8)
    requires Inv(u) && Runnable(run) && i < |run|
  {
    run[i].Read? ==> value == ReadValue(At(u, run, i), run[i].addr % 8, run[i].flags)
  }

  /** Two devices in the same state go through the same run, but their backends answer differently to any
      of the writes: the guest reads the same values, and line and state end up the same. */
  method SameForAnyBackend(a: SerialState, b: SerialState, run: seq<Step>, other: seq<Step>)
    returns (seen: seq<bv8>, seenToo: seq<bv8>)
    requires a.Valid() && b.Valid() && a.Repr() !! b.Repr() && a.Abs() == b.Abs()
    requires Runnable(run) && Runnable(other) && |other| == |run|
    requires forall i :: 0 <= i < |run| ==> other[i] == run[i] || (run[i].Write? && other[i] == run[i].(taken := !run[i].taken))
    modifies a.Repr(), b.Repr()
    ensures a.Valid() && b.Valid() && a.Abs() == b.Abs() && a.irq == b.irq && a.iir == b.iir
    ensures |seen| == |seenToo| == |run| && forall i :: 0 <= i < |run| && run[i].Read? ==> seen[i] == seenToo[i]
  {
    hide SerialState.Valid, SerialState.Abs, Next, Inv;
    ValidMeansInv(a);
    ghost var u := a.Abs();
    seen := DoAll(a, run);
    seenToo := DoAll(b, other);
    BackendRefusalInvisible(u, run, other);
    SameLine(a, b);
    forall i | 0 <= i < |run| && run[i].Read?
      ensures seen[i] == seenToo[i]
    {
      BackendRefusalInvisible(u, run[..i], other[..i]);
      assert ReadsRight(u, run, i, seen[i]) && ReadsRight(u, other, i, seenToo[i]);
    }
  }

  lemma SameLine(a: SerialState, b: SerialState)
    requires a.Valid() && b.Valid() && a.Abs() == b.Abs()
    ensures a.irq == b.irq && a.iir == b.iir
  {
  }
}
