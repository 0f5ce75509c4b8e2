/** Two promises of the receiver that do not always hold, and exactly when they do: that IIR shows
    whether the FIFOs are on, and that no received byte waits for ever below the trigger level. */
module FlagRuns {
  import opened Latches
  import opened UartSpec
  import opened UartRuns

  // ---------- The FIFO bits of IIR

  /** A reset while the FIFOs are on clears the FIFO bits of IIR, but leaves FCR as it is. */
  predicate LosesFifoId(u: Uart, s: Step) {
    s.Reset? && u.Fifo()
  }

  /** An FCR write that is not dropped as a repetition sets the bits of IIR anew. */
  predicate RestoresFifoId(u: Uart, s: Step) {
    s.Write? && s.addr % 8 == 2 && s.val != u.g.fcr
  }

  predicate FifoIdWrong(u: Uart) { u.fifoId != u.Fifo() }

  lemma FifoIdStep(u: Uart, s: Step)
    requires Inv(u) && Possible(s) && (u.fifoId ==> u.Fifo())
    ensures Next(u, s).fifoId ==> Next(u, s).Fifo()
    ensures FifoIdWrong(Next(u, s)) <==> LosesFifoId(u, s) || (FifoIdWrong(u) && !RestoresFifoId(u, s))
  {
    match s {
      case Write(addr, val, _, flags) => FifoIdWrite(u, addr % 8, val, flags);
      case Read(addr, flags) =>
      case _ =>
    }
  }

  lemma FifoIdWrite(u: Uart, a: nat, val: bv8, flags: ModemFlags)
    requires Inv(u) && (u.fifoId ==> u.Fifo())
    ensures var v := WriteReg(u, a, val, flags);
            && (v.fifoId ==> v.Fifo())
            && (FifoIdWrong(v) <==> FifoIdWrong(u) && !(a == 2 && val != u.g.fcr))
  {
    hide IerModem, FcrRx, BreakBit, Inv;
    FifoEnableKept(val);
  }

  lemma FifoEnableKept(val: bv8)
    ensures (val & 0xC9) & UART_FCR_FE == val & UART_FCR_FE
  {
  }

  ghost predicate LostAt(u: Uart, run: seq<Step>, i: nat)
    requires Inv(u) && Runnable(run) && i < |run|
  {
    LosesFifoId(At(u, run, i), run[i])
  }

  ghost predicate RestoredAt(u: Uart, run: seq<Step>, i: nat)
    requires Inv(u) && Runnable(run) && i < |run|
  {
    RestoresFifoId(At(u, run, i), run[i])
  }

  /** Step i lost the bits and no later step restored them. */
  ghost predicate FifoIdLostSince(u: Uart, run: seq<Step>, i: nat)
    requires Inv(u) && Runnable(run)
  {
    i < |run| && LostAt(u, run, i) && forall k :: i < k < |run| ==> !RestoredAt(u, run, k)
  }

  lemma {:induction false} FifoIdImplies(u: Uart, run: seq<Step>, n: nat)
    requires Inv(u) && Runnable(run) && (u.fifoId ==> u.Fifo()) && n <= |run|
    ensures At(u, run, n).fifoId ==> At(u, run, n).Fifo()
    decreases n
  {
    if n > 0 {
      FifoIdImplies(u, run, n - 1);
      AtNext(u, run, n - 1);
      FifoIdStep(At(u, run, n - 1), run[n - 1]);
    }
  }

  /** IIR shows the FIFOs as they are after a run exactly if no reset met enabled FIFOs since the last FCR
      write that changed FCR. */
  lemma FifoBitsRightIff(u: Uart, run: seq<Step>)
    requires Inv(u) && Runnable(run) && u.fifoId == u.Fifo()
    ensures Run(u, run).fifoId == Run(u, run).Fifo() <==> !exists i :: FifoIdLostSince(u, run, i)
  {
    hide Next, Inv, FifoIdWrong;
    var n := |run|;
    var flag := seq(n + 1, i requires 0 <= i <= n => FifoIdWrong(At(u, run, i)));
    var up := seq(n, i requires 0 <= i < n => LostAt(u, run, i));
    var down := seq(n, i requires 0 <= i < n => RestoredAt(u, run, i));
    forall i | 0 <= i < n
      ensures flag[i + 1] <==> up[i] || (flag[i] && !down[i])
    {
      FifoIdImplies(u, run, i);
      AtNext(u, run, i);
      FifoIdStep(At(u, run, i), run[i]);
    }
    AtEnds(u, run);
    FifoIdCompared(u);
    FifoIdCompared(Run(u, run));
    SetIff(flag, up, down);
    assert forall i :: 0 <= i < n ==> up[i] == LostAt(u, run, i);
    assert forall i :: 0 <= i < n ==> down[i] == RestoredAt(u, run, i);
    forall i: nat | i < n
      ensures SetSince(up, down, i) <==> FifoIdLostSince(u, run, i)
    {
    }
  }

  lemma FifoIdCompared(u: Uart)
    ensures FifoIdWrong(u) <==> u.fifoId != u.Fifo()
  {
  }

  /** What the guest sees of it. */
  lemma IirShowsFifoId(u: Uart, addr: nat, flags: ModemFlags)
    requires addr % 8 == 2
    ensures ReadValue(u, addr % 8, flags) & 0xC0 == if u.fifoId then 0xC0 else 0x00
  {
    IdentIsLow(u);
  }

  lemma IdentIsLow(u: Uart)
    ensures Ident(u) & 0xC0 == 0
  {
  }

  /** FIFOs on, reset: the FIFOs are still on, IIR says they are off, and a driver that switches them on
      again the same way does not change that. */
  lemma ResetHidesFifos(taken: bool, flags: ModemFlags)
    ensures var on := Step.Write(2, UART_FCR_FE, taken, flags);
            var v := Run(START, [on, Reset]);
            && v.Fifo() && !v.fifoId && FifoIdLostSince(START, [on, Reset], 1)
            && Run(START, [on, Reset, on]) == v
  {
    hide WriteReg, ReadReg, Inv;
    var on := Step.Write(2, UART_FCR_FE, taken, flags);
    var u1 := Next(START, on);
    SwitchOnFromReset(UART_FCR_FE, 1, flags);
    NextKeepsInv(START, on);
    AtEnds(START, [on, Reset]);
    AtNext(START, [on, Reset], 0);
    AtNext(START, [on, Reset], 1);
    RunLast(START, [on, Reset], on);
    SameFcr(Next(u1, Reset), UART_FCR_FE, flags);
    assert [on, Reset] + [on] == [on, Reset, on];
  }

  /** The first FCR write after power-up. */
  lemma SwitchOnFromReset(val: bv8, level: nat, flags: ModemFlags)
    requires (val == 0x01 && level == 1) || (val == 0xC1 && level == 14)
    ensures WriteReg(START, 2, val, flags)
      == START.(g := START.g.(fcr := val), rx := START.rx.(itl := level), fifoId := true)
    ensures START.(g := START.g.(fcr := val)).Fifo() && Inv(START)
  {
    assert val & 0xC9 == val;
    assert TriggerLevel(val) == level;
  }

  lemma SameFcr(u: Uart, val: bv8, flags: ModemFlags)
    requires |u.rx.fifo| <= UART_FIFO_LENGTH && u.g.fcr == val
    ensures WriteReg(u, 2, val, flags) == u
  {
  }

  // ---------- Bytes below the trigger level

  /** Bytes are in the FIFO, and neither is the timeout reported nor its timer armed. */
  predicate Untimed(u: Uart) {
    u.Fifo() && u.rx.fifo != [] && !u.rx.timer && !u.rx.timeout
  }

  /** Such bytes below the trigger level: unless more comes in, nothing will announce them. */
  predicate Stuck(u: Uart) { Untimed(u) && |u.rx.fifo| < u.rx.itl }

  /** With data interrupts enabled, bytes in the FIFO are stuck exactly if neither the trigger level nor the
      timeout announces them, and no timer runs that would. */
  lemma StuckIsSilent(u: Uart)
    requires Inv(u) && u.Fifo() && u.rx.fifo != [] && u.g.ier & UART_IER_RDI != 0
    ensures Stuck(u) <==> !u.rx.timer && !Asserted(u, DataReady) && !Asserted(u, CharTimeout)
  {
  }

  /** A break pushes its null byte without arming the timer. */
  predicate ComesUntimed(u: Uart, s: Step) {
    s.BreakIn? && u.Fifo() && !u.rx.timer && !u.rx.timeout
  }

  /** Data, a read, an expired timer, a flush or a reset. */
  predicate Frees(u: Uart, s: Step) {
    || s.Receive? || s.FifoTimeout? || FlushesFifo(u, s) || IsFifoRead(u, s)
    || (IsThrWrite(u.g.lcr, s) && u.Loop())
  }

  lemma UntimedStep(u: Uart, s: Step)
    requires Inv(u) && Possible(s)
    ensures Untimed(Next(u, s)) <==> ComesUntimed(u, s) || (Untimed(u) && !Frees(u, s))
  {
    match s {
      case Write(addr, val, _, flags) => UntimedWrite(u, s);
      case Read(addr, flags) => UntimedRead(u, s);
      case _ =>
    }
  }

  lemma UntimedWrite(u: Uart, s: Step)
    requires Inv(u) && s.Write?
    ensures Untimed(Next(u, s)) <==> Untimed(u) && !Frees(u, s)
  {
    var a, u' := s.addr % 8, Next(u, s);
    if a == 2 {
      UntimedFcr(u, s.val);
    } else {
      hide Inv, WriteFcr, IerModem, TriggerLevel;
      if !(a == 0 && !u.Dlab()) {
        assert u'.rx == u.rx && u'.g.fcr == u.g.fcr;
      }
    }
  }

  lemma UntimedFcr(u: Uart, val: bv8)
    requires Inv(u)
    ensures Untimed(WriteFcr(u, val)) <==> Untimed(u) && !Flushes(u.g.fcr, val)
  {
    hide TriggerLevel, Inv;
    FifoEnableKept(val);
    if u.g.fcr & UART_FCR_FE != val & UART_FCR_FE {
      FlushOnSwitch(u.g.fcr, val);
    }
  }

  lemma FlushOnSwitch(fcr: bv8, val: bv8)
    requires fcr & UART_FCR_FE != val & UART_FCR_FE
    ensures Flushes(fcr, val)
  {
  }

  lemma UntimedRead(u: Uart, s: Step)
    requires Inv(u) && s.Read?
    ensures Untimed(Next(u, s)) <==> Untimed(u) && !Frees(u, s)
  {
    hide Polled, PollLines, Inv;
  }

  ghost predicate QuietBreakAt(u: Uart, run: seq<Step>, i: nat)
    requires Inv(u) && Runnable(run) && i < |run|
  {
    ComesUntimed(At(u, run, i), run[i])
  }

  ghost predicate FreedAt(u: Uart, run: seq<Step>, i: nat)
    requires Inv(u) && Runnable(run) && i < |run|
  {
    Frees(At(u, run, i), run[i])
  }

  /** Step i was such a break and no later step freed the FIFO. */
  ghost predicate UntimedSince(u: Uart, run: seq<Step>, i: nat)
    requires Inv(u) && Runnable(run)
  {
    i < |run| && QuietBreakAt(u, run, i) && forall k :: i < k < |run| ==> !FreedAt(u, run, k)
  }

  /** Over every run: bytes are in the FIFO with neither timeout nor timer exactly if a break came while
      there was neither, and no step freed the FIFO since. */
  lemma UntimedIff(u: Uart, run: seq<Step>)
    requires Inv(u) && Runnable(run) && !Untimed(u)
    ensures Untimed(Run(u, run)) <==> exists i :: UntimedSince(u, run, i)
  {
    hide Next, Inv, Untimed, ComesUntimed, Frees;
    var n := |run|;
    var flag := seq(n + 1, i requires 0 <= i <= n => Untimed(At(u, run, i)));
    var up := seq(n, i requires 0 <= i < n => QuietBreakAt(u, run, i));
    var down := seq(n, i requires 0 <= i < n => FreedAt(u, run, i));
    forall i | 0 <= i < n
      ensures flag[i + 1] <==> up[i] || (flag[i] && !down[i])
    {
      AtNext(u, run, i);
      UntimedStep(At(u, run, i), run[i]);
    }
    AtEnds(u, run);
    SetIff(flag, up, down);
    assert forall i :: 0 <= i < n ==> up[i] == QuietBreakAt(u, run, i);
    assert forall i :: 0 <= i < n ==> down[i] == FreedAt(u, run, i);
    forall i: nat | i < n
      ensures SetSince(up, down, i) <==> UntimedSince(u, run, i)
    {
    }
  }

  /** After a run bytes wait below the trigger level unannounced exactly if they are fewer than the level,
      a break came while no timer and no timeout was pending, and nothing freed the FIFO since. */
  lemma StuckIff(u: Uart, run: seq<Step>)
    requires Inv(u) && Runnable(run) && !Untimed(u)
    ensures var v := Run(u, run);
            Stuck(v) <==> |v.rx.fifo| < v.rx.itl && exists i :: UntimedSince(u, run, i)
  {
    UntimedIff(u, run);
  }

  /** An FCR write that changes the level and empties nothing can start the state or end it. */
  lemma LevelDecides(u: Uart, val: bv8)
    requires Inv(u) && Untimed(u) && u.g.fcr != val && !Flushes(u.g.fcr, val)
    ensures Stuck(WriteFcr(u, val)) <==> |u.rx.fifo| < TriggerLevel(val)
  {
    hide TriggerLevel, Inv;
    UntimedFcr(u, val);
    if val & UART_FCR_FE != u.g.fcr & UART_FCR_FE {
      FlushOnSwitch(u.g.fcr, val);
    }
  }

  /** Without breaks every byte in the enabled FIFO has its timeout reported or its timer running. */
  lemma NoBreakNeverStuck(u: Uart, run: seq<Step>)
    requires Inv(u) && Runnable(run) && !Untimed(u) && forall i :: 0 <= i < |run| ==> !run[i].BreakIn?
    ensures var v := Run(u, run); v.Fifo() && v.rx.fifo != [] ==> v.rx.timer || v.rx.timeout
    ensures !Stuck(Run(u, run))
  {
    UntimedIff(u, run);
  }

  /** FIFOs on with a trigger level of 14, all interrupts enabled but the one for line status, and a break:
      its null byte waits, the line is low, and no timer will raise it. */
  lemma BreakSticks(taken: bool, flags: ModemFlags)
    ensures var run := [Step.Write(2, 0xC1, taken, flags), Step.Write(1, UART_IER_RDI, taken, flags), BreakIn];
            var v := Run(START, run);
            Stuck(v) && v.rx.fifo == [0] && Ident(v) == UART_IIR_NO_INT && UntimedSince(START, run, 2)
  {
    hide WriteReg, ReadReg, Inv;
    var w1, w2 := Step.Write(2, 0xC1, taken, flags), Step.Write(1, UART_IER_RDI, taken, flags);
    var run := [w1, w2, BreakIn];
    SwitchOnFromReset(0xC1, 14, flags);
    AtEnds(START, run);
    AtNext(START, run, 0);
    AtNext(START, run, 1);
    AtNext(START, run, 2);
    var u1 := Next(START, w1);
    EnableRdi(u1, flags);
    QuietBreak(Next(u1, w2));
  }

  lemma EnableRdi(u: Uart, flags: ModemFlags)
    requires !u.Dlab() && |u.rx.fifo| <= UART_FIFO_LENGTH
    ensures var v := WriteReg(u, 1, UART_IER_RDI, flags);
            v.g == u.g.(ier := UART_IER_RDI) && v.rx == u.rx && v.fifoId == u.fifoId
  {
    assert UART_IER_RDI & 0x0f == UART_IER_RDI;
  }

  lemma QuietBreak(u: Uart)
    requires u.Fifo() && u.rx == START.rx.(itl := 14) && u.g.ier == UART_IER_RDI
    ensures var v := Next(u, BreakIn); Stuck(v) && v.rx.fifo == [0] && Ident(v) == UART_IIR_NO_INT
  {
  }

  /** The same with a trigger level of 1: the byte is announced at once as data ready. Raising the level to
      14 silences it, and lowering it announces it again. */
  lemma LevelSticks(taken: bool, flags: ModemFlags)
    ensures var low, high, rdi := Step.Write(2, 0x01, taken, flags), Step.Write(2, 0xC1, taken, flags), Step.Write(1, UART_IER_RDI, taken, flags);
            var v := Run(START, [low, rdi, BreakIn]);
            && Untimed(v) && !Stuck(v) && Ident(v) == UART_IIR_RDI
            && Stuck(Next(v, high)) && Ident(Next(v, high)) == UART_IIR_NO_INT
            && !Stuck(Next(Next(v, high), low)) && Ident(Next(Next(v, high), low)) == UART_IIR_RDI
  {
    hide WriteReg, ReadReg, Inv;
    var low, high, rdi := Step.Write(2, 0x01, taken, flags), Step.Write(2, 0xC1, taken, flags), Step.Write(1, UART_IER_RDI, taken, flags);
    var run := [low, rdi, BreakIn];
    SwitchOnFromReset(0x01, 1, flags);
    AtEnds(START, run);
    AtNext(START, run, 0);
    AtNext(START, run, 1);
    AtNext(START, run, 2);
    var u1 := Next(START, low);
    EnableRdi(u1, flags);
    var v := Next(Next(u1, rdi), BreakIn);
    BreakAtLevelOne(Next(u1, rdi));
    LevelOnly(v, 0xC1, 14, flags);
    LevelOnly(Next(v, high), 0x01, 1, flags);
  }

  lemma BreakAtLevelOne(u: Uart)
    requires u.Fifo() && u.rx == START.rx.(itl := 1) && u.g.ier == UART_IER_RDI
    ensures var v := Next(u, BreakIn);
            v.g == u.g && v.rx == u.rx.(fifo := [0], bi := true, dr := true) && Ident(v) == UART_IIR_RDI
  {
  }

  /** One byte in the FIFO, nothing else pending, only data interrupts enabled. */
  lemma LevelOnly(u: Uart, val: bv8, level: nat, flags: ModemFlags)
    requires (val == 0x01 && level == 1) || (val == 0xC1 && level == 14)
    requires (u.g.fcr == 0x01 || u.g.fcr == 0xC1) && u.g.fcr != val && u.g.ier == UART_IER_RDI
    requires |u.rx.fifo| == 1 && u.rx.dr && !u.rx.timer && !u.rx.timeout
    ensures var v := WriteReg(u, 2, val, flags);
            && v.g == u.g.(fcr := val) && v.rx == u.rx.(itl := level)
            && Untimed(v) && (Stuck(v) <==> level == 14)
            && Ident(v) == if level == 14 then UART_IIR_NO_INT else UART_IIR_RDI
  {
    assert val & 0xC9 == val && TriggerLevel(val) == level;
    assert !Flushes(u.g.fcr, val);
  }
}
