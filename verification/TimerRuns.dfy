/** The two timers of the receiver and the modem lines, and the character timeout, over runs. */
module TimerRuns {
  import opened Latches
  import opened UartSpec
  import opened UartRuns
  import opened ModemRuns
  import RegRuns

  datatype Flag = CharTimer | TimeoutFlag | PollTimer

  function Has(u: Uart, f: Flag): bool {
    match f
    case CharTimer => u.rx.timer
    case TimeoutFlag => u.rx.timeout
    case PollTimer => u.m.timer
  }

  /** A read of RBR with the FIFOs on. */
  predicate ReadsFifo(u: Uart, s: Step) { s.Read? && s.addr % 8 == 0 && !u.Dlab() && u.Fifo() }

  predicate FlushedByGuest(u: Uart, s: Step) { s.Write? && FlushesFifo(u, s) }

  /** The guest writes IER, and its modem interrupt bit then decides about polling. */
  predicate SetsPolling(u: Uart, s: Step) { s.Write? && s.addr % 8 == 1 && !u.Dlab() && u.m.poll >= 0 }

  /** The lines are asked for, by the poll timer or for an MSR read. */
  predicate AsksForLines(u: Uart, s: Step) { s.ModemPoll? || (s.Read? && s.addr % 8 == 6 && !u.Loop() && u.m.poll >= 0) }

  predicate ChangesLines(u: Uart, s: Step) {
    s.Write? && s.addr % 8 == 4 && u.m.poll >= 0 && RegRuns.McrIoctls(u.g.mcr, s.val) != []
  }

  /** The character timer is armed by data, and by a read that leaves some; the timeout is flagged when it
      expires over data; the poll timer is armed by a poll that finds the lines known and polling on, and by a
      change of the lines. */
  predicate Sets(u: Uart, s: Step, f: Flag) {
    match f
    case CharTimer =>
      || (u.Fifo() && (s.Receive? || (IsThrWrite(u.g.lcr, s) && u.Loop())))
      || (ReadsFifo(u, s) && |u.rx.fifo| > 1)
    case TimeoutFlag => s.FifoTimeout? && u.rx.fifo != []
    case PollTimer =>
      || (AsksForLines(u, s) && s.flags.Tiocm? && u.m.poll != 0)
      || (SetsPolling(u, s) && s.val / 8 % 2 == 1 && s.flags.Tiocm?)
      || ChangesLines(u, s)
  }

  /** The timer is off once it has expired or the guest has flushed the FIFO; a read takes the timeout back, and
      so does such a flush. A reset does nothing to any of them. */
  predicate Clears(u: Uart, s: Step, f: Flag) {
    match f
    case CharTimer => s.FifoTimeout? || FlushedByGuest(u, s)
    case TimeoutFlag => ReadsFifo(u, s) || FlushedByGuest(u, s)
    case PollTimer => AsksForLines(u, s) || SetsPolling(u, s)
  }

  // ---------- One step

  lemma FlagStep(u: Uart, s: Step, f: Flag)
    requires Inv(u) && Possible(s)
    ensures Has(Next(u, s), f) <==> Sets(u, s, f) || (Has(u, f) && !Clears(u, s, f))
  {
    hide Next, Inv;
    if f.PollTimer? {
      PollTimerStep(u, s);
    } else {
      ReceiverStep(u, s);
    }
  }

  lemma ReceiverStep(u: Uart, s: Step)
    requires Inv(u) && Possible(s)
    ensures Next(u, s).rx.timer <==> Sets(u, s, CharTimer) || (u.rx.timer && !Clears(u, s, CharTimer))
    ensures Next(u, s).rx.timeout <==> Sets(u, s, TimeoutFlag) || (u.rx.timeout && !Clears(u, s, TimeoutFlag))
  {
    hide Next, Inv, FlushesFifo;
    if s.Write? {
      ReceiverWrite(u, s);
    } else if s.Read? {
      ReceiverRead(u, s);
    } else {
      ReceiverOther(u, s);
    }
  }

  lemma ReceiverWrite(u: Uart, s: Step)
    requires Inv(u) && s.Write?
    ensures Next(u, s).rx.timer <==> (IsThrWrite(u.g.lcr, s) && u.Loop() && u.Fifo()) || (u.rx.timer && !FlushesFifo(u, s))
    ensures Next(u, s).rx.timeout <==> u.rx.timeout && !FlushesFifo(u, s)
  {
    hide WriteReg, TriggerLevel, Inv, Flushes;
    InvBounds(u);
    RxOfWrite(u, s.addr % 8, s.val, s.flags);
    NoFlushBySame(u.g.fcr, s.val);
  }

  lemma NoFlushBySame(fcr: bv8, val: bv8)
    ensures Flushes(fcr, val) ==> fcr != val
  {
  }

  lemma ReceiverRead(u: Uart, s: Step)
    requires Inv(u) && s.Read?
    ensures Next(u, s).rx.timer <==> (ReadsFifo(u, s) && |u.rx.fifo| > 1) || u.rx.timer
    ensures Next(u, s).rx.timeout <==> u.rx.timeout && !ReadsFifo(u, s)
  {
    hide ReadReg, Inv;
    RxOfRead(u, s.addr % 8, s.flags);
  }

  lemma ReceiverOther(u: Uart, s: Step)
    requires Inv(u) && Possible(s) && !s.Write? && !s.Read?
    ensures Next(u, s).rx.timer <==> (u.Fifo() && s.Receive?) || (u.rx.timer && !s.FifoTimeout?)
    ensures Next(u, s).rx.timeout <==> (s.FifoTimeout? && u.rx.fifo != []) || u.rx.timeout
  {
    hide WriteReg, ReadReg, Push;
  }

  lemma PollTimerStep(u: Uart, s: Step)
    requires Inv(u) && Possible(s)
    ensures Next(u, s).m.timer <==> Sets(u, s, PollTimer) || (u.m.timer && !Clears(u, s, PollTimer))
  {
    hide WriteReg, Inv, DeltaAfter, RegRuns.McrIoctls;
    InvBounds(u);
    match s {
      case Write(addr, val, _, flags) => PollTimerWrite(u, addr % 8, val, flags);
      case Read(addr, flags) =>
      case _ =>
    }
  }

  lemma PollTimerWrite(u: Uart, a: nat, val: bv8, flags: ModemFlags)
    requires |u.rx.fifo| <= UART_FIFO_LENGTH
    ensures WriteReg(u, a, val, flags).m.timer ==
      if a == 1 && !u.Dlab() && u.m.poll >= 0 then val / 8 % 2 == 1 && flags.Tiocm?
      else u.m.timer || (a == 4 && u.m.poll >= 0 && RegRuns.McrIoctls(u.g.mcr, val) != [])
  {
    hide WriteThr, WriteIer, WriteFcr, WriteLcr, WriteMcr, RegRuns.McrIoctls;
    TimerOfIer(u, val, flags);
    TimerOfMcr(u, val);
    TimerOfOthers(u, val);
    match a {
      case 0 =>
      case 1 =>
      case 2 =>
      case 3 =>
      case 4 =>
      case _ =>
    }
  }

  lemma TimerOfIer(u: Uart, val: bv8, flags: ModemFlags)
    ensures WriteIer(u, val, flags).m.timer == if u.m.poll >= 0 then val / 8 % 2 == 1 && flags.Tiocm? else u.m.timer
  {
    hide DeltaAfter;
    assert (val & 0x0f) & UART_IER_MSI == val & UART_IER_MSI;
    RegRuns.EnableBits(val);
  }

  lemma TimerOfMcr(u: Uart, val: bv8)
    ensures WriteMcr(u, val).m.timer == (u.m.timer || (u.m.poll >= 0 && RegRuns.McrIoctls(u.g.mcr, val) != []))
  {
    RegRuns.LineBits(val);
  }

  lemma TimerOfOthers(u: Uart, val: bv8)
    requires |u.rx.fifo| <= UART_FIFO_LENGTH
    ensures WriteThr(u, val).m == u.m && WriteFcr(u, val).m == u.m && WriteLcr(u, val).m == u.m
  {
    hide ReceiveRx, FcrRx;
  }

  // ---------- Runs

  ghost predicate SetAt(u: Uart, run: seq<Step>, f: Flag, i: nat)
    requires Inv(u) && Runnable(run) && i < |run|
  {
    Sets(At(u, run, i), run[i], f)
  }

  ghost predicate ClearedAt(u: Uart, run: seq<Step>, f: Flag, i: nat)
    requires Inv(u) && Runnable(run) && i < |run|
  {
    Clears(At(u, run, i), run[i], f)
  }

  ghost predicate StillSet(u: Uart, run: seq<Step>, f: Flag, i: nat)
    requires Inv(u) && Runnable(run)
  {
    i < |run| && SetAt(u, run, f, i) && forall k :: i < k < |run| ==> !ClearedAt(u, run, f, k)
  }

  /** Over every run: a timer is armed, and the timeout flagged, exactly if some step set it and no later one
      cleared it. */
  lemma TimerIff(u: Uart, run: seq<Step>, f: Flag)
    requires Inv(u) && Runnable(run) && !Has(u, f)
    ensures Has(Run(u, run), f) <==> exists i :: StillSet(u, run, f, i)
  {
    hide Next, Inv, Has, Sets, Clears;
    var n := |run|;
    var flag := seq(n + 1, i requires 0 <= i <= n => Has(At(u, run, i), f));
    var up := seq(n, i requires 0 <= i < n => SetAt(u, run, f, i));
    var down := seq(n, i requires 0 <= i < n => ClearedAt(u, run, f, i));
    forall i | 0 <= i < n
      ensures flag[i + 1] <==> up[i] || (flag[i] && !down[i])
    {
      AtNext(u, run, i);
      FlagStep(At(u, run, i), run[i], f);
    }
    AtEnds(u, run);
    SetIff(flag, up, down);
    assert forall i :: 0 <= i < n ==> up[i] == SetAt(u, run, f, i);
    assert forall i :: 0 <= i < n ==> down[i] == ClearedAt(u, run, f, i);
    forall i: nat | i < n
      ensures SetSince(up, down, i) <==> StillSet(u, run, f, i)
    {
    }
  }

  /** A reset forgets neither the timeout nor its timer, although it empties the FIFO: once data interrupts are
      enabled again, IIR reports a timeout of data that is gone. */
  lemma TimeoutOutlivesReset(u: Uart, taken: bool, flags: ModemFlags)
    requires Inv(u) && u.rx.timeout
    ensures var v := Next(Next(u, Reset), Step.Write(1, 0x01, taken, flags));
            v.rx.fifo == [] && !v.rx.dr && v.rx.timeout && v.rx.timer == u.rx.timer && Ident(v) == 12
  {
    hide IerModem;
    assert 0x01 & 0x0f == 0x01 as bv8;
  }
}
