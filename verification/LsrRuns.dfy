/** What a read of the line status register tells the guest, over runs. */
module LsrRuns {
  import opened Latches
  import opened UartSpec
  import opened UartRuns
  import opened RbrRuns

  /** The bits of an LSR read: the transmitter always empty (0x60), no parity or framing error and no FIFO
      error (0x8C), and one bit each for break, overrun and data. */
  lemma LsrBits(u: Uart, addr: nat, flags: ModemFlags)
    requires addr % 8 == 5
    ensures var v := ReadValue(u, addr % 8, flags);
            && v & 0x60 == 0x60 && v & 0x8C == 0
            && (v & 0x01 != 0 <==> u.rx.dr) && (v & 0x02 != 0 <==> u.rx.oe) && (v & 0x10 != 0 <==> u.rx.bi)
  {
  }

  predicate IsLsrRead(s: Step) { s.Read? && s.addr % 8 == 5 }

  /** A read of RBR that leaves nothing unread behind: with the FIFOs off, or of the last byte. */
  predicate EmptiesReceiver(u: Uart, s: Step) {
    s.Read? && s.addr % 8 == 0 && !u.Dlab() && (u.Fifo() ==> |u.rx.fifo| <= 1)
  }

  /** A byte reaches the receiver: from the backend, as a break, or looped back. */
  predicate Arrives(u: Uart, s: Step) {
    s.Receive? || s.BreakIn? || (IsThrWrite(u.g.lcr, s) && u.Loop())
  }

  /** How many bytes a step brings to the FIFO or RBR. A break goes to the FIFO even while it is off. */
  function Brings(u: Uart, s: Step): nat {
    match s
    case Receive(buf) => |buf|
    case BreakIn => 1
    case Write(_, _, _, _) => if Arrives(u, s) then 1 else 0
    case _ => 0
  }

  /** More bytes come than the 16 places of the FIFO hold, or a byte comes to RBR on top of an unread one. */
  predicate Overruns(u: Uart, s: Step) {
    if u.Fifo() || s.BreakIn? then |u.rx.fifo| + Brings(u, s) > 16 && Arrives(u, s)
    else Arrives(u, s) && u.rx.dr
  }

  // ---------- One step

  /** What a step does to the three flags. */
  lemma FlagsStep(u: Uart, s: Step)
    requires Inv(u) && Possible(s)
    ensures var v := Next(u, s);
            && (v.rx.dr <==> Arrives(u, s) || (u.rx.dr && !EmptiesReceiver(u, s) && !s.Reset?))
            && (v.rx.oe <==> Overruns(u, s) || (u.rx.oe && !IsLsrRead(s) && !s.Reset?))
            && (v.rx.bi <==> s.BreakIn? || (u.rx.bi && !EmptiesReceiver(u, s) && !IsLsrRead(s) && !s.Reset?))
  {
    match s {
      case Write(addr, val, _, flags) => FlagsWrite(u, s);
      case Read(addr, flags) => FlagsRead(u, s);
      case _ =>
    }
  }

  lemma FlagsWrite(u: Uart, s: Step)
    requires Inv(u) && s.Write?
    ensures var v := Next(u, s);
            && (v.rx.dr <==> Arrives(u, s) || u.rx.dr) && (v.rx.oe <==> Overruns(u, s) || u.rx.oe) && v.rx.bi == u.rx.bi
  {
    hide WriteReg, TriggerLevel, Inv;
    InvBounds(u);
    RxOfWrite(u, s.addr % 8, s.val, s.flags);
  }

  lemma FlagsRead(u: Uart, s: Step)
    requires Inv(u) && s.Read?
    ensures var v := Next(u, s);
            && (v.rx.dr <==> u.rx.dr && !EmptiesReceiver(u, s))
            && (v.rx.oe <==> u.rx.oe && !IsLsrRead(s))
            && (v.rx.bi <==> u.rx.bi && !EmptiesReceiver(u, s) && !IsLsrRead(s))
  {
    hide ReadReg;
    RxOfRead(u, s.addr % 8, s.flags);
  }

  // ---------- Runs

  datatype Flag = DataReadyFlag | OverrunFlag | BreakFlag

  function Has(u: Uart, f: Flag): bool {
    match f
    case DataReadyFlag => u.rx.dr
    case OverrunFlag => u.rx.oe
    case BreakFlag => u.rx.bi
  }

  function Mask(f: Flag): bv8 {
    match f
    case DataReadyFlag => 0x01
    case OverrunFlag => 0x02
    case BreakFlag => 0x10
  }

  predicate Sets(u: Uart, s: Step, f: Flag) {
    match f
    case DataReadyFlag => Arrives(u, s)
    case OverrunFlag => Overruns(u, s)
    case BreakFlag => s.BreakIn?
  }

  predicate Clears(u: Uart, s: Step, f: Flag) {
    match f
    case DataReadyFlag => EmptiesReceiver(u, s) || s.Reset?
    case OverrunFlag => IsLsrRead(s) || s.Reset?
    case BreakFlag => EmptiesReceiver(u, s) || IsLsrRead(s) || s.Reset?
  }

  ghost predicate SetAt(u: Uart, run: seq<Step>, f: Flag, i: nat)
    requires Inv(u) && Runnable(run) && i < |run|
  {
    Sets(At(u, run, i), run[i], f)
  }

  ghost predicate ClearedAt(u: Uart, run: seq<Step>, f: Flag, i: nat)
    requires Inv(u) && Runnable(run) && i < |run|
  {
    Clears(At(u, run, i), run[i], f)
  }

  /** Step i sets the flag and no later step clears it. */
  ghost predicate StillSet(u: Uart, run: seq<Step>, f: Flag, i: nat)
    requires Inv(u) && Runnable(run)
  {
    i < |run| && SetAt(u, run, f, i) && forall k :: i < k < |run| ==> !ClearedAt(u, run, f, k)
  }

  lemma FlagIff(u: Uart, run: seq<Step>, f: Flag)
    requires Inv(u) && Runnable(run) && !Has(u, f)
    ensures Has(Run(u, run), f) <==> exists i :: StillSet(u, run, f, i)
  {
    hide Next, Inv, Has, Sets, Clears;
    var n := |run|;
    var flag := seq(n + 1, i requires 0 <= i <= n => Has(At(u, run, i), f));
    var up := seq(n, i requires 0 <= i < n => SetAt(u, run, f, i));
    var down := seq(n, i requires 0 <= i < n => ClearedAt(u, run, f, i));
    forall i | 0 <= i < n
      ensures flag[i + 1] <==> up[i] || (flag[i] && !down[i])
    {
      AtNext(u, run, i);
      FlagStep(At(u, run, i), run[i], f);
    }
    AtEnds(u, run);
    SetIff(flag, up, down);
    assert forall i :: 0 <= i < n ==> up[i] == SetAt(u, run, f, i);
    assert forall i :: 0 <= i < n ==> down[i] == ClearedAt(u, run, f, i);
    forall i: nat | i < n
      ensures SetSince(up, down, i) <==> StillSet(u, run, f, i)
    {
    }
  }

  lemma FlagStep(u: Uart, s: Step, f: Flag)
    requires Inv(u) && Possible(s)
    ensures Has(Next(u, s), f) <==> Sets(u, s, f) || (Has(u, f) && !Clears(u, s, f))
  {
    hide Next;
    FlagsStep(u, s);
  }

  /** An LSR read after any run from a receiver without flags. Data: some byte arrived since the last reset and
      the last read that left nothing unread. Overrun: since the last reset and the last LSR read more came
      than there was room for. Break: one came since the last reset, the last LSR read and the last read that
      left nothing unread. */
  lemma LsrReadReports(u: Uart, run: seq<Step>, addr: nat, flags: ModemFlags, f: Flag)
    requires Inv(u) && Runnable(run) && !Has(u, f) && addr % 8 == 5
    ensures var v := ReadValue(Run(u, run), addr % 8, flags);
            && (v & Mask(f) != 0 <==> exists i :: StillSet(u, run, f, i))
            && v & 0x60 == 0x60 && v & 0x8C == 0
  {
    hide ReadValue, StillSet, Inv;
    FlagIff(u, run, f);
    LsrBits(Run(u, run), addr, flags);
  }

  /** Bit 0 and the bytes there are to read: it is set while an enabled FIFO holds one. With the FIFOs off it
      is set exactly while RBR holds an unread byte, or stands for none since the FIFOs were switched off
      over a set bit. */
  lemma DataBitMeansData(u: Uart, run: seq<Step>, addr: nat, flags: ModemFlags)
    requires Inv(u) && Runnable(run) && addr % 8 == 5
    ensures var v := Run(u, run); var unread := UnreadAfter(u, [], run);
            && (v.Fifo() && v.rx.fifo != [] ==> ReadValue(v, addr % 8, flags) & 0x01 != 0)
            && (!v.Fifo() ==> (ReadValue(v, addr % 8, flags) & 0x01 != 0 <==> unread != [] || Phantom(v, unread)))
  {
    hide ReadValue, Run, UnreadAfter;
    RbrLedger(u, [], run);
    LsrBits(Run(u, run), addr, flags);
  }

  /** LSR reads 0x60 at first, 0x61 with a byte received, 0x63 with a second one on top of it, and 0x71 with a
      break instead. */
  lemma LsrValues(flags: ModemFlags)
    ensures var u := Next(START, Receive([65]));
            && ReadValue(START, 5, flags) == 0x60 && ReadValue(u, 5, flags) == 0x61
            && ReadValue(Next(u, Receive([66])), 5, flags) == 0x63 && ReadValue(Next(u, BreakIn), 5, flags) == 0x71
  {
  }

  /** A break over an unread byte loses it and does not say so: with the FIFOs off it overwrites RBR without an
      overrun. */
  lemma BreakLosesQuietly(u: Uart)
    requires Inv(u) && !u.Fifo() && u.rx.dr && !u.rx.oe && |u.rx.fifo| < 16
    ensures var v := Next(u, BreakIn); v.rx.rbr == 0 && v.rx.dr && !v.rx.oe
  {
  }
}
