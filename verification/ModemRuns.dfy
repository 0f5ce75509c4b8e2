/** What the delta bits of MSR mean over a run. */
module ModemRuns {
  import opened Latches
  import opened UartSpec
  import opened UartRuns

  datatype Line = Cts | Dsr | Ring | Carrier

  function Of(m: Modem, l: Line): bool {
    match l
    case Cts => m.cts
    case Dsr => m.dsr
    case Ring => m.ri
    case Carrier => m.dcd
  }

  /** The line values a step obtains from the backend, if it asks for them. */
  function PollBy(u: Uart, s: Step): ModemFlags {
    match s
    case ModemPoll(flags) => flags
    case Read(addr, flags) => if addr % 8 == 6 && !u.Loop() && u.m.poll >= 0 then flags else NotSupported
    case Write(addr, val, _, flags) =>
      if addr % 8 == 1 && !u.Dlab() && u.m.poll >= 0 && val & UART_IER_MSI != 0 then flags else NotSupported
    case _ => NotSupported
  }

  /** Steps that leave no delta: a reset, and an MSR read outside loopback. */
  predicate ClearsDeltas(u: Uart, s: Step) {
    s.Reset? || (s.Read? && s.addr % 8 == 6 && !u.Loop())
  }

  lemma ModemStep(u: Uart, s: Step)
    requires Inv(u) && Possible(s)
    ensures Next(u, s).m.delta ==
      if ClearsDeltas(u, s) then NO_DELTA
      else if PollBy(u, s).Tiocm? then DeltaAfter(u.m.line, u.m.delta, PollBy(u, s).lines)
      else u.m.delta
  {
    match s {
      case Write(addr, val, _, flags) => ModemWrite(u, addr % 8, val, flags);
      case Read(addr, flags) =>
      case _ =>
    }
  }

  lemma ModemWrite(u: Uart, a: nat, val: bv8, flags: ModemFlags)
    requires Inv(u)
    ensures WriteReg(u, a, val, flags).m.delta ==
      if a == 1 && !u.Dlab() && u.m.poll >= 0 && val & UART_IER_MSI != 0 && flags.Tiocm?
      then DeltaAfter(u.m.line, u.m.delta, flags.lines) else u.m.delta
  {
    assert (val & 0x0f) & UART_IER_MSI == val & UART_IER_MSI;
    match a {
      case 1 =>
      case 2 =>
      case _ =>
    }
  }

  ghost predicate ChangeAt(u: Uart, run: seq<Step>, i: nat, l: Line)
    requires Inv(u) && Runnable(run) && i < |run|
  {
    var p := PollBy(At(u, run, i), run[i]);
    p.Tiocm? && Of(p.lines, l) != Of(At(u, run, i).m.line, l)
  }

  ghost predicate AnyChangeAt(u: Uart, run: seq<Step>, i: nat)
    requires Inv(u) && Runnable(run) && i < |run|
  {
    var p := PollBy(At(u, run, i), run[i]);
    p.Tiocm? && p.lines != At(u, run, i).m.line
  }

  ghost predicate ClearedAt(u: Uart, run: seq<Step>, i: nat)
    requires Inv(u) && Runnable(run) && i < |run|
  {
    ClearsDeltas(At(u, run, i), run[i])
  }

  /** Step i polled a change of the line, and no step since then cleared the deltas. */
  ghost predicate ChangedSince(u: Uart, run: seq<Step>, l: Line, i: nat)
    requires Inv(u) && Runnable(run)
  {
    i < |run| && ChangeAt(u, run, i, l) && forall k :: i <= k < |run| ==> !ClearedAt(u, run, k)
  }

  /** Step i polled the fall of the ring line, no later poll saw any change at all, and no step since
      then cleared the deltas. */
  ghost predicate RingFellLast(u: Uart, run: seq<Step>, i: nat)
    requires Inv(u) && Runnable(run)
  {
    && i < |run| && ChangeAt(u, run, i, Ring) && At(u, run, i).m.line.ri
    && (forall k :: i < k < |run| ==> !AnyChangeAt(u, run, k))
    && (forall k :: i <= k < |run| ==> !ClearedAt(u, run, k))
  }

  /** DCTS, DDSR and DDCD: set iff some poll since the last clear saw the line change. */
  lemma DeltaMeansChange(u: Uart, run: seq<Step>, l: Line)
    requires Inv(u) && Runnable(run) && u.m.delta == NO_DELTA && l != Ring
    ensures Of(Run(u, run).m.delta, l) <==> exists i :: ChangedSince(u, run, l, i)
  {
    hide Next, Inv, ClearsDeltas, PollBy;
    var n := |run|;
    var flag := seq(n + 1, i requires 0 <= i <= n => Of(At(u, run, i).m.delta, l));
    var up := seq(n, i requires 0 <= i < n => ChangeAt(u, run, i, l) && !ClearedAt(u, run, i));
    var down := seq(n, i requires 0 <= i < n => ClearedAt(u, run, i));
    forall i | 0 <= i < n
      ensures flag[i + 1] <==> up[i] || (flag[i] && !down[i])
    {
      AtNext(u, run, i);
      ModemStep(At(u, run, i), run[i]);
    }
    AtEnds(u, run);
    SetIff(flag, up, down);
    assert forall i :: 0 <= i < n ==> up[i] == (ChangeAt(u, run, i, l) && !ClearedAt(u, run, i));
    assert forall i :: 0 <= i < n ==> down[i] == ClearedAt(u, run, i);
    forall i: nat | i < n
      ensures SetSince(up, down, i) <==> ChangedSince(u, run, l, i)
    {
    }
  }

  /** TERI: set iff the last poll that saw any change since the last clear saw the ring line fall. */
  lemma RingDeltaMeansLastFall(u: Uart, run: seq<Step>)
    requires Inv(u) && Runnable(run) && u.m.delta == NO_DELTA
    ensures Run(u, run).m.delta.ri <==> exists i :: RingFellLast(u, run, i)
  {
    hide Next, Inv, ClearsDeltas, PollBy;
    var n := |run|;
    var flag := seq(n + 1, i requires 0 <= i <= n => At(u, run, i).m.delta.ri);
    var up := seq(n, i requires 0 <= i < n => RingFallAt(u, run, i));
    var down := seq(n, i requires 0 <= i < n => AnyChangeAt(u, run, i) || ClearedAt(u, run, i));
    forall i | 0 <= i < n
      ensures flag[i + 1] <==> up[i] || (flag[i] && !down[i])
    {
      AtNext(u, run, i);
      ModemStep(At(u, run, i), run[i]);
      NoRingDeltaWhileHigh(At(u, run, i));
    }
    AtEnds(u, run);
    SetIff(flag, up, down);
    assert forall i :: 0 <= i < n ==> up[i] == RingFallAt(u, run, i);
    assert forall i :: 0 <= i < n ==> down[i] == (AnyChangeAt(u, run, i) || ClearedAt(u, run, i));
    forall i: nat | i < n
      ensures SetSince(up, down, i) <==> RingFellLast(u, run, i)
    {
    }
  }

  /** Step i polls the fall of the ring line and does not clear it at once. */
  ghost predicate RingFallAt(u: Uart, run: seq<Step>, i: nat)
    requires Inv(u) && Runnable(run) && i < |run|
  {
    ChangeAt(u, run, i, Ring) && At(u, run, i).m.line.ri && !ClearedAt(u, run, i)
  }

  lemma NoRingDeltaWhileHigh(u: Uart)
    requires Inv(u)
    ensures u.m.delta.ri ==> !u.m.line.ri
  {
  }

  function DeltaBit(l: Line): bv8 {
    match l
    case Cts => 0x01
    case Dsr => 0x02
    case Ring => 0x04
    case Carrier => 0x08
  }

  /** What an MSR read outside loopback reports after a run: for each of the three lines, whether
      a poll since the last such read or reset, or the poll of this read itself, saw it change. */
  lemma MsrReadReports(u: Uart, run: seq<Step>, flags: ModemFlags, l: Line)
    requires Inv(u) && Runnable(run) && u.m.delta == NO_DELTA && l != Ring && !Run(u, run).Loop()
    ensures var v := Run(u, run);
            ReadValue(v, 6, flags) & DeltaBit(l) != 0 <==>
              || (exists i :: ChangedSince(u, run, l, i))
              || (v.m.poll >= 0 && flags.Tiocm? && Of(flags.lines, l) != Of(v.m.line, l))
  {
    hide ReadValue, Msr, DeltaBit, Inv, ChangedSince;
    DeltaMeansChange(u, run, l);
    var p := Polled(Run(u, run).m, flags);
    MsrValue(Run(u, run), flags);
    MsrBit(p.line, p.delta, l);
  }

  /** And the ring bit: if the poll of this read sees any change, whether that is a fall of the ring line;
      otherwise whether the last poll with a change since the last clear saw it fall. */
  lemma MsrReadReportsRing(u: Uart, run: seq<Step>, flags: ModemFlags)
    requires Inv(u) && Runnable(run) && u.m.delta == NO_DELTA && !Run(u, run).Loop()
    ensures var v := Run(u, run);
            ReadValue(v, 6, flags) & DeltaBit(Ring) != 0 <==>
              if v.m.poll >= 0 && flags.Tiocm? && flags.lines != v.m.line then v.m.line.ri && !flags.lines.ri
              else exists i :: RingFellLast(u, run, i)
  {
    hide ReadValue, Msr, DeltaBit, RingFellLast;
    RingDeltaMeansLastFall(u, run);
    var p := Polled(Run(u, run).m, flags);
    MsrValue(Run(u, run), flags);
    MsrBit(p.line, p.delta, Ring);
  }

  lemma MsrValue(u: Uart, flags: ModemFlags)
    requires !u.Loop()
    ensures ReadValue(u, 6, flags) == Msr(Polled(u.m, flags).line, Polled(u.m, flags).delta)
  {
  }

  lemma MsrBit(line: Modem, delta: Modem, l: Line)
    ensures Msr(line, delta) & DeltaBit(l) != 0 <==> Of(delta, l)
  {
  }

  /** The ring line rises, falls, and then CTS changes: TERI is gone although nobody has read MSR. */
  lemma RingDeltaCanBeLost()
    ensures var high := Modem(true, true, true, true);
            var low := Modem(true, true, false, true);
            var run := [ModemPoll(Tiocm(high)), ModemPoll(Tiocm(low)), ModemPoll(Tiocm(low.(cts := false)))];
            && Run(START, run[..2]).m.delta.ri
            && ChangedSince(START, run, Ring, 1) && !Run(START, run).m.delta.ri
  {
    var high := Modem(true, true, true, true);
    var low := Modem(true, true, false, true);
    var run := [ModemPoll(Tiocm(high)), ModemPoll(Tiocm(low)), ModemPoll(Tiocm(low.(cts := false)))];
    assert run[..1] == [run[0]] && run[..2] == [run[0], run[1]];
    AtEnds(START, run);
    AtNext(START, run, 0);
    AtNext(START, run, 1);
    AtNext(START, run, 2);
    assert run[..2][..1] == run[..1];
    AtEnds(START, run[..2]);
    AtNext(START, run[..2], 0);
    AtNext(START, run[..2], 1);
  }
}
