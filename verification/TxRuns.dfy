/** What a port transmits, and when: nothing while it is held up, so much an interrupt otherwise, and priority
    characters in any case. */
module TxRuns {
  import opened Latches
  import opened Rings
  import opened TxSpec

  // ---------- A port that is held up

  /** A step that ends with the tty stopped by software or hardware flow control puts no data into UART_TX, and
      takes nothing out of the ring unless it flushes it. */
  lemma HeldStepSendsNoData(chip: Chip, t: Tx, s: Step)
    requires Inv(chip, t) && (Next(chip, t, s).stopped || Next(chip, t, s).hwStopped)
    ensures DataOf(Next(chip, t, s).sent) == DataOf(t.sent)
    ensures Next(chip, t, s).ring == if s.FlushBuffer? then [] else t.ring + Intake(t, s)
  {
    hide DataOf, Next, Accepted;
    assert t.ring + [] == t.ring;
    if s.Write? || s.FlushChars? || s.StartTty? || s.CrtsctsOff? {
      HeldWhileStarting(chip, t, s);
    } else {
      HeldOtherwise(chip, t, s);
    }
  }

  lemma HeldWhileStarting(chip: Chip, t: Tx, s: Step)
    requires Inv(chip, t) && !Next(chip, t, s).Live() && (s.Write? || s.FlushChars? || s.StartTty? || s.CrtsctsOff?)
    ensures Next(chip, t, s).sent == t.sent && Next(chip, t, s).ring == if s.Write? then t.ring + Accepted(t, s.buf) else t.ring
  {
    hide StartTx, UartStart, Accepted;
    match s {
      case StartTty(idle) => StartKeepsFlow(chip, t.(stopped := false), idle);
      case CrtsctsOff(idle) => StartKeepsFlow(chip, t.(ctsFlow := false, hwStopped := false), idle);
      case Write(buf, idle) => StartKeepsFlow(chip, t.(ring := t.ring + Accepted(t, buf)), idle);
      case FlushChars(idle) => StartKeepsFlow(chip, t, idle);
    }
  }

  lemma HeldOtherwise(chip: Chip, t: Tx, s: Step)
    requires Inv(chip, t) && !Next(chip, t, s).Live() && !(s.Write? || s.FlushChars? || s.StartTty? || s.CrtsctsOff?)
    ensures DataOf(Next(chip, t, s).sent) == DataOf(t.sent)
    ensures Next(chip, t, s).ring == if s.FlushBuffer? then [] else if s.PutOne? then t.ring + Accepted(t, [s.b]) else t.ring
  {
    hide DataOf, StartTx, TxChars, CtsChange, Accepted;
    match s {
      case Interrupt => HeldLoadsNothing(chip, t);
      case CtsLine(active, idle) => HeldByCts(chip, t, active, idle);
      case SendXchar(ch, idle) => HeldStartsNothing(chip, t.(xchar := ch), idle);
      case _ =>
    }
  }

  lemma HeldLoadsNothing(chip: Chip, t: Tx)
    ensures var u := TxChars(chip, t);
            && u.stopped == t.stopped && u.hwStopped == t.hwStopped && u.ctsFlow == t.ctsFlow
            && (!t.Live() ==> DataOf(u.sent) == DataOf(t.sent) && u.ring == t.ring)
  {
    hide DataOf;
    if t.xchar != 0 {
      NoData(t.sent, XChar(t.xchar));
    }
  }

  lemma HeldStartsNothing(chip: Chip, t: Tx, idle: bool)
    ensures var u := StartTx(chip, t, idle);
            && u.stopped == t.stopped && u.hwStopped == t.hwStopped && u.ctsFlow == t.ctsFlow
            && (!t.Live() ==> DataOf(u.sent) == DataOf(t.sent) && u.ring == t.ring)
  {
    hide DataOf, TxChars;
    HeldLoadsNothing(chip, t.(thri := true));
  }

  lemma HeldByCts(chip: Chip, t: Tx, active: bool, idle: bool)
    ensures var u := CtsChange(chip, t, active, idle);
            && u.stopped == t.stopped && u.hwStopped == (if t.ctsFlow then !active else t.hwStopped) && u.ctsFlow == t.ctsFlow
            && (!u.Live() ==> DataOf(u.sent) == DataOf(t.sent) && u.ring == t.ring)
  {
    hide DataOf, StartTx;
    HeldStartsNothing(chip, t.(hwStopped := false), idle);
  }

  lemma StartKeepsFlow(chip: Chip, t: Tx, idle: bool)
    ensures var u := UartStart(chip, t, idle);
            u.stopped == t.stopped && u.hwStopped == t.hwStopped && u.ctsFlow == t.ctsFlow && (!t.Live() ==> u == t)
  {
    hide StartTx;
    HeldStartsNothing(chip, t, idle);
  }

  lemma NoData(sent: seq<Sent>, x: Sent)
    requires x.XChar?
    ensures DataOf(sent + [x]) == DataOf(sent)
  {
    DataOfConcat(sent, [x]);
    assert [x][1..] == [] && DataOf([x]) == [];
    assert DataOf(sent) + [] == DataOf(sent);
  }

  /** The tty is stopped, by software or hardware, at every point after the first. */
  ghost predicate HeldUp(chip: Chip, t: Tx, run: seq<Step>)
    requires Inv(chip, t)
    decreases |run|
  {
    run != [] ==>
      (NextKeepsInv(chip, t, run[0]);
       var u := Next(chip, t, run[0]);
       (u.stopped || u.hwStopped) && HeldUp(chip, u, run[1..]))
  }

  /** Over every run of a port that is held up: not one byte of data goes out, and what was accepted waits
      behind what was there. */
  lemma {:induction false} HeldUpSendsNoData(chip: Chip, t: Tx, run: seq<Step>)
    requires Inv(chip, t) && HeldUp(chip, t, run)
    ensures DataOf(Run(chip, t, run).sent) == DataOf(t.sent)
    ensures (forall i :: 0 <= i < |run| ==> !run[i].FlushBuffer?) ==> Run(chip, t, run).ring == t.ring + Taken(chip, t, run)
    decreases |run|
  {
    hide Next, DataOf, Intake;
    if run != [] {
      NextKeepsInv(chip, t, run[0]);
      var u := Next(chip, t, run[0]);
      HeldStepSendsNoData(chip, t, run[0]);
      HeldUpSendsNoData(chip, u, run[1..]);
      assert !run[0].FlushBuffer? ==> (t.ring + Intake(t, run[0])) + Taken(chip, u, run[1..]) == t.ring + Taken(chip, t, run);
    } else {
      assert t.ring + [] == t.ring;
    }
  }

  /** A transmit interrupt of a port that is held up: a priority character goes out; if there is none the
      interrupt is switched off, and the transmitter too where it can be. */
  lemma InterruptWhileHeld(chip: Chip, t: Tx)
    requires t.stopped || t.hwStopped
    ensures var u := TxChars(chip, t);
            && u.ring == t.ring
            && (t.xchar != 0 ==> u == t.(sent := t.sent + [XChar(t.xchar)], xchar := 0))
            && (t.xchar == 0 ==> u.sent == t.sent && !u.thri && (chip.is950 ==> u.txdis))
  {
  }

  /** Stopping switches off the interrupt, and the transmitter where it can be. */
  lemma StoppingIsQuiet(chip: Chip, t: Tx, s: Step)
    requires Inv(chip, t) && t.Live() && !Next(chip, t, s).Live()
    ensures var u := Next(chip, t, s); !u.thri && (chip.is950 ==> u.txdis) && u.sent == t.sent && u.ring == t.ring
  {
    hide StartTx, TxChars, UartStart, DataOf;
    match s {
      case Interrupt => HeldLoadsNothing(chip, t);
      case CtsLine(active, idle) => HeldByCts(chip, t, active, idle);
      case SendXchar(ch, idle) => HeldStartsNothing(chip, t.(xchar := ch), idle);
      case StartTty(idle) => StartKeepsFlow(chip, t.(stopped := false), idle);
      case CrtsctsOff(idle) => StartKeepsFlow(chip, t.(ctsFlow := false, hwStopped := false), idle);
      case Write(buf, idle) => StartKeepsFlow(chip, t.(ring := t.ring + Accepted(t, buf)), idle);
      case FlushChars(idle) => StartKeepsFlow(chip, t, idle);
      case _ =>
    }
  }

  // ---------- How much an interrupt sends

  /** Bytes per interrupt: what the chip takes, but at least one. */
  function PerInterrupt(chip: Chip): nat { if chip.loadsz < 1 then 1 else chip.loadsz }

  ghost function AfterInterrupts(chip: Chip, t: Tx, k: nat): (u: Tx)
    requires Inv(chip, t)
    ensures Inv(chip, u)
  {
    Run(chip, t, seq(k, _ => Interrupt))
  }

  lemma OneMoreInterrupt(chip: Chip, t: Tx, k: nat)
    requires Inv(chip, t)
    ensures AfterInterrupts(chip, t, 0) == t
    ensures k > 0 ==> AfterInterrupts(chip, t, k) == Next(chip, AfterInterrupts(chip, t, k - 1), Interrupt)
  {
    if k > 0 {
      hide Run, Next, Inv;
      var pre: seq<Step> := seq(k - 1, _ => Interrupt);
      assert pre + [Interrupt] == seq(k, _ => Interrupt);
      RunOneMore(chip, t, pre, Interrupt);
    }
  }

  /** Without a priority character, k interrupts of a live port send the first k times so many bytes, in order,
      and nothing else. */
  lemma {:induction false} InterruptsSend(chip: Chip, t: Tx, k: nat)
    requires Inv(chip, t) && t.Live() && t.xchar == 0
    ensures var n := Min(k * PerInterrupt(chip), |t.ring|); var u := AfterInterrupts(chip, t, k);
            u == t.(ring := t.ring[n..], sent := t.sent + AsData(t.ring[..n]), thri := u.thri)
    decreases k
  {
    hide AfterInterrupts, AsData, Next, PerInterrupt, Min;
    OneMoreInterrupt(chip, t, k);
    if k == 0 {
      NothingSent(t, PerInterrupt(chip));
    } else {
      InterruptsSend(chip, t, k - 1);
      var v := AfterInterrupts(chip, t, k - 1);
      OneInterrupt(chip, v);
      MinSteps(k, PerInterrupt(chip), |t.ring|);
      SendsMore(t, v, Next(chip, v, Interrupt), Min((k - 1) * PerInterrupt(chip), |t.ring|),
                Min(k * PerInterrupt(chip), |t.ring|));
    }
  }

  lemma NothingSent(t: Tx, l: nat)
    ensures Min(0 * l, |t.ring|) == 0 && t == t.(ring := t.ring[0..], sent := t.sent + AsData(t.ring[..0]))
  {
    assert 0 * l == 0;
    assert AsData(t.ring[..0]) == [];
  }

  lemma SendsMore(t: Tx, v: Tx, w: Tx, m: nat, n: nat)
    requires m <= n <= |t.ring| && v == t.(ring := t.ring[m..], sent := t.sent + AsData(t.ring[..m]), thri := v.thri)
    requires w == v.(ring := v.ring[n - m..], sent := v.sent + AsData(v.ring[..n - m]), thri := w.thri)
    ensures w == t.(ring := t.ring[n..], sent := t.sent + AsData(t.ring[..n]), thri := w.thri)
  {
    DataParts(t.sent, t.ring, m, n);
  }

  /** So many after k - 1 rounds, and what the next one adds. */
  lemma MinSteps(k: nat, l: nat, n: nat)
    requires k > 0
    ensures 0 <= (k - 1) * l
    ensures var m := Min((k - 1) * l, n); m <= Min(k * l, n) <= n && Min(l, n - m) == Min(k * l, n) - m
  {
    OneTimesMore(k, l);
  }

  lemma OneTimesMore(k: nat, l: nat)
    requires k > 0
    ensures 0 <= (k - 1) * l <= k * l == (k - 1) * l + l
  {
  }

  lemma OneInterrupt(chip: Chip, t: Tx)
    requires Inv(chip, t) && t.Live() && t.xchar == 0
    ensures var n := Min(PerInterrupt(chip), |t.ring|); var u := Next(chip, t, Interrupt);
            u == t.(ring := t.ring[n..], sent := t.sent + AsData(t.ring[..n]), thri := u.thri)
  {
  }

  lemma DataParts(sent: seq<Sent>, ring: seq<bv8>, m: nat, n: nat)
    requires m <= n <= |ring|
    ensures sent + AsData(ring[..m]) + AsData(ring[m..][..n - m]) == sent + AsData(ring[..n])
    ensures ring[m..][n - m..] == ring[n..]
  {
  }

  /** After an interrupt without a priority character THRI stays on exactly if it was, the port is live and
      there is more than this interrupt sent. */
  lemma InterruptKeepsThriIff(chip: Chip, t: Tx)
    requires t.xchar == 0
    ensures TxChars(chip, t).thri <==> t.thri && t.Live() && |t.ring| > PerInterrupt(chip)
  {
  }

  /** Starting the transmitter sends something only on a chip that raises no interrupt when THRI is enabled, if
      THRI was off and the transmitter idle: then it sends what an interrupt would. */
  lemma StartSends(chip: Chip, t: Tx, idle: bool)
    ensures var u := StartTx(chip, t, idle); var n := Min(PerInterrupt(chip), |t.ring|);
            && (t.thri || !chip.bugTxen || !idle ==> u.sent == t.sent && u.ring == t.ring && u.xchar == t.xchar && u.thri)
            && (!t.thri && chip.bugTxen && idle ==>
                  u.sent == t.sent + if t.xchar != 0 then [XChar(t.xchar)] else if t.Live() then AsData(t.ring[..n]) else [])
  {
    assert t.sent + [] == t.sent;
  }

  // ---------- What a write takes

  /** A write takes a first part of its bytes, and less than all only if that fills the ring to its 4095. */
  lemma WriteTakes(t: Tx, buf: seq<bv8>)
    requires |t.ring| <= CAPACITY
    ensures Accepted(t, buf) <= buf && |t.ring| + |Accepted(t, buf)| <= 4095
    ensures Accepted(t, buf) == buf || |t.ring| + |Accepted(t, buf)| == 4095
  {
  }

  // ---------- Priority characters

  function XCharsOf(sent: seq<Sent>): seq<bv8>
    decreases |sent|
  {
    if sent == [] then [] else (if sent[0].XChar? then [sent[0].b] else []) + XCharsOf(sent[1..])
  }

  function PendingX(t: Tx): seq<bv8> { if t.xchar == 0 then [] else [t.xchar] }

  lemma {:induction false} XCharsConcat(a: seq<Sent>, b: seq<Sent>)
    ensures XCharsOf(a + b) == XCharsOf(a) + XCharsOf(b)
    decreases |a|
  {
    if a == [] {
      assert a + b == b;
    } else {
      var c := a + b;
      assert c[0] == a[0] && c[1..] == a[1..] + b;
      XCharsConcat(a[1..], b);
    }
  }

  lemma {:induction false} NoXChars(d: seq<bv8>)
    ensures XCharsOf(AsData(d)) == []
    decreases |d|
  {
    if d != [] {
      NoXChars(d[1..]);
      assert AsData(d)[1..] == AsData(d[1..]);
    }
  }

  /** An interrupt, or a start that loads the chip by hand, sends the pending character, or none. */
  lemma XCharsOfTxChars(chip: Chip, t: Tx)
    ensures var u := TxChars(chip, t); XCharsOf(u.sent) + PendingX(u) == XCharsOf(t.sent) + PendingX(t)
  {
    if t.xchar != 0 {
      XCharsConcat(t.sent, [XChar(t.xchar)]);
      assert [XChar(t.xchar)][1..] == [] && XCharsOf([XChar(t.xchar)]) == [t.xchar];
    } else if t.Live() {
      XCharsConcat(t.sent, AsData(t.ring[..Load(chip, t)]));
      NoXChars(t.ring[..Load(chip, t)]);
    }
  }

  lemma XCharsOfStart(chip: Chip, t: Tx, idle: bool)
    ensures var u := StartTx(chip, t, idle); XCharsOf(u.sent) + PendingX(u) == XCharsOf(t.sent) + PendingX(t)
  {
    hide TxChars, XCharsOf;
    XCharsOfTxChars(chip, t.(thri := true));
  }

  lemma XCharsOfCts(chip: Chip, t: Tx, active: bool, idle: bool)
    ensures var u := CtsChange(chip, t, active, idle); XCharsOf(u.sent) + PendingX(u) == XCharsOf(t.sent) + PendingX(t)
  {
    hide StartTx, XCharsOf;
    XCharsOfStart(chip, t.(hwStopped := false), idle);
  }

  /** A priority character is set for sending; one that still waits is forgotten. */
  lemma XCharStep(chip: Chip, t: Tx, s: Step)
    requires Inv(chip, t)
    ensures var u := Next(chip, t, s);
            XCharsOf(u.sent) + PendingX(u)
              == XCharsOf(t.sent) + (if s.SendXchar? then PendingX(t.(xchar := s.ch)) else PendingX(t))
  {
    hide Next, XCharsOf;
    if s.Write? || s.FlushChars? || s.StartTty? || s.CrtsctsOff? {
      XCharWhileStarting(chip, t, s);
    } else {
      XCharOtherwise(chip, t, s);
    }
  }

  lemma XCharWhileStarting(chip: Chip, t: Tx, s: Step)
    requires Inv(chip, t) && (s.Write? || s.FlushChars? || s.StartTty? || s.CrtsctsOff?)
    ensures var u := Next(chip, t, s); XCharsOf(u.sent) + PendingX(u) == XCharsOf(t.sent) + PendingX(t)
  {
    hide StartTx, XCharsOf, Accepted;
    match s {
      case Write(buf, idle) => XCharsOfStart(chip, t.(ring := t.ring + Accepted(t, buf)), idle);
      case FlushChars(idle) => XCharsOfStart(chip, t, idle);
      case StartTty(idle) => XCharsOfStart(chip, t.(stopped := false), idle);
      case CrtsctsOff(idle) => XCharsOfStart(chip, t.(ctsFlow := false, hwStopped := false), idle);
    }
  }

  lemma XCharOtherwise(chip: Chip, t: Tx, s: Step)
    requires Inv(chip, t) && !(s.Write? || s.FlushChars? || s.StartTty? || s.CrtsctsOff?)
    ensures var u := Next(chip, t, s);
            XCharsOf(u.sent) + PendingX(u)
              == XCharsOf(t.sent) + (if s.SendXchar? then PendingX(t.(xchar := s.ch)) else PendingX(t))
  {
    hide StartTx, TxChars, XCharsOf, Accepted, CtsChange;
    match s {
      case Interrupt => XCharsOfTxChars(chip, t);
      case CtsLine(active, idle) => XCharsOfCts(chip, t, active, idle);
      case SendXchar(ch, idle) => XCharsOfStart(chip, t.(xchar := ch), idle);
      case _ =>
    }
  }

  /** The characters asked for over a run, as long as none is asked for while another waits. */
  function Asked(run: seq<Step>): seq<bv8>
    decreases |run|
  {
    if run == [] then [] else (if run[0].SendXchar? && run[0].ch != 0 then [run[0].ch] else []) + Asked(run[1..])
  }

  ghost predicate Patient(chip: Chip, t: Tx, run: seq<Step>)
    requires Inv(chip, t)
    decreases |run|
  {
    run != [] ==>
      && (run[0].SendXchar? ==> t.xchar == 0)
      && (NextKeepsInv(chip, t, run[0]); Patient(chip, Next(chip, t, run[0]), run[1..]))
  }

  /** Over every run, held up or not: priority characters go out once each, in the order in which they were
      asked for, but for one that still waits. */
  lemma {:induction false} XCharsGoOut(chip: Chip, t: Tx, run: seq<Step>)
    requires Inv(chip, t) && Patient(chip, t, run)
    ensures var u := Run(chip, t, run);
            XCharsOf(u.sent) + PendingX(u) == XCharsOf(t.sent) + PendingX(t) + Asked(run)
    decreases |run|
  {
    hide Next, XCharsOf;
    if run != [] {
      NextKeepsInv(chip, t, run[0]);
      XCharStep(chip, t, run[0]);
      XCharsGoOut(chip, Next(chip, t, run[0]), run[1..]);
      var first := if run[0].SendXchar? && run[0].ch != 0 then [run[0].ch] else [];
      assert (XCharsOf(t.sent) + PendingX(t)) + (first + Asked(run[1..])) == (XCharsOf(t.sent) + PendingX(t) + first) + Asked(run[1..]);
      assert XCharsOf(t.sent) + [] == XCharsOf(t.sent);
    }
  }

  // ---------- What holds a port up

  datatype Hold = BySoftware | ByHardware

  function IsHeld(t: Tx, h: Hold): bool { if h.BySoftware? then t.stopped else t.hwStopped }

  /** The tty is stopped; or CTS falls, or is found low when flow control is switched on. */
  predicate Stops(t: Tx, s: Step, h: Hold) {
    if h.BySoftware? then s.StopTty? else (s.CtsLine? && !s.active && t.ctsFlow) || (s.CrtsctsOn? && !s.cts)
  }

  predicate Releases(t: Tx, s: Step, h: Hold) {
    if h.BySoftware? then s.StartTty? else (s.CtsLine? && s.active && t.ctsFlow) || s.CrtsctsOff?
  }

  lemma HoldStep(chip: Chip, t: Tx, s: Step, h: Hold)
    requires Inv(chip, t)
    ensures IsHeld(Next(chip, t, s), h) <==> Stops(t, s, h) || (IsHeld(t, h) && !Releases(t, s, h))
    ensures Next(chip, t, s).ctsFlow <==> s.CrtsctsOn? || (t.ctsFlow && !s.CrtsctsOff?)
  {
    hide Next;
    if s.Write? || s.FlushChars? || s.StartTty? || s.CrtsctsOff? {
      FlowWhileStarting(chip, t, s);
    } else {
      FlowOtherwise(chip, t, s);
    }
  }

  lemma FlowWhileStarting(chip: Chip, t: Tx, s: Step)
    requires Inv(chip, t) && (s.Write? || s.FlushChars? || s.StartTty? || s.CrtsctsOff?)
    ensures var u := Next(chip, t, s);
            && u.stopped == (t.stopped && !s.StartTty?)
            && u.hwStopped == (t.hwStopped && !s.CrtsctsOff?) && u.ctsFlow == (t.ctsFlow && !s.CrtsctsOff?)
  {
    hide StartTx, UartStart, Accepted;
    match s {
      case StartTty(idle) => StartKeepsFlow(chip, t.(stopped := false), idle);
      case CrtsctsOff(idle) => StartKeepsFlow(chip, t.(ctsFlow := false, hwStopped := false), idle);
      case Write(buf, idle) => StartKeepsFlow(chip, t.(ring := t.ring + Accepted(t, buf)), idle);
      case FlushChars(idle) => StartKeepsFlow(chip, t, idle);
    }
  }

  lemma FlowOtherwise(chip: Chip, t: Tx, s: Step)
    requires Inv(chip, t) && !(s.Write? || s.FlushChars? || s.StartTty? || s.CrtsctsOff?)
    ensures var u := Next(chip, t, s);
            && u.stopped == (t.stopped || s.StopTty?) && u.ctsFlow == (t.ctsFlow || s.CrtsctsOn?)
            && u.hwStopped == if s.CtsLine? && t.ctsFlow then !s.active else t.hwStopped || (s.CrtsctsOn? && !s.cts)
  {
    hide StartTx, TxChars, CtsChange, DataOf, Accepted;
    match s {
      case Interrupt => HeldLoadsNothing(chip, t);
      case CtsLine(active, idle) => HeldByCts(chip, t, active, idle);
      case SendXchar(ch, idle) => HeldStartsNothing(chip, t.(xchar := ch), idle);
      case _ =>
    }
  }

  ghost function At(chip: Chip, t: Tx, run: seq<Step>, i: nat): (u: Tx)
    requires Inv(chip, t) && i <= |run|
    ensures Inv(chip, u)
  {
    Run(chip, t, run[..i])
  }

  lemma AtNext(chip: Chip, t: Tx, run: seq<Step>, i: nat)
    requires Inv(chip, t) && i < |run|
    ensures At(chip, t, run, i + 1) == Next(chip, At(chip, t, run, i), run[i])
  {
    hide Next;
    assert run[..i + 1] == run[..i] + [run[i]];
    RunOneMore(chip, t, run[..i], run[i]);
  }

  ghost predicate StoppedAt(chip: Chip, t: Tx, run: seq<Step>, h: Hold, i: nat)
    requires Inv(chip, t) && i < |run|
  {
    Stops(At(chip, t, run, i), run[i], h)
  }

  ghost predicate ReleasedAt(chip: Chip, t: Tx, run: seq<Step>, h: Hold, i: nat)
    requires Inv(chip, t) && i < |run|
  {
    Releases(At(chip, t, run, i), run[i], h)
  }

  ghost predicate StoppedSince(chip: Chip, t: Tx, run: seq<Step>, h: Hold, i: nat)
    requires Inv(chip, t)
  {
    i < |run| && StoppedAt(chip, t, run, h, i) && forall k :: i < k < |run| ==> !ReleasedAt(chip, t, run, h, k)
  }

  /** Over every run from a port that is not held up: it is held up by software, or by hardware, exactly if
      some step stopped it that way and no later one released it. */
  lemma HeldIff(chip: Chip, t: Tx, run: seq<Step>, h: Hold)
    requires Inv(chip, t) && !IsHeld(t, h)
    ensures IsHeld(Run(chip, t, run), h) <==> exists i :: StoppedSince(chip, t, run, h, i)
  {
    hide Next, Inv, IsHeld, Stops, Releases, Run;
    var n := |run|;
    var flag := seq(n + 1, i requires 0 <= i <= n => IsHeld(At(chip, t, run, i), h));
    var up := seq(n, i requires 0 <= i < n => StoppedAt(chip, t, run, h, i));
    var down := seq(n, i requires 0 <= i < n => ReleasedAt(chip, t, run, h, i));
    forall i | 0 <= i < n
      ensures flag[i + 1] <==> up[i] || (flag[i] && !down[i])
    {
      AtNext(chip, t, run, i);
      HoldStep(chip, At(chip, t, run, i), run[i], h);
    }
    AtEnds(chip, t, run);
    SetIff(flag, up, down);
    assert forall i :: 0 <= i < n ==> up[i] == StoppedAt(chip, t, run, h, i);
    assert forall i :: 0 <= i < n ==> down[i] == ReleasedAt(chip, t, run, h, i);
    forall i: nat | i < n
      ensures SetSince(up, down, i) <==> StoppedSince(chip, t, run, h, i)
    {
    }
  }

  lemma AtEnds(chip: Chip, t: Tx, run: seq<Step>)
    requires Inv(chip, t)
    ensures At(chip, t, run, 0) == t && At(chip, t, run, |run|) == Run(chip, t, run)
  {
    assert run[..0] == [] && run[..|run|] == run;
  }
}
