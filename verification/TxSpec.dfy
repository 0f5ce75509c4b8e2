/** The transmit side of a serial port as the serial core and the 8250 driver run it together:
    a queue of accepted bytes, and the flags that decide whether the hardware will ask for more. */
module TxSpec {
  import opened Departures
  import opened Rings

  const UART_XMIT_SIZE: nat := 4096
  /** The circular buffer keeps one slot free. */
  const CAPACITY: nat := 4095

  /** What is written to UART_TX. */
  datatype Sent = Data(b: bv8) | XChar(b: bv8)

  /** Properties of the chip: bytes loaded per interrupt, whether enabling THRI on an idle transmitter
      raises no interrupt (UART_BUG_TXEN), and whether it is a 16C950 with a transmit disable bit. */
  datatype Chip = Chip(loadsz: nat, bugTxen: bool, is950: bool)

  datatype Tx = Tx(ring: seq<bv8>, sent: seq<Sent>, thri: bool, txdis: bool, xchar: bv8,
                   stopped: bool, hwStopped: bool, ctsFlow: bool)
  {
    /** The tty is not held up by software or hardware flow control. */
    predicate Live() { !stopped && !hwStopped }
  }

  // ---------- The 8250 driver

  function StopTx(chip: Chip, t: Tx): Tx {
    t.(thri := false, txdis := t.txdis || chip.is950)
  }

  /** The number of bytes loaded in one go: the loop body runs at least once. */
  function Load(chip: Chip, t: Tx): nat {
    Min(if chip.loadsz == 0 then 1 else chip.loadsz, |t.ring|)
  }

  function AsData(s: seq<bv8>): (r: seq<Sent>)
    ensures |r| == |s| && forall i :: 0 <= i < |s| ==> r[i] == Data(s[i])
  {
    seq(|s|, i requires 0 <= i < |s| => Data(s[i]))
  }

  /** A transmit interrupt: a priority character first, otherwise data if the tty is live. */
  function TxChars(chip: Chip, t: Tx): Tx {
    if t.xchar != 0 then t.(sent := t.sent + [XChar(t.xchar)], xchar := 0)
    else if !t.Live() then StopTx(chip, t)
    else
      var n := Load(chip, t);
      t.(ring := t.ring[n..], sent := t.sent + AsData(t.ring[..n]), thri := t.thri && n < |t.ring|)
  }

  /** THRI enabled, and if the chip needs it, the first load done by hand. */
  function Enabled(chip: Chip, t: Tx, idle: bool): Tx {
    if t.thri then t
    else if chip.bugTxen && idle then TxChars(chip, t.(thri := true)) else t.(thri := true)
  }

  function StartTx(chip: Chip, t: Tx, idle: bool): Tx {
    var t1 := Enabled(chip, t, idle);
    t1.(txdis := t1.txdis && !chip.is950)
  }

  // ---------- The serial core

  function UartStart(chip: Chip, t: Tx, idle: bool): Tx {
    if t.ring != [] && t.Live() then StartTx(chip, t, idle) else t
  }

  /** What the ring takes of a buffer. */
  function Accepted(t: Tx, buf: seq<bv8>): seq<bv8>
    requires |t.ring| <= CAPACITY
  {
    buf[..Min(|buf|, CAPACITY - |t.ring|)]
  }

  function PutChar(t: Tx, b: bv8): Tx
    requires |t.ring| <= CAPACITY
  {
    t.(ring := t.ring + Accepted(t, [b]))
  }

  function CtsChange(chip: Chip, t: Tx, active: bool, idle: bool): Tx {
    if !t.ctsFlow || t.hwStopped != active then t
    else if active then StartTx(chip, t.(hwStopped := false), idle)
    else StopTx(chip, t.(hwStopped := true))
  }

  /** `idle` is what LSR answers if the driver asks whether the transmitter is empty. */
  datatype Step =
    | Write(buf: seq<bv8>, idle: bool)
    | PutOne(b: bv8)
    | FlushChars(idle: bool)
    | Interrupt
    | CtsLine(active: bool, idle: bool)
    | StopTty
    | StartTty(idle: bool)
    | SendXchar(ch: bv8, idle: bool)
    | FlushBuffer
    | CrtsctsOff(idle: bool)
    | CrtsctsOn(cts: bool)

  function Next(chip: Chip, t: Tx, s: Step): Tx
    requires |t.ring| <= CAPACITY
  {
    match s
    case Write(buf, idle) => UartStart(chip, t.(ring := t.ring + Accepted(t, buf)), idle)
    case PutOne(b) => PutChar(t, b)
    case FlushChars(idle) => UartStart(chip, t, idle)
    case Interrupt => TxChars(chip, t)
    case CtsLine(active, idle) => CtsChange(chip, t, active, idle)
    case StopTty => StopTx(chip, t.(stopped := true))
    case StartTty(idle) => UartStart(chip, t.(stopped := false), idle)
    case SendXchar(ch, idle) => if ch == 0 then t.(xchar := 0) else StartTx(chip, t.(xchar := ch), idle)
    case FlushBuffer => t.(ring := [])
    case CrtsctsOff(idle) => UartStart(chip, t.(ctsFlow := false, hwStopped := false), idle)
    case CrtsctsOn(cts) =>
      if cts then t.(ctsFlow := true) else StopTx(chip, t.(ctsFlow := true, hwStopped := true))
  }

  predicate Inv(chip: Chip, t: Tx) {
    |t.ring| <= CAPACITY && (t.txdis ==> chip.is950)
  }

  lemma NextKeepsInv(chip: Chip, t: Tx, s: Step)
    requires Inv(chip, t)
    ensures Inv(chip, Next(chip, t, s))
  {
  }

  ghost function Run(chip: Chip, t: Tx, run: seq<Step>): (r: Tx)
    requires Inv(chip, t)
    ensures Inv(chip, r)
    decreases |run|
  {
    if run == [] then t else NextKeepsInv(chip, t, run[0]); Run(chip, Next(chip, t, run[0]), run[1..])
  }

  lemma {:induction false} RunOneMore(chip: Chip, t: Tx, run: seq<Step>, s: Step)
    requires Inv(chip, t)
    ensures Run(chip, t, run + [s]) == Next(chip, Run(chip, t, run), s)
    decreases |run|
  {
    hide Next;
    if run == [] {
      assert run + [s] == [s] && [s][1..] == [];
    } else {
      NextKeepsInv(chip, t, run[0]);
      assert (run + [s])[1..] == run[1..] + [s];
      RunOneMore(chip, Next(chip, t, run[0]), run[1..], s);
    }
  }

  // ---------- No lost wakeup

  /** Bytes wait, nothing holds them up: then the transmit interrupt is enabled and the transmitter on. */
  predicate Draining(t: Tx) {
    t.Live() && t.ring != [] ==> t.thri && !t.txdis
  }

  /** A byte was put in by `uart_put_char` and the flush that must follow it has not come yet. */
  function DirtyAfter(chip: Chip, t: Tx, dirty: bool, s: Step): bool {
    match s
    case Write(_, _) => false
    case FlushChars(_) => false
    case StartTty(_) => false
    case CrtsctsOff(_) => false
    case PutOne(_) => true
    case _ => dirty
  }

  function Dirty(chip: Chip, t: Tx, dirty: bool, run: seq<Step>): bool
    requires Inv(chip, t)
    decreases |run|
  {
    if run == [] then dirty
    else NextKeepsInv(chip, t, run[0]); Dirty(chip, Next(chip, t, run[0]), DirtyAfter(chip, t, dirty, run[0]), run[1..])
  }

  lemma StepKeepsDraining(chip: Chip, t: Tx, s: Step)
    requires Inv(chip, t)
    requires (Draining(t) && !s.PutOne?) || s.Write? || s.FlushChars? || s.StartTty? || s.CrtsctsOff?
    ensures Draining(Next(chip, t, s))
  {
  }

  /** In every run a live port with bytes waiting has its transmit interrupt enabled, at every point that
      is not between a `uart_put_char` and its flush. */
  lemma {:induction false} NoLostWakeup(chip: Chip, t: Tx, dirty: bool, run: seq<Step>)
    requires Inv(chip, t) && (dirty || Draining(t))
    ensures Dirty(chip, t, dirty, run) || Draining(Run(chip, t, run))
    decreases |run|
  {
    if run != [] {
      NextKeepsInv(chip, t, run[0]);
      if !DirtyAfter(chip, t, dirty, run[0]) {
        StepKeepsDraining(chip, t, run[0]);
      }
      NoLostWakeup(chip, Next(chip, t, run[0]), DirtyAfter(chip, t, dirty, run[0]), run[1..]);
    }
  }

  /** The bytes of a buffer, put in one by one. */
  function Puts(buf: seq<bv8>): (r: seq<Step>)
    ensures |r| == |buf| && forall i :: 0 <= i < |buf| ==> r[i] == PutOne(buf[i])
  {
    seq(|buf|, i requires 0 <= i < |buf| => PutOne(buf[i]))
  }

  /** Filling the ring: what fits of the buffer is appended, whether it comes at once or byte by byte. */
  lemma {:induction false} PutsFill(chip: Chip, t: Tx, buf: seq<bv8>)
    requires Inv(chip, t)
    ensures Run(chip, t, Puts(buf)) == t.(ring := t.ring + Accepted(t, buf))
    decreases |buf|
  {
    if buf == [] {
      assert t.ring + [] == t.ring;
    } else {
      var u := PutChar(t, buf[0]);
      NextKeepsInv(chip, t, PutOne(buf[0]));
      assert Puts(buf)[1..] == Puts(buf[1..]);
      PutsFill(chip, u, buf[1..]);
      assert u.ring + Accepted(u, buf[1..]) == t.ring + Accepted(t, buf);
    }
  }

  /** `uart_write` fills the ring under one lock and starts the transmitter under another. In between
      anything may happen; that is a run of puts, the steps in between, and a flush. With nothing in between
      it is the write. */
  lemma WriteInTwoParts(chip: Chip, t: Tx, buf: seq<bv8>, between: seq<Step>, idle: bool)
    requires Inv(chip, t)
    ensures Run(chip, t, Puts(buf) + between + [FlushChars(idle)])
      == UartStart(chip, Run(chip, t.(ring := t.ring + Accepted(t, buf)), between), idle)
    ensures between == [] ==> Run(chip, t, Puts(buf) + between + [FlushChars(idle)]) == Next(chip, t, Write(buf, idle))
  {
    PutsFill(chip, t, buf);
    RunJoin(chip, t, Puts(buf), between);
    RunOneMore(chip, t, Puts(buf) + between, FlushChars(idle));
  }

  lemma {:induction false} RunJoin(chip: Chip, t: Tx, run: seq<Step>, more: seq<Step>)
    requires Inv(chip, t)
    ensures Run(chip, t, run + more) == Run(chip, Run(chip, t, run), more)
    decreases |run|
  {
    hide Next;
    if run == [] {
      assert run + more == more;
    } else {
      NextKeepsInv(chip, t, run[0]);
      assert (run + more)[1..] == run[1..] + more;
      RunJoin(chip, Next(chip, t, run[0]), run[1..], more);
    }
  }

  /** However a write is cut in two, the promise holds from its end on. */
  lemma DrainingAfterWrite(chip: Chip, t: Tx, buf: seq<bv8>, between: seq<Step>, idle: bool)
    requires Inv(chip, t)
    ensures Draining(Run(chip, t, Puts(buf) + between + [FlushChars(idle)]))
  {
    RunOneMore(chip, t, Puts(buf) + between, FlushChars(idle));
    StepKeepsDraining(chip, Run(chip, t, Puts(buf) + between), FlushChars(idle));
  }

  /** `uart_put_char` by itself keeps the promise exactly if the port is held up or its transmit
      interrupt is already enabled. */
  lemma PutCharAloneIff(chip: Chip, t: Tx, b: bv8)
    requires Inv(chip, t) && Draining(t)
    ensures Draining(PutChar(t, b)) <==> !t.Live() || (t.thri && !t.txdis)
  {
  }

  /** A port just started: the byte is accepted and nothing will send it. */
  lemma PutCharStalls(chip: Chip, b: bv8)
    ensures var idle := Tx([], [], false, false, 0, false, false, false);
            && Draining(idle) && idle.Live()
            && PutChar(idle, b).ring == [b] && !Draining(PutChar(idle, b))
  {
    assert [b][..1] == [b];
  }

  /** Each interrupt of a live port with an enabled transmitter sends a priority character or shortens
      the queue, so a queue of n bytes is empty after at most n + 1 interrupts. */
  lemma InterruptsDrain(chip: Chip, t: Tx)
    requires Inv(chip, t) && t.Live()
    ensures Run(chip, t, seq(|t.ring| + 1, _ => Interrupt)).ring == []
  {
    var run: seq<Step> := seq(|t.ring| + 1, _ => Interrupt);
    NextKeepsInv(chip, t, Interrupt);
    assert run[1..] == seq(|t.ring|, _ => Interrupt);
    DrainData(chip, TxChars(chip, t), |t.ring|);
  }

  lemma {:induction false} DrainData(chip: Chip, t: Tx, n: nat)
    requires Inv(chip, t) && t.Live() && t.xchar == 0 && |t.ring| <= n
    ensures Run(chip, t, seq(n, _ => Interrupt)).ring == []
    decreases n
  {
    if n > 0 {
      var run: seq<Step> := seq(n, _ => Interrupt);
      NextKeepsInv(chip, t, Interrupt);
      assert run[1..] == seq(n - 1, _ => Interrupt);
      DrainData(chip, TxChars(chip, t), n - 1);
    }
  }

  // ---------- Conservation

  /** The data bytes written to UART_TX, priority characters left out. */
  function DataOf(sent: seq<Sent>): seq<bv8> {
    if sent == [] then [] else (if sent[0].Data? then [sent[0].b] else []) + DataOf(sent[1..])
  }

  /** Bytes a step takes in. */
  function Intake(t: Tx, s: Step): seq<bv8>
    requires |t.ring| <= CAPACITY
  {
    match s
    case Write(buf, _) => Accepted(t, buf)
    case PutOne(b) => Accepted(t, [b])
    case _ => []
  }

  /** Bytes that leave the ring in a step: the front of the ring goes to the chip, a flush drops it. */
  function Departing(chip: Chip, t: Tx, s: Step): seq<Departure>
    requires |t.ring| <= CAPACITY
  {
    var have := t.ring + Intake(t, s);
    var kept := |Next(chip, t, s).ring|;
    if kept > |have| then [] else Mark(have[..|have| - kept], if s.FlushBuffer? then Flushed else Delivered)
  }

  lemma {:induction false} DataOfConcat(a: seq<Sent>, b: seq<Sent>)
    ensures DataOf(a + b) == DataOf(a) + DataOf(b)
    decreases |a|
  {
    if a == [] {
      assert a + b == b;
    } else {
      var c := a + b;
      assert c[0] == a[0] && c[1..] == a[1..] + b;
      DataOfConcat(a[1..], b);
    }
  }

  lemma {:induction false} DataOfData(s: seq<bv8>)
    ensures DataOf(AsData(s)) == s
    decreases |s|
  {
    if s != [] {
      DataOfData(s[1..]);
      assert AsData(s)[1..] == AsData(s[1..]);
      assert s == [s[0]] + s[1..];
    }
  }

  /** The front of a queue went to the chip, in order, and the rest is still in the ring. */
  predicate Moved(have: seq<bv8>, sent: seq<Sent>, t: Tx) {
    && |t.ring| <= |have| && t.ring == have[|have| - |t.ring|..]
    && DataOf(t.sent) == DataOf(sent) + have[..|have| - |t.ring|]
  }

  lemma TxCharsMoves(chip: Chip, t: Tx)
    ensures Moved(t.ring, t.sent, TxChars(chip, t))
  {
    if t.xchar != 0 {
      DataOfConcat(t.sent, [XChar(t.xchar)]);
      assert DataOf([XChar(t.xchar)]) == [];
    } else if t.Live() {
      var n := Load(chip, t);
      DataOfConcat(t.sent, AsData(t.ring[..n]));
      DataOfData(t.ring[..n]);
    }
  }

  /** Nothing sent, nothing gone. */
  lemma NothingMoves(have: seq<bv8>, sent: seq<Sent>, t: Tx)
    requires t.ring == have && t.sent == sent
    ensures Moved(have, sent, t)
  {
    assert have[..0] == [] && DataOf(sent) + [] == DataOf(sent);
  }

  lemma StartTxMoves(chip: Chip, t: Tx, idle: bool)
    ensures Moved(t.ring, t.sent, StartTx(chip, t, idle))
  {
    if !t.thri && chip.bugTxen && idle {
      TxCharsMoves(chip, t.(thri := true));
    } else {
      NothingMoves(t.ring, t.sent, StartTx(chip, t, idle));
    }
  }

  lemma UartStartMoves(chip: Chip, t: Tx, idle: bool)
    ensures Moved(t.ring, t.sent, UartStart(chip, t, idle))
  {
    StartTxMoves(chip, t, idle);
    NothingMoves(t.ring, t.sent, t);
  }

  lemma CtsChangeMoves(chip: Chip, t: Tx, active: bool, idle: bool)
    ensures Moved(t.ring, t.sent, CtsChange(chip, t, active, idle))
  {
    if t.ctsFlow && t.hwStopped == active && active {
      StartTxMoves(chip, t.(hwStopped := false), idle);
    } else {
      NothingMoves(t.ring, t.sent, CtsChange(chip, t, active, idle));
    }
  }

  lemma StepMoves(chip: Chip, t: Tx, s: Step)
    requires Inv(chip, t) && !s.FlushBuffer?
    ensures Moved(t.ring + Intake(t, s), t.sent, Next(chip, t, s))
  {
    hide StartTx, TxChars, UartStart, CtsChange, DataOf, Moved;
    assert t.ring + [] == t.ring;
    match s {
      case Write(buf, idle) => UartStartMoves(chip, t.(ring := t.ring + Accepted(t, buf)), idle);
      case PutOne(b) => NothingMoves(t.ring + Intake(t, s), t.sent, Next(chip, t, s));
      case FlushChars(idle) => UartStartMoves(chip, t, idle);
      case Interrupt => TxCharsMoves(chip, t);
      case CtsLine(active, idle) => CtsChangeMoves(chip, t, active, idle);
      case StopTty => NothingMoves(t.ring, t.sent, Next(chip, t, s));
      case StartTty(idle) => UartStartMoves(chip, t.(stopped := false), idle);
      case SendXchar(ch, idle) =>
        if ch == 0 {
          NothingMoves(t.ring, t.sent, Next(chip, t, s));
        } else {
          StartTxMoves(chip, t.(xchar := ch), idle);
        }
      case CrtsctsOff(idle) => UartStartMoves(chip, t.(ctsFlow := false, hwStopped := false), idle);
      case CrtsctsOn(_) => NothingMoves(t.ring, t.sent, Next(chip, t, s));
    }
  }

  function Taken(chip: Chip, t: Tx, run: seq<Step>): seq<bv8>
    requires Inv(chip, t)
    decreases |run|
  {
    if run == [] then []
    else NextKeepsInv(chip, t, run[0]); Intake(t, run[0]) + Taken(chip, Next(chip, t, run[0]), run[1..])
  }

  function Left(chip: Chip, t: Tx, run: seq<Step>): seq<Departure>
    requires Inv(chip, t)
    decreases |run|
  {
    if run == [] then []
    else NextKeepsInv(chip, t, run[0]); Departing(chip, t, run[0]) + Left(chip, Next(chip, t, run[0]), run[1..])
  }

  lemma StepLedger(chip: Chip, t: Tx, s: Step)
    requires Inv(chip, t)
    ensures Bytes(Departing(chip, t, s)) + Next(chip, t, s).ring == t.ring + Intake(t, s)
    ensures DataOf(Next(chip, t, s).sent) == DataOf(t.sent) + DeliveredBytes(Departing(chip, t, s))
  {
    hide StartTx, TxChars, DataOf, DeliveredBytes;
    var have, t' := t.ring + Intake(t, s), Next(chip, t, s);
    if !s.FlushBuffer? {
      StepMoves(chip, t, s);
    }
    var gone := have[..|have| - |t'.ring|];
    DeliveredMarks(gone, if s.FlushBuffer? then Flushed else Delivered);
    assert Bytes(Departing(chip, t, s)) == gone;
  }

  /** Conservation and order over every run: the bytes that left the ring, followed by those in it, are
      those it had and those it accepted; and the bytes that left otherwise than by a flush are exactly
      the data written to the chip, in order. */
  lemma {:induction false} BytesConserved(chip: Chip, t: Tx, run: seq<Step>)
    requires Inv(chip, t)
    ensures Bytes(Left(chip, t, run)) + Run(chip, t, run).ring == t.ring + Taken(chip, t, run)
    ensures DataOf(Run(chip, t, run).sent) == DataOf(t.sent) + DeliveredBytes(Left(chip, t, run))
    decreases |run|
  {
    if run != [] {
      var u := Next(chip, t, run[0]);
      NextKeepsInv(chip, t, run[0]);
      StepLedger(chip, t, run[0]);
      BytesConserved(chip, u, run[1..]);
      var d, rest := Departing(chip, t, run[0]), Left(chip, u, run[1..]);
      BytesConcat(d, rest);
      DeliveredConcat(d, rest);
      JoinLedgers(Bytes(d), Bytes(rest), t.ring, u.ring, Run(chip, t, run).ring, Intake(t, run[0]), Taken(chip, u, run[1..]));
    }
  }

  /** Without a flush of the buffer, everything accepted is sent or still waiting, in order. */
  lemma {:induction false} NothingDropped(chip: Chip, t: Tx, run: seq<Step>)
    requires Inv(chip, t) && forall i :: 0 <= i < |run| ==> !run[i].FlushBuffer?
    ensures DataOf(Run(chip, t, run).sent) + Run(chip, t, run).ring == DataOf(t.sent) + (t.ring + Taken(chip, t, run))
    decreases |run|
  {
    hide Next, DataOf, Intake;
    if run != [] {
      var u := Next(chip, t, run[0]);
      NextKeepsInv(chip, t, run[0]);
      StepMoves(chip, t, run[0]);
      NothingDropped(chip, u, run[1..]);
      Regroup(DataOf(t.sent), t.ring, Intake(t, run[0]), u.ring, Taken(chip, u, run[1..]));
    }
  }

  lemma Regroup(sent: seq<bv8>, ring: seq<bv8>, intake: seq<bv8>, after: seq<bv8>, rest: seq<bv8>)
    requires |after| <= |ring + intake| && after == (ring + intake)[|ring + intake| - |after|..]
    ensures (sent + (ring + intake)[..|ring + intake| - |after|]) + (after + rest) == sent + (ring + (intake + rest))
  {
    var have := ring + intake;
    var k := |have| - |after|;
    assert have == have[..k] + after;
    assert (sent + have[..k]) + (after + rest) == sent + ((have[..k] + after) + rest);
    assert have + rest == ring + (intake + rest);
  }
}
