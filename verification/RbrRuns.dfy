/** The receiver buffer register while the FIFOs are off: what enters it, what of that is read or lost, and
    exactly when the guest reads as data what never came that way. */
module RbrRuns {
  import opened Departures
  import opened Latches
  import opened Rings
  import opened UartSpec
  import opened UartRuns
  import FlagRuns

  /** The byte that a step puts in RBR for the guest to read; of a longer delivery only the first. */
  function ToRbr(u: Uart, s: Step): seq<bv8>
    requires Possible(s)
  {
    if u.Fifo() then []
    else
      match s
      case Receive(buf) => [buf[0]]
      case BreakIn => [0]
      case Write(_, val, _, _) => if IsThrWrite(u.g.lcr, s) && u.Loop() then [val] else []
      case _ => []
  }

  predicate IsRbrRead(u: Uart, s: Step) {
    s.Read? && s.addr % 8 == 0 && !u.Dlab() && !u.Fifo()
  }

  /** An FCR write that switches the FIFOs on or off. */
  predicate Switches(u: Uart, s: Step) {
    s.Write? && s.addr % 8 == 2 && (s.val & UART_FCR_FE != 0) != u.Fifo()
  }

  /** What `unread`, the byte in RBR that came there and was not read yet, becomes in a step. */
  function Unread(u: Uart, unread: seq<bv8>, s: Step): seq<bv8>
    requires Possible(s)
  {
    if ToRbr(u, s) != [] then ToRbr(u, s) else if IsRbrRead(u, s) || s.Reset? || Switches(u, s) then [] else unread
  }

  /** How it leaves: read, or overwritten, reset or left behind by a switch. */
  function Departing(u: Uart, unread: seq<bv8>, s: Step): seq<Departure>
    requires Possible(s)
  {
    if IsRbrRead(u, s) then Mark(unread, Delivered)
    else if ToRbr(u, s) != [] || s.Reset? || Switches(u, s) then Mark(unread, Flushed)
    else []
  }

  /** An unread byte is in RBR with DR set. */
  predicate Tracks(u: Uart, unread: seq<bv8>) {
    |unread| <= 1 && (unread != [] ==> !u.Fifo() && u.rx.dr && u.rx.rbr == unread[0])
  }

  /** DR is set with the FIFOs off, but no byte came to RBR that it could stand for. */
  predicate Phantom(u: Uart, unread: seq<bv8>) {
    !u.Fifo() && u.rx.dr && unread == []
  }

  /** The FIFOs are switched off while DR is set: it stays set, over the old contents of RBR. */
  predicate LeavesDr(u: Uart, s: Step) {
    Switches(u, s) && u.Fifo() && u.rx.dr
  }

  /** A read takes DR back, a new byte gives it a meaning, and so does a switch to the FIFOs. */
  predicate SettlesDr(u: Uart, s: Step)
    requires Possible(s)
  {
    s.Reset? || IsRbrRead(u, s) || ToRbr(u, s) != [] || (Switches(u, s) && !u.Fifo())
  }

  // ---------- One step

  /** What a step does to RBR, DR and the FIFO switch. */
  lemma StepOnRbr(u: Uart, s: Step)
    requires Inv(u) && Possible(s)
    ensures var v := Next(u, s);
            && v.Fifo() == (u.Fifo() != Switches(u, s))
            && (!u.Fifo() && !v.Fifo() ==>
                  && v.rx.dr == (ToRbr(u, s) != [] || (u.rx.dr && !IsRbrRead(u, s) && !s.Reset?))
                  && (ToRbr(u, s) == [] && !s.Reset? ==> v.rx.rbr == u.rx.rbr)
                  && (ToRbr(u, s) != [] ==> v.rx.rbr == ToRbr(u, s)[0]))
            && (Switches(u, s) ==> v.rx.dr == u.rx.dr && v.rx.rbr == u.rx.rbr)
  {
    match s {
      case Write(addr, val, _, flags) => WriteOnRbr(u, s);
      case Read(addr, flags) => ReadOnRbr(u, s);
      case _ =>
    }
  }

  lemma WriteOnRbr(u: Uart, s: Step)
    requires Inv(u) && s.Write?
    ensures var v := Next(u, s);
            && v.Fifo() == (u.Fifo() != Switches(u, s))
            && (!u.Fifo() && !v.Fifo() ==>
                  && v.rx.dr == (ToRbr(u, s) != [] || u.rx.dr)
                  && (if ToRbr(u, s) == [] then v.rx.rbr == u.rx.rbr else v.rx.rbr == ToRbr(u, s)[0]))
            && (Switches(u, s) ==> v.rx.dr == u.rx.dr && v.rx.rbr == u.rx.rbr)
  {
    hide WriteReg, TriggerLevel, Inv;
    InvBounds(u);
    RxOfWrite(u, s.addr % 8, s.val, s.flags);
    FcrOfWrite(u, s.addr % 8, s.val, s.flags);
    FcrSwitch(u.g.fcr, s.val);
  }

  lemma FcrOfWrite(u: Uart, a: nat, val: bv8, flags: ModemFlags)
    requires |u.rx.fifo| <= UART_FIFO_LENGTH
    ensures WriteReg(u, a, val, flags).g.fcr == if a == 2 && val != u.g.fcr then val & 0xC9 else u.g.fcr
  {
    hide ReceiveRx, FcrRx, PollLines, BreakBit, TriggerLevel;
  }

  lemma ReadOnRbr(u: Uart, s: Step)
    requires Inv(u) && s.Read?
    ensures var v := Next(u, s);
            && v.Fifo() == u.Fifo()
            && (!u.Fifo() ==> v.rx.dr == (u.rx.dr && !IsRbrRead(u, s)) && v.rx.rbr == u.rx.rbr)
  {
    hide ReadReg;
    RxOfRead(u, s.addr % 8, s.flags);
    FcrOfRead(u, s.addr % 8, s.flags);
  }

  lemma FcrOfRead(u: Uart, a: nat, flags: ModemFlags)
    ensures ReadReg(u, a, flags).g.fcr == u.g.fcr
  {
    hide ReadRx, Polled;
  }

  lemma StepTracks(u: Uart, unread: seq<bv8>, s: Step)
    requires Inv(u) && Possible(s) && Tracks(u, unread)
    ensures Tracks(Next(u, s), Unread(u, unread, s))
    ensures Bytes(Departing(u, unread, s)) + Unread(u, unread, s) == unread + ToRbr(u, s)
  {
    hide Next, Inv;
    StepOnRbr(u, s);
    assert Bytes(Mark(unread, Delivered)) == unread && Bytes(Mark(unread, Flushed)) == unread;
  }

  lemma PhantomStep(u: Uart, unread: seq<bv8>, s: Step)
    requires Inv(u) && Possible(s) && Tracks(u, unread)
    ensures Phantom(Next(u, s), Unread(u, unread, s)) <==> LeavesDr(u, s) || (Phantom(u, unread) && !SettlesDr(u, s))
  {
    hide Next, Inv;
    StepOnRbr(u, s);
  }

  // ---------- Runs

  /** The unread byte after a run, from none. */
  function UnreadAfter(u: Uart, unread: seq<bv8>, run: seq<Step>): seq<bv8>
    requires Inv(u) && Runnable(run)
    decreases |run|
  {
    if run == [] then unread
    else
      NextKeepsInv(u, run[0]);
      UnreadAfter(Next(u, run[0]), Unread(u, unread, run[0]), run[1..])
  }

  /** All that enters RBR, and all that leaves it. */
  function Entered(u: Uart, run: seq<Step>): seq<bv8>
    requires Inv(u) && Runnable(run)
    decreases |run|
  {
    if run == [] then []
    else
      NextKeepsInv(u, run[0]);
      ToRbr(u, run[0]) + Entered(Next(u, run[0]), run[1..])
  }

  function Left(u: Uart, unread: seq<bv8>, run: seq<Step>): seq<Departure>
    requires Inv(u) && Runnable(run)
    decreases |run|
  {
    if run == [] then []
    else
      NextKeepsInv(u, run[0]);
      Departing(u, unread, run[0]) + Left(Next(u, run[0]), Unread(u, unread, run[0]), run[1..])
  }

  /** A read that the guest takes for data: the FIFOs are off and DR is set. */
  function DataRead(u: Uart, s: Step): seq<bv8> {
    if IsRbrRead(u, s) && u.rx.dr then [ReadValue(u, s.addr % 8, s.flags)] else []
  }

  function DataReads(u: Uart, run: seq<Step>): seq<bv8>
    requires Inv(u) && Runnable(run)
    decreases |run|
  {
    if run == [] then []
    else
      NextKeepsInv(u, run[0]);
      DataRead(u, run[0]) + DataReads(Next(u, run[0]), run[1..])
  }

  /** Conservation and order: what left RBR, then what is unread in it, is what was unread, then what
      entered. */
  lemma {:induction false} RbrLedger(u: Uart, unread: seq<bv8>, run: seq<Step>)
    requires Inv(u) && Runnable(run) && Tracks(u, unread)
    ensures Tracks(Run(u, run), UnreadAfter(u, unread, run))
    ensures Bytes(Left(u, unread, run)) + UnreadAfter(u, unread, run) == unread + Entered(u, run)
    decreases |run|
  {
    hide Next, Inv, Departing, Unread, ToRbr, Tracks;
    if run != [] {
      InvBounds(u);
      NextKeepsInv(u, run[0]);
      var v, next := Next(u, run[0]), Unread(u, unread, run[0]);
      StepTracks(u, unread, run[0]);
      RbrLedger(v, next, run[1..]);
      var d, rest := Departing(u, unread, run[0]), Left(v, next, run[1..]);
      BytesConcat(d, rest);
      JoinLedgers(Bytes(d), Bytes(rest), unread, next, UnreadAfter(u, unread, run), ToRbr(u, run[0]), Entered(v, run[1..]));
    }
  }

  /** Some read of the run takes for data what is none. */
  ghost predicate Deceived(u: Uart, unread: seq<bv8>, run: seq<Step>)
    requires Inv(u) && Runnable(run)
    decreases |run|
  {
    run != [] &&
      ((IsRbrRead(u, run[0]) && Phantom(u, unread))
       || (NextKeepsInv(u, run[0]); Deceived(Next(u, run[0]), Unread(u, unread, run[0]), run[1..])))
  }

  /** A data read returns the unread byte, or is deceived. */
  lemma ReadsUnread(u: Uart, unread: seq<bv8>, s: Step)
    requires Inv(u) && Possible(s) && Tracks(u, unread)
    ensures IsRbrRead(u, s) && Phantom(u, unread) ==> DeliveredBytes(Departing(u, unread, s)) == [] && |DataRead(u, s)| == 1
    ensures !(IsRbrRead(u, s) && Phantom(u, unread)) ==> DataRead(u, s) == DeliveredBytes(Departing(u, unread, s))
  {
    DeliveredMarks(unread, Delivered);
    DeliveredMarks(unread, Flushed);
  }

  /** The data reads return at least the bytes that were delivered, and exactly these, in order, if and only
      if no read was deceived. */
  lemma {:induction false} ReadsTrueIff(u: Uart, unread: seq<bv8>, run: seq<Step>)
    requires Inv(u) && Runnable(run) && Tracks(u, unread)
    ensures |DataReads(u, run)| >= |DeliveredBytes(Left(u, unread, run))|
    ensures Deceived(u, unread, run) ==> |DataReads(u, run)| > |DeliveredBytes(Left(u, unread, run))|
    ensures !Deceived(u, unread, run) ==> DataReads(u, run) == DeliveredBytes(Left(u, unread, run))
    decreases |run|
  {
    hide Next, Inv, Departing, Unread, DataRead, Tracks, Phantom, IsRbrRead;
    if run != [] {
      InvBounds(u);
      NextKeepsInv(u, run[0]);
      var v, next := Next(u, run[0]), Unread(u, unread, run[0]);
      StepTracks(u, unread, run[0]);
      ReadsUnread(u, unread, run[0]);
      ReadsTrueIff(v, next, run[1..]);
      DeliveredConcat(Departing(u, unread, run[0]), Left(v, next, run[1..]));
    }
  }

  // ---------- When a read is deceived

  ghost predicate LeftDrAt(u: Uart, run: seq<Step>, i: nat)
    requires Inv(u) && Runnable(run) && i < |run|
  {
    LeavesDr(At(u, run, i), run[i])
  }

  ghost predicate SettledAt(u: Uart, run: seq<Step>, i: nat)
    requires Inv(u) && Runnable(run) && i < |run|
  {
    SettlesDr(At(u, run, i), run[i])
  }

  /** Step i switched the FIFOs off over a set DR, and step j is the first after it that settles DR: a read
      of RBR. */
  ghost predicate ReadsOver(u: Uart, run: seq<Step>, i: nat, j: nat)
    requires Inv(u) && Runnable(run)
  {
    && i < j < |run| && LeftDrAt(u, run, i) && IsRbrRead(At(u, run, j), run[j])
    && forall k :: i < k < j ==> !SettledAt(u, run, k)
  }

  ghost function UnreadAt(u: Uart, run: seq<Step>, i: nat): seq<bv8>
    requires Inv(u) && Runnable(run) && i <= |run|
  {
    UnreadAfter(u, [], run[..i])
  }

  lemma {:induction false} UnreadLast(u: Uart, unread: seq<bv8>, run: seq<Step>, s: Step)
    requires Inv(u) && Runnable(run) && Possible(s)
    ensures Runnable(run + [s])
    ensures UnreadAfter(u, unread, run + [s]) == Unread(Run(u, run), UnreadAfter(u, unread, run), s)
    decreases |run|
  {
    hide Next, Inv, Unread;
    if run == [] {
      assert run + [s] == [s] && [s][1..] == [];
      NextKeepsInv(u, s);
    } else {
      InvBounds(u);
      NextKeepsInv(u, run[0]);
      assert (run + [s])[1..] == run[1..] + [s];
      UnreadLast(Next(u, run[0]), Unread(u, unread, run[0]), run[1..], s);
    }
  }

  lemma UnreadNext(u: Uart, run: seq<Step>, i: nat)
    requires Inv(u) && Runnable(run) && i < |run|
    ensures UnreadAt(u, run, i + 1) == Unread(At(u, run, i), UnreadAt(u, run, i), run[i])
  {
    assert run[..i + 1] == run[..i] + [run[i]];
    UnreadLast(u, [], run[..i], run[i]);
  }

  /** Before step j DR is a phantom exactly if it was left set by a switch and not settled since. */
  lemma PhantomIff(u: Uart, run: seq<Step>, j: nat)
    requires Inv(u) && Runnable(run) && j <= |run| && !Phantom(u, [])
    ensures Phantom(At(u, run, j), UnreadAt(u, run, j)) <==>
      exists i: nat :: i < j && LeftDrAt(u, run, i) && forall k :: i < k < j ==> !SettledAt(u, run, k)
  {
    hide Next, Inv, Phantom, LeavesDr, SettlesDr, Tracks, Unread, UnreadAfter;
    var flag := seq(j + 1, i requires 0 <= i <= j => Phantom(At(u, run, i), UnreadAt(u, run, i)));
    var up := seq(j, i requires 0 <= i < j => LeftDrAt(u, run, i));
    var down := seq(j, i requires 0 <= i < j => SettledAt(u, run, i));
    forall i | 0 <= i < j
      ensures flag[i + 1] <==> up[i] || (flag[i] && !down[i])
    {
      AtNext(u, run, i);
      UnreadNext(u, run, i);
      TracksAt(u, run, i);
      PhantomStep(At(u, run, i), UnreadAt(u, run, i), run[i]);
    }
    NothingYet(u, run);
    SetIff(flag, up, down);
    assert forall i :: 0 <= i < j ==> up[i] == LeftDrAt(u, run, i);
    assert forall i :: 0 <= i < j ==> down[i] == SettledAt(u, run, i);
    forall i: nat | i < j
      ensures SetSince(up, down, i) <==> LeftDrAt(u, run, i) && forall k :: i < k < j ==> !SettledAt(u, run, k)
    {
    }
  }

  lemma NothingYet(u: Uart, run: seq<Step>)
    requires Inv(u) && Runnable(run)
    ensures At(u, run, 0) == u && UnreadAt(u, run, 0) == []
  {
    assert run[..0] == [];
  }

  lemma TracksAt(u: Uart, run: seq<Step>, i: nat)
    requires Inv(u) && Runnable(run) && i <= |run|
    ensures Tracks(At(u, run, i), UnreadAt(u, run, i))
  {
    RbrLedger(u, [], run[..i]);
  }

  lemma {:induction false} DeceivedAt(u: Uart, run: seq<Step>, n: nat)
    requires Inv(u) && Runnable(run) && n <= |run|
    ensures Deceived(u, [], run) <==>
      || (exists j: nat :: j < n && IsRbrRead(At(u, run, j), run[j]) && Phantom(At(u, run, j), UnreadAt(u, run, j)))
      || Deceived(At(u, run, n), UnreadAt(u, run, n), run[n..])
    decreases n
  {
    hide Next, Inv, Phantom, IsRbrRead, Unread, UnreadAfter;
    if n == 0 {
      NothingYet(u, run);
      assert run[0..] == run;
    } else {
      DeceivedAt(u, run, n - 1);
      AtNext(u, run, n - 1);
      UnreadNext(u, run, n - 1);
      var rest := run[n - 1..];
      assert rest[0] == run[n - 1] && rest[1..] == run[n..];
      NextKeepsInv(At(u, run, n - 1), run[n - 1]);
    }
  }

  lemma PhantomReadIff(u: Uart, run: seq<Step>, j: nat)
    requires Inv(u) && Runnable(run) && j < |run| && !Phantom(u, [])
    ensures IsRbrRead(At(u, run, j), run[j]) && Phantom(At(u, run, j), UnreadAt(u, run, j)) <==> exists i :: ReadsOver(u, run, i, j)
  {
    hide Inv, Phantom, IsRbrRead, UnreadAt, At, LeftDrAt, SettledAt;
    PhantomIff(u, run, j);
    forall i: nat
      ensures ReadsOver(u, run, i, j) <==>
        IsRbrRead(At(u, run, j), run[j]) && i < j && LeftDrAt(u, run, i) && forall k :: i < k < j ==> !SettledAt(u, run, k)
    {
    }
  }

  lemma DeceivedIff(u: Uart, run: seq<Step>)
    requires Inv(u) && Runnable(run) && !Phantom(u, [])
    ensures Deceived(u, [], run) <==> exists i, j :: ReadsOver(u, run, i, j)
  {
    hide Inv, Phantom, IsRbrRead, UnreadAt, At, LeftDrAt, SettledAt;
    DeceivedAt(u, run, |run|);
    forall j: nat | j < |run|
      ensures IsRbrRead(At(u, run, j), run[j]) && Phantom(At(u, run, j), UnreadAt(u, run, j)) <==> exists i :: ReadsOver(u, run, i, j)
    {
      PhantomReadIff(u, run, j);
    }
  }

  /** Over every run: with the FIFOs off the guest reads exactly the bytes that came to RBR and were not
      lost, in order, unless a read is the first to settle a DR that was left set when the FIFOs were
      switched off. */
  lemma RbrReadsIff(u: Uart, run: seq<Step>)
    requires Inv(u) && Runnable(run) && !Phantom(u, [])
    ensures Bytes(Left(u, [], run)) + UnreadAfter(u, [], run) == Entered(u, run)
    ensures DataReads(u, run) == DeliveredBytes(Left(u, [], run)) <==> !exists i, j :: ReadsOver(u, run, i, j)
  {
    hide Next, Inv, Phantom, IsRbrRead, Unread, UnreadAfter, Left, DataReads, Entered, ReadsOver;
    RbrLedger(u, [], run);
    assert [] + Entered(u, run) == Entered(u, run);
    ReadsTrueIff(u, [], run);
    DeceivedIff(u, run);
  }

  function ReadTwice(taken: bool, flags: ModemFlags): seq<Step> {
    [Receive([66]), Step.Read(0, flags), Step.Write(2, 0x01, taken, flags),
     Receive([65]), Step.Write(2, 0x00, taken, flags), Step.Read(0, flags)]
  }

  /** A byte 66 comes with the FIFOs off and is read. The FIFOs are switched on, a byte 65 comes, and they are
      switched off again: 65 is gone with the FIFO, DR is still set, and the guest reads 66 once more. */
  lemma PhantomRead(taken: bool, flags: ModemFlags)
    ensures var run := ReadTwice(taken, flags);
            DataReads(START, run) == [66, 66] && Entered(START, run) == [66] && ReadsOver(START, run, 4, 5)
  {
    hide Next, Inv, DataReads, Entered, DataRead, ToRbr, LeavesDr, SettlesDr, IsRbrRead, At, ReadsOver, Run;
    var run := ReadTwice(taken, flags);
    assert Inv(START) by { FlagRuns.SwitchOnFromReset(0x01, 1, flags); }
    var u1, u2 := ReadOnce(flags);
    var u3, u4, u5 := GoneWithTheFifo(u2, taken, flags);
    AtEnds(START, run);
    OneMore(START, run, 0);
    OneMore(START, run, 1);
    OneMore(START, run, 2);
    OneMore(START, run, 3);
    OneMore(START, run, 4);
    OneMore(START, run, 5);
    assert run[..6] == run && run[..0] == [];
    NothingRead(START);
    ReadsOverNext(START, run, 4);
  }

  lemma ReadsOverNext(u: Uart, run: seq<Step>, i: nat)
    requires Inv(u) && Runnable(run) && i + 1 < |run|
    requires LeavesDr(At(u, run, i), run[i]) && IsRbrRead(At(u, run, i + 1), run[i + 1])
    ensures ReadsOver(u, run, i, i + 1)
  {
  }

  lemma ReadOnce(flags: ModemFlags) returns (u1: Uart, u2: Uart)
    ensures Next(START, Receive([66])) == u1 && ToRbr(START, Receive([66])) == [66] && DataRead(START, Receive([66])) == []
    ensures Next(u1, Step.Read(0, flags)) == u2 && ToRbr(u1, Step.Read(0, flags)) == [] && DataRead(u1, Step.Read(0, flags)) == [66]
    ensures u2 == START.(rx := START.rx.(rbr := 66), w := START.w.(accepts := 1))
  {
    hide ReadReg, DataRead, ToRbr;
    u1 := START.(rx := START.rx.(rbr := 66, dr := true));
    u2 := ReadRbr(u1);
    FirstByte(START, 66);
    PlainRead(u1, flags);
  }

  lemma GoneWithTheFifo(u2: Uart, taken: bool, flags: ModemFlags) returns (u3: Uart, u4: Uart, u5: Uart)
    requires u2 == START.(rx := START.rx.(rbr := 66), w := START.w.(accepts := 1))
    ensures var on, off := Step.Write(2, 0x01, taken, flags), Step.Write(2, 0x00, taken, flags);
            && Next(u2, on) == u3 && ToRbr(u2, on) == DataRead(u2, on) == []
            && |u3.rx.fifo| <= UART_FIFO_LENGTH && |u4.rx.fifo| <= UART_FIFO_LENGTH
            && Next(u3, Receive([65])) == u4 && ToRbr(u3, Receive([65])) == DataRead(u3, Receive([65])) == []
            && Next(u4, off) == u5 && ToRbr(u4, off) == DataRead(u4, off) == [] && LeavesDr(u4, off)
            && ToRbr(u5, Step.Read(0, flags)) == [] && DataRead(u5, Step.Read(0, flags)) == [66] && IsRbrRead(u5, Step.Read(0, flags))
  {
    hide WriteReg, DataRead, ToRbr;
    u3 := u2.(g := u2.g.(fcr := 0x01), rx := u2.rx.(itl := 1), fifoId := true);
    u4 := u3.(rx := u3.rx.(fifo := [65], dr := true, timer := true));
    u5 := u4.(g := u4.g.(fcr := 0x00), rx := u4.rx.(fifo := [], timer := false), fifoId := false);
    FifosOn(u2, taken, flags);
    FirstByte(u3, 65);
    FifosOff(u4, taken, flags);
    PlainRead(u5, flags);
  }

  /** A byte that comes to an empty receiver. */
  lemma FirstByte(u: Uart, b: bv8)
    requires u.rx.fifo == [] && !u.rx.dr && !u.rx.oe
    ensures Next(u, Receive([b])).rx == if u.Fifo() then u.rx.(fifo := [b], dr := true, timer := true) else u.rx.(rbr := b, dr := true)
    ensures Next(u, Receive([b])).(rx := u.rx) == u
    ensures ToRbr(u, Receive([b])) == (if u.Fifo() then [] else [b]) && DataRead(u, Receive([b])) == []
  {
  }

  lemma PlainRead(u: Uart, flags: ModemFlags)
    requires !u.Dlab() && !u.Fifo() && u.rx.dr && |u.rx.fifo| <= UART_FIFO_LENGTH
    ensures Next(u, Step.Read(0, flags)) == ReadRbr(u) && DataRead(u, Step.Read(0, flags)) == [u.rx.rbr]
    ensures ToRbr(u, Step.Read(0, flags)) == []
  {
  }

  lemma FifosOn(u: Uart, taken: bool, flags: ModemFlags)
    requires u.g.fcr == 0x00 && u.rx.fifo == [] && !u.rx.timer && !u.rx.timeout
    ensures DataRead(u, Step.Write(2, 0x01, taken, flags)) == ToRbr(u, Step.Write(2, 0x01, taken, flags)) == []
    ensures WriteReg(u, 2, 0x01, flags) == u.(g := u.g.(fcr := 0x01), rx := u.rx.(itl := 1), fifoId := true)
  {
    assert TriggerLevel(0x01) == 1;
  }

  lemma FifosOff(u: Uart, taken: bool, flags: ModemFlags)
    requires u.g.fcr == 0x01 && |u.rx.fifo| <= UART_FIFO_LENGTH && !u.rx.timeout
    ensures WriteReg(u, 2, 0x00, flags) == u.(g := u.g.(fcr := 0x00), rx := u.rx.(fifo := [], timer := false), fifoId := false)
    ensures DataRead(u, Step.Write(2, 0x00, taken, flags)) == ToRbr(u, Step.Write(2, 0x00, taken, flags)) == []
  {
  }

  lemma NothingRead(u: Uart)
    requires Inv(u)
    ensures DataReads(u, []) == [] && Entered(u, []) == []
  {
  }

  /** Step i of a run. */
  lemma OneMore(u: Uart, run: seq<Step>, i: nat)
    requires Inv(u) && Runnable(run) && i < |run|
    ensures At(u, run, i + 1) == Next(At(u, run, i), run[i])
    ensures DataReads(u, run[..i + 1]) == DataReads(u, run[..i]) + DataRead(At(u, run, i), run[i])
    ensures Entered(u, run[..i + 1]) == Entered(u, run[..i]) + ToRbr(At(u, run, i), run[i])
  {
    hide *;
    PrefixRunnable(run, i);
    AtNext(u, run, i);
    AtIsRun(u, run, i);
    ReadsLast(u, run[..i], run[i]);
  }

  lemma PrefixRunnable(run: seq<Step>, i: nat)
    requires Runnable(run) && i < |run|
    ensures Runnable(run[..i]) && Runnable(run[..i + 1]) && Possible(run[i]) && run[..i + 1] == run[..i] + [run[i]]
  {
  }

  lemma AtIsRun(u: Uart, run: seq<Step>, i: nat)
    requires Inv(u) && Runnable(run) && i <= |run|
    ensures Runnable(run[..i]) && At(u, run, i) == Run(u, run[..i])
  {
  }

  lemma {:induction false} ReadsLast(u: Uart, run: seq<Step>, s: Step)
    requires Inv(u) && Runnable(run) && Possible(s)
    ensures Runnable(run + [s])
    ensures DataReads(u, run + [s]) == DataReads(u, run) + DataRead(Run(u, run), s)
    ensures Entered(u, run + [s]) == Entered(u, run) + ToRbr(Run(u, run), s)
    decreases |run|
  {
    hide Next, Inv, DataRead, ToRbr;
    InvBounds(u);
    if run == [] {
      assert run + [s] == [s] && [s][1..] == [];
      NextKeepsInv(u, s);
    } else {
      NextKeepsInv(u, run[0]);
      assert (run + [s])[1..] == run[1..] + [s];
      ReadsLast(Next(u, run[0]), run[1..], s);
    }
  }
}
