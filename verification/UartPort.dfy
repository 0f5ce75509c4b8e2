/** The transmit path of the serial core and the 8250 driver, on the circular buffer they share. */
module UartTx {
  import opened Departures
  import opened Rings
  import opened Bits
  import opened TxSpec

  const UART_IER_THRI: bv8 := 0x02
  const UART_ACR_TXDIS: bv8 := 0x02

  // ---------- linux/circ_buf.h

  function CircCnt(head: int, tail: int): (n: nat)
    ensures n < UART_XMIT_SIZE
  {
    (head - tail) % UART_XMIT_SIZE
  }

  function CircSpace(head: int, tail: int): (n: nat)
    ensures n < UART_XMIT_SIZE
  {
    CircCnt(tail, head + 1)
  }

  function CircSpaceToEnd(head: int, tail: int): int {
    var end := UART_XMIT_SIZE - 1 - head;
    var n := (end + tail) % UART_XMIT_SIZE;
    if n <= end then n else end + 1
  }

  /** `x & (UART_XMIT_SIZE - 1)`. */
  function Wrap(x: nat): nat { BitAnd(x, UART_XMIT_SIZE - 1) }

  lemma WrapIsMod(x: nat)
    ensures Wrap(x) == x % UART_XMIT_SIZE
  {
    assert Pow2(12) == UART_XMIT_SIZE by {
      assert Pow2(4) == 16;
      Pow2Adds(4, 4);
      Pow2Adds(4, 8);
    }
    MaskIsMod(x, 12);
  }

  /** Free space, and the part of it before the end of the storage. */
  lemma SpaceFacts(head: nat, tail: nat)
    requires head < UART_XMIT_SIZE && tail < UART_XMIT_SIZE
    ensures head == Slot(tail, CircCnt(head, tail), UART_XMIT_SIZE)
    ensures CircSpace(head, tail) == CAPACITY - CircCnt(head, tail)
    ensures var c := CircSpaceToEnd(head, tail);
            && 0 <= c <= CircSpace(head, tail) && head + c <= UART_XMIT_SIZE
            && (c == 0 ==> CircSpace(head, tail) == 0)
  {
  }

  /** The head moves on by a block that does not cross the end. */
  lemma HeadMoves(head: nat, tail: nat, c: nat)
    requires head < UART_XMIT_SIZE && tail < UART_XMIT_SIZE && head + c <= UART_XMIT_SIZE
    requires CircCnt(head, tail) + c <= CAPACITY
    ensures CircCnt((head + c) % UART_XMIT_SIZE, tail) == CircCnt(head, tail) + c
  {
  }

  lemma TailMoves(head: nat, tail: nat)
    requires head < UART_XMIT_SIZE && tail < UART_XMIT_SIZE && head != tail
    ensures CircCnt(head, tail) > 0 && (tail + 1) % UART_XMIT_SIZE == Slot(tail, 1, UART_XMIT_SIZE)
    ensures CircCnt(head, (tail + 1) % UART_XMIT_SIZE) == CircCnt(head, tail) - 1
  {
  }

  class UartPort {
    const chip: Chip
    var buf: array?<bv8>
    var head: nat
    var tail: nat
    var ier: bv8
    var acr: bv8
    /** The registers of the chip itself, and all that was written to UART_TX. */
    var chipIer: bv8
    var chipAcr: bv8
    var sent: seq<Sent>
    var xChar: bv8
    var stopped: bool
    var hwStopped: bool
    var ctsFlow: bool

    /** The shadow registers are what the chip holds. */
    ghost predicate Valid()
      reads this
    {
      && head < UART_XMIT_SIZE && tail < UART_XMIT_SIZE
      && (buf != null ==> buf.Length == UART_XMIT_SIZE)
      && (buf == null ==> head == tail)
      && chipIer == ier && chipAcr == acr
      && (acr & UART_ACR_TXDIS != 0 ==> chip.is950)
    }

    ghost function Ring(): (r: seq<bv8>)
      requires Valid()
      reads this, buf
      ensures |r| == CircCnt(head, tail)
    {
      if buf == null then [] else Window(buf[..], tail, CircCnt(head, tail))
    }

    ghost function Abs(): (t: Tx)
      requires Valid()
      reads this, buf
      ensures Inv(chip, t)
    {
      Tx(Ring(), sent, ier & UART_IER_THRI != 0, acr & UART_ACR_TXDIS != 0, xChar, stopped, hwStopped, ctsFlow)
    }

    /** A port just started up: an empty ring, nothing enabled. */
    constructor (chip: Chip, ctsFlow: bool, cts: bool)
      ensures Valid() && fresh(buf) && this.chip == chip && Draining(Abs())
      ensures Abs() == Tx([], [], false, false, 0, false, ctsFlow && !cts, ctsFlow)
    {
      this.chip := chip;
      buf := new bv8[UART_XMIT_SIZE](_ => 0);
      head, tail, ier, acr, chipIer, chipAcr, sent, xChar := 0, 0, 0, 0, 0, 0, [], 0;
      stopped, hwStopped, this.ctsFlow := false, ctsFlow && !cts, ctsFlow;
    }

    // ---------- The 8250 driver

    /** `__stop_tx`. */
    method DisableThri()
      requires Valid()
      modifies `ier, `chipIer
      ensures Valid() && Abs() == old(Abs()).(thri := false)
    {
      if ier & UART_IER_THRI != 0 {
        ier := ier & !UART_IER_THRI;
        chipIer := ier;
      }
    }

    /** `serial8250_stop_tx`. */
    method Stop8250Tx()
      requires Valid()
      modifies `ier, `chipIer, `acr, `chipAcr
      ensures Valid() && Abs() == StopTx(chip, old(Abs()))
    {
      DisableThri();
      if chip.is950 {
        acr := acr | UART_ACR_TXDIS;
        chipAcr := acr;
      }
    }

    static function OneLoaded(t: Tx): Tx
      requires t.ring != []
    {
      t.(ring := t.ring[1..], sent := t.sent + [Data(t.ring[0])])
    }

    /** One byte from the ring to the chip. */
    method LoadOne() returns (empty: bool)
      requires Valid() && head != tail
      modifies `tail, `sent
      ensures Valid() && Abs() == OneLoaded(old(Abs()))
      ensures empty == (head == tail) == (Abs().ring == [])
    {
      hide Inv, Wrap, Window, Slot, CircCnt;
      RingFront();
      var b := buf[tail];
      tail := Wrap(tail + 1);
      assert Ring() == old(Ring())[1..];
      sent := sent + [Data(b)];
      empty := head == tail;
      RingEmptyIff();
    }

    lemma RingEmptyIff()
      requires Valid()
      ensures Ring() == [] <==> head == tail
    {
    }

    /** The oldest byte, and the ring once the tail has moved past it. */
    lemma RingFront()
      requires Valid() && head != tail
      ensures Ring() != [] && Ring()[0] == buf[tail] && Wrap(tail + 1) < UART_XMIT_SIZE
      ensures Window(buf[..], Wrap(tail + 1), CircCnt(head, Wrap(tail + 1))) == Ring()[1..]
    {
      hide Inv, Wrap, Window, Slot;
      TailMoves(head, tail);
      WrapIsMod(tail + 1);
      PopFront(buf[..], tail, CircCnt(head, tail));
    }

    /** After k bytes have been loaded. */
    static function Loaded(t: Tx, k: nat): Tx
      requires k <= |t.ring|
    {
      t.(ring := t.ring[k..], sent := t.sent + AsData(t.ring[..k]))
    }

    static lemma LoadedOneMore(t: Tx, k: nat)
      requires k < |t.ring|
      ensures Loaded(t, k).ring != [] && OneLoaded(Loaded(t, k)) == Loaded(t, k + 1)
      ensures Loaded(t, k + 1).ring == [] <==> k + 1 == |t.ring|
      ensures Loaded(t, 0) == t
    {
    }

    lemma LoadFacts(t: Tx)
      requires t.ring != []
      ensures var n := Load(chip, t);
              && 0 < n <= |t.ring| && (n == |t.ring| || n == chip.loadsz || n == 1)
              && if chip.loadsz == 0 then n == 1 else n <= chip.loadsz && (n == |t.ring| || n == chip.loadsz)
    {
    }

    /** The loading loop of `serial8250_tx_chars`. */
    method LoadChip()
      requires Valid() && head != tail
      modifies `tail, `sent
      ensures Valid()
      ensures Abs() == Loaded(old(Abs()), Load(chip, old(Abs())))
    {
      hide Inv, Window, Slot, CircCnt, AsData, OneLoaded, Loaded, Load;
      TailMoves(head, tail);
      ghost var t, k := Abs(), 0;
      ghost var n := Load(chip, t);
      LoadFacts(t);
      LoadedOneMore(t, 0);
      var count: int := chip.loadsz;
      var more := true;
      while more
        invariant 0 <= k <= n && Valid() && Abs() == Loaded(t, k)
        invariant if more then k < n && head != tail && count == chip.loadsz - k && (k == 0 || count > 0) else k == n
        decreases more, n - k
      {
        LoadedOneMore(t, k);
        var empty := LoadOne();
        k := k + 1;
        count := count - 1;
        more := !empty && count > 0;
      }
    }

    /** `serial8250_tx_chars`. */
    method TxInterrupt()
      requires Valid()
      modifies `tail, `sent, `xChar, `ier, `chipIer, `acr, `chipAcr
      ensures Valid() && Abs() == TxChars(chip, old(Abs()))
    {
      ghost var t := Abs();
      if xChar != 0 {
        sent := sent + [XChar(xChar)];
        xChar := 0;
        assert Abs() == TxChars(chip, t);
      } else if stopped || hwStopped {
        Stop8250Tx();
        assert Abs() == TxChars(chip, t);
      } else if head == tail {
        DisableThri();
        assert t.ring == [] && Abs() == TxChars(chip, t);
      } else {
        LoadAndCheck();
        assert Abs() == TxChars(chip, t);
      }
    }

    /** Loads the chip, and disables the interrupt if that emptied the ring. */
    method LoadAndCheck()
      requires Valid() && head != tail && xChar == 0 && !stopped && !hwStopped
      modifies `tail, `sent, `ier, `chipIer
      ensures Valid() && Abs() == Loaded(old(Abs()), Load(chip, old(Abs()))).(thri := old(Abs()).thri && head != tail)
      ensures head == tail <==> Load(chip, old(Abs())) == |old(Abs()).ring|
    {
      LoadChip();
      SpaceFacts(head, tail);
      if head == tail {
        DisableThri();
      }
    }

    /** `serial8250_start_tx`. */
    method Start8250Tx(idle: bool)
      requires Valid()
      modifies `tail, `sent, `xChar, `ier, `chipIer, `acr, `chipAcr
      ensures Valid() && Abs() == StartTx(chip, old(Abs()), idle)
    {
      EnableThri(idle);
      ClearTxdis();
    }

    /** The first half: THRI, and the workaround for chips that raise no interrupt on it. */
    method EnableThri(idle: bool)
      requires Valid()
      modifies `tail, `sent, `xChar, `ier, `chipIer, `acr, `chipAcr
      ensures Valid() && Abs() == Enabled(chip, old(Abs()), idle)
    {
      if ier & UART_IER_THRI == 0 {
        ier := ier | UART_IER_THRI;
        chipIer := ier;
        assert Abs() == old(Abs()).(thri := true);
        if chip.bugTxen && idle {
          TxInterrupt();
        }
      }
    }

    /** The second half: the transmitter is switched on again if it had been switched off. */
    method ClearTxdis()
      requires Valid()
      modifies `acr, `chipAcr
      ensures Valid() && Abs() == old(Abs()).(txdis := old(Abs()).txdis && !chip.is950)
    {
      if chip.is950 && acr & UART_ACR_TXDIS != 0 {
        acr := acr & !UART_ACR_TXDIS;
        chipAcr := acr;
      }
    }

    // ---------- The serial core

    /** `uart_start`. */
    method Start(idle: bool)
      requires Valid()
      modifies `tail, `sent, `xChar, `ier, `chipIer, `acr, `chipAcr
      ensures Valid() && Abs() == UartStart(chip, old(Abs()), idle)
    {
      if head != tail && buf != null && !stopped && !hwStopped {
        Start8250Tx(idle);
      }
    }

    /** The copy loop of `uart_write`: fills the ring, going round its end if need be. */
    method FillRing(src: seq<bv8>, total: int) returns (ret: nat)
      requires Valid() && buf != null && total <= |src|
      modifies `head, buf
      ensures Valid() && buf == old(buf)
      ensures ret == Min(if total < 0 then 0 else total, CAPACITY - |old(Ring())|)
      ensures Abs() == old(Abs()).(ring := old(Ring()) + src[..ret])
    {
      hide Inv, CircCnt, Window, Slot;
      ghost var t, ring := Abs(), Ring();
      var count := total;
      ret := 0;
      while true
        invariant Valid() && buf == old(buf)
        invariant ret <= |src| && |ring| + ret <= CAPACITY
        invariant count == total - ret && (total < 0 ==> ret == 0) && (total >= 0 ==> count >= 0)
        invariant Ring() == ring + src[..ret]
        decreases if count < 0 then 0 else count
      {
        var c := FillChunk(src, ret, count);
        if c <= 0 {
          break;
        }
        FilledMore(ring, src, ret, c);
        count := count - c;
        ret := ret + c;
      }
      assert Abs() == t.(ring := Ring());
    }

    /** One round of the loop: up to the end of the storage, the free space or the data. */
    method FillChunk(src: seq<bv8>, start: nat, count: int) returns (c: int)
      requires Valid() && buf != null && start <= |src| && start + count <= |src|
      modifies `head, buf
      ensures Valid() && buf == old(buf)
      ensures c > 0 ==> (c <= count && Ring() == old(Ring()) + src[start..start + c])
      ensures c <= 0 ==> (Ring() == old(Ring()) && (count <= 0 || |Ring()| == CAPACITY))
    {
      hide Inv, Window, Slot, CircSpaceToEnd, CircSpace;
      SpaceFacts(head, tail);
      c := CircSpaceToEnd(head, tail);
      if count < c {
        c := count;
      }
      if c > 0 {
        CopyIn(src[start..start + c]);
      }
    }

    static lemma FilledMore(ring: seq<bv8>, src: seq<bv8>, ret: nat, c: nat)
      requires ret + c <= |src|
      ensures (ring + src[..ret]) + src[ret..ret + c] == ring + src[..ret + c]
    {
    }

    /** `memcpy` of a block at the head, and the head's move. */
    method CopyIn(block: seq<bv8>)
      requires Valid() && buf != null && head + |block| <= UART_XMIT_SIZE && CircCnt(head, tail) + |block| <= CAPACITY
      modifies `head, buf
      ensures Valid() && buf == old(buf) && Ring() == old(Ring()) + block
    {
      hide Inv, Window, Slot, CircCnt, CircSpace, CircSpaceToEnd, Wrap;
      ghost var before := buf[..];
      CopyBlock(block);
      SpaceFacts(head, tail);
      HeadMoves(head, tail, |block|);
      PushBlock(before, buf[..], tail, CircCnt(head, tail), block);
      WrapIsMod(head + |block|);
      head := Wrap(head + |block|);
    }

    method CopyBlock(block: seq<bv8>)
      requires buf != null && buf.Length == UART_XMIT_SIZE && head + |block| <= UART_XMIT_SIZE
      modifies buf
      ensures forall k :: 0 <= k < |block| ==> buf[head + k] == block[k]
      ensures forall k :: 0 <= k < UART_XMIT_SIZE && !(head <= k < head + |block|) ==> buf[k] == old(buf[k])
    {
      for i := 0 to |block|
        invariant forall k :: 0 <= k < i ==> buf[head + k] == block[k]
        invariant forall k :: 0 <= k < UART_XMIT_SIZE && !(head <= k < head + i) ==> buf[k] == old(buf[k])
      {
        buf[head + i] := block[i];
      }
    }

    /** `uart_write`. */
    method Write(src: seq<bv8>, idle: bool) returns (ret: nat)
      requires Valid()
      modifies `head, buf, `tail, `sent, `xChar, `ier, `chipIer, `acr, `chipAcr
      ensures Valid() && buf == old(buf)
      ensures buf == null ==> ret == 0 && Abs() == old(Abs())
      ensures buf != null ==> ret == Min(|src|, CAPACITY - |old(Ring())|) && Abs() == Next(chip, old(Abs()), TxSpec.Write(src, idle))
    {
      hide Window, Slot, CircCnt, StartTx;
      if buf == null {
        return 0;
      }
      ret := FillRing(src, |src|);
      Start(idle);
    }

    /** `uart_put_char`. */
    method PutChar(c: bv8) returns (ret: nat)
      requires Valid()
      modifies `head, buf
      ensures Valid() && buf == old(buf)
      ensures ret == if buf == null then 0 else |Accepted(old(Abs()), [c])|
      ensures buf != null ==> Abs() == Next(chip, old(Abs()), PutOne(c))
      ensures buf == null ==> Abs() == old(Abs())
    {
      hide Window, Slot, CircCnt, CircSpace, CircSpaceToEnd;
      ret := 0;
      assert [c][..1] == [c] && Ring() + [c][..0] == Ring();
      if buf != null {
        SpaceFacts(head, tail);
        if CircSpace(head, tail) != 0 {
          CopyIn([c]);
          ret := 1;
        }
      }
    }

    /** `uart_handle_cts_change`. */
    method HandleCtsChange(active: bool, idle: bool)
      requires Valid()
      modifies `hwStopped, `tail, `sent, `xChar, `ier, `chipIer, `acr, `chipAcr
      ensures Valid() && Abs() == Next(chip, old(Abs()), CtsLine(active, idle))
    {
      hide Window, Slot, CircCnt, StartTx, StopTx;
      if ctsFlow {
        if hwStopped {
          if active {
            hwStopped := false;
            assert Abs() == old(Abs()).(hwStopped := false);
            Start8250Tx(idle);
          }
        } else {
          if !active {
            hwStopped := true;
            assert Abs() == old(Abs()).(hwStopped := true);
            Stop8250Tx();
          }
        }
      }
    }

    /** The tty is stopped, then `uart_stop`. */
    method StopTty()
      requires Valid()
      modifies `stopped, `ier, `chipIer, `acr, `chipAcr
      ensures Valid() && Abs() == Next(chip, old(Abs()), TxSpec.StopTty)
    {
      stopped := true;
      assert Abs() == old(Abs()).(stopped := true);
      Stop8250Tx();
    }

    /** The tty is released, then `uart_start`. */
    method StartTty(idle: bool)
      requires Valid()
      modifies `stopped, `tail, `sent, `xChar, `ier, `chipIer, `acr, `chipAcr
      ensures Valid() && Abs() == Next(chip, old(Abs()), TxSpec.StartTty(idle))
    {
      stopped := false;
      assert Abs() == old(Abs()).(stopped := false);
      Start(idle);
    }

    /** `uart_send_xchar`. */
    method SendXchar(ch: bv8, idle: bool)
      requires Valid()
      modifies `tail, `sent, `xChar, `ier, `chipIer, `acr, `chipAcr
      ensures Valid() && Abs() == Next(chip, old(Abs()), TxSpec.SendXchar(ch, idle))
    {
      xChar := ch;
      assert Abs() == old(Abs()).(xchar := ch);
      if ch != 0 {
        Start8250Tx(idle);
      }
    }

    /** `uart_flush_buffer`. */
    method FlushBuffer()
      requires Valid()
      modifies `head, `tail
      ensures Valid() && Abs() == Next(chip, old(Abs()), TxSpec.FlushBuffer)
    {
      head, tail := 0, 0;
    }

    /** The part of `uart_set_termios` that follows CRTSCTS being switched. */
    method SetCrtscts(on: bool, cts: bool, idle: bool)
      requires Valid()
      modifies `ctsFlow, `hwStopped, `tail, `sent, `xChar, `ier, `chipIer, `acr, `chipAcr
      ensures Valid()
      ensures Abs() == Next(chip, old(Abs()), if on then CrtsctsOn(cts) else CrtsctsOff(idle))
    {
      hide Window, Slot, CircCnt, StartTx, StopTx, UartStart;
      if on {
        SwitchFlowOn(cts);
      } else {
        SwitchFlowOff(idle);
      }
    }

    method SwitchFlowOff(idle: bool)
      requires Valid()
      modifies `ctsFlow, `hwStopped, `tail, `sent, `xChar, `ier, `chipIer, `acr, `chipAcr
      ensures Valid() && Abs() == UartStart(chip, old(Abs()).(ctsFlow := false, hwStopped := false), idle)
    {
      hide Window, Slot, CircCnt, StartTx, StopTx, UartStart;
      ctsFlow := false;
      hwStopped := false;
      assert Abs() == old(Abs()).(ctsFlow := false, hwStopped := false);
      Start(idle);
    }

    method SwitchFlowOn(cts: bool)
      requires Valid()
      modifies `ctsFlow, `hwStopped, `ier, `chipIer, `acr, `chipAcr
      ensures Valid()
      ensures Abs() == if cts then old(Abs()).(ctsFlow := true) else StopTx(chip, old(Abs()).(ctsFlow := true, hwStopped := true))
    {
      hide Window, Slot, CircCnt, StartTx, StopTx;
      ctsFlow := true;
      if !cts {
        hwStopped := true;
        assert Abs() == old(Abs()).(ctsFlow := true, hwStopped := true);
        Stop8250Tx();
      }
    }

    /** Any step of the port. */
    method Do(s: Step)
      requires Valid() && buf != null
      modifies this, buf
      ensures Valid() && buf == old(buf) && Abs() == Next(chip, old(Abs()), s)
    {
      hide Window, Slot, CircCnt, StartTx, StopTx, TxChars, Accepted;
      match s
      case Write(src, idle) => var ret := Write(src, idle);
      case PutOne(b) => var ret := PutChar(b);
      case FlushChars(idle) => Start(idle);
      case Interrupt => TxInterrupt();
      case CtsLine(active, idle) => HandleCtsChange(active, idle);
      case StopTty => StopTty();
      case StartTty(idle) => StartTty(idle);
      case SendXchar(ch, idle) => SendXchar(ch, idle);
      case FlushBuffer => FlushBuffer();
      case CrtsctsOff(idle) => SetCrtscts(false, false, idle);
      case CrtsctsOn(cts) => SetCrtscts(true, cts, false);
    }

    /** Any run of steps of a port that starts out draining: what left the ring and what is in it is what was
        there and what was accepted, what reached UART_TX is what left it otherwise than by a flush, and
        unless a `uart_put_char` still lacks its flush, a live port with bytes waiting has THRI enabled. */
    method DoAll(run: seq<Step>)
      requires Valid() && buf != null && Draining(Abs())
      modifies this, buf
      ensures Valid() && buf == old(buf) && Abs() == Run(chip, old(Abs()), run)
      ensures Bytes(Left(chip, old(Abs()), run)) + Ring() == old(Ring()) + Taken(chip, old(Abs()), run)
      ensures DataOf(sent) == DataOf(old(sent)) + DeliveredBytes(Left(chip, old(Abs()), run))
      ensures Dirty(chip, old(Abs()), false, run) || head == tail || stopped || hwStopped
        || (ier & UART_IER_THRI != 0 && chipIer & UART_IER_THRI != 0)
    {
      hide Next, Inv, Window, Slot, CircCnt, Draining, DataOf;
      ghost var t := Abs();
      assert run[..0] == [];
      for i := 0 to |run|
        invariant Valid() && buf == old(buf) && Abs() == Run(chip, t, run[..i])
      {
        RunOneMore(chip, t, run[..i], run[i]);
        assert run[..i] + [run[i]] == run[..i + 1];
        Do(run[i]);
      }
      assert run[..|run|] == run;
      BytesConserved(chip, t, run);
      NoLostWakeup(chip, t, false, run);
      if Draining(Abs()) && head != tail && !stopped && !hwStopped {
        ShadowIer(this);
      }
    }
  }

  /** On the driver's own registers: a port in a draining state that is live and has bytes waiting has THRI
      set in the shadow IER and in the chip. */
  lemma ShadowIer(p: UartPort)
    requires p.Valid() && Draining(p.Abs()) && p.head != p.tail && !p.stopped && !p.hwStopped
    ensures p.ier & 0x02 != 0 && p.chipIer & 0x02 != 0 && p.chipAcr & 0x02 == 0
  {
    TailMoves(p.head, p.tail);
    assert p.Abs().ring != [];
  }
}
