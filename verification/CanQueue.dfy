/** The two CAN drivers' queue code: six slots each way, shared by the system calls and the
    interrupt handler. */
module CanQueue {
  import opened Rings
  import opened CanCodec
  import opened QueueSpec

  /** The controller as the driver uses it; how a frame travels through its registers is the
      business of the codec. */
  class Controller {
    var tbs: bool
    var ti: bool
    var doi: bool
    var fifo: seq<Frame>
    var sent: seq<Frame>

    constructor ()
      ensures Abs() == START.chip
    {
      tbs, ti, doi, fifo, sent := true, false, false, [], [];
    }

    function Abs(): Chip
      reads this
    {
      Chip(tbs, ti, doi, fifo, sent)
    }

    /** The frame has left: the buffer is free and the transmit interrupt pending. */
    method TransmitDone()
      modifies this
      ensures Abs() == if old(tbs) then old(Abs()) else old(Abs()).(tbs := true, ti := true)
    {
      if !tbs {
        tbs, ti := true, true;
      }
    }

    method Arrive(can: Frame)
      modifies this
      ensures Abs() == old(Abs()).(fifo := old(fifo) + [can])
    {
      fifo := fifo + [can];
    }

    method Overrun()
      modifies this
      ensures Abs() == old(Abs()).(doi := true)
    {
      doi := true;
    }

    method SendMessage(can: Frame)
      modifies this
      ensures Abs() == Send(old(Abs()), can)
    {
      sent := sent + [can];
      tbs := false;
    }

    /** Reading a frame and releasing its buffer. */
    method ReceiveMessage() returns (can: Frame)
      requires fifo != []
      modifies this
      ensures can == old(fifo[0]) && Abs() == old(Abs().(fifo := fifo[1..]))
    {
      can := fifo[0];
      fifo := fifo[1..];
    }

    method ReleaseBuffer()
      requires fifo != []
      modifies this
      ensures Abs() == old(Abs().(fifo := fifo[1..]))
    {
      fifo := fifo[1..];
    }

    /** Reading the interrupt register acknowledges the transmit interrupt. */
    method ReadInterrupts() returns (t: bool, r: bool, d: bool)
      modifies this
      ensures t == old(ti) && r == (old(fifo) != []) && d == old(doi) && Abs() == old(Abs().(ti := false))
    {
      t, r, d := ti, fifo != [], doi;
      ti := false;
    }

    method ClearOverrun()
      modifies this
      ensures Abs() == old(Abs().(doi := false))
    {
      doi := false;
    }
  }

  class CanDev {
    const mode: Mode
    const chip: Controller
    const txBuf: array<Frame>
    const rxBuf: array<Frame>
    var txCount: nat
    var txIn: nat
    var txOut: nat
    var rxCount: nat
    var rxIn: nat
    var rxOut: nat
    /** A write is in progress, and what it read in the status register. */
    var writing: bool
    var released: bool

    ghost predicate Valid()
      reads this
    {
      && txBuf.Length == BUFFERSIZE && rxBuf.Length == BUFFERSIZE && txBuf != rxBuf
      && txCount <= BUFFERSIZE && txOut < BUFFERSIZE && txIn == Slot(txOut, txCount, BUFFERSIZE)
      && rxCount <= BUFFERSIZE && rxOut < BUFFERSIZE && rxIn == Slot(rxOut, rxCount, BUFFERSIZE)
      && (writing ==> txCount < BUFFERSIZE)
    }

    ghost function Tx(): seq<Frame>
      requires Valid()
      reads this, txBuf
    {
      Window(txBuf[..], txOut, txCount)
    }

    ghost function Rx(): seq<Frame>
      requires Valid()
      reads this, rxBuf
    {
      Window(rxBuf[..], rxOut, rxCount)
    }

    /** The frame of a write in progress is in the slot behind the queue, which nothing else touches. */
    ghost function Progress(): Call
      requires Valid()
      reads this, txBuf
    {
      if writing then Writing(txBuf[txIn], released) else Idle
    }

    ghost function Abs(): Can
      requires Valid()
      reads this, txBuf, rxBuf, chip
    {
      Can(Tx(), Rx(), Progress(), chip.Abs())
    }

    /** The queue part of `device_open`. */
    constructor (mode: Mode, chip: Controller)
      ensures Valid() && this.chip == chip && this.mode == mode
      ensures Abs() == Can([], [], Idle, chip.Abs())
    {
      this.mode := mode;
      this.chip := chip;
      txBuf := new Frame[BUFFERSIZE](_ => Frame(0, 0, NO_DATA));
      rxBuf := new Frame[BUFFERSIZE](_ => Frame(0, 0, NO_DATA));
      txCount, txIn, txOut := 0, 0, 0;
      rxCount, rxIn, rxOut := 0, 0, 0;
      writing, released := false, false;
    }

    lemma InIsOutPlusCount()
      requires Valid()
      ensures txIn == (txOut + txCount) % BUFFERSIZE && rxIn == (rxOut + rxCount) % BUFFERSIZE
    {
      SlotIsMod(txOut, txCount, BUFFERSIZE);
      SlotIsMod(rxOut, rxCount, BUFFERSIZE);
    }

    /** `device_write`: refuses a buffer of the wrong size and a frame that finds the queue full; sends
        at once if the transmit buffer is released, and queues otherwise. */
    method DeviceWrite(can: Frame, count: nat) returns (ret: int)
      requires Valid() && !writing
      modifies this`txCount, this`txIn, this`writing, this`released, txBuf, chip
      ensures Valid() && Abs() == AfterWrite(old(Abs()), can, count) && ret == WriteResult(old(Abs()), count)
    {
      ret := BeginWrite(can, count);
      if ret > 0 {
        EndWrite();
      }
    }

    /** Its first half: the checks, the frame copied into the slot behind the queue, the status read. */
    method BeginWrite(can: Frame, count: nat) returns (ret: int)
      requires Valid() && !writing
      modifies this`writing, this`released, txBuf
      ensures Valid() && Abs() == AfterBegin(old(Abs()), can, count) && ret == WriteResult(old(Abs()), count)
      ensures writing <==> ret > 0
    {
      if count != SIZEOF_CAN_FRAME {
        return -EINVAL;
      }
      if txCount == BUFFERSIZE {
        return -EFBIG;
      }
      ghost var slots := txBuf[..];
      txBuf[txIn] := can;
      assert txBuf[..] == slots[txIn := can];
      PushOutside(slots, txOut, txCount, can);
      writing, released := true, chip.tbs;
      return count;
    }

    /** Its second half, which goes by the status read in the first. */
    method EndWrite()
      requires Valid() && writing
      modifies this`txCount, this`txIn, this`writing, chip
      ensures Valid() && Abs() == AfterEnd(old(Abs()))
    {
      writing := false;
      if released {
        chip.SendMessage(txBuf[txIn]);
      } else {
        assert txBuf[..] == txBuf[..][txIn := txBuf[txIn]];
        PushBack(txBuf[..], txOut, txCount, txBuf[txIn]);
        txCount := txCount + 1;
        txIn := txIn + 1;
        if txIn == BUFFERSIZE {
          txIn := 0;
        }
      }
    }

    /** `device_read`. */
    method DeviceRead(count: nat) returns (ret: int, can: Frame)
      requires Valid()
      modifies this`rxCount, this`rxOut
      ensures Valid() && Abs() == AfterRead(old(Abs()), count) && ret == ReadResult(old(Abs()), count)
      ensures ret > 0 ==> can == old(Abs()).rx[0]
    {
      can := Frame(0, 0, NO_DATA);
      if count != SIZEOF_CAN_FRAME {
        return -EINVAL, can;
      }
      if rxCount == 0 {
        return 0, can;
      }
      PopFront(rxBuf[..], rxOut, rxCount);
      can := rxBuf[rxOut];
      rxOut := rxOut + 1;
      if rxOut == BUFFERSIZE {
        rxOut := 0;
      }
      rxCount := rxCount - 1;
      return count, can;
    }

    /** `irq_handler`. */
    method IrqHandler()
      requires Valid()
      modifies this, rxBuf, chip
      ensures Valid() && Abs() == Next(old(Abs()), Interrupt, mode)
    {
      ghost var s := Abs();
      var t, r, d := chip.ReadInterrupts();
      if t {
        FetchNext();
      }
      assert Abs() == AfterTi(s);
      Receive(r, d);
    }

    /** The transmit interrupt: the oldest waiting frame goes out. */
    method FetchNext()
      requires Valid()
      modifies this`txCount, this`txOut, chip
      ensures Valid() && Rx() == old(Rx())
      ensures old(Tx()) == [] ==> Abs() == old(Abs())
      ensures old(Tx()) != [] ==> Tx() == old(Tx())[1..] && chip.Abs() == Send(old(chip.Abs()), old(Tx())[0])
    {
      if txCount > 0 {
        PopFront(txBuf[..], txOut, txCount);
        chip.SendMessage(txBuf[txOut]);
        txOut := txOut + 1;
        if txOut == BUFFERSIZE {
          txOut := 0;
        }
        txCount := txCount - 1;
      }
    }

    /** The receive and overrun interrupts, as flagged when the register was read. */
    method Receive(r: bool, d: bool)
      requires Valid() && r == (chip.fifo != []) && d == chip.doi
      modifies this`rxCount, this`rxIn, rxBuf, chip
      ensures Valid() && Abs() == AfterRi(old(Abs()), mode)
    {
      if r {
        if rxCount == BUFFERSIZE {
          if mode.BasicCan? {
            chip.ReleaseBuffer();
          }
          return;
        }
        StoreFrame();
      }
      if d {
        chip.ClearOverrun();
      }
    }

    /** A frame for which the queue has room. */
    method StoreFrame()
      requires Valid() && chip.fifo != [] && rxCount < BUFFERSIZE
      modifies this`rxCount, this`rxIn, rxBuf, chip
      ensures Valid() && Tx() == old(Tx()) && Rx() == old(Rx()) + [old(chip.fifo[0])]
      ensures chip.Abs() == old(chip.Abs().(fifo := chip.fifo[1..]))
    {
      ghost var slots := rxBuf[..];
      var can := chip.ReceiveMessage();
      rxBuf[rxIn] := can;
      assert rxBuf[..] == slots[rxIn := can];
      PushBack(slots, rxOut, rxCount, can);
      rxCount := rxCount + 1;
      rxIn := rxIn + 1;
      if rxIn == BUFFERSIZE {
        rxIn := 0;
      }
    }

    /** Any step of a caller, the interrupt or the controller. */
    method Do(step: Step) returns (out: seq<Frame>)
      requires Valid()
      modifies this, txBuf, rxBuf, chip
      ensures Valid() && Abs() == Next(old(Abs()), step, mode) && out == Returns(old(Abs()), step)
    {
      out := [];
      match step
      case Begin(can, count) =>
        if !writing {
          var ret := BeginWrite(can, count);
        }
      case End =>
        if writing {
          EndWrite();
        }
      case Read(count) =>
        var ret, can := DeviceRead(count);
        out := if ret > 0 then [can] else [];
      case Interrupt => IrqHandler();
      case TransmitDone => chip.TransmitDone();
      case Arrive(can) => chip.Arrive(can);
      case Overrun => chip.Overrun();
    }

    /** Any run of steps on driver and controller: the state in the end, and the frames read. */
    method DoAll(run: seq<Step>) returns (out: seq<Frame>)
      requires Valid()
      modifies this, txBuf, rxBuf, chip
      ensures Valid() && Abs() == Run(old(Abs()), run, mode) && out == Returned(old(Abs()), run, mode)
    {
      hide Next, Returns;
      ghost var s := Abs();
      out := [];
      assert run[..0] == [];
      for i := 0 to |run|
        invariant Valid() && Abs() == Run(s, run[..i], mode) && out == Returned(s, run[..i], mode)
      {
        OneMoreStep(s, run[..i], run[i], mode);
        assert run[..i] + [run[i]] == run[..i + 1];
        var more := Do(run[i]);
        out := out + more;
      }
      assert run[..|run|] == run;
    }

    /** From an empty driver, undisturbed: what was sent, what waits and what is in hand is what was accepted,
        and what was read, what is queued and what waits in the controller is what arrived
        (less what a full BasicCAN queue threw away). */
    method DoAllSafely(run: seq<Step>) returns (out: seq<Frame>)
      requires Valid() && Abs() == START && Undisturbed(START, run, mode)
      modifies this, txBuf, rxBuf, chip
      ensures Valid() && chip.sent + Tx() + InHand(Abs()) == Accepted(START, run, mode)
      ensures out + Rx() == Kept(History(START, run, mode))
      ensures mode.PeliCan? ==> out + Rx() + chip.fifo == Arrived(run)
    {
      out := DoAll(run);
      FramesLeaveInOrder(START, run, mode);
      ReceptionLedger(START, run, mode);
      if mode.PeliCan? {
        PeliCanLosesNothing(START, run);
      }
      FromStart(run, mode);
    }
  }

  lemma FromStart(run: seq<Step>, mode: Mode)
    ensures Outgoing(START) + Accepted(START, run, mode) == Accepted(START, run, mode)
    ensures START.rx + Kept(History(START, run, mode)) == Kept(History(START, run, mode))
    ensures START.rx + START.chip.fifo + Arrived(run) == Arrived(run)
  {
  }

  lemma {:induction false} OneMoreStep(s: Can, run: seq<Step>, step: Step, mode: Mode)
    ensures Run(s, run + [step], mode) == Next(Run(s, run, mode), step, mode)
    ensures Returned(s, run + [step], mode) == Returned(s, run, mode) + Returns(Run(s, run, mode), step)
    decreases |run|
  {
    if run == [] {
      assert run + [step] == [step] && [step][1..] == [];
    } else {
      hide Next, Returns;
      assert (run + [step])[1..] == run[1..] + [step];
      OneMoreStep(Next(s, run[0], mode), run[1..], step, mode);
    }
  }

  /** Storing just past a window leaves the window alone. */
  lemma PushOutside<T>(s: seq<T>, start: nat, n: nat, x: T)
    requires start < |s| && n < |s|
    ensures Window(s[Slot(start, n, |s|) := x], start, n) == Window(s, start, n)
  {
  }
}
