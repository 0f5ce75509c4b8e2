/** The emulated CAN card and the driver that was written to exercise it. */
module CanEmulator {
  import opened CanCodec
  import opened CanPort

  const RESET_BIT: bv8 := 0x01
  const TBS: bv8 := 0x04
  const SJA_MODE_REG: nat := 0
  const SJA_STATUS_REG: nat := 2
  const IRQ_ACK_REG: nat := 127
  const PCI_MEM_SIZE: nat := 128
  const EFAULT: int := 14

  predicate InReset(mode: bv8) { mode & RESET_BIT != 0 }

  predicate Requests(addr: nat, val: bv8) { addr == SJA_COMMAND_REG && val & 0x01 != 0 }

  function ModeWritten(val: bv8): bv8 { 0x1f & val }

  /** A register write to the buffer window, if it is let through. */
  function Stored(buff: seq<bv8>, addr: nat, val: bv8, open: bool): (b: seq<bv8>)
    ensures |b| == |buff|
  {
    if open && 16 <= addr < 16 + |buff| then buff[addr - 16 := val] else buff
  }

  class CanState {
    var mode: bv8
    var status: bv8
    const trxBuff: array<bv8>
    const codeMask: array<bv8>
    const txBuff: array<bv8>
    var irq: bool
    /** The frames written to the character backend. */
    var chr: seq<Frame>

    predicate Valid()
      reads this
    {
      && trxBuff.Length == 13 && codeMask.Length == 8 && txBuff.Length == 13
      && trxBuff != txBuff
      && status == 0x0c
    }

    /** `can_pci_init` with `can_hardware_reset`. */
    constructor ()
      ensures Valid() && mode == 0x01 && !irq && chr == []
      ensures fresh(trxBuff) && fresh(codeMask) && fresh(txBuff)
      ensures Dlc(trxBuff[0]) <= 8
    {
      trxBuff := new bv8[13](_ => 0);
      codeMask := new bv8[8](_ => 0);
      txBuff := new bv8[13](_ => 0);
      mode, status, irq, chr := 0x01, 0x0c, false, [];
      new;
      assert trxBuff[0] == 0;
    }

    /** `buff2frame`, on a frame whose identifier is 0 on entry. */
    static method Buff2Frame(buff: array<bv8>) returns (can: Frame)
      requires buff.Length == 13 && Dlc(buff[0]) <= 8
      ensures can == Decode(buff[..])
    {
      hide Or, EffShift, SffShift, Flags, IsEff, IsRtr, Dlc;
      FlagParts(buff[0]);
      var id: bv32 := 0;
      if IsRtr(buff[0]) {
        id := RTR_FLAG;
      }
      var dlc := Dlc(buff[0]);
      var data;
      if IsEff(buff[0]) {
        Associate(Or(id, EFF_FLAG), EffShift(buff[1], 0), EffShift(buff[2], 1), EffShift(buff[3], 2), EffShift(buff[4], 3));
        id := Or(id, EFF_FLAG);
        id := Or(id, EffShift(buff[1], 0));
        id := Or(id, EffShift(buff[2], 1));
        id := Or(id, EffShift(buff[3], 2));
        id := Or(id, EffShift(buff[4], 3));
        data := CopyData(buff, 5, dlc);
        PayloadWindow(buff[..], buff[5..13], 5, dlc);
      } else {
        AssociateTwo(id, SffShift(buff[1], 0), SffShift(buff[2], 1));
        id := Or(id, SffShift(buff[1], 0));
        id := Or(id, SffShift(buff[2], 1));
        data := CopyData(buff, 3, dlc);
        PayloadWindow(buff[..], buff[3..11], 3, dlc);
      }
      can := Frame(id, dlc, data);
    }

    /** The two payload loops: the data, then zeros. */
    static method CopyData(buff: array<bv8>, start: nat, n: nat) returns (data: seq<bv8>)
      requires n <= 8 && start + 8 <= buff.Length
      ensures data == Payload(buff[start..start + 8], n)
    {
      data := [];
      for i := 0 to n
        invariant data == buff[start..start + i]
      {
        data := data + [buff[start + i]];
      }
      for i := n to 8
        invariant |data| == i && forall k :: 0 <= k < i ==> data[k] == if k < n then buff[start + k] else 0
      {
        data := data + [0];
      }
    }

    /** `can_mem_write`. The transmit request hands the frame to the backend at once and raises the
        interrupt; in reset mode the buffer window leads to the acceptance code and mask instead. */
    method MemWrite(addr: nat, val: bv8)
      requires Valid() && (Requests(addr, val) ==> Dlc(trxBuff[0]) <= 8)
      modifies `mode, `irq, `chr, trxBuff, codeMask, txBuff
      ensures Valid()
      ensures mode == if addr == SJA_MODE_REG then ModeWritten(val) else old(mode)
      ensures trxBuff[..] == Stored(old(trxBuff[..]), addr, val, !InReset(old(mode)))
      ensures codeMask[..] == Stored(old(codeMask[..]), addr, val, InReset(old(mode)))
      ensures chr == if Requests(addr, val) then old(chr) + [Decode(old(trxBuff[..]))] else old(chr)
      ensures irq == (Requests(addr, val) || (old(irq) && !(addr == IRQ_ACK_REG && val == 0x33)))
    {
      hide InReset, ModeWritten, Decode, Dlc;
      if addr > PCI_MEM_SIZE {
        return;
      }
      match addr {
        case 0 =>
          mode := ModeWritten(val);
        case 1 =>
          if Requests(addr, val) {
            forall i | 0 <= i < 13 {
              txBuff[i] := trxBuff[i];
            }
            assert txBuff[..] == trxBuff[..];
            var can := Buff2Frame(txBuff);
            chr := chr + [can];
            irq := true;
          }
        case 127 =>
          if val == 0x33 {
            irq := false;
          }
        case _ =>
          if 16 <= addr <= 28 {
            WindowWrite(addr, val);
          }
      }
    }

    /** Registers 16 to 28. */
    method WindowWrite(addr: nat, val: bv8)
      requires Valid() && 16 <= addr <= 28
      modifies trxBuff, codeMask
      ensures trxBuff[..] == Stored(old(trxBuff[..]), addr, val, !InReset(mode))
      ensures codeMask[..] == Stored(old(codeMask[..]), addr, val, InReset(mode))
    {
      if InReset(mode) {
        if addr < 24 {
          codeMask[addr - 16] := val;
        }
      } else {
        trxBuff[addr - 16] := val;
      }
    }

    /** `can_mem_read`. */
    method MemRead(addr: nat) returns (val: bv8)
      requires Valid()
      ensures val == if addr > PCI_MEM_SIZE then 0 else if addr == SJA_MODE_REG then mode
        else if addr == SJA_STATUS_REG then 0x0c else 0xff
    {
      if addr > PCI_MEM_SIZE {
        return 0;
      }
      match addr {
        case 0 => val := mode;
        case 2 => val := status;
        case _ => val := 0xff;
      }
    }
  }

  /** The buffer window after the bytes b were written to it in order from register 16 on. */
  function Fill(buff: seq<bv8>, b: seq<bv8>, open: bool): (f: seq<bv8>)
    requires |b| <= |buff|
    ensures |f| == |buff|
  {
    if open then b + buff[|b|..] else buff
  }

  lemma FillNext(buff: seq<bv8>, b: seq<bv8>, v: bv8, open: bool)
    requires |b| < |buff|
    ensures Stored(Fill(buff, b, open), 16 + |b|, v, open) == Fill(buff, b + [v], open)
  {
  }

  class TestDriver {
    const chip: CanState
    const sizeofCanDev: nat
    const txBuf: array<Frame>
    var txCount: nat
    var txIn: nat

    predicate Valid()
      reads this, chip, chip.trxBuff
    {
      && chip.Valid() && Dlc(chip.trxBuff[0]) <= 8
      && txBuf.Length == BUFFERSIZE && txIn < BUFFERSIZE && txCount == 0
      && sizeofCanDev >= SIZEOF_CAN_FRAME
    }

    constructor (chip: CanState, sizeofCanDev: nat)
      requires chip.Valid() && Dlc(chip.trxBuff[0]) <= 8 && sizeofCanDev >= SIZEOF_CAN_FRAME
      ensures Valid() && this.chip == chip && fresh(txBuf)
    {
      this.chip := chip;
      this.sizeofCanDev := sizeofCanDev;
      txBuf := new Frame[BUFFERSIZE](_ => Frame(0, 0, NO_DATA));
      txCount, txIn := 0, 0;
    }

    /** `device_open`: into reset mode and back, with at most three writes in all. On this chip it
        succeeds from any mode, in one or two writes. */
    method DeviceOpen() returns (ret: int)
      requires Valid()
      modifies chip`mode, chip`irq, chip`chr, chip.trxBuff, chip.codeMask, chip.txBuff
      ensures Valid() && ret == 0 && !InReset(chip.mode)
      ensures chip.chr == old(chip.chr) && chip.irq == old(chip.irq) && chip.trxBuff[..] == old(chip.trxBuff[..])
    {
      hide InReset, Dlc, ModeWritten;
      var count := 0;
      var temp := chip.MemRead(SJA_MODE_REG);
      while !InReset(temp) && count < 3
        invariant 0 <= count <= 1 && temp == chip.mode && (InReset(temp) || count == 0)
        invariant chip.Valid() && chip.trxBuff[..] == old(chip.trxBuff[..])
        invariant chip.chr == old(chip.chr) && chip.irq == old(chip.irq)
        decreases 3 - count
      {
        SetReset(temp);
        temp := WithReset(temp);
        chip.MemWrite(SJA_MODE_REG, temp);
        count := count + 1;
        temp := chip.MemRead(SJA_MODE_REG);
      }
      if !InReset(temp) {
        return -EFAULT;
      }
      temp := chip.MemRead(SJA_MODE_REG);
      ghost var first := count;
      while InReset(temp) && count < 3
        invariant first <= count <= first + 1 && temp == chip.mode && (InReset(temp) <==> count == first)
        invariant chip.Valid() && chip.trxBuff[..] == old(chip.trxBuff[..])
        invariant chip.chr == old(chip.chr) && chip.irq == old(chip.irq)
        decreases 3 - count
      {
        ClearReset(temp);
        temp := WithoutReset(temp);
        chip.MemWrite(SJA_MODE_REG, temp);
        count := count + 1;
        temp := chip.MemRead(SJA_MODE_REG);
      }
      assert chip.trxBuff[..][0] == old(chip.trxBuff[..])[0];
      if InReset(temp) {
        return -EFAULT;
      }
      return 0;
    }

    /** One `iowrite8` into the buffer window. */
    method Put(index: nat, v: bv8, ghost buff: seq<bv8>, ghost b: seq<bv8>, ghost open: bool)
      requires chip.Valid() && |b| < |buff| == 13 && index == 16 + |b| && open == !InReset(chip.mode)
      requires chip.trxBuff[..] == Fill(buff, b, open)
      modifies chip`mode, chip`irq, chip`chr, chip.trxBuff, chip.codeMask, chip.txBuff
      ensures chip.Valid() && chip.mode == old(chip.mode) && chip.irq == old(chip.irq) && chip.chr == old(chip.chr)
      ensures chip.trxBuff[..] == Fill(buff, b + [v], open)
    {
      hide Fill, InReset, Dlc, Decode, ModeWritten;
      FillNext(buff, b, v, open);
      chip.MemWrite(index, v);
    }

    /** The frame information and the identifier. */
    method PutHead(can: Frame, ghost buff: seq<bv8>, ghost open: bool) returns (index: nat)
      requires chip.Valid() && can.Proper() && |buff| == 13 && open == !InReset(chip.mode)
      requires chip.trxBuff[..] == buff
      modifies chip`mode, chip`irq, chip`chr, chip.trxBuff, chip.codeMask, chip.txBuff
      ensures chip.Valid() && chip.mode == old(chip.mode) && chip.irq == old(chip.irq) && chip.chr == old(chip.chr)
      ensures index == 16 + |Head(can)| && chip.trxBuff[..] == Fill(buff, Head(can), open)
    {
      hide InReset, Info, EffByte, SffHigh, SffLow, HasEff, Fill, Decode;
      index := TX_FRAME_INFO_REG;
      ghost var b: seq<bv8> := [];
      FillNothing(buff, open);
      Put(index, Info(can), buff, b, open);
      b := b + [Info(can)];
      index := index + 1;
      if can.Eff() {
        Put(index, EffByte(can.id, 0), buff, b, open);
        b := b + [EffByte(can.id, 0)];
        index := index + 1;
        Put(index, EffByte(can.id, 1), buff, b, open);
        b := b + [EffByte(can.id, 1)];
        index := index + 1;
        Put(index, EffByte(can.id, 2), buff, b, open);
        b := b + [EffByte(can.id, 2)];
        index := index + 1;
        Put(index, EffByte(can.id, 3), buff, b, open);
        b := b + [EffByte(can.id, 3)];
        index := index + 1;
        assert b == Head(can);
      } else {
        Put(index, SffHigh(can.id), buff, b, open);
        b := b + [SffHigh(can.id)];
        index := index + 1;
        Put(index, SffLow(can.id), buff, b, open);
        b := b + [SffLow(can.id)];
        index := index + 1;
        assert b == Head(can);
      }
    }

    /** The register writes of `device_write`, which end with the transmission request. In operation
        mode the backend gets the frame as Carried says; in reset mode the frame goes to the
        acceptance registers and the backend gets the frame that was in the buffer before. */
    method Transmit(can: Frame)
      requires Valid() && can.Proper()
      modifies chip`mode, chip`irq, chip`chr, chip.trxBuff, chip.codeMask, chip.txBuff
      ensures Valid() && chip.mode == old(chip.mode) && chip.irq
      ensures chip.chr == old(chip.chr) + [if InReset(old(chip.mode)) then old(Decode(chip.trxBuff[..])) else Carried(can)]
    {
      hide InReset, Head, Dlc, Decode, Carried, Fill;
      ghost var buff, open := chip.trxBuff[..], !InReset(chip.mode);
      var index := PutHead(can, buff, open);
      assert Head(can) + can.data[..0] == Head(can);
      for i := 0 to can.dlc
        invariant chip.Valid() && chip.mode == old(chip.mode) && chip.irq == old(chip.irq) && chip.chr == old(chip.chr)
        invariant index == 16 + |Head(can)| + i && chip.trxBuff[..] == Fill(buff, Head(can) + can.data[..i], open)
      {
        Put(index, can.data[i], buff, Head(can) + can.data[..i], open);
        assert Head(can) + can.data[..i] + [can.data[i]] == Head(can) + can.data[..i + 1];
        index := index + 1;
      }
      FilledFrame(buff, can, open);
      assert chip.trxBuff[..][0] == chip.trxBuff[0] && buff[0] == old(chip.trxBuff[0]);
      ghost var filled := chip.trxBuff[..];
      chip.MemWrite(SJA_COMMAND_REG, 0x01);
      assert chip.trxBuff[..] == filled;
      assert chip.trxBuff[0] == filled[0];
    }

    /** `device_write`. The chip always reports its transmit buffer as free, so nothing is ever queued,
        and a frame of the right size is transmitted within the call. */
    method DeviceWrite(can: Frame, count: nat) returns (ret: int)
      requires Valid() && can.Proper()
      modifies txBuf, chip`mode, chip`irq, chip`chr, chip.trxBuff, chip.codeMask, chip.txBuff
      ensures Valid() && chip.mode == old(chip.mode)
      ensures ret == if count > BUFFERSIZE * sizeofCanDev then -EFBIG else if count != SIZEOF_CAN_FRAME then -EINVAL else 0
      ensures ret != 0 ==> chip.chr == old(chip.chr) && chip.irq == old(chip.irq)
      ensures ret == 0 ==> chip.irq
      ensures ret == 0 ==>
        chip.chr == old(chip.chr) + [if InReset(old(chip.mode)) then old(Decode(chip.trxBuff[..])) else Carried(can)]
    {
      ret := 0;
      if count > BUFFERSIZE * sizeofCanDev - txCount {
        return -EFBIG;
      }
      if count != SIZEOF_CAN_FRAME {
        return -EINVAL;
      }
      txBuf[txIn] := can;
      var temp := chip.MemRead(SJA_STATUS_REG);
      if temp & TBS != TBS {
        assert false;  // the code would queue the frame here
      }
      Transmit(txBuf[txIn]);
    }

    /** The interrupt handler acknowledges the interrupt. */
    method IrqHandler()
      requires Valid()
      modifies chip`mode, chip`irq, chip`chr, chip.trxBuff, chip.codeMask, chip.txBuff
      ensures Valid() && !chip.irq && chip.mode == old(chip.mode) && chip.chr == old(chip.chr)
    {
      chip.MemWrite(IRQ_ACK_REG, 0x33);
      assert chip.trxBuff[..][0] == old(chip.trxBuff[..])[0];
    }
  }

  function WithReset(mode: bv8): bv8 { mode | RESET_BIT }

  function WithoutReset(mode: bv8): bv8 { mode & !RESET_BIT }

  /** The mode register keeps five bits, and bit 0 is reset mode. */
  lemma ModeBits(val: bv8)
    ensures ModeWritten(val) == val % 32 && (InReset(val) <==> val % 2 == 1)
    ensures WithReset(val) == (if val % 2 == 1 then val else val + 1) && WithoutReset(val) == val - val % 2
  {
  }

  lemma SetReset(mode: bv8)
    ensures InReset(ModeWritten(WithReset(mode)))
  {
  }

  lemma ClearReset(mode: bv8)
    ensures !InReset(ModeWritten(WithoutReset(mode)))
  {
  }

  lemma FillNothing(buff: seq<bv8>, open: bool)
    ensures Fill(buff, [], open) == buff
  {
  }

  /** A buffer filled with the encoding of a frame. */
  lemma FilledFrame(buff: seq<bv8>, can: Frame, open: bool)
    requires can.Proper() && |buff| == 13 && Dlc(buff[0]) <= 8
    ensures var f := Fill(buff, Head(can) + can.data[..can.dlc], open);
            Decode(f) == (if open then Carried(can) else Decode(buff)) && Dlc(f[0]) <= 8
  {
    hide Info, Dlc, Decode, Carried;
    var f := Fill(buff, Encode(can), open);
    if open {
      RoundTrip(can, f);
      assert f[0] == Head(can)[0] == Info(can);
      InfoRoundTrip(can);
    }
  }
}
