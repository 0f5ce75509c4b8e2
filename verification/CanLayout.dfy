/** Which bit of a frame stands in which register: the layouts of the SJA1000 as arithmetic on the bytes. */
module CanLayout {
  import opened CanCodec

  /** The registers as one number, highest byte first. */
  function Word(b1: bv8, b2: bv8, b3: bv8, b4: bv8): bv32 {
    (b1 as bv32) * 0x100_0000 + (b2 as bv32) * 0x1_0000 + (b3 as bv32) * 0x100 + (b4 as bv32)
  }

  function Pair(b1: bv8, b2: bv8): bv32 { (b1 as bv32) * 0x100 + (b2 as bv32) }

  /** The frame information as a sum: the length, 64 for a remote frame, 128 for an extended one. */
  function FirstByte(dlc: nat, rtr: bool, eff: bool): bv8
    requires dlc <= 8
  {
    (dlc as bv8) + (if rtr then 64 else 0) + (if eff then 128 else 0)
  }

  function Plus(a: bv32, b: bv32): bv32 { a + b }

  /** The 29-bit identifier, 8 times. */
  function ExtendedNumber(id: bv32): bv32 { (id & 0x1fff_ffff) * 8 }

  /** The 11-bit identifier without its bit 2, 32 times. */
  function StandardNumber(id: bv32): bv32 { (id & 0x7fb) * 32 }

  /** The 11-bit identifier, 32 times, and 16 for a remote frame. */
  function BasicNumber(id: bv32): bv32 {
    Plus((id & 0x7ff) * 32, if id & 0x4000_0000 != 0 then 16 else 0)
  }

  lemma EffWord(id: bv32)
    ensures Word(EffByte(id, 0), EffByte(id, 1), EffByte(id, 2), EffByte(id, 3)) == ExtendedNumber(id)
  {
  }

  lemma SffPair(id: bv32)
    ensures Pair(SffHigh(id), SffLow(id)) == StandardNumber(id)
  {
  }

  lemma BasicPair(id: bv32, dlc: bv8)
    requires dlc <= 8
    ensures Pair(SffHigh(id), BasicInfoByte(id, dlc)) == Plus(BasicNumber(id), dlc as bv32)
  {
    if id & 0x4000_0000 != 0 {
      RemotePair(id, dlc);
    } else {
      DataPair(id, dlc);
    }
  }

  lemma RemotePair(id: bv32, dlc: bv8)
    requires dlc <= 8 && id & 0x4000_0000 != 0
    ensures Pair(SffHigh(id), BasicInfoByte(id, dlc)) == (id & 0x7ff) * 32 + 16 + (dlc as bv32)
  {
  }

  lemma DataPair(id: bv32, dlc: bv8)
    requires dlc <= 8 && id & 0x4000_0000 == 0
    ensures Pair(SffHigh(id), BasicInfoByte(id, dlc)) == (id & 0x7ff) * 32 + (dlc as bv32)
  {
  }

  lemma InfoSum(dlc: nat, rtr: bool, eff: bool)
    requires dlc <= 8
    ensures InfoByte(dlc as bv8, rtr, eff) == FirstByte(dlc, rtr, eff)
  {
    SmallDlc(dlc);
    InfoBitsSum(dlc as bv8, rtr, eff);
  }

  lemma InfoBitsSum(dlc: bv8, rtr: bool, eff: bool)
    requires dlc & 0x0f == dlc
    ensures InfoByte(dlc, rtr, eff) == dlc + (if rtr then 64 else 0) + (if eff then 128 else 0)
  {
  }

  lemma EffWordBack(b1: bv8, b2: bv8, b3: bv8, b4: bv8)
    ensures EffId(b1, b2, b3, b4) == Word(b1, b2, b3, b4) / 8
  {
  }

  lemma SffPairBack(b1: bv8, b2: bv8)
    ensures SffId(b1, b2) == Pair(b1, b2) / 32
  {
  }

  // ---------- Sending

  /** An extended frame in the transmit buffer, as `send_message` leaves it: the length with the two format
      bits, then the 29-bit identifier times 8 in four bytes, then the data. */
  lemma ExtendedRegisters(f: Frame, regs: seq<bv8>)
    requires f.Proper() && f.Eff() && |regs| == REGISTERS && regs[16..16 + |Encode(f)|] == Encode(f)
    ensures regs[16] == FirstByte(f.dlc, f.id & 0x4000_0000 != 0, true)
    ensures Word(regs[17], regs[18], regs[19], regs[20]) == ExtendedNumber(f.id)
    ensures forall i :: 0 <= i < f.dlc ==> regs[21 + i] == f.data[i]
  {
    hide EffByte, InfoByte, Word, ExtendedNumber, FirstByte, HasRtr;
    RtrIsBit30(f.id);
    InfoSum(f.dlc, f.Rtr(), true);
    EffWord(f.id);
    Aligned(regs, 16, Encode(f));
    assert forall i :: 0 <= i < 5 ==> Encode(f)[i] == ([Info(f)] + EffBytes(f.id))[i];
    assert forall i :: 0 <= i < f.dlc ==> Encode(f)[5 + i] == f.data[i];
  }

  /** A standard frame: 32 times the identifier, but for its bit 2, in two bytes. */
  lemma StandardRegisters(f: Frame, regs: seq<bv8>)
    requires f.Proper() && !f.Eff() && |regs| == REGISTERS && regs[16..16 + |Encode(f)|] == Encode(f)
    ensures regs[16] == FirstByte(f.dlc, f.id & 0x4000_0000 != 0, false)
    ensures Pair(regs[17], regs[18]) == StandardNumber(f.id)
    ensures forall i :: 0 <= i < f.dlc ==> regs[19 + i] == f.data[i]
  {
    hide SffHigh, SffLow, InfoByte, Pair, StandardNumber, FirstByte, HasRtr;
    RtrIsBit30(f.id);
    InfoSum(f.dlc, f.Rtr(), false);
    SffPair(f.id);
    Aligned(regs, 16, Encode(f));
    assert forall i :: 0 <= i < 3 ==> Encode(f)[i] == ([Info(f)] + SffBytes(f.id))[i];
    assert forall i :: 0 <= i < f.dlc ==> Encode(f)[3 + i] == f.data[i];
  }

  /** BasicCAN: 32 times the identifier, plus 16 for a remote frame, plus the length. */
  lemma BasicRegisters(f: Frame, regs: seq<bv8>)
    requires f.Proper() && |regs| == REGISTERS && regs[10..10 + |BasicEncode(f)|] == BasicEncode(f)
    ensures Pair(regs[10], regs[11]) == Plus(BasicNumber(f.id), f.dlc as bv32)
    ensures forall i :: 0 <= i < f.dlc ==> regs[12 + i] == f.data[i]
  {
    hide SffHigh, BasicInfoByte, Pair, BasicNumber, Plus;
    LengthCast(f.dlc);
    BasicPair(f.id, f.dlc as bv8);
    Aligned(regs, 10, BasicEncode(f));
    assert forall i :: 0 <= i < 2 ==> BasicEncode(f)[i] == BasicBytes(f)[i];
    assert forall i :: 0 <= i < f.dlc ==> BasicEncode(f)[2 + i] == f.data[i];
  }

  lemma RtrIsBit30(id: bv32)
    ensures HasRtr(id) <==> id & 0x4000_0000 != 0
  {
  }

  lemma LengthCast(dlc: nat)
    requires dlc <= 8
    ensures (dlc as bv8) as bv32 == dlc as bv32
  {
    if dlc == 0 {} else if dlc == 1 {} else if dlc == 2 {} else if dlc == 3 {} else if dlc == 4 {}
    else if dlc == 5 {} else if dlc == 6 {} else if dlc == 7 {} else {}
  }

  lemma Aligned(regs: seq<bv8>, start: nat, b: seq<bv8>)
    requires start + |b| <= |regs| && regs[start..start + |b|] == b
    ensures forall i :: 0 <= i < |b| ==> regs[start + i] == b[i]
  {
    forall i | 0 <= i < |b|
      ensures regs[start + i] == b[i]
    {
      assert regs[start..start + |b|][i] == regs[start + i];
    }
  }

  // ---------- Receiving

  /** Every buffer that the receivers read, the emulator's among them: which number is the identifier, which
      bits are the format, where the data is. */
  lemma DecodedFrom(b: seq<bv8>)
    requires |b| == 13
    ensures var f := Decode(b); var start := if ExtendedBit(b[0]) then 5 else 3;
            && f.dlc == Length(b[0])
            && f.id == WithFlags(if ExtendedBit(b[0]) then Word(b[1], b[2], b[3], b[4]) / 8 else Pair(b[1], b[2]) / 32,
                                 b[0] & 0x40 != 0, ExtendedBit(b[0]))
            && |f.data| == 8 && forall i :: 0 <= i < 8 ==> f.data[i] == if i < f.dlc && start + i < 13 then b[start + i] else 0
  {
    hide EffId, SffId, Word, Pair, Flags, Or, Dlc, Length, IsEff, ExtendedBit, WithFlags;
    LengthIs(b[0]);
    EffWordBack(b[1], b[2], b[3], b[4]);
    SffPairBack(b[1], b[2]);
    NoFlagBits(b[1], b[2], b[3], b[4]);
    FlagSum(b[0], Word(b[1], b[2], b[3], b[4]) / 8);
    FlagSum(b[0], Pair(b[1], b[2]) / 32);
  }

  predicate ExtendedBit(info: bv8) { info >= 128 }

  function Length(info: bv8): nat { (info % 16) as nat }

  /** An identifier below 2^29 with the RTR and EFF flags added. */
  function WithFlags(id: bv32, rtr: bool, eff: bool): bv32 {
    id + (if rtr then 0x4000_0000 else 0) + (if eff then 0x8000_0000 else 0)
  }

  lemma LengthIs(b: bv8)
    ensures Dlc(b) == Length(b) && (IsEff(b) <==> ExtendedBit(b))
  {
    assert b & 0x0f == b % 16;
  }

  lemma FlagSum(info: bv8, id: bv32)
    requires id & 0xe000_0000 == 0
    ensures Or(Flags(info), id) == WithFlags(id, info & 0x40 != 0, ExtendedBit(info))
  {
    hide Or, WithFlags, Flags, ExtendedBit;
    FlagCases(info);
    OrIsSum(id, info & 0x40 != 0, ExtendedBit(info));
  }

  lemma FlagCases(info: bv8)
    ensures Flags(info) == WithFlags(0, info & 0x40 != 0, ExtendedBit(info))
  {
    hide ExtendedBit;
    TopBit(info);
    if info & 0x40 != 0 {
      assert Flags(info) == if info & 0x80 != 0 then 0xc000_0000 else 0x4000_0000;
    } else {
      assert Flags(info) == if info & 0x80 != 0 then 0x8000_0000 else 0;
    }
  }

  lemma TopBit(info: bv8)
    ensures info & 0x80 != 0 <==> ExtendedBit(info)
  {
  }

  lemma OrIsSum(id: bv32, rtr: bool, eff: bool)
    requires id & 0xe000_0000 == 0
    ensures Or(WithFlags(0, rtr, eff), id) == Or(id, WithFlags(0, rtr, eff)) == WithFlags(id, rtr, eff)
  {
    hide Or, WithFlags;
    Commutes(WithFlags(0, rtr, eff), id);
    OrNone(id);
    OrRtr(id);
    OrEff(id);
    OrBoth(id);
  }

  lemma Commutes(a: bv32, b: bv32)
    ensures Or(a, b) == Or(b, a)
  {
  }

  lemma OrNone(id: bv32)
    requires id & 0xe000_0000 == 0
    ensures Or(WithFlags(0, false, false), id) == WithFlags(id, false, false)
  {
  }

  lemma OrRtr(id: bv32)
    requires id & 0xe000_0000 == 0
    ensures Or(WithFlags(0, true, false), id) == WithFlags(id, true, false)
  {
  }

  lemma OrEff(id: bv32)
    requires id & 0xe000_0000 == 0
    ensures Or(WithFlags(0, false, true), id) == WithFlags(id, false, true)
  {
  }

  lemma OrBoth(id: bv32)
    requires id & 0xe000_0000 == 0
    ensures Or(WithFlags(0, true, true), id) == WithFlags(id, true, true)
  {
  }

  lemma BasicDecodedFrom(b: seq<bv8>)
    requires |b| == 10
    ensures var f := BasicDecode(b);
            && f.dlc == Length(b[1])
            && f.id == WithFlags(Pair(b[0], b[1]) / 32, b[1] & 0x10 != 0, false)
            && |f.data| == 8 && forall i :: 0 <= i < 8 ==> f.data[i] == if i < f.dlc then b[2 + i] else 0
  {
    hide SffId, Pair, BasicFlag, Or, Dlc, Length, WithFlags;
    LengthIs(b[1]);
    SffPairBack(b[0], b[1]);
    NoFlagBits(b[0], b[1], 0, 0);
    BasicFlagSum(b[1], Pair(b[0], b[1]) / 32);
  }

  lemma BasicFlagSum(info: bv8, id: bv32)
    requires id & 0xe000_0000 == 0
    ensures Or(id, BasicFlag(info)) == WithFlags(id, info & 0x10 != 0, false)
  {
    hide Or, WithFlags;
    BasicFlagCases(info);
    OrIsSum(id, info & 0x10 != 0, false);
  }

  lemma BasicFlagCases(info: bv8)
    ensures BasicFlag(info) == WithFlags(0, info & 0x10 != 0, false)
  {
  }

  lemma NoFlagBits(b1: bv8, b2: bv8, b3: bv8, b4: bv8)
    ensures (Word(b1, b2, b3, b4) / 8) & 0xe000_0000 == 0 && (Pair(b1, b2) / 32) & 0xe000_0000 == 0
  {
  }

  /** The extended identifier 1 is sent as 00 00 00 08, and 08 00 00 00 is received as 0x1000000. */
  lemma IdentifierOne()
    ensures EffBytes(0x8000_0001) == [0, 0, 0, 8] && EffId(0, 0, 0, 8) == 1 && EffId(8, 0, 0, 0) == 0x100_0000
    ensures SffBytes(0x101) == [0x20, 0x20] && SffId(0x20, 0x20) == 0x101
  {
  }
}
