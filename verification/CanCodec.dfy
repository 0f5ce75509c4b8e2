/** The frame codec between a CAN frame and the transmit and receive buffers of an SJA1000, in its
    PeliCAN and BasicCAN layouts, as the two drivers and the emulator write it. */
module CanCodec {

  /** Bits 0..28 of `id` are the identifier, then come the error, RTR and EFF flags. */
  datatype Frame = Frame(id: bv32, dlc: nat, data: seq<bv8>) {
    predicate Proper() { dlc <= 8 && |data| == 8 }
    predicate Rtr() { HasRtr(id) }
    predicate Eff() { HasEff(id) }
  }

  const RTR_FLAG: bv32 := 0x4000_0000
  const EFF_FLAG: bv32 := 0x8000_0000
  const TX_FRAME_INFO_REG: nat := 16
  const SJA_COMMAND_REG: nat := 1
  const REGISTERS: nat := 128
  const SIZEOF_CAN_FRAME: nat := 16
  const BUFFERSIZE: nat := 6
  const EINVAL: int := 22
  const EFBIG: int := 27
  const NO_DATA: seq<bv8> := [0, 0, 0, 0, 0, 0, 0, 0]

  predicate HasRtr(id: bv32) { id & 0x4000_0000 != 0 }

  predicate HasEff(id: bv32) { id & 0x8000_0000 != 0 }

  // ---------- PeliCAN layout

  function Info(f: Frame): bv8
    requires f.Proper()
  {
    InfoByte(f.dlc as bv8, f.Rtr(), f.Eff())
  }

  function InfoByte(dlc: bv8, rtr: bool, eff: bool): bv8 {
    dlc | (if rtr then 0x40 else 0) | (if eff then 0x80 else 0)
  }

  function EffBytes(id: bv32): seq<bv8> {
    [EffByte(id, 0), EffByte(id, 1), EffByte(id, 2), EffByte(id, 3)]
  }

  function EffByte(id: bv32, k: nat): bv8 {
    match k
    case 0 => Byte(id >> 21)
    case 1 => Byte(id >> 13)
    case 2 => Byte(id >> 5)
    case _ => Byte((id & 0x1f) << 3)
  }

  function Byte(x: bv32): bv8 { (x & 0xff) as bv8 }

  /** Identifier bit 2 is in neither byte: the second one takes two bits only. */
  function SffBytes(id: bv32): seq<bv8> {
    [SffHigh(id), SffLow(id)]
  }

  function SffHigh(id: bv32): bv8 { Byte(id >> 3) }

  function SffLow(id: bv32): bv8 { Byte((id & 0x03) << 5) }

  /** The bytes written from the frame information register on. */
  function Encode(f: Frame): (b: seq<bv8>)
    requires f.Proper()
    ensures |b| == (if f.Eff() then 5 else 3) + f.dlc <= 13
  {
    Head(f) + f.data[..f.dlc]
  }

  /** The frame information and the identifier. */
  function Head(f: Frame): (h: seq<bv8>)
    requires f.Proper()
    ensures |h| == if f.Eff() then 5 else 3
  {
    [Info(f)] + (if f.Eff() then EffBytes(f.id) else SffBytes(f.id))
  }

  function Flags(info: bv8): bv32 {
    (if info & 0x40 != 0 then RTR_FLAG else 0) | (if info & 0x80 != 0 then EFF_FLAG else 0)
  }

  function Or(a: bv32, b: bv32): bv32 { a | b }

  function EffId(b1: bv8, b2: bv8, b3: bv8, b4: bv8): bv32 {
    Or(Or(Or(EffShift(b1, 0), EffShift(b2, 1)), EffShift(b3, 2)), EffShift(b4, 3))
  }

  /** One identifier byte of an extended frame in its place. */
  function EffShift(b: bv8, k: nat): bv32 {
    match k
    case 0 => (b as bv32) << 21
    case 1 => (b as bv32) << 13
    case 2 => (b as bv32) << 5
    case _ => (b as bv32) >> 3
  }

  function SffId(b1: bv8, b2: bv8): bv32 {
    Or(SffShift(b1, 0), SffShift(b2, 1))
  }

  function SffShift(b: bv8, k: nat): bv32 {
    if k == 0 then (b as bv32) << 3 else (b as bv32) >> 5
  }

  function Dlc(info: bv8): nat { (info & 0x0f) as nat }

  predicate IsEff(info: bv8) { info & 0x80 != 0 }

  /** What the buffer b stands for. */
  function Decode(b: seq<bv8>): Frame
    requires |b| == 13
  {
    var dlc := Dlc(b[0]);
    if IsEff(b[0]) then Frame(Or(Flags(b[0]), EffId(b[1], b[2], b[3], b[4])), dlc, Payload(b[5..], dlc))
    else Frame(Or(Flags(b[0]), SffId(b[1], b[2])), dlc, Payload(b[3..], dlc))
  }

  /** The first n bytes, and zeros up to eight. */
  function Payload(b: seq<bv8>, n: nat): (d: seq<bv8>)
    ensures |d| == 8
  {
    seq(8, i requires 0 <= i < 8 => if i < n && i < |b| then b[i] else 0)
  }

  // ---------- BasicCAN layout

  function BasicBytes(f: Frame): seq<bv8>
    requires f.Proper()
  {
    [SffHigh(f.id), BasicInfo(f.id, f.dlc)]
  }

  function BasicInfo(id: bv32, dlc: nat): bv8
    requires dlc <= 8
  {
    BasicInfoByte(id, dlc as bv8)
  }

  function BasicInfoByte(id: bv32, dlc: bv8): bv8 {
    Byte((id << 5) & 0xe0) | (if id & RTR_FLAG != 0 then 0x10 else 0) | (dlc & 0x0f)
  }

  function BasicEncode(f: Frame): (b: seq<bv8>)
    requires f.Proper()
    ensures |b| == 2 + f.dlc <= 10
  {
    BasicBytes(f) + f.data[..f.dlc]
  }

  function BasicDecode(b: seq<bv8>): Frame
    requires |b| == 10
  {
    Frame(BasicIdOf(b[0], b[1]), Dlc(b[1]), Payload(b[2..], Dlc(b[1])))
  }

  function BasicIdOf(b0: bv8, b1: bv8): bv32 {
    Or(SffId(b0, b1), BasicFlag(b1))
  }

  function BasicFlag(b1: bv8): bv32 { if b1 & 0x10 != 0 then 0x4000_0000 else 0 }

  // ---------- What gets across

  /** What a frame becomes on the way through PeliCAN registers. */
  function Carried(f: Frame): Frame
    requires f.Proper()
  {
    Frame(CarriedId(f.id), f.dlc, Payload(f.data, f.dlc))
  }

  function CarriedId(id: bv32): bv32 {
    id & (if id & EFF_FLAG != 0 then 0xdfff_ffff else 0x4000_07fb)
  }

  /** BasicCAN keeps the RTR flag and all eleven identifier bits. */
  function BasicCarried(f: Frame): Frame
    requires f.Proper()
  {
    Frame(BasicId(f.id), f.dlc, Payload(f.data, f.dlc))
  }

  function BasicId(id: bv32): bv32 { id & (RTR_FLAG | 0x7ff) }

  lemma SmallDlc(dlc: nat)
    requires dlc <= 8
    ensures (dlc as bv8) & 0x0f == dlc as bv8 && (dlc as bv8) as nat == dlc
  {
    if dlc == 0 {} else if dlc == 1 {} else if dlc == 2 {} else if dlc == 3 {} else if dlc == 4 {}
    else if dlc == 5 {} else if dlc == 6 {} else if dlc == 7 {} else {}
  }

  lemma InfoBits(d: bv8, rtr: bool, eff: bool)
    requires d & 0x0f == d
    ensures var t := InfoByte(d, rtr, eff);
            t & 0x0f == d && (t & 0x40 != 0 <==> rtr) && (t & 0x80 != 0 <==> eff)
  {
  }

  lemma InfoRoundTrip(f: Frame)
    requires f.Proper()
    ensures Dlc(Info(f)) == f.dlc && (IsEff(Info(f)) <==> f.Eff()) && Flags(Info(f)) == IdFlags(f.id)
  {
    SmallDlc(f.dlc);
    InfoBits(f.dlc as bv8, f.Rtr(), f.Eff());
  }

  function IdFlags(id: bv32): bv32 {
    (if HasRtr(id) then 0x4000_0000 else 0) | (if HasEff(id) then 0x8000_0000 else 0)
  }

  lemma EffIdRoundTrip(id: bv32)
    requires HasEff(id)
    ensures Or(IdFlags(id), EffId(EffByte(id, 0), EffByte(id, 1), EffByte(id, 2), EffByte(id, 3))) == CarriedId(id)
  {
    hide EffId, EffByte, IdFlags, CarriedId, HasEff, Or;
    FourBytes(id);
    FlagsBack(id);
  }

  lemma FourBytes(id: bv32)
    ensures EffId(EffByte(id, 0), EffByte(id, 1), EffByte(id, 2), EffByte(id, 3)) == id & 0x1fff_ffff
  {
  }

  lemma FlagsBack(id: bv32)
    requires HasEff(id)
    ensures Or(IdFlags(id), id & 0x1fff_ffff) == CarriedId(id)
  {
    hide IdFlags, CarriedId, HasRtr, HasEff, Or;
    FlagValues(id);
    AllButErr(id);
  }

  lemma FlagValues(id: bv32)
    requires HasEff(id)
    ensures HasRtr(id) ==> IdFlags(id) == 0xc000_0000
    ensures !HasRtr(id) ==> IdFlags(id) == 0x8000_0000
    ensures CarriedId(id) == id & 0xdfff_ffff
  {
  }

  lemma AllButErr(id: bv32)
    requires HasEff(id)
    ensures HasRtr(id) ==> Or(0xc000_0000, id & 0x1fff_ffff) == id & 0xdfff_ffff
    ensures !HasRtr(id) ==> Or(0x8000_0000, id & 0x1fff_ffff) == id & 0xdfff_ffff
  {
  }

  lemma SffIdRoundTrip(id: bv32)
    requires !HasEff(id)
    ensures Or(IdFlags(id), SffId(SffHigh(id), SffLow(id))) == CarriedId(id)
  {
    hide IdFlags, CarriedId, HasRtr, HasEff, SffId, SffHigh, SffLow, Or;
    TwoBytes(id);
    SffFlagValues(id);
    AllButBitTwo(id);
  }

  lemma TwoBytes(id: bv32)
    ensures SffId(SffHigh(id), SffLow(id)) == id & 0x7fb
  {
  }

  lemma SffFlagValues(id: bv32)
    requires !HasEff(id)
    ensures HasRtr(id) ==> IdFlags(id) == 0x4000_0000
    ensures !HasRtr(id) ==> IdFlags(id) == 0
    ensures CarriedId(id) == id & 0x4000_07fb
  {
  }

  lemma AllButBitTwo(id: bv32)
    ensures HasRtr(id) ==> Or(0x4000_0000, id & 0x7fb) == id & 0x4000_07fb
    ensures !HasRtr(id) ==> Or(0, id & 0x7fb) == id & 0x4000_07fb
  {
  }

  lemma PayloadOfData(b: seq<bv8>, data: seq<bv8>, n: nat)
    requires |data| == 8 && n <= 8 && data[..n] <= b
    ensures Payload(b, n) == Payload(data, n)
  {
    assert forall i :: 0 <= i < n ==> data[..n][i] == b[i];
  }

  lemma Tail(e: seq<bv8>, b: seq<bv8>, head: seq<bv8>, tail: seq<bv8>)
    requires e == head + tail && e <= b
    ensures tail <= b[|head|..] && b[..|head|] == head
  {
    assert b[..|e|] == e;
    assert b[|head|..|e|] == tail;
  }

  /** PeliCAN: a buffer that starts with the encoding of a frame decodes to what Carried says. */
  lemma RoundTrip(f: Frame, b: seq<bv8>)
    requires f.Proper() && |b| == 13 && Encode(f) <= b
    ensures Decode(b) == Carried(f)
  {
    hide Info, Dlc, IsEff, Or, HasEff, EffByte, SffHigh, SffLow, Flags, IdFlags, EffId, SffId, CarriedId, Payload;
    InfoRoundTrip(f);
    if f.Eff() {
      var head := [Info(f)] + EffBytes(f.id);
      Tail(Encode(f), b, head, f.data[..f.dlc]);
      assert forall i :: 0 <= i < 5 ==> b[i] == head[i];
      EffIdRoundTrip(f.id);
      PayloadOfData(b[5..], f.data, f.dlc);
    } else {
      var head := [Info(f)] + SffBytes(f.id);
      Tail(Encode(f), b, head, f.data[..f.dlc]);
      assert forall i :: 0 <= i < 3 ==> b[i] == head[i];
      SffIdRoundTrip(f.id);
      PayloadOfData(b[3..], f.data, f.dlc);
    }
  }

  /** A frame as a sender means it: nothing set beside the identifier of its format and RTR, and no
      data past its length. */
  predicate WellFormed(f: Frame) {
    && f.Proper() && PlainId(f.id)
    && forall i :: f.dlc <= i < 8 ==> f.data[i] == 0
  }

  predicate PlainId(id: bv32) {
    id & (if id & EFF_FLAG != 0 then 0x2000_0000 else 0x3fff_f800) == 0
  }

  /** Extended frames get across whole; a standard frame does exactly if identifier bit 2 is clear. */
  lemma ExactIff(f: Frame)
    requires WellFormed(f)
    ensures Carried(f) == f <==> f.Eff() || IdBitTwoClear(f.id)
  {
    hide CarriedId, IdBitTwoClear, PlainId, Payload;
    WholePayload(f);
    ExactIdIff(f.id);
  }

  predicate IdBitTwoClear(id: bv32) { id & 0x004 == 0 }

  lemma WholePayload(f: Frame)
    requires WellFormed(f)
    ensures Payload(f.data, f.dlc) == f.data
  {
  }

  lemma ExactIdIff(id: bv32)
    requires PlainId(id)
    ensures CarriedId(id) == id <==> HasEff(id) || IdBitTwoClear(id)
  {
  }

  /** Identifier 0x124 arrives as 0x120. */
  lemma BitTwoIsLost()
    ensures var f := Frame(0x124, 0, NO_DATA); WellFormed(f) && Carried(f) == Frame(0x120, 0, NO_DATA)
  {
    assert Payload(NO_DATA, 0) == NO_DATA;
    assert CarriedId(0x124) == 0x120;
  }

  lemma BasicRoundTrip(f: Frame, b: seq<bv8>)
    requires f.Proper() && |b| == 10 && BasicEncode(f) <= b
    ensures BasicDecode(b) == BasicCarried(f)
  {
    hide Dlc, SffHigh, BasicIdOf, BasicId, BasicInfo, Payload;
    SmallDlc(f.dlc);
    BasicIdRoundTrip(f.id, f.dlc);
    var head := BasicBytes(f);
    Tail(BasicEncode(f), b, head, f.data[..f.dlc]);
    assert b[0] == head[0] && b[1] == head[1];
    PayloadOfData(b[2..], f.data, f.dlc);
  }

  lemma BasicIdRoundTrip(id: bv32, dlc: nat)
    requires dlc <= 8
    ensures Dlc(BasicInfo(id, dlc)) == dlc
    ensures BasicIdOf(SffHigh(id), BasicInfo(id, dlc)) == BasicId(id)
  {
    SmallDlc(dlc);
    BasicLengthBits(id, dlc as bv8);
    BasicIdBits(id, dlc as bv8);
  }

  lemma BasicLengthBits(id: bv32, d: bv8)
    requires d & 0x0f == d
    ensures BasicInfoByte(id, d) & 0x0f == d
  {
  }

  lemma BasicIdBits(id: bv32, d: bv8)
    requires d & 0x0f == d
    ensures BasicIdOf(SffHigh(id), BasicInfoByte(id, d)) == BasicId(id)
  {
    hide SffHigh, SffShift, BasicInfoByte, BasicFlag, BasicId, Or;
    BasicParts(id, d);
    BasicJoin(id);
  }

  lemma BasicParts(id: bv32, d: bv8)
    requires d & 0x0f == d
    ensures SffShift(SffHigh(id), 0) == id & 0x7f8
    ensures SffShift(BasicInfoByte(id, d), 1) == id & 0x007
    ensures BasicFlag(BasicInfoByte(id, d)) == id & 0x4000_0000
  {
  }

  lemma BasicJoin(id: bv32)
    ensures Or(Or(id & 0x7f8, id & 0x007), id & 0x4000_0000) == BasicId(id)
  {
  }

  /** Every well-formed standard frame gets across a BasicCAN link whole, and no extended one does. */
  lemma BasicExactIff(f: Frame)
    requires WellFormed(f)
    ensures BasicCarried(f) == f <==> !f.Eff()
  {
    hide BasicId, PlainId, Payload;
    WholePayload(f);
    BasicExactId(f.id);
  }

  lemma BasicExactId(id: bv32)
    requires PlainId(id)
    ensures BasicId(id) == id <==> id & EFF_FLAG == 0
  {
  }
}
