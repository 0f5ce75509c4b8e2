/** The two drivers' message transfer through the memory-mapped registers of an SJA1000. */
module CanPort {
  import opened CanCodec

  predicate Untouched(before: seq<bv8>, after: seq<bv8>, lo: nat, hi: nat) {
    |after| == |before| && forall k :: 0 <= k < |before| && k != SJA_COMMAND_REG && !(lo <= k < hi) ==> after[k] == before[k]
  }

  /** Copies the payload, byte by byte, to the registers from `start` on. */
  method StoreData(base: array<bv8>, start: nat, can: Frame)
    requires can.Proper() && start + 8 <= base.Length
    modifies base
    ensures forall k :: 0 <= k < base.Length ==>
      base[k] == if start <= k < start + can.dlc then can.data[k - start] else old(base[k])
  {
    var index := start;
    for i := 0 to can.dlc
      invariant index == start + i
      invariant forall k :: 0 <= k < base.Length ==>
        base[k] == if start <= k < index then can.data[k - start] else old(base[k])
    {
      base[index] := can.data[i];
      index := index + 1;
    }
  }

  /** Reads n payload bytes from the registers from `start` on. */
  method LoadData(base: array<bv8>, start: nat, n: nat) returns (data: seq<bv8>)
    requires n <= 8 && start + 8 <= base.Length
    ensures data == Payload(base[start..start + 8], n)
  {
    data := NO_DATA;
    var index := start;
    for i := 0 to n
      invariant index == start + i && |data| == 8
      invariant forall k :: 0 <= k < 8 ==> data[k] == if k < i then base[start + k] else 0
    {
      data := data[i := base[index]];
      index := index + 1;
    }
  }

  // ---------- PeliCAN

  /** `send_message`: fills the transmit buffer, registers 16 to 28 at most, then requests the
      transmission. */
  method SendMessage(base: array<bv8>, can: Frame)
    requires base.Length == REGISTERS && can.Proper()
    modifies base
    ensures base[16..16 + |Encode(can)|] == Encode(can) && 16 + |Encode(can)| <= 29
    ensures base[1] == 0x01
    ensures Untouched(old(base[..]), base[..], 16, 16 + |Encode(can)|)
  {
    hide Head;
    var index := SendHead(base, can);
    ghost var before := base[..];
    StoreData(base, index, can);
    base[SJA_COMMAND_REG] := 0x01;
    assert base[16..index] == before[16..index];
    assert base[index..index + can.dlc] == can.data[..can.dlc];
    Joined(base[..], 16, index, index + can.dlc);
  }

  /** The frame information and the identifier, in either format. */
  method SendHead(base: array<bv8>, can: Frame) returns (index: nat)
    requires base.Length == REGISTERS && can.Proper()
    modifies base
    ensures index == 16 + |Head(can)| && base[16..index] == Head(can)
    ensures forall k :: 0 <= k < base.Length && !(16 <= k < index) ==> base[k] == old(base[k])
  {
    hide Info, EffByte, SffHigh, SffLow, HasEff;
    index := TX_FRAME_INFO_REG;
    base[index] := Info(can);
    index := index + 1;
    if can.Eff() {
      base[index] := EffByte(can.id, 0);
      index := index + 1;
      base[index] := EffByte(can.id, 1);
      index := index + 1;
      base[index] := EffByte(can.id, 2);
      index := index + 1;
      base[index] := EffByte(can.id, 3);
      index := index + 1;
      assert base[16..index] == [Info(can)] + EffBytes(can.id);
    } else {
      base[index] := SffHigh(can.id);
      index := index + 1;
      base[index] := SffLow(can.id);
      index := index + 1;
      assert base[16..index] == [Info(can)] + SffBytes(can.id);
    }
  }

  lemma Joined(s: seq<bv8>, a: nat, b: nat, c: nat)
    requires a <= b <= c <= |s|
    ensures s[a..c] == s[a..b] + s[b..c]
  {
  }

  /** One identifier byte in its place, under the driver's mask. */
  function EffPart(b: bv8, k: nat): bv32 {
    EffShift(b, k) & (match k case 0 => 0x1fe0_0000 case 1 => 0x001f_e000 case 2 => 0x1fe0 case _ => 0x1f)
  }

  function SffPart(b: bv8, k: nat): bv32 {
    SffShift(b, k) & (if k == 0 then 0x7f8 else 0x07)
  }

  /** The masks cut nothing off. */
  lemma EffMask(b: bv8, k: nat)
    ensures EffPart(b, k) == EffShift(b, k)
  {
  }

  lemma SffMask(b: bv8, k: nat)
    ensures SffPart(b, k) == SffShift(b, k)
  {
  }

  lemma Associate(f: bv32, a: bv32, b: bv32, c: bv32, d: bv32)
    ensures Or(Or(Or(Or(f, a), b), c), d) == Or(f, Or(Or(Or(a, b), c), d))
  {
  }

  lemma AssociateTwo(f: bv32, a: bv32, b: bv32)
    ensures Or(Or(f, a), b) == Or(f, Or(a, b))
  {
  }

  lemma EffParts(f: bv32, b1: bv8, b2: bv8, b3: bv8, b4: bv8)
    ensures Or(Or(Or(Or(f, EffPart(b1, 0)), EffPart(b2, 1)), EffPart(b3, 2)), EffPart(b4, 3)) == Or(f, EffId(b1, b2, b3, b4))
  {
    hide Or, EffPart, EffShift;
    EffMask(b1, 0);
    EffMask(b2, 1);
    EffMask(b3, 2);
    EffMask(b4, 3);
    Associate(f, EffPart(b1, 0), EffPart(b2, 1), EffPart(b3, 2), EffPart(b4, 3));
  }

  lemma SffParts(f: bv32, b1: bv8, b2: bv8)
    ensures Or(Or(f, SffPart(b1, 0)), SffPart(b2, 1)) == Or(f, SffId(b1, b2))
  {
    hide Or, SffPart, SffShift;
    SffMask(b1, 0);
    SffMask(b2, 1);
    AssociateTwo(f, SffPart(b1, 0), SffPart(b2, 1));
  }

  predicate IsRtr(info: bv8) { info & 0x40 != 0 }

  lemma FlagParts(info: bv8)
    ensures Flags(info) == Or(if IsRtr(info) then RTR_FLAG else 0, if IsEff(info) then EFF_FLAG else 0)
    ensures Or(0, RTR_FLAG) == RTR_FLAG && Or(if IsRtr(info) then RTR_FLAG else 0, 0) == if IsRtr(info) then RTR_FLAG else 0
  {
  }

  /** `receive_message`: reads a frame out of registers 16 to 28 and releases the receive buffer. */
  method ReceiveMessage(base: array<bv8>) returns (can: Frame)
    requires base.Length == REGISTERS && Dlc(base[16]) <= 8
    modifies base
    ensures can == Decode(old(base[16..29]))
    ensures base[..] == old(base[..])[1 := 0x04]
  {
    hide Or, EffPart, SffPart, EffId, SffId, Flags, IsEff, IsRtr, Dlc;
    var index := 16;
    var id: bv32 := 0;
    var temp := base[index];
    index := index + 1;
    FlagParts(temp);
    if IsRtr(temp) {
      id := Or(id, RTR_FLAG);
    }
    var dlc := Dlc(temp);
    if IsEff(temp) {
      id := Or(id, EFF_FLAG);
      EffParts(id, base[17], base[18], base[19], base[20]);
      temp := base[index];
      index := index + 1;
      id := Or(id, EffPart(temp, 0));
      temp := base[index];
      index := index + 1;
      id := Or(id, EffPart(temp, 1));
      temp := base[index];
      index := index + 1;
      id := Or(id, EffPart(temp, 2));
      temp := base[index];
      index := index + 1;
      id := Or(id, EffPart(temp, 3));
    } else {
      SffParts(id, base[17], base[18]);
      temp := base[index];
      index := index + 1;
      id := Or(id, SffPart(temp, 0));
      temp := base[index];
      index := index + 1;
      id := Or(id, SffPart(temp, 1));
    }
    var data := LoadData(base, index, dlc);
    ghost var b := base[16..29];
    PayloadWindow(b, base[index..index + 8], index - 16, dlc);
    can := Frame(id, dlc, data);
    base[SJA_COMMAND_REG] := 0x04;
  }

  /** The payload only depends on the first eight bytes. */
  lemma PayloadWindow(b: seq<bv8>, w: seq<bv8>, start: nat, n: nat)
    requires |w| == 8 && start + 8 <= |b| && w == b[start..start + 8] && n <= 8
    ensures Payload(b[start..], n) == Payload(w, n)
  {
  }

  // ---------- BasicCAN

  /** `send_message`: the transmit buffer is registers 10 to 19. */
  method BasicSendMessage(base: array<bv8>, can: Frame)
    requires base.Length == REGISTERS && can.Proper()
    modifies base
    ensures base[10..10 + |BasicEncode(can)|] == BasicEncode(can) && 10 + |BasicEncode(can)| <= 20
    ensures base[1] == 0x01
    ensures Untouched(old(base[..]), base[..], 10, 10 + |BasicEncode(can)|)
  {
    hide SffHigh, BasicInfo;
    var index := 10;
    base[index] := SffHigh(can.id);
    index := index + 1;
    base[index] := BasicInfo(can.id, can.dlc);
    index := index + 1;
    StoreData(base, index, can);
    base[SJA_COMMAND_REG] := 0x01;
  }

  /** `receive_message`: the receive buffer is registers 20 to 29. */
  method BasicReceiveMessage(base: array<bv8>) returns (can: Frame)
    requires base.Length == REGISTERS && Dlc(base[21]) <= 8
    modifies base
    ensures can == BasicDecode(old(base[20..30]))
    ensures base[..] == old(base[..])[1 := 0x04]
  {
    hide Or, SffPart, SffId, Dlc, BasicIdOf;
    var index := 20;
    var temp := base[index];
    index := index + 1;
    var id := SffPart(temp, 0);
    temp := base[index];
    index := index + 1;
    id := Or(id, SffPart(temp, 1));
    BasicIdParts(base[20], temp);
    if BasicRtr(temp) {
      id := Or(id, RTR_FLAG);
    }
    var dlc := Dlc(temp);
    var data := LoadData(base, index, dlc);
    ghost var b := base[20..30];
    assert b[2..] == base[index..index + 8];
    can := Frame(id, dlc, data);
    base[SJA_COMMAND_REG] := 0x04;
  }

  predicate BasicRtr(info: bv8) { info & 0x10 != 0 }

  lemma BasicIdParts(b0: bv8, b1: bv8)
    ensures BasicIdOf(b0, b1) == var id := Or(SffPart(b0, 0), SffPart(b1, 1)); if BasicRtr(b1) then Or(id, RTR_FLAG) else id
  {
    hide SffShift, SffPart;
    SffMask(b0, 0);
    SffMask(b1, 1);
  }
}
