/** The three-byte player packet of labuart/networking.c. */
module PacketCodec {
  import opened Bytes

  // Bit positions in the first byte of a frame.
  const DATA_SHOOTDOWN: nat := 0
  const DATA_CTRLDOWN: nat := 1
  const DATA_SHIFTDOWN: nat := 2
  const DATA_DDOWN: nat := 3
  const DATA_SDOWN: nat := 4
  const DATA_ADOWN: nat := 5
  const DATA_WDOWN: nat := 6
  const DATA_MOUSE_MSB: nat := 7

  /** `network_packet_t`. */
  datatype NetPacket = NetPacket(mouseByte: Byte, mouseMsb: Byte, health: Byte,
                                 w: bool, a: bool, s: bool, d: bool, ctrl: bool, shift: bool, shoot: bool,
                                 gun: Byte)

  function KeyBits(p: NetPacket): (bits: seq<bool>)
    ensures |bits| == 8
  {
    [p.shoot, p.ctrl, p.shift, p.d, p.s, p.a, p.w, p.mouseMsb != 0]
  }

  /** `DATA_CONFIRM_PACKET`: bits 7, 5 and 3. */
  const CONFIRM_BITS := [false, false, false, true, false, true, false, true]

  /** The shift count of `DATA_GUN_DOWN`; i386 takes it modulo 32, where C leaves a count outside 0 to 31 undefined. */
  function ShiftCount(gun: Byte): (count: nat)
    ensures count < 32 && (count - (gun - 1)) % 32 == 0
  {
    (gun - 1) % 32
  }

  /** The confirm marker with the gun's bit or-ed in; a bit beyond the byte is cut off. */
  function GunBits(gun: Byte): (bits: seq<bool>)
    ensures |bits| == 8
  {
    var n := ShiftCount(gun);
    [n == 0, n == 1, n == 2, true, n == 4, true, n == 6, true]
  }

  function Encode(p: NetPacket): (frame: seq<Byte>)
    ensures |frame| == 3
  {
    EightBits(KeyBits(p), 0);
    EightBits(GunBits(p.gun), 0);
    [FromBits(KeyBits(p)), p.mouseByte, FromBits(GunBits(p.gun))]
  }

  function Flag(on: bool): (n: nat) {
    if on then 1 else 0
  }

  lemma SumOfEight(bits: seq<bool>)
    requires |bits| == 8
    ensures FromBits(bits) == Flag(bits[0]) + 2 * Flag(bits[1]) + 4 * Flag(bits[2]) + 8 * Flag(bits[3])
                              + 16 * Flag(bits[4]) + 32 * Flag(bits[5]) + 64 * Flag(bits[6]) + 128 * Flag(bits[7])
  {
    SumOfFour(bits);
    SumOfFour(bits[4..]);
    assert bits[4..][4..] == [];
  }

  lemma SumOfFour(bits: seq<bool>)
    requires 4 <= |bits|
    ensures FromBits(bits) == Flag(bits[0]) + 2 * Flag(bits[1]) + 4 * Flag(bits[2]) + 8 * Flag(bits[3])
                              + 16 * FromBits(bits[4..])
  {
    var b1 := bits[1..];
    var b2 := b1[1..];
    var b3 := b2[1..];
    assert b3[1..] == bits[4..];
    assert FromBits(b2) == Flag(b2[0]) + 2 * FromBits(b3);
    assert FromBits(b1) == Flag(b1[0]) + 2 * FromBits(b2);
  }

  /** The three bytes of a frame as numbers: each key has its own weight, and the gun its own on top of the marker. */
  lemma FrameByWeights(p: NetPacket)
    ensures var frame := Encode(p);
            && frame[0] == Flag(p.shoot) + 2 * Flag(p.ctrl) + 4 * Flag(p.shift) + 8 * Flag(p.d)
                           + 16 * Flag(p.s) + 32 * Flag(p.a) + 64 * Flag(p.w) + 128 * Flag(p.mouseMsb != 0)
            && frame[1] == p.mouseByte
            && frame[2] == 168 + GunWeight(p.gun)
  {
    SumOfEight(KeyBits(p));
    GunByWeight(p.gun);
  }

  lemma GunByWeight(gun: Byte)
    ensures FromBits(GunBits(gun)) == 168 + GunWeight(gun)
  {
    SumOfEight(GunBits(gun));
  }

  /** What the gun adds to the marker: 2^(gun - 1), unless the marker has that bit or the byte has not. */
  function GunWeight(gun: Byte): (n: nat) {
    var m := gun % 32;
    if m == 1 then 1 else if m == 2 then 2 else if m == 3 then 4 else if m == 5 then 16 else if m == 7 then 64 else 0
  }

  function DecodeGun(b: Byte): (gun: Byte) {
    if HasBit(b, 0) then 1 else if HasBit(b, 1) then 2 else if HasBit(b, 2) then 3 else 0
  }

  function Decode(frame: seq<Byte>): (p: NetPacket)
    requires |frame| == 3
    ensures p.gun <= 3 && p.mouseMsb <= 1 && p.health == 0
  {
    var keys := frame[0];
    NetPacket(frame[1], if HasBit(keys, DATA_MOUSE_MSB) then 1 else 0, 0,
              HasBit(keys, DATA_WDOWN), HasBit(keys, DATA_ADOWN), HasBit(keys, DATA_SDOWN), HasBit(keys, DATA_DDOWN),
              HasBit(keys, DATA_CTRLDOWN), HasBit(keys, DATA_SHIFTDOWN), HasBit(keys, DATA_SHOOTDOWN),
              DecodeGun(frame[2]))
  }

  /** Every field of a decoded packet, by division of the bytes of the frame. */
  lemma FieldsByDivision(frame: seq<Byte>)
    requires |frame| == 3
    ensures var p, keys, b := Decode(frame), frame[0], frame[2];
            && (p.shoot <==> keys % 2 == 1) && (p.ctrl <==> keys / 2 % 2 == 1) && (p.shift <==> keys / 4 % 2 == 1)
            && (p.d <==> keys / 8 % 2 == 1) && (p.s <==> keys / 16 % 2 == 1) && (p.a <==> keys / 32 % 2 == 1)
            && (p.w <==> keys / 64 % 2 == 1) && p.mouseMsb == keys / 128 % 2
            && p.mouseByte == frame[1] && p.health == 0
            && p.gun == (if b % 2 == 1 then 1 else if b / 2 % 2 == 1 then 2 else if b / 4 % 2 == 1 then 3 else 0)
  {
    LowBits(frame[0]);
    HighBits(frame[0]);
    LowBits(frame[2]);
  }

  lemma BitsComeBack(bits: seq<bool>)
    requires |bits| == 8
    ensures forall k: nat | k < 8 :: HasBit(FromBits(bits), k) == bits[k]
  {
    forall k: nat | k < 8
      ensures HasBit(FromBits(bits), k) == bits[k]
    {
      BitOfFromBits(bits, k);
    }
  }

  /** A byte is determined by its bits. */
  lemma SameBitsSameByte(b: Byte, bits: seq<bool>)
    requires |bits| == 8
    ensures FromBits(bits) == b <==> bits == ToBits(b, 8)
  {
    EightBits(bits, b);
    BitsComeBack(bits);
    BitsOfByte(b);
  }

  lemma BitsOfByte(b: Byte)
    ensures forall k: nat | k < 8 :: ToBits(b, 8)[k] == HasBit(b, k)
  {
    forall k: nat | k < 8
      ensures HasBit(b, k) == ToBits(b, 8)[k]
    {
      BitOfToBits(b, 8, k);
    }
  }

  /** A packet survives the wire, but for its health, exactly when its gun and its mouse sign are in range. */
  lemma DecodeInvertsEncode(p: NetPacket)
    ensures Decode(Encode(p)) == p.(health := 0) <==> p.gun <= 3 && p.mouseMsb <= 1
  {
    BitsComeBack(KeyBits(p));
    BitsComeBack(GunBits(p.gun));
  }

  /** The confirm marker and at most one gun bit, and nothing else. */
  predicate Confirmed(b: Byte) {
    && HasBit(b, 7) && !HasBit(b, 6) && HasBit(b, 5) && !HasBit(b, 4) && HasBit(b, 3)
    && !(HasBit(b, 0) && HasBit(b, 1)) && !(HasBit(b, 0) && HasBit(b, 2)) && !(HasBit(b, 1) && HasBit(b, 2))
  }

  lemma EightSame(a: seq<bool>, b: seq<bool>)
    requires |a| == |b| == 8
    ensures a == b <==> a[0] == b[0] && a[1] == b[1] && a[2] == b[2] && a[3] == b[3]
                        && a[4] == b[4] && a[5] == b[5] && a[6] == b[6] && a[7] == b[7]
  {
  }

  lemma KeysAreBits(frame: seq<Byte>)
    requires |frame| == 3
    ensures KeyBits(Decode(frame)) == ToBits(frame[0], 8)
  {
    BitsOfByte(frame[0]);
    EightSame(KeyBits(Decode(frame)), ToBits(frame[0], 8));
  }

  lemma KeysInvert(frame: seq<Byte>)
    requires |frame| == 3
    ensures FromBits(KeyBits(Decode(frame))) == frame[0]
  {
    KeysAreBits(frame);
    SameBitsSameByte(frame[0], KeyBits(Decode(frame)));
  }

  lemma GunAreBits(b: Byte)
    ensures GunBits(DecodeGun(b)) == ToBits(b, 8) <==> Confirmed(b)
  {
    BitsOfByte(b);
    EightSame(GunBits(DecodeGun(b)), ToBits(b, 8));
  }

  lemma GunInverts(b: Byte)
    ensures FromBits(GunBits(DecodeGun(b))) == b <==> Confirmed(b)
  {
    GunAreBits(b);
    SameBitsSameByte(b, GunBits(DecodeGun(b)));
  }

  /** Exactly the confirmed frames with at most one gun bit are what their packet encodes to. */
  lemma EncodeInvertsDecode(frame: seq<Byte>)
    requires |frame| == 3
    ensures Encode(Decode(frame)) == frame <==> Confirmed(frame[2])
  {
    KeysInvert(frame);
    GunInverts(frame[2]);
  }

  /** The or-assignments to the first byte of `encode_data`: each sets one bit of a byte that starts at zero. */
  method KeyByte(p: NetPacket) returns (b: Byte)
    ensures b == FromBits(KeyBits(p))
  {
    var bits := OrKeys(p);
    b := AsByte(bits);
  }

  method OrKeys(p: NetPacket) returns (bits: seq<bool>)
    ensures bits == KeyBits(p)
  {
    bits := seq(8, _ => false);
    bits := bits[DATA_SHOOTDOWN := p.shoot];
    bits := bits[DATA_CTRLDOWN := p.ctrl];
    bits := bits[DATA_SHIFTDOWN := p.shift];
    bits := bits[DATA_DDOWN := p.d];
    bits := bits[DATA_SDOWN := p.s];
    bits := bits[DATA_ADOWN := p.a];
    bits := bits[DATA_WDOWN := p.w];
    bits := bits[DATA_MOUSE_MSB := p.mouseMsb != 0];
  }

  method AsByte(bits: seq<bool>) returns (b: Byte)
    requires |bits| == 8
    ensures b == FromBits(bits)
  {
    EightBits(bits, 0);
    b := FromBits(bits);
  }

  /** The or-assignment to the third byte: one more bit of the confirm marker, if it is within the byte. */
  method GunByte(gun: Byte) returns (b: Byte)
    ensures b == FromBits(GunBits(gun))
  {
    var bits := OrGun(gun);
    b := AsByte(bits);
  }

  method OrGun(gun: Byte) returns (bits: seq<bool>)
    ensures bits == GunBits(gun)
  {
    bits := CONFIRM_BITS;
    if ShiftCount(gun) < 8 {
      bits := bits[ShiftCount(gun) := true];
    }
  }

  /** `encode_data`. */
  method EncodeData(data: array<Byte>, p: NetPacket)
    requires data.Length == 3
    modifies data
    ensures data[..] == Encode(p)
  {
    data[0] := KeyByte(p);
    data[1] := p.mouseByte;
    data[2] := GunByte(p.gun);
  }
}
