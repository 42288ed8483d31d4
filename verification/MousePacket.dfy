/** The three-byte PS/2 mouse packet: lab4/kbc.c decodes it, the mouse encodes it. */
module MousePacket {
  import opened Bytes

  type Int16 = v: int | -0x8000 <= v < 0x8000

  // Bit positions in the first byte.
  const MOUSE_LB: nat := 0
  const MOUSE_RB: nat := 1
  const MOUSE_MB: nat := 2
  const MOUSE_FIRST_BIT: nat := 3
  const MOUSE_MSB_X_DELTA: nat := 4
  const MOUSE_MSB_Y_DELTA: nat := 5
  const MOUSE_X_OVFL: nat := 6
  const MOUSE_Y_OVFL: nat := 7

  /** `struct packet`. */
  datatype Packet = Packet(raw: seq<Byte>, lb: bool, rb: bool, mb: bool, xOv: bool, yOv: bool,
                           dx: Int16, dy: Int16)

  /** The value of sixteen bits read as two's complement. */
  function AsInt16(bits: int): (v: Int16)
    requires 0 <= bits < 0x1_0000
  {
    if bits < 0x8000 then bits else bits - 0x1_0000
  }

  /** Sign extension from nine bits; the mask 0xff00 has no bit in common with a byte, so or-ing it in adds it. */
  function Int9ToInt16(lsb: Byte, negative: bool): (v: Int16)
    ensures -256 <= v <= 255
    ensures v < 0 <==> negative
    ensures (v - lsb) % 256 == 0
  {
    AsInt16(if negative then lsb + 0xff00 else lsb)
  }

  predicate IsTriple(bytes: seq<Byte>) {
    |bytes| == 3
  }

  function ParsePacket(bytes: seq<Byte>): (p: Packet)
    requires IsTriple(bytes)
    ensures Decoded(p)
  {
    var first := bytes[0];
    Packet(bytes,
           HasBit(first, MOUSE_LB), HasBit(first, MOUSE_RB), HasBit(first, MOUSE_MB),
           HasBit(first, MOUSE_X_OVFL), HasBit(first, MOUSE_Y_OVFL),
           Int9ToInt16(bytes[1], HasBit(first, MOUSE_MSB_X_DELTA)),
           Int9ToInt16(bytes[2], HasBit(first, MOUSE_MSB_Y_DELTA)))
  }

  /** Every field of a packet, by division of its bytes. */
  lemma FieldsByDivision(bytes: seq<Byte>)
    requires IsTriple(bytes)
    ensures var p, first := ParsePacket(bytes), bytes[0];
            && p.raw == bytes
            && (p.lb <==> first % 2 == 1) && (p.rb <==> first / 2 % 2 == 1) && (p.mb <==> first / 4 % 2 == 1)
            && (p.xOv <==> first / 64 % 2 == 1) && (p.yOv <==> first / 128 % 2 == 1)
            && p.dx == (if first / 16 % 2 == 1 then bytes[1] as int - 256 else bytes[1])
            && p.dy == (if first / 32 % 2 == 1 then bytes[2] as int - 256 else bytes[2])
  {
    LowBits(bytes[0]);
    HighBits(bytes[0]);
  }

  /** The nine-bit range, the only deltas a decoded packet can carry. */
  predicate Decoded(p: Packet) {
    -256 <= p.dx <= 255 && -256 <= p.dy <= 255
  }

  function FirstByteBits(p: Packet): (bits: seq<bool>) {
    [p.lb, p.rb, p.mb, true, p.dx < 0, p.dy < 0, p.xOv, p.yOv]
  }

  /** What the device puts on the line for a report: nine-bit two's complement deltas, sign bits in the first byte. */
  function WireBytes(p: Packet): (bytes: seq<Byte>)
    requires Decoded(p)
    ensures IsTriple(bytes) && HasBit(bytes[0], MOUSE_FIRST_BIT)
  {
    EightBits(FirstByteBits(p), 0);
    BitOfFromBits(FirstByteBits(p), MOUSE_FIRST_BIT);
    [ FromBits(FirstByteBits(p)),
      if p.dx < 0 then p.dx + 256 else p.dx,
      if p.dy < 0 then p.dy + 256 else p.dy ]
  }

  lemma RawDoesNotMatter(p: Packet, raw: seq<Byte>)
    requires Decoded(p)
    ensures WireBytes(p.(raw := raw)) == WireBytes(p)
  {
    assert FirstByteBits(p.(raw := raw)) == FirstByteBits(p);
  }

  /** Packets as the device sends them. */
  predicate OnTheWire(ps: seq<Packet>) {
    forall i | 0 <= i < |ps| :: Decoded(ps[i]) && ps[i].raw == WireBytes(ps[i])
  }

  /** Every report in the nine-bit range comes back from its wire form. */
  lemma DecodeInvertsEncode(p: Packet)
    requires Decoded(p)
    ensures ParsePacket(WireBytes(p)) == p.(raw := WireBytes(p))
  {
    var bits := FirstByteBits(p);
    forall k: nat | k < 8
      ensures HasBit(FromBits(bits), k) == bits[k]
    {
      BitOfFromBits(bits, k);
    }
  }

  /** Conversely a triple is the wire form of what it decodes to exactly when its first byte carries the sync bit. */
  lemma EncodeInvertsDecode(bytes: seq<Byte>)
    requires IsTriple(bytes)
    ensures WireBytes(ParsePacket(bytes)) == bytes <==> HasBit(bytes[0], MOUSE_FIRST_BIT)
  {
    var bits := FirstByteBits(ParsePacket(bytes));
    forall k: nat | k < 8
      ensures ToBits(bytes[0], 8)[k] == HasBit(bytes[0], k)
    {
      BitOfToBits(bytes[0], 8, k);
    }
    if HasBit(bytes[0], MOUSE_FIRST_BIT) {
      EightBits(bits, bytes[0]);
      assert ToBits(bytes[0], 8) == bits;
    }
  }
}
