/** Bytes as the drivers see them. */
module Bytes {
  type Byte = b: int | 0 <= b < 256

  /** `b & BIT(k)`, as a truth value. */
  predicate HasBit(b: nat, k: nat) {
    if k == 0 then b % 2 == 1 else HasBit(b / 2, k - 1)
  }

  lemma NextBit(b: nat, k: nat)
    ensures HasBit(b, k + 1) <==> HasBit(b / 2, k)
  {
  }

  /** The bits of a byte by division. */
  lemma LowBits(b: nat)
    ensures HasBit(b, 0) <==> b % 2 == 1
    ensures HasBit(b, 1) <==> b / 2 % 2 == 1
    ensures HasBit(b, 2) <==> b / 4 % 2 == 1
    ensures HasBit(b, 3) <==> b / 8 % 2 == 1
  {
    NextBit(b, 0);
    NextBit(b, 1);
    NextBit(b / 2, 0);
    NextBit(b, 2);
    NextBit(b / 2, 1);
    NextBit(b / 2 / 2, 0);
    assert b / 2 / 2 == b / 4 && b / 2 / 2 / 2 == b / 8;
  }

  lemma {:induction false} HighBit(b: nat, k: nat)
    requires k < 4
    ensures HasBit(b, k + 4) <==> HasBit(b / 16, k)
  {
    NextBit(b, k + 3);
    NextBit(b / 2, k + 2);
    NextBit(b / 2 / 2, k + 1);
    NextBit(b / 2 / 2 / 2, k);
    assert b / 2 / 2 / 2 / 2 == b / 16;
  }

  lemma HighBits(b: nat)
    ensures HasBit(b, 4) <==> b / 16 % 2 == 1
    ensures HasBit(b, 5) <==> b / 32 % 2 == 1
    ensures HasBit(b, 6) <==> b / 64 % 2 == 1
    ensures HasBit(b, 7) <==> b / 128 % 2 == 1
  {
    LowBits(b / 16);
    HighBit(b, 0);
    HighBit(b, 1);
    HighBit(b, 2);
    HighBit(b, 3);
    assert b / 16 / 2 == b / 32 && b / 16 / 4 == b / 64 && b / 16 / 8 == b / 128;
  }

  /** The number whose binary digits these are, least significant first. */
  function FromBits(bits: seq<bool>): (n: nat) {
    if bits == [] then 0 else (if bits[0] then 1 else 0) + 2 * FromBits(bits[1..])
  }

  function ToBits(b: nat, n: nat): (bits: seq<bool>)
    ensures |bits| == n
  {
    if n == 0 then [] else [b % 2 == 1] + ToBits(b / 2, n - 1)
  }

  lemma {:induction false} BitOfFromBits(bits: seq<bool>, k: nat)
    requires k < |bits|
    ensures HasBit(FromBits(bits), k) == bits[k]
  {
    if k > 0 {
      BitOfFromBits(bits[1..], k - 1);
    }
  }

  lemma {:induction false} BitOfToBits(b: nat, n: nat, k: nat)
    requires k < n
    ensures ToBits(b, n)[k] == HasBit(b, k)
  {
    if k > 0 {
      BitOfToBits(b / 2, n - 1, k - 1);
    }
  }

  /** Eight bits make a byte, and a byte is made of its bits. */
  lemma EightBits(bits: seq<bool>, b: Byte)
    requires |bits| == 8
    ensures FromBits(bits) < 256
    ensures FromBits(ToBits(b, 8)) == b
  {
    FromBitsBelow(bits, 256);
    FromToBits(b, 8, 256);
  }

  predicate IsPow2(m: nat, n: nat) {
    if n == 0 then m == 1 else m % 2 == 0 && IsPow2(m / 2, n - 1)
  }

  lemma {:induction false} FromBitsBelow(bits: seq<bool>, m: nat)
    requires IsPow2(m, |bits|)
    ensures FromBits(bits) < m
  {
    if bits != [] {
      FromBitsBelow(bits[1..], m / 2);
    }
  }

  lemma {:induction false} FromToBits(b: nat, n: nat, m: nat)
    requires IsPow2(m, n) && b < m
    ensures FromBits(ToBits(b, n)) == b
  {
    if n > 0 {
      FromToBits(b / 2, n - 1, m / 2);
      assert ToBits(b, n)[1..] == ToBits(b / 2, n - 1);
    }
  }
}
