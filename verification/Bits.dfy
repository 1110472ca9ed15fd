/** Bytes as the driver packs them: most significant bit first. */
module Bits {

  /** The mask the driver writes as `1 << (7 - i)`. */
  function Mask(i: nat): bv8
    requires i < 8
  {
    match i
    case 0 => 0x80
    case 1 => 0x40
    case 2 => 0x20
    case 3 => 0x10
    case 4 => 0x08
    case 5 => 0x04
    case 6 => 0x02
    case _ => 0x01
  }

  /** Bit `i` of a byte, counted from the most significant one. */
  function Bit(b: bv8, i: nat): bool
    requires i < 8
  {
    b & Mask(i) != 0
  }

  function ToByte(bit: bool): bv8 {
    if bit then 1 else 0
  }

  /** `(b << 1) | bit`, how the receiver and the decoder append one bit to a byte. */
  function ShiftIn(b: bv8, bit: bool): bv8 {
    (b << 1) | ToByte(bit)
  }

  /** The bit string held by a byte string. */
  function Unpack(bytes: seq<bv8>): (bits: seq<bool>)
    ensures |bits| == 8 * |bytes|
  {
    seq(8 * |bytes|, i requires 0 <= i < 8 * |bytes| => Bit(bytes[i / 8], i % 8))
  }

  lemma UnpackAt(bytes: seq<bv8>, i: nat)
    requires i < 8 * |bytes|
    ensures Unpack(bytes)[i] == Bit(bytes[i / 8], i % 8)
  {
  }

  function ShiftLeft(b: bv8, k: nat): bv8
    requires k < 8
  {
    match k
    case 0 => b
    case 1 => b << 1
    case 2 => b << 2
    case 3 => b << 3
    case 4 => b << 4
    case 5 => b << 5
    case 6 => b << 6
    case _ => b << 7
  }

  /** `b >> (8 - k)`; shifting a byte by eight leaves nothing. */
  function ShiftRightFrom8(b: bv8, k: nat): bv8
    requires k < 8
  {
    match k
    case 0 => 0
    case 1 => b >> 7
    case 2 => b >> 6
    case 3 => b >> 5
    case 4 => b >> 4
    case 5 => b >> 3
    case 6 => b >> 2
    case _ => b >> 1
  }

  /** Eight bits cut out of two neighbouring bytes, `k` bits into the first. */
  function Straddle(a: bv8, b: bv8, k: nat): bv8
    requires k < 8
  {
    ShiftLeft(a, k) | ShiftRightFrom8(b, k)
  }

  lemma OrBit(a: bv8, b: bv8, i: nat)
    requires i < 8
    ensures Bit(a | b, i) == (Bit(a, i) || Bit(b, i))
  {
  }

  lemma ShiftLeftBit(a: bv8, k: nat, i: nat)
    requires k < 8 && i < 8
    ensures Bit(ShiftLeft(a, k), i) == (k + i < 8 && Bit(a, k + i))
  {
    match k {
      case 0 => case 1 => case 2 => case 3 => case 4 => case 5 => case 6 => case _ =>
    }
  }

  lemma ShiftRightBit(b: bv8, k: nat, i: nat)
    requires k < 8 && i < 8
    ensures Bit(ShiftRightFrom8(b, k), i) == (8 <= k + i && Bit(b, k + i - 8))
  {
    match k {
      case 0 => case 1 => case 2 => case 3 => case 4 => case 5 => case 6 => case _ =>
    }
  }

  lemma StraddleBit(a: bv8, b: bv8, k: nat, i: nat)
    requires k < 8 && i < 8
    ensures Bit(Straddle(a, b, k), i) == if k + i < 8 then Bit(a, k + i) else Bit(b, k + i - 8)
  {
    ShiftLeftBit(a, k, i);
    ShiftRightBit(b, k, i);
    OrBit(ShiftLeft(a, k), ShiftRightFrom8(b, k), i);
  }

  lemma ShiftInBit(b: bv8, bit: bool, i: nat)
    requires i < 8
    ensures Bit(ShiftIn(b, bit), i) == if i == 7 then bit else Bit(b, i + 1)
  {
  }

  lemma AllOnes(i: nat)
    requires i < 8
    ensures Bit(0xFF, i)
  {
  }

  /** Two bytes with the same bits are the same byte. */
  lemma SameBits(a: bv8, b: bv8)
    requires forall i | 0 <= i < 8 :: Bit(a, i) == Bit(b, i)
    ensures a == b
  {
    assert Bit(a, 0) == Bit(b, 0) && Bit(a, 1) == Bit(b, 1) && Bit(a, 2) == Bit(b, 2) && Bit(a, 3) == Bit(b, 3);
    assert Bit(a, 4) == Bit(b, 4) && Bit(a, 5) == Bit(b, 5) && Bit(a, 6) == Bit(b, 6) && Bit(a, 7) == Bit(b, 7);
  }
}
