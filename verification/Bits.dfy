/** Bytes as strings of eight bits, most significant bit first, which is the numbering
    client/DES/des.c uses when it addresses bit n of a buffer as `0x80 >> (n % 8)` of byte n / 8. */
module Bits {

  function Mask(j: nat): bv8
    requires j < 8
  {
    match j case 0 => 0x80 case 1 => 0x40 case 2 => 0x20 case 3 => 0x10
    case 4 => 0x08 case 5 => 0x04 case 6 => 0x02 case _ => 0x01
  }

  predicate BitOf(b: bv8, j: nat)
    requires j < 8
  {
    b & Mask(j) != 0
  }

  predicate BitAt(bytes: seq<bv8>, i: nat)
    requires i < 8 * |bytes|
  {
    BitOf(bytes[i / 8], i % 8)
  }

  /** Bit n of the bytes as numbers stand in memory: from the lowest bit of the first byte. */
  predicate MemoryBit(bytes: seq<bv8>, n: nat)
    requires n < 8 * |bytes|
  {
    BitOf(bytes[n / 8], 7 - n % 8)
  }

  function ToBits(bytes: seq<bv8>): (bits: seq<bool>)
    ensures |bits| == 8 * |bytes|
    ensures forall i: nat :: i < |bits| ==> bits[i] == BitAt(bytes, i)
  {
    seq(8 * |bytes|, i requires 0 <= i < 8 * |bytes| => BitAt(bytes, i))
  }

  function MaskIf(b: bool, j: nat): bv8
    requires j < 8
  {
    if b then Mask(j) else 0
  }

  function PackByte(b: seq<bool>): bv8
    requires |b| == 8
  {
    PackBits(b, 8)
  }

  // The first n bits put in their places.
  function PackBits(b: seq<bool>, n: nat): bv8
    requires n <= 8 && n <= |b|
  {
    if n == 0 then 0 else PackBits(b, n - 1) | MaskIf(b[n - 1], n - 1)
  }

  function FromBits(bits: seq<bool>): (bytes: seq<bv8>)
    requires |bits| % 8 == 0
    ensures |bytes| == |bits| / 8
  {
    seq(|bits| / 8, q requires 0 <= q < |bits| / 8 => PackByte(bits[8 * q..8 * q + 8]))
  }

  function Zeros(n: nat): (r: seq<bool>)
    ensures |r| == n
    ensures forall i :: 0 <= i < n ==> !r[i]
  {
    if n == 0 then [] else [false] + Zeros(n - 1)
  }

  function Not(b: seq<bool>): (r: seq<bool>)
    ensures |r| == |b|
    ensures forall i :: 0 <= i < |b| ==> r[i] == !b[i]
  {
    seq(|b|, i requires 0 <= i < |b| => !b[i])
  }

  function Xor(a: seq<bool>, b: seq<bool>): (r: seq<bool>)
    requires |a| == |b|
    ensures |r| == |a|
    ensures forall i :: 0 <= i < |a| ==> r[i] == (a[i] != b[i])
  {
    seq(|a|, i requires 0 <= i < |a| => a[i] != b[i])
  }

  // ---------------------------------------------------------------- byte facts

  lemma MaskIsShift(j: nat)
    requires j < 8
    ensures (0x80 as bv8) >> j == Mask(j)
  {
    if j == 0 {} else if j == 1 {} else if j == 2 {} else if j == 3 {}
    else if j == 4 {} else if j == 5 {} else if j == 6 {} else { assert j == 7; }
  }

  /** Two bytes with the same eight bits are the same byte. */
  lemma ByteFromBits(a: bv8, b: bv8)
    requires forall j: nat :: j < 8 ==> BitOf(a, j) == BitOf(b, j)
    ensures a == b
  {
    assert BitOf(a, 0) == BitOf(b, 0);
    assert BitOf(a, 1) == BitOf(b, 1);
    assert BitOf(a, 2) == BitOf(b, 2);
    assert BitOf(a, 3) == BitOf(b, 3);
    assert BitOf(a, 4) == BitOf(b, 4);
    assert BitOf(a, 5) == BitOf(b, 5);
    assert BitOf(a, 6) == BitOf(b, 6);
    assert BitOf(a, 7) == BitOf(b, 7);
    EightBits(a, b);
  }

  lemma EightBits(a: bv8, b: bv8)
    requires (a & 0x80 != 0) == (b & 0x80 != 0) && (a & 0x40 != 0) == (b & 0x40 != 0)
    requires (a & 0x20 != 0) == (b & 0x20 != 0) && (a & 0x10 != 0) == (b & 0x10 != 0)
    requires (a & 0x08 != 0) == (b & 0x08 != 0) && (a & 0x04 != 0) == (b & 0x04 != 0)
    requires (a & 0x02 != 0) == (b & 0x02 != 0) && (a & 0x01 != 0) == (b & 0x01 != 0)
    ensures a == b
  {}

  lemma XorBit(a: bv8, b: bv8, j: nat)
    requires j < 8
    ensures BitOf(a ^ b, j) == (BitOf(a, j) != BitOf(b, j))
  {
    hide Mask;
    XorMasked(a, b, Mask(j));
    XorZero(a & Mask(j), b & Mask(j));
    OneBit(a, j);
    OneBit(b, j);
  }

  lemma XorMasked(a: bv8, b: bv8, m: bv8)
    ensures (a ^ b) & m == (a & m) ^ (b & m)
  {}

  lemma XorZero(a: bv8, b: bv8)
    ensures a ^ b == 0 <==> a == b
  {}

  lemma OneBit(a: bv8, j: nat)
    requires j < 8
    ensures a & Mask(j) == 0 || a & Mask(j) == Mask(j)
  {}

  lemma NotBit(a: bv8, j: nat)
    requires j < 8
    ensures BitOf(!a, j) == !BitOf(a, j)
  {}

  lemma OrMaskBit(a: bv8, b: bool, i: nat, j: nat)
    requires i < 8 && j < 8
    ensures BitOf(a | MaskIf(b, i), j) == (BitOf(a, j) || (b && i == j))
  {}

  lemma NoBit(j: nat)
    requires j < 8
    ensures !BitOf(0, j)
  {}

  lemma {:induction false} PackBitsBit(b: seq<bool>, n: nat, j: nat)
    requires n <= 8 && n <= |b| && j < 8
    ensures BitOf(PackBits(b, n), j) == (j < n && b[j])
  {
    hide BitOf, MaskIf;
    if n == 0 {
      NoBit(j);
    } else {
      PackBitsBit(b, n - 1, j);
      OrMaskBit(PackBits(b, n - 1), b[n - 1], n - 1, j);
    }
  }

  lemma PackByteBit(b: seq<bool>, j: nat)
    requires |b| == 8 && j < 8
    ensures BitOf(PackByte(b), j) == b[j]
  {
    PackBitsBit(b, 8, j);
  }

  /** Bit strings and byte strings are the same thing: each direction undoes the other. */
  lemma UnpackPack(bits: seq<bool>)
    requires |bits| % 8 == 0
    ensures ToBits(FromBits(bits)) == bits
  {
    hide BitOf, PackByte;
    forall i: nat | i < |bits|
      ensures ToBits(FromBits(bits))[i] == bits[i]
    {
      PackByteBit(bits[8 * (i / 8)..8 * (i / 8) + 8], i % 8);
    }
  }

  lemma PackUnpack(bytes: seq<bv8>)
    ensures FromBits(ToBits(bytes)) == bytes
  {
    UnpackPack(ToBits(bytes));
    SameBits(FromBits(ToBits(bytes)), bytes);
  }

  lemma SameBits(a: seq<bv8>, b: seq<bv8>)
    requires ToBits(a) == ToBits(b)
    ensures a == b
  {
    assert 8 * |a| == |ToBits(a)| == 8 * |b|;
    forall q | 0 <= q < |a|
      ensures a[q] == b[q]
    {
      forall j: nat | j < 8
        ensures BitOf(a[q], j) == BitOf(b[q], j)
      {
        assert ToBits(a)[8 * q + j] == ToBits(b)[8 * q + j];
        assert BitAt(a, 8 * q + j) == BitAt(b, 8 * q + j);
      }
      ByteFromBits(a[q], b[q]);
    }
  }
}
