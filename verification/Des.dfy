/** The byte-packed DES of client/DES/des.c. Each method updates bytes the way the C code does
    and is proved to compute what Fips46 defines on bits. */
module Des {
  import opened Bits
  import opened DesTables
  import opened Fips46

  const DECRYPTION_MODE := 0
  const ENCRYPTION_MODE := 1

  /** A struct key_set: a value inside the caller's array of seventeen. */
  datatype KeySet = KeySet(k: seq<bv8>, c: seq<bv8>, d: seq<bv8>) {
    predicate Sized() {
      |k| == 8 && |c| == 4 && |d| == 4
    }
  }

  // ---------------------------------------------------------------- moving single bits

  /** What one step of the permutation loops ORs into byte i / 8 of its target: bit `position`
      of src (counted from one), moved to place i % 8. */
  function MovedBit(src: seq<bv8>, position: nat, i: nat): bv8
    requires 1 <= position <= 8 * |src|
  {
    var shiftSize := (position - 1) % 8;
    var shiftByte := (0x80 as bv8 >> shiftSize) & src[(position - 1) / 8];
    (shiftByte << shiftSize) >> (i % 8)
  }

  lemma MovedBitIsMask(src: seq<bv8>, position: nat, i: nat)
    requires 1 <= position <= 8 * |src|
    ensures MovedBit(src, position, i) == MaskIf(BitAt(src, position - 1), i % 8)
  {
    var j := (position - 1) % 8;
    MaskIsShift(j);
    TopBit(src[(position - 1) / 8], j);
    MaskIsShift(i % 8);
    assert (0 as bv8) >> (i % 8) == 0 by { ZeroShifted(i % 8); }
  }

  lemma ZeroShifted(j: nat)
    requires j < 8
    ensures (0 as bv8) >> j == 0
  {}

  lemma TopBit(b: bv8, j: nat)
    requires j < 8
    ensures (Mask(j) & b) << j == if BitOf(b, j) then 0x80 else 0
  {
    if j < 4 { TopBitLow(b, j); } else { TopBitHigh(b, j); }
  }

  lemma TopBitLow(b: bv8, j: nat)
    requires j < 4
    ensures (Mask(j) & b) << j == if BitOf(b, j) then 0x80 else 0
  {
    if j == 0 {} else if j == 1 {} else if j == 2 {} else { assert j == 3; }
  }

  lemma TopBitHigh(b: bv8, j: nat)
    requires 4 <= j < 8
    ensures (Mask(j) & b) << j == if BitOf(b, j) then 0x80 else 0
  {
    if j == 4 {} else if j == 5 {} else if j == 6 {} else { assert j == 7; }
  }

  /** The bits of a with those of p ORed onto its front. */
  function OrOnto(a: seq<bool>, p: seq<bool>): (r: seq<bool>)
    requires |p| <= |a|
    ensures |r| == |a|
    ensures forall i :: 0 <= i < |a| ==> r[i] == (a[i] || (i < |p| && p[i]))
  {
    seq(|a|, i requires 0 <= i < |a| => a[i] || (i < |p| && p[i]))
  }

  function ZeroBytes(n: nat): (r: seq<bv8>)
    ensures |r| == n
    ensures forall i :: 0 <= i < n ==> r[i] == 0
  {
    if n == 0 then [] else [0] + ZeroBytes(n - 1)
  }

  lemma OrOntoZero(n: nat, p: seq<bool>)
    requires |p| <= 8 * n
    ensures OrOnto(ToBits(ZeroBytes(n)), p)[..|p|] == p
    ensures forall i :: |p| <= i < 8 * n ==> !OrOnto(ToBits(ZeroBytes(n)), p)[i]
  {
    forall i: nat | i < 8 * n
      ensures !ToBits(ZeroBytes(n))[i]
    {
      assert BitAt(ZeroBytes(n), i) == BitOf(0, i % 8);
    }
  }

  lemma OrBitStep(bytes: seq<bv8>, i: nat, b: bool, n: nat)
    requires i < 8 * |bytes| && n < 8 * |bytes|
    ensures BitAt(bytes[i / 8 := bytes[i / 8] | MaskIf(b, i % 8)], n) == (BitAt(bytes, n) || (n == i && b))
  {
    OrMaskBit(bytes[i / 8], b, i % 8, n % 8);
  }

  // Bit n of out, once the first i bits of p have been ORed onto target.
  ghost predicate OredAt(target: seq<bv8>, p: seq<bool>, i: nat, out: seq<bv8>, n: nat)
    requires i <= |p| && |out| == |target| && n < 8 * |target|
  {
    BitAt(out, n) == (BitAt(target, n) || (n < i && p[n]))
  }

  ghost predicate OredUpTo(target: seq<bv8>, p: seq<bool>, i: nat, out: seq<bv8>)
    requires i <= |p|
  {
    |out| == |target| && forall n: nat :: n < 8 * |target| ==> OredAt(target, p, i, out, n)
  }

  lemma OredStepAt(target: seq<bv8>, p: seq<bool>, i: nat, out: seq<bv8>, n: nat)
    requires i < |p| <= 8 * |target|
    requires |out| == |target| && n < 8 * |target| && OredAt(target, p, i, out, n)
    ensures OredAt(target, p, i + 1, out[i / 8 := out[i / 8] | MaskIf(p[i], i % 8)], n)
  {
    hide BitOf, MaskIf;
    OrBitStep(out, i, p[i], n);
  }

  lemma OredStep(target: seq<bv8>, p: seq<bool>, i: nat, out: seq<bv8>)
    requires i < |p| <= 8 * |target|
    requires OredUpTo(target, p, i, out)
    ensures OredUpTo(target, p, i + 1, out[i / 8 := out[i / 8] | MaskIf(p[i], i % 8)])
  {
    hide OredAt, MaskIf;
    var next, i' := out[i / 8 := out[i / 8] | MaskIf(p[i], i % 8)], i + 1;
    forall n: nat | n < 8 * |target|
      ensures OredAt(target, p, i', next, n)
    {
      OredStepAt(target, p, i, out, n);
    }
  }

  lemma OredNothing(target: seq<bv8>, p: seq<bool>)
    ensures OredUpTo(target, p, 0, target)
  {}

  lemma OredAll(target: seq<bv8>, p: seq<bool>, out: seq<bv8>)
    requires |p| <= 8 * |target| && OredUpTo(target, p, |p|, out)
    ensures ToBits(out) == OrOnto(ToBits(target), p)
  {
    hide BitOf;
    forall n: nat | n < 8 * |target|
      ensures ToBits(out)[n] == OrOnto(ToBits(target), p)[n]
    {
      assert OredAt(target, p, |p|, out, n);
    }
  }

  lemma OrPermutedStep(table: seq<nat>, src: seq<bv8>, target: seq<bv8>, i: nat, out: seq<bv8>)
    requires Selects(table, 8 * |src|) && i < |table| <= 8 * |target|
    requires OredUpTo(target, Permuted(table, ToBits(src)), i, out)
    ensures OredUpTo(target, Permuted(table, ToBits(src)), i + 1,
                     out[i / 8 := out[i / 8] | MovedBit(src, table[i], i)])
  {
    hide BitOf, OredAt, MaskIf, MovedBit;
    OredStep(target, Permuted(table, ToBits(src)), i, out);
    MovedBitIsMask(src, table[i], i);
  }

  /** The permutation loops of des.c: target bits are ORed in one at a time, never cleared. */
  method OrPermuted(table: seq<nat>, src: seq<bv8>, target: seq<bv8>) returns (out: seq<bv8>)
    requires Selects(table, 8 * |src|) && |table| <= 8 * |target|
    ensures |out| == |target|
    ensures ToBits(out) == OrOnto(ToBits(target), Permuted(table, ToBits(src)))
  {
    hide OredAt, MaskIf, MovedBit, BitOf;
    ghost var p := Permuted(table, ToBits(src));
    out := target;
    OredNothing(target, p);
    for i := 0 to |table|
      invariant OredUpTo(target, p, i, out)
    {
      OrPermutedStep(table, src, target, i, out);
      out := out[i / 8 := out[i / 8] | MovedBit(src, table[i], i)];
    }
    OredAll(target, p, out);
  }

  /** The same loop into a buffer that has just been cleared. */
  method Permute(table: seq<nat>, src: seq<bv8>, size: nat) returns (out: seq<bv8>)
    requires Selects(table, 8 * |src|) && |table| == 8 * size
    ensures |out| == size
    ensures ToBits(out) == Permuted(table, ToBits(src))
  {
    out := OrPermuted(table, src, ZeroBytes(size));
    OrOntoZero(size, Permuted(table, ToBits(src)));
  }

  // ---------------------------------------------------------------- the S-boxes

  function GroupValue(er: seq<bv8>, box: nat): (i: nat)
    requires |er| == 6 && box < 8
    ensures i < 64
  {
    SBoxIndex(Group(ToBits(er), box))
  }

  /** The standard's reading of group `box`, on the bits of the six bytes. */
  lemma GroupIndex(er: seq<bv8>, box: nat)
    requires |er| == 6 && box < 8
    ensures GroupValue(er, box)
         == 16 * (2 * BitValue(BitAt(er, 6 * box)) + BitValue(BitAt(er, 6 * box + 5)))
          + 8 * BitValue(BitAt(er, 6 * box + 1)) + 4 * BitValue(BitAt(er, 6 * box + 2))
          + 2 * BitValue(BitAt(er, 6 * box + 3)) + BitValue(BitAt(er, 6 * box + 4))
  {
    hide BitOf;
  }

  // The four ways des.c cuts a row and a column out of er: lines 307-312, 316-322, 327-333 and
  // 337-342 for its first three bytes, lines 347-382 for the other three.
  lemma RowFirstByte(a: bv8)
    ensures (((a & 0x80) >> 6) | ((a & 0x04) >> 2)) as int == 2 * BitValue(BitOf(a, 0)) + BitValue(BitOf(a, 5))
  {}

  lemma ColumnFirstByte(a: bv8)
    ensures ((a & 0x78) >> 3) as int
         == 8 * BitValue(BitOf(a, 1)) + 4 * BitValue(BitOf(a, 2)) + 2 * BitValue(BitOf(a, 3)) + BitValue(BitOf(a, 4))
  {}

  lemma RowFirstAndSecond(a: bv8, b: bv8)
    ensures ((a & 0x02) | ((b & 0x10) >> 4)) as int == 2 * BitValue(BitOf(a, 6)) + BitValue(BitOf(b, 3))
  {}

  lemma ColumnFirstAndSecond(a: bv8, b: bv8)
    ensures (((a & 0x01) << 3) | ((b & 0xE0) >> 5)) as int
         == 8 * BitValue(BitOf(a, 7)) + 4 * BitValue(BitOf(b, 0)) + 2 * BitValue(BitOf(b, 1)) + BitValue(BitOf(b, 2))
  {}

  lemma RowSecondAndThird(b: bv8, c: bv8)
    ensures (((b & 0x08) >> 2) | ((c & 0x40) >> 6)) as int == 2 * BitValue(BitOf(b, 4)) + BitValue(BitOf(c, 1))
  {}

  lemma ColumnSecondAndThird(b: bv8, c: bv8)
    ensures (((b & 0x07) << 1) | ((c & 0x80) >> 7)) as int
         == 8 * BitValue(BitOf(b, 5)) + 4 * BitValue(BitOf(b, 6)) + 2 * BitValue(BitOf(b, 7)) + BitValue(BitOf(c, 0))
  {}

  lemma RowThirdByte(c: bv8)
    ensures (((c & 0x20) >> 4) | (c & 0x01)) as int == 2 * BitValue(BitOf(c, 2)) + BitValue(BitOf(c, 7))
  {}

  lemma ColumnThirdByte(c: bv8)
    ensures ((c & 0x1E) >> 1) as int
         == 8 * BitValue(BitOf(c, 3)) + 4 * BitValue(BitOf(c, 4)) + 2 * BitValue(BitOf(c, 5)) + BitValue(BitOf(c, 6))
  {}

  method InFirstByte(a: bv8) returns (index: nat)
    ensures index == 16 * (2 * BitValue(BitOf(a, 0)) + BitValue(BitOf(a, 5)))
      + 8 * BitValue(BitOf(a, 1)) + 4 * BitValue(BitOf(a, 2)) + 2 * BitValue(BitOf(a, 3)) + BitValue(BitOf(a, 4))
  {
    hide BitValue, BitOf;
    var row: bv8 := ((a & 0x80) >> 6) | ((a & 0x04) >> 2);
    var column: bv8 := (a & 0x78) >> 3;
    RowFirstByte(a);
    ColumnFirstByte(a);
    index := row as int * 16 + column as int;
  }

  method InFirstAndSecond(a: bv8, b: bv8) returns (index: nat)
    ensures index == 16 * (2 * BitValue(BitOf(a, 6)) + BitValue(BitOf(b, 3)))
      + 8 * BitValue(BitOf(a, 7)) + 4 * BitValue(BitOf(b, 0)) + 2 * BitValue(BitOf(b, 1)) + BitValue(BitOf(b, 2))
  {
    hide BitValue, BitOf;
    var row: bv8 := (a & 0x02) | ((b & 0x10) >> 4);
    var column: bv8 := ((a & 0x01) << 3) | ((b & 0xE0) >> 5);
    RowFirstAndSecond(a, b);
    ColumnFirstAndSecond(a, b);
    index := row as int * 16 + column as int;
  }

  method InSecondAndThird(b: bv8, c: bv8) returns (index: nat)
    ensures index == 16 * (2 * BitValue(BitOf(b, 4)) + BitValue(BitOf(c, 1)))
      + 8 * BitValue(BitOf(b, 5)) + 4 * BitValue(BitOf(b, 6)) + 2 * BitValue(BitOf(b, 7)) + BitValue(BitOf(c, 0))
  {
    hide BitValue, BitOf;
    var row: bv8 := ((b & 0x08) >> 2) | ((c & 0x40) >> 6);
    var column: bv8 := ((b & 0x07) << 1) | ((c & 0x80) >> 7);
    RowSecondAndThird(b, c);
    ColumnSecondAndThird(b, c);
    index := row as int * 16 + column as int;
  }

  method InThirdByte(c: bv8) returns (index: nat)
    ensures index == 16 * (2 * BitValue(BitOf(c, 2)) + BitValue(BitOf(c, 7)))
      + 8 * BitValue(BitOf(c, 3)) + 4 * BitValue(BitOf(c, 4)) + 2 * BitValue(BitOf(c, 5)) + BitValue(BitOf(c, 6))
  {
    hide BitValue, BitOf;
    var row: bv8 := ((c & 0x20) >> 4) | (c & 0x01);
    var column: bv8 := (c & 0x1E) >> 1;
    RowThirdByte(c);
    ColumnThirdByte(c);
    index := row as int * 16 + column as int;
  }

  method IndexFirstByte(er: seq<bv8>, half: nat) returns (index: nat)
    requires |er| == 6 && half < 2
    ensures index == GroupValue(er, 4 * half)
  {
    hide BitOf, GroupValue, BitValue;
    index := InFirstByte(er[3 * half]);
    GroupIndex(er, 4 * half);
  }

  method IndexFirstAndSecond(er: seq<bv8>, half: nat) returns (index: nat)
    requires |er| == 6 && half < 2
    ensures index == GroupValue(er, 4 * half + 1)
  {
    hide BitOf, GroupValue, BitValue;
    index := InFirstAndSecond(er[3 * half], er[3 * half + 1]);
    GroupIndex(er, 4 * half + 1);
  }

  method IndexSecondAndThird(er: seq<bv8>, half: nat) returns (index: nat)
    requires |er| == 6 && half < 2
    ensures index == GroupValue(er, 4 * half + 2)
  {
    hide BitOf, GroupValue, BitValue;
    index := InSecondAndThird(er[3 * half + 1], er[3 * half + 2]);
    GroupIndex(er, 4 * half + 2);
  }

  method IndexThirdByte(er: seq<bv8>, half: nat) returns (index: nat)
    requires |er| == 6 && half < 2
    ensures index == GroupValue(er, 4 * half + 3)
  {
    hide BitOf, GroupValue, BitValue;
    index := InThirdByte(er[3 * half + 2]);
    GroupIndex(er, 4 * half + 3);
  }

  lemma ByteOfNibbles(high: bv8, low: bv8, j: nat)
    requires high < 16 && low < 16 && j < 8
    ensures BitOf((high << 4) | low, j) == if j < 4 then BitOf(high, 4 + j) else BitOf(low, j)
  {
    if j == 0 {} else if j == 1 {} else if j == 2 {} else if j == 3 {}
    else if j == 4 {} else if j == 5 {} else if j == 6 {} else { assert j == 7; }
  }

  /** Byte q of ser: the outputs of S-boxes 2q and 2q + 1. */
  ghost function SBoxByte(er: seq<bv8>, q: nat): bv8
    requires |er| == 6 && q < 4
  {
    (SBox(2 * q, GroupValue(er, 2 * q)) << 4) | SBox(2 * q + 1, GroupValue(er, 2 * q + 1))
  }

  lemma SubstitutedBit(er: seq<bv8>, q: nat, j: nat)
    requires |er| == 6 && q < 4 && j < 8
    ensures BitOf(SBoxByte(er, q), j) == Substituted(ToBits(er))[8 * q + j]
  {
    hide BitOf, SBoxIndex, SBox;
    SBoxIsNibble(2 * q, GroupValue(er, 2 * q));
    SBoxIsNibble(2 * q + 1, GroupValue(er, 2 * q + 1));
    ByteOfNibbles(SBox(2 * q, GroupValue(er, 2 * q)), SBox(2 * q + 1, GroupValue(er, 2 * q + 1)), j);
    assert (8 * q + j) / 4 == if j < 4 then 2 * q else 2 * q + 1;
  }

  lemma SubstitutedBytes(er: seq<bv8>)
    requires |er| == 6
    ensures ToBits([SBoxByte(er, 0), SBoxByte(er, 1), SBoxByte(er, 2), SBoxByte(er, 3)]) == Substituted(ToBits(er))
  {
    hide BitOf, SBoxByte, Substituted;
    var ser := [SBoxByte(er, 0), SBoxByte(er, 1), SBoxByte(er, 2), SBoxByte(er, 3)];
    forall i: nat | i < 32
      ensures ToBits(ser)[i] == Substituted(ToBits(er))[i]
    {
      assert ser[i / 8] == SBoxByte(er, i / 8);
      SubstitutedBit(er, i / 8, i % 8);
    }
  }

  // Lines 306-324
  method SubstituteByte1(er: seq<bv8>) returns (b: bv8)
    requires |er| == 6
    ensures b == SBoxByte(er, 0)
  {
    hide GroupValue, Box;
    var index := IndexFirstByte(er, 0);
    b := S1[index] << 4;
    index := IndexFirstAndSecond(er, 0);
    b := b | S2[index];
  }

  // Lines 326-344
  method SubstituteByte2(er: seq<bv8>) returns (b: bv8)
    requires |er| == 6
    ensures b == SBoxByte(er, 1)
  {
    hide GroupValue, Box;
    var index := IndexSecondAndThird(er, 0);
    b := S3[index] << 4;
    index := IndexThirdByte(er, 0);
    b := b | S4[index];
  }

  // Lines 346-364
  method SubstituteByte3(er: seq<bv8>) returns (b: bv8)
    requires |er| == 6
    ensures b == SBoxByte(er, 2)
  {
    hide GroupValue, Box;
    var index := IndexFirstByte(er, 1);
    b := S5[index] << 4;
    index := IndexFirstAndSecond(er, 1);
    b := b | S6[index];
  }

  // Lines 366-384
  method SubstituteByte4(er: seq<bv8>) returns (b: bv8)
    requires |er| == 6
    ensures b == SBoxByte(er, 3)
  {
    hide GroupValue, Box;
    var index := IndexSecondAndThird(er, 1);
    b := S7[index] << 4;
    index := IndexThirdByte(er, 1);
    b := b | S8[index];
  }

  /** Lines 297-384. Every use of an S-box is at an index below 64. */
  method Substitute(er: seq<bv8>) returns (ser: seq<bv8>)
    requires |er| == 6
    ensures |ser| == 4 && ToBits(ser) == Substituted(ToBits(er))
  {
    hide SBoxByte, Substituted;
    var b0 := SubstituteByte1(er);
    var b1 := SubstituteByte2(er);
    var b2 := SubstituteByte3(er);
    var b3 := SubstituteByte4(er);
    ser := [b0, b1, b2, b3];
    SubstitutedBytes(er);
  }

  // ---------------------------------------------------------------- the cipher function

  function XorBytes(a: seq<bv8>, b: seq<bv8>): (r: seq<bv8>)
    requires |a| <= |b|
    ensures |r| == |a|
    ensures forall i :: 0 <= i < |a| ==> r[i] == a[i] ^ b[i]
  {
    seq(|a|, i requires 0 <= i < |a| => a[i] ^ b[i])
  }

  lemma XorBytesBits(a: seq<bv8>, b: seq<bv8>)
    requires |a| <= |b|
    ensures ToBits(XorBytes(a, b)) == Xor(ToBits(a), ToBits(b)[..8 * |a|])
  {
    hide BitOf;
    forall i: nat | i < 8 * |a|
      ensures ToBits(XorBytes(a, b))[i] == Xor(ToBits(a), ToBits(b)[..8 * |a|])[i]
    {
      XorBit(a[i / 8], b[i / 8], i % 8);
    }
  }

  /** The loops `er[i] ^= k[i]` and `rn[i] ^= l[i]`. */
  method XorInto(target: seq<bv8>, other: seq<bv8>) returns (out: seq<bv8>)
    requires |target| <= |other|
    ensures out == XorBytes(target, other)
  {
    out := target;
    for i := 0 to |target|
      invariant |out| == |target|
      invariant forall n :: 0 <= n < i ==> out[n] == target[n] ^ other[n]
      invariant forall n :: i <= n < |target| ==> out[n] == target[n]
    {
      out := out[i := out[i] ^ other[i]];
    }
  }

  /** One pass of the round loop, lines 274-406, on the buffers l and r. */
  method RoundStep(l: seq<bv8>, r: seq<bv8>, k: seq<bv8>) returns (l': seq<bv8>, r': seq<bv8>)
    requires |l| == 4 && |r| == 4 && |k| == 8
    ensures |l'| == 4 && |r'| == 4
    ensures (ToBits(l'), ToBits(r')) == Round(ToBits(l), ToBits(r), ToBits(k)[..48])
  {
    hide BitOf, Substituted;
    var ln := r;
    var er := Permute(EXPANSION, r, 6);
    XorBytesBits(er, k);
    er := XorInto(er, k);
    var ser := Substitute(er);
    var rn := Permute(PERMUTATION_P, ser, 4);
    XorBytesBits(rn, l);
    assert Xor(ToBits(rn), ToBits(l)[..32]) == Xor(ToBits(l), ToBits(rn));
    rn := XorInto(rn, l);
    l' := ln;
    r' := rn;
  }

  // ---------------------------------------------------------------- process_message

  ghost predicate SizedKeys(keySets: seq<KeySet>) {
    |keySets| == 17 && forall i :: 0 <= i < 17 ==> keySets[i].Sized()
  }

  /** The subkeys of entries 1 to 16: the first 48 bits of each k. */
  function Subkeys(keySets: seq<KeySet>): (keys: seq<Subkey>)
    requires SizedKeys(keySets)
    ensures |keys| == 16
    ensures forall i :: 0 <= i < 16 ==> keys[i] == ToBits(keySets[i + 1].k)[..48]
  {
    seq(16, i requires 0 <= i < 16 => ToBits(keySets[i + 1].k)[..48])
  }

  function InOrder(keys: seq<Subkey>, mode: int): seq<Subkey> {
    if mode == DECRYPTION_MODE then Reversed(keys) else keys
  }

  /** What process_message computes, as a function of the bytes it reads. */
  function Processed(message: seq<bv8>, keys: seq<Subkey>, mode: int): (r: seq<bv8>)
    requires |message| == 8
    ensures |r| == 8
  {
    FromBits(Crypt(ToBits(message), InOrder(keys, mode)))
  }

  /** The loop over k, lines 273-407. */
  method RunRounds(l0: seq<bv8>, r0: seq<bv8>, keySets: array<KeySet>, mode: int) returns (l: seq<bv8>, r: seq<bv8>)
    requires |l0| == 4 && |r0| == 4 && SizedKeys(keySets[..])
    ensures |l| == 4 && |r| == 4
    ensures (ToBits(l), ToBits(r)) == Rounds(ToBits(l0), ToBits(r0), InOrder(Subkeys(keySets[..]), mode))
  {
    hide BitOf, CipherFunction;
    ghost var keys := InOrder(Subkeys(keySets[..]), mode);
    l, r := l0, r0;
    for k := 1 to 17
      invariant |l| == 4 && |r| == 4
      invariant (ToBits(l), ToBits(r)) == Rounds(ToBits(l0), ToBits(r0), keys[..k - 1])
    {
      var keyIndex := if mode == DECRYPTION_MODE then 17 - k else k;
      assert keys[k - 1] == ToBits(keySets[keyIndex].k)[..48];
      RoundsAppend(ToBits(l0), ToBits(r0), keys[..k - 1], keys[k - 1]);
      assert keys[..k - 1] + [keys[k - 1]] == keys[..k];
      l, r := RoundStep(l, r, keySets[keyIndex].k);
    }
    assert keys[..16] == keys;
  }

  method ProcessMessage(messagePiece: array<bv8>, processedPiece: array<bv8>, keySets: array<KeySet>, mode: int)
    requires messagePiece.Length == 8 && processedPiece.Length == 8 && messagePiece != processedPiece
    requires SizedKeys(keySets[..])
    modifies processedPiece
    ensures processedPiece[..] == Processed(messagePiece[..], Subkeys(keySets[..]), mode)
  {
    hide BitOf, Rounds;
    for i := 0 to 8
      invariant forall n :: 0 <= n < i ==> processedPiece[n] == 0
    {
      processedPiece[i] := 0;
    }
    var initialPermutation := Permute(INITIAL_PERMUTATION, messagePiece[..], 8);
    HalvesOfBits(initialPermutation);
    var l, r := RunRounds(initialPermutation[..4], initialPermutation[4..], keySets, mode);
    var preEndPermutation := r + l;
    HalvesOfBits(preEndPermutation);
    assert preEndPermutation[..4] == r && preEndPermutation[4..] == l;
    FinalStage(preEndPermutation, processedPiece);
    PackUnpack(processedPiece[..]);
  }

  lemma HalvesOfBits(bytes: seq<bv8>)
    requires |bytes| == 8
    ensures ToBits(bytes[..4]) == ToBits(bytes)[..32]
    ensures ToBits(bytes[4..]) == ToBits(bytes)[32..]
    ensures ToBits(bytes) == ToBits(bytes[..4]) + ToBits(bytes[4..])
  {
    hide BitOf;
  }

  /** Lines 415-422: the final permutation, ORed bit by bit into the cleared output buffer. */
  method FinalStage(preEnd: seq<bv8>, processedPiece: array<bv8>)
    requires |preEnd| == 8 && processedPiece.Length == 8
    requires forall n :: 0 <= n < 8 ==> processedPiece[n] == 0
    modifies processedPiece
    ensures ToBits(processedPiece[..]) == Permuted(FINAL_PERMUTATION, ToBits(preEnd))
  {
    hide BitOf, OredAt, MaskIf, MovedBit;
    ghost var target, p := processedPiece[..], Permuted(FINAL_PERMUTATION, ToBits(preEnd));
    assert target == ZeroBytes(8);
    OredNothing(target, p);
    for i := 0 to 64
      invariant OredUpTo(target, p, i, processedPiece[..])
    {
      ghost var before := processedPiece[..];
      OrPermutedStep(FINAL_PERMUTATION, preEnd, target, i, before);
      processedPiece[i / 8] := processedPiece[i / 8] | MovedBit(preEnd, FINAL_PERMUTATION[i], i);
      assert processedPiece[..] == before[i / 8 := before[i / 8] | MovedBit(preEnd, FINAL_PERMUTATION[i], i)];
    }
    OredAll(target, p, processedPiece[..]);
    OrOntoZero(8, Permuted(FINAL_PERMUTATION, ToBits(preEnd)));
  }

  // ---------------------------------------------------------------- generate_sub_keys

  /** Four bytes holding a 28-bit register: its bits from the left, then a zero nibble. */
  ghost predicate Holds(bytes: seq<bv8>, b: Register) {
    |bytes| == 4 && ToBits(bytes) == b + Zeros(4)
  }

  lemma HighNibble(a: bv8, j: nat)
    requires j < 8
    ensures BitOf(a & 0xF0, j) == (j < 4 && BitOf(a, j))
  {}

  lemma LowNibbleMovedUp(a: bv8, j: nat)
    requires j < 8
    ensures BitOf((a & 0x0F) << 4, j) == (j < 4 && BitOf(a, j + 4))
  {}

  lemma HighNibbleMovedDown(a: bv8, j: nat)
    requires j < 8
    ensures BitOf((a & 0xF0) >> 4, j) == (4 <= j && BitOf(a, j - 4))
  {}

  lemma OrBit(a: bv8, b: bv8, j: nat)
    requires j < 8
    ensures BitOf(a | b, j) == (BitOf(a, j) || BitOf(b, j))
  {
    OneBit(a, j);
    OneBit(b, j);
    OrMasked(a, b, Mask(j));
  }

  lemma OrMasked(a: bv8, b: bv8, m: bv8)
    ensures (a | b) & m == (a & m) | (b & m)
  {}

  lemma CutC(k: seq<bv8>, c: seq<bv8>)
    requires |k| == 8 && c == k[..3] + [k[3] & 0xF0]
    ensures Holds(c, ToBits(k)[..28])
  {
    hide BitOf;
    forall i: nat | i < 32
      ensures ToBits(c)[i] == (ToBits(k)[..28] + Zeros(4))[i]
    {
      HighNibble(k[3], i % 8);
    }
  }

  lemma CutD(k: seq<bv8>, d: seq<bv8>)
    requires |k| == 8 && |d| == 4 && d[3] == (k[6] & 0x0F) << 4
    requires forall n :: 0 <= n < 3 ==> d[n] == ((k[n + 3] & 0x0F) << 4) | ((k[n + 4] & 0xF0) >> 4)
    ensures Holds(d, ToBits(k)[28..56])
  {
    hide BitOf;
    forall i: nat | i < 32
      ensures ToBits(d)[i] == (ToBits(k)[28..56] + Zeros(4))[i]
    {
      var q, j := i / 8, i % 8;
      LowNibbleMovedUp(k[q + 3], j);
      if i < 28 {
        assert ToBits(k)[28..56][i] == BitAt(k, 28 + i);
        assert (28 + i) / 8 == if j < 4 then q + 3 else q + 4;
        assert (28 + i) % 8 == if j < 4 then j + 4 else j - 4;
      }
      if q < 3 {
        HighNibbleMovedDown(k[q + 4], j);
        OrBit((k[q + 3] & 0x0F) << 4, (k[q + 4] & 0xF0) >> 4, j);
      }
    }
  }

  /** Lines 166-177: C0 and D0 cut out of the permuted key. */
  method SplitRegisters(k: seq<bv8>) returns (c: seq<bv8>, d: seq<bv8>)
    requires |k| == 8
    ensures Holds(c, ToBits(k)[..28]) && Holds(d, ToBits(k)[28..56])
  {
    hide Holds;
    c := k[..3] + [k[3] & 0xF0];
    d := [];
    for i := 0 to 3
      invariant |d| == i
      invariant forall n :: 0 <= n < i ==> d[n] == ((k[n + 3] & 0x0F) << 4) | ((k[n + 4] & 0xF0) >> 4)
    {
      var b: bv8 := (k[i + 3] & 0x0F) << 4;
      d := d + [b | ((k[i + 4] & 0xF0) >> 4)];
    }
    d := d + [(k[6] & 0x0F) << 4];
    CutC(k, c);
    CutD(k, d);
  }

  // The byte masks of lines 187-191 and the shifts of lines 199-209.
  function TopBits(shiftSize: nat): bv8 {
    if shiftSize == 1 then 0x80 else 0xC0
  }

  /** `b <<= s; b |= taken >> back`, the step made on each byte of a register. */
  function ShiftedByte(b: bv8, taken: bv8, s: nat, back: nat): bv8
    requires s <= 2 && back <= 8
  {
    Left(b, s) | Right(taken, back)
  }

  function Left(b: bv8, s: nat): bv8
    requires s <= 8
  {
    b << s
  }

  function Right(b: bv8, s: nat): bv8
    requires s <= 8
  {
    b >> s
  }

  function Taken(s: nat, b: bv8): bv8 {
    TopBits(s) & b
  }

  lemma ShiftedIn(a: bv8, next: bv8, s: nat, j: nat)
    requires 1 <= s <= 2 && j < 8
    ensures BitOf(ShiftedByte(a, Taken(s, next), s, 8 - s), j)
         == if j + s < 8 then BitOf(a, j + s) else BitOf(next, j + s - 8)
  {
    hide BitOf, Taken, Left, Right;
    OrBit(Left(a, s), Right(Taken(s, next), 8 - s), j);
    ShiftedUp(a, s, j);
    ShiftedDown(next, s, j);
  }

  lemma ShiftedUp(a: bv8, s: nat, j: nat)
    requires 1 <= s <= 2 && j < 8
    ensures BitOf(Left(a, s), j) == (j + s < 8 && BitOf(a, j + s))
  {
    if s == 1 {} else { assert s == 2; }
  }

  lemma ShiftedDown(b: bv8, s: nat, j: nat)
    requires 1 <= s <= 2 && j < 8
    ensures BitOf(Right(Taken(s, b), 8 - s), j) == (8 <= j + s && BitOf(b, j + s - 8))
  {
    if s == 1 {} else { assert s == 2; }
  }

  lemma ShiftedDownToNibble(b: bv8, s: nat, j: nat)
    requires 1 <= s <= 2 && j < 8
    ensures BitOf(Right(Taken(s, b), 4 - s), j) == (4 <= j + s && j < 4 && BitOf(b, j + s - 4))
  {
    if s == 1 {} else { assert s == 2; }
  }

  lemma ShiftedAround(a: bv8, first: bv8, s: nat, j: nat)
    requires 1 <= s <= 2 && j < 8
    ensures BitOf(ShiftedByte(a, Taken(s, first), s, 4 - s), j)
         == ((j + s < 8 && BitOf(a, j + s)) || (4 <= j + s && j < 4 && BitOf(first, j + s - 4)))
  {
    hide BitOf, Taken, Left, Right;
    OrBit(Left(a, s), Right(Taken(s, first), 4 - s), j);
    ShiftedUp(a, s, j);
    ShiftedDownToNibble(first, s, j);
  }

  lemma HoldsBit(bytes: seq<bv8>, b: Register, n: nat)
    requires Holds(bytes, b) && n < 32
    ensures BitAt(bytes, n) == (n < 28 && b[n])
  {
    hide BitOf;
    assert BitAt(bytes, n) == ToBits(bytes)[n] == (b + Zeros(4))[n];
  }

  lemma RotatedBit(b: Register, bytes: seq<bv8>, s: nat, q: nat, j: nat, out: bv8)
    requires Holds(bytes, b) && 1 <= s <= 2 && q < 4 && j < 8
    requires |bytes| == 4
    requires out == if q < 3 then ShiftedByte(bytes[q], Taken(s, bytes[q + 1]), s, 8 - s)
                    else ShiftedByte(bytes[3], Taken(s, bytes[0]), s, 4 - s)
    ensures BitOf(out, j) == (8 * q + j < 28 && RotatedLeft(b, s)[8 * q + j])
  {
    hide BitOf, Taken, ShiftedByte, Holds;
    var i := 8 * q + j;
    if i + s < 32 { HoldsBit(bytes, b, i + s); }
    if q < 3 {
      ShiftedIn(bytes[q], bytes[q + 1], s, j);
    } else {
      ShiftedAround(bytes[3], bytes[0], s, j);
      if 28 <= i + s { HoldsBit(bytes, b, i + s - 28); }
    }
  }

  lemma RotatedRegister(b: Register, bytes: seq<bv8>, s: nat, o0: bv8, o1: bv8, o2: bv8, o3: bv8)
    requires |bytes| == 4 && Holds(bytes, b) && 1 <= s <= 2
    requires o0 == ShiftedByte(bytes[0], Taken(s, bytes[1]), s, 8 - s)
    requires o1 == ShiftedByte(bytes[1], Taken(s, bytes[2]), s, 8 - s)
    requires o2 == ShiftedByte(bytes[2], Taken(s, bytes[3]), s, 8 - s)
    requires o3 == ShiftedByte(bytes[3], Taken(s, bytes[0]), s, 4 - s)
    ensures Holds([o0, o1, o2, o3], RotatedLeft(b, s))
  {
    hide BitOf, Taken, ShiftedByte, RotatedLeft;
    var out := [o0, o1, o2, o3];
    forall i: nat | i < 32
      ensures ToBits(out)[i] == (RotatedLeft(b, s) + Zeros(4))[i]
    {
      hide Holds;
      RotatedBit(b, bytes, s, i / 8, i % 8, out[i / 8]);
    }
    assert ToBits(out) == RotatedLeft(b, s) + Zeros(4);
  }

  /** Lines 193-209, and 211-227 again for D: the register shifted left in place, the bits that
      leave byte 0 brought back at the right end of the 28 bits. */
  method ShiftRegister(bytes: seq<bv8>, shiftSize: nat, ghost b: Register) returns (out: seq<bv8>)
    requires |bytes| == 4 && Holds(bytes, b) && 1 <= shiftSize <= 2
    ensures |out| == 4 && Holds(out, RotatedLeft(b, shiftSize))
  {
    hide Holds, RotatedLeft, ShiftedByte, Taken;
    var first, second := Taken(shiftSize, bytes[0]), Taken(shiftSize, bytes[1]);
    var third, fourth := Taken(shiftSize, bytes[2]), Taken(shiftSize, bytes[3]);
    out := bytes;
    out := out[0 := ShiftedByte(out[0], second, shiftSize, 8 - shiftSize)];
    out := out[1 := ShiftedByte(out[1], third, shiftSize, 8 - shiftSize)];
    out := out[2 := ShiftedByte(out[2], fourth, shiftSize, 8 - shiftSize)];
    out := out[3 := ShiftedByte(out[3], first, shiftSize, 4 - shiftSize)];
    RotatedRegister(b, bytes, shiftSize, out[0], out[1], out[2], out[3]);
    assert out == [out[0], out[1], out[2], out[3]];
  }

  lemma Choice2Bit(c: seq<bv8>, d: seq<bv8>, cb: Register, db: Register, j: nat)
    requires Holds(c, cb) && Holds(d, db) && j < 48
    ensures var p := PERMUTED_CHOICE_2[j];
            SubkeyOf(cb, db)[j] == if p <= 28 then BitAt(c, p - 1) else BitAt(d, p - 29)
  {
    hide BitOf;
    var p := PERMUTED_CHOICE_2[j];
    if p <= 28 {
      assert BitAt(c, p - 1) == ToBits(c)[p - 1] == cb[p - 1];
    } else {
      assert BitAt(d, p - 29) == ToBits(d)[p - 29] == db[p - 29];
    }
  }

  // Lines 230-241, without the final OR
  method SubkeyBit(c: seq<bv8>, d: seq<bv8>, ghost cb: Register, ghost db: Register, j: nat) returns (b: bv8)
    requires |c| == 4 && |d| == 4 && Holds(c, cb) && Holds(d, db) && j < 48
    ensures b == MaskIf(SubkeyOf(cb, db)[j], j % 8)
  {
    hide BitOf, MaskIf, MovedBit, SubkeyOf, Holds;
    Choice2Bit(c, d, cb, db, j);
    var shiftSize := PERMUTED_CHOICE_2[j];
    if shiftSize <= 28 {
      MovedBitIsMask(c, shiftSize, j);
      b := MovedBit(c, shiftSize, j);
    } else {
      MovedBitIsMask(d, shiftSize - 28, j);
      b := MovedBit(d, shiftSize - 28, j);
    }
  }

  /** Lines 229-242. The subkey is ORed onto whatever k already holds. */
  method OrSubkey(c: seq<bv8>, d: seq<bv8>, k0: seq<bv8>, ghost cb: Register, ghost db: Register) returns (k: seq<bv8>)
    requires |c| == 4 && |d| == 4 && Holds(c, cb) && Holds(d, db) && |k0| == 8
    ensures |k| == 8 && ToBits(k) == OrOnto(ToBits(k0), SubkeyOf(cb, db))
  {
    hide BitOf, MaskIf, OredAt, SubkeyOf, Holds;
    ghost var p := SubkeyOf(cb, db);
    k := k0;
    OredNothing(k0, p);
    for j := 0 to 48
      invariant OredUpTo(k0, p, j, k)
    {
      OredStep(k0, p, j, k);
      var b := SubkeyBit(c, d, cb, db, j);
      k := k[j / 8 := k[j / 8] | b];
    }
    OredAll(k0, p, k);
  }

  /** Entry i of the table after generate_sub_keys ran on a table that held k there. */
  ghost predicate Generated(key: Block, i: nat, k: seq<bv8>, after: KeySet)
    requires |k| == 8
  {
    && after.Sized()
    && Holds(after.c, Rotated(C0(key), i))
    && Holds(after.d, Rotated(D0(key), i))
    && ToBits(after.k) == if i == 0 then Permuted(PERMUTED_CHOICE_1, key) + Zeros(8)
                          else OrOnto(ToBits(k), SubkeyAt(key, i))
  }

  // Lines 153-177
  method FirstKeySet(mainKey: seq<bv8>, ghost k0: seq<bv8>) returns (first: KeySet)
    requires |mainKey| == 8 && |k0| == 8
    ensures Generated(ToBits(mainKey), 0, k0, first)
  {
    hide BitOf;
    ghost var p := Permuted(PERMUTED_CHOICE_1, ToBits(mainKey));
    var k := OrPermuted(PERMUTED_CHOICE_1, mainKey, ZeroBytes(8));
    OrOntoZero(8, p);
    assert ToBits(k) == p + Zeros(8);
    var c, d := SplitRegisters(k);
    assert ToBits(k)[..28] == p[..28] && ToBits(k)[28..56] == p[28..];
    first := KeySet(k, c, d);
  }

  // Lines 181-242
  method NextKeySet(previous: KeySet, k: seq<bv8>, ghost k0: seq<bv8>, ghost key: Block, i: nat) returns (next: KeySet)
    requires 1 <= i <= 16 && |k| == 8 && |k0| == 8 && Generated(key, i - 1, k0, previous)
    ensures Generated(key, i, k, next)
  {
    hide Holds, BitOf, RotatedLeft, SubkeyOf, Permuted, OrOnto, C0, D0;
    var c := ShiftRegister(previous.c, KeyShift(i), Rotated(C0(key), i - 1));
    var d := ShiftRegister(previous.d, KeyShift(i), Rotated(D0(key), i - 1));
    var k' := OrSubkey(c, d, k, Rotated(C0(key), i), Rotated(D0(key), i));
    next := KeySet(k', c, d);
  }

  /** The table `now` of a run that has done the first i entries of `before`. */
  ghost predicate GeneratedUpTo(key: Block, before: seq<KeySet>, i: nat, now: seq<KeySet>)
    requires SizedKeys(before)
  {
    && SizedKeys(now)
    && (forall n: nat :: n < i && n <= 16 ==> Generated(key, n, before[n].k, now[n]))
    && (forall n: nat :: i <= n <= 16 ==> now[n] == before[n])
  }

  lemma GeneratedStep(key: Block, before: seq<KeySet>, i: nat, now: seq<KeySet>, next: KeySet)
    requires SizedKeys(before) && i <= 16
    requires GeneratedUpTo(key, before, i, now) && Generated(key, i, before[i].k, next)
    ensures GeneratedUpTo(key, before, i + 1, now[i := next])
  {
    hide Generated, BitOf;
    GeneratedSized(key, i, before[i].k, next);
    var after := now[i := next];
    forall n: nat | n <= 16
      ensures after[n] == if n == i then next else now[n]
    {}
  }

  lemma GeneratedBefore(key: Block, before: seq<KeySet>, i: nat, now: seq<KeySet>)
    requires SizedKeys(before) && 1 <= i <= 16 && GeneratedUpTo(key, before, i, now)
    ensures SizedKeys(now) && now[i] == before[i]
    ensures |before[i].k| == |before[i - 1].k| == 8 && Generated(key, i - 1, before[i - 1].k, now[i - 1])
  {}

  lemma GeneratedAll(key: Block, before: seq<KeySet>, now: seq<KeySet>)
    requires SizedKeys(before) && GeneratedUpTo(key, before, 17, now)
    ensures SizedKeys(now)
    ensures forall i: nat :: i <= 16 ==> |before[i].k| == 8 && Generated(key, i, before[i].k, now[i])
  {}

  method GenerateSubKeys(mainKey: array<bv8>, keySets: array<KeySet>)
    requires mainKey.Length == 8 && SizedKeys(keySets[..])
    modifies keySets
    ensures SizedKeys(keySets[..])
    ensures forall i: nat :: i <= 16 ==> Generated(ToBits(mainKey[..]), i, old(keySets[i].k), keySets[i])
  {
    ghost var key, before := ToBits(mainKey[..]), keySets[..];
    hide Generated, ToBits;
    var first := FirstKeySet(mainKey[..], keySets[0].k);
    GeneratedStep(key, before, 0, before, first);
    hide GeneratedUpTo;
    keySets[0] := first;
    assert keySets[..] == before[0 := first];
    for i := 1 to 17
      invariant GeneratedUpTo(key, before, i, keySets[..])
    {
      ghost var now := keySets[..];
      GeneratedBefore(key, before, i, now);
      var next := NextKeySet(keySets[i - 1], keySets[i].k, before[i - 1].k, key, i);
      GeneratedStep(key, before, i, now, next);
      keySets[i] := next;
      assert keySets[..] == now[i := next];
    }
    GeneratedAll(key, before, keySets[..]);
  }

  lemma GeneratedSized(key: Block, i: nat, k: seq<bv8>, after: KeySet)
    requires |k| == 8 && Generated(key, i, k, after)
    ensures after.Sized()
  {}

  // ---------------------------------------------------------------- what the bytes obey

  /** process_message in decryption mode undoes it in any other mode, for every eight bytes and
      whatever the sixteen subkeys hold; and the other way round. */
  lemma DecryptionUndoesEncryption(message: seq<bv8>, keys: seq<Subkey>, mode: int)
    requires |message| == 8 && mode != DECRYPTION_MODE
    ensures Processed(Processed(message, keys, mode), keys, DECRYPTION_MODE) == message
    ensures Processed(Processed(message, keys, DECRYPTION_MODE), keys, mode) == message
  {
    hide Crypt;
    DecipherUndoesEncipher(ToBits(message), keys);
    UnpackPack(Crypt(ToBits(message), keys));
    UnpackPack(Crypt(ToBits(message), Reversed(keys)));
    PackUnpack(message);
  }

  /** A table generated over old contents is right exactly when every bit left in the first
      48 of each k belongs to the new subkey there. */
  lemma SubkeysRightIff(key: Block, before: seq<KeySet>, after: seq<KeySet>)
    requires SizedKeys(before) && SizedKeys(after)
    requires forall i: nat :: i <= 16 ==> Generated(key, i, before[i].k, after[i])
    ensures Subkeys(after) == KeySchedule(key)
        <==> forall i: nat, n: nat :: i < 16 && n < 48 && BitAt(before[i + 1].k, n) ==> KeySchedule(key)[i][n]
  {
    hide BitOf, SubkeyAt, Generated;
    forall i: nat | i < 16
      ensures |KeySchedule(key)[i]| == 48
      ensures forall n: nat :: n < 48 ==>
        Subkeys(after)[i][n] == (BitAt(before[i + 1].k, n) || KeySchedule(key)[i][n])
    {
      assert Generated(key, i + 1, before[i + 1].k, after[i + 1]);
      GeneratedKey(key, i + 1, before[i + 1].k, after[i + 1]);
    }
    if forall i: nat, n: nat :: i < 16 && n < 48 && BitAt(before[i + 1].k, n) ==> KeySchedule(key)[i][n] {
      forall i: nat | i < 16 ensures Subkeys(after)[i] == KeySchedule(key)[i] {}
    }
  }

  lemma GeneratedKey(key: Block, i: nat, k: seq<bv8>, after: KeySet)
    requires |k| == 8 && 1 <= i && Generated(key, i, k, after)
    ensures |after.k| == 8 && ToBits(after.k) == OrOnto(ToBits(k), SubkeyAt(key, i))
  {}

  /** With k zeroed first, as the callers must, the table holds the schedule of the standard. */
  lemma ZeroedTableIsRight(key: Block, before: seq<KeySet>, after: seq<KeySet>)
    requires SizedKeys(before) && SizedKeys(after)
    requires forall i: nat :: i <= 16 ==> before[i].k == ZeroBytes(8)
    requires forall i: nat :: i <= 16 ==> Generated(key, i, before[i].k, after[i])
    ensures Subkeys(after) == KeySchedule(key)
  {
    hide Generated, SubkeyAt;
    forall j: nat, n: nat | j <= 16 && n < 48 ensures !BitAt(before[j].k, n) {
      assert before[j].k == ZeroBytes(8);
    }
    SubkeysRightIff(key, before, after);
  }

  /** After the sixteenth iteration the registers are byte for byte those of iteration 0. */
  lemma RegistersComeBack(key: Block, k0: seq<bv8>, first: KeySet, k16: seq<bv8>, last: KeySet)
    requires |k0| == 8 && |k16| == 8
    requires Generated(key, 0, k0, first) && Generated(key, 16, k16, last)
    ensures last.c == first.c && last.d == first.d
  {
    hide BitOf, Rotated;
    assert Rotated(C0(key), 0) == C0(key) && Rotated(D0(key), 0) == D0(key) by { RotatedNone(C0(key)); RotatedNone(D0(key)); }
    RegistersReturn(C0(key));
    RegistersReturn(D0(key));
    SameBits(last.c, first.c);
    SameBits(last.d, first.d);
  }

  lemma RotatedNone(b: Register)
    ensures Rotated(b, 0) == b
  {}

  function NotBytes(bytes: seq<bv8>): (r: seq<bv8>)
    ensures |r| == |bytes|
    ensures forall i :: 0 <= i < |bytes| ==> r[i] == !bytes[i]
  {
    seq(|bytes|, i requires 0 <= i < |bytes| => !bytes[i])
  }

  lemma NotBytesBits(bytes: seq<bv8>)
    ensures ToBits(NotBytes(bytes)) == Not(ToBits(bytes))
  {
    hide BitOf;
    forall i: nat | i < 8 * |bytes|
      ensures ToBits(NotBytes(bytes))[i] == Not(ToBits(bytes))[i]
    {
      NotBit(bytes[i / 8], i % 8);
    }
  }

  /** The complement of the key turns the complement of a message into the complement of its
      ciphertext. */
  lemma ComplementedBytes(message: seq<bv8>, key: seq<bv8>, keys: seq<Subkey>, notKeys: seq<Subkey>, mode: int)
    requires |message| == 8 && |key| == 8 && mode != DECRYPTION_MODE
    requires keys == KeySchedule(ToBits(key)) && notKeys == KeySchedule(ToBits(NotBytes(key)))
    ensures Processed(NotBytes(message), notKeys, mode) == NotBytes(Processed(message, keys, mode))
  {
    hide Crypt, KeySchedule, BitOf;
    NotBytesBits(key);
    NotBytesBits(message);
    Complementation(ToBits(message), ToBits(key));
    var c := Crypt(ToBits(message), keys);
    UnpackPack(c);
    NotBytesBits(FromBits(c));
    assert Crypt(ToBits(NotBytes(message)), notKeys) == ToBits(NotBytes(FromBits(c)));
    PackUnpack(NotBytes(FromBits(c)));
  }
}
