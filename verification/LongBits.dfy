/** The single bits of a 64-bit number, counted from the lowest: what the key generator makes of them in
    one step, and which of them choose a key. */
module LongBits {
  import Bits
  import opened KeyTable
  import opened Numbers

  function Downs(v: bv64, n: nat): bv64 {
    if n == 0 then v else Downs(Down(v), n - 1)
  }

  /** Bit n. */
  predicate LongBit(v: bv64, n: nat) {
    Odd(Downs(v, n))
  }

  lemma {:induction false} DownsAdd(v: bv64, m: nat, n: nat)
    ensures Downs(v, m + n) == Downs(Downs(v, m), n)
    decreases m
  {
    hide Down;
    if m > 0 { DownsAdd(Down(v), m - 1, n); }
  }

  lemma LongBitAdd(v: bv64, m: nat, n: nat)
    ensures LongBit(v, m + n) == LongBit(Downs(v, m), n)
  {
    hide Odd, Downs;
    DownsAdd(v, m, n);
  }

  lemma DownAgree(a: bv64, b: bv64, mask: bv64)
    ensures Agree(a, b, mask) ==> Agree(Down(a), Down(b), Down(mask))
  {}

  /** Numbers that agree under a mask have the bits it covers in common. */
  lemma {:induction false} CommonBits(a: bv64, b: bv64, mask: bv64, n: nat, j: nat)
    requires Agree(a, b, mask) && Covers(mask, n) && j < n
    ensures LongBit(a, j) == LongBit(b, j)
    decreases n
  {
    hide Agree, Odd, Down;
    if j == 0 {
      OddAgree(a, b, mask);
    } else {
      DownAgree(a, b, mask);
      CommonBits(Down(a), Down(b), Down(mask), n - 1, j - 1);
    }
  }

  lemma XorParts(a: bv64, b: bv64)
    ensures Down(Difference(a, b)) == Difference(Down(a), Down(b))
  {}

  lemma XorOdd(a: bv64, b: bv64)
    ensures Odd(Difference(a, b)) == (Odd(a) != Odd(b))
  {}

  lemma {:induction false} XorBit(a: bv64, b: bv64, n: nat)
    ensures LongBit(Difference(a, b), n) == (LongBit(a, n) != LongBit(b, n))
    decreases n
  {
    hide Difference, Odd, Down;
    if n == 0 {
      XorOdd(a, b);
    } else {
      XorParts(a, b);
      XorBit(Down(a), Down(b), n - 1);
    }
  }

  lemma {:induction false} NoBit(n: nat)
    ensures !LongBit(0, n)
  {
    assert Down(0) == 0 && !Odd(0);
    hide Down, Odd;
    if n > 0 { NoBit(n - 1); }
  }

  // ---------------------------------------------------------------- bits of bytes

  lemma WithByteAbove(v: bv64, b: bv8)
    ensures Agree(Downs(WithByte(v, b), 8), v, 0x00FF_FFFF_FFFF_FFFF)
  {
    var w := WithByte(v, b);
    EightDowns(w);
    ByteAbove(v, b);
    hide Downs, Down;
  }

  function Four(v: bv64): bv64 {
    Down(Down(Down(Down(v))))
  }

  lemma FewDowns(v: bv64)
    ensures Downs(v, 0) == v && Downs(v, 1) == Down(v) && Downs(v, 2) == Down(Down(v)) && Downs(v, 3) == Down(Down(Down(v)))
    ensures Downs(v, 4) == Four(v)
  {
    hide Down;
    assert Downs(Down(Down(v)), 0) == Down(Down(v));
    assert Downs(Down(Down(v)), 1) == Down(Down(Down(v)));
    assert Downs(Down(Down(Down(v))), 1) == Four(v);
    DownsAdd(v, 2, 1);
    DownsAdd(v, 3, 1);
  }

  lemma EightDowns(v: bv64)
    ensures Downs(v, 8) == v >> 8
  {
    FewDowns(v);
    FewDowns(Four(v));
    DownsAdd(v, 4, 4);
    FourTwice(v);
    hide Four, Downs;
  }

  lemma FourTwice(v: bv64)
    ensures Four(Four(v)) == v >> 8
  {}

  lemma ByteAbove(v: bv64, b: bv8)
    ensures (WithByte(v, b) >> 8) & 0x00FF_FFFF_FFFF_FFFF == v & 0x00FF_FFFF_FFFF_FFFF
  {}

  lemma FiftySix()
    ensures Covers(0x00FF_FFFF_FFFF_FFFF, 56)
  {
    assert Covers(0xFF, 8);
    assert Covers(0xFFFF, 16);
    assert Covers(0xFF_FFFF, 24);
    assert Covers(0xFFFF_FFFF, 32);
    assert Covers(0xFF_FFFF_FFFF, 40);
    assert Covers(0xFFFF_FFFF_FFFF, 48);
  }

  lemma ByteBelow(v: bv64, b: bv8)
    ensures Agree(WithByte(v, b), b as bv64, 0xFF)
  {}

  lemma LowNibble(b: bv8)
    ensures Odd(b as bv64) == Bits.BitOf(b, 7) && Odd(Down(b as bv64)) == Bits.BitOf(b, 6)
    ensures Odd(Down(Down(b as bv64))) == Bits.BitOf(b, 5) && Odd(Down(Down(Down(b as bv64)))) == Bits.BitOf(b, 4)
  {}

  lemma HighNibble(b: bv8)
    ensures var v := Four(b as bv64);
      && Odd(v) == Bits.BitOf(b, 3) && Odd(Down(v)) == Bits.BitOf(b, 2)
      && Odd(Down(Down(v))) == Bits.BitOf(b, 1) && Odd(Down(Down(Down(v)))) == Bits.BitOf(b, 0)
  {}

  lemma BitOfByte(b: bv8, j: nat)
    requires j < 8
    ensures LongBit(b as bv64, j) == Bits.BitOf(b, 7 - j)
  {
    LowNibble(b);
    HighNibble(b);
    hide Odd, Down, Four, Downs, Bits.BitOf;
    var v := b as bv64;
    FewDowns(v);
    FewDowns(Four(v));
    if j >= 4 { DownsAdd(v, 4, j - 4); }
  }

  /** Bit n of the number that stands in eight bytes of memory is bit n % 8 of byte n / 8. */
  lemma {:induction false} BitInMemory(bytes: seq<bv8>, n: nat)
    requires |bytes| <= 8 && n < 8 * |bytes|
    ensures LongBit(FromMemory(bytes), n) == Bits.BitOf(bytes[n / 8], 7 - n % 8)
    decreases |bytes|
  {
    hide WithByte, LongBit, Bits.BitOf, Covers, Agree;
    var rest, b := FromMemory(bytes[1..]), bytes[0];
    if n < 8 {
      ByteBelow(rest, b);
      assert Covers(0xFF, 8) by { EightOnes(); }
      CommonBits(WithByte(rest, b), b as bv64, 0xFF, 8, n);
      BitOfByte(b, n);
    } else {
      WithByteAbove(rest, b);
      FiftySix();
      LongBitAdd(WithByte(rest, b), 8, n - 8);
      CommonBits(Downs(WithByte(rest, b), 8), rest, 0x00FF_FFFF_FFFF_FFFF, 56, n - 8);
      BitInMemory(bytes[1..], n - 8);
    }
  }

  lemma EightOnes()
    ensures Covers(0xFF, 8)
  {}

  // ---------------------------------------------------------------- choosing a key

  lemma FourteenDowns(v: bv64)
    ensures Downs(v, 14) == v >> 14
  {
    FewDowns(v);
    FewDowns(Four(v));
    FewDowns(Four(Four(v)));
    FewDowns(Four(Four(Four(v))));
    DownsAdd(v, 4, 4);
    DownsAdd(v, 8, 4);
    DownsAdd(v, 12, 2);
    ThreeFours(v);
    hide Four, Downs, Down;
  }

  lemma ThreeFours(v: bv64)
    ensures Down(Down(Four(Four(Four(v))))) == v >> 14
  {}

  lemma Down14Below(v: bv64, d: bv64)
    requires IsDown14(v, d)
    ensures Agree(d, v >> 14, 0x3_FFFF_FFFF_FFFF)
  {}

  lemma Fifty()
    ensures Covers(0x3_FFFF_FFFF_FFFF, 50)
  {
    assert Covers(0x3, 2);
    assert Covers(0x3FF, 10);
    assert Covers(0x3_FFFF, 18);
    assert Covers(0x3FF_FFFF, 26);
    assert Covers(0x3_FFFF_FFFF, 34);
    assert Covers(0x3FF_FFFF_FFFF, 42);
  }

  // `temp >> 14`: bit n is bit n + 14, as long as the sign does not come in.
  lemma Down14Bit(v: bv64, n: nat)
    requires n < 50
    ensures LongBit(Down14(v), n) == LongBit(v, n + 14)
  {
    Down14Is(v);
    Down14Below(v, Down14(v));
    FourteenDowns(v);
    Fifty();
    hide Down14, LongBit, Covers, Agree, Downs, IsDown14;
    LongBitAdd(v, 14, n);
    CommonBits(Down14(v), v >> 14, 0x3_FFFF_FFFF_FFFF, 50, n);
  }

  lemma {:induction false} ShiftedDownBit(v: bv64, i: nat, n: nat)
    requires n + 14 * i < 64
    ensures LongBit(ShiftedDown(v, i), n) == LongBit(v, n + 14 * i)
    decreases i
  {
    hide Down14, LongBit;
    if i > 0 {
      Down14Bit(ShiftedDown(v, i - 1), n);
      ShiftedDownBit(v, i - 1, n + 14);
    }
  }

  lemma PartBelow(v: bv64)
    ensures Agree(Part(v), v, 0x3FFF)
  {}

  lemma Fourteen()
    ensures Covers(0x3FFF, 14)
  {
    assert Covers(0x3F, 6);
  }

  lemma PartBit(v: bv64, n: nat)
    requires n < 14
    ensures LongBit(Part(v), n) == LongBit(v, n)
  {
    hide Part, LongBit, Covers, Agree;
    PartBelow(v);
    Fourteen();
    CommonBits(Part(v), v, 0x3FFF, 14, n);
  }

  // Bit j of the four groups of 14 bits, added modulo 2.
  predicate GroupBits(v: bv64, j: nat)
    requires j < 14
  {
    ((LongBit(v, j) != LongBit(v, 14 + j)) != LongBit(v, 28 + j)) != LongBit(v, 42 + j)
  }

  lemma FoldedStep(offset: bv64, v: bv64, i: nat, j: nat)
    requires i < 4 && j < 14
    ensures LongBit(Folded(offset, v, i + 1), j) == (LongBit(Folded(offset, v, i), j) != LongBit(v, j + 14 * i))
  {
    hide Part, LongBit, Difference, ShiftedDown;
    XorBit(Folded(offset, v, i), Part(ShiftedDown(v, i)), j);
    PartBit(ShiftedDown(v, i), j);
    ShiftedDownBit(v, i, j);
  }

  lemma FoldedBit(offset: bv64, v: bv64, j: nat)
    requires j < 14
    ensures LongBit(Folded(offset, v, 4), j) == (LongBit(offset, j) != GroupBits(v, j))
  {
    assert Folded(offset, v, 0) == offset;
    hide LongBit, Folded;
    FoldedStep(offset, v, 0, j);
    FoldedStep(offset, v, 1, j);
    FoldedStep(offset, v, 2, j);
    FoldedStep(offset, v, 3, j);
  }

  lemma {:induction false} NumberBit(v: bv64, n: nat, j: nat)
    requires j < n
    ensures LowNumber(v, n) / Pow2(j) % 2 == if LongBit(v, j) then 1 else 0
    decreases n
  {
    hide Odd, Down;
    var b := if Odd(v) then 1 else 0;
    var rest := LowNumber(Down(v), n - 1);
    assert LowNumber(v, n) == b + 2 * rest;
    if j == 0 {
      assert Pow2(0) == 1;
    } else {
      NumberBit(Down(v), n - 1, j - 1);
      HalfFirst(LowNumber(v, n), rest, b, Pow2(j - 1));
    }
  }

  lemma HalfFirst(x: nat, half: nat, b: nat, m: nat)
    requires x == b + 2 * half && b < 2 && m > 0
    ensures 2 * m > 0 && x / (2 * m) == half / m
  {
    var q, r := half / m, half % m;
    assert half == m * q + r;
    assert x == (2 * m) * q + (2 * r + b);
    ModUnique(x, 2 * m, q, 2 * r + b);
  }

  /** Bit n of a run of eight bytes. */
  predicate RunBit(run: seq<bv8>, n: nat)
    requires |run| == 8 && n < 64
  {
    Bits.BitOf(run[n / 8], 7 - n % 8)
  }

  // Bit j of the four groups of a run.
  predicate RunBits(run: seq<bv8>, j: nat)
    requires |run| == 8 && j < 14
  {
    ((RunBit(run, j) != RunBit(run, 14 + j)) != RunBit(run, 28 + j)) != RunBit(run, 42 + j)
  }

  lemma RunInMemory(run: seq<bv8>, j: nat)
    requires |run| == 8 && j < 14
    ensures GroupBits(FromMemory(run), j) == RunBits(run, j)
  {
    hide LongBit, FromMemory, Bits.BitOf;
    BitInMemory(run, j);
    BitInMemory(run, 14 + j);
    BitInMemory(run, 28 + j);
    BitInMemory(run, 42 + j);
  }

  /** The place in the table, bit by bit, for every user ID: bit j is the sum modulo 2 of the bits j, 14 + j,
      28 + j and 42 + j of the bytes 15 down to 8 and of the bytes 8 down to 1. */
  lemma KeyIndexBit(u: seq<bv8>, j: nat)
    requires |u| == 16 && j < 14
    ensures var last, first := [u[15], u[14], u[13], u[12], u[11], u[10], u[9], u[8]], [u[8], u[7], u[6], u[5], u[4], u[3], u[2], u[1]];
            KeyIndex(u) / Pow2(j) % 2 == if RunBits(last, j) != RunBits(first, j) then 1 else 0
  {
    var last, first := [u[15], u[14], u[13], u[12], u[11], u[10], u[9], u[8]], [u[8], u[7], u[6], u[5], u[4], u[3], u[2], u[1]];
    EightBackwards(u[8..16], last);
    EightBackwards(u[1..9], first);
    hide LongBit, Folded, FromMemory, Backwards, LowNumber, RunBits, GroupBits;
    NumberBit(KeyOffset(u), 14, j);
    FoldedBit(Folded(0, FromMemory(last), 4), FromMemory(first), j);
    FoldedBit(0, FromMemory(last), j);
    NoBit(j);
    RunInMemory(last, j);
    RunInMemory(first, j);
  }

  predicate NumberHas(n: nat, j: nat) {
    n / Pow2(j) % 2 == 1
  }

  lemma {:induction false} SameNumber(a: nat, b: nat, n: nat)
    requires a < Pow2(n) && b < Pow2(n)
    requires forall j: nat :: j < n ==> NumberHas(a, j) == NumberHas(b, j)
    ensures a == b
  {
    hide NumberHas;
    if n > 0 {
      LastDigit(a);
      LastDigit(b);
      assert NumberHas(a, 0) == NumberHas(b, 0);
      forall j: nat | j < n - 1 ensures NumberHas(a / 2, j) == NumberHas(b / 2, j) {
        NextDigit(a, j);
        NextDigit(b, j);
        assert NumberHas(a, j + 1) == NumberHas(b, j + 1);
      }
      SameNumber(a / 2, b / 2, n - 1);
    }
  }

  lemma LastDigit(a: nat)
    ensures NumberHas(a, 0) == (a % 2 == 1)
  {
    assert Pow2(0) == 1;
  }

  lemma NextDigit(a: nat, j: nat)
    ensures NumberHas(a, j + 1) == NumberHas(a / 2, j)
  {
    HalfFirst(a, a / 2, a % 2, Pow2(j));
  }

  lemma {:induction false} NoDigit(a: nat, n: nat, j: nat)
    requires a < Pow2(n) && n <= j
    ensures !NumberHas(a, j)
    decreases j
  {
    hide NumberHas;
    if j == 0 {
      LastDigit(a);
    } else {
      NextDigit(a, j - 1);
      if n > 0 { NoDigit(a / 2, n - 1, j - 1); } else { NoDigit(a / 2, 0, j - 1); }
    }
  }

  // The byte with the bits of the number from place `from` on.
  function ByteFrom(n: nat, from: nat): bv8 {
    Bits.PackByte(DigitsFrom(n, from))
  }

  function DigitsFrom(n: nat, from: nat): (b: seq<bool>)
    ensures |b| == 8 && forall i :: 0 <= i < 8 ==> b[i] == NumberHas(n, from + 7 - i)
  {
    seq(8, i requires 0 <= i < 8 => NumberHas(n, from + 7 - i))
  }

  lemma ByteFromBit(n: nat, from: nat, j: nat)
    requires j < 8
    ensures Bits.BitOf(ByteFrom(n, from), 7 - j) == NumberHas(n, from + j)
  {
    hide Bits.BitOf, Bits.PackByte, NumberHas;
    Bits.PackByteBit(DigitsFrom(n, from), 7 - j);
  }

  lemma NoBitsOfZero(j: nat)
    requires j < 8
    ensures !Bits.BitOf(0, j)
  {}

  // The two runs of a user ID with nothing but bytes 7 and 8.
  lemma LastReachingRun(n: nat, j: nat)
    requires j < 14
    ensures !RunBits([0, 0, 0, 0, 0, 0, 0, ByteFrom(n, 0)], j)
  {
    hide Bits.BitOf, NumberHas, ByteFrom;
    forall i: nat | i < 8 ensures !Bits.BitOf(0, i) { NoBitsOfZero(i); }
  }

  lemma FirstReachingRun(n: nat, j: nat)
    requires n < 16384 && j < 14
    ensures RunBits([ByteFrom(n, 0), ByteFrom(n, 8), 0, 0, 0, 0, 0, 0], j) == NumberHas(n, j)
  {
    hide Bits.BitOf, NumberHas, ByteFrom, RunBits;
    if j < 2 { NothingBeyond(n, j); }
    RunsOfTwo(ByteFrom(n, 0), ByteFrom(n, 8), j);
    if j < 8 { ByteFromBit(n, 0, j); } else { ByteFromBit(n, 8, j - 8); }
  }

  // The bits 14 and 15.
  lemma NothingBeyond(n: nat, j: nat)
    requires n < 16384 && j < 2
    ensures !Bits.BitOf(ByteFrom(n, 8), 1 - j)
  {
    hide Bits.BitOf, NumberHas, ByteFrom;
    Fits14();
    ByteFromBit(n, 8, 6 + j);
    NoDigit(n, 14, 14 + j);
  }

  lemma RunsOfTwo(low: bv8, high: bv8, j: nat)
    requires j < 14 && (j < 2 ==> !Bits.BitOf(high, 1 - j))
    ensures RunBits([low, high, 0, 0, 0, 0, 0, 0], j) == if j < 8 then Bits.BitOf(low, 7 - j) else Bits.BitOf(high, 15 - j)
  {
    hide Bits.BitOf;
    forall i: nat | i < 8 ensures !Bits.BitOf(0, i) { NoBitsOfZero(i); }
    var run := [low, high, 0, 0, 0, 0, 0, 0];
    assert !RunBit(run, 28 + j) && !RunBit(run, 42 + j);
    assert !RunBit(run, 14 + j) by { if j < 2 { assert run[(14 + j) / 8] == high; } }
  }

  lemma Fits14()
    ensures Pow2(14) == 16384
  {
    assert Pow2(7) == 128;
  }

  /** Every place of the table is chosen by some user ID. */
  lemma EveryIndexReached(n: nat) returns (u: seq<bv8>)
    requires n < 16384
    ensures |u| == 16 && KeyIndex(u) == n
  {
    hide ByteFrom, RunBits, NumberHas, KeyOffset, LowNumber;
    var low, high := ByteFrom(n, 0), ByteFrom(n, 8);
    u := [0, 0, 0, 0, 0, 0, 0, high, low, 0, 0, 0, 0, 0, 0, 0];
    Fits14();
    forall j: nat | j < 14 ensures NumberHas(KeyIndex(u), j) == NumberHas(n, j) {
      KeyIndexHas(u, j);
      LastReachingRun(n, j);
      FirstReachingRun(n, j);
    }
    SameNumber(KeyIndex(u), n, 14);
  }

  lemma KeyIndexHas(u: seq<bv8>, j: nat)
    requires |u| == 16 && j < 14
    ensures var last, first := [u[15], u[14], u[13], u[12], u[11], u[10], u[9], u[8]], [u[8], u[7], u[6], u[5], u[4], u[3], u[2], u[1]];
            NumberHas(KeyIndex(u), j) == (RunBits(last, j) != RunBits(first, j))
  {
    hide RunBits, KeyIndex;
    KeyIndexBit(u, j);
  }

  // ---------------------------------------------------------------- one step of the generator

  lemma HalfBelow(v: bv64, h: bv64)
    requires IsHalf(v, h)
    ensures Agree(h, Down(v), 0x7FFF_FFFF_FFFF_FFFF)
  {}

  /** The bits longlong2bits peels off, whatever the sign. */
  lemma {:induction false} LowBitIs(v: bv64, n: nat, j: nat)
    requires j < n <= 64
    ensures LowBits(v, n)[j] == LongBit(v, j)
    decreases n
  {
    hide Odd, NextHalf, Down, IsHalf, Agree, Covers;
    if j > 0 {
      NextHalfIs(v);
      HalfBelow(v, NextHalf(v));
      CoversAll();
      LowBitIs(NextHalf(v), n - 1, j - 1);
      CommonBits(NextHalf(v), Down(v), 0x7FFF_FFFF_FFFF_FFFF, 63, j - 1);
    }
  }

  lemma SameLong(a: bv64, b: bv64)
    requires forall n: nat :: n < 64 ==> LongBit(a, n) == LongBit(b, n)
    ensures a == b
  {
    hide LongBit, LowBits, FromLowBits;
    forall n: nat | n < 64 ensures LowBits(a, 64)[n] == LowBits(b, 64)[n] {
      LowBitIs(a, 64, n);
      LowBitIs(b, 64, n);
    }
    assert LowBits(a, 64) == LowBits(b, 64);
    NumberRoundTrip(a);
    NumberRoundTrip(b);
  }

  lemma ByteBitsEnd(b: bv8, n: nat)
    requires 8 <= n
    ensures !LongBit(b as bv64, n)
  {
    EightDowns(b as bv64);
    ByteGone(b);
    hide LongBit, Downs;
    LongBitAdd(b as bv64, 8, n - 8);
    NoBit(n - 8);
  }

  lemma ByteGone(b: bv8)
    ensures (b as bv64) >> 8 == 0
  {}

  function Eight(v: bv64): bv64 {
    v >> 8
  }

  lemma ThirtyTwoDowns(v: bv64)
    ensures Downs(v, 24) == v >> 24 && Downs(v, 32) == v >> 32 && Downs(v, 56) == v >> 56
  {
    MoreDowns(v);
    ThreeEights(v);
    FourEights(v);
    SevenEights(v);
    hide Downs, Eight;
  }

  lemma MoreDowns(v: bv64)
    ensures Downs(v, 24) == Eight(Eight(Eight(v))) && Downs(v, 32) == Eight(Eight(Eight(Eight(v))))
    ensures Downs(v, 56) == Eight(Eight(Eight(Eight(Eight(Eight(Eight(v)))))))
  {
    hide Downs, Eight;
    EightMore(v, 0);
    assert Downs(v, 0) == v by { FewDowns(v); }
    EightMore(v, 8);
    EightMore(v, 16);
    EightMore(v, 24);
    EightMore(v, 32);
    EightMore(v, 40);
    EightMore(v, 48);
  }

  lemma EightMore(v: bv64, n: nat)
    ensures Downs(v, n + 8) == Eight(Downs(v, n))
  {
    EightDowns(Downs(v, n));
    hide Downs;
    DownsAdd(v, n, 8);
  }

  lemma ThreeEights(v: bv64)
    ensures Eight(Eight(Eight(v))) == v >> 24
  {}

  lemma FourEights(v: bv64)
    ensures Eight(Eight(Eight(Eight(v)))) == v >> 32
  {}

  lemma SevenEights(v: bv64)
    ensures Eight(Eight(Eight(Eight(Eight(Eight(Eight(v))))))) == v >> 56
  {}

  lemma SeventhDown(w: bv64)
    ensures LongBit(w, 7) == (w & 0x80 != 0)
  {
    FewDowns(Four(w));
    FewDowns(w);
    DownsAdd(w, 4, 3);
    SevenDowns(w);
    hide Downs, Four, Down, Odd;
  }

  lemma SevenDowns(w: bv64)
    ensures Odd(Down(Down(Down(Four(w))))) == (w & 0x80 != 0)
  {}

  lemma CarryBits(v: bv64)
    ensures LongBit(v, 31) == (v & 0x8000_0000 != 0)
    ensures LongBit(v, 63) == (v & 0x8000_0000_0000_0000 != 0)
  {
    ThirtyTwoDowns(v);
    SeventhDown(v >> 24);
    SeventhDown(v >> 56);
    TopBits(v);
    hide LongBit, Downs;
    LongBitAdd(v, 24, 7);
    LongBitAdd(v, 56, 7);
  }

  lemma TopBits(v: bv64)
    ensures ((v >> 24) & 0x80 != 0) == (v & 0x8000_0000 != 0)
    ensures ((v >> 56) & 0x80 != 0) == (v & 0x8000_0000_0000_0000 != 0)
  {}

  function Raised32(b: bv8): bv64 {
    (b as bv64) << 32
  }

  lemma RaisedParts(b: bv8)
    ensures Raised32(b) >> 32 == b as bv64 && Agree(Raised32(b), 0, 0xFFFF_FFFF)
  {}

  lemma ThirtyTwo()
    ensures Covers(0xFFFF_FFFF, 32)
  {
    assert Covers(0xFF, 8);
    assert Covers(0xFFFF, 16);
    assert Covers(0xFF_FFFF, 24);
  }

  lemma RaisedBit(b: bv8, n: nat)
    ensures LongBit(Raised32(b), n) == (32 <= n && LongBit(b as bv64, n - 32))
  {
    RaisedParts(b);
    ThirtyTwoDowns(Raised32(b));
    ThirtyTwo();
    hide LongBit, Downs, Raised32, Agree, Covers;
    if n < 32 {
      CommonBits(Raised32(b), 0, 0xFFFF_FFFF, 32, n);
      NoBit(n);
    } else {
      LongBitAdd(Raised32(b), 32, n - 32);
    }
  }

  // x^7 + x^6 + x^2 + 1
  lemma TapBit(n: nat)
    ensures LongBit(0xC5 as bv8 as bv64, n) == Tap(n)
  {
    if n < 8 {
      TapBits();
      hide LongBit, Bits.BitOf;
      BitOfByte(0xC5, n);
    } else {
      ByteBitsEnd(0xC5, n);
    }
  }

  lemma TapBits()
    ensures forall j: nat :: j < 8 ==> Bits.BitOf(0xC5, 7 - j) == Tap(j)
  {}

  lemma OneBits()
    ensures forall j: nat :: j < 8 ==> Bits.BitOf(1, j) == (j == 7)
  {}

  lemma LowestBit(n: nat)
    ensures LongBit(1 as bv8 as bv64, n) == (n == 0)
  {
    if n < 8 {
      OneBits();
      hide LongBit, Bits.BitOf;
      BitOfByte(1, n);
    } else {
      ByteBitsEnd(1, n);
    }
  }

  function Up(v: bv64): bv64 {
    v << 1
  }

  lemma UpParts(v: bv64)
    ensures !Odd(Up(v)) && Agree(Down(Up(v)), v, 0x7FFF_FFFF_FFFF_FFFF)
  {}

  lemma UpBit(v: bv64, n: nat)
    requires n < 64
    ensures LongBit(Up(v), n) == (n > 0 && LongBit(v, n - 1))
  {
    UpParts(v);
    CoversAll();
    hide Up, Agree, Covers, Odd, Down;
    if n > 0 { CommonBits(Down(Up(v)), v, 0x7FFF_FFFF_FFFF_FFFF, 63, n - 1); }
  }

  function Unless(c: bool, v: bv64): bv64 {
    if c then v else 0
  }

  lemma UnlessBit(c: bool, v: bv64, n: nat)
    ensures LongBit(Unless(c, v), n) == (c && LongBit(v, n))
  {
    hide LongBit;
    NoBit(n);
  }

  function Halves(v: bv64): bv64 {
    (v << 1) & 0xFFFF_FFFE_FFFF_FFFE
  }

  /** Both halves shifted up one place, each with 0xC5 added modulo 2 if a bit falls off its top. */
  function Stepped(v: bv64): bv64 {
    Difference(Difference(Halves(v), if v & 0x8000_0000 != 0 then 0xC5 else 0),
               if v & 0x8000_0000_0000_0000 != 0 then 0xC5_0000_0000 else 0)
  }

  lemma UpWithCarry(v: bv64)
    ensures v & 0x8000_0000 != 0 ==> (v << 1) & 0xFFFF_FFFE_FFFF_FFFE == (v << 1) ^ 0x1_0000_0000
  {}

  lemma UpWithoutCarry(v: bv64)
    ensures v & 0x8000_0000 == 0 ==> (v << 1) & 0xFFFF_FFFE_FFFF_FFFE == v << 1
  {}

  lemma NothingAdded(v: bv64)
    ensures Difference(v, 0) == v
  {}

  lemma CarryAdded(v: bv64)
    ensures v & 0x8000_0000 != 0 ==> Halves(v) == Difference(Up(v), 0x1_0000_0000)
  {
    UpWithCarry(v);
  }

  lemma UpHalves(v: bv64)
    ensures Halves(v) == Difference(Up(v), if v & 0x8000_0000 != 0 then 0x1_0000_0000 else 0)
  {
    NothingAdded(Up(v));
    CarryAdded(v);
    UpWithoutCarry(v);
    hide Difference;
  }

  lemma Constants()
    ensures Raised32(1) == 0x1_0000_0000 && 0xC5 as bv8 as bv64 == 0xC5 && Raised32(0xC5) == 0xC5_0000_0000
  {}

  lemma SteppedParts(v: bv64)
    ensures var low, high := v & 0x8000_0000 != 0, v & 0x8000_0000_0000_0000 != 0;
            Stepped(v) == Difference(Difference(Difference(Up(v), Unless(low, Raised32(1))), Unless(low, 0xC5 as bv8 as bv64)), Unless(high, Raised32(0xC5)))
  {
    UpHalves(v);
    Constants();
    hide Raised32, Difference, Up, Halves;
  }

  lemma SteppedBit(v: bv64, n: nat)
    requires n < 64
    ensures LongBit(Stepped(v), n)
         == (((n != 0 && n != 32 && LongBit(v, n - 1)) != (n < 32 && LongBit(v, 31) && Tap(n))) != (32 <= n && LongBit(v, 63) && Tap(n - 32)))
  {
    SteppedParts(v);
    CarryBits(v);
    var low, high := v & 0x8000_0000 != 0, v & 0x8000_0000_0000_0000 != 0;
    hide Stepped, Difference, Unless, Raised32, LongBit, Up;
    var a, b := Up(v), Unless(low, Raised32(1));
    var c, d := Unless(low, 0xC5 as bv8 as bv64), Unless(high, Raised32(0xC5));
    XorBit(Difference(Difference(a, b), c), d, n);
    XorBit(Difference(a, b), c, n);
    XorBit(a, b, n);
    UpBit(v, n);
    UnlessBit(low, Raised32(1), n);
    UnlessBit(low, 0xC5 as bv8 as bv64, n);
    UnlessBit(high, Raised32(0xC5), n);
    RaisedBit(1, n);
    RaisedBit(0xC5, n);
    TapBit(n);
    if 32 <= n {
      TapBit(n - 32);
      LowestBit(n - 32);
    }
  }

  /** One step of the generator, on arrays of characters, is that. */
  lemma NextValueIs(v: bv64)
    ensures NextValue(v) == Stepped(v)
  {
    hide LongBit, LowBits, FromLowBits, Stepped;
    var bits := LowBits(v, 64);
    BitsRoundTrip(NextBits(bits));
    forall n: nat | n < 64 ensures LongBit(NextValue(v), n) == LongBit(Stepped(v), n) {
      NextValueBit(v, n);
      SteppedBit(v, n);
    }
    SameLong(NextValue(v), Stepped(v));
  }

  lemma NextValueBit(v: bv64, n: nat)
    requires n < 64
    ensures LongBit(NextValue(v), n)
         == (((n != 0 && n != 32 && LongBit(v, n - 1)) != (n < 32 && LongBit(v, 31) && Tap(n))) != (32 <= n && LongBit(v, 63) && Tap(n - 32)))
  {
    hide LongBit, LowBits, FromLowBits, Tap;
    var bits := LowBits(v, 64);
    BitsRoundTrip(NextBits(bits));
    LowBitIs(NextValue(v), 64, n);
    if n > 0 { LowBitIs(v, 64, n - 1); }
    LowBitIs(v, 64, 31);
    LowBitIs(v, 64, 63);
  }

  /** The first keys of the table. */
  lemma FirstValues()
    ensures Iterate(INIT_SEED, 0) == 0x5555_5555_5555_5557 && Iterate(INIT_SEED, 1) == 0xAAAA_AAAA_AAAA_AAAE
    ensures Iterate(INIT_SEED, 2) == 0x5555_5591_5555_5599 && Iterate(INIT_SEED, 3) == 0xAAAA_AB22_AAAA_AB32
  {
    hide NextValue;
    var a, b, c := Iterate(INIT_SEED, 0), Iterate(INIT_SEED, 1), Iterate(INIT_SEED, 2);
    assert b == NextValue(a) && c == NextValue(b) && Iterate(INIT_SEED, 3) == NextValue(c);
    NextValueIs(a);
    NextValueIs(b);
    NextValueIs(c);
    assert Stepped(0x5555_5555_5555_5557) == 0xAAAA_AAAA_AAAA_AAAE;
    assert Stepped(0xAAAA_AAAA_AAAA_AAAE) == 0x5555_5591_5555_5599;
    assert Stepped(0x5555_5591_5555_5599) == 0xAAAA_AB22_AAAA_AB32;
  }
}
