/** client/DES/cipher.c and payload_cipher.c: the table of 16384 keys, each derived from the one
    before by two 32-bit shift registers run on arrays of '0' and '1' characters, and the choice
    of a key by folding the user ID. A long long is its 64-bit pattern. */
module KeyTable {
  import opened Bits
  import opened Numbers

  // ---------------------------------------------------------------- bits of a long long

  predicate Odd(v: bv64) {
    v & 1 != 0
  }

  predicate Negative(v: bv64) {
    v & 0x8000_0000_0000_0000 != 0
  }

  function Down(v: bv64): bv64 {
    v >> 1
  }

  function HalfOfNegative(v: bv64): bv64 {
    -((-v) >> 1)
  }

  // C's signed `/ 2`, which truncates toward zero.
  function TruncatedHalf(v: bv64): bv64 {
    if Negative(v) then HalfOfNegative(v) else Down(v)
  }

  function OneLess(v: bv64): bv64 {
    v - 1
  }

  // `(temp%2 == 0) ? temp/2 : (temp-1)/2`
  function NextHalf(v: bv64): bv64 {
    if !Odd(v) then TruncatedHalf(v) else TruncatedHalf(OneLess(v))
  }

  // `temp*2` and `temp*2+1`, wrapping at 64 bits
  function Doubled(v: bv64, b: bool): bv64 {
    if b then (v << 1) + 1 else v << 1
  }

  /** The n low bits of v, lowest first, as longlong2bits peels them off. */
  function LowBits(v: bv64, n: nat): (bits: seq<bool>)
    ensures |bits| == n
    decreases n
  {
    if n == 0 then [] else [Odd(v)] + LowBits(NextHalf(v), n - 1)
  }

  /** The number with the given bits, lowest first, doubled up from the top with wrap-around. */
  function FromLowBits(bits: seq<bool>): bv64 {
    if bits == [] then 0 else Doubled(FromLowBits(bits[1..]), bits[0])
  }

  // h is v shifted down one place, with either sign copied in.
  predicate IsHalf(v: bv64, h: bv64) {
    h == v >> 1 || h == (v >> 1) | 0x8000_0000_0000_0000
  }

  lemma EvenNegative(v: bv64)
    ensures v & 1 == 0 && v & 0x8000_0000_0000_0000 != 0 ==> -((-v) >> 1) == (v >> 1) | 0x8000_0000_0000_0000
  {}

  lemma OddNegative(v: bv64)
    ensures v & 1 != 0 && (v - 1) & 0x8000_0000_0000_0000 != 0 ==> -((-(v - 1)) >> 1) == (v >> 1) | 0x8000_0000_0000_0000
  {}

  lemma EvenNegativeHalf(v: bv64)
    ensures !Odd(v) && Negative(v) ==> IsHalf(v, HalfOfNegative(v))
  {
    EvenNegative(v);
  }

  lemma OddNegativeHalf(v: bv64)
    ensures Odd(v) && Negative(OneLess(v)) ==> IsHalf(v, HalfOfNegative(OneLess(v)))
  {
    OddNegative(v);
  }

  lemma OddDown(v: bv64)
    ensures Odd(v) ==> Down(OneLess(v)) == Down(v)
  {}

  lemma DownIsHalf(v: bv64)
    ensures IsHalf(v, Down(v))
  {}

  lemma NextHalfIs(v: bv64)
    ensures IsHalf(v, NextHalf(v))
  {
    hide Odd, Negative, Down, HalfOfNegative, OneLess, IsHalf;
    EvenNegativeHalf(v);
    OddNegativeHalf(v);
    OddDown(v);
    DownIsHalf(v);
  }

  lemma EvenDoubled(v: bv64, h: bv64)
    ensures IsHalf(v, h) && !Odd(v) ==> Doubled(h, false) == v
  {}

  lemma OddDoubled(v: bv64, h: bv64)
    ensures IsHalf(v, h) && Odd(v) ==> Doubled(h, true) == v
  {}

  /** Whatever the sign, doubling the half gives the number back. */
  lemma HalfDoubled(v: bv64)
    ensures Doubled(NextHalf(v), Odd(v)) == v
  {
    hide IsHalf, NextHalf, Odd, Doubled;
    NextHalfIs(v);
    EvenDoubled(v, NextHalf(v));
    OddDoubled(v, NextHalf(v));
  }

  // ---------------------------------------------------------------- numbers and bit strings

  // `bits` doubled in under the number h.
  function Combined(h: bv64, bits: seq<bool>): bv64 {
    if bits == [] then h else Doubled(Combined(h, bits[1..]), bits[0])
  }

  function Halved(v: bv64, n: nat): bv64
    decreases n
  {
    if n == 0 then v else Halved(NextHalf(v), n - 1)
  }

  lemma {:induction false} FromIsCombined(bits: seq<bool>)
    ensures FromLowBits(bits) == Combined(0, bits)
  {
    hide Doubled;
    if bits != [] { FromIsCombined(bits[1..]); }
  }

  lemma {:induction false} CombinedGivesBack(v: bv64, n: nat)
    ensures Combined(Halved(v, n), LowBits(v, n)) == v
    decreases n
  {
    hide Doubled, NextHalf, Odd;
    if n > 0 {
      CombinedGivesBack(NextHalf(v), n - 1);
      HalfDoubled(v);
      assert LowBits(v, n)[1..] == LowBits(NextHalf(v), n - 1);
    }
  }

  function Twice(v: bv64): bv64 {
    v << 1
  }

  function Difference(a: bv64, b: bv64): bv64 {
    a ^ b
  }

  function Raised(v: bv64, n: nat): bv64 {
    if n == 0 then v else Twice(Raised(v, n - 1))
  }

  lemma DoubledDifference(a: bv64, b: bv64, u: bool)
    ensures Difference(Doubled(a, u), Doubled(b, u)) == Twice(Difference(a, b))
  {
    hide Difference, Doubled, Twice;
    if u { OddDifference(a, b); } else { EvenDifference(a, b); }
  }

  lemma EvenDifference(a: bv64, b: bv64)
    ensures Difference(Doubled(a, false), Doubled(b, false)) == Twice(Difference(a, b))
  {}

  lemma OddDifference(a: bv64, b: bv64)
    ensures Difference(Doubled(a, true), Doubled(b, true)) == Twice(Difference(a, b))
  {
    DoubledOdd(a);
    DoubledOdd(b);
    OddBits(a, b);
  }

  lemma DoubledOdd(a: bv64)
    ensures (a << 1) + 1 == (a << 1) | 1
  {}

  lemma OddBits(a: bv64, b: bv64)
    ensures ((a << 1) | 1) ^ ((b << 1) | 1) == (a ^ b) << 1
  {}

  lemma {:induction false} CombinedDifference(h: bv64, bits: seq<bool>)
    ensures Difference(Combined(h, bits), Combined(0, bits)) == Raised(h, |bits|)
  {
    hide Doubled, Difference, Twice;
    if bits == [] {
      assert Difference(h, 0) == h by { NoDifference(h); }
    } else {
      CombinedDifference(h, bits[1..]);
      DoubledDifference(Combined(h, bits[1..]), Combined(0, bits[1..]), bits[0]);
    }
  }

  lemma NoDifference(a: bv64)
    ensures Difference(a, 0) == a
  {}

  lemma DifferenceZero(a: bv64, b: bv64)
    ensures Difference(a, b) == 0 ==> a == b
  {}

  function TwiceFour(v: bv64): bv64 {
    Twice(Twice(Twice(Twice(v))))
  }

  function TwiceSixteen(v: bv64): bv64 {
    TwiceFour(TwiceFour(TwiceFour(TwiceFour(v))))
  }

  lemma RaisedFour(v: bv64, n: nat)
    ensures Raised(v, n + 4) == TwiceFour(Raised(v, n))
  {
    hide Twice;
    assert Raised(v, n + 2) == Twice(Twice(Raised(v, n)));
  }

  lemma RaisedSixteen(v: bv64, n: nat)
    ensures Raised(v, n + 16) == TwiceSixteen(Raised(v, n))
  {
    hide Raised, TwiceFour;
    RaisedFour(v, n); RaisedFour(v, n + 4); RaisedFour(v, n + 8); RaisedFour(v, n + 12);
  }

  lemma AllRaised(v: bv64)
    ensures TwiceSixteen(TwiceSixteen(TwiceSixteen(TwiceSixteen(v)))) == 0
  {}

  lemma RaisedAway(v: bv64)
    ensures Raised(v, 64) == 0
  {
    assert Raised(v, 0) == v;
    hide Raised, TwiceSixteen;
    RaisedSixteen(v, 0); RaisedSixteen(v, 16); RaisedSixteen(v, 32); RaisedSixteen(v, 48);
    AllRaised(v);
  }

  /** longlong2bits then bits2longlong gives the number back, whatever its sign. */
  lemma NumberRoundTrip(v: bv64)
    ensures FromLowBits(LowBits(v, 64)) == v
  {
    hide Difference, Raised, Combined, Halved, LowBits;
    CombinedGivesBack(v, 64);
    FromIsCombined(LowBits(v, 64));
    CombinedDifference(Halved(v, 64), LowBits(v, 64));
    RaisedAway(Halved(v, 64));
    DifferenceZero(v, Combined(0, LowBits(v, 64)));
  }

  predicate Agree(a: bv64, b: bv64, mask: bv64) {
    a & mask == b & mask
  }

  // The low n bits of the mask are set.
  predicate Covers(mask: bv64, n: nat)
    decreases n
  {
    n == 0 || (Odd(mask) && Covers(Down(mask), n - 1))
  }

  lemma HalvesAgree(a: bv64, b: bv64, x: bv64, y: bv64, mask: bv64)
    ensures IsHalf(a, x) && IsHalf(b, y) && Agree(a, b, mask) ==> Agree(x, y, Down(mask))
  {}

  lemma OddAgree(a: bv64, b: bv64, mask: bv64)
    ensures Agree(a, b, mask) && Odd(mask) ==> Odd(a) == Odd(b)
  {}

  lemma AgreeHalves(a: bv64, b: bv64, mask: bv64)
    ensures Agree(a, b, mask) ==> Agree(NextHalf(a), NextHalf(b), Down(mask))
    ensures Agree(a, b, mask) && Odd(mask) ==> Odd(a) == Odd(b)
  {
    hide NextHalf, IsHalf, Agree, Down, Odd;
    NextHalfIs(a);
    NextHalfIs(b);
    HalvesAgree(a, b, NextHalf(a), NextHalf(b), mask);
    OddAgree(a, b, mask);
  }

  lemma {:induction false} LowBitsAgree(a: bv64, b: bv64, mask: bv64, n: nat)
    requires Agree(a, b, mask) && Covers(mask, n)
    ensures LowBits(a, n) == LowBits(b, n)
    decreases n
  {
    hide Agree, NextHalf, Odd, Down;
    if n > 0 {
      AgreeHalves(a, b, mask);
      LowBitsAgree(NextHalf(a), NextHalf(b), Down(mask), n - 1);
    }
  }

  lemma {:induction false} CoversLess(mask: bv64, n: nat, k: nat)
    requires Covers(mask, n) && k <= n
    ensures Covers(mask, k)
    decreases k
  {
    hide Odd, Down;
    if k > 0 { CoversLess(Down(mask), n - 1, k - 1); }
  }

  lemma CoversAll()
    ensures Covers(0x7FFF_FFFF_FFFF_FFFF, 63)
  {
    assert Covers(0x7F, 7);
    assert Covers(0x7FFF, 15);
    assert Covers(0x7F_FFFF, 23);
    assert Covers(0x7FFF_FFFF, 31);
    assert Covers(0x7F_FFFF_FFFF, 39);
    assert Covers(0x7FFF_FFFF_FFFF, 47);
    assert Covers(0x7F_FFFF_FFFF_FFFF, 55);
  }

  lemma HalfOfDoubled(h: bv64, b: bool)
    ensures Agree(NextHalf(Doubled(h, b)), h, 0x7FFF_FFFF_FFFF_FFFF)
    ensures Odd(Doubled(h, b)) == b
  {
    hide NextHalf, Doubled, IsHalf, Agree, Odd;
    NextHalfIs(Doubled(h, b));
    DoubledIs(h, b);
    DoubledBack(h, b, Doubled(h, b), NextHalf(Doubled(h, b)));
    DoubledOddness(h, b, Doubled(h, b));
  }

  predicate IsDoubled(h: bv64, b: bool, d: bv64) {
    d == (h << 1) | (if b then 1 else 0)
  }

  lemma DoubledIs(h: bv64, b: bool)
    ensures IsDoubled(h, b, Doubled(h, b))
  {
    DoubledOdd(h);
  }

  lemma DoubledBack(h: bv64, b: bool, d: bv64, e: bv64)
    ensures IsDoubled(h, b, d) && IsHalf(d, e) ==> Agree(e, h, 0x7FFF_FFFF_FFFF_FFFF)
  {}

  lemma DoubledOddness(h: bv64, b: bool, d: bv64)
    ensures IsDoubled(h, b, d) ==> Odd(d) == b
  {}

  lemma LowBitsDoubled(h: bv64, b: bool, n: nat)
    requires n <= 63
    ensures LowBits(Doubled(h, b), n + 1) == [b] + LowBits(h, n)
  {
    hide Agree, NextHalf, Odd, Doubled, Covers;
    HalfOfDoubled(h, b);
    CoversAll();
    CoversLess(0x7FFF_FFFF_FFFF_FFFF, 63, n);
    LowBitsAgree(NextHalf(Doubled(h, b)), h, 0x7FFF_FFFF_FFFF_FFFF, n);
  }

  /** And the other way round, for up to 64 bits. */
  lemma {:induction false} BitsRoundTrip(bits: seq<bool>)
    requires |bits| <= 64
    ensures LowBits(FromLowBits(bits), |bits|) == bits
  {
    hide Doubled;
    if bits != [] {
      BitsRoundTrip(bits[1..]);
      LowBitsDoubled(FromLowBits(bits[1..]), bits[0], |bits| - 1);
    }
  }

  // ---------------------------------------------------------------- the shift registers

  type Register = b: seq<bool> | |b| == 32 witness Zeros(32)

  // The powers below 32 of x^32 + x^7 + x^6 + x^2 + 1, lowest first.
  predicate Tap(i: nat) {
    i == 0 || i == 2 || i == 6 || i == 7
  }

  /** Multiplication by x modulo that polynomial, on coefficients lowest first: every power goes
      up by one, and x^32 is replaced by the lower powers. */
  function TimesX(r: Register): (p: Register) {
    seq(32, i requires 0 <= i < 32 => (0 < i && r[i - 1]) != (r[31] && Tap(i)))
  }

  /** Its inverse: the lowest coefficient tells whether x^32 was replaced. */
  function DivX(p: Register): (r: Register) {
    seq(32, i requires 0 <= i < 32 => if i == 31 then p[0] else p[i + 1] != (p[0] && Tap(i + 1)))
  }

  lemma TimesXInvertible(r: Register)
    ensures DivX(TimesX(r)) == r && TimesX(DivX(r)) == r
  {}

  lemma TimesXZero(r: Register)
    ensures TimesX(r) == Zeros(32) <==> r == Zeros(32)
  {
    if TimesX(r) == Zeros(32) {
      assert !TimesX(r)[0];
      forall i: nat | i < 31 ensures !r[i] { assert !TimesX(r)[i + 1]; }
      assert r == Zeros(32);
    }
  }


  function BitChar(b: bool): char {
    if b then '1' else '0'
  }

  function Chars(bits: seq<bool>): (chars: seq<char>)
    ensures |chars| == |bits| && forall i :: 0 <= i < |bits| ==> chars[i] == BitChar(bits[i])
  {
    seq(|bits|, i requires 0 <= i < |bits| => BitChar(bits[i]))
  }

  lemma LowBitsFirst(v: bv64, n: nat)
    ensures LowBits(v, n + 1) == [Odd(v)] + LowBits(NextHalf(v), n)
  {}

  /** longlong2bits. */
  method Longlong2Bits(longIn: bv64, strOut: array<char>, strLen: nat)
    requires strLen <= strOut.Length
    modifies strOut
    ensures strOut[..] == Chars(LowBits(longIn, strLen)) + old(strOut[strLen..])
  {
    hide Odd, NextHalf, LowBits;
    ghost var bits := LowBits(longIn, strLen);
    var temp := longIn;
    for i := 0 to strLen
      invariant LowBits(temp, strLen - i) == bits[i..]
      invariant forall n :: 0 <= n < i ==> strOut[n] == BitChar(bits[n])
      invariant strOut[strLen..] == old(strOut[strLen..])
    {
      LowBitsFirst(temp, strLen - i - 1);
      assert bits[i] == bits[i..][0] && bits[i + 1..] == bits[i..][1..];
      strOut[i] := if !Odd(temp) then '0' else '1';
      temp := NextHalf(temp);
    }
    assert strOut[..strLen] == Chars(bits);
    assert strOut[..] == strOut[..strLen] + strOut[strLen..];
  }

  /** bits2longlong; its index runs from 63 down, so with strLen below 64 it reads the high places. */
  method Bits2Longlong(strIn: array<char>, strLen: nat, ghost bits: seq<bool>) returns (longOut: bv64)
    requires strLen <= 64 <= strIn.Length && |bits| == 64 && strIn[..64] == Chars(bits)
    ensures longOut == FromLowBits(bits[64 - strLen..])
  {
    hide Doubled;
    var temp: bv64 := 0;
    for i := 0 to strLen
      invariant temp == FromLowBits(bits[64 - i..])
    {
      assert strIn[63 - i] == strIn[..64][63 - i] == BitChar(bits[63 - i]);
      assert bits[63 - i..][1..] == bits[64 - i..];
      temp := if strIn[63 - i] == '0' then Doubled(temp, false) else Doubled(temp, true);
    }
    longOut := temp;
  }

  /** Both registers of a 64-bit state, the low one first. */
  function NextBits(bits: seq<bool>): (next: seq<bool>)
    requires |bits| == 64
    ensures |next| == 64
  {
    TimesX(bits[..32]) + TimesX(bits[32..])
  }

  function XorChar(a: char, b: char): char {
    if a == b then '0' else '1'
  }

  /** nxt_Bits, half by half: lines 51-61 with base 0, lines 62-72 with base 32. */
  method NxtHalf(oldBits: array<char>, newBits: array<char>, base: nat, ghost r: Register)
    requires oldBits != newBits && base + 32 <= oldBits.Length && base + 32 <= newBits.Length
    requires forall n :: 0 <= n < 32 ==> oldBits[base + n] == BitChar(r[n])
    modifies newBits
    ensures forall n :: 0 <= n < 32 ==> newBits[base + n] == BitChar(TimesX(r)[n])
    ensures forall n :: 0 <= n < newBits.Length && !(base <= n < base + 32) ==> newBits[n] == old(newBits[n])
  {
    newBits[base] := oldBits[base + 31];
    newBits[base + 1] := oldBits[base];
    newBits[base + 2] := XorChar(oldBits[base + 1], oldBits[base + 31]);
    for i := 3 to 6
      invariant forall n :: 0 <= n < i ==> newBits[base + n] == BitChar(TimesX(r)[n])
      invariant forall n :: 0 <= n < newBits.Length && !(base <= n < base + 32) ==> newBits[n] == old(newBits[n])
    {
      newBits[base + i] := oldBits[base + i - 1];
    }
    newBits[base + 6] := XorChar(oldBits[base + 5], oldBits[base + 31]);
    newBits[base + 7] := XorChar(oldBits[base + 6], oldBits[base + 31]);
    for i := 8 to 32
      invariant forall n :: 0 <= n < i ==> newBits[base + n] == BitChar(TimesX(r)[n])
      invariant forall n :: 0 <= n < newBits.Length && !(base <= n < base + 32) ==> newBits[n] == old(newBits[n])
    {
      newBits[base + i] := oldBits[base + i - 1];
    }
  }

  method NxtBits(oldBits: array<char>, newBits: array<char>, ghost bits: seq<bool>)
    requires oldBits != newBits && oldBits.Length >= 64 && newBits.Length >= 64
    requires |bits| == 64 && oldBits[..64] == Chars(bits)
    modifies newBits
    ensures newBits[..64] == Chars(NextBits(bits))
  {
    hide TimesX, BitChar;
    var low, high := bits[..32], bits[32..];
    forall n | 0 <= n < 64 ensures oldBits[n] == BitChar(bits[n]) {
      assert oldBits[n] == oldBits[..64][n];
    }
    NxtHalf(oldBits, newBits, 0, low);
    NxtHalf(oldBits, newBits, 32, high);
    forall n | 0 <= n < 64 ensures newBits[n] == BitChar(NextBits(bits)[n]) {
      if n < 32 { assert newBits[0 + n] == BitChar(TimesX(low)[n]); }
      else { assert newBits[32 + (n - 32)] == BitChar(TimesX(high)[n - 32]); }
    }
  }

  function NextValue(v: bv64): bv64 {
    FromLowBits(NextBits(LowBits(v, 64)))
  }

  method NxtValue(oldL: bv64) returns (newL: bv64)
    ensures newL == NextValue(oldL)
  {
    hide NextBits, LowBits, FromLowBits, BitChar;
    var oldBits, newBits := new char[65](_ => '\0'), new char[65](_ => '\0');
    ghost var bits := LowBits(oldL, 64);
    Longlong2Bits(oldL, oldBits, 64);
    assert oldBits[..64] == Chars(bits);
    NxtBits(oldBits, newBits, bits);
    newL := Bits2Longlong(newBits, 64, NextBits(bits));
    assert NextBits(bits)[0..] == NextBits(bits);
  }

  // ---------------------------------------------------------------- the key table

  function LowRegister(v: bv64): Register {
    LowBits(v, 64)[..32]
  }

  function HighRegister(v: bv64): Register {
    LowBits(v, 64)[32..]
  }

  /** One step multiplies the register in each half of the number by x. */
  lemma NextValueSteps(v: bv64)
    ensures LowRegister(NextValue(v)) == TimesX(LowRegister(v))
    ensures HighRegister(NextValue(v)) == TimesX(HighRegister(v))
  {
    hide LowBits, FromLowBits, TimesX;
    BitsRoundTrip(NextBits(LowBits(v, 64)));
  }

  function PreviousValue(v: bv64): bv64 {
    FromLowBits(DivX(LowRegister(v)) + DivX(HighRegister(v)))
  }

  /** Every number is the next of exactly one number. */
  lemma NextValueInvertible(v: bv64)
    ensures PreviousValue(NextValue(v)) == v && NextValue(PreviousValue(v)) == v
  {
    hide LowBits, FromLowBits, TimesX, DivX;
    NextValueSteps(v);
    TimesXInvertible(LowRegister(v));
    TimesXInvertible(HighRegister(v));
    NumberRoundTrip(v);
    assert LowRegister(v) + HighRegister(v) == LowBits(v, 64);
    var p := DivX(LowRegister(v)) + DivX(HighRegister(v));
    BitsRoundTrip(p);
    assert p[..32] == DivX(LowRegister(v)) && p[32..] == DivX(HighRegister(v));
  }

  function Iterate(v: bv64, n: nat): bv64 {
    if n == 0 then v else NextValue(Iterate(v, n - 1))
  }

  /** des_key_init: entry i is the i-th iterate of the seed. */
  method DesKeyInit(table: array<bv64>, keyTableSize: nat, initSeed: bv64)
    requires keyTableSize <= table.Length
    modifies table
    ensures forall i: nat :: i < keyTableSize ==> table[i] == Iterate(initSeed, i)
    ensures table[keyTableSize..] == old(table[keyTableSize..])
  {
    hide NextValue;
    var seed := initSeed;
    for i := 0 to keyTableSize
      invariant seed == Iterate(initSeed, i)
      invariant forall n: nat :: n < i ==> table[n] == Iterate(initSeed, n)
      invariant table[keyTableSize..] == old(table[keyTableSize..])
    {
      table[i] := seed;
      seed := NxtValue(seed);
    }
  }

  ghost predicate BothNonzero(v: bv64) {
    LowRegister(v) != Zeros(32) && HighRegister(v) != Zeros(32)
  }

  /** From a seed with something in both halves, no entry ever has an empty half. */
  lemma {:induction false} HalvesStayNonzero(seed: bv64, n: nat)
    requires BothNonzero(seed)
    ensures BothNonzero(Iterate(seed, n))
  {
    hide LowRegister, HighRegister, TimesX, NextValue;
    if n > 0 {
      HalvesStayNonzero(seed, n - 1);
      NextValueSteps(Iterate(seed, n - 1));
      TimesXZero(LowRegister(Iterate(seed, n - 1)));
      TimesXZero(HighRegister(Iterate(seed, n - 1)));
    }
  }

  /** Two equal entries mean the sequence has come back to the seed in between. */
  lemma {:induction false} EqualEntriesRepeatSeed(seed: bv64, i: nat, j: nat)
    requires i < j && Iterate(seed, i) == Iterate(seed, j)
    ensures Iterate(seed, j - i) == seed
  {
    hide NextValue, PreviousValue;
    if i > 0 {
      NextValueInvertible(Iterate(seed, i - 1));
      NextValueInvertible(Iterate(seed, j - 1));
      EqualEntriesRepeatSeed(seed, i - 1, j - 1);
    }
  }

  const INIT_SEED: bv64 := 0x5555_5555_5555_5557
  const TABLE_SIZE := 1024 * 16

  lemma {:induction false} LowBitsAt(v: bv64, n: nat, j: nat)
    requires j < n
    ensures LowBits(v, n)[j] == Odd(Halved(v, j))
    decreases n
  {
    hide Odd, NextHalf;
    if j > 0 { LowBitsAt(NextHalf(v), n - 1, j - 1); }
  }

  lemma {:induction false} HalvedAdd(v: bv64, m: nat, n: nat)
    ensures Halved(v, m + n) == Halved(Halved(v, m), n)
    decreases m
  {
    hide NextHalf;
    if m > 0 { HalvedAdd(NextHalf(v), m - 1, n); }
  }

  lemma PositiveLess(v: bv64)
    ensures !Negative(v) && Odd(v) ==> !Negative(OneLess(v))
  {}

  lemma PositiveDown(v: bv64)
    ensures !Negative(v) ==> !Negative(Down(v))
  {}

  lemma HalfOfPositive(v: bv64)
    ensures !Negative(v) ==> NextHalf(v) == Down(v) && !Negative(Down(v))
  {
    hide Odd, Negative, Down, HalfOfNegative, OneLess;
    OddDown(v);
    PositiveLess(v);
    PositiveDown(v);
  }

  // Four places down.
  function DownFour(v: bv64): bv64 {
    Down(Down(Down(Down(v))))
  }

  lemma {:induction false} HalvedFour(v: bv64)
    requires !Negative(v)
    ensures Halved(v, 4) == DownFour(v) && !Negative(DownFour(v))
  {
    hide Negative, Down, NextHalf;
    HalfOfPositive(v);
    HalfOfPositive(Down(v));
    HalfOfPositive(Down(Down(v)));
    HalfOfPositive(Down(Down(Down(v))));
    HalvedAdd(v, 2, 2);
    assert Halved(v, 2) == Down(Down(v));
  }

  lemma {:induction false} HalvedFours(v: bv64, n: nat)
    requires !Negative(v)
    ensures Halved(v, 4 * n) == DownFours(v, n) && !Negative(DownFours(v, n))
  {
    hide Negative, DownFour;
    if n > 0 {
      HalvedFours(v, n - 1);
      HalvedAdd(v, 4 * (n - 1), 4);
      HalvedFour(DownFours(v, n - 1));
    }
  }

  function DownFours(v: bv64, n: nat): bv64 {
    if n == 0 then v else DownFour(DownFours(v, n - 1))
  }

  lemma SeedHigh()
    ensures Odd(DownFour(DownFour(DownFour(DownFour(DownFour(DownFour(DownFour(DownFour(INIT_SEED)))))))))
  {}

  /** The seed the programs use is such a seed. */
  lemma SeedIsNonzero()
    ensures BothNonzero(INIT_SEED)
  {
    assert Odd(INIT_SEED);
    SeedHigh();
    hide Odd, DownFour;
    LowBitsAt(INIT_SEED, 64, 0);
    LowBitsAt(INIT_SEED, 64, 32);
    HalvedFours(INIT_SEED, 8);
    assert DownFours(INIT_SEED, 4) == DownFour(DownFour(DownFour(DownFour(INIT_SEED))));
    assert LowRegister(INIT_SEED)[0] && HighRegister(INIT_SEED)[0];
  }

  // ---------------------------------------------------------------- choosing a key

  // `temp >> 14` on a signed long long
  function Down14(v: bv64): bv64 {
    if Negative(v) then (v >> 14) | 0xFFFC_0000_0000_0000 else v >> 14
  }

  // `temp >> shift` with shift = 14 * i
  function ShiftedDown(v: bv64, i: nat): bv64 {
    if i == 0 then v else Down14(ShiftedDown(v, i - 1))
  }

  function Part(v: bv64): bv64 {
    v & 0x3FFF
  }

  /** The xor of the first n groups of 14 bits, onto `offset`. */
  function Folded(offset: bv64, v: bv64, n: nat): bv64 {
    if n == 0 then offset else Difference(Folded(offset, v, n - 1), Part(ShiftedDown(v, n - 1)))
  }

  /** Eight bytes in memory read as a long long. */
  function FromMemory(bytes: seq<bv8>): bv64 {
    if bytes == [] then 0 else WithByte(FromMemory(bytes[1..]), bytes[0])
  }

  function WithByte(v: bv64, b: bv8): bv64 {
    (v << 8) | (b as bv64)
  }

  function Backwards(s: seq<bv8>): (r: seq<bv8>)
    ensures |r| == |s|
  {
    if s == [] then [] else Backwards(s[1..]) + [s[0]]
  }

  lemma {:induction false} BackwardsAt(s: seq<bv8>, i: nat)
    requires i < |s|
    ensures Backwards(s)[i] == s[|s| - 1 - i]
  {
    if i < |s| - 1 { BackwardsAt(s[1..], i); }
  }

  function KeyOffset(u: seq<bv8>): bv64
    requires |u| == 16
  {
    Folded(Folded(0, FromMemory(Backwards(u[8..16])), 4), FromMemory(Backwards(u[1..9])), 4)
  }

  /** The number that the n low bits of v stand for. */
  function LowNumber(v: bv64, n: nat): (r: nat)
    ensures r < Pow2(n)
    decreases n
  {
    if n == 0 then 0 else (if Odd(v) then 1 else 0) + 2 * LowNumber(Down(v), n - 1)
  }

  // `keyOffset % TABLE_SIZE`: its fourteen low bits as a number
  function IndexOf(offset: bv64): (i: nat)
    ensures i < TABLE_SIZE
  {
    assert Pow2(7) == 128;
    assert Pow2(14) == 16384;
    LowNumber(offset, 14)
  }

  /** The table place the sixteen bytes of a user ID lead to. */
  function KeyIndex(u: seq<bv8>): (i: nat)
    requires |u| == 16
    ensures i < TABLE_SIZE
  {
    IndexOf(KeyOffset(u))
  }

  method FoldInto(offset: bv64, eight: seq<bv8>) returns (keyOffset: bv64)
    requires |eight| == 8
    ensures keyOffset == Folded(offset, FromMemory(eight), 4)
  {
    hide Down14, Part, FromMemory, Difference;
    keyOffset := offset;
    for i := 0 to 4
      invariant keyOffset == Folded(offset, FromMemory(eight), i)
    {
      var temp := FromMemory(eight);
      temp := ShiftedDown(temp, i);
      temp := Part(temp);
      keyOffset := Difference(keyOffset, temp);
    }
  }

  /** get_key_from_userID, on the sixteen bytes from userID[base]. */
  method GetKeyFromUserID(userID: array<bv8>, base: nat, table: array<bv64>) returns (key: bv64)
    requires base + 16 <= userID.Length && TABLE_SIZE <= table.Length
    ensures key == table[KeyIndex(userID[base..base + 16])]
  {
    hide IndexOf, Folded, FromMemory, Backwards;
    ghost var u := userID[base..base + 16];
    var last := [userID[base + 15], userID[base + 14], userID[base + 13], userID[base + 12],
                 userID[base + 11], userID[base + 10], userID[base + 9], userID[base + 8]];
    var first := [userID[base + 8], userID[base + 7], userID[base + 6], userID[base + 5],
                  userID[base + 4], userID[base + 3], userID[base + 2], userID[base + 1]];
    EightBackwards(u[8..16], last);
    EightBackwards(u[1..9], first);
    var keyOffset := FoldInto(0, last);
    keyOffset := FoldInto(keyOffset, first);
    key := table[IndexOf(keyOffset)];
  }

  lemma EightBackwards(s: seq<bv8>, r: seq<bv8>)
    requires |s| == |r| == 8 && forall i :: 0 <= i < 8 ==> r[i] == s[7 - i]
    ensures r == Backwards(s)
  {
    hide Backwards;
    forall i: nat | i < 8 ensures r[i] == Backwards(s)[i] { BackwardsAt(s, i); }
  }

  function MaskUp(mask: bv64): bv64 {
    (mask << 8) | 0xFF
  }

  lemma AgreeWithByte(a: bv64, b: bv64, mask: bv64, c: bv8)
    ensures Agree(a, b, mask) ==> Agree(WithByte(a, c), WithByte(b, c), MaskUp(mask))
  {
    AgreeWithByteBits(a, b, mask, c as bv64);
  }

  lemma AgreeWithByteBits(a: bv64, b: bv64, mask: bv64, c: bv64)
    ensures a & mask == b & mask ==> ((a << 8) | c) & ((mask << 8) | 0xFF) == ((b << 8) | c) & ((mask << 8) | 0xFF)
  {}

  function MaskUps(n: nat): bv64 {
    if n == 0 then 0 else MaskUp(MaskUps(n - 1))
  }

  /** Numbers read from bytes that differ in the last byte agree below it. */
  lemma {:induction false} FromMemoryAgree(a: seq<bv8>, b: seq<bv8>)
    requires |a| == |b| && |a| > 0 && a[..|a| - 1] == b[..|b| - 1]
    ensures Agree(FromMemory(a), FromMemory(b), MaskUps(|a| - 1))
    decreases |a|
  {
    hide WithByte, MaskUp, Agree;
    if |a| == 1 {
      AgreeNothing(FromMemory(a), FromMemory(b));
    } else {
      assert a[0] == a[..|a| - 1][0] == b[..|b| - 1][0] == b[0];
      assert a[1..][..|a| - 2] == a[..|a| - 1][1..] && b[1..][..|b| - 2] == b[..|b| - 1][1..];
      FromMemoryAgree(a[1..], b[1..]);
      AgreeWithByte(FromMemory(a[1..]), FromMemory(b[1..]), MaskUps(|a| - 2), a[0]);
    }
  }

  lemma AgreeNothing(a: bv64, b: bv64)
    ensures Agree(a, b, 0)
  {}

  lemma SevenBytes()
    ensures MaskUps(7) == 0x00FF_FFFF_FFFF_FFFF
  {
    assert MaskUps(4) == 0xFFFF_FFFF;
  }

  predicate IsDown14(v: bv64, d: bv64) {
    d == v >> 14 || d == (v >> 14) | 0xFFFC_0000_0000_0000
  }

  lemma Down14Is(v: bv64)
    ensures IsDown14(v, Down14(v))
  {}

  lemma Down14Agree(a: bv64, b: bv64, x: bv64, y: bv64, mask: bv64)
    ensures IsDown14(a, x) && IsDown14(b, y) && Agree(a, b, mask) ==> Agree(x, y, mask >> 14)
  {}

  lemma PartAgree(a: bv64, b: bv64, mask: bv64)
    ensures Agree(a, b, mask) && mask & 0x3FFF == 0x3FFF ==> Part(a) == Part(b)
  {}

  // What is left of a 56-bit mask after i shifts.
  function PartMask(i: nat): bv64
    requires i <= 3
  {
    if i == 0 then 0x00FF_FFFF_FFFF_FFFF else PartMask(i - 1) >> 14
  }

  lemma PartMaskCovers(i: nat)
    requires i <= 3
    ensures PartMask(i) & 0x3FFF == 0x3FFF
  {
    if i == 0 {} else if i == 1 {} else if i == 2 {} else { assert i == 3; }
  }

  lemma {:induction false} ShiftedDownAgree(a: bv64, b: bv64, i: nat)
    requires i <= 3 && Agree(a, b, PartMask(0))
    ensures Agree(ShiftedDown(a, i), ShiftedDown(b, i), PartMask(i))
  {
    hide Agree, Down14, IsDown14;
    if i > 0 {
      ShiftedDownAgree(a, b, i - 1);
      var x, y := ShiftedDown(a, i - 1), ShiftedDown(b, i - 1);
      Down14Is(x);
      Down14Is(y);
      Down14Agree(x, y, Down14(x), Down14(y), PartMask(i - 1));
    }
  }

  lemma {:induction false} FoldedAgree(offset: bv64, a: bv64, b: bv64, n: nat)
    requires n <= 4 && Agree(a, b, PartMask(0))
    ensures Folded(offset, a, n) == Folded(offset, b, n)
  {
    hide Agree, Part, Difference, ShiftedDown, PartMask;
    if n > 0 {
      FoldedAgree(offset, a, b, n - 1);
      ShiftedDownAgree(a, b, n - 1);
      PartMaskCovers(n - 1);
      PartAgree(ShiftedDown(a, n - 1), ShiftedDown(b, n - 1), PartMask(n - 1));
    }
  }

  /** Only bytes 2 to 15 of the user ID choose the key, as the comment in the source says. */
  lemma KeyIgnoresFirstTwo(u: seq<bv8>, u': seq<bv8>)
    requires |u| == |u'| == 16 && u[2..] == u'[2..]
    ensures KeyIndex(u) == KeyIndex(u')
  {
    hide IndexOf, Folded, FromMemory, Agree;
    assert u[8..16] == u[2..][6..14] && u'[8..16] == u'[2..][6..14];
    assert u[2..9] == u[2..][..7] && u'[2..9] == u'[2..][..7];
    assert u[1..9][1..] == u[2..9] && u'[1..9][1..] == u'[2..9];
    var a, b := Backwards(u[1..9]), Backwards(u'[1..9]);
    assert a[..7] == Backwards(u[2..9]) && b[..7] == Backwards(u'[2..9]);
    FromMemoryAgree(a, b);
    SevenBytes();
    assert PartMask(0) == 0x00FF_FFFF_FFFF_FFFF;
    FoldedAgree(Folded(0, FromMemory(Backwards(u[8..16])), 4), FromMemory(a), FromMemory(b), 4);
  }
}
