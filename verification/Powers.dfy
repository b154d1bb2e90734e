/** Powers of x modulo x^32 + x^7 + x^6 + x^2 + 1 over GF(2), which is what a shift register of the
    key generator runs through: squaring doubles the exponent, so that a power is found in as many
    squarings as its exponent has bits. They are computed on 32-bit words. */
module Powers {
  import opened Bits
  import opened KeyTable

  /** The register n steps on. */
  function Power(r: Register, n: nat): Register {
    if n == 0 then r else TimesX(Power(r, n - 1))
  }

  /** n steps lead from r back to r. */
  predicate Fixed(r: Register, n: nat) {
    Power(r, n) == r
  }

  function One(): Register {
    seq(32, i requires 0 <= i < 32 => i == 0)
  }

  lemma {:induction false} PowerAdd(r: Register, m: nat, n: nat)
    ensures Power(r, m + n) == Power(Power(r, m), n)
    decreases n
  {
    hide TimesX;
    if n > 0 { PowerAdd(r, m, n - 1); }
  }

  lemma {:induction false} FixedTimes(r: Register, n: nat, m: nat)
    requires Fixed(r, n)
    ensures Fixed(r, n * m)
    decreases m
  {
    hide Power;
    if m == 0 {
      NoSteps(r);
    } else {
      FixedTimes(r, n, m - 1);
      assert n * m == n * (m - 1) + n;
      PowerAdd(r, n * (m - 1), n);
    }
  }

  lemma NoSteps(r: Register)
    ensures Power(r, 0) == r
  {}

  // ---------------------------------------------------------------- squaring

  // Coefficient j of the square.
  function SquareBit(v: Register, j: nat): bool
    requires j < 32
  {
    match j
    case 0 => ((v[0] != v[16]) != v[29]) != v[31]
    case 1 => v[29]
    case 2 => ((((v[1] != v[16]) != v[17]) != v[29]) != v[30]) != v[31]
    case 3 => v[29] != v[30]
    case 4 => (((v[2] != v[17]) != v[18]) != v[30]) != v[31]
    case 5 => v[30] != v[31]
    case 6 => (((v[3] != v[16]) != v[18]) != v[19]) != v[29]
    case 7 => v[16]
    case 8 => ((((v[4] != v[17]) != v[19]) != v[20]) != v[29]) != v[30]
    case 9 => v[17]
    case 10 => ((((v[5] != v[18]) != v[20]) != v[21]) != v[30]) != v[31]
    case 11 => v[18]
    case 12 => (((v[6] != v[19]) != v[21]) != v[22]) != v[31]
    case 13 => v[19]
    case 14 => ((v[7] != v[20]) != v[22]) != v[23]
    case 15 => v[20]
    case 16 => ((v[8] != v[21]) != v[23]) != v[24]
    case 17 => v[21]
    case 18 => ((v[9] != v[22]) != v[24]) != v[25]
    case 19 => v[22]
    case 20 => ((v[10] != v[23]) != v[25]) != v[26]
    case 21 => v[23]
    case 22 => ((v[11] != v[24]) != v[26]) != v[27]
    case 23 => v[24]
    case 24 => ((v[12] != v[25]) != v[27]) != v[28]
    case 25 => v[25]
    case 26 => ((v[13] != v[26]) != v[28]) != v[29]
    case 27 => v[26]
    case 28 => ((v[14] != v[27]) != v[29]) != v[30]
    case 29 => v[27]
    case 30 => ((v[15] != v[28]) != v[30]) != v[31]
    case _ => v[28]
  }

  function Square(v: Register): Register {
    seq(32, j requires 0 <= j < 32 => SquareBit(v, j))
  }

  lemma SquareOfNext(v: Register)
    ensures Square(TimesX(v)) == TimesX(TimesX(Square(v)))
  {
    forall j: nat | j < 32 ensures Square(TimesX(v))[j] == TimesX(TimesX(Square(v)))[j] {
      SquareOfNextAt(v, j);
    }
  }

  // Coefficient j after two steps.
  predicate SecondBit(w: Register, j: nat)
    requires j < 32
  {
    ((1 < j && w[j - 2]) != (w[30] && Tap(j))) != (w[31] && 0 < j && Tap(j - 1))
  }

  lemma SecondIs(w: Register, j: nat)
    requires j < 32
    ensures TimesX(TimesX(w))[j] == SecondBit(w, j)
  {
    assert TimesX(w)[31] == w[30];
    if j > 0 { assert TimesX(w)[j - 1] == ((1 < j && w[j - 2]) != (w[31] && Tap(j - 1))); }
  }

  lemma SquareOfNextAt(v: Register, j: nat)
    requires j < 32
    ensures SquareBit(TimesX(v), j) == TimesX(TimesX(Square(v)))[j]
  {
    SecondIs(Square(v), j);
    hide TimesX;
    if j < 8 { SquareOfNextEighth(v, j); } else if j < 16 { SquareOfNextQuarter(v, j); }
    else if j < 24 { SquareOfNextThird(v, j); } else { SquareOfNextRest(v, j); }
  }

  lemma SquareOfNextEighth(v: Register, j: nat)
    requires j < 8
    ensures SquareBit(TimesX(v), j) == SecondBit(Square(v), j)
  {}

  lemma SquareOfNextQuarter(v: Register, j: nat)
    requires 8 <= j < 16
    ensures SquareBit(TimesX(v), j) == SecondBit(Square(v), j)
  {}

  lemma SquareOfNextThird(v: Register, j: nat)
    requires 16 <= j < 24
    ensures SquareBit(TimesX(v), j) == SecondBit(Square(v), j)
  {}

  lemma SquareOfNextRest(v: Register, j: nat)
    requires 24 <= j < 32
    ensures SquareBit(TimesX(v), j) == SecondBit(Square(v), j)
  {}

  /** Twice as many steps from 1 give the square. */
  lemma {:induction false} PowerSquare(n: nat)
    ensures Power(One(), 2 * n) == Square(Power(One(), n))
  {
    hide TimesX, Square;
    if n == 0 {
      SquareOne();
    } else {
      PowerSquare(n - 1);
      SquareOfNext(Power(One(), n - 1));
      assert Power(One(), 2 * n) == TimesX(Power(One(), 2 * n - 1));
      assert Power(One(), 2 * n - 1) == TimesX(Power(One(), 2 * (n - 1)));
    }
  }

  lemma SquareOne()
    ensures Square(One()) == One()
  {}

  // ---------------------------------------------------------------- on words

  function WordNext(v: bv32): bv32 {
    (v << 1) ^ (if v & 0x8000_0000 != 0 then 0xC5 else 0)
  }

  function Spread8(v: bv32): bv32 {
    (v | (v << 8)) & 0x00FF_00FF
  }

  function Spread4(v: bv32): bv32 {
    (v | (v << 4)) & 0x0F0F_0F0F
  }

  function Spread2(v: bv32): bv32 {
    (v | (v << 2)) & 0x3333_3333
  }

  function Spread1(v: bv32): bv32 {
    (v | (v << 1)) & 0x5555_5555
  }

  // Bit i of a 16-bit value moved to place 2 * i.
  function Spread(v: bv32): bv32 {
    Spread1(Spread2(Spread4(Spread8(v))))
  }

  // x^32 times t, for t of degree below 25.
  function Reduced(t: bv32): bv32 {
    (t << 7) ^ (t << 6) ^ (t << 2) ^ t
  }

  function WordSquare(v: bv32): bv32 {
    var high := Spread(v >> 16);
    Spread(v & 0xFFFF) ^ Reduced(high) ^ Reduced((high >> 25) ^ (high >> 26) ^ (high >> 30))
  }

  predicate WordBit(v: bv32, j: nat)
    requires j < 32
  {
    match j
    case 0 => v & 0x1 != 0 case 1 => v & 0x2 != 0 case 2 => v & 0x4 != 0 case 3 => v & 0x8 != 0
    case 4 => v & 0x10 != 0 case 5 => v & 0x20 != 0 case 6 => v & 0x40 != 0 case 7 => v & 0x80 != 0
    case 8 => v & 0x100 != 0 case 9 => v & 0x200 != 0 case 10 => v & 0x400 != 0 case 11 => v & 0x800 != 0
    case 12 => v & 0x1000 != 0 case 13 => v & 0x2000 != 0 case 14 => v & 0x4000 != 0 case 15 => v & 0x8000 != 0
    case 16 => v & 0x1_0000 != 0 case 17 => v & 0x2_0000 != 0 case 18 => v & 0x4_0000 != 0 case 19 => v & 0x8_0000 != 0
    case 20 => v & 0x10_0000 != 0 case 21 => v & 0x20_0000 != 0 case 22 => v & 0x40_0000 != 0 case 23 => v & 0x80_0000 != 0
    case 24 => v & 0x100_0000 != 0 case 25 => v & 0x200_0000 != 0 case 26 => v & 0x400_0000 != 0 case 27 => v & 0x800_0000 != 0
    case 28 => v & 0x1000_0000 != 0 case 29 => v & 0x2000_0000 != 0 case 30 => v & 0x4000_0000 != 0 case _ => v & 0x8000_0000 != 0
  }

  /** The register whose coefficient j is bit j. */
  function RegisterOf(v: bv32): Register {
    seq(32, j requires 0 <= j < 32 => WordBit(v, j))
  }

  lemma WordFirstBits(v: bv32)
    ensures WordBit(v, 0) == (v & 0x1 != 0)
    ensures WordBit(v, 1) == (v & 0x2 != 0)
    ensures WordBit(v, 2) == (v & 0x4 != 0)
    ensures WordBit(v, 3) == (v & 0x8 != 0)
    ensures WordBit(v, 4) == (v & 0x10 != 0)
    ensures WordBit(v, 5) == (v & 0x20 != 0)
    ensures WordBit(v, 6) == (v & 0x40 != 0)
    ensures WordBit(v, 7) == (v & 0x80 != 0)
  {}

  lemma WordSecondBits(v: bv32)
    ensures WordBit(v, 8) == (v & 0x100 != 0)
    ensures WordBit(v, 9) == (v & 0x200 != 0)
    ensures WordBit(v, 10) == (v & 0x400 != 0)
    ensures WordBit(v, 11) == (v & 0x800 != 0)
    ensures WordBit(v, 12) == (v & 0x1000 != 0)
    ensures WordBit(v, 13) == (v & 0x2000 != 0)
    ensures WordBit(v, 14) == (v & 0x4000 != 0)
    ensures WordBit(v, 15) == (v & 0x8000 != 0)
  {}

  lemma WordThirdBits(v: bv32)
    ensures WordBit(v, 16) == (v & 0x1_0000 != 0)
    ensures WordBit(v, 17) == (v & 0x2_0000 != 0)
    ensures WordBit(v, 18) == (v & 0x4_0000 != 0)
    ensures WordBit(v, 19) == (v & 0x8_0000 != 0)
    ensures WordBit(v, 20) == (v & 0x10_0000 != 0)
    ensures WordBit(v, 21) == (v & 0x20_0000 != 0)
    ensures WordBit(v, 22) == (v & 0x40_0000 != 0)
    ensures WordBit(v, 23) == (v & 0x80_0000 != 0)
  {}

  lemma WordLastBits(v: bv32)
    ensures WordBit(v, 24) == (v & 0x100_0000 != 0)
    ensures WordBit(v, 25) == (v & 0x200_0000 != 0)
    ensures WordBit(v, 26) == (v & 0x400_0000 != 0)
    ensures WordBit(v, 27) == (v & 0x800_0000 != 0)
    ensures WordBit(v, 28) == (v & 0x1000_0000 != 0)
    ensures WordBit(v, 29) == (v & 0x2000_0000 != 0)
    ensures WordBit(v, 30) == (v & 0x4000_0000 != 0)
    ensures WordBit(v, 31) == (v & 0x8000_0000 != 0)
  {}

  lemma WordBits(v: bv32)
    ensures WordBit(v, 0) == (v & 0x1 != 0)
    ensures WordBit(v, 1) == (v & 0x2 != 0)
    ensures WordBit(v, 2) == (v & 0x4 != 0)
    ensures WordBit(v, 3) == (v & 0x8 != 0)
    ensures WordBit(v, 4) == (v & 0x10 != 0)
    ensures WordBit(v, 5) == (v & 0x20 != 0)
    ensures WordBit(v, 6) == (v & 0x40 != 0)
    ensures WordBit(v, 7) == (v & 0x80 != 0)
    ensures WordBit(v, 8) == (v & 0x100 != 0)
    ensures WordBit(v, 9) == (v & 0x200 != 0)
    ensures WordBit(v, 10) == (v & 0x400 != 0)
    ensures WordBit(v, 11) == (v & 0x800 != 0)
    ensures WordBit(v, 12) == (v & 0x1000 != 0)
    ensures WordBit(v, 13) == (v & 0x2000 != 0)
    ensures WordBit(v, 14) == (v & 0x4000 != 0)
    ensures WordBit(v, 15) == (v & 0x8000 != 0)
    ensures WordBit(v, 16) == (v & 0x1_0000 != 0)
    ensures WordBit(v, 17) == (v & 0x2_0000 != 0)
    ensures WordBit(v, 18) == (v & 0x4_0000 != 0)
    ensures WordBit(v, 19) == (v & 0x8_0000 != 0)
    ensures WordBit(v, 20) == (v & 0x10_0000 != 0)
    ensures WordBit(v, 21) == (v & 0x20_0000 != 0)
    ensures WordBit(v, 22) == (v & 0x40_0000 != 0)
    ensures WordBit(v, 23) == (v & 0x80_0000 != 0)
    ensures WordBit(v, 24) == (v & 0x100_0000 != 0)
    ensures WordBit(v, 25) == (v & 0x200_0000 != 0)
    ensures WordBit(v, 26) == (v & 0x400_0000 != 0)
    ensures WordBit(v, 27) == (v & 0x800_0000 != 0)
    ensures WordBit(v, 28) == (v & 0x1000_0000 != 0)
    ensures WordBit(v, 29) == (v & 0x2000_0000 != 0)
    ensures WordBit(v, 30) == (v & 0x4000_0000 != 0)
    ensures WordBit(v, 31) == (v & 0x8000_0000 != 0)
  {
    hide WordBit;
    WordFirstBits(v);
    WordSecondBits(v);
    WordThirdBits(v);
    WordLastBits(v);
  }

  lemma NextFirstBits(v: bv32)
    ensures (WordNext(v) & 0x1 != 0) == (v & 0x8000_0000 != 0)
    ensures (WordNext(v) & 0x2 != 0) == (v & 0x1 != 0)
    ensures (WordNext(v) & 0x4 != 0) == ((v & 0x2 != 0) != (v & 0x8000_0000 != 0))
    ensures (WordNext(v) & 0x8 != 0) == (v & 0x4 != 0)
    ensures (WordNext(v) & 0x10 != 0) == (v & 0x8 != 0)
    ensures (WordNext(v) & 0x20 != 0) == (v & 0x10 != 0)
    ensures (WordNext(v) & 0x40 != 0) == ((v & 0x20 != 0) != (v & 0x8000_0000 != 0))
    ensures (WordNext(v) & 0x80 != 0) == ((v & 0x40 != 0) != (v & 0x8000_0000 != 0))
  {}

  lemma NextSecondBits(v: bv32)
    ensures (WordNext(v) & 0x100 != 0) == (v & 0x80 != 0)
    ensures (WordNext(v) & 0x200 != 0) == (v & 0x100 != 0)
    ensures (WordNext(v) & 0x400 != 0) == (v & 0x200 != 0)
    ensures (WordNext(v) & 0x800 != 0) == (v & 0x400 != 0)
    ensures (WordNext(v) & 0x1000 != 0) == (v & 0x800 != 0)
    ensures (WordNext(v) & 0x2000 != 0) == (v & 0x1000 != 0)
    ensures (WordNext(v) & 0x4000 != 0) == (v & 0x2000 != 0)
    ensures (WordNext(v) & 0x8000 != 0) == (v & 0x4000 != 0)
  {}

  lemma NextThirdBits(v: bv32)
    ensures (WordNext(v) & 0x1_0000 != 0) == (v & 0x8000 != 0)
    ensures (WordNext(v) & 0x2_0000 != 0) == (v & 0x1_0000 != 0)
    ensures (WordNext(v) & 0x4_0000 != 0) == (v & 0x2_0000 != 0)
    ensures (WordNext(v) & 0x8_0000 != 0) == (v & 0x4_0000 != 0)
    ensures (WordNext(v) & 0x10_0000 != 0) == (v & 0x8_0000 != 0)
    ensures (WordNext(v) & 0x20_0000 != 0) == (v & 0x10_0000 != 0)
    ensures (WordNext(v) & 0x40_0000 != 0) == (v & 0x20_0000 != 0)
    ensures (WordNext(v) & 0x80_0000 != 0) == (v & 0x40_0000 != 0)
  {}

  lemma NextLastBits(v: bv32)
    ensures (WordNext(v) & 0x100_0000 != 0) == (v & 0x80_0000 != 0)
    ensures (WordNext(v) & 0x200_0000 != 0) == (v & 0x100_0000 != 0)
    ensures (WordNext(v) & 0x400_0000 != 0) == (v & 0x200_0000 != 0)
    ensures (WordNext(v) & 0x800_0000 != 0) == (v & 0x400_0000 != 0)
    ensures (WordNext(v) & 0x1000_0000 != 0) == (v & 0x800_0000 != 0)
    ensures (WordNext(v) & 0x2000_0000 != 0) == (v & 0x1000_0000 != 0)
    ensures (WordNext(v) & 0x4000_0000 != 0) == (v & 0x2000_0000 != 0)
    ensures (WordNext(v) & 0x8000_0000 != 0) == (v & 0x4000_0000 != 0)
  {}

  // Coefficient j of the register one step on.
  predicate NextBit(v: bv32, j: nat)
    requires j < 32
  {
    (j > 0 && WordBit(v, j - 1)) != (WordBit(v, 31) && Tap(j))
  }

  lemma NextFirst(v: bv32, j: nat)
    requires 0 <= j < 8
    ensures WordBit(WordNext(v), j) == NextBit(v, j)
  {
    hide WordNext, WordBit;
    NextFirstBits(v);
    WordBits(v);
    WordBits(WordNext(v));
  }

  lemma NextSecond(v: bv32, j: nat)
    requires 8 <= j < 16
    ensures WordBit(WordNext(v), j) == NextBit(v, j)
  {
    hide WordNext, WordBit;
    NextSecondBits(v);
    WordBits(v);
    WordBits(WordNext(v));
  }

  lemma NextThird(v: bv32, j: nat)
    requires 16 <= j < 24
    ensures WordBit(WordNext(v), j) == NextBit(v, j)
  {
    hide WordNext, WordBit;
    NextThirdBits(v);
    WordBits(v);
    WordBits(WordNext(v));
  }

  lemma NextLast(v: bv32, j: nat)
    requires 24 <= j < 32
    ensures WordBit(WordNext(v), j) == NextBit(v, j)
  {
    hide WordNext, WordBit;
    NextLastBits(v);
    WordBits(v);
    WordBits(WordNext(v));
  }

  lemma NextOfWord(v: bv32)
    ensures RegisterOf(WordNext(v)) == TimesX(RegisterOf(v))
  {
    hide WordBit, WordNext;
    forall j: nat | j < 32 ensures RegisterOf(WordNext(v))[j] == TimesX(RegisterOf(v))[j] {
      if j < 8 { NextFirst(v, j); } else if j < 16 { NextSecond(v, j); }
      else if j < 24 { NextThird(v, j); } else { NextLast(v, j); }
    }
  }

  lemma SquareBits0(v: bv32)
    ensures (WordSquare(v) & 0x1 != 0) == ((((v & 0x1 != 0) != (v & 0x1_0000 != 0)) != (v & 0x2000_0000 != 0)) != (v & 0x8000_0000 != 0))
    ensures (WordSquare(v) & 0x2 != 0) == (v & 0x2000_0000 != 0)
    ensures (WordSquare(v) & 0x4 != 0) == ((((((v & 0x2 != 0) != (v & 0x1_0000 != 0)) != (v & 0x2_0000 != 0)) != (v & 0x2000_0000 != 0)) != (v & 0x4000_0000 != 0)) != (v & 0x8000_0000 != 0))
    ensures (WordSquare(v) & 0x8 != 0) == ((v & 0x2000_0000 != 0) != (v & 0x4000_0000 != 0))
  {}

  lemma SquareBits4(v: bv32)
    ensures (WordSquare(v) & 0x10 != 0) == (((((v & 0x4 != 0) != (v & 0x2_0000 != 0)) != (v & 0x4_0000 != 0)) != (v & 0x4000_0000 != 0)) != (v & 0x8000_0000 != 0))
    ensures (WordSquare(v) & 0x20 != 0) == ((v & 0x4000_0000 != 0) != (v & 0x8000_0000 != 0))
    ensures (WordSquare(v) & 0x40 != 0) == (((((v & 0x8 != 0) != (v & 0x1_0000 != 0)) != (v & 0x4_0000 != 0)) != (v & 0x8_0000 != 0)) != (v & 0x2000_0000 != 0))
    ensures (WordSquare(v) & 0x80 != 0) == (v & 0x1_0000 != 0)
  {}

  lemma SquareBits8(v: bv32)
    ensures (WordSquare(v) & 0x100 != 0) == ((((((v & 0x10 != 0) != (v & 0x2_0000 != 0)) != (v & 0x8_0000 != 0)) != (v & 0x10_0000 != 0)) != (v & 0x2000_0000 != 0)) != (v & 0x4000_0000 != 0))
    ensures (WordSquare(v) & 0x200 != 0) == (v & 0x2_0000 != 0)
    ensures (WordSquare(v) & 0x400 != 0) == ((((((v & 0x20 != 0) != (v & 0x4_0000 != 0)) != (v & 0x10_0000 != 0)) != (v & 0x20_0000 != 0)) != (v & 0x4000_0000 != 0)) != (v & 0x8000_0000 != 0))
    ensures (WordSquare(v) & 0x800 != 0) == (v & 0x4_0000 != 0)
  {}

  lemma SquareBits12(v: bv32)
    ensures (WordSquare(v) & 0x1000 != 0) == (((((v & 0x40 != 0) != (v & 0x8_0000 != 0)) != (v & 0x20_0000 != 0)) != (v & 0x40_0000 != 0)) != (v & 0x8000_0000 != 0))
    ensures (WordSquare(v) & 0x2000 != 0) == (v & 0x8_0000 != 0)
    ensures (WordSquare(v) & 0x4000 != 0) == ((((v & 0x80 != 0) != (v & 0x10_0000 != 0)) != (v & 0x40_0000 != 0)) != (v & 0x80_0000 != 0))
    ensures (WordSquare(v) & 0x8000 != 0) == (v & 0x10_0000 != 0)
  {}

  lemma SquareBits16(v: bv32)
    ensures (WordSquare(v) & 0x1_0000 != 0) == ((((v & 0x100 != 0) != (v & 0x20_0000 != 0)) != (v & 0x80_0000 != 0)) != (v & 0x100_0000 != 0))
    ensures (WordSquare(v) & 0x2_0000 != 0) == (v & 0x20_0000 != 0)
    ensures (WordSquare(v) & 0x4_0000 != 0) == ((((v & 0x200 != 0) != (v & 0x40_0000 != 0)) != (v & 0x100_0000 != 0)) != (v & 0x200_0000 != 0))
    ensures (WordSquare(v) & 0x8_0000 != 0) == (v & 0x40_0000 != 0)
  {}

  lemma SquareBits20(v: bv32)
    ensures (WordSquare(v) & 0x10_0000 != 0) == ((((v & 0x400 != 0) != (v & 0x80_0000 != 0)) != (v & 0x200_0000 != 0)) != (v & 0x400_0000 != 0))
    ensures (WordSquare(v) & 0x20_0000 != 0) == (v & 0x80_0000 != 0)
    ensures (WordSquare(v) & 0x40_0000 != 0) == ((((v & 0x800 != 0) != (v & 0x100_0000 != 0)) != (v & 0x400_0000 != 0)) != (v & 0x800_0000 != 0))
    ensures (WordSquare(v) & 0x80_0000 != 0) == (v & 0x100_0000 != 0)
  {}

  lemma SquareBits24(v: bv32)
    ensures (WordSquare(v) & 0x100_0000 != 0) == ((((v & 0x1000 != 0) != (v & 0x200_0000 != 0)) != (v & 0x800_0000 != 0)) != (v & 0x1000_0000 != 0))
    ensures (WordSquare(v) & 0x200_0000 != 0) == (v & 0x200_0000 != 0)
    ensures (WordSquare(v) & 0x400_0000 != 0) == ((((v & 0x2000 != 0) != (v & 0x400_0000 != 0)) != (v & 0x1000_0000 != 0)) != (v & 0x2000_0000 != 0))
    ensures (WordSquare(v) & 0x800_0000 != 0) == (v & 0x400_0000 != 0)
  {}

  lemma SquareBits28(v: bv32)
    ensures (WordSquare(v) & 0x1000_0000 != 0) == ((((v & 0x4000 != 0) != (v & 0x800_0000 != 0)) != (v & 0x2000_0000 != 0)) != (v & 0x4000_0000 != 0))
    ensures (WordSquare(v) & 0x2000_0000 != 0) == (v & 0x800_0000 != 0)
    ensures (WordSquare(v) & 0x4000_0000 != 0) == ((((v & 0x8000 != 0) != (v & 0x1000_0000 != 0)) != (v & 0x4000_0000 != 0)) != (v & 0x8000_0000 != 0))
    ensures (WordSquare(v) & 0x8000_0000 != 0) == (v & 0x1000_0000 != 0)
  {}

  lemma SquareWordBits0(v: bv32)
    ensures WordBit(WordSquare(v), 0) == (((WordBit(v, 0) != WordBit(v, 16)) != WordBit(v, 29)) != WordBit(v, 31))
    ensures WordBit(WordSquare(v), 1) == WordBit(v, 29)
    ensures WordBit(WordSquare(v), 2) == (((((WordBit(v, 1) != WordBit(v, 16)) != WordBit(v, 17)) != WordBit(v, 29)) != WordBit(v, 30)) != WordBit(v, 31))
    ensures WordBit(WordSquare(v), 3) == (WordBit(v, 29) != WordBit(v, 30))
  {
    hide WordSquare, WordBit;
    SquareBits0(v);
    WordBits(v);
    WordBits(WordSquare(v));
  }

  lemma SquareWordBits4(v: bv32)
    ensures WordBit(WordSquare(v), 4) == ((((WordBit(v, 2) != WordBit(v, 17)) != WordBit(v, 18)) != WordBit(v, 30)) != WordBit(v, 31))
    ensures WordBit(WordSquare(v), 5) == (WordBit(v, 30) != WordBit(v, 31))
    ensures WordBit(WordSquare(v), 6) == ((((WordBit(v, 3) != WordBit(v, 16)) != WordBit(v, 18)) != WordBit(v, 19)) != WordBit(v, 29))
    ensures WordBit(WordSquare(v), 7) == WordBit(v, 16)
  {
    hide WordSquare, WordBit;
    SquareBits4(v);
    WordBits(v);
    WordBits(WordSquare(v));
  }

  lemma SquareWordBits8(v: bv32)
    ensures WordBit(WordSquare(v), 8) == (((((WordBit(v, 4) != WordBit(v, 17)) != WordBit(v, 19)) != WordBit(v, 20)) != WordBit(v, 29)) != WordBit(v, 30))
    ensures WordBit(WordSquare(v), 9) == WordBit(v, 17)
    ensures WordBit(WordSquare(v), 10) == (((((WordBit(v, 5) != WordBit(v, 18)) != WordBit(v, 20)) != WordBit(v, 21)) != WordBit(v, 30)) != WordBit(v, 31))
    ensures WordBit(WordSquare(v), 11) == WordBit(v, 18)
  {
    hide WordSquare, WordBit;
    SquareBits8(v);
    WordBits(v);
    WordBits(WordSquare(v));
  }

  lemma SquareWordBits12(v: bv32)
    ensures WordBit(WordSquare(v), 12) == ((((WordBit(v, 6) != WordBit(v, 19)) != WordBit(v, 21)) != WordBit(v, 22)) != WordBit(v, 31))
    ensures WordBit(WordSquare(v), 13) == WordBit(v, 19)
    ensures WordBit(WordSquare(v), 14) == (((WordBit(v, 7) != WordBit(v, 20)) != WordBit(v, 22)) != WordBit(v, 23))
    ensures WordBit(WordSquare(v), 15) == WordBit(v, 20)
  {
    hide WordSquare, WordBit;
    SquareBits12(v);
    WordBits(v);
    WordBits(WordSquare(v));
  }

  lemma SquareWordBits16(v: bv32)
    ensures WordBit(WordSquare(v), 16) == (((WordBit(v, 8) != WordBit(v, 21)) != WordBit(v, 23)) != WordBit(v, 24))
    ensures WordBit(WordSquare(v), 17) == WordBit(v, 21)
    ensures WordBit(WordSquare(v), 18) == (((WordBit(v, 9) != WordBit(v, 22)) != WordBit(v, 24)) != WordBit(v, 25))
    ensures WordBit(WordSquare(v), 19) == WordBit(v, 22)
  {
    hide WordSquare, WordBit;
    SquareBits16(v);
    WordBits(v);
    WordBits(WordSquare(v));
  }

  lemma SquareWordBits20(v: bv32)
    ensures WordBit(WordSquare(v), 20) == (((WordBit(v, 10) != WordBit(v, 23)) != WordBit(v, 25)) != WordBit(v, 26))
    ensures WordBit(WordSquare(v), 21) == WordBit(v, 23)
    ensures WordBit(WordSquare(v), 22) == (((WordBit(v, 11) != WordBit(v, 24)) != WordBit(v, 26)) != WordBit(v, 27))
    ensures WordBit(WordSquare(v), 23) == WordBit(v, 24)
  {
    hide WordSquare, WordBit;
    SquareBits20(v);
    WordBits(v);
    WordBits(WordSquare(v));
  }

  lemma SquareWordBits24(v: bv32)
    ensures WordBit(WordSquare(v), 24) == (((WordBit(v, 12) != WordBit(v, 25)) != WordBit(v, 27)) != WordBit(v, 28))
    ensures WordBit(WordSquare(v), 25) == WordBit(v, 25)
    ensures WordBit(WordSquare(v), 26) == (((WordBit(v, 13) != WordBit(v, 26)) != WordBit(v, 28)) != WordBit(v, 29))
    ensures WordBit(WordSquare(v), 27) == WordBit(v, 26)
  {
    hide WordSquare, WordBit;
    SquareBits24(v);
    WordBits(v);
    WordBits(WordSquare(v));
  }

  lemma SquareWordBits28(v: bv32)
    ensures WordBit(WordSquare(v), 28) == (((WordBit(v, 14) != WordBit(v, 27)) != WordBit(v, 29)) != WordBit(v, 30))
    ensures WordBit(WordSquare(v), 29) == WordBit(v, 27)
    ensures WordBit(WordSquare(v), 30) == (((WordBit(v, 15) != WordBit(v, 28)) != WordBit(v, 30)) != WordBit(v, 31))
    ensures WordBit(WordSquare(v), 31) == WordBit(v, 28)
  {
    hide WordSquare, WordBit;
    SquareBits28(v);
    WordBits(v);
    WordBits(WordSquare(v));
  }

  lemma Squared0(v: bv32, j: nat)
    requires 0 <= j < 4
    ensures WordBit(WordSquare(v), j) == SquareBit(RegisterOf(v), j)
  {
    hide WordBit, WordSquare;
    SquareWordBits0(v);
  }

  lemma Squared4(v: bv32, j: nat)
    requires 4 <= j < 8
    ensures WordBit(WordSquare(v), j) == SquareBit(RegisterOf(v), j)
  {
    hide WordBit, WordSquare;
    SquareWordBits4(v);
  }

  lemma Squared8(v: bv32, j: nat)
    requires 8 <= j < 12
    ensures WordBit(WordSquare(v), j) == SquareBit(RegisterOf(v), j)
  {
    hide WordBit, WordSquare;
    SquareWordBits8(v);
  }

  lemma Squared12(v: bv32, j: nat)
    requires 12 <= j < 16
    ensures WordBit(WordSquare(v), j) == SquareBit(RegisterOf(v), j)
  {
    hide WordBit, WordSquare;
    SquareWordBits12(v);
  }

  lemma Squared16(v: bv32, j: nat)
    requires 16 <= j < 20
    ensures WordBit(WordSquare(v), j) == SquareBit(RegisterOf(v), j)
  {
    hide WordBit, WordSquare;
    SquareWordBits16(v);
  }

  lemma Squared20(v: bv32, j: nat)
    requires 20 <= j < 24
    ensures WordBit(WordSquare(v), j) == SquareBit(RegisterOf(v), j)
  {
    hide WordBit, WordSquare;
    SquareWordBits20(v);
  }

  lemma Squared24(v: bv32, j: nat)
    requires 24 <= j < 28
    ensures WordBit(WordSquare(v), j) == SquareBit(RegisterOf(v), j)
  {
    hide WordBit, WordSquare;
    SquareWordBits24(v);
  }

  lemma Squared28(v: bv32, j: nat)
    requires 28 <= j < 32
    ensures WordBit(WordSquare(v), j) == SquareBit(RegisterOf(v), j)
  {
    hide WordBit, WordSquare;
    SquareWordBits28(v);
  }

  lemma SquareOfWord(v: bv32)
    ensures RegisterOf(WordSquare(v)) == Square(RegisterOf(v))
  {
    hide WordBit, WordSquare, SquareBit;
    forall j: nat | j < 32 ensures RegisterOf(WordSquare(v))[j] == Square(RegisterOf(v))[j] {
      if j < 4 { Squared0(v, j); } else if j < 8 { Squared4(v, j); }
      else if j < 12 { Squared8(v, j); } else if j < 16 { Squared12(v, j); }
      else if j < 20 { Squared16(v, j); } else if j < 24 { Squared20(v, j); }
      else if j < 28 { Squared24(v, j); } else { Squared28(v, j); }
    }
  }

  // ---------------------------------------------------------------- some powers

  /** x^n, as a word. */
  predicate PowerIs(n: nat, v: bv32) {
    Power(One(), n) == RegisterOf(v)
  }

  function Zero(v: bv32): bv32 {
    WordSquare(v)
  }

  function Unit(v: bv32): bv32 {
    WordNext(WordSquare(v))
  }

  // The exponent doubled and a bit appended.
  lemma Appended(n: nat, v: bv32)
    requires PowerIs(n, v)
    ensures PowerIs(2 * n, Zero(v)) && PowerIs(2 * n + 1, Unit(v))
  {
    hide RegisterOf, WordSquare, WordNext, TimesX, Square;
    PowerSquare(n);
    SquareOfWord(v);
    NextOfWord(WordSquare(v));
  }

  // One hexadecimal digit appended, of those that are needed.
  function DigitAppended(v: bv32, d: nat): bv32
    requires d in {0x0, 0x3, 0x5, 0xF}
  {
    match d
    case 0x0 => Zero(Zero(Zero(Zero(v))))
    case 0x3 => Unit(Unit(Zero(Zero(v))))
    case 0x5 => Unit(Zero(Unit(Zero(v))))
    case _ => Unit(Unit(Unit(Unit(v))))
  }

  lemma HexDigit(n: nat, v: bv32, d: nat, w: bv32)
    requires PowerIs(n, v) && d in {0x0, 0x3, 0x5, 0xF} && w == DigitAppended(v, d)
    ensures PowerIs(16 * n + d, w)
  {
    hide PowerIs, Zero, Unit;
    Appended(n, v);
    if d == 0xF {
      Appended(2 * n + 1, Unit(v));
      Appended(4 * n + 3, Unit(Unit(v)));
      Appended(8 * n + 7, Unit(Unit(Unit(v))));
    } else {
      Appended(2 * n, Zero(v));
      Appended(4 * n, Zero(Zero(v)));
      Appended(4 * n + 1, Unit(Zero(v)));
      Appended(8 * n, Zero(Zero(Zero(v))));
      Appended(8 * n + 1, Unit(Zero(Zero(v))));
      Appended(8 * n + 2, Zero(Unit(Zero(v))));
    }
  }

  lemma NoPower()
    ensures PowerIs(0, 1)
  {
    forall j: nat | j < 32 ensures RegisterOf(1)[j] == One()[j] {}
  }

  // A third of 2^32 - 1.
  lemma PowerThird()
    ensures PowerIs(0x5555_5555, 0x6C4C_7C76)
  {
    hide PowerIs;
    NoPower();
    HexDigit(0, 1, 5, 0x20);
    HexDigit(0x5, 0x20, 5, 0x220_07A2);
    HexDigit(0x55, 0x220_07A2, 5, 0xCACD_27ED);
    HexDigit(0x555, 0xCACD_27ED, 5, 0x749A_28F6);
    HexDigit(0x5555, 0x749A_28F6, 5, 0xAED1_B564);
    HexDigit(0x5_5555, 0xAED1_B564, 5, 0x76CF_0D25);
    HexDigit(0x55_5555, 0x76CF_0D25, 5, 0x6BA6_1E2F);
    HexDigit(0x555_5555, 0x6BA6_1E2F, 5, 0x6C4C_7C76);
  }

  // A fifth.
  lemma PowerFifth()
    ensures PowerIs(0x3333_3333, 0xDDE3_D68D)
  {
    hide PowerIs;
    NoPower();
    HexDigit(0, 1, 3, 0x8);
    HexDigit(0x3, 0x8, 3, 0x628_0000);
    HexDigit(0x33, 0x628_0000, 3, 0x349F_6B04);
    HexDigit(0x333, 0x349F_6B04, 3, 0x2AB1_4C39);
    HexDigit(0x3333, 0x2AB1_4C39, 3, 0x97A5_0369);
    HexDigit(0x3_3333, 0x97A5_0369, 3, 0x518A_5016);
    HexDigit(0x33_3333, 0x518A_5016, 3, 0x4347_118C);
    HexDigit(0x333_3333, 0x4347_118C, 3, 0xDDE3_D68D);
  }

  // A seventeenth.
  lemma PowerSeventeenth()
    ensures PowerIs(0xF0F_0F0F, 0xB506_DD65)
  {
    hide PowerIs;
    NoPower();
    HexDigit(0, 1, 0xF, 0x8000);
    HexDigit(0xF, 0x8000, 0, 0x8995_C5A0);
    HexDigit(0xF0, 0x8995_C5A0, 0xF, 0xE734_B34B);
    HexDigit(0xF0F, 0xE734_B34B, 0, 0xFF65_7382);
    HexDigit(0xF0F0, 0xFF65_7382, 0xF, 0x8765_46D2);
    HexDigit(0xF_0F0F, 0x8765_46D2, 0, 0xC3F3_CA9B);
    HexDigit(0xF0_F0F0, 0xC3F3_CA9B, 0xF, 0xB506_DD65);
  }

  // One 257th.
  lemma Power257th()
    ensures PowerIs(0xFF_00FF, 0x30B5_3A60)
  {
    hide PowerIs;
    NoPower();
    HexDigit(0, 1, 0xF, 0x8000);
    HexDigit(0xF, 0x8000, 0xF, 0xE2E2_0062);
    HexDigit(0xFF, 0xE2E2_0062, 0, 0xF2FA_49DB);
    HexDigit(0xFF0, 0xF2FA_49DB, 0, 0xC2B9_4CB1);
    HexDigit(0xFF00, 0xC2B9_4CB1, 0xF, 0x9E43_99ED);
    HexDigit(0xF_F00F, 0x9E43_99ED, 0xF, 0x30B5_3A60);
  }

  // One 65537th.
  lemma Power65537th()
    ensures PowerIs(0xFFFF, 0xC224_41A5)
  {
    hide PowerIs;
    NoPower();
    HexDigit(0, 1, 0xF, 0x8000);
    HexDigit(0xF, 0x8000, 0xF, 0xE2E2_0062);
    HexDigit(0xFF, 0xE2E2_0062, 0xF, 0x24CE_FD49);
    HexDigit(0xFFF, 0x24CE_FD49, 0xF, 0xC224_41A5);
  }

  // 2^32 - 1 itself.
  lemma PowerWhole()
    ensures PowerIs(0xFFFF_FFFF, 0x1)
  {
    hide PowerIs;
    NoPower();
    HexDigit(0, 1, 0xF, 0x8000);
    HexDigit(0xF, 0x8000, 0xF, 0xE2E2_0062);
    HexDigit(0xFF, 0xE2E2_0062, 0xF, 0x24CE_FD49);
    HexDigit(0xFFF, 0x24CE_FD49, 0xF, 0xC224_41A5);
    HexDigit(0xFFFF, 0xC224_41A5, 0xF, 0xA686_02FD);
    HexDigit(0xF_FFFF, 0xA686_02FD, 0xF, 0xF48F_E135);
    HexDigit(0xFF_FFFF, 0xF48F_E135, 0xF, 0xD601_DF25);
    HexDigit(0xFFF_FFFF, 0xD601_DF25, 0xF, 0x1);
  }
}
