/** The period of the key generator: from every seed but zero, a value comes again exactly every
    2^32 - 1 steps, so the keys of the table are all different. */
module Period {
  import opened Bits
  import opened KeyTable
  import LongBits
  import opened Numbers
  import opened Powers

  const ORDER := 0xFFFF_FFFF

  // ---------------------------------------------------------------- the factors of 2^32 - 1

  lemma NotDivided(d: nat)
    requires 2 <= d <= 256
    ensures 65537 % d != 0
  {
    if d <= 64 { NotDividedTo64(d); } else if d <= 128 { NotDividedTo128(d); }
    else if d <= 192 { NotDividedTo192(d); } else { NotDividedTo256(d); }
  }

  lemma NotDividedTo64(d: nat)
    requires 2 <= d <= 64
    ensures 65537 % d != 0
  {}

  lemma NotDividedTo128(d: nat)
    requires 65 <= d <= 128
    ensures 65537 % d != 0
  {}

  lemma NotDividedTo192(d: nat)
    requires 129 <= d <= 192
    ensures 65537 % d != 0
  {}

  lemma NotDividedTo256(d: nat)
    requires 193 <= d <= 256
    ensures 65537 % d != 0
  {}

  // The Fermat primes, with the root up to which divisors must be looked for.
  predicate Fermat(p: nat, root: nat) {
    (p == 3 && root == 1) || (p == 5 && root == 2) || (p == 17 && root == 4) || (p == 257 && root == 16) || (p == 65537 && root == 256)
  }

  lemma NoSmallDivisor(p: nat, root: nat, d: nat)
    requires Fermat(p, root) && 2 <= d <= root
    ensures p % d != 0
  {
    if p == 65537 { NotDivided(d); }
  }

  lemma DivisorIsTrivial(p: nat, root: nat, g: nat, h: nat)
    requires Fermat(p, root) && g * h == p
    ensures g == 1 || g == p
  {
    BothPositive(g, h);
    ModUnique(p, g, h, 0);
    assert h * g == p;
    ModUnique(p, h, g, 0);
    if 2 <= g <= root { NoSmallDivisor(p, root, g); }
    if 2 <= h <= root { NoSmallDivisor(p, root, h); }
    if g > root && h > root { Larger(g, h, root + 1); }
  }

  lemma BothPositive(g: nat, h: nat)
    requires g * h > 0
    ensures g > 0 && h > 0
  {}

  lemma Larger(g: nat, h: nat, t: nat)
    requires g >= t && h >= t
    ensures g * h >= t * t
  {
    assert g * h >= t * h >= t * t;
  }

  lemma {:induction false} Euclid(a: nat, b: nat) returns (g: nat, x: int, y: int, q: nat, r: nat)
    requires a > 0 || b > 0
    ensures g > 0 && a * x + b * y == g && a == g * q && b == g * r
    decreases b
  {
    if b == 0 {
      g, x, y, q, r := a, 1, 0, 1, 0;
    } else {
      var x1, y1, q1, r1;
      g, x1, y1, q1, r1 := Euclid(b, a % b);
      var d := a / b;
      assert a == b * d + a % b;
      x, y, q, r := y1, x1 - d * y1, q1 * d + r1, q1;
      Combine(a, b, d, x1, y1);
      assert g * (q1 * d + r1) == (g * q1) * d + g * r1;
    }
  }

  lemma Combine(a: nat, b: nat, d: nat, x1: int, y1: int)
    ensures a * y1 + b * (x1 - d * y1) == b * x1 + (a - b * d) * y1
  {}

  lemma NotSmaller(g: nat, q: nat, k: nat)
    requires g > k > 0
    ensures g * q != k
  {
    if q >= 1 { assert g * q >= g; }
  }

  // A divisor of p * m without the prime p in it divides m.
  lemma WithoutPrime(p: nat, root: nat, m: nat, r: nat, h: int) returns (h': int)
    requires Fermat(p, root) && r > 0 && p * m == r * h && r % p != 0
    ensures m == r * h'
  {
    var g, x, y, q, s := Euclid(r, p);
    DivisorIsTrivial(p, root, g, s);
    if g == p { ModUnique(r, p, q, 0); }
    assert g == 1;
    h' := m * x + h * y;
    Factored(m, r, p, x, y, h);
  }

  lemma Factored(m: int, r: int, p: int, x: int, y: int, h: int)
    requires r * x + p * y == 1 && p * m == r * h
    ensures m == r * (m * x + h * y)
  {
    assert m == m * (r * x + p * y) == r * (m * x) + (p * m) * y;
    assert (p * m) * y == (r * h) * y == r * (h * y);
  }

  lemma OnlyOne(r: nat, h: int)
    requires r * h == 1
    ensures r == 1
  {
    ModUnique(1, r, h, 0);
  }

  // Every divisor of 2^32 - 1 but 1 has one of its primes in it.
  lemma PrimeIn(r: nat, h: nat) returns (p: nat, root: nat)
    requires r * h == ORDER && r > 1
    ensures Fermat(p, root) && r % p == 0
  {
    if r % 3 == 0 { return 3, 1; }
    var h1 := WithoutPrime(3, 1, 5 * 17 * 257 * 65537, r, h);
    if r % 5 == 0 { return 5, 2; }
    var h2 := WithoutPrime(5, 2, 17 * 257 * 65537, r, h1);
    if r % 17 == 0 { return 17, 4; }
    var h3 := WithoutPrime(17, 4, 257 * 65537, r, h2);
    if r % 257 == 0 { return 257, 16; }
    var h4 := WithoutPrime(257, 16, 65537, r, h3);
    if r % 65537 == 0 { return 65537, 256; }
    var h5 := WithoutPrime(65537, 256, 1, r, h4);
    OnlyOne(r, h5);
  }

  // ---------------------------------------------------------------- the order of x

  lemma IsOne(n: nat, v: bv32)
    requires PowerIs(n, v)
    ensures v == 1 ==> Fixed(One(), n)
    ensures v & 0x8000_0000 != 0 || v & 0x40 != 0 ==> !Fixed(One(), n)
  {
    hide WordBit, Power;
    NoPower();
    assert RegisterOf(1) == One() by { NoSteps(One()); }
    WordBits(v);
    assert RegisterOf(v)[31] == WordBit(v, 31) && RegisterOf(v)[6] == WordBit(v, 6);
  }

  /** 2^32 - 1 steps lead from 1 back to 1. */
  lemma OneReturns(n: nat)
    requires n == ORDER
    ensures Fixed(One(), n)
  {
    hide PowerIs, Fixed;
    PowerWhole();
    IsOne(n, 1);
  }

  // But a prime part of that does not.
  lemma PartDoesNotReturn(p: nat, root: nat, n: nat)
    requires Fermat(p, root) && p * n == ORDER
    ensures !Fixed(One(), n)
  {
    hide PowerIs, Fixed;
    if p == 3 { PowerThird(); IsOne(n, 0x6C4C_7C76); }
    else if p == 5 { PowerFifth(); IsOne(n, 0xDDE3_D68D); }
    else if p == 17 { PowerSeventeenth(); IsOne(n, 0xB506_DD65); }
    else if p == 257 { Power257th(); IsOne(n, 0x30B5_3A60); }
    else { Power65537th(); IsOne(n, 0xC224_41A5); }
  }

  // What fixes under m and n fixes under a sum of multiples of them.
  lemma FixedCombination(r: Register, m: nat, n: nat, x: int, y: int, g: nat)
    requires Fixed(r, m) && Fixed(r, n) && m * x + n * y == g && n > 0
    ensures Fixed(r, g)
  {
    hide Power;
    var t := (if x < 0 then -x else 0) + (if y < 0 then 0 else y);
    var x', c := x + n * t, m * t - y;
    Shifted(m, n, x, y, t, g);
    if m == 0 {
      if y > 0 { FixedTimes(r, n, y); assert n * y == g; } else { assert n * y <= 0; NoSteps(r); }
    } else {
      AtLeast(n, t);
      AtLeast(m, t);
      FixedTimes(r, m, x');
      FixedTimes(r, n, c);
      PowerAdd(r, n * c, g);
      assert n * c + g == m * x';
    }
  }

  lemma AtLeast(n: nat, t: nat)
    requires n > 0
    ensures n * t >= t
  {}

  lemma Shifted(m: int, n: int, x: int, y: int, t: int, g: int)
    requires m * x + n * y == g
    ensures m * (x + n * t) == g + n * (m * t - y)
  {
    assert m * (n * t) == n * (m * t);
  }

  /** Fewer than 2^32 - 1 steps, but some, never lead from 1 back. */
  lemma NoShortPeriod(k: nat)
    requires 0 < k < ORDER
    ensures !Fixed(One(), k)
  {
    hide Fixed;
    if Fixed(One(), k) {
      var n := 0xFFFF_FFFF;
      OneReturns(n);
      var g, x, y, q, r := Euclid(k, n);
      FixedCombination(One(), k, n, x, y, g);
      assert g <= k by { if g > k { NotSmaller(g, q, k); } }
      BothPositive(g, r);
      assert r * g == ORDER;
      var p, root := PrimeIn(r, g);
      var part := g * (r / p);
      FixedTimes(One(), g, r / p);
      assert r == p * (r / p) + r % p;
      assert p * part == g * (p * (r / p));
      PartDoesNotReturn(p, root, part);
    }
  }

  /** So n steps lead from 1 back exactly when n is a multiple of 2^32 - 1. */
  lemma OneReturnsIff(n: nat)
    ensures Fixed(One(), n) <==> n % ORDER == 0
  {
    hide Power;
    var q, m := n / ORDER, n % ORDER;
    OneReturns(ORDER);
    FixedTimes(One(), ORDER, q);
    PowerAdd(One(), ORDER * q, m);
    assert n == ORDER * q + m;
    NoSteps(One());
    if m > 0 { NoShortPeriod(m); }
  }

  // ---------------------------------------------------------------- every register but zero is a power of x

  // The bits read as a number, lowest first.
  function NumberOf(b: seq<bool>): nat {
    if b == [] then 0 else (if b[0] then 1 else 0) + 2 * NumberOf(b[1..])
  }

  lemma {:induction false} NumberBelow(b: seq<bool>)
    ensures NumberOf(b) < Pow2(|b|)
  {
    if b != [] { NumberBelow(b[1..]); }
  }

  lemma {:induction false} NumberInjective(a: seq<bool>, b: seq<bool>)
    requires |a| == |b| && NumberOf(a) == NumberOf(b)
    ensures a == b
  {
    if a != [] {
      NumberInjective(a[1..], b[1..]);
      assert a == [a[0]] + a[1..] && b == [b[0]] + b[1..];
    }
  }

  lemma {:induction false} NumberOfZeros(n: nat)
    ensures NumberOf(Zeros(n)) == 0
  {
    if n > 0 {
      NumberOfZeros(n - 1);
      assert Zeros(n)[1..] == Zeros(n - 1);
    }
  }

  lemma NextInjective(a: Register, b: Register)
    requires TimesX(a) == TimesX(b)
    ensures a == b
  {
    hide TimesX, DivX;
    TimesXInvertible(a);
    TimesXInvertible(b);
  }

  lemma {:induction false} PowerInjective(a: Register, b: Register, n: nat)
    requires Power(a, n) == Power(b, n)
    ensures a == b
  {
    hide TimesX;
    if n > 0 {
      NextInjective(Power(a, n - 1), Power(b, n - 1));
      PowerInjective(a, b, n - 1);
    }
  }

  lemma {:induction false} PowerZeroIff(r: Register, n: nat)
    ensures Power(r, n) == Zeros(32) <==> r == Zeros(32)
  {
    hide TimesX;
    if n > 0 {
      PowerZeroIff(r, n - 1);
      TimesXZero(Power(r, n - 1));
    }
  }

  function Interval(n: nat): (s: set<int>)
    ensures forall x :: x in s <==> 0 < x <= n
    ensures |s| == n
  {
    if n == 0 then {} else Interval(n - 1) + {n}
  }

  // The numbers of the first n powers.
  function Reached(n: nat): set<int> {
    set i | 0 <= i < n :: NumberOf(Power(One(), i))
  }

  lemma PowersDiffer(i: nat, j: nat)
    requires i < j < ORDER
    ensures NumberOf(Power(One(), i)) != NumberOf(Power(One(), j))
  {
    hide Power, NumberOf;
    if NumberOf(Power(One(), i)) == NumberOf(Power(One(), j)) {
      NumberInjective(Power(One(), i), Power(One(), j));
      PowerAdd(One(), j - i, i);
      PowerInjective(One(), Power(One(), j - i), i);
      NoShortPeriod(j - i);
    }
  }

  lemma {:induction false} ReachedSize(n: nat)
    requires n <= ORDER
    ensures |Reached(n)| == n
  {
    hide Power, NumberOf;
    if n == 0 {
      assert Reached(0) == {};
    } else {
      ReachedSize(n - 1);
      var last := NumberOf(Power(One(), n - 1));
      assert last !in Reached(n - 1) by {
        forall i: nat | i < n - 1 ensures NumberOf(Power(One(), i)) != last { PowersDiffer(i, n - 1); }
      }
      assert Reached(n) == Reached(n - 1) + {last};
    }
  }

  lemma SameSize(a: set<int>, b: set<int>)
    requires a <= b && |a| == |b|
    ensures a == b
  {
    assert b == a + (b - a);
    assert |b| == |a| + |b - a|;
  }

  lemma NumberInRange(r: Register)
    requires r != Zeros(32)
    ensures 0 < NumberOf(r) <= ORDER
  {
    hide NumberOf;
    NumberBelow(r);
    WordRange();
    NumberOfZeros(32);
    if NumberOf(r) == 0 { NumberInjective(r, Zeros(32)); }
  }

  lemma WordRange()
    ensures Pow2(32) == ORDER + 1
  {
    assert Pow2(8) == 0x100;
    assert Pow2(16) == 0x1_0000;
    assert Pow2(24) == 0x100_0000;
  }

  lemma OneIsNotZero()
    ensures One() != Zeros(32)
  {
    assert One()[0];
  }

  /** Every register but zero is a power of x. */
  lemma EveryRegisterIsAPower(r: Register, n: nat) returns (i: nat)
    requires r != Zeros(32) && n == ORDER
    ensures i < n && r == Power(One(), i)
  {
    hide Power, NumberOf;
    forall x | x in Reached(n) ensures x in Interval(n) {
      var i: nat :| i < n && x == NumberOf(Power(One(), i));
      OneIsNotZero();
      PowerZeroIff(One(), i);
      NumberInRange(Power(One(), i));
    }
    ReachedSize(n);
    SameSize(Reached(n), Interval(n));
    NumberInRange(r);
    assert NumberOf(r) in Reached(n);
    i :| 0 <= i < n && NumberOf(r) == NumberOf(Power(One(), i));
    NumberInjective(r, Power(One(), i));
  }

  /** Every register but zero has the whole period. */
  lemma RegisterReturnsIff(r: Register, n: nat)
    requires r != Zeros(32)
    ensures Fixed(r, n) <==> n % ORDER == 0
  {
    hide Power;
    var i := EveryRegisterIsAPower(r, ORDER);
    PowerAdd(One(), i, n);
    PowerAdd(One(), n, i);
    if Fixed(r, n) { PowerInjective(Power(One(), n), One(), i); }
    OneReturnsIff(n);
  }

  // ---------------------------------------------------------------- the values

  lemma {:induction false} RegistersStep(seed: bv64, n: nat)
    ensures LowRegister(Iterate(seed, n)) == Power(LowRegister(seed), n)
    ensures HighRegister(Iterate(seed, n)) == Power(HighRegister(seed), n)
  {
    hide LowRegister, HighRegister, TimesX, NextValue;
    if n > 0 {
      RegistersStep(seed, n - 1);
      NextValueSteps(Iterate(seed, n - 1));
    }
  }

  lemma SameRegisters(v: bv64, w: bv64)
    requires LowRegister(v) == LowRegister(w) && HighRegister(v) == HighRegister(w)
    ensures v == w
  {
    hide LowBits, FromLowBits;
    NumberRoundTrip(v);
    NumberRoundTrip(w);
    assert LowRegister(v) + HighRegister(v) == LowBits(v, 64);
    assert LowRegister(w) + HighRegister(w) == LowBits(w, 64);
  }

  lemma ZeroHasNoBits()
    ensures LowRegister(0) == Zeros(32) && HighRegister(0) == Zeros(32)
  {
    hide LowBits, FromLowBits;
    ZerosAreZero(64);
    BitsRoundTrip(Zeros(64));
  }

  lemma {:induction false} ZerosAreZero(n: nat)
    ensures FromLowBits(Zeros(n)) == 0
  {
    if n > 0 {
      ZerosAreZero(n - 1);
      assert Zeros(n)[1..] == Zeros(n - 1);
    }
  }

  lemma SeedReturnsIff(seed: bv64, n: nat)
    ensures Iterate(seed, n) == seed <==> seed == 0 || n % ORDER == 0
  {
    hide LowRegister, HighRegister, Iterate, Power;
    var low, high := LowRegister(seed), HighRegister(seed);
    RegistersStep(seed, n);
    ZeroHasNoBits();
    if Fixed(low, n) && Fixed(high, n) { SameRegisters(Iterate(seed, n), seed); }
    if low == Zeros(32) && high == Zeros(32) { SameRegisters(seed, 0); }
    PowerZeroIff(low, n);
    PowerZeroIff(high, n);
    if low != Zeros(32) { RegisterReturnsIff(low, n); }
    if high != Zeros(32) { RegisterReturnsIff(high, n); }
  }

  lemma {:induction false} IterateAdd(seed: bv64, m: nat, n: nat)
    ensures Iterate(seed, m + n) == Iterate(Iterate(seed, m), n)
    decreases n
  {
    hide NextValue;
    if n > 0 { IterateAdd(seed, m, n - 1); }
  }

  /** The generator gives the same value twice exactly at a distance that is a multiple of 2^32 - 1,
      or always from the seed 0. */
  lemma ValuesRepeatIff(seed: bv64, i: nat, j: nat)
    requires i <= j
    ensures Iterate(seed, i) == Iterate(seed, j) <==> seed == 0 || (j - i) % ORDER == 0
  {
    hide Iterate;
    SeedReturnsIff(seed, j - i);
    if Iterate(seed, i) == Iterate(seed, j) && i < j { EqualEntriesRepeatSeed(seed, i, j); }
    if Iterate(seed, j - i) == seed { IterateAdd(seed, j - i, i); }
  }

  /** So the first 2^32 - 1 values from a seed other than 0 are all different; the keys of the table
      are among them. */
  lemma KeysDistinct(seed: bv64, i: nat, j: nat)
    requires seed != 0 && i < j < ORDER
    ensures Iterate(seed, i) != Iterate(seed, j)
  {
    hide Iterate;
    ValuesRepeatIff(seed, i, j);
    assert (j - i) % ORDER == j - i;
  }

  /** initKeyTable: the first iterates of the seed in use, no key twice. */
  method InitKeyTable() returns (table: array<bv64>)
    ensures fresh(table) && table.Length == TABLE_SIZE
    ensures table.Length == 16384
    ensures table[0] == 0x5555_5555_5555_5557 && table[1] == 0xAAAA_AAAA_AAAA_AAAE && table[2] == 0x5555_5591_5555_5599
    ensures forall i: nat :: i < TABLE_SIZE ==> table[i] == Iterate(INIT_SEED, i)
    ensures forall i: nat, j: nat :: i < j < TABLE_SIZE ==> table[i] != table[j]
  {
    hide Iterate;
    table := new bv64[TABLE_SIZE](_ => 0);
    DesKeyInit(table, TABLE_SIZE, INIT_SEED);
    LongBits.FirstValues();
    forall i: nat, j: nat | i < j < TABLE_SIZE ensures table[i] != table[j] {
      KeysDistinct(INIT_SEED, i, j);
    }
  }
}
