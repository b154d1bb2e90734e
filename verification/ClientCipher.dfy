/** client/DES/cipher.c: own_encrypt and own_decrypt, straight-line code on 32-bit words that
    hold 16-bit values, and the bit counter they use. */
module ClientCipher {
  import opened Numbers
  import opened WordCipher

  /** cal_nonzero_bits, for any C int: `%` and `/` truncate toward zero, so a negative number
      counts nothing. */
  method CalNonzeroBits(dataIn: int) returns (result: nat)
    requires -0x8000_0000 <= dataIn < 0x8000_0000
    ensures result == if dataIn < 0 then 0 else PopCount(dataIn)
  {
    var data := dataIn;
    result := 0;
    PowersOfTwo();
    var i := 0;
    while i < 32 && data != 0
      invariant 0 <= i <= 32
      invariant if i == 32 then data == 0 else 0 - Pow2(31 - i) <= data <= Pow2(31 - i)
      invariant if dataIn < 0 then data <= 0 && result == 0 else 0 <= data && result + PopCount(data) == PopCount(dataIn)
    {
      CountStep(data, i);
      if TruncatedMod2(data) == 1 {
        result := result + 1;
        data := TruncatedHalf(data - 1);
      } else {
        data := TruncatedHalf(data);
      }
      i := i + 1;
    }
  }

  lemma PowersOfTwo()
    ensures Pow2(31) == 0x8000_0000
  {
    assert Pow2(8) == 0x100;
    assert Pow2(16) == 0x1_0000;
    assert Pow2(24) == 0x100_0000;
  }

  lemma CountStep(data: int, i: nat)
    requires i <= 31 && data != 0 && 0 - Pow2(31 - i) <= data <= Pow2(31 - i)
    ensures var next := if TruncatedMod2(data) == 1 then TruncatedHalf(data - 1) else TruncatedHalf(data);
            && (if i == 31 then next == 0 else 0 - Pow2(30 - i) <= next <= Pow2(30 - i))
            && (data < 0 ==> next <= 0 && TruncatedMod2(data) != 1)
            && (0 < data ==> 0 <= next && PopCount(data) == PopCount(next) + (if TruncatedMod2(data) == 1 then 1 else 0))
  {
    assert i < 31 ==> Pow2(31 - i) == 2 * Pow2(30 - i);
  }

  // C's `/ 2` and `% 2`.
  function TruncatedHalf(n: int): int {
    if n < 0 then -(-n / 2) else n / 2
  }

  function TruncatedMod2(n: int): int {
    if n < 0 then -(-n % 2) else n % 2
  }

  /** A word of the 64-bit key, `(key >> 16 * i) & 0xffff`. */
  function KeyWord(key: bv64, i: nat): bv16
    requires i < 4
  {
    match i
    case 0 => (key & 0xFFFF) as bv16
    case 1 => ((key >> 16) & 0xFFFF) as bv16
    case 2 => ((key >> 32) & 0xFFFF) as bv16
    case _ => ((key >> 48) & 0xFFFF) as bv16
  }

  function KeyWords(key: bv64): (words: seq<bv16>)
    ensures |words| == 4
  {
    [KeyWord(key, 0), KeyWord(key, 1), KeyWord(key, 2), KeyWord(key, 3)]
  }

  /** The bytes of the four key words; KeyBytesInMemory says that they are the key in memory. */
  function KeyBytes(key: bv64): (bytes: seq<bv8>)
    ensures |bytes| == 8
  {
    Bytes(KeyWords(key))
  }

  // ---------------------------------------------------------------- one word

  // The steps of own_encrypt and own_decrypt on unsigned 32-bit values, named so that each law
  // below is about a few of them at a time.
  function High(y: bv32): bv32 {
    y >> 16
  }

  function Low(y: bv32): bv32 {
    y & 0x0000FFFF
  }

  function Mix(a: bv32, b: bv32): bv32 {
    a ^ b
  }

  function Folded(y: bv32): bv32 {
    Mix(High(y), Low(y))
  }

  function Up(y: bv32): bv32 {
    y << 1
  }

  function Down(y: bv32): bv32 {
    y >> 1
  }

  function Narrow(y: bv32): bv16 {
    (y & 0xFFFF) as bv16
  }

  function Wide(w: bv16): bv32 {
    w as bv32
  }

  lemma NarrowWide(w: bv16)
    ensures Narrow(Wide(w)) == w && Wide(w) <= 0xFFFF
  {}

  // Narrow(Folded(y)), written out.
  function Turned(y: bv32): bv16 {
    (((y >> 16) ^ (y & 0xFFFF)) & 0xFFFF) as bv16
  }

  lemma TurnedIs(y: bv32)
    ensures Narrow(Folded(y)) == Turned(y)
  {}

  lemma TurnedUp(y: bv32)
    ensures TopClear(y) ==> Turned(Up(y)) == LeftOne(Turned(y))
  {}

  lemma TurnedDown(y: bv32)
    ensures BottomClear(y) ==> Turned(Down(y)) == RightOne(Turned(y))
  {}

  /** While no bit leaves the 32-bit word, folding it onto 16 bits turns one place with each
      place it is shifted. */
  lemma FoldUp(y: bv32)
    ensures TopClear(y) ==> Narrow(Folded(Up(y))) == LeftOne(Narrow(Folded(y)))
  {
    hide Narrow, Folded, Turned, Up, LeftOne, TopClear;
    TurnedIs(y);
    TurnedIs(Up(y));
    TurnedUp(y);
  }

  lemma FoldDown(y: bv32)
    ensures BottomClear(y) ==> Narrow(Folded(Down(y))) == RightOne(Narrow(Folded(y)))
  {
    hide Narrow, Folded, Turned, Down, RightOne, BottomClear;
    TurnedIs(y);
    TurnedIs(Down(y));
    TurnedDown(y);
  }

  predicate TopClear(y: bv32) {
    y & 0x8000_0000 == 0
  }

  predicate BottomClear(y: bv32) {
    y & 1 == 0
  }

  lemma FoldFits(y: bv32)
    ensures Folded(y) <= 0xFFFF
  {}

  lemma ShlIsUp(y: bv32, n: nat)
    ensures Shl(y, n + 1) == Up(Shl(y, n)) && Shr(y, n + 1) == Down(Shr(y, n))
  {}

  predicate Inside(a: bv32, mask: bv32) {
    a & mask == a
  }

  // `x << 16`, as own_decrypt starts
  function Raised(z: bv32): bv32 {
    z << 16
  }

  // Shifted 16-bit values stay inside their mask, so nothing leaves the word before sixteen places.
  lemma InsideMask(z: bv32, n: nat)
    requires z <= 0xFFFF
    ensures Inside(Shl(z, n), Shl(0xFFFF, n))
    ensures Inside(Shr(Raised(z), n), Shr(0xFFFF_0000, n))
  {
    InsideAtFirst(z);
    hide Inside, Raised, Shl, Shr;
    InsideShifted(z, 0xFFFF, n);
    InsideShifted(Raised(z), 0xFFFF_0000, n);
  }

  lemma {:induction false} InsideShifted(a: bv32, m: bv32, n: nat)
    requires Inside(a, m)
    ensures Inside(Shl(a, n), Shl(m, n)) && Inside(Shr(a, n), Shr(m, n))
  {
    hide Inside, Up, Down;
    if n > 0 {
      InsideShifted(a, m, n - 1);
      ShlIsUp(a, n - 1);
      ShlIsUp(m, n - 1);
      hide Shl, Shr;
      MaskKept(Shl(a, n - 1), Shl(m, n - 1));
      MaskKept(Shr(a, n - 1), Shr(m, n - 1));
    }
  }

  lemma InsideAtFirst(z: bv32)
    requires z <= 0xFFFF
    ensures Inside(z, 0xFFFF) && Inside(Raised(z), 0xFFFF_0000)
  {}

  lemma MaskKept(a: bv32, m: bv32)
    requires Inside(a, m)
    ensures Inside(Up(a), Up(m)) && Inside(Down(a), Down(m))
  {}

  lemma MasksClear(n: nat)
    requires n <= 15
    ensures TopClear(Shl(0xFFFF, n)) && BottomClear(Shr(0xFFFF_0000, n))
  {
    if n == 0 {} else if n == 1 {} else if n == 2 {} else if n == 3 {} else if n == 4 {} else if n == 5 {}
    else if n == 6 {} else if n == 7 {} else if n == 8 {} else if n == 9 {} else if n == 10 {} else if n == 11 {}
    else if n == 12 {} else if n == 13 {} else if n == 14 {} else { assert n == 15; }
  }

  lemma MaskedTop(a: bv32, m: bv32)
    ensures Inside(a, m) && TopClear(m) ==> TopClear(a)
  {}

  lemma MaskedBottom(a: bv32, m: bv32)
    ensures Inside(a, m) && BottomClear(m) ==> BottomClear(a)
  {}

  lemma NothingLeaves(z: bv32, n: nat)
    requires z <= 0xFFFF && n <= 15
    ensures TopClear(Shl(z, n)) && BottomClear(Shr(Raised(z), n))
  {
    hide Shl, Shr, Raised, Inside, TopClear, BottomClear;
    InsideMask(z, n);
    MasksClear(n);
    MaskedTop(Shl(z, n), Shl(0xFFFF, n));
    MaskedBottom(Shr(Raised(z), n), Shr(0xFFFF_0000, n));
  }

  /** Lines 196-197: folding the word shifted left is turning it left. */
  lemma {:induction false} FoldedShl(z: bv32, n: nat)
    requires z <= 0xFFFF && n <= 16
    ensures Narrow(Folded(Shl(z, n))) == RotatedLeft(Narrow(z), n)
  {
    hide Folded, Narrow, LeftOne, Up, TopClear, BottomClear, Shr;
    if n == 0 {
      FoldNothing(z);
    } else {
      FoldedShl(z, n - 1);
      NothingLeaves(z, n - 1);
      ShlIsUp(z, n - 1);
      hide Shl;
      FoldUp(Shl(z, n - 1));
    }
  }

  /** Lines 253 and 258: folding the raised word shifted right is turning it right. */
  lemma {:induction false} FoldedShr(z: bv32, n: nat)
    requires z <= 0xFFFF && n <= 16
    ensures Narrow(Folded(Shr(Raised(z), n))) == RotatedRight(Narrow(z), n)
  {
    hide Folded, Narrow, RightOne, Down, TopClear, BottomClear, Raised, Shl;
    if n == 0 {
      FoldNothing(z);
    } else {
      FoldedShr(z, n - 1);
      NothingLeaves(z, n - 1);
      ShlIsUp(Raised(z), n - 1);
      hide Shr;
      FoldDown(Shr(Raised(z), n - 1));
    }
  }

  lemma FoldNothing(z: bv32)
    requires z <= 0xFFFF
    ensures Folded(z) == z && Folded(Raised(z)) == z
  {}

  /** One word of own_encrypt (lines 195-209) and of own_decrypt (lines 248-261). */
  function EncryptedWord(previous: bv32, clear: bv32, key: bv32, count: nat): bv32 {
    Mix(Folded(Shl(Mix(previous, clear), count)), key)
  }

  function DecryptedWord(previous: bv32, cipher: bv32, key: bv32, count: nat): bv32 {
    Mix(Folded(Shr(Raised(Mix(key, cipher)), count)), previous)
  }

  lemma MixWide(a: bv16, b: bv16)
    ensures Mix(Wide(a), Wide(b)) == Wide(Xor(a, b))
  {}

  lemma WideNarrow(z: bv32)
    requires z <= 0xFFFF
    ensures Wide(Narrow(z)) == z
  {}

  /** Every word of the straight-line code is a 16-bit value, and the one the cipher asks for. */
  lemma WordsFit(previous: bv16, w: bv16, key: bv16)
    ensures EncryptedWord(Wide(previous), Wide(w), Wide(key), Ones(key)) == Wide(EncipheredWord(previous, w, key))
    ensures DecryptedWord(Wide(previous), Wide(w), Wide(key), Ones(key)) == Wide(DecipheredWord(previous, w, key))
  {
    hide Mix, Wide, Narrow, Folded, Raised, Xor, Shl, Shr, RotatedLeft, RotatedRight, Ones;
    var n := Ones(key);
    MixWide(previous, w);
    NarrowWide(Xor(previous, w));
    FoldedShl(Wide(Xor(previous, w)), n);
    FoldFits(Shl(Wide(Xor(previous, w)), n));
    WideNarrow(Folded(Shl(Wide(Xor(previous, w)), n)));
    MixWide(RotatedLeft(Xor(previous, w), n), key);
    MixWide(key, w);
    XorCancels(key, w);
    NarrowWide(Xor(key, w));
    FoldedShr(Wide(Xor(key, w)), n);
    FoldFits(Shr(Raised(Wide(Xor(key, w))), n));
    WideNarrow(Folded(Shr(Raised(Wide(Xor(key, w))), n)));
    MixWide(RotatedRight(Xor(w, key), n), previous);
  }

  // ---------------------------------------------------------------- packing

  // `>> 8` on a signed long long, which copies the sign.
  function SignedDown8(v: bv64): bv64 {
    if v & 0x8000_0000_0000_0000 == 0 then v >> 8 else (v >> 8) | 0xFF00_0000_0000_0000
  }

  function FirstByte(v: bv64): bv8 {
    (v & 0xFF) as bv8
  }

  /** The bytes longlong2char writes. */
  function CharsOf(v: bv64, n: nat): (bytes: seq<bv8>)
    ensures |bytes| == n
    decreases n
  {
    if n == 0 then [] else [FirstByte(v)] + CharsOf(SignedDown8(v), n - 1)
  }

  method Longlong2Char(longIn: bv64, strOut: array<bv8>, at: nat)
    requires at + 8 <= strOut.Length
    modifies strOut
    ensures strOut[at..at + 8] == CharsOf(longIn, 8)
    ensures forall n :: 0 <= n < strOut.Length && !(at <= n < at + 8) ==> strOut[n] == old(strOut[n])
  {
    hide FirstByte, SignedDown8, CharsOf;
    var v := longIn;
    CharsFirst(v, 0);
    for i := 0 to 8
      invariant forall n :: 0 <= n < strOut.Length && !(at <= n < at + 8) ==> strOut[n] == old(strOut[n])
      invariant strOut[at..at + i] + CharsOf(v, 8 - i) == CharsOf(longIn, 8)
    {
      ghost var written, b := strOut[at..at + i], FirstByte(v);
      CharsFirst(v, 7 - i);
      strOut[at + i] := FirstByte(v);
      v := SignedDown8(v);
      assert strOut[at..at + i + 1] == written + [b];
      assert written + [b] + CharsOf(v, 7 - i) == written + ([b] + CharsOf(v, 7 - i));
      CharsFirst(v, 0);
    }
  }

  // `result << 16 | word`
  function Joined(rest: bv64, word: bv32): bv64 {
    (rest << 16) | (word as bv64)
  }

  // The two values SignedDown8 can take.
  predicate IsDown(v: bv64, d: bv64) {
    d == v >> 8 || d == (v >> 8) | 0xFF00_0000_0000_0000
  }

  lemma DownIs(v: bv64, d: bv64)
    requires d == SignedDown8(v)
    ensures IsDown(v, d)
  {}

  lemma FirstOfJoined(rest: bv64, w: bv16, v: bv64, b: bv8, low: bv8)
    requires v == (rest << 16) | (w as bv64) && b == (v & 0xFF) as bv8 && low == (w & 0xFF) as bv8
    ensures b == low
  {}

  lemma SecondOfJoined(rest: bv64, w: bv16, v: bv64, d: bv64, b: bv8, high: bv8)
    requires v == (rest << 16) | (w as bv64) && IsDown(v, d) && b == (d & 0xFF) as bv8 && high == (w >> 8) as bv8
    ensures b == high
  {}

  lemma RestOfJoined(rest: bv64, w: bv16, v: bv64, d: bv64, e: bv64)
    requires v == (rest << 16) | (w as bv64) && IsDown(v, d) && IsDown(d, e)
    ensures e & 0xFFFF_FFFF_FFFF == rest & 0xFFFF_FFFF_FFFF
  {}

  lemma FirstByteIs(a: bv64)
    ensures FirstByte(a) == (a & 0xFF) as bv8
  {}

  lemma HalvesAre(w: bv16)
    ensures LowByte(w) == (w & 0xFF) as bv8 && HighByte(w) == (w >> 8) as bv8
  {}

  lemma JoinedIs(rest: bv64, w: bv16)
    ensures Joined(rest, Wide(w)) == (rest << 16) | (w as bv64)
  {}

  lemma JoinedParts(rest: bv64, w: bv16)
    ensures var v := Joined(rest, Wide(w));
            && FirstByte(v) == LowByte(w) && FirstByte(SignedDown8(v)) == HighByte(w)
            && Agree(SignedDown8(SignedDown8(v)), rest, 0xFFFF_FFFF_FFFF)
  {
    hide Joined, Wide, SignedDown8, FirstByte, LowByte, HighByte, IsDown, Agree;
    JoinedFirst(rest, w);
    JoinedSecond(rest, w);
    JoinedRest(rest, w);
  }

  lemma JoinedFirst(rest: bv64, w: bv16)
    ensures FirstByte(Joined(rest, Wide(w))) == LowByte(w)
  {
    hide Joined, Wide, FirstByte, LowByte, HighByte;
    var v := Joined(rest, Wide(w));
    JoinedIs(rest, w);
    FirstByteIs(v);
    HalvesAre(w);
    FirstOfJoined(rest, w, v, FirstByte(v), LowByte(w));
  }

  lemma JoinedSecond(rest: bv64, w: bv16)
    ensures FirstByte(SignedDown8(Joined(rest, Wide(w)))) == HighByte(w)
  {
    hide Joined, Wide, SignedDown8, FirstByte, LowByte, HighByte, IsDown;
    var v := Joined(rest, Wide(w));
    var d := SignedDown8(v);
    JoinedIs(rest, w);
    DownIs(v, d);
    FirstByteIs(d);
    HalvesAre(w);
    SecondOfJoined(rest, w, v, d, FirstByte(d), HighByte(w));
  }

  lemma JoinedRest(rest: bv64, w: bv16)
    ensures Agree(SignedDown8(SignedDown8(Joined(rest, Wide(w)))), rest, 0xFFFF_FFFF_FFFF)
  {
    hide Joined, Wide, SignedDown8, IsDown;
    var v := Joined(rest, Wide(w));
    var d := SignedDown8(v);
    var e := SignedDown8(d);
    JoinedIs(rest, w);
    DownIs(v, d);
    DownIs(d, e);
    RestOfJoined(rest, w, v, d, e);
  }

  // A mask that covers the low n bytes.
  predicate Covers(mask: bv64, n: nat) {
    n == 0 || (mask & 0xFF == 0xFF && Covers(mask >> 8, n - 1))
  }

  predicate Agree(a: bv64, b: bv64, mask: bv64) {
    a & mask == b & mask
  }

  lemma AgreeDown(a: bv64, b: bv64, mask: bv64)
    requires Agree(a, b, mask) && mask & 0xFF == 0xFF
    ensures FirstByte(a) == FirstByte(b)
    ensures Agree(SignedDown8(a), SignedDown8(b), mask >> 8)
  {
    DownIs(a, SignedDown8(a));
    DownIs(b, SignedDown8(b));
    DownMasked(a, mask, SignedDown8(a), a & mask);
    DownMasked(b, mask, SignedDown8(b), b & mask);
    FirstByteIs(a);
    FirstByteIs(b);
    hide SignedDown8, FirstByte;
  }

  lemma DownMasked(a: bv64, mask: bv64, d: bv64, c: bv64)
    requires c == a & mask && IsDown(a, d)
    ensures d & (mask >> 8) == c >> 8
    ensures mask & 0xFF == 0xFF ==> a & 0xFF == c & 0xFF
  {}

  /** The bytes written do not depend on the copied sign. */
  lemma {:induction false} CharsAgree(a: bv64, b: bv64, mask: bv64, n: nat)
    requires Agree(a, b, mask) && Covers(mask, n)
    ensures CharsOf(a, n) == CharsOf(b, n)
    decreases n
  {
    hide Agree, SignedDown8, FirstByte;
    if n > 0 {
      AgreeDown(a, b, mask);
      CharsAgree(SignedDown8(a), SignedDown8(b), mask >> 8, n - 1);
    }
  }

  lemma CharsFirst(v: bv64, n: nat)
    ensures CharsOf(v, n + 1) == [FirstByte(v)] + CharsOf(SignedDown8(v), n) && CharsOf(v, 0) == []
  {}

  lemma CharsOfJoined(rest: bv64, w: bv16, n: nat)
    requires n <= 6
    ensures CharsOf(Joined(rest, Wide(w)), n + 2) == [LowByte(w), HighByte(w)] + CharsOf(rest, n)
  {
    hide Joined, SignedDown8, FirstByte, LowByte, HighByte, Wide, CharsOf, Covers, Agree;
    var v := Joined(rest, Wide(w));
    var v2 := SignedDown8(SignedDown8(v));
    JoinedParts(rest, w);
    CoversSix(n);
    CharsAgree(v2, rest, 0xFFFF_FFFF_FFFF, n);
    CharsFirst(v, n + 1);
    CharsFirst(SignedDown8(v), n);
  }

  lemma CoversSix(n: nat)
    requires n <= 6
    ensures Covers(0xFFFF_FFFF_FFFF, n)
  {
    assert Covers(0xFFFF, 2);
    assert Covers(0xFFFF_FFFF, 4);
    CoversLess(0xFFFF_FFFF_FFFF, 6, n);
  }

  lemma {:induction false} CoversLess(mask: bv64, n: nat, k: nat)
    requires Covers(mask, n) && k <= n
    ensures Covers(mask, k)
    decreases k
  {
    if k > 0 { CoversLess(mask >> 8, n - 1, k - 1); }
  }

  /** Four 16-bit words joined and written out are their eight bytes: packing loses nothing. */
  lemma PackedBytes(w0: bv16, w1: bv16, w2: bv16, w3: bv16)
    ensures CharsOf(Joined(Joined(Joined(Wide(w3) as bv64, Wide(w2)), Wide(w1)), Wide(w0)), 8) == Bytes([w0, w1, w2, w3])
  {
    hide Joined, Wide, LowByte, HighByte, CharsOf;
    var r3 := Wide(w3) as bv64;
    var r2 := Joined(r3, Wide(w2));
    var r1 := Joined(r2, Wide(w1));
    JoinedZero(Wide(w3));
    CharsOfJoined(0, w3, 0);
    CharsFirst(0, 0);
    CharsOfJoined(r3, w2, 2);
    CharsOfJoined(r2, w1, 4);
    CharsOfJoined(r1, w0, 6);
    FourWordBytes([w0, w1, w2, w3]);
  }

  lemma FourWordBytes(w: seq<bv16>)
    requires |w| == 4
    ensures Bytes(w) == [LowByte(w[0]), HighByte(w[0])] + ([LowByte(w[1]), HighByte(w[1])]
                        + ([LowByte(w[2]), HighByte(w[2])] + ([LowByte(w[3]), HighByte(w[3])] + [])))
  {
    hide LowByte, HighByte;
  }

  lemma JoinedZero(w: bv32)
    ensures Joined(0, w) == w as bv64
  {}

  function LowWord(v: bv64): bv16 {
    (v & 0xFFFF) as bv16
  }

  function DownWord(v: bv64): bv64 {
    v >> 16
  }

  lemma JoinStep(v: bv64)
    ensures Joined(DownWord(v), Wide(LowWord(v))) == v
  {}

  lemma NoFifthWord(v: bv64)
    ensures DownWord(DownWord(DownWord(DownWord(v)))) == 0
  {}

  lemma SecondWord(key: bv64)
    ensures KeyWord(key, 1) == LowWord(DownWord(key))
  {}

  lemma ThirdWord(key: bv64)
    ensures KeyWord(key, 2) == LowWord(DownWord(DownWord(key)))
  {}

  lemma FourthWord(key: bv64)
    ensures KeyWord(key, 3) == LowWord(DownWord(DownWord(DownWord(key))))
  {}

  lemma KeyOfWords(key: bv64)
    ensures Joined(Joined(Joined(Wide(KeyWord(key, 3)) as bv64, Wide(KeyWord(key, 2))), Wide(KeyWord(key, 1))), Wide(KeyWord(key, 0))) == key
  {
    assert KeyWord(key, 0) == LowWord(key);
    hide Joined, Wide, KeyWord, LowWord, DownWord;
    SecondWord(key); ThirdWord(key); FourthWord(key);
    NoFifthWord(key);
    JoinedZero(Wide(KeyWord(key, 3)));
    JoinStep(DownWord(DownWord(DownWord(key))));
    JoinStep(DownWord(DownWord(key)));
    JoinStep(DownWord(key));
    JoinStep(key);
  }

  /** The key bytes are those longlong2char writes: the key in memory, low byte first. */
  lemma KeyBytesInMemory(key: bv64)
    ensures KeyBytes(key) == CharsOf(key, 8)
  {
    hide Joined, Wide, KeyWord, CharsOf, Bytes;
    PackedBytes(KeyWord(key, 0), KeyWord(key, 1), KeyWord(key, 2), KeyWord(key, 3));
    KeyOfWords(key);
  }

  // ---------------------------------------------------------------- own_encrypt and own_decrypt

  lemma ValueFits(key: bv16)
    ensures Value(key, 16) < 0x1_0000
  {
    assert Pow2(8) == 0x100;
    assert Pow2(16) == 0x1_0000;
  }

  lemma FourWords(bytes: seq<bv8>)
    requires |bytes| == 8
    ensures Words(bytes) == [WordOf(bytes[0], bytes[1]), WordOf(bytes[2], bytes[3]),
                             WordOf(bytes[4], bytes[5]), WordOf(bytes[6], bytes[7])]
  {
    hide WordOf;
  }

  // `*(int*)clr_i` on a little-endian machine, lines 168-171 and 190-193
  method ClearWords(strIn: array<bv8>, at: nat) returns (c0: bv32, c1: bv32, c2: bv32, c3: bv32)
    requires at + 8 <= strIn.Length
    ensures var w := Words(strIn[at..at + 8]);
            c0 == Wide(w[0]) && c1 == Wide(w[1]) && c2 == Wide(w[2]) && c3 == Wide(w[3])
  {
    hide WordOf, Wide;
    FourWords(strIn[at..at + 8]);
    c0 := Wide(WordOf(strIn[at], strIn[at + 1]));
    c1 := Wide(WordOf(strIn[at + 2], strIn[at + 3]));
    c2 := Wide(WordOf(strIn[at + 4], strIn[at + 5]));
    c3 := Wide(WordOf(strIn[at + 6], strIn[at + 7]));
  }

  // Lines 185-188
  method Counts(key: bv64) returns (n0: nat, n1: nat, n2: nat, n3: nat)
    ensures n0 == Ones(KeyWord(key, 0)) && n1 == Ones(KeyWord(key, 1))
    ensures n2 == Ones(KeyWord(key, 2)) && n3 == Ones(KeyWord(key, 3))
  {
    hide KeyWord, Value;
    ValueFits(KeyWord(key, 0)); ValueFits(KeyWord(key, 1));
    ValueFits(KeyWord(key, 2)); ValueFits(KeyWord(key, 3));
    n0 := CalNonzeroBits(Value(KeyWord(key, 0), 16));
    n1 := CalNonzeroBits(Value(KeyWord(key, 1), 16));
    n2 := CalNonzeroBits(Value(KeyWord(key, 2), 16));
    n3 := CalNonzeroBits(Value(KeyWord(key, 3), 16));
  }

  // Lines 211-216 and 263-268
  method WriteWords(x0: bv32, x1: bv32, x2: bv32, x3: bv32, strOut: array<bv8>, at: nat, ghost w: seq<bv16>)
    requires at + 8 <= strOut.Length && |w| == 4
    requires x0 == Wide(w[0]) && x1 == Wide(w[1]) && x2 == Wide(w[2]) && x3 == Wide(w[3])
    modifies strOut
    ensures strOut[at..at + 8] == Bytes(w)
    ensures forall n :: 0 <= n < strOut.Length && !(at <= n < at + 8) ==> strOut[n] == old(strOut[n])
  {
    hide Joined, Wide, CharsOf;
    var result := x3 as bv64;
    result := Joined(result, x2);
    result := Joined(result, x1);
    result := Joined(result, x0);
    PackedBytes(w[0], w[1], w[2], w[3]);
    assert w == [w[0], w[1], w[2], w[3]];
    Longlong2Char(result, strOut, at);
  }

  function Encrypted(block: seq<bv8>, key: bv64): (cipher: seq<bv8>)
    requires |block| == 8
    ensures |cipher| == 8
  {
    EncipheredBytes(block, KeyBytes(key))
  }

  function Decrypted(block: seq<bv8>, key: bv64): (plain: seq<bv8>)
    requires |block| == 8
    ensures |plain| == 8
  {
    DecipheredBytes(block, KeyBytes(key))
  }

  lemma EncipheredFour(p: seq<bv16>, k: seq<bv16>)
    requires |p| == |k| == 4
    ensures var c0 := EncipheredWord(INIT_WORD, p[0], k[0]);
            var c1 := EncipheredWord(c0, p[1], k[1]);
            var c2 := EncipheredWord(c1, p[2], k[2]);
            Enciphered(INIT_WORD, p, k) == [c0, c1, c2, EncipheredWord(c2, p[3], k[3])]
  {
    hide EncipheredWord, Enciphered;
    EncipheredAt(INIT_WORD, p, k, 0);
    EncipheredAt(INIT_WORD, p, k, 1);
    EncipheredAt(INIT_WORD, p, k, 2);
    EncipheredAt(INIT_WORD, p, k, 3);
  }

  /** own_encrypt on eight bytes of strIn, writing eight bytes of strOut. */
  method OwnEncrypt(strIn: array<bv8>, inAt: nat, strOut: array<bv8>, outAt: nat, key: bv64)
    requires inAt + 8 <= strIn.Length && outAt + 8 <= strOut.Length
    modifies strOut
    ensures strOut[outAt..outAt + 8] == Encrypted(old(strIn[inAt..inAt + 8]), key)
    ensures forall n :: 0 <= n < strOut.Length && !(outAt <= n < outAt + 8) ==> strOut[n] == old(strOut[n])
  {
    hide Wide, EncryptedWord, EncipheredWord, KeyWord, Ones, Words, Bytes, Enciphered;
    ghost var p, k := Words(strIn[inAt..inAt + 8]), KeyWords(key);
    WordsOfBytes(k);
    var n0, n1, n2, n3 := Counts(key);
    var clr0, clr1, clr2, clr3 := ClearWords(strIn, inAt);
    ghost var c0 := EncipheredWord(INIT_WORD, p[0], k[0]);
    ghost var c1 := EncipheredWord(c0, p[1], k[1]);
    ghost var c2 := EncipheredWord(c1, p[2], k[2]);
    ghost var c3 := EncipheredWord(c2, p[3], k[3]);
    WordsFit(INIT_WORD, p[0], k[0]); WordsFit(c0, p[1], k[1]);
    WordsFit(c1, p[2], k[2]); WordsFit(c2, p[3], k[3]);
    var xor20 := EncryptedWord(Wide(INIT_WORD), clr0, Wide(KeyWord(key, 0)), n0);
    var xor21 := EncryptedWord(xor20, clr1, Wide(KeyWord(key, 1)), n1);
    var xor22 := EncryptedWord(xor21, clr2, Wide(KeyWord(key, 2)), n2);
    var xor23 := EncryptedWord(xor22, clr3, Wide(KeyWord(key, 3)), n3);
    EncipheredFour(p, k);
    WriteWords(xor20, xor21, xor22, xor23, strOut, outAt, [c0, c1, c2, c3]);
  }

  lemma DecipheredFour(c: seq<bv16>, k: seq<bv16>)
    requires |c| == |k| == 4
    ensures Deciphered(INIT_WORD, c, k)
         == [DecipheredWord(INIT_WORD, c[0], k[0]), DecipheredWord(c[0], c[1], k[1]),
             DecipheredWord(c[1], c[2], k[2]), DecipheredWord(c[2], c[3], k[3])]
  {
    hide DecipheredWord, Deciphered;
    DecipheredAt(INIT_WORD, c, k, 0);
    DecipheredAt(INIT_WORD, c, k, 1);
    DecipheredAt(INIT_WORD, c, k, 2);
    DecipheredAt(INIT_WORD, c, k, 3);
  }

  /** own_decrypt, in the same way. */
  method OwnDecrypt(strIn: array<bv8>, inAt: nat, strOut: array<bv8>, outAt: nat, key: bv64)
    requires inAt + 8 <= strIn.Length && outAt + 8 <= strOut.Length
    modifies strOut
    ensures strOut[outAt..outAt + 8] == Decrypted(old(strIn[inAt..inAt + 8]), key)
    ensures forall n :: 0 <= n < strOut.Length && !(outAt <= n < outAt + 8) ==> strOut[n] == old(strOut[n])
  {
    hide Wide, DecryptedWord, DecipheredWord, KeyWord, Ones, Words, Bytes, Deciphered;
    ghost var c, k := Words(strIn[inAt..inAt + 8]), KeyWords(key);
    WordsOfBytes(k);
    var n0, n1, n2, n3 := Counts(key);
    var clr0, clr1, clr2, clr3 := ClearWords(strIn, inAt);
    WordsFit(INIT_WORD, c[0], k[0]); WordsFit(c[0], c[1], k[1]);
    WordsFit(c[1], c[2], k[2]); WordsFit(c[2], c[3], k[3]);
    var xor20 := DecryptedWord(Wide(INIT_WORD), clr0, Wide(KeyWord(key, 0)), n0);
    var xor21 := DecryptedWord(clr0, clr1, Wide(KeyWord(key, 1)), n1);
    var xor22 := DecryptedWord(clr1, clr2, Wide(KeyWord(key, 2)), n2);
    var xor23 := DecryptedWord(clr2, clr3, Wide(KeyWord(key, 3)), n3);
    DecipheredFour(c, k);
    WriteWords(xor20, xor21, xor22, xor23, strOut, outAt, Deciphered(INIT_WORD, c, k));
  }

  /** The two are inverses of each other, for every block and every 64-bit key. */
  lemma OwnRoundTrip(block: seq<bv8>, key: bv64)
    requires |block| == 8
    ensures Decrypted(Encrypted(block, key), key) == block
    ensures Encrypted(Decrypted(block, key), key) == block
  {
    hide EncipheredBytes, DecipheredBytes;
    BytesRoundTrip(block, KeyBytes(key));
  }
}
