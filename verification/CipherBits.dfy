/** What the cipher does to single bits, and what it gives under key zero. */
module CipherBits {
  import Bits
  import ClientCipher
  import ServerCipher
  import opened WordCipher

  // ---------------------------------------------------------------- bits of a word

  function Place(j: nat): bv16
    requires j < 16
  {
    match j
    case 0 => 0x1 case 1 => 0x2 case 2 => 0x4 case 3 => 0x8
    case 4 => 0x10 case 5 => 0x20 case 6 => 0x40 case 7 => 0x80
    case 8 => 0x100 case 9 => 0x200 case 10 => 0x400 case 11 => 0x800
    case 12 => 0x1000 case 13 => 0x2000 case 14 => 0x4000 case _ => 0x8000
  }

  function Cut(w: bv16, place: bv16): bv16 {
    w & place
  }

  predicate WordBit(w: bv16, j: nat)
    requires j < 16
  {
    match j
    case 0 => w & 0x1 != 0 case 1 => w & 0x2 != 0 case 2 => w & 0x4 != 0 case 3 => w & 0x8 != 0
    case 4 => w & 0x10 != 0 case 5 => w & 0x20 != 0 case 6 => w & 0x40 != 0 case 7 => w & 0x80 != 0
    case 8 => w & 0x100 != 0 case 9 => w & 0x200 != 0 case 10 => w & 0x400 != 0 case 11 => w & 0x800 != 0
    case 12 => w & 0x1000 != 0 case 13 => w & 0x2000 != 0 case 14 => w & 0x4000 != 0 case _ => w & 0x8000 != 0
  }

  lemma LowWordBits(w: bv16)
    ensures WordBit(w, 0) == (w & 0x1 != 0)
    ensures WordBit(w, 1) == (w & 0x2 != 0)
    ensures WordBit(w, 2) == (w & 0x4 != 0)
    ensures WordBit(w, 3) == (w & 0x8 != 0)
    ensures WordBit(w, 4) == (w & 0x10 != 0)
    ensures WordBit(w, 5) == (w & 0x20 != 0)
    ensures WordBit(w, 6) == (w & 0x40 != 0)
    ensures WordBit(w, 7) == (w & 0x80 != 0)
  {}

  lemma HighWordBits(w: bv16)
    ensures WordBit(w, 8) == (w & 0x100 != 0)
    ensures WordBit(w, 9) == (w & 0x200 != 0)
    ensures WordBit(w, 10) == (w & 0x400 != 0)
    ensures WordBit(w, 11) == (w & 0x800 != 0)
    ensures WordBit(w, 12) == (w & 0x1000 != 0)
    ensures WordBit(w, 13) == (w & 0x2000 != 0)
    ensures WordBit(w, 14) == (w & 0x4000 != 0)
    ensures WordBit(w, 15) == (w & 0x8000 != 0)
  {}

  lemma WordBits(w: bv16)
    ensures WordBit(w, 0) == (w & 0x1 != 0)
    ensures WordBit(w, 1) == (w & 0x2 != 0)
    ensures WordBit(w, 2) == (w & 0x4 != 0)
    ensures WordBit(w, 3) == (w & 0x8 != 0)
    ensures WordBit(w, 4) == (w & 0x10 != 0)
    ensures WordBit(w, 5) == (w & 0x20 != 0)
    ensures WordBit(w, 6) == (w & 0x40 != 0)
    ensures WordBit(w, 7) == (w & 0x80 != 0)
    ensures WordBit(w, 8) == (w & 0x100 != 0)
    ensures WordBit(w, 9) == (w & 0x200 != 0)
    ensures WordBit(w, 10) == (w & 0x400 != 0)
    ensures WordBit(w, 11) == (w & 0x800 != 0)
    ensures WordBit(w, 12) == (w & 0x1000 != 0)
    ensures WordBit(w, 13) == (w & 0x2000 != 0)
    ensures WordBit(w, 14) == (w & 0x4000 != 0)
    ensures WordBit(w, 15) == (w & 0x8000 != 0)
  {
    hide WordBit;
    LowWordBits(w);
    HighWordBits(w);
  }

  lemma WordBitIsCut0(w: bv16, j: nat)
    requires 0 <= j < 4
    ensures WordBit(w, j) == (Cut(w, Place(j)) != 0)
  {}

  lemma WordBitIsCut4(w: bv16, j: nat)
    requires 4 <= j < 8
    ensures WordBit(w, j) == (Cut(w, Place(j)) != 0)
  {}

  lemma WordBitIsCut8(w: bv16, j: nat)
    requires 8 <= j < 12
    ensures WordBit(w, j) == (Cut(w, Place(j)) != 0)
  {}

  lemma WordBitIsCut12(w: bv16, j: nat)
    requires 12 <= j < 16
    ensures WordBit(w, j) == (Cut(w, Place(j)) != 0)
  {}

  lemma WordBitIsCut(w: bv16, j: nat)
    requires j < 16
    ensures WordBit(w, j) == (Cut(w, Place(j)) != 0)
  {
    hide WordBit, Cut, Place;
    if j < 4 { WordBitIsCut0(w, j); } else if j < 8 { WordBitIsCut4(w, j); }
    else if j < 12 { WordBitIsCut8(w, j); } else { WordBitIsCut12(w, j); }
  }

  // One place left, bit by bit; the top bit comes round.
  lemma LeftOneBits(x: bv16)
    ensures (LeftOne(x) & 0x1 != 0) == (x & 0x8000 != 0)
    ensures (LeftOne(x) & 0x2 != 0) == (x & 0x1 != 0)
    ensures (LeftOne(x) & 0x4 != 0) == (x & 0x2 != 0)
    ensures (LeftOne(x) & 0x8 != 0) == (x & 0x4 != 0)
    ensures (LeftOne(x) & 0x10 != 0) == (x & 0x8 != 0)
    ensures (LeftOne(x) & 0x20 != 0) == (x & 0x10 != 0)
    ensures (LeftOne(x) & 0x40 != 0) == (x & 0x20 != 0)
    ensures (LeftOne(x) & 0x80 != 0) == (x & 0x40 != 0)
    ensures (LeftOne(x) & 0x100 != 0) == (x & 0x80 != 0)
    ensures (LeftOne(x) & 0x200 != 0) == (x & 0x100 != 0)
    ensures (LeftOne(x) & 0x400 != 0) == (x & 0x200 != 0)
    ensures (LeftOne(x) & 0x800 != 0) == (x & 0x400 != 0)
    ensures (LeftOne(x) & 0x1000 != 0) == (x & 0x800 != 0)
    ensures (LeftOne(x) & 0x2000 != 0) == (x & 0x1000 != 0)
    ensures (LeftOne(x) & 0x4000 != 0) == (x & 0x2000 != 0)
    ensures (LeftOne(x) & 0x8000 != 0) == (x & 0x4000 != 0)
  {}

  lemma LeftOneBit0(x: bv16, j: nat)
    requires 0 <= j < 4
    ensures WordBit(LeftOne(x), j) == WordBit(x, (j + 15) % 16)
  {
    hide LeftOne, WordBit;
    LeftOneBits(x);
    WordBits(x);
    WordBits(LeftOne(x));
  }

  lemma LeftOneBit4(x: bv16, j: nat)
    requires 4 <= j < 8
    ensures WordBit(LeftOne(x), j) == WordBit(x, (j + 15) % 16)
  {
    hide LeftOne, WordBit;
    LeftOneBits(x);
    WordBits(x);
    WordBits(LeftOne(x));
  }

  lemma LeftOneBit8(x: bv16, j: nat)
    requires 8 <= j < 12
    ensures WordBit(LeftOne(x), j) == WordBit(x, (j + 15) % 16)
  {
    hide LeftOne, WordBit;
    LeftOneBits(x);
    WordBits(x);
    WordBits(LeftOne(x));
  }

  lemma LeftOneBit12(x: bv16, j: nat)
    requires 12 <= j < 16
    ensures WordBit(LeftOne(x), j) == WordBit(x, (j + 15) % 16)
  {
    hide LeftOne, WordBit;
    LeftOneBits(x);
    WordBits(x);
    WordBits(LeftOne(x));
  }

  lemma LeftOneBit(x: bv16, j: nat)
    requires j < 16
    ensures WordBit(LeftOne(x), j) == WordBit(x, (j + 15) % 16)
  {
    hide LeftOne, WordBit;
    if j < 4 { LeftOneBit0(x, j); } else if j < 8 { LeftOneBit4(x, j); }
    else if j < 12 { LeftOneBit8(x, j); } else { LeftOneBit12(x, j); }
  }

  lemma {:induction false} RotatedLeftBit(x: bv16, n: nat, j: nat)
    requires n <= 16 && j < 16
    ensures WordBit(RotatedLeft(x, n), j) == WordBit(x, (j + 16 - n) % 16)
    decreases n
  {
    hide LeftOne, WordBit;
    if n > 0 {
      LeftOneBit(RotatedLeft(x, n - 1), j);
      RotatedLeftBit(x, n - 1, (j + 15) % 16);
    }
  }

  lemma CutXor(a: bv16, b: bv16, m: bv16)
    ensures Cut(Xor(a, b), m) == Xor(Cut(a, m), Cut(b, m))
  {}

  lemma XorIsZero(a: bv16, b: bv16)
    ensures Xor(a, b) == 0 <==> a == b
  {}

  lemma OnePlace(w: bv16, j: nat)
    requires j < 16
    ensures Cut(w, Place(j)) == 0 || Cut(w, Place(j)) == Place(j)
  {}

  lemma XorBit(a: bv16, b: bv16, j: nat)
    requires j < 16
    ensures WordBit(Xor(a, b), j) == (WordBit(a, j) != WordBit(b, j))
  {
    hide Xor, Cut, Place, WordBit;
    WordBitIsCut(a, j); WordBitIsCut(b, j); WordBitIsCut(Xor(a, b), j);
    CutXor(a, b, Place(j));
    XorIsZero(Cut(a, Place(j)), Cut(b, Place(j)));
    OnePlace(a, j); OnePlace(b, j);
  }

  lemma LowByteBits(w: bv16)
    ensures (LowByte(w) & 0x1 != 0) == (w & 0x1 != 0)
    ensures (LowByte(w) & 0x2 != 0) == (w & 0x2 != 0)
    ensures (LowByte(w) & 0x4 != 0) == (w & 0x4 != 0)
    ensures (LowByte(w) & 0x8 != 0) == (w & 0x8 != 0)
    ensures (LowByte(w) & 0x10 != 0) == (w & 0x10 != 0)
    ensures (LowByte(w) & 0x20 != 0) == (w & 0x20 != 0)
    ensures (LowByte(w) & 0x40 != 0) == (w & 0x40 != 0)
    ensures (LowByte(w) & 0x80 != 0) == (w & 0x80 != 0)
  {}

  lemma HighByteBits(w: bv16)
    ensures (HighByte(w) & 0x1 != 0) == (w & 0x100 != 0)
    ensures (HighByte(w) & 0x2 != 0) == (w & 0x200 != 0)
    ensures (HighByte(w) & 0x4 != 0) == (w & 0x400 != 0)
    ensures (HighByte(w) & 0x8 != 0) == (w & 0x800 != 0)
    ensures (HighByte(w) & 0x10 != 0) == (w & 0x1000 != 0)
    ensures (HighByte(w) & 0x20 != 0) == (w & 0x2000 != 0)
    ensures (HighByte(w) & 0x40 != 0) == (w & 0x4000 != 0)
    ensures (HighByte(w) & 0x80 != 0) == (w & 0x8000 != 0)
  {}

  lemma ByteBits(b: bv8)
    ensures Bits.BitOf(b, 7) == (b & 0x1 != 0)
    ensures Bits.BitOf(b, 6) == (b & 0x2 != 0)
    ensures Bits.BitOf(b, 5) == (b & 0x4 != 0)
    ensures Bits.BitOf(b, 4) == (b & 0x8 != 0)
    ensures Bits.BitOf(b, 3) == (b & 0x10 != 0)
    ensures Bits.BitOf(b, 2) == (b & 0x20 != 0)
    ensures Bits.BitOf(b, 1) == (b & 0x40 != 0)
    ensures Bits.BitOf(b, 0) == (b & 0x80 != 0)
  {}

  lemma LowHalfBit(w: bv16, j: nat)
    requires j < 8
    ensures WordBit(w, j) == Bits.BitOf(LowByte(w), 7 - j)
  {
    hide WordBit, Bits.BitOf, LowByte;
    WordBits(w);
    LowByteBits(w);
    ByteBits(LowByte(w));
  }

  lemma HighHalfBit(w: bv16, j: nat)
    requires 8 <= j < 16
    ensures WordBit(w, j) == Bits.BitOf(HighByte(w), 15 - j)
  {
    hide WordBit, Bits.BitOf, HighByte;
    WordBits(w);
    HighByteBits(w);
    ByteBits(HighByte(w));
  }

  lemma HalfBit(w: bv16, j: nat)
    requires j < 16
    ensures WordBit(w, j) == Bits.BitOf(HalfOf(w, j < 8), 7 - j % 8)
  {
    hide WordBit, Bits.BitOf, LowByte, HighByte;
    if j < 8 { LowHalfBit(w, j); } else { HighHalfBit(w, j); }
  }

  /** Bit j, from the lowest, of the i-th two bytes as a number in memory, low byte first. */
  predicate MemoryBit(bytes: seq<bv8>, i: nat, j: nat)
    requires 2 * i + 2 <= |bytes| && j < 16
  {
    if j < 8 then Bits.BitOf(bytes[2 * i], 7 - j) else Bits.BitOf(bytes[2 * i + 1], 15 - j)
  }

  lemma WordInMemory(words: seq<bv16>, i: nat, j: nat)
    requires i < |words| && j < 16
    ensures MemoryBit(Bytes(words), i, j) == WordBit(words[i], j)
  {
    hide WordBit, Bits.BitOf, HalfOf;
    HalfBit(words[i], j);
    var low, high := 2 * i, 2 * i + 1;
    assert low / 2 == i && high / 2 == i && low % 2 == 0 && high % 2 == 1;
    assert Bytes(words)[low] == HalfOf(words[i], true) && Bytes(words)[high] == HalfOf(words[i], false);
  }

  // ---------------------------------------------------------------- counting ones

  function OnesBelow(w: bv16, n: nat): (s: set<int>)
    requires n <= 16
  {
    set j | 0 <= j < n && WordBit(w, j)
  }

  lemma BitMaskIs(j: nat)
    requires j < 16
    ensures ServerCipher.BitMask(j) == Place(j)
    decreases j
  {
    if j > 0 {
      BitMaskIs(j - 1);
      TwicePlace(j - 1);
    }
  }

  lemma TwicePlace(j: nat)
    requires j < 15
    ensures ServerCipher.Twice(Place(j)) == Place(j + 1)
  {}

  lemma BitIs(w: bv16, j: nat)
    requires j < 16
    ensures ServerCipher.Bit(w, j) == if WordBit(w, j) then 1 else 0
  {
    BitMaskIs(j);
    WordBitIsCut(w, j);
    hide ServerCipher.BitMask, Place, WordBit;
  }

  lemma {:induction false} BitSumTop(w: bv16, a: nat, b: nat)
    requires a <= b
    ensures ServerCipher.BitSum(w, a, b + 1) == ServerCipher.BitSum(w, a, b) + ServerCipher.Bit(w, b)
    decreases b - a
  {
    hide ServerCipher.Bit;
    if a < b { BitSumTop(w, a + 1, b); }
  }

  lemma {:induction false} BitSumCounts(w: bv16, n: nat)
    requires n <= 16
    ensures ServerCipher.BitSum(w, 0, n) == |OnesBelow(w, n)|
  {
    hide WordBit, ServerCipher.Bit;
    if n == 0 {
      assert OnesBelow(w, 0) == {};
    } else {
      BitSumCounts(w, n - 1);
      BitSumTop(w, 0, n - 1);
      BitIs(w, n - 1);
      assert OnesBelow(w, n) == if WordBit(w, n - 1) then OnesBelow(w, n - 1) + {n - 1} else OnesBelow(w, n - 1);
    }
  }

  lemma OnesAreCounted(w: bv16)
    ensures Ones(w) == |OnesBelow(w, 16)|
  {
    hide WordBit, ServerCipher.BitSum, PopCount, Value;
    ServerCipher.PopCountIsBitSum(w, 16);
    BitSumCounts(w, 16);
  }

  /** The places of the ones in word i of the key. */
  ghost function OnesIn(key: seq<bv8>, i: nat): set<int>
    requires 2 * i + 2 <= |key|
  {
    set j | 0 <= j < 16 && MemoryBit(key, i, j)
  }

  lemma OnesOfWord(words: seq<bv16>, i: nat)
    requires i < |words|
    ensures |OnesIn(Bytes(words), i)| == Ones(words[i])
  {
    hide MemoryBit, WordBit, Bytes, Ones;
    OnesAreCounted(words[i]);
    forall j: nat | j < 16 ensures MemoryBit(Bytes(words), i, j) == WordBit(words[i], j) { WordInMemory(words, i, j); }
    assert OnesIn(Bytes(words), i) == OnesBelow(words[i], 16);
  }

  // ---------------------------------------------------------------- the cipher

  // Bit j of the starting word, 0x1234.
  predicate StartBit(j: nat) {
    j in {2, 4, 5, 9, 12}
  }

  lemma StartBits(j: nat)
    requires j < 16
    ensures WordBit(INIT_WORD, j) == StartBit(j)
  {}

  lemma EncipheredWordBit(previous: bv16, plain: bv16, key: bv16, j: nat)
    requires j < 16
    ensures var s := (j + 16 - Ones(key)) % 16;
            WordBit(EncipheredWord(previous, plain, key), j) == ((WordBit(previous, s) != WordBit(plain, s)) != WordBit(key, j))
  {
    hide Xor, RotatedLeft, Ones, WordBit;
    var mixed := Xor(previous, plain);
    XorBit(RotatedLeft(mixed, Ones(key)), key, j);
    RotatedLeftBit(mixed, Ones(key), j);
    XorBit(previous, plain, (j + 16 - Ones(key)) % 16);
  }

  /** The cipher bit by bit, for all blocks and keys: bit j of ciphertext word i is bit s of plaintext word i,
      plus bit s of the ciphertext word before it, or of 0x1234 before the first, plus bit j of key word i, all
      modulo 2, where s lies as many places before j, in a circle of 16, as there are ones in key word i. */
  lemma EnciphersBits(plain: seq<bv8>, key: seq<bv8>, i: nat, j: nat)
    requires |plain| == |key| && |plain| % 2 == 0 && 2 * i + 2 <= |plain| && j < 16
    ensures var cipher, s := EncipheredBytes(plain, key), (j + 16 - |OnesIn(key, i)|) % 16;
            MemoryBit(cipher, i, j) ==
              ((MemoryBit(plain, i, s) != (if i == 0 then StartBit(s) else MemoryBit(cipher, i - 1, s))) != MemoryBit(key, i, j))
  {
    hide MemoryBit, OnesIn, Ones, StartBit, EncipheredBytes, Enciphered, Bytes;
    var p, k := InWords(plain, key);
    OnesOfWord(k, i);
    BitInMemory(p, k, i, j, (j + 16 - Ones(k[i])) % 16);
  }

  lemma InWords(plain: seq<bv8>, key: seq<bv8>) returns (p: seq<bv16>, k: seq<bv16>)
    requires |plain| == |key| && |plain| % 2 == 0
    ensures |p| == |k| && plain == Bytes(p) && key == Bytes(k)
    ensures EncipheredBytes(plain, key) == Bytes(Enciphered(INIT_WORD, p, k))
  {
    hide Enciphered, Words, Bytes;
    p, k := Words(plain), Words(key);
    BytesOfWords(plain);
    BytesOfWords(key);
  }

  lemma BitInMemory(p: seq<bv16>, k: seq<bv16>, i: nat, j: nat, s: nat)
    requires |p| == |k| && i < |p| && j < 16 && s == (j + 16 - Ones(k[i])) % 16
    ensures var c := Enciphered(INIT_WORD, p, k);
            MemoryBit(Bytes(c), i, j) ==
              ((MemoryBit(Bytes(p), i, s) != (if i == 0 then StartBit(s) else MemoryBit(Bytes(c), i - 1, s))) != MemoryBit(Bytes(k), i, j))
  {
    hide WordBit, MemoryBit, Ones, Enciphered, Bytes, EncipheredWord, StartBit;
    var c := Enciphered(INIT_WORD, p, k);
    var previous := if i == 0 then INIT_WORD else c[i - 1];
    EncipheredAt(INIT_WORD, p, k, i);
    EncipheredWordBit(previous, p[i], k[i], j);
    WordInMemory(c, i, j);
    WordInMemory(p, i, s);
    WordInMemory(k, i, j);
    PreviousBit(c, i, s);
  }

  lemma PreviousBit(c: seq<bv16>, i: nat, s: nat)
    requires i < |c| && s < 16
    ensures WordBit(if i == 0 then INIT_WORD else c[i - 1], s)
         == if i == 0 then StartBit(s) else MemoryBit(Bytes(c), i - 1, s)
  {
    hide WordBit, MemoryBit, Bytes;
    if i == 0 { StartBits(s); } else { WordInMemory(c, i - 1, s); }
  }

  lemma NothingTurned()
    ensures Ones(0) == 0
  {
    assert Value(0, 8) == 0;
  }

  lemma KeyZero()
    ensures ClientCipher.KeyBytes(0) == Bytes([0, 0, 0, 0])
  {
    assert ClientCipher.KeyWords(0) == [0, 0, 0, 0];
  }

  lemma XorZero(w: bv16)
    ensures Xor(w, 0) == w
  {}

  lemma WordUnderKeyZero(previous: bv16, plain: bv16)
    ensures EncipheredWord(previous, plain, 0) == Xor(previous, plain)
  {
    hide Ones, Xor;
    NothingTurned();
    assert RotatedLeft(Xor(previous, plain), 0) == Xor(previous, plain);
    XorZero(Xor(previous, plain));
  }

  lemma FourUnderKeyZero(p: seq<bv16>, k: seq<bv16>)
    requires |p| == |k| == 4 && k == [0, 0, 0, 0]
    ensures Enciphered(INIT_WORD, p, k)
         == [Xor(0x1234, p[0]), Xor(Xor(0x1234, p[0]), p[1]), Xor(Xor(Xor(0x1234, p[0]), p[1]), p[2]),
             Xor(Xor(Xor(Xor(0x1234, p[0]), p[1]), p[2]), p[3])]
  {
    hide Enciphered, EncipheredWord, Xor;
    ClientCipher.EncipheredFour(p, k);
    WordUnderKeyZero(0x1234, p[0]);
    WordUnderKeyZero(Xor(0x1234, p[0]), p[1]);
    WordUnderKeyZero(Xor(Xor(0x1234, p[0]), p[1]), p[2]);
    WordUnderKeyZero(Xor(Xor(Xor(0x1234, p[0]), p[1]), p[2]), p[3]);
  }

  /** Under key zero each ciphertext word is the sum, modulo 2, of 0x1234 and the plaintext words so far. */
  lemma UnderKeyZero(p: seq<bv16>)
    requires |p| == 4
    ensures ClientCipher.Encrypted(Bytes(p), 0)
         == Bytes([Xor(0x1234, p[0]), Xor(Xor(0x1234, p[0]), p[1]), Xor(Xor(Xor(0x1234, p[0]), p[1]), p[2]),
                   Xor(Xor(Xor(Xor(0x1234, p[0]), p[1]), p[2]), p[3])])
  {
    hide Enciphered, Xor, Bytes, Words, ClientCipher.KeyBytes;
    KeyZero();
    WordsOfBytes(p);
    WordsOfBytes([0, 0, 0, 0]);
    FourUnderKeyZero(p, [0, 0, 0, 0]);
  }

  lemma ZeroBlock()
    ensures Bytes([0, 0, 0, 0]) == [0, 0, 0, 0, 0, 0, 0, 0]
    ensures Bytes([0x1234, 0x1234, 0x1234, 0x1234]) == [0x34, 0x12, 0x34, 0x12, 0x34, 0x12, 0x34, 0x12]
  {
    assert LowByte(0) == HighByte(0) == 0 && LowByte(0x1234) == 0x34 && HighByte(0x1234) == 0x12;
    hide LowByte, HighByte;
  }

  /** The block of zeros under key zero. */
  lemma ZerosUnderKeyZero()
    ensures ClientCipher.Encrypted([0, 0, 0, 0, 0, 0, 0, 0], 0) == [0x34, 0x12, 0x34, 0x12, 0x34, 0x12, 0x34, 0x12]
  {
    hide Bytes, ClientCipher.Encrypted, Xor;
    UnderKeyZero([0, 0, 0, 0]);
    XorZero(0x1234);
    ZeroBlock();
  }

  // The eight bits of the key from 8 * i on.
  function KeyByte(key: bv64, i: nat): bv8
    requires i < 8
  {
    match i
    case 0 => (key & 0xFF) as bv8 case 1 => ((key >> 8) & 0xFF) as bv8
    case 2 => ((key >> 16) & 0xFF) as bv8 case 3 => ((key >> 24) & 0xFF) as bv8
    case 4 => ((key >> 32) & 0xFF) as bv8 case 5 => ((key >> 40) & 0xFF) as bv8
    case 6 => ((key >> 48) & 0xFF) as bv8 case _ => ((key >> 56) & 0xFF) as bv8
  }

  lemma KeyWordBytes(key: bv64, i: nat)
    requires i < 4
    ensures LowByte(ClientCipher.KeyWord(key, i)) == KeyByte(key, 2 * i)
    ensures HighByte(ClientCipher.KeyWord(key, i)) == KeyByte(key, 2 * i + 1)
  {
    if i == 0 {} else if i == 1 {} else if i == 2 {} else { assert i == 3; }
  }

  /** The bytes of the key are its bits, eight by eight from the lowest. */
  lemma KeyBytesAre(key: bv64)
    ensures ClientCipher.KeyBytes(key) == seq(8, i requires 0 <= i < 8 => KeyByte(key, i))
  {
    hide ClientCipher.KeyWord, LowByte, HighByte, KeyByte;
    KeyWordBytes(key, 0); KeyWordBytes(key, 1); KeyWordBytes(key, 2); KeyWordBytes(key, 3);
    ClientCipher.FourWordBytes(ClientCipher.KeyWords(key));
  }
}
