/** server/cipher.c: the second implementation of the block cipher, on arrays of bytes, with a
    bit counter that scans a mask and rotations that join two shifts. Its methods promise the
    same functions EncipheredBytes and DecipheredBytes as ClientCipher.OwnEncrypt and OwnDecrypt,
    with the 64-bit key of those given here as its eight bytes, low byte first. */
module ServerCipher {
  import opened WordCipher
  import ClientCipher

  // ---------------------------------------------------------------- counting ones

  function Twice(v: bv16): bv16 {
    v << 1
  }

  function BitMask(k: nat): bv16 {
    if k == 0 then 1 else Twice(BitMask(k - 1))
  }

  predicate BelowTop(v: bv16) {
    v & 0x8000 == 0
  }

  predicate Meets(v: bv16, mask: bv16) {
    v & mask != 0
  }

  function Bit(v: bv16, k: nat): nat {
    if Meets(v, BitMask(k)) then 1 else 0
  }

  /** The bits of v from place a up to place b. */
  function BitSum(v: bv16, a: nat, b: nat): nat
    requires a <= b
    decreases b - a
  {
    if a == b then 0 else Bit(v, a) + BitSum(v, a + 1, b)
  }

  lemma MaskBelowTop(k: nat)
    requires k < 15
    ensures BelowTop(BitMask(k))
  {
    if k == 0 {} else if k == 1 {} else if k == 2 {} else if k == 3 {} else if k == 4 {} else if k == 5 {}
    else if k == 6 {} else if k == 7 {} else if k == 8 {} else if k == 9 {} else if k == 10 {} else if k == 11 {}
    else if k == 12 {} else if k == 13 {} else { assert k == 14; }
  }

  lemma MaskUp(v: bv16, h: bv16, m: bv16, up: bv16)
    ensures m & 0x8000 == 0 && h == v >> 1 && up == m << 1 ==> (h & m == 0 <==> v & up == 0)
  {}

  lemma HalfOfTwice(m: bv16)
    ensures BelowTop(m) ==> Half(Twice(m)) == m
  {}

  lemma HalfMeets(v: bv16, m: bv16)
    ensures BelowTop(m) ==> Meets(Half(v), m) == Meets(v, Twice(m))
  {
    MaskUp(v, v >> 1, m, m << 1);
  }

  lemma {:induction false} BitOfHalf(v: bv16, k: nat)
    requires k < 15
    ensures Bit(Half(v), k) == Bit(v, k + 1)
  {
    hide BitMask, Half, Meets, Twice, BelowTop;
    MaskBelowTop(k);
    MaskNext(k);
    HalfMeets(v, BitMask(k));
  }

  lemma MaskNext(k: nat)
    ensures BitMask(k + 1) == Twice(BitMask(k))
  {}

  lemma {:induction false} BitSumOfHalf(v: bv16, a: nat, b: nat)
    requires a <= b <= 15
    ensures BitSum(Half(v), a, b) == BitSum(v, a + 1, b + 1)
    decreases b - a
  {
    hide Bit, Half;
    if a < b {
      BitOfHalf(v, a);
      BitSumOfHalf(v, a + 1, b);
    }
  }

  lemma LastBitIs(v: bv16)
    ensures Bit(v, 0) == LastBit(v)
  {
    assert BitMask(0) == 1;
  }

  lemma CountsStart(v: bv16)
    ensures PopCount(Value(v, 0)) == 0 == BitSum(v, 0, 0)
  {}

  lemma ValueStep(v: bv16, n: nat)
    requires n > 0
    ensures Value(v, n) == LastBit(v) + 2 * Value(Half(v), n - 1)
  {
    hide LastBit, Half;
  }

  lemma BitSumStep(v: bv16, n: nat)
    requires n > 0
    ensures BitSum(v, 0, n) == Bit(v, 0) + BitSum(v, 1, n)
  {
    hide Bit;
  }

  /** Halving counts the bits. */
  lemma {:induction false} PopCountIsBitSum(v: bv16, n: nat)
    requires n <= 16
    ensures PopCount(Value(v, n)) == BitSum(v, 0, n)
    decreases n
  {
    hide Bit, Half, LastBit, Value, BitSum, PopCount;
    if n == 0 {
      CountsStart(v);
    } else {
      LastBitIs(v);
      BitIsBit(v, 0);
      PopCountIsBitSum(Half(v), n - 1);
      BitSumOfHalf(v, 0, n - 1);
      PopCountDouble(LastBit(v), Value(Half(v), n - 1));
      ValueStep(v, n);
      BitSumStep(v, n);
    }
  }

  lemma BitIsBit(v: bv16, k: nat)
    ensures Bit(v, k) < 2
  {}

  lemma PopCountDouble(b: nat, n: nat)
    requires b < 2
    ensures PopCount(b + 2 * n) == b + PopCount(n)
  {}

  lemma MaskTop()
    ensures BitMask(15) == 0x8000
  {
    assert BitMask(4) == 0x10;
    assert BitMask(8) == 0x100;
    assert BitMask(12) == 0x1000;
  }

  lemma {:induction false} MaskDown(k: nat)
    requires k < 15
    ensures Half(BitMask(k + 1)) == BitMask(k)
  {
    hide BitMask, Half, Twice, BelowTop;
    MaskBelowTop(k);
    MaskNext(k);
    HalfOfTwice(BitMask(k));
  }

  /** __binary, without its printing: a mask walks down from the top bit. The count is the one
      that halving gives. */
  method GetCounter(value: bv16) returns (counter: nat)
    ensures counter == Ones(value)
  {
    hide BitMask, Value, Meets, Half, Twice;
    MaskTop();
    var cmp: bv16 := 0x8000;
    counter := 0;
    for i := 0 to 16
      invariant i < 16 ==> cmp == BitMask(15 - i)
      invariant counter == BitSum(value, 16 - i, 16)
    {
      if Meets(value, cmp) {
        counter := counter + 1;
      }
      if i < 15 { MaskDown(14 - i); }
      cmp := Half(cmp);
    }
    PopCountIsBitSum(value, 16);
  }

  // ---------------------------------------------------------------- rotations

  /** `((x) << (n)) | ((x) >> ((s) - (n)))` with s = 16, in int, stored to 16 bits. */
  function RotateLeft(x: bv16, n: nat): bv16
    requires n <= 16
  {
    ClientCipher.Narrow(Shl(ClientCipher.Wide(x), n) | Shr(ClientCipher.Wide(x), 16 - n))
  }

  function RotateRight(x: bv16, n: nat): bv16
    requires n <= 16
  {
    ClientCipher.Narrow(Shr(ClientCipher.Wide(x), n) | Shl(ClientCipher.Wide(x), 16 - n))
  }

  // High and low half of a 32-bit value joined by OR.
  function Overlaid(y: bv32): bv16 {
    (((y >> 16) | (y & 0xFFFF)) & 0xFFFF) as bv16
  }

  lemma OverlaidUp(y: bv32)
    ensures ClientCipher.TopClear(y) ==> Overlaid(ClientCipher.Up(y)) == LeftOne(Overlaid(y))
  {}

  lemma {:induction false} OverlaidShl(x: bv16, n: nat)
    requires n <= 16
    ensures Overlaid(Shl(ClientCipher.Wide(x), n)) == RotatedLeft(x, n)
  {
    hide Overlaid, LeftOne, ClientCipher.Wide, ClientCipher.Up, ClientCipher.TopClear, ClientCipher.BottomClear;
    if n == 0 {
      OverlaidNothing(x);
    } else {
      var z := ClientCipher.Wide(x);
      OverlaidShl(x, n - 1);
      ClientCipher.NarrowWide(x);
      ClientCipher.NothingLeaves(z, n - 1);
      ClientCipher.ShlIsUp(z, n - 1);
      hide Shl, Shr;
      OverlaidUp(Shl(z, n - 1));
    }
  }

  lemma OverlaidNothing(x: bv16)
    ensures Overlaid(ClientCipher.Wide(x)) == x
  {}

  lemma DownUp(y: bv32)
    ensures ClientCipher.TopClear(y) ==> ClientCipher.Down(ClientCipher.Up(y)) == y
  {}

  lemma NoShift(v: bv32)
    ensures Shl(v, 0) == v && Shr(v, 0) == v
  {}

  // Nothing is lost on the way up: shifting down again retraces it, to x itself and then below.
  lemma UpAndDown(x: bv16, n: nat)
    requires n <= 16
    ensures Shr(ClientCipher.Wide(x), 16 - n) == Shr(Shl(ClientCipher.Wide(x), n), 16)
  {
    hide ClientCipher.Wide, ClientCipher.Up, ClientCipher.Down, ClientCipher.TopClear, ClientCipher.BottomClear, Shl, Shr;
    var z := ClientCipher.Wide(x);
    var y := Shl(z, n);
    ClientCipher.NarrowWide(x);
    NoShift(y);
    NoShift(z);
    for i := 0 to n
      invariant Shr(y, i) == Shl(z, n - i)
    {
      ClientCipher.NothingLeaves(z, n - i - 1);
      ClientCipher.ShlIsUp(y, i);
      ClientCipher.ShlIsUp(z, n - i - 1);
      DownUp(Shl(z, n - i - 1));
    }
    for i := 0 to 16 - n
      invariant Shr(y, n + i) == Shr(z, i)
    {
      ClientCipher.ShlIsUp(y, n + i);
      ClientCipher.ShlIsUp(z, i);
    }
  }

  function DownFour(y: bv32): bv32 {
    ClientCipher.Down(ClientCipher.Down(ClientCipher.Down(ClientCipher.Down(y))))
  }

  lemma ShrFour(y: bv32, n: nat)
    ensures Shr(y, n + 4) == DownFour(Shr(y, n))
  {
    hide ClientCipher.Down;
    ClientCipher.ShlIsUp(y, n); ClientCipher.ShlIsUp(y, n + 1);
    ClientCipher.ShlIsUp(y, n + 2); ClientCipher.ShlIsUp(y, n + 3);
    hide Shr;
  }

  lemma SixteenDown(y: bv32)
    ensures DownFour(DownFour(DownFour(DownFour(y)))) == ClientCipher.High(y)
  {}

  lemma ShrSixteen(y: bv32)
    ensures Shr(y, 16) == ClientCipher.High(y)
  {
    assert Shr(y, 0) == y;
    hide Shr, DownFour, ClientCipher.High;
    ShrFour(y, 0); ShrFour(y, 4); ShrFour(y, 8); ShrFour(y, 12);
    SixteenDown(y);
  }

  /** Both macros are rotations: ROTATE_LEFT by n, and ROTATE_RIGHT the other way. */
  lemma RotateLeftIs(x: bv16, n: nat)
    requires n <= 16
    ensures RotateLeft(x, n) == RotatedLeft(x, n)
  {
    hide ClientCipher.Wide, ClientCipher.High, ClientCipher.Narrow, Overlaid;
    var y := Shl(ClientCipher.Wide(x), n);
    UpAndDown(x, n);
    ShrSixteen(y);
    OverlaidShl(x, n);
    OverlaidIs(y);
    hide Shl, Shr, RotatedLeft;
  }

  lemma OverlaidIs(y: bv32)
    ensures ClientCipher.Narrow(y | ClientCipher.High(y)) == Overlaid(y)
  {}

  lemma RotateRightIs(x: bv16, n: nat)
    requires n <= 16
    ensures RotateRight(x, n) == RotatedRight(x, n)
  {
    RotateLeftIs(x, 16 - n);
    RightIsLeft(x, n);
    OrSwap(Shr(ClientCipher.Wide(x), n), Shl(ClientCipher.Wide(x), 16 - n));
    hide ClientCipher.Wide, Shl, Shr, RotatedLeft, RotatedRight, ClientCipher.Narrow;
  }

  lemma OrSwap(a: bv32, b: bv32)
    ensures a | b == b | a
  {}

  // ---------------------------------------------------------------- encipher and decipher

  // charToUint16, uint16ToChar
  function CharToUint16(ch: seq<bv8>): bv16
    requires |ch| == 2
  {
    WordOf(ch[0], ch[1])
  }

  method Uint16ToChar(value: bv16, ch: array<bv8>, at: nat)
    requires at + 2 <= ch.Length
    modifies ch
    ensures ch[at] == LowByte(value) && ch[at + 1] == HighByte(value)
    ensures forall n :: 0 <= n < ch.Length && n != at && n != at + 1 ==> ch[n] == old(ch[n])
  {
    hide LowByte, HighByte;
    ch[at] := LowByte(value);
    ch[at + 1] := HighByte(value);
  }

  /** __encipher: the word written is the word returned. */
  method EncipherGroup(plain: bv16, key: bv16, cipher: array<bv8>, at: nat) returns (tmp: bv16)
    requires at + 2 <= cipher.Length
    modifies cipher
    ensures tmp == Xor(RotatedLeft(plain, Ones(key)), key)
    ensures cipher[at] == LowByte(tmp) && cipher[at + 1] == HighByte(tmp)
    ensures forall n :: 0 <= n < cipher.Length && n != at && n != at + 1 ==> cipher[n] == old(cipher[n])
  {
    hide RotateLeft, RotatedLeft, Xor, LowByte, HighByte;
    var cnt := GetCounter(key);
    RotateLeftIs(plain, cnt);
    tmp := RotateLeft(plain, cnt);
    tmp := Xor(tmp, key);
    Uint16ToChar(tmp, cipher, at);
  }

  /** The two bytes of word i of a block. */
  lemma WordAt(bytes: seq<bv8>, i: nat)
    requires |bytes| == 8 && i < 4
    ensures Words(bytes)[i] == CharToUint16([bytes[2 * i], bytes[2 * i + 1]])
  {
    hide WordOf;
  }

  lemma ByteAt(words: seq<bv16>, i: nat)
    requires i < |words|
    ensures Bytes(words)[2 * i] == LowByte(words[i]) && Bytes(words)[2 * i + 1] == HighByte(words[i])
  {
    hide LowByte, HighByte;
  }

  /** encipher, without its strlen assertions. The buffers may be the same array. */
  method Encipher(plaintext: array<bv8>, key: array<bv8>, ciphertext: array<bv8>)
    requires plaintext.Length >= 8 && key.Length >= 8 && ciphertext.Length >= 8
    modifies ciphertext
    ensures ciphertext[..] == EncipheredBytes(old(plaintext[..8]), old(key[..8])) + old(ciphertext[8..])
  {
    hide Enciphered, Words, Bytes, CharToUint16, LowByte, HighByte, Xor, RotatedLeft, Ones;
    ghost var p, k, rest := plaintext[..8], key[..8], ciphertext[8..];
    ghost var c := Enciphered(INIT_WORD, Words(p), Words(k));
    var cipherKey := INIT_WORD;
    for i := 0 to 4
      invariant cipherKey == if i == 0 then INIT_WORD else c[i - 1]
      invariant forall n :: 0 <= n < 2 * i ==> ciphertext[n] == Bytes(c)[n]
      invariant forall n :: 2 * i <= n < 8 ==> plaintext[n] == p[n] && key[n] == k[n]
      invariant ciphertext[8..] == rest
    {
      var plainPart := CharToUint16([plaintext[2 * i], plaintext[2 * i + 1]]);
      var keyPart := CharToUint16([key[2 * i], key[2 * i + 1]]);
      WordAt(p, i);
      WordAt(k, i);
      var tmp := Xor(plainPart, cipherKey);
      XorCancels(plainPart, cipherKey);
      EncipheredAt(INIT_WORD, Words(p), Words(k), i);
      cipherKey := EncipherGroup(tmp, keyPart, ciphertext, 2 * i);
      ByteAt(c, i);
    }
    assert ciphertext[..8] == Bytes(c);
    assert ciphertext[..] == ciphertext[..8] + ciphertext[8..];
  }

  /** decipher, without its strlen assertions; it also writes a terminator in plaintext[8]. */
  method Decipher(plaintext: array<bv8>, key: array<bv8>, ciphertext: array<bv8>)
    requires plaintext.Length >= 9 && key.Length >= 8 && ciphertext.Length >= 8
    modifies plaintext
    ensures plaintext[..] == DecipheredBytes(old(ciphertext[..8]), old(key[..8])) + [0] + old(plaintext[9..])
  {
    hide Deciphered, Words, Bytes, CharToUint16, LowByte, HighByte, Xor, RotatedRight, RotateRight, Ones;
    ghost var c, k, rest := ciphertext[..8], key[..8], plaintext[9..];
    ghost var p := Deciphered(INIT_WORD, Words(c), Words(k));
    var cipherKey := INIT_WORD;
    for i := 0 to 4
      invariant cipherKey == if i == 0 then INIT_WORD else Words(c)[i - 1]
      invariant forall n :: 0 <= n < 2 * i ==> plaintext[n] == Bytes(p)[n]
      invariant forall n :: 2 * i <= n < 8 ==> ciphertext[n] == c[n] && key[n] == k[n]
      invariant plaintext[9..] == rest
    {
      var cipherPart := CharToUint16([ciphertext[2 * i], ciphertext[2 * i + 1]]);
      var keyPart := CharToUint16([key[2 * i], key[2 * i + 1]]);
      WordAt(c, i);
      WordAt(k, i);
      var tmp := Xor(cipherPart, keyPart);
      var cnt := GetCounter(keyPart);
      RotateRightIs(tmp, cnt);
      tmp := RotateRight(tmp, cnt);
      tmp := Xor(tmp, cipherKey);
      DecipheredAt(INIT_WORD, Words(c), Words(k), i);
      Uint16ToChar(tmp, plaintext, 2 * i);
      ByteAt(p, i);
      cipherKey := cipherPart;
    }
    plaintext[8] := 0;
    assert plaintext[..8] == Bytes(p);
    assert plaintext[..] == plaintext[..8] + [plaintext[8]] + plaintext[9..];
  }

  // ---------------------------------------------------------------- both ciphers

  /** The client's and the server's cipher, run on one block, the server's with the bytes the client
      would write for the key: the results are the same. */
  method EncipherBoth(block: array<bv8>, key: bv64) returns (client: seq<bv8>, server: seq<bv8>)
    requires block.Length >= 8
    ensures client == server == EncipheredBytes(block[..8], ClientCipher.CharsOf(key, 8))
  {
    hide EncipheredBytes, ClientCipher.CharsOf, ClientCipher.KeyBytes;
    var keyBytes, first, second := new bv8[8], new bv8[8], new bv8[8];
    ClientCipher.KeyBytesInMemory(key);
    ClientCipher.Longlong2Char(key, keyBytes, 0);
    ClientCipher.OwnEncrypt(block, 0, first, 0, key);
    Encipher(block, keyBytes, second);
    assert block[0..8] == block[..8] && keyBytes[0..8] == keyBytes[..8];
    client, server := first[0..8], second[..8];
  }

  method DecipherBoth(block: array<bv8>, key: bv64) returns (client: seq<bv8>, server: seq<bv8>)
    requires block.Length >= 8
    ensures client == server == DecipheredBytes(block[..8], ClientCipher.CharsOf(key, 8))
  {
    hide DecipheredBytes, ClientCipher.CharsOf, ClientCipher.KeyBytes;
    var keyBytes, first, second := new bv8[8], new bv8[8], new bv8[9];
    ClientCipher.KeyBytesInMemory(key);
    ClientCipher.Longlong2Char(key, keyBytes, 0);
    ClientCipher.OwnDecrypt(block, 0, first, 0, key);
    Decipher(second, keyBytes, block);
    assert block[0..8] == block[..8] && keyBytes[0..8] == keyBytes[..8];
    client, server := first[0..8], second[..8];
  }
}
