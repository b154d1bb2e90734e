/** The block cipher both programs use, on words of 16 bits: each plaintext word is combined
    with the ciphertext word before it, rotated left by the number of ones in its key word, and
    combined with that key word. client/DES/cipher.c and server/cipher.c each implement it in
    their own way; modules ClientCipher and ServerCipher prove they implement this. */
module WordCipher {
  import opened Numbers

  // ENCRYPT in client/DES/cipher.h:19, INITKEY in server/cipher.h:9
  const INIT_WORD: bv16 := 0x1234

  /** The number of ones in the binary form of n. */
  function PopCount(n: nat): nat {
    if n == 0 then 0 else n % 2 + PopCount(n / 2)
  }

  lemma {:induction false} PopCountAtMost(n: nat, k: nat)
    requires n < Pow2(k)
    ensures PopCount(n) <= k
    decreases k
  {
    if k > 0 { PopCountAtMost(n / 2, k - 1); }
  }

  function Half(v: bv16): bv16 {
    v >> 1
  }

  function LastBit(v: bv16): nat {
    if v & 1 == 0 then 0 else 1
  }

  /** The number that the n low bits of v stand for. */
  function Value(v: bv16, n: nat): (r: nat)
    ensures r < Pow2(n)
    decreases n
  {
    if n == 0 then 0 else LastBit(v) + 2 * Value(Half(v), n - 1)
  }

  /** The rotation amount a key word asks for: 0 to 16. */
  function Ones(key: bv16): (n: nat)
    ensures n <= 16
  {
    PopCountAtMost(Value(key, 16), 16);
    PopCount(Value(key, 16))
  }

  // ---------------------------------------------------------------- shifts and rotations

  /** `x << n` and `x >> n` on C's 32-bit unsigned type, n single places. */
  function Shl(x: bv32, n: nat): bv32 {
    if n == 0 then x else Shl(x, n - 1) << 1
  }

  function Shr(x: bv32, n: nat): bv32 {
    if n == 0 then x else Shr(x, n - 1) >> 1
  }

  function LeftOne(x: bv16): bv16 {
    (x << 1) | (x >> 15)
  }

  function RightOne(x: bv16): bv16 {
    (x >> 1) | (x << 15)
  }

  function RotatedLeft(x: bv16, n: nat): bv16 {
    if n == 0 then x else LeftOne(RotatedLeft(x, n - 1))
  }

  function RotatedRight(x: bv16, n: nat): bv16 {
    if n == 0 then x else RightOne(RotatedRight(x, n - 1))
  }

  lemma OneCancels(x: bv16)
    ensures RightOne(LeftOne(x)) == x && LeftOne(RightOne(x)) == x
  {}

  lemma {:induction false} RightOneFirst(x: bv16, n: nat)
    ensures RotatedRight(RightOne(x), n) == RightOne(RotatedRight(x, n))
    ensures RotatedLeft(LeftOne(x), n) == LeftOne(RotatedLeft(x, n))
  {
    hide RightOne, LeftOne;
    if n > 0 { RightOneFirst(x, n - 1); }
  }

  lemma {:induction false} RotationsCancel(x: bv16, n: nat)
    ensures RotatedRight(RotatedLeft(x, n), n) == x
    ensures RotatedLeft(RotatedRight(x, n), n) == x
  {
    hide RightOne, LeftOne;
    if n > 0 {
      RightOneFirst(RotatedLeft(x, n), n - 1);
      OneCancels(RotatedLeft(x, n - 1));
      RightOneFirst(RotatedRight(x, n), n - 1);
      OneCancels(RotatedRight(x, n - 1));
      RotationsCancel(x, n - 1);
    }
  }

  /** Sixteen places are a full turn. */
  lemma FullTurn(x: bv16)
    ensures RotatedLeft(x, 16) == x
  {
    var x4, x8, x12 := LeftFour(x), LeftFour(LeftFour(x)), LeftFour(LeftFour(LeftFour(x)));
    hide LeftOne;
    FourPlaces(x, 0); FourPlaces(x, 4); FourPlaces(x, 8); FourPlaces(x, 12);
    FourFours(x);
  }

  function LeftFour(x: bv16): bv16 {
    LeftOne(LeftOne(LeftOne(LeftOne(x))))
  }

  lemma FourPlaces(x: bv16, n: nat)
    ensures RotatedLeft(x, n + 4) == LeftFour(RotatedLeft(x, n))
  {
    hide LeftOne;
    assert RotatedLeft(x, n + 2) == LeftOne(LeftOne(RotatedLeft(x, n)));
  }

  lemma FourFours(x: bv16)
    ensures LeftFour(LeftFour(LeftFour(LeftFour(x)))) == x
  {}

  lemma {:induction false} RotatedLeftAdd(x: bv16, m: nat, n: nat)
    ensures RotatedLeft(RotatedLeft(x, m), n) == RotatedLeft(x, m + n)
  {
    hide LeftOne;
    if n > 0 { RotatedLeftAdd(x, m, n - 1); }
  }

  /** Turning right is turning left the rest of the way. */
  lemma RightIsLeft(x: bv16, n: nat)
    requires n <= 16
    ensures RotatedRight(x, n) == RotatedLeft(x, 16 - n)
  {
    RotatedLeftAdd(RotatedRight(x, n), n, 16 - n);
    RotationsCancel(x, n);
    FullTurn(RotatedRight(x, n));
  }

  function Xor(a: bv16, b: bv16): bv16 {
    a ^ b
  }

  lemma XorCancels(a: bv16, b: bv16)
    ensures Xor(Xor(a, b), b) == a && Xor(Xor(a, b), a) == b && Xor(a, b) == Xor(b, a)
  {}

  function EncipheredWord(previous: bv16, plain: bv16, key: bv16): bv16 {
    Xor(RotatedLeft(Xor(previous, plain), Ones(key)), key)
  }

  function DecipheredWord(previous: bv16, cipher: bv16, key: bv16): bv16 {
    Xor(RotatedRight(Xor(cipher, key), Ones(key)), previous)
  }

  lemma WordRoundTrip(previous: bv16, w: bv16, key: bv16)
    ensures DecipheredWord(previous, EncipheredWord(previous, w, key), key) == w
    ensures EncipheredWord(previous, DecipheredWord(previous, w, key), key) == w
  {
    hide Xor, RotatedLeft, RotatedRight, Ones;
    var n := Ones(key);
    var mixed, turned := Xor(previous, w), RotatedLeft(Xor(previous, w), n);
    XorCancels(turned, key);
    RotationsCancel(mixed, n);
    XorCancels(previous, w);
    var clear, back := Xor(w, key), RotatedRight(Xor(w, key), n);
    XorCancels(back, previous);
    XorCancels(previous, Xor(back, previous));
    RotationsCancel(clear, n);
    XorCancels(w, key);
  }

  // ---------------------------------------------------------------- blocks

  /** The cipher on a row of words; the word before the first is `previous`. */
  function Enciphered(previous: bv16, plain: seq<bv16>, key: seq<bv16>): (cipher: seq<bv16>)
    requires |plain| == |key|
    ensures |cipher| == |plain|
    decreases |plain|
  {
    if plain == [] then []
    else
      var c := EncipheredWord(previous, plain[0], key[0]);
      [c] + Enciphered(c, plain[1..], key[1..])
  }

  function Deciphered(previous: bv16, cipher: seq<bv16>, key: seq<bv16>): (plain: seq<bv16>)
    requires |cipher| == |key|
    ensures |plain| == |cipher|
    decreases |cipher|
  {
    if cipher == [] then []
    else [DecipheredWord(previous, cipher[0], key[0])] + Deciphered(cipher[0], cipher[1..], key[1..])
  }

  lemma {:induction false} DecipheredEnciphered(previous: bv16, words: seq<bv16>, key: seq<bv16>)
    requires |words| == |key|
    ensures Deciphered(previous, Enciphered(previous, words, key), key) == words
    decreases |words|
  {
    hide EncipheredWord, DecipheredWord;
    if words != [] {
      WordRoundTrip(previous, words[0], key[0]);
      var c := EncipheredWord(previous, words[0], key[0]);
      assert Enciphered(previous, words, key)[1..] == Enciphered(c, words[1..], key[1..]);
      DecipheredEnciphered(c, words[1..], key[1..]);
    }
  }

  lemma {:induction false} EncipheredDeciphered(previous: bv16, words: seq<bv16>, key: seq<bv16>)
    requires |words| == |key|
    ensures Enciphered(previous, Deciphered(previous, words, key), key) == words
    decreases |words|
  {
    hide EncipheredWord, DecipheredWord;
    if words != [] {
      WordRoundTrip(previous, words[0], key[0]);
      assert Deciphered(previous, words, key)[1..] == Deciphered(words[0], words[1..], key[1..]);
      EncipheredDeciphered(words[0], words[1..], key[1..]);
    }
  }

  /** Each direction undoes the other, for any words and any key. */
  lemma BlockRoundTrip(previous: bv16, words: seq<bv16>, key: seq<bv16>)
    requires |words| == |key|
    ensures Deciphered(previous, Enciphered(previous, words, key), key) == words
    ensures Enciphered(previous, Deciphered(previous, words, key), key) == words
  {
    hide Enciphered, Deciphered;
    DecipheredEnciphered(previous, words, key);
    EncipheredDeciphered(previous, words, key);
  }

  /** Plaintext word i depends on ciphertext words i - 1 and i alone. */
  lemma {:induction false} DecipheredAt(previous: bv16, cipher: seq<bv16>, key: seq<bv16>, i: nat)
    requires |cipher| == |key| && i < |cipher|
    ensures Deciphered(previous, cipher, key)[i]
         == DecipheredWord(if i == 0 then previous else cipher[i - 1], cipher[i], key[i])
    decreases i
  {
    hide DecipheredWord;
    if i > 0 { DecipheredAt(cipher[0], cipher[1..], key[1..], i - 1); }
  }

  /** Ciphertext word i, from the plaintext word i and the ciphertext word before it. */
  lemma {:induction false} EncipheredAt(previous: bv16, plain: seq<bv16>, key: seq<bv16>, i: nat)
    requires |plain| == |key| && i < |plain|
    ensures Enciphered(previous, plain, key)[i]
         == EncipheredWord(if i == 0 then previous else Enciphered(previous, plain, key)[i - 1], plain[i], key[i])
    decreases i
  {
    hide EncipheredWord;
    if i > 0 {
      var c := EncipheredWord(previous, plain[0], key[0]);
      EncipheredAt(c, plain[1..], key[1..], i - 1);
    }
  }

  /** Deciphering a front of the words needs only that front. */
  lemma DecipheredFront(previous: bv16, cipher: seq<bv16>, cipher': seq<bv16>, key: seq<bv16>, n: nat)
    requires |cipher| == |cipher'| == |key| && n <= |key| && cipher[..n] == cipher'[..n]
    ensures Deciphered(previous, cipher, key)[..n] == Deciphered(previous, cipher', key)[..n]
  {
    forall i: nat | i < n
      ensures Deciphered(previous, cipher, key)[i] == Deciphered(previous, cipher', key)[i]
    {
      hide DecipheredWord;
      assert cipher[i] == cipher[..n][i] == cipher'[..n][i];
      if i > 0 { assert cipher[i - 1] == cipher[..n][i - 1] == cipher'[..n][i - 1]; }
      DecipheredAt(previous, cipher, key, i);
      DecipheredAt(previous, cipher', key, i);
    }
  }

  // ---------------------------------------------------------------- bytes and words

  function WordOf(low: bv8, high: bv8): bv16 {
    ((high as bv16) << 8) | (low as bv16)
  }

  function LowByte(w: bv16): bv8 {
    (w & 0x00FF) as bv8
  }

  function HighByte(w: bv16): bv8 {
    (w >> 8) as bv8
  }

  lemma WordBytes(w: bv16, low: bv8, high: bv8)
    ensures WordOf(LowByte(w), HighByte(w)) == w
    ensures LowByte(WordOf(low, high)) == low && HighByte(WordOf(low, high)) == high
  {}

  /** Bytes read two by two, low byte first. */
  function Words(bytes: seq<bv8>): (words: seq<bv16>)
    requires |bytes| % 2 == 0
    ensures |words| == |bytes| / 2
    ensures forall i :: 0 <= i < |words| ==> words[i] == WordOf(bytes[2 * i], bytes[2 * i + 1])
  {
    seq(|bytes| / 2, i requires 0 <= i < |bytes| / 2 => WordOf(bytes[2 * i], bytes[2 * i + 1]))
  }

  function Bytes(words: seq<bv16>): (bytes: seq<bv8>)
    ensures |bytes| == 2 * |words|
    ensures forall i :: 0 <= i < |bytes| ==> bytes[i] == HalfOf(words[i / 2], i % 2 == 0)
  {
    seq(2 * |words|, i requires 0 <= i < 2 * |words| => HalfOf(words[i / 2], i % 2 == 0))
  }

  function HalfOf(w: bv16, low: bool): bv8 {
    if low then LowByte(w) else HighByte(w)
  }

  lemma WordsOfBytes(words: seq<bv16>)
    ensures Words(Bytes(words)) == words
  {
    hide WordOf, LowByte, HighByte;
    var bytes := Bytes(words);
    forall i: nat | i < |words| ensures Words(bytes)[i] == words[i] {
      WordBytes(words[i], 0, 0);
      var low, high := 2 * i, 2 * i + 1;
      assert low / 2 == i && high / 2 == i && low % 2 == 0 && high % 2 == 1;
      assert bytes[low] == LowByte(words[i]) && bytes[high] == HighByte(words[i]);
    }
  }

  lemma BytesOfWords(bytes: seq<bv8>)
    requires |bytes| % 2 == 0
    ensures Bytes(Words(bytes)) == bytes
  {
    hide WordOf, LowByte, HighByte;
    forall i: nat | i < |bytes| ensures Bytes(Words(bytes))[i] == bytes[i] {
      var q := i / 2;
      WordBytes(0, bytes[2 * q], bytes[2 * q + 1]);
      assert i == 2 * q || i == 2 * q + 1;
    }
  }

  /** The cipher on a block of bytes under a key of as many bytes. */
  function EncipheredBytes(plain: seq<bv8>, key: seq<bv8>): (cipher: seq<bv8>)
    requires |plain| == |key| && |plain| % 2 == 0
    ensures |cipher| == |plain|
  {
    Bytes(Enciphered(INIT_WORD, Words(plain), Words(key)))
  }

  function DecipheredBytes(cipher: seq<bv8>, key: seq<bv8>): (plain: seq<bv8>)
    requires |cipher| == |key| && |cipher| % 2 == 0
    ensures |plain| == |cipher|
  {
    Bytes(Deciphered(INIT_WORD, Words(cipher), Words(key)))
  }

  /** Both orders, for all bytes and all keys. */
  lemma BytesRoundTrip(bytes: seq<bv8>, key: seq<bv8>)
    requires |bytes| == |key| && |bytes| % 2 == 0
    ensures DecipheredBytes(EncipheredBytes(bytes, key), key) == bytes
    ensures EncipheredBytes(DecipheredBytes(bytes, key), key) == bytes
  {
    hide Enciphered, Deciphered, Words, Bytes;
    WordsOfBytes(Enciphered(INIT_WORD, Words(bytes), Words(key)));
    WordsOfBytes(Deciphered(INIT_WORD, Words(bytes), Words(key)));
    BlockRoundTrip(INIT_WORD, Words(bytes), Words(key));
    BytesOfWords(bytes);
  }

  /** The first n bytes of the plaintext need only the first n bytes of the ciphertext. */
  lemma DecipheredBytesFront(cipher: seq<bv8>, cipher': seq<bv8>, key: seq<bv8>, n: nat)
    requires |cipher| == |cipher'| == |key| && |key| % 2 == 0
    requires 2 * n <= |key| && cipher[..2 * n] == cipher'[..2 * n]
    ensures DecipheredBytes(cipher, key)[..2 * n] == DecipheredBytes(cipher', key)[..2 * n]
  {
    hide Deciphered, WordOf, HalfOf;
    var w, w' := Words(cipher), Words(cipher');
    forall i | 0 <= i < n ensures w[..n][i] == w'[..n][i] {
      assert cipher[2 * i] == cipher[..2 * n][2 * i] && cipher[2 * i + 1] == cipher[..2 * n][2 * i + 1];
    }
    DecipheredFront(INIT_WORD, w, w', Words(key), n);
    var p, p' := Deciphered(INIT_WORD, w, Words(key)), Deciphered(INIT_WORD, w', Words(key));
    forall i: nat | i < 2 * n ensures Bytes(p)[i] == Bytes(p')[i] {
      assert p[i / 2] == p[..n][i / 2] == p'[..n][i / 2] == p'[i / 2];
    }
  }
}
