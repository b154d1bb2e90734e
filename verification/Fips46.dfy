/** The Data Encryption Standard as FIPS PUB 46-3 describes it, on strings of bits: "Enciphering",
    "Deciphering", "The Cipher Function f" and the key schedule KS of Appendix 1. This is the
    reference that module Des, the packed byte code, is proved to implement; the laws that DES
    is known for are proved here and carried over there. */
module Fips46 {
  import opened Bits
  import opened DesTables

  type Block = b: seq<bool> | |b| == 64 witness Zeros(64)
  type Half = b: seq<bool> | |b| == 32 witness Zeros(32)
  type Subkey = b: seq<bool> | |b| == 48 witness Zeros(48)
  type Register = b: seq<bool> | |b| == 28 witness Zeros(28)

  ghost predicate Selects(table: seq<nat>, width: nat) {
    forall i :: 0 <= i < |table| ==> 1 <= table[i] <= width
  }

  /** Bit i of the result is bit table[i] of b, counting from one as the standard does. */
  function Permuted(table: seq<nat>, b: seq<bool>): (r: seq<bool>)
    requires Selects(table, |b|)
    ensures |r| == |table|
    ensures forall i :: 0 <= i < |table| ==> r[i] == b[table[i] - 1]
  {
    seq(|table|, i requires 0 <= i < |table| => b[table[i] - 1])
  }

  // ---------------------------------------------------------------- the cipher function f

  function BitValue(b: bool): nat {
    if b then 1 else 0
  }

  /** The first and last bit choose the row, the four between them the column. */
  function SBoxIndex(b: seq<bool>): (i: nat)
    requires |b| == 6
    ensures i < 64
  {
    var row := 2 * BitValue(b[0]) + BitValue(b[5]);
    var column := 8 * BitValue(b[1]) + 4 * BitValue(b[2]) + 2 * BitValue(b[3]) + BitValue(b[4]);
    16 * row + column
  }

  function SBoxTable(box: nat): (table: seq<bv8>)
    requires box < 8
    ensures |table| == 64
  {
    match box
    case 0 => S1 case 1 => S2 case 2 => S3 case 3 => S4
    case 4 => S5 case 5 => S6 case 6 => S7 case _ => S8
  }

  function SBox(box: nat, i: nat): bv8
    requires box < 8 && i < 64
  {
    SBoxTable(box)[i]
  }

  lemma SBoxIsNibble(box: nat, i: nat)
    requires box < 8 && i < 64
    ensures SBox(box, i) < 16
  {
    match box
    case 0 => BoxEntry(64, S1Entry, i); case 1 => BoxEntry(64, S2Entry, i);
    case 2 => BoxEntry(64, S3Entry, i); case 3 => BoxEntry(64, S4Entry, i);
    case 4 => BoxEntry(64, S5Entry, i); case 5 => BoxEntry(64, S6Entry, i);
    case 6 => BoxEntry(64, S7Entry, i); case _ => BoxEntry(64, S8Entry, i);
  }

  function Group(b: Subkey, box: nat): (g: seq<bool>)
    requires box < 8
    ensures |g| == 6
  {
    b[6 * box..6 * box + 6]
  }

  /** The 32 output bits of the eight S-boxes, four bits from each. */
  function Substituted(b: Subkey): (r: Half) {
    seq(32, i requires 0 <= i < 32 => BitOf(SBox(i / 4, SBoxIndex(Group(b, i / 4))), 4 + i % 4))
  }

  function CipherFunction(r: Half, k: Subkey): Half {
    Permuted(PERMUTATION_P, Substituted(Xor(Permuted(EXPANSION, r), k)))
  }

  // ---------------------------------------------------------------- enciphering and deciphering

  function Round(l: Half, r: Half, k: Subkey): (Half, Half) {
    (r, Xor(l, CipherFunction(r, k)))
  }

  function Rounds(l: Half, r: Half, keys: seq<Subkey>): (Half, Half)
    decreases |keys|
  {
    if keys == [] then (l, r)
    else
      var (l', r') := Round(l, r, keys[0]);
      Rounds(l', r', keys[1..])
  }

  function Reversed(keys: seq<Subkey>): (r: seq<Subkey>)
    ensures |r| == |keys|
    ensures forall i :: 0 <= i < |keys| ==> r[i] == keys[|keys| - 1 - i]
  {
    if keys == [] then [] else Reversed(keys[1..]) + [keys[0]]
  }

  /** The computation both directions share: the initial permutation, the rounds, the exchanged
      halves, the final permutation. */
  function Crypt(block: Block, keys: seq<Subkey>): Block {
    hide Rounds, Permuted, Reversed;
    var x := Permuted(INITIAL_PERMUTATION, block);
    var (l, r) := Rounds(x[..32], x[32..], keys);
    Permuted(FINAL_PERMUTATION, r + l)
  }

  function Encipher(block: Block, keys: seq<Subkey>): Block {
    Crypt(block, keys)
  }

  function Decipher(block: Block, keys: seq<Subkey>): Block {
    Crypt(block, Reversed(keys))
  }

  // The regular pattern behind IP: entry (row, column) reads byte 7 - column, bit IpBit(row).
  function IpBit(row: nat): nat {
    if row < 4 then 2 * row + 1 else 2 * (row - 4)
  }

  lemma InitialPattern(i: nat)
    requires i < 64
    ensures Initial(i) == 8 * (7 - i % 8) + IpBit(i / 8) + 1
  {}

  // The pattern behind the final permutation: entry (row, column) reads bit 7 - row of byte FpByte(column).
  function FpByte(column: nat): nat {
    if column % 2 == 0 then 4 + column / 2 else column / 2
  }

  lemma FinalPattern(i: nat)
    requires i < 64
    ensures Final(i) == 8 * FpByte(i % 8) + (7 - i / 8) + 1
  {}

  lemma RowAndColumn(row: nat, column: nat)
    requires row < 8 && column < 8
    ensures (8 * row + column) / 8 == row && (8 * row + column) % 8 == column
  {}

  lemma PatternsInvert(i: nat)
    requires i < 64
    ensures var f := 8 * FpByte(i % 8) + (7 - i / 8);
            f < 64 && 8 * (7 - f % 8) + IpBit(f / 8) == i
    ensures var p := 8 * (7 - i % 8) + IpBit(i / 8);
            p < 64 && 8 * FpByte(p % 8) + (7 - p / 8) == i
  {
    RowAndColumn(FpByte(i % 8), 7 - i / 8);
    RowAndColumn(7 - i % 8, IpBit(i / 8));
  }

  lemma FinalUndoesInitialAt(i: nat)
    requires i < 64
    ensures Initial(Final(i) - 1) == i + 1
    ensures Final(Initial(i) - 1) == i + 1
  {
    var f, p := 8 * FpByte(i % 8) + (7 - i / 8), 8 * (7 - i % 8) + IpBit(i / 8);
    PatternsInvert(i);
    FinalPattern(i);
    InitialPattern(f);
    InitialPattern(i);
    FinalPattern(p);
  }

  lemma FinalUndoesInitial(b: Block)
    ensures Permuted(FINAL_PERMUTATION, Permuted(INITIAL_PERMUTATION, b)) == b
    ensures Permuted(INITIAL_PERMUTATION, Permuted(FINAL_PERMUTATION, b)) == b
  {
    var x, y := Permuted(FINAL_PERMUTATION, Permuted(INITIAL_PERMUTATION, b)),
                Permuted(INITIAL_PERMUTATION, Permuted(FINAL_PERMUTATION, b));
    forall i: nat | i < 64
      ensures x[i] == b[i] && y[i] == b[i]
    {
      FinalUndoesInitialAt(i);
    }
  }

  lemma {:induction false} RoundsAppend(l: Half, r: Half, keys: seq<Subkey>, k: Subkey)
    ensures var (l', r') := Rounds(l, r, keys);
            Rounds(l, r, keys + [k]) == Round(l', r', k)
    decreases |keys|
  {
    if keys == [] {
      assert (keys + [k])[1..] == [];
    } else {
      var (l1, r1) := Round(l, r, keys[0]);
      assert (keys + [k])[1..] == keys[1..] + [k];
      RoundsAppend(l1, r1, keys[1..], k);
    }
  }

  lemma XorCancels(a: seq<bool>, b: seq<bool>)
    requires |a| == |b|
    ensures Xor(Xor(a, b), b) == a
  {}

  /** Running the rounds with the keys reversed on the exchanged halves returns the exchanged
      starting halves, whatever the keys and however many there are. */
  lemma {:induction false} RoundsReversed(l: Half, r: Half, keys: seq<Subkey>)
    ensures var (l', r') := Rounds(l, r, keys);
            Rounds(r', l', Reversed(keys)) == (r, l)
    decreases |keys|
  {
    if keys != [] {
      var (l1, r1) := Round(l, r, keys[0]);
      var (l', r') := Rounds(l1, r1, keys[1..]);
      RoundsReversed(l1, r1, keys[1..]);
      RoundsAppend(r', l', Reversed(keys[1..]), keys[0]);
      XorCancels(l, CipherFunction(r, keys[0]));
    }
  }

  lemma ReversedTwice(keys: seq<Subkey>)
    ensures Reversed(Reversed(keys)) == keys
  {}

  /** Deciphering undoes enciphering and the other way round, for every block and any subkeys. */
  lemma DecipherUndoesEncipher(block: Block, keys: seq<Subkey>)
    ensures Decipher(Encipher(block, keys), keys) == block
    ensures Encipher(Decipher(block, keys), keys) == block
  {
    CryptReversed(block, keys);
    CryptReversed(block, Reversed(keys));
    ReversedTwice(keys);
  }

  lemma CryptReversed(block: Block, keys: seq<Subkey>)
    ensures Crypt(Crypt(block, keys), Reversed(keys)) == block
  {
    hide Rounds, Permuted, Reversed;
    var x := Permuted(INITIAL_PERMUTATION, block);
    var (l, r) := Rounds(x[..32], x[32..], keys);
    FinalUndoesInitial(r + l);
    RoundsReversed(x[..32], x[32..], keys);
    assert (r + l)[..32] == r && (r + l)[32..] == l;
    assert x[..32] + x[32..] == x;
    FinalUndoesInitial(block);
  }

  // ---------------------------------------------------------------- the key schedule

  function RotatedLeft(b: Register, n: nat): Register
    requires n <= 28
  {
    b[n..] + b[..n]
  }

  // The number of left shifts of iteration i, 1 <= i <= 16; key_shift_sizes, des.c:25
  function KeyShift(i: nat): (n: nat)
    ensures n == 1 || n == 2
  {
    match i case 1 => 1 case 2 => 1 case 9 => 1 case 16 => 1 case _ => 2
  }

  function TotalShift(i: nat): nat {
    if i == 0 then 0 else TotalShift(i - 1) + KeyShift(i)
  }

  function Rotated(b: Register, i: nat): Register {
    if i == 0 then b else RotatedLeft(Rotated(b, i - 1), KeyShift(i))
  }

  function C0(key: Block): Register {
    Permuted(PERMUTED_CHOICE_1, key)[..28]
  }

  function D0(key: Block): Register {
    Permuted(PERMUTED_CHOICE_1, key)[28..]
  }

  function SubkeyOf(c: Register, d: Register): Subkey {
    Permuted(PERMUTED_CHOICE_2, c + d)
  }

  function SubkeyAt(key: Block, i: nat): Subkey {
    SubkeyOf(Rotated(C0(key), i), Rotated(D0(key), i))
  }

  function KeySchedule(key: Block): (keys: seq<Subkey>)
    ensures |keys| == 16
  {
    seq(16, i requires 0 <= i < 16 => SubkeyAt(key, i + 1))
  }

  lemma ShiftsSumTo28()
    ensures TotalShift(16) == 28
  {
    assert TotalShift(8) == 14;
  }

  lemma {:induction false} TotalShiftMonotone(i: nat, j: nat)
    requires i <= j
    ensures TotalShift(i) <= TotalShift(j)
  {
    if i < j { TotalShiftMonotone(i, j - 1); }
  }

  lemma RotateTwice(b: Register, m: nat, n: nat)
    requires m + n <= 28
    ensures RotatedLeft(RotatedLeft(b, m), n) == RotatedLeft(b, m + n)
  {}

  /** Iteration i holds the starting register rotated left by the sum of the shifts so far. */
  lemma {:induction false} RotatedIsOneRotation(b: Register, i: nat)
    requires i <= 16
    ensures TotalShift(i) <= 28
    ensures Rotated(b, i) == RotatedLeft(b, TotalShift(i))
  {
    ShiftsSumTo28();
    TotalShiftMonotone(i, 16);
    if i > 0 {
      RotatedIsOneRotation(b, i - 1);
      RotateTwice(b, TotalShift(i - 1), KeyShift(i));
    }
  }

  /** The sixteen shifts bring both registers back to where they started. */
  lemma RegistersReturn(b: Register)
    ensures Rotated(b, 16) == b
  {
    RotatedIsOneRotation(b, 16);
    ShiftsSumTo28();
  }

  // ---------------------------------------------------------------- which key bits matter

  /** The eight bits that PC-1 leaves out, one at the end of each key byte. */
  predicate ParityBit(i: nat) {
    i % 8 == 7
  }

  ghost predicate SameUpToParity(key: Block, other: Block) {
    forall i: nat :: i < 64 && !ParityBit(i) ==> key[i] == other[i]
  }

  lemma Choice1SkipsParity(i: nat)
    requires i < 56
    ensures !ParityBit(KeyChoice1(i) - 1)
  {}

  // Where PC-1 puts bit `bit` of key byte `byte`.
  function Choice1Place(byte: nat, bit: nat): (i: nat)
    requires byte < 8 && bit < 7
    ensures i < 56
  {
    if bit < 3 || (bit == 3 && byte >= 4) then 8 * bit + 7 - byte
    else if bit == 3 then 55 - byte
    else 28 + 8 * (6 - bit) + 7 - byte
  }

  lemma Choice1Pattern(i: nat)
    requires i < 56
    ensures i < 28 ==> KeyChoice1(i) == 57 - 8 * (i % 8) + i / 8
    ensures 28 <= i < 52 ==> KeyChoice1(i) == 63 - 8 * ((i - 28) % 8) - (i - 28) / 8
    ensures 52 <= i ==> KeyChoice1(i) == 28 - 8 * (i - 52)
  {}

  lemma Choice1Reaches(byte: nat, bit: nat)
    requires byte < 8 && bit < 7
    ensures KeyChoice1(Choice1Place(byte, bit)) - 1 == 8 * byte + bit
  {
    Choice1Pattern(Choice1Place(byte, bit));
    if bit < 4 { RowAndColumn(bit, 7 - byte); } else { RowAndColumn(6 - bit, 7 - byte); }
  }

  // The eight places of C and D that PC-2 leaves out.
  predicate DroppedByChoice2(p: nat) {
    p in {9, 18, 22, 25, 35, 38, 43, 54}
  }

  // Where PC-2 puts place p of C and D.
  function Choice2Place(p: nat): (j: nat)
    ensures j < 48
  {
    if p <= 28 then
      match p case 1 => 4 case 2 => 23 case 3 => 6 case 4 => 15 case 5 => 5 case 6 => 9
      case 7 => 19 case 8 => 17 case 10 => 11 case 11 => 2 case 12 => 14 case 13 => 22
      case 14 => 0 case 15 => 8 case 16 => 18 case 17 => 1 case 19 => 13 case 20 => 21
      case 21 => 10 case 23 => 12 case 24 => 3 case 26 => 16 case 27 => 20 case _ => 7
    else
      match p case 29 => 46 case 30 => 30 case 31 => 26 case 32 => 47 case 33 => 34 case 34 => 40
      case 36 => 45 case 37 => 27 case 39 => 38 case 40 => 31 case 41 => 24 case 42 => 43
      case 44 => 36 case 45 => 33 case 46 => 42 case 47 => 28 case 48 => 35 case 49 => 37
      case 50 => 44 case 51 => 32 case 52 => 25 case 53 => 41 case 55 => 29 case _ => 39
  }

  lemma Choice2Reaches(p: nat)
    requires 1 <= p <= 56 && !DroppedByChoice2(p)
    ensures KeyChoice2(Choice2Place(p)) == p
  {}

  lemma SubkeyDetermines(c: Register, d: Register, c': Register, d': Register, p: nat)
    requires SubkeyOf(c, d) == SubkeyOf(c', d')
    requires 1 <= p <= 56 && !DroppedByChoice2(p)
    ensures (c + d)[p - 1] == (c' + d')[p - 1]
  {
    Choice2Reaches(p);
    assert SubkeyOf(c, d)[Choice2Place(p)] == SubkeyOf(c', d')[Choice2Place(p)];
  }

  /** The first two subkeys already fix all 56 bits of C0 and D0: what PC-2 drops in one
      iteration it keeps in the other. */
  lemma TwoSubkeysDetermine(c: Register, d: Register, c': Register, d': Register)
    requires forall i :: 1 <= i <= 2 ==> SubkeyOf(Rotated(c, i), Rotated(d, i)) == SubkeyOf(Rotated(c', i), Rotated(d', i))
    ensures c == c' && d == d'
  {
    assert KeyShift(1) == 1 && KeyShift(2) == 1;
    assert SubkeyOf(Rotated(c, 1), Rotated(d, 1)) == SubkeyOf(Rotated(c', 1), Rotated(d', 1));
    assert SubkeyOf(Rotated(c, 2), Rotated(d, 2)) == SubkeyOf(Rotated(c', 2), Rotated(d', 2));
    forall q: nat | q < 28
      ensures c[q] == c'[q] && d[q] == d'[q]
    {
      RotatedTwiceAt(c, q); RotatedTwiceAt(c', q); RotatedTwiceAt(d, q); RotatedTwiceAt(d', q);
      var p := if q == 0 then 28 else q;
      if DroppedByChoice2(p) {
        SubkeyDetermines(Rotated(c, 2), Rotated(d, 2), Rotated(c', 2), Rotated(d', 2), p - 1);
      } else {
        SubkeyDetermines(Rotated(c, 1), Rotated(d, 1), Rotated(c', 1), Rotated(d', 1), p);
      }
      if DroppedByChoice2(28 + p) {
        SubkeyDetermines(Rotated(c, 2), Rotated(d, 2), Rotated(c', 2), Rotated(d', 2), 27 + p);
      } else {
        SubkeyDetermines(Rotated(c, 1), Rotated(d, 1), Rotated(c', 1), Rotated(d', 1), 28 + p);
      }
    }
  }

  lemma RotatedTwiceAt(b: Register, q: nat)
    requires q < 28
    ensures Rotated(b, 1)[if q == 0 then 27 else q - 1] == b[q]
    ensures q >= 2 ==> Rotated(b, 2)[q - 2] == b[q]
  {
    assert Rotated(b, 0) == b;
    assert Rotated(b, 1) == RotatedLeft(b, 1);
    assert Rotated(b, 2) == RotatedLeft(Rotated(b, 1), 1);
  }

  /** The schedule is a function of the 56 bits that are not parity bits, and of every one of
      them: two keys have the same subkeys exactly when they differ in parity bits only. */
  lemma ScheduleIgnoresExactlyParity(key: Block, other: Block)
    ensures KeySchedule(key) == KeySchedule(other) <==> SameUpToParity(key, other)
  {
    if SameUpToParity(key, other) {
      forall i: nat | i < 56
        ensures Permuted(PERMUTED_CHOICE_1, key)[i] == Permuted(PERMUTED_CHOICE_1, other)[i]
      {
        Choice1SkipsParity(i);
      }
      assert Permuted(PERMUTED_CHOICE_1, key) == Permuted(PERMUTED_CHOICE_1, other);
    }
    if KeySchedule(key) == KeySchedule(other) {
      ScheduleDetermines(key, other);
    }
  }

  lemma ScheduleDetermines(key: Block, other: Block)
    requires KeySchedule(key) == KeySchedule(other)
    ensures SameUpToParity(key, other)
  {
    assert KeySchedule(key)[0] == KeySchedule(other)[0] && KeySchedule(key)[1] == KeySchedule(other)[1];
    TwoSubkeysDetermine(C0(key), D0(key), C0(other), D0(other));
    var x, y := Permuted(PERMUTED_CHOICE_1, key), Permuted(PERMUTED_CHOICE_1, other);
    assert x == C0(key) + D0(key) && y == C0(other) + D0(other);
    forall i: nat | i < 64 && !ParityBit(i)
      ensures key[i] == other[i]
    {
      Choice1Reaches(i / 8, i % 8);
      var place := Choice1Place(i / 8, i % 8);
      assert x[place] == key[i] && y[place] == other[i];
    }
  }

  // ---------------------------------------------------------------- complementation

  function NotAll(keys: seq<Subkey>): (r: seq<Subkey>)
    ensures |r| == |keys|
    ensures forall i :: 0 <= i < |keys| ==> r[i] == Not(keys[i])
  {
    seq(|keys|, i requires 0 <= i < |keys| => Not(keys[i]))
  }

  lemma PermutedNot(table: seq<nat>, b: seq<bool>)
    requires Selects(table, |b|)
    ensures Permuted(table, Not(b)) == Not(Permuted(table, b))
  {}

  lemma CipherFunctionNot(r: Half, k: Subkey)
    ensures CipherFunction(Not(r), Not(k)) == CipherFunction(r, k)
  {
    PermutedNot(EXPANSION, r);
    assert Xor(Permuted(EXPANSION, Not(r)), Not(k)) == Xor(Permuted(EXPANSION, r), k);
  }

  lemma {:induction false} RoundsNot(l: Half, r: Half, keys: seq<Subkey>)
    ensures var (l', r') := Rounds(l, r, keys);
            Rounds(Not(l), Not(r), NotAll(keys)) == (Not(l'), Not(r'))
    decreases |keys|
  {
    if keys != [] {
      CipherFunctionNot(r, keys[0]);
      var (l1, r1) := Round(l, r, keys[0]);
      assert Xor(Not(l), CipherFunction(r, keys[0])) == Not(r1);
      assert NotAll(keys)[1..] == NotAll(keys[1..]);
      RoundsNot(l1, r1, keys[1..]);
    }
  }

  lemma CryptNot(block: Block, keys: seq<Subkey>)
    ensures Crypt(Not(block), NotAll(keys)) == Not(Crypt(block, keys))
  {
    PermutedNot(INITIAL_PERMUTATION, block);
    hide Rounds, Permuted, Reversed;
    var x := Permuted(INITIAL_PERMUTATION, block);
    var (l, r) := Rounds(x[..32], x[32..], keys);
    assert Not(x)[..32] == Not(x[..32]) && Not(x)[32..] == Not(x[32..]);
    RoundsNot(x[..32], x[32..], keys);
    assert Not(r) + Not(l) == Not(r + l);
    PermutedNot(FINAL_PERMUTATION, r + l);
  }

  lemma {:induction false} RotatedNot(b: Register, i: nat)
    ensures Rotated(Not(b), i) == Not(Rotated(b, i))
  {
    if i > 0 {
      RotatedNot(b, i - 1);
    }
  }

  lemma KeyScheduleNot(key: Block)
    ensures KeySchedule(Not(key)) == NotAll(KeySchedule(key))
  {
    PermutedNot(PERMUTED_CHOICE_1, key);
    forall i | 0 <= i < 16
      ensures KeySchedule(Not(key))[i] == Not(KeySchedule(key)[i])
    {
      assert C0(Not(key)) == Not(C0(key)) && D0(Not(key)) == Not(D0(key));
      RotatedNot(C0(key), i + 1);
      RotatedNot(D0(key), i + 1);
      var c: seq<bool>, d: seq<bool> := Rotated(C0(key), i + 1), Rotated(D0(key), i + 1);
      assert Not(c) + Not(d) == Not(c + d);
      PermutedNot(PERMUTED_CHOICE_2, c + d);
    }
  }

  /** Complementing block and key complements the result. */
  lemma Complementation(block: Block, key: Block)
    ensures Encipher(Not(block), KeySchedule(Not(key))) == Not(Encipher(block, KeySchedule(key)))
  {
    KeyScheduleNot(key);
    CryptNot(block, KeySchedule(key));
  }
}
