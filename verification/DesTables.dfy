/** The tables of client/DES/des.c, entry for entry. A table of n numbers is a function
    of its index; the sequence constants beside them are what the rest of the model reads. */
module DesTables {

  /** The positions f(0), .. , f(n - 1). */
  function Tabulated(n: nat, f: nat -> nat): (table: seq<nat>)
    ensures |table| == n
    ensures forall i: nat :: i < n ==> table[i] == f(i)
  {
    seq(n, i requires 0 <= i => f(i))
  }

  /** The same for the S-boxes, whose entries are read one at a time through BoxEntry. */
  function Box(n: nat, f: nat -> bv8): (table: seq<bv8>)
    ensures |table| == n
  {
    if n == 0 then [] else Box(n - 1, f) + [f(n - 1)]
  }

  lemma {:induction false} BoxEntry(n: nat, f: nat -> bv8, i: nat)
    requires i < n
    ensures Box(n, f)[i] == f(i)
  {
    if i < n - 1 { BoxEntry(n - 1, f, i); }
  }

  // PC-1, des.c:7-14
  function KeyChoice1(i: nat): (entry: nat)
    ensures 1 <= entry <= 64
  {
    match i
    case 0 => 57 case 1 => 49 case 2 => 41 case 3 => 33 case 4 => 25 case 5 => 17 case 6 => 9 case 7 => 1
    case 8 => 58 case 9 => 50 case 10 => 42 case 11 => 34 case 12 => 26 case 13 => 18 case 14 => 10 case 15 => 2
    case 16 => 59 case 17 => 51 case 18 => 43 case 19 => 35 case 20 => 27 case 21 => 19 case 22 => 11 case 23 => 3
    case 24 => 60 case 25 => 52 case 26 => 44 case 27 => 36 case 28 => 63 case 29 => 55 case 30 => 47 case 31 => 39
    case 32 => 31 case 33 => 23 case 34 => 15 case 35 => 7 case 36 => 62 case 37 => 54 case 38 => 46 case 39 => 38
    case 40 => 30 case 41 => 22 case 42 => 14 case 43 => 6 case 44 => 61 case 45 => 53 case 46 => 45 case 47 => 37
    case 48 => 29 case 49 => 21 case 50 => 13 case 51 => 5 case 52 => 28 case 53 => 20 case 54 => 12
    case _ => 4
  }

  const PERMUTED_CHOICE_1: seq<nat> := Tabulated(56, KeyChoice1)

  // IP, des.c:16-23
  function Initial(i: nat): (entry: nat)
    ensures 1 <= entry <= 64
  {
    match i
    case 0 => 58 case 1 => 50 case 2 => 42 case 3 => 34 case 4 => 26 case 5 => 18 case 6 => 10 case 7 => 2
    case 8 => 60 case 9 => 52 case 10 => 44 case 11 => 36 case 12 => 28 case 13 => 20 case 14 => 12 case 15 => 4
    case 16 => 62 case 17 => 54 case 18 => 46 case 19 => 38 case 20 => 30 case 21 => 22 case 22 => 14 case 23 => 6
    case 24 => 64 case 25 => 56 case 26 => 48 case 27 => 40 case 28 => 32 case 29 => 24 case 30 => 16 case 31 => 8
    case 32 => 57 case 33 => 49 case 34 => 41 case 35 => 33 case 36 => 25 case 37 => 17 case 38 => 9 case 39 => 1
    case 40 => 59 case 41 => 51 case 42 => 43 case 43 => 35 case 44 => 27 case 45 => 19 case 46 => 11 case 47 => 3
    case 48 => 61 case 49 => 53 case 50 => 45 case 51 => 37 case 52 => 29 case 53 => 21 case 54 => 13 case 55 => 5
    case 56 => 63 case 57 => 55 case 58 => 47 case 59 => 39 case 60 => 31 case 61 => 23 case 62 => 15
    case _ => 7
  }

  const INITIAL_PERMUTATION: seq<nat> := Tabulated(64, Initial)

  // PC-2, des.c:27-34
  function KeyChoice2(i: nat): (entry: nat)
    ensures 1 <= entry <= 56
  {
    match i
    case 0 => 14 case 1 => 17 case 2 => 11 case 3 => 24 case 4 => 1 case 5 => 5 case 6 => 3 case 7 => 28
    case 8 => 15 case 9 => 6 case 10 => 21 case 11 => 10 case 12 => 23 case 13 => 19 case 14 => 12 case 15 => 4
    case 16 => 26 case 17 => 8 case 18 => 16 case 19 => 7 case 20 => 27 case 21 => 20 case 22 => 13 case 23 => 2
    case 24 => 41 case 25 => 52 case 26 => 31 case 27 => 37 case 28 => 47 case 29 => 55 case 30 => 30 case 31 => 40
    case 32 => 51 case 33 => 45 case 34 => 33 case 35 => 48 case 36 => 44 case 37 => 49 case 38 => 39 case 39 => 56
    case 40 => 34 case 41 => 53 case 42 => 46 case 43 => 42 case 44 => 50 case 45 => 36 case 46 => 29
    case _ => 32
  }

  const PERMUTED_CHOICE_2: seq<nat> := Tabulated(48, KeyChoice2)

  // E, des.c:36-43
  function Expansion(i: nat): (entry: nat)
    ensures 1 <= entry <= 32
  {
    match i
    case 0 => 32 case 1 => 1 case 2 => 2 case 3 => 3 case 4 => 4 case 5 => 5 case 6 => 4 case 7 => 5
    case 8 => 6 case 9 => 7 case 10 => 8 case 11 => 9 case 12 => 8 case 13 => 9 case 14 => 10 case 15 => 11
    case 16 => 12 case 17 => 13 case 18 => 12 case 19 => 13 case 20 => 14 case 21 => 15 case 22 => 16 case 23 => 17
    case 24 => 16 case 25 => 17 case 26 => 18 case 27 => 19 case 28 => 20 case 29 => 21 case 30 => 20 case 31 => 21
    case 32 => 22 case 33 => 23 case 34 => 24 case 35 => 25 case 36 => 24 case 37 => 25 case 38 => 26 case 39 => 27
    case 40 => 28 case 41 => 29 case 42 => 28 case 43 => 29 case 44 => 30 case 45 => 31 case 46 => 32
    case _ => 1
  }

  const EXPANSION: seq<nat> := Tabulated(48, Expansion)

  // P, des.c:85-92
  function RoundPermutation(i: nat): (entry: nat)
    ensures 1 <= entry <= 32
  {
    match i
    case 0 => 16 case 1 => 7 case 2 => 20 case 3 => 21 case 4 => 29 case 5 => 12 case 6 => 28 case 7 => 17
    case 8 => 1 case 9 => 15 case 10 => 23 case 11 => 26 case 12 => 5 case 13 => 18 case 14 => 31 case 15 => 10
    case 16 => 2 case 17 => 8 case 18 => 24 case 19 => 14 case 20 => 32 case 21 => 27 case 22 => 3 case 23 => 9
    case 24 => 19 case 25 => 13 case 26 => 30 case 27 => 6 case 28 => 22 case 29 => 11 case 30 => 4
    case _ => 25
  }

  const PERMUTATION_P: seq<nat> := Tabulated(32, RoundPermutation)

  // the inverse of IP, des.c:94-101
  function Final(i: nat): (entry: nat)
    ensures 1 <= entry <= 64
  {
    match i
    case 0 => 40 case 1 => 8 case 2 => 48 case 3 => 16 case 4 => 56 case 5 => 24 case 6 => 64 case 7 => 32
    case 8 => 39 case 9 => 7 case 10 => 47 case 11 => 15 case 12 => 55 case 13 => 23 case 14 => 63 case 15 => 31
    case 16 => 38 case 17 => 6 case 18 => 46 case 19 => 14 case 20 => 54 case 21 => 22 case 22 => 62 case 23 => 30
    case 24 => 37 case 25 => 5 case 26 => 45 case 27 => 13 case 28 => 53 case 29 => 21 case 30 => 61 case 31 => 29
    case 32 => 36 case 33 => 4 case 34 => 44 case 35 => 12 case 36 => 52 case 37 => 20 case 38 => 60 case 39 => 28
    case 40 => 35 case 41 => 3 case 42 => 43 case 43 => 11 case 44 => 51 case 45 => 19 case 46 => 59 case 47 => 27
    case 48 => 34 case 49 => 2 case 50 => 42 case 51 => 10 case 52 => 50 case 53 => 18 case 54 => 58 case 55 => 26
    case 56 => 33 case 57 => 1 case 58 => 41 case 59 => 9 case 60 => 49 case 61 => 17 case 62 => 57
    case _ => 25
  }

  const FINAL_PERMUTATION: seq<nat> := Tabulated(64, Final)

  // S1, des.c:45-48
  function S1Entry(i: nat): (entry: bv8)
    ensures entry < 16
  {
    if i < 16 then
      match i case 0 => 14 case 1 => 4 case 2 => 13 case 3 => 1 case 4 => 2 case 5 => 15 case 6 => 11 case 7 => 8
      case 8 => 3 case 9 => 10 case 10 => 6 case 11 => 12 case 12 => 5 case 13 => 9 case 14 => 0 case _ => 7
    else if i < 32 then
      match i case 16 => 0 case 17 => 15 case 18 => 7 case 19 => 4 case 20 => 14 case 21 => 2 case 22 => 13 case 23 => 1
      case 24 => 10 case 25 => 6 case 26 => 12 case 27 => 11 case 28 => 9 case 29 => 5 case 30 => 3 case _ => 8
    else if i < 48 then
      match i case 32 => 4 case 33 => 1 case 34 => 14 case 35 => 8 case 36 => 13 case 37 => 6 case 38 => 2 case 39 => 11
      case 40 => 15 case 41 => 12 case 42 => 9 case 43 => 7 case 44 => 3 case 45 => 10 case 46 => 5 case _ => 0
    else
      match i case 48 => 15 case 49 => 12 case 50 => 8 case 51 => 2 case 52 => 4 case 53 => 9 case 54 => 1 case 55 => 7
      case 56 => 5 case 57 => 11 case 58 => 3 case 59 => 14 case 60 => 10 case 61 => 0 case 62 => 6 case _ => 13
  }

  const S1: seq<bv8> := Box(64, S1Entry)

  // S2, des.c:50-53
  function S2Entry(i: nat): (entry: bv8)
    ensures entry < 16
  {
    if i < 16 then
      match i case 0 => 15 case 1 => 1 case 2 => 8 case 3 => 14 case 4 => 6 case 5 => 11 case 6 => 3 case 7 => 4
      case 8 => 9 case 9 => 7 case 10 => 2 case 11 => 13 case 12 => 12 case 13 => 0 case 14 => 5 case _ => 10
    else if i < 32 then
      match i case 16 => 3 case 17 => 13 case 18 => 4 case 19 => 7 case 20 => 15 case 21 => 2 case 22 => 8 case 23 => 14
      case 24 => 12 case 25 => 0 case 26 => 1 case 27 => 10 case 28 => 6 case 29 => 9 case 30 => 11 case _ => 5
    else if i < 48 then
      match i case 32 => 0 case 33 => 14 case 34 => 7 case 35 => 11 case 36 => 10 case 37 => 4 case 38 => 13 case 39 => 1
      case 40 => 5 case 41 => 8 case 42 => 12 case 43 => 6 case 44 => 9 case 45 => 3 case 46 => 2 case _ => 15
    else
      match i case 48 => 13 case 49 => 8 case 50 => 10 case 51 => 1 case 52 => 3 case 53 => 15 case 54 => 4 case 55 => 2
      case 56 => 11 case 57 => 6 case 58 => 7 case 59 => 12 case 60 => 0 case 61 => 5 case 62 => 14 case _ => 9
  }

  const S2: seq<bv8> := Box(64, S2Entry)

  // S3, des.c:55-58
  function S3Entry(i: nat): (entry: bv8)
    ensures entry < 16
  {
    if i < 16 then
      match i case 0 => 10 case 1 => 0 case 2 => 9 case 3 => 14 case 4 => 6 case 5 => 3 case 6 => 15 case 7 => 5
      case 8 => 1 case 9 => 13 case 10 => 12 case 11 => 7 case 12 => 11 case 13 => 4 case 14 => 2 case _ => 8
    else if i < 32 then
      match i case 16 => 13 case 17 => 7 case 18 => 0 case 19 => 9 case 20 => 3 case 21 => 4 case 22 => 6 case 23 => 10
      case 24 => 2 case 25 => 8 case 26 => 5 case 27 => 14 case 28 => 12 case 29 => 11 case 30 => 15 case _ => 1
    else if i < 48 then
      match i case 32 => 13 case 33 => 6 case 34 => 4 case 35 => 9 case 36 => 8 case 37 => 15 case 38 => 3 case 39 => 0
      case 40 => 11 case 41 => 1 case 42 => 2 case 43 => 12 case 44 => 5 case 45 => 10 case 46 => 14 case _ => 7
    else
      match i case 48 => 1 case 49 => 10 case 50 => 13 case 51 => 0 case 52 => 6 case 53 => 9 case 54 => 8 case 55 => 7
      case 56 => 4 case 57 => 15 case 58 => 14 case 59 => 3 case 60 => 11 case 61 => 5 case 62 => 2 case _ => 12
  }

  const S3: seq<bv8> := Box(64, S3Entry)

  // S4, des.c:60-63
  function S4Entry(i: nat): (entry: bv8)
    ensures entry < 16
  {
    if i < 16 then
      match i case 0 => 7 case 1 => 13 case 2 => 14 case 3 => 3 case 4 => 0 case 5 => 6 case 6 => 9 case 7 => 10
      case 8 => 1 case 9 => 2 case 10 => 8 case 11 => 5 case 12 => 11 case 13 => 12 case 14 => 4 case _ => 15
    else if i < 32 then
      match i case 16 => 13 case 17 => 8 case 18 => 11 case 19 => 5 case 20 => 6 case 21 => 15 case 22 => 0 case 23 => 3
      case 24 => 4 case 25 => 7 case 26 => 2 case 27 => 12 case 28 => 1 case 29 => 10 case 30 => 14 case _ => 9
    else if i < 48 then
      match i case 32 => 10 case 33 => 6 case 34 => 9 case 35 => 0 case 36 => 12 case 37 => 11 case 38 => 7 case 39 => 13
      case 40 => 15 case 41 => 1 case 42 => 3 case 43 => 14 case 44 => 5 case 45 => 2 case 46 => 8 case _ => 4
    else
      match i case 48 => 3 case 49 => 15 case 50 => 0 case 51 => 6 case 52 => 10 case 53 => 1 case 54 => 13 case 55 => 8
      case 56 => 9 case 57 => 4 case 58 => 5 case 59 => 11 case 60 => 12 case 61 => 7 case 62 => 2 case _ => 14
  }

  const S4: seq<bv8> := Box(64, S4Entry)

  // S5, des.c:65-68
  function S5Entry(i: nat): (entry: bv8)
    ensures entry < 16
  {
    if i < 16 then
      match i case 0 => 2 case 1 => 12 case 2 => 4 case 3 => 1 case 4 => 7 case 5 => 10 case 6 => 11 case 7 => 6
      case 8 => 8 case 9 => 5 case 10 => 3 case 11 => 15 case 12 => 13 case 13 => 0 case 14 => 14 case _ => 9
    else if i < 32 then
      match i case 16 => 14 case 17 => 11 case 18 => 2 case 19 => 12 case 20 => 4 case 21 => 7 case 22 => 13 case 23 => 1
      case 24 => 5 case 25 => 0 case 26 => 15 case 27 => 10 case 28 => 3 case 29 => 9 case 30 => 8 case _ => 6
    else if i < 48 then
      match i case 32 => 4 case 33 => 2 case 34 => 1 case 35 => 11 case 36 => 10 case 37 => 13 case 38 => 7 case 39 => 8
      case 40 => 15 case 41 => 9 case 42 => 12 case 43 => 5 case 44 => 6 case 45 => 3 case 46 => 0 case _ => 14
    else
      match i case 48 => 11 case 49 => 8 case 50 => 12 case 51 => 7 case 52 => 1 case 53 => 14 case 54 => 2 case 55 => 13
      case 56 => 6 case 57 => 15 case 58 => 0 case 59 => 9 case 60 => 10 case 61 => 4 case 62 => 5 case _ => 3
  }

  const S5: seq<bv8> := Box(64, S5Entry)

  // S6, des.c:70-73
  function S6Entry(i: nat): (entry: bv8)
    ensures entry < 16
  {
    if i < 16 then
      match i case 0 => 12 case 1 => 1 case 2 => 10 case 3 => 15 case 4 => 9 case 5 => 2 case 6 => 6 case 7 => 8
      case 8 => 0 case 9 => 13 case 10 => 3 case 11 => 4 case 12 => 14 case 13 => 7 case 14 => 5 case _ => 11
    else if i < 32 then
      match i case 16 => 10 case 17 => 15 case 18 => 4 case 19 => 2 case 20 => 7 case 21 => 12 case 22 => 9 case 23 => 5
      case 24 => 6 case 25 => 1 case 26 => 13 case 27 => 14 case 28 => 0 case 29 => 11 case 30 => 3 case _ => 8
    else if i < 48 then
      match i case 32 => 9 case 33 => 14 case 34 => 15 case 35 => 5 case 36 => 2 case 37 => 8 case 38 => 12 case 39 => 3
      case 40 => 7 case 41 => 0 case 42 => 4 case 43 => 10 case 44 => 1 case 45 => 13 case 46 => 11 case _ => 6
    else
      match i case 48 => 4 case 49 => 3 case 50 => 2 case 51 => 12 case 52 => 9 case 53 => 5 case 54 => 15 case 55 => 10
      case 56 => 11 case 57 => 14 case 58 => 1 case 59 => 7 case 60 => 6 case 61 => 0 case 62 => 8 case _ => 13
  }

  const S6: seq<bv8> := Box(64, S6Entry)

  // S7, des.c:75-78
  function S7Entry(i: nat): (entry: bv8)
    ensures entry < 16
  {
    if i < 16 then
      match i case 0 => 4 case 1 => 11 case 2 => 2 case 3 => 14 case 4 => 15 case 5 => 0 case 6 => 8 case 7 => 13
      case 8 => 3 case 9 => 12 case 10 => 9 case 11 => 7 case 12 => 5 case 13 => 10 case 14 => 6 case _ => 1
    else if i < 32 then
      match i case 16 => 13 case 17 => 0 case 18 => 11 case 19 => 7 case 20 => 4 case 21 => 9 case 22 => 1 case 23 => 10
      case 24 => 14 case 25 => 3 case 26 => 5 case 27 => 12 case 28 => 2 case 29 => 15 case 30 => 8 case _ => 6
    else if i < 48 then
      match i case 32 => 1 case 33 => 4 case 34 => 11 case 35 => 13 case 36 => 12 case 37 => 3 case 38 => 7 case 39 => 14
      case 40 => 10 case 41 => 15 case 42 => 6 case 43 => 8 case 44 => 0 case 45 => 5 case 46 => 9 case _ => 2
    else
      match i case 48 => 6 case 49 => 11 case 50 => 13 case 51 => 8 case 52 => 1 case 53 => 4 case 54 => 10 case 55 => 7
      case 56 => 9 case 57 => 5 case 58 => 0 case 59 => 15 case 60 => 14 case 61 => 2 case 62 => 3 case _ => 12
  }

  const S7: seq<bv8> := Box(64, S7Entry)

  // S8, des.c:80-83
  function S8Entry(i: nat): (entry: bv8)
    ensures entry < 16
  {
    if i < 16 then
      match i case 0 => 13 case 1 => 2 case 2 => 8 case 3 => 4 case 4 => 6 case 5 => 15 case 6 => 11 case 7 => 1
      case 8 => 10 case 9 => 9 case 10 => 3 case 11 => 14 case 12 => 5 case 13 => 0 case 14 => 12 case _ => 7
    else if i < 32 then
      match i case 16 => 1 case 17 => 15 case 18 => 13 case 19 => 8 case 20 => 10 case 21 => 3 case 22 => 7 case 23 => 4
      case 24 => 12 case 25 => 5 case 26 => 6 case 27 => 11 case 28 => 0 case 29 => 14 case 30 => 9 case _ => 2
    else if i < 48 then
      match i case 32 => 7 case 33 => 11 case 34 => 4 case 35 => 1 case 36 => 9 case 37 => 12 case 38 => 14 case 39 => 2
      case 40 => 0 case 41 => 6 case 42 => 10 case 43 => 13 case 44 => 15 case 45 => 3 case 46 => 5 case _ => 8
    else
      match i case 48 => 2 case 49 => 1 case 50 => 14 case 51 => 7 case 52 => 4 case 53 => 10 case 54 => 8 case 55 => 13
      case 56 => 15 case 57 => 12 case 58 => 9 case 59 => 0 case 60 => 3 case 61 => 5 case 62 => 6 case _ => 11
  }

  const S8: seq<bv8> := Box(64, S8Entry)

}
