/** What is known of the S-boxes of the standard, and of its other tables. A row of an S-box is sixteen
    hexadecimal digits. */
module SBoxes {
  import opened DesTables
  import opened Fips46

  /** The four rows of the eight S-boxes. */
  function RowOf(box: nat, row: nat): bv64
    requires box < 8 && row < 4
  {
    match 4 * box + row
    case 0 => 0xE4D1_2FB8_3A6C_5907 case 1 => 0x0F74_E2D1_A6CB_9538
    case 2 => 0x41E8_D62B_FC97_3A50 case 3 => 0xFC82_4917_5B3E_A06D
    case 4 => 0xF18E_6B34_972D_C05A case 5 => 0x3D47_F28E_C01A_69B5
    case 6 => 0x0E7B_A4D1_58C6_932F case 7 => 0xD8A1_3F42_B67C_05E9
    case 8 => 0xA09E_63F5_1DC7_B428 case 9 => 0xD709_346A_285E_CBF1
    case 10 => 0xD649_8F30_B12C_5AE7 case 11 => 0x1AD0_6987_4FE3_B52C
    case 12 => 0x7DE3_069A_1285_BC4F case 13 => 0xD8B5_6F03_472C_1AE9
    case 14 => 0xA690_CB7D_F13E_5284 case 15 => 0x3F06_A1D8_945B_C72E
    case 16 => 0x2C41_7AB6_853F_D0E9 case 17 => 0xEB2C_47D1_50FA_3986
    case 18 => 0x421B_AD78_F9C5_630E case 19 => 0xB8C7_1E2D_6F09_A453
    case 20 => 0xC1AF_9268_0D34_E75B case 21 => 0xAF42_7C95_61DE_0B38
    case 22 => 0x9EF5_28C3_704A_1DB6 case 23 => 0x432C_95FA_BE17_608D
    case 24 => 0x4B2E_F08D_3C97_5A61 case 25 => 0xD0B7_491A_E35C_2F86
    case 26 => 0x14BD_C37E_AF68_0592 case 27 => 0x6BD8_14A7_950F_E23C
    case 28 => 0xD284_6FB1_A93E_50C7 case 29 => 0x1FD8_A374_C56B_0E92
    case 30 => 0x7B41_9CE2_06AD_F358 case _ => 0x21E7_4A8D_FC90_356B
  }

  /** Digit c of a row. */
  function Digit(w: bv64, c: nat): bv8
    requires c < 16
  {
    match c
    case 0 => ((w >> 60) & 0xF) as bv8 case 1 => ((w >> 56) & 0xF) as bv8
    case 2 => ((w >> 52) & 0xF) as bv8 case 3 => ((w >> 48) & 0xF) as bv8
    case 4 => ((w >> 44) & 0xF) as bv8 case 5 => ((w >> 40) & 0xF) as bv8
    case 6 => ((w >> 36) & 0xF) as bv8 case 7 => ((w >> 32) & 0xF) as bv8
    case 8 => ((w >> 28) & 0xF) as bv8 case 9 => ((w >> 24) & 0xF) as bv8
    case 10 => ((w >> 20) & 0xF) as bv8 case 11 => ((w >> 16) & 0xF) as bv8
    case 12 => ((w >> 12) & 0xF) as bv8 case 13 => ((w >> 8) & 0xF) as bv8
    case 14 => ((w >> 4) & 0xF) as bv8 case _ => ((w >> 0) & 0xF) as bv8
  }

  lemma Row1A(c: nat)
    requires c < 16
    ensures S1Entry(0 + c) == Digit(0xE4D1_2FB8_3A6C_5907, c)
  {}

  lemma Row1B(c: nat)
    requires c < 16
    ensures S1Entry(16 + c) == Digit(0x0F74_E2D1_A6CB_9538, c)
  {}

  lemma Row1C(c: nat)
    requires c < 16
    ensures S1Entry(32 + c) == Digit(0x41E8_D62B_FC97_3A50, c)
  {}

  lemma Row1D(c: nat)
    requires c < 16
    ensures S1Entry(48 + c) == Digit(0xFC82_4917_5B3E_A06D, c)
  {}

  lemma Row2A(c: nat)
    requires c < 16
    ensures S2Entry(0 + c) == Digit(0xF18E_6B34_972D_C05A, c)
  {}

  lemma Row2B(c: nat)
    requires c < 16
    ensures S2Entry(16 + c) == Digit(0x3D47_F28E_C01A_69B5, c)
  {}

  lemma Row2C(c: nat)
    requires c < 16
    ensures S2Entry(32 + c) == Digit(0x0E7B_A4D1_58C6_932F, c)
  {}

  lemma Row2D(c: nat)
    requires c < 16
    ensures S2Entry(48 + c) == Digit(0xD8A1_3F42_B67C_05E9, c)
  {}

  lemma Row3A(c: nat)
    requires c < 16
    ensures S3Entry(0 + c) == Digit(0xA09E_63F5_1DC7_B428, c)
  {}

  lemma Row3B(c: nat)
    requires c < 16
    ensures S3Entry(16 + c) == Digit(0xD709_346A_285E_CBF1, c)
  {}

  lemma Row3C(c: nat)
    requires c < 16
    ensures S3Entry(32 + c) == Digit(0xD649_8F30_B12C_5AE7, c)
  {}

  lemma Row3D(c: nat)
    requires c < 16
    ensures S3Entry(48 + c) == Digit(0x1AD0_6987_4FE3_B52C, c)
  {}

  lemma Row4A(c: nat)
    requires c < 16
    ensures S4Entry(0 + c) == Digit(0x7DE3_069A_1285_BC4F, c)
  {}

  lemma Row4B(c: nat)
    requires c < 16
    ensures S4Entry(16 + c) == Digit(0xD8B5_6F03_472C_1AE9, c)
  {}

  lemma Row4C(c: nat)
    requires c < 16
    ensures S4Entry(32 + c) == Digit(0xA690_CB7D_F13E_5284, c)
  {}

  lemma Row4D(c: nat)
    requires c < 16
    ensures S4Entry(48 + c) == Digit(0x3F06_A1D8_945B_C72E, c)
  {}

  lemma Row5A(c: nat)
    requires c < 16
    ensures S5Entry(0 + c) == Digit(0x2C41_7AB6_853F_D0E9, c)
  {}

  lemma Row5B(c: nat)
    requires c < 16
    ensures S5Entry(16 + c) == Digit(0xEB2C_47D1_50FA_3986, c)
  {}

  lemma Row5C(c: nat)
    requires c < 16
    ensures S5Entry(32 + c) == Digit(0x421B_AD78_F9C5_630E, c)
  {}

  lemma Row5D(c: nat)
    requires c < 16
    ensures S5Entry(48 + c) == Digit(0xB8C7_1E2D_6F09_A453, c)
  {}

  lemma Row6A(c: nat)
    requires c < 16
    ensures S6Entry(0 + c) == Digit(0xC1AF_9268_0D34_E75B, c)
  {}

  lemma Row6B(c: nat)
    requires c < 16
    ensures S6Entry(16 + c) == Digit(0xAF42_7C95_61DE_0B38, c)
  {}

  lemma Row6C(c: nat)
    requires c < 16
    ensures S6Entry(32 + c) == Digit(0x9EF5_28C3_704A_1DB6, c)
  {}

  lemma Row6D(c: nat)
    requires c < 16
    ensures S6Entry(48 + c) == Digit(0x432C_95FA_BE17_608D, c)
  {}

  lemma Row7A(c: nat)
    requires c < 16
    ensures S7Entry(0 + c) == Digit(0x4B2E_F08D_3C97_5A61, c)
  {}

  lemma Row7B(c: nat)
    requires c < 16
    ensures S7Entry(16 + c) == Digit(0xD0B7_491A_E35C_2F86, c)
  {}

  lemma Row7C(c: nat)
    requires c < 16
    ensures S7Entry(32 + c) == Digit(0x14BD_C37E_AF68_0592, c)
  {}

  lemma Row7D(c: nat)
    requires c < 16
    ensures S7Entry(48 + c) == Digit(0x6BD8_14A7_950F_E23C, c)
  {}

  lemma Row8A(c: nat)
    requires c < 16
    ensures S8Entry(0 + c) == Digit(0xD284_6FB1_A93E_50C7, c)
  {}

  lemma Row8B(c: nat)
    requires c < 16
    ensures S8Entry(16 + c) == Digit(0x1FD8_A374_C56B_0E92, c)
  {}

  lemma Row8C(c: nat)
    requires c < 16
    ensures S8Entry(32 + c) == Digit(0x7B41_9CE2_06AD_F358, c)
  {}

  lemma Row8D(c: nat)
    requires c < 16
    ensures S8Entry(48 + c) == Digit(0x21E7_4A8D_FC90_356B, c)
  {}

  lemma EntryIs(box: nat, i: nat)
    requires box < 8 && i < 64
    ensures SBox(box, i) == match box case 0 => S1Entry(i) case 1 => S2Entry(i) case 2 => S3Entry(i) case 3 => S4Entry(i)
      case 4 => S5Entry(i) case 5 => S6Entry(i) case 6 => S7Entry(i) case _ => S8Entry(i)
  {
    match box
    case 0 => BoxEntry(64, S1Entry, i); case 1 => BoxEntry(64, S2Entry, i);
    case 2 => BoxEntry(64, S3Entry, i); case 3 => BoxEntry(64, S4Entry, i);
    case 4 => BoxEntry(64, S5Entry, i); case 5 => BoxEntry(64, S6Entry, i);
    case 6 => BoxEntry(64, S7Entry, i); case _ => BoxEntry(64, S8Entry, i);
  }

  lemma Box1(row: nat, c: nat)
    requires row < 4 && c < 16
    ensures S1Entry(16 * row + c) == Digit(RowOf(0, row), c)
  {
    hide S1Entry, Digit;
    match row
    case 0 => Row1A(c); case 1 => Row1B(c); case 2 => Row1C(c); case _ => Row1D(c);
  }

  lemma Box2(row: nat, c: nat)
    requires row < 4 && c < 16
    ensures S2Entry(16 * row + c) == Digit(RowOf(1, row), c)
  {
    hide S2Entry, Digit;
    match row
    case 0 => Row2A(c); case 1 => Row2B(c); case 2 => Row2C(c); case _ => Row2D(c);
  }

  lemma Box3(row: nat, c: nat)
    requires row < 4 && c < 16
    ensures S3Entry(16 * row + c) == Digit(RowOf(2, row), c)
  {
    hide S3Entry, Digit;
    match row
    case 0 => Row3A(c); case 1 => Row3B(c); case 2 => Row3C(c); case _ => Row3D(c);
  }

  lemma Box4(row: nat, c: nat)
    requires row < 4 && c < 16
    ensures S4Entry(16 * row + c) == Digit(RowOf(3, row), c)
  {
    hide S4Entry, Digit;
    match row
    case 0 => Row4A(c); case 1 => Row4B(c); case 2 => Row4C(c); case _ => Row4D(c);
  }

  lemma Box5(row: nat, c: nat)
    requires row < 4 && c < 16
    ensures S5Entry(16 * row + c) == Digit(RowOf(4, row), c)
  {
    hide S5Entry, Digit;
    match row
    case 0 => Row5A(c); case 1 => Row5B(c); case 2 => Row5C(c); case _ => Row5D(c);
  }

  lemma Box6(row: nat, c: nat)
    requires row < 4 && c < 16
    ensures S6Entry(16 * row + c) == Digit(RowOf(5, row), c)
  {
    hide S6Entry, Digit;
    match row
    case 0 => Row6A(c); case 1 => Row6B(c); case 2 => Row6C(c); case _ => Row6D(c);
  }

  lemma Box7(row: nat, c: nat)
    requires row < 4 && c < 16
    ensures S7Entry(16 * row + c) == Digit(RowOf(6, row), c)
  {
    hide S7Entry, Digit;
    match row
    case 0 => Row7A(c); case 1 => Row7B(c); case 2 => Row7C(c); case _ => Row7D(c);
  }

  lemma Box8(row: nat, c: nat)
    requires row < 4 && c < 16
    ensures S8Entry(16 * row + c) == Digit(RowOf(7, row), c)
  {
    hide S8Entry, Digit;
    match row
    case 0 => Row8A(c); case 1 => Row8B(c); case 2 => Row8C(c); case _ => Row8D(c);
  }

  /** The entries of the tables are the digits of the rows. */
  lemma SBoxIs(box: nat, row: nat, c: nat)
    requires box < 8 && row < 4 && c < 16
    ensures SBox(box, 16 * row + c) == Digit(RowOf(box, row), c)
  {
    hide S1Entry, S2Entry, S3Entry, S4Entry, S5Entry, S6Entry, S7Entry, S8Entry, Digit, RowOf, SBox;
    EntryIs(box, 16 * row + c);
    match box
    case 0 => Box1(row, c); case 1 => Box2(row, c); case 2 => Box3(row, c); case 3 => Box4(row, c);
    case 4 => Box5(row, c); case 5 => Box6(row, c); case 6 => Box7(row, c); case _ => Box8(row, c);
  }

  // ---------------------------------------------------------------- the criteria they meet

  /** Different in two bits or more. */
  predicate Apart(a: bv8, b: bv8) {
    (a ^ b) & ((a ^ b) - 1) != 0
  }

  // The columns without the bit of value `step`.
  predicate Without(c: nat, step: nat) {
    match step
    case 8 => c < 8
    case 4 => c < 4 || 8 <= c < 12
    case 2 => c in {0, 1, 4, 5, 8, 9, 12, 13}
    case 1 => c in {0, 2, 4, 6, 8, 10, 12, 14}
    case _ => false
  }

  lemma Row1AApart(c: nat, step: nat)
    requires Without(c, step)
    ensures Apart(Digit(0xE4D1_2FB8_3A6C_5907, c), Digit(0xE4D1_2FB8_3A6C_5907, c + step))
  {}

  lemma Row1BApart(c: nat, step: nat)
    requires Without(c, step)
    ensures Apart(Digit(0x0F74_E2D1_A6CB_9538, c), Digit(0x0F74_E2D1_A6CB_9538, c + step))
  {}

  lemma Row1CApart(c: nat, step: nat)
    requires Without(c, step)
    ensures Apart(Digit(0x41E8_D62B_FC97_3A50, c), Digit(0x41E8_D62B_FC97_3A50, c + step))
  {}

  lemma Row1DApart(c: nat, step: nat)
    requires Without(c, step)
    ensures Apart(Digit(0xFC82_4917_5B3E_A06D, c), Digit(0xFC82_4917_5B3E_A06D, c + step))
  {}

  lemma FirstBit1Apart(c: nat)
    requires c < 16
    ensures Apart(Digit(0xE4D1_2FB8_3A6C_5907, c), Digit(0x41E8_D62B_FC97_3A50, c)) && Apart(Digit(0x0F74_E2D1_A6CB_9538, c), Digit(0xFC82_4917_5B3E_A06D, c))
  {}

  lemma LastBit1Apart(c: nat)
    requires c < 16
    ensures Apart(Digit(0xE4D1_2FB8_3A6C_5907, c), Digit(0x0F74_E2D1_A6CB_9538, c)) && Apart(Digit(0x41E8_D62B_FC97_3A50, c), Digit(0xFC82_4917_5B3E_A06D, c))
  {}

  lemma Row2AApart(c: nat, step: nat)
    requires Without(c, step)
    ensures Apart(Digit(0xF18E_6B34_972D_C05A, c), Digit(0xF18E_6B34_972D_C05A, c + step))
  {}

  lemma Row2BApart(c: nat, step: nat)
    requires Without(c, step)
    ensures Apart(Digit(0x3D47_F28E_C01A_69B5, c), Digit(0x3D47_F28E_C01A_69B5, c + step))
  {}

  lemma Row2CApart(c: nat, step: nat)
    requires Without(c, step)
    ensures Apart(Digit(0x0E7B_A4D1_58C6_932F, c), Digit(0x0E7B_A4D1_58C6_932F, c + step))
  {}

  lemma Row2DApart(c: nat, step: nat)
    requires Without(c, step)
    ensures Apart(Digit(0xD8A1_3F42_B67C_05E9, c), Digit(0xD8A1_3F42_B67C_05E9, c + step))
  {}

  lemma FirstBit2Apart(c: nat)
    requires c < 16
    ensures Apart(Digit(0xF18E_6B34_972D_C05A, c), Digit(0x0E7B_A4D1_58C6_932F, c)) && Apart(Digit(0x3D47_F28E_C01A_69B5, c), Digit(0xD8A1_3F42_B67C_05E9, c))
  {}

  lemma LastBit2Apart(c: nat)
    requires c < 16
    ensures Apart(Digit(0xF18E_6B34_972D_C05A, c), Digit(0x3D47_F28E_C01A_69B5, c)) && Apart(Digit(0x0E7B_A4D1_58C6_932F, c), Digit(0xD8A1_3F42_B67C_05E9, c))
  {}

  lemma Row3AApart(c: nat, step: nat)
    requires Without(c, step)
    ensures Apart(Digit(0xA09E_63F5_1DC7_B428, c), Digit(0xA09E_63F5_1DC7_B428, c + step))
  {}

  lemma Row3BApart(c: nat, step: nat)
    requires Without(c, step)
    ensures Apart(Digit(0xD709_346A_285E_CBF1, c), Digit(0xD709_346A_285E_CBF1, c + step))
  {}

  lemma Row3CApart(c: nat, step: nat)
    requires Without(c, step)
    ensures Apart(Digit(0xD649_8F30_B12C_5AE7, c), Digit(0xD649_8F30_B12C_5AE7, c + step))
  {}

  lemma Row3DApart(c: nat, step: nat)
    requires Without(c, step)
    ensures Apart(Digit(0x1AD0_6987_4FE3_B52C, c), Digit(0x1AD0_6987_4FE3_B52C, c + step))
  {}

  lemma FirstBit3Apart(c: nat)
    requires c < 16
    ensures Apart(Digit(0xA09E_63F5_1DC7_B428, c), Digit(0xD649_8F30_B12C_5AE7, c)) && Apart(Digit(0xD709_346A_285E_CBF1, c), Digit(0x1AD0_6987_4FE3_B52C, c))
  {}

  lemma LastBit3Apart(c: nat)
    requires c < 16
    ensures Apart(Digit(0xA09E_63F5_1DC7_B428, c), Digit(0xD709_346A_285E_CBF1, c)) && Apart(Digit(0xD649_8F30_B12C_5AE7, c), Digit(0x1AD0_6987_4FE3_B52C, c))
  {}

  lemma Row4AApart(c: nat, step: nat)
    requires Without(c, step)
    ensures Apart(Digit(0x7DE3_069A_1285_BC4F, c), Digit(0x7DE3_069A_1285_BC4F, c + step))
  {}

  lemma Row4BApart(c: nat, step: nat)
    requires Without(c, step)
    ensures Apart(Digit(0xD8B5_6F03_472C_1AE9, c), Digit(0xD8B5_6F03_472C_1AE9, c + step))
  {}

  lemma Row4CApart(c: nat, step: nat)
    requires Without(c, step)
    ensures Apart(Digit(0xA690_CB7D_F13E_5284, c), Digit(0xA690_CB7D_F13E_5284, c + step))
  {}

  lemma Row4DApart(c: nat, step: nat)
    requires Without(c, step)
    ensures Apart(Digit(0x3F06_A1D8_945B_C72E, c), Digit(0x3F06_A1D8_945B_C72E, c + step))
  {}

  lemma FirstBit4Apart(c: nat)
    requires c < 16
    ensures Apart(Digit(0x7DE3_069A_1285_BC4F, c), Digit(0xA690_CB7D_F13E_5284, c)) && Apart(Digit(0xD8B5_6F03_472C_1AE9, c), Digit(0x3F06_A1D8_945B_C72E, c))
  {}

  lemma LastBit4Apart(c: nat)
    requires c < 16
    ensures Apart(Digit(0x7DE3_069A_1285_BC4F, c), Digit(0xD8B5_6F03_472C_1AE9, c)) && Apart(Digit(0xA690_CB7D_F13E_5284, c), Digit(0x3F06_A1D8_945B_C72E, c))
  {}

  lemma Row5AApart(c: nat, step: nat)
    requires Without(c, step)
    ensures Apart(Digit(0x2C41_7AB6_853F_D0E9, c), Digit(0x2C41_7AB6_853F_D0E9, c + step))
  {}

  lemma Row5BApart(c: nat, step: nat)
    requires Without(c, step)
    ensures Apart(Digit(0xEB2C_47D1_50FA_3986, c), Digit(0xEB2C_47D1_50FA_3986, c + step))
  {}

  lemma Row5CApart(c: nat, step: nat)
    requires Without(c, step)
    ensures Apart(Digit(0x421B_AD78_F9C5_630E, c), Digit(0x421B_AD78_F9C5_630E, c + step))
  {}

  lemma Row5DApart(c: nat, step: nat)
    requires Without(c, step)
    ensures Apart(Digit(0xB8C7_1E2D_6F09_A453, c), Digit(0xB8C7_1E2D_6F09_A453, c + step))
  {}

  lemma FirstBit5Apart(c: nat)
    requires c < 16
    ensures Apart(Digit(0x2C41_7AB6_853F_D0E9, c), Digit(0x421B_AD78_F9C5_630E, c)) && Apart(Digit(0xEB2C_47D1_50FA_3986, c), Digit(0xB8C7_1E2D_6F09_A453, c))
  {}

  lemma LastBit5Apart(c: nat)
    requires c < 16
    ensures Apart(Digit(0x2C41_7AB6_853F_D0E9, c), Digit(0xEB2C_47D1_50FA_3986, c)) && Apart(Digit(0x421B_AD78_F9C5_630E, c), Digit(0xB8C7_1E2D_6F09_A453, c))
  {}

  lemma Row6AApart(c: nat, step: nat)
    requires Without(c, step)
    ensures Apart(Digit(0xC1AF_9268_0D34_E75B, c), Digit(0xC1AF_9268_0D34_E75B, c + step))
  {}

  lemma Row6BApart(c: nat, step: nat)
    requires Without(c, step)
    ensures Apart(Digit(0xAF42_7C95_61DE_0B38, c), Digit(0xAF42_7C95_61DE_0B38, c + step))
  {}

  lemma Row6CApart(c: nat, step: nat)
    requires Without(c, step)
    ensures Apart(Digit(0x9EF5_28C3_704A_1DB6, c), Digit(0x9EF5_28C3_704A_1DB6, c + step))
  {}

  lemma Row6DApart(c: nat, step: nat)
    requires Without(c, step)
    ensures Apart(Digit(0x432C_95FA_BE17_608D, c), Digit(0x432C_95FA_BE17_608D, c + step))
  {}

  lemma FirstBit6Apart(c: nat)
    requires c < 16
    ensures Apart(Digit(0xC1AF_9268_0D34_E75B, c), Digit(0x9EF5_28C3_704A_1DB6, c)) && Apart(Digit(0xAF42_7C95_61DE_0B38, c), Digit(0x432C_95FA_BE17_608D, c))
  {}

  lemma LastBit6Apart(c: nat)
    requires c < 16
    ensures Apart(Digit(0xC1AF_9268_0D34_E75B, c), Digit(0xAF42_7C95_61DE_0B38, c)) && Apart(Digit(0x9EF5_28C3_704A_1DB6, c), Digit(0x432C_95FA_BE17_608D, c))
  {}

  lemma Row7AApart(c: nat, step: nat)
    requires Without(c, step)
    ensures Apart(Digit(0x4B2E_F08D_3C97_5A61, c), Digit(0x4B2E_F08D_3C97_5A61, c + step))
  {}

  lemma Row7BApart(c: nat, step: nat)
    requires Without(c, step)
    ensures Apart(Digit(0xD0B7_491A_E35C_2F86, c), Digit(0xD0B7_491A_E35C_2F86, c + step))
  {}

  lemma Row7CApart(c: nat, step: nat)
    requires Without(c, step)
    ensures Apart(Digit(0x14BD_C37E_AF68_0592, c), Digit(0x14BD_C37E_AF68_0592, c + step))
  {}

  lemma Row7DApart(c: nat, step: nat)
    requires Without(c, step)
    ensures Apart(Digit(0x6BD8_14A7_950F_E23C, c), Digit(0x6BD8_14A7_950F_E23C, c + step))
  {}

  lemma FirstBit7Apart(c: nat)
    requires c < 16
    ensures Apart(Digit(0x4B2E_F08D_3C97_5A61, c), Digit(0x14BD_C37E_AF68_0592, c)) && Apart(Digit(0xD0B7_491A_E35C_2F86, c), Digit(0x6BD8_14A7_950F_E23C, c))
  {}

  lemma LastBit7Apart(c: nat)
    requires c < 16
    ensures Apart(Digit(0x4B2E_F08D_3C97_5A61, c), Digit(0xD0B7_491A_E35C_2F86, c)) && Apart(Digit(0x14BD_C37E_AF68_0592, c), Digit(0x6BD8_14A7_950F_E23C, c))
  {}

  lemma Row8AApart(c: nat, step: nat)
    requires Without(c, step)
    ensures Apart(Digit(0xD284_6FB1_A93E_50C7, c), Digit(0xD284_6FB1_A93E_50C7, c + step))
  {}

  lemma Row8BApart(c: nat, step: nat)
    requires Without(c, step)
    ensures Apart(Digit(0x1FD8_A374_C56B_0E92, c), Digit(0x1FD8_A374_C56B_0E92, c + step))
  {}

  lemma Row8CApart(c: nat, step: nat)
    requires Without(c, step)
    ensures Apart(Digit(0x7B41_9CE2_06AD_F358, c), Digit(0x7B41_9CE2_06AD_F358, c + step))
  {}

  lemma Row8DApart(c: nat, step: nat)
    requires Without(c, step)
    ensures Apart(Digit(0x21E7_4A8D_FC90_356B, c), Digit(0x21E7_4A8D_FC90_356B, c + step))
  {}

  lemma FirstBit8Apart(c: nat)
    requires c < 16
    ensures Apart(Digit(0xD284_6FB1_A93E_50C7, c), Digit(0x7B41_9CE2_06AD_F358, c)) && Apart(Digit(0x1FD8_A374_C56B_0E92, c), Digit(0x21E7_4A8D_FC90_356B, c))
  {}

  lemma LastBit8Apart(c: nat)
    requires c < 16
    ensures Apart(Digit(0xD284_6FB1_A93E_50C7, c), Digit(0x1FD8_A374_C56B_0E92, c)) && Apart(Digit(0x7B41_9CE2_06AD_F358, c), Digit(0x21E7_4A8D_FC90_356B, c))
  {}

  lemma ColumnsApart(box: nat, row: nat, c: nat, step: nat)
    requires box < 8 && row < 4 && Without(c, step)
    ensures c + step < 16 && Apart(Digit(RowOf(box, row), c), Digit(RowOf(box, row), c + step))
  {
    assert c + step < 16;
    hide Digit, Apart, Without;
    match 4 * box + row
    case 0 => Row1AApart(c, step); case 1 => Row1BApart(c, step); case 2 => Row1CApart(c, step); case 3 => Row1DApart(c, step);
    case 4 => Row2AApart(c, step); case 5 => Row2BApart(c, step); case 6 => Row2CApart(c, step); case 7 => Row2DApart(c, step);
    case 8 => Row3AApart(c, step); case 9 => Row3BApart(c, step); case 10 => Row3CApart(c, step); case 11 => Row3DApart(c, step);
    case 12 => Row4AApart(c, step); case 13 => Row4BApart(c, step); case 14 => Row4CApart(c, step); case 15 => Row4DApart(c, step);
    case 16 => Row5AApart(c, step); case 17 => Row5BApart(c, step); case 18 => Row5CApart(c, step); case 19 => Row5DApart(c, step);
    case 20 => Row6AApart(c, step); case 21 => Row6BApart(c, step); case 22 => Row6CApart(c, step); case 23 => Row6DApart(c, step);
    case 24 => Row7AApart(c, step); case 25 => Row7BApart(c, step); case 26 => Row7CApart(c, step); case 27 => Row7DApart(c, step);
    case 28 => Row8AApart(c, step); case 29 => Row8BApart(c, step); case 30 => Row8CApart(c, step); case _ => Row8DApart(c, step);
  }

  lemma RowsApart(box: nat, c: nat)
    requires box < 8 && c < 16
    ensures Apart(Digit(RowOf(box, 0), c), Digit(RowOf(box, 2), c)) && Apart(Digit(RowOf(box, 1), c), Digit(RowOf(box, 3), c))
    ensures Apart(Digit(RowOf(box, 0), c), Digit(RowOf(box, 1), c)) && Apart(Digit(RowOf(box, 2), c), Digit(RowOf(box, 3), c))
  {
    hide Digit, Apart;
    match box
    case 0 => FirstBit1Apart(c); LastBit1Apart(c); case 1 => FirstBit2Apart(c); LastBit2Apart(c);
    case 2 => FirstBit3Apart(c); LastBit3Apart(c); case 3 => FirstBit4Apart(c); LastBit4Apart(c);
    case 4 => FirstBit5Apart(c); LastBit5Apart(c); case 5 => FirstBit6Apart(c); LastBit6Apart(c);
    case 6 => FirstBit7Apart(c); LastBit7Apart(c); case _ => FirstBit8Apart(c); LastBit8Apart(c);
  }

  function Column(b: seq<bool>): (c: nat)
    requires |b| == 6
    ensures c < 16
  {
    8 * BitValue(b[1]) + 4 * BitValue(b[2]) + 2 * BitValue(b[3]) + BitValue(b[4])
  }

  function RowNumber(b: seq<bool>): (r: nat)
    requires |b| == 6
    ensures r < 4
  {
    2 * BitValue(b[0]) + BitValue(b[5])
  }

  function Step(j: nat): nat
    requires 1 <= j < 5
  {
    if j == 1 then 8 else if j == 2 then 4 else if j == 3 then 2 else 1
  }

  lemma TurnedOn(b: seq<bool>, j: nat)
    requires |b| == 6 && 1 <= j < 5 && !b[j]
    ensures Without(Column(b), Step(j)) && Column(b[j := true]) == Column(b) + Step(j) && RowNumber(b[j := true]) == RowNumber(b)
  {}

  lemma EntryAt(box: nat, b: seq<bool>)
    requires box < 8 && |b| == 6
    ensures SBox(box, SBoxIndex(b)) == Digit(RowOf(box, RowNumber(b)), Column(b))
  {
    SBoxIs(box, RowNumber(b), Column(b));
    hide SBox, Digit, RowOf;
  }

  lemma ApartSymmetric(a: bv8, b: bv8)
    ensures Apart(a, b) ==> Apart(b, a)
  {}

  lemma RowTurnedOn(b: seq<bool>, j: nat)
    requires |b| == 6 && (j == 0 || j == 5) && !b[j]
    ensures var d := b[j := true];
      && Column(d) == Column(b) && RowNumber(d) == RowNumber(b) + (if j == 0 then 2 else 1)
      && (if j == 0 then RowNumber(b) < 2 else RowNumber(b) == 0 || RowNumber(b) == 2)
  {}

  lemma RowTurnedOnApart(box: nat, row: nat, c: nat, step: nat)
    requires box < 8 && c < 16 && ((step == 2 && row < 2) || (step == 1 && (row == 0 || row == 2)))
    ensures Apart(Digit(RowOf(box, row), c), Digit(RowOf(box, row + step), c))
  {
    hide Apart, Digit, RowOf;
    RowsApart(box, c);
  }

  // Turning on a bit of the input.
  lemma TurnedOnApart(box: nat, b: seq<bool>, j: nat)
    requires box < 8 && |b| == 6 && j < 6 && !b[j]
    ensures Apart(SBox(box, SBoxIndex(b)), SBox(box, SBoxIndex(b[j := true])))
  {
    hide SBox, SBoxIndex, Apart, Digit, RowOf, Without, RowNumber, Column, Step;
    EntryAt(box, b);
    EntryAt(box, b[j := true]);
    if j == 0 || j == 5 {
      RowTurnedOn(b, j);
      RowTurnedOnApart(box, RowNumber(b), Column(b), if j == 0 then 2 else 1);
    } else {
      TurnedOn(b, j);
      ColumnsApart(box, RowNumber(b), Column(b), Step(j));
    }
  }

  /** One input bit of an S-box turned over changes at least two of its four output bits. */
  lemma OneBitChangesTwo(box: nat, b: seq<bool>, j: nat)
    requires box < 8 && |b| == 6 && j < 6
    ensures Apart(SBox(box, SBoxIndex(b)), SBox(box, SBoxIndex(b[j := !b[j]])))
  {
    hide SBox, SBoxIndex, Apart;
    var d := b[j := !b[j]];
    if b[j] {
      TurnedOnApart(box, d, j);
      assert d[j := true] == b;
      ApartSymmetric(SBox(box, SBoxIndex(d)), SBox(box, SBoxIndex(b)));
    } else {
      TurnedOnApart(box, b, j);
    }
  }

  lemma Row1Distinct(i: nat, j: nat)
    requires i < j < 64 && i / 16 == j / 16
    ensures S1Entry(i) != S1Entry(j)
  {}

  lemma Row2Distinct(i: nat, j: nat)
    requires i < j < 64 && i / 16 == j / 16
    ensures S2Entry(i) != S2Entry(j)
  {}

  lemma Row3Distinct(i: nat, j: nat)
    requires i < j < 64 && i / 16 == j / 16
    ensures S3Entry(i) != S3Entry(j)
  {}

  lemma Row4Distinct(i: nat, j: nat)
    requires i < j < 64 && i / 16 == j / 16
    ensures S4Entry(i) != S4Entry(j)
  {}

  lemma Row5Distinct(i: nat, j: nat)
    requires i < j < 64 && i / 16 == j / 16
    ensures S5Entry(i) != S5Entry(j)
  {}

  lemma Row6Distinct(i: nat, j: nat)
    requires i < j < 64 && i / 16 == j / 16
    ensures S6Entry(i) != S6Entry(j)
  {}

  lemma Row7Distinct(i: nat, j: nat)
    requires i < j < 64 && i / 16 == j / 16
    ensures S7Entry(i) != S7Entry(j)
  {}

  lemma Row8Distinct(i: nat, j: nat)
    requires i < j < 64 && i / 16 == j / 16
    ensures S8Entry(i) != S8Entry(j)
  {}

  /** Every row of an S-box is a permutation of 0 to 15: its sixteen entries are below 16 and no two are equal. */
  lemma RowsPermute(box: nat, i: nat, j: nat)
    requires box < 8 && i < j < 64 && i / 16 == j / 16
    ensures SBox(box, i) < 16 && SBox(box, j) < 16 && SBox(box, i) != SBox(box, j)
  {
    hide S1Entry, S2Entry, S3Entry, S4Entry, S5Entry, S6Entry, S7Entry, S8Entry, SBox;
    SBoxIsNibble(box, i);
    SBoxIsNibble(box, j);
    EntryIs(box, i);
    EntryIs(box, j);
    match box
    case 0 => Row1Distinct(i, j); case 1 => Row2Distinct(i, j); case 2 => Row3Distinct(i, j); case 3 => Row4Distinct(i, j);
    case 4 => Row5Distinct(i, j); case 5 => Row6Distinct(i, j); case 6 => Row7Distinct(i, j); case _ => Row8Distinct(i, j);
  }

  // ---------------------------------------------------------------- the permutations

  lemma EvenInitialIs(i: nat)
    requires i < 32
    ensures Initial(i) == 2 * (i / 8 + 1) + 8 * (7 - i % 8)
  {}

  lemma OddInitialIs(i: nat)
    requires 32 <= i < 64
    ensures Initial(i) == 2 * (i / 8 - 4) + 1 + 8 * (7 - i % 8)
  {}

  lemma ExpansionIs(i: nat)
    requires i < 48
    ensures Expansion(i) == (4 * (i / 6) + i % 6 + 31) % 32 + 1
  {}

  lemma FirstHalfIs(i: nat)
    requires i < 28
    ensures KeyChoice1(i) == 57 - 8 * (i % 8) + i / 8
  {}

  lemma SecondHalfIs(i: nat)
    requires i < 24
    ensures KeyChoice1(28 + i) == 63 - 8 * (i % 8) - i / 8
  {}

  lemma LastFourAre(i: nat)
    requires i < 4
    ensures KeyChoice1(52 + i) == 28 - 8 * i
  {}

  /** The regular tables in closed form: IP and PC-1 read columns of the eight bytes from the bottom up, E repeats
      the bits at the edges of each group of four, the key is shifted by one place in rounds 1, 2, 9 and 16. */
  lemma TablesAre(i: nat)
    ensures i < 64 ==> INITIAL_PERMUTATION[i] == (if i < 32 then 2 * (i / 8 + 1) else 2 * (i / 8 - 4) + 1) + 8 * (7 - i % 8)
    ensures i < 48 ==> EXPANSION[i] == (4 * (i / 6) + i % 6 + 31) % 32 + 1
    ensures i < 28 ==> PERMUTED_CHOICE_1[i] == 57 - 8 * (i % 8) + i / 8
    ensures i < 24 ==> PERMUTED_CHOICE_1[28 + i] == 63 - 8 * (i % 8) - i / 8
    ensures i < 4 ==> PERMUTED_CHOICE_1[52 + i] == 28 - 8 * i
    ensures 1 <= i <= 16 ==> KeyShift(i) == if i in {1, 2, 9, 16} then 1 else 2
  {
    hide Initial, Expansion, KeyChoice1;
    if i < 32 { EvenInitialIs(i); } else if i < 64 { OddInitialIs(i); }
    if i < 48 { ExpansionIs(i); }
    if i < 28 { FirstHalfIs(i); }
    if i < 24 { SecondHalfIs(i); }
    if i < 4 { LastFourAre(i); }
  }

  lemma RoundPermutationDistinct(i: nat, j: nat)
    requires i < j < 32
    ensures RoundPermutation(i) != RoundPermutation(j)
  {}

  lemma KeyChoice2Distinct(i: nat, j: nat)
    requires i < j < 48
    ensures KeyChoice2(i) != KeyChoice2(j)
  {}

  lemma KeyChoice2LeavesOut(i: nat)
    requires i < 48
    ensures KeyChoice2(i) !in {9, 18, 22, 25, 35, 38, 43, 54}
  {}

  /** P moves every bit to another place; PC-2 takes 48 different bits, all but eight. */
  lemma PlacesDistinct(i: nat, j: nat)
    ensures i < j < 32 ==> PERMUTATION_P[i] != PERMUTATION_P[j]
    ensures i < j < 48 ==> PERMUTED_CHOICE_2[i] != PERMUTED_CHOICE_2[j]
    ensures i < 48 ==> PERMUTED_CHOICE_2[i] !in {9, 18, 22, 25, 35, 38, 43, 54}
  {
    hide RoundPermutation, KeyChoice2;
    if i < j < 32 { RoundPermutationDistinct(i, j); }
    if i < j < 48 { KeyChoice2Distinct(i, j); }
    if i < 48 { KeyChoice2LeavesOut(i); }
  }
}
