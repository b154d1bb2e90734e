/** The checksum of server/redis/crc16.c: CRC-16 with polynomial x^16 + x^12 + x^5 + 1, most
    significant bit first, starting from zero, computed a byte at a time with a 256-entry table.
    It is proved to be the remainder of polynomial long division over GF(2). */
module Crc16 {
  import opened Bits

  // crc16tab, crc16.c:47-80, sixteen entries to a row

  function Row0(i: bv8): bv16 {
    match i case 0 => 0x0000 case 1 => 0x1021 case 2 => 0x2042 case 3 => 0x3063 case 4 => 0x4084 case 5 => 0x50a5
    case 6 => 0x60c6 case 7 => 0x70e7 case 8 => 0x8108 case 9 => 0x9129 case 10 => 0xa14a
    case 11 => 0xb16b case 12 => 0xc18c case 13 => 0xd1ad case 14 => 0xe1ce case _ => 0xf1ef
  }

  function Row1(i: bv8): bv16 {
    match i case 0 => 0x1231 case 1 => 0x0210 case 2 => 0x3273 case 3 => 0x2252 case 4 => 0x52b5 case 5 => 0x4294
    case 6 => 0x72f7 case 7 => 0x62d6 case 8 => 0x9339 case 9 => 0x8318 case 10 => 0xb37b
    case 11 => 0xa35a case 12 => 0xd3bd case 13 => 0xc39c case 14 => 0xf3ff case _ => 0xe3de
  }

  function Row2(i: bv8): bv16 {
    match i case 0 => 0x2462 case 1 => 0x3443 case 2 => 0x0420 case 3 => 0x1401 case 4 => 0x64e6 case 5 => 0x74c7
    case 6 => 0x44a4 case 7 => 0x5485 case 8 => 0xa56a case 9 => 0xb54b case 10 => 0x8528
    case 11 => 0x9509 case 12 => 0xe5ee case 13 => 0xf5cf case 14 => 0xc5ac case _ => 0xd58d
  }

  function Row3(i: bv8): bv16 {
    match i case 0 => 0x3653 case 1 => 0x2672 case 2 => 0x1611 case 3 => 0x0630 case 4 => 0x76d7 case 5 => 0x66f6
    case 6 => 0x5695 case 7 => 0x46b4 case 8 => 0xb75b case 9 => 0xa77a case 10 => 0x9719
    case 11 => 0x8738 case 12 => 0xf7df case 13 => 0xe7fe case 14 => 0xd79d case _ => 0xc7bc
  }

  function Row4(i: bv8): bv16 {
    match i case 0 => 0x48c4 case 1 => 0x58e5 case 2 => 0x6886 case 3 => 0x78a7 case 4 => 0x0840 case 5 => 0x1861
    case 6 => 0x2802 case 7 => 0x3823 case 8 => 0xc9cc case 9 => 0xd9ed case 10 => 0xe98e
    case 11 => 0xf9af case 12 => 0x8948 case 13 => 0x9969 case 14 => 0xa90a case _ => 0xb92b
  }

  function Row5(i: bv8): bv16 {
    match i case 0 => 0x5af5 case 1 => 0x4ad4 case 2 => 0x7ab7 case 3 => 0x6a96 case 4 => 0x1a71 case 5 => 0x0a50
    case 6 => 0x3a33 case 7 => 0x2a12 case 8 => 0xdbfd case 9 => 0xcbdc case 10 => 0xfbbf
    case 11 => 0xeb9e case 12 => 0x9b79 case 13 => 0x8b58 case 14 => 0xbb3b case _ => 0xab1a
  }

  function Row6(i: bv8): bv16 {
    match i case 0 => 0x6ca6 case 1 => 0x7c87 case 2 => 0x4ce4 case 3 => 0x5cc5 case 4 => 0x2c22 case 5 => 0x3c03
    case 6 => 0x0c60 case 7 => 0x1c41 case 8 => 0xedae case 9 => 0xfd8f case 10 => 0xcdec
    case 11 => 0xddcd case 12 => 0xad2a case 13 => 0xbd0b case 14 => 0x8d68 case _ => 0x9d49
  }

  function Row7(i: bv8): bv16 {
    match i case 0 => 0x7e97 case 1 => 0x6eb6 case 2 => 0x5ed5 case 3 => 0x4ef4 case 4 => 0x3e13 case 5 => 0x2e32
    case 6 => 0x1e51 case 7 => 0x0e70 case 8 => 0xff9f case 9 => 0xefbe case 10 => 0xdfdd
    case 11 => 0xcffc case 12 => 0xbf1b case 13 => 0xaf3a case 14 => 0x9f59 case _ => 0x8f78
  }

  function Row8(i: bv8): bv16 {
    match i case 0 => 0x9188 case 1 => 0x81a9 case 2 => 0xb1ca case 3 => 0xa1eb case 4 => 0xd10c case 5 => 0xc12d
    case 6 => 0xf14e case 7 => 0xe16f case 8 => 0x1080 case 9 => 0x00a1 case 10 => 0x30c2
    case 11 => 0x20e3 case 12 => 0x5004 case 13 => 0x4025 case 14 => 0x7046 case _ => 0x6067
  }

  function Row9(i: bv8): bv16 {
    match i case 0 => 0x83b9 case 1 => 0x9398 case 2 => 0xa3fb case 3 => 0xb3da case 4 => 0xc33d case 5 => 0xd31c
    case 6 => 0xe37f case 7 => 0xf35e case 8 => 0x02b1 case 9 => 0x1290 case 10 => 0x22f3
    case 11 => 0x32d2 case 12 => 0x4235 case 13 => 0x5214 case 14 => 0x6277 case _ => 0x7256
  }

  function RowA(i: bv8): bv16 {
    match i case 0 => 0xb5ea case 1 => 0xa5cb case 2 => 0x95a8 case 3 => 0x8589 case 4 => 0xf56e case 5 => 0xe54f
    case 6 => 0xd52c case 7 => 0xc50d case 8 => 0x34e2 case 9 => 0x24c3 case 10 => 0x14a0
    case 11 => 0x0481 case 12 => 0x7466 case 13 => 0x6447 case 14 => 0x5424 case _ => 0x4405
  }

  function RowB(i: bv8): bv16 {
    match i case 0 => 0xa7db case 1 => 0xb7fa case 2 => 0x8799 case 3 => 0x97b8 case 4 => 0xe75f case 5 => 0xf77e
    case 6 => 0xc71d case 7 => 0xd73c case 8 => 0x26d3 case 9 => 0x36f2 case 10 => 0x0691
    case 11 => 0x16b0 case 12 => 0x6657 case 13 => 0x7676 case 14 => 0x4615 case _ => 0x5634
  }

  function RowC(i: bv8): bv16 {
    match i case 0 => 0xd94c case 1 => 0xc96d case 2 => 0xf90e case 3 => 0xe92f case 4 => 0x99c8 case 5 => 0x89e9
    case 6 => 0xb98a case 7 => 0xa9ab case 8 => 0x5844 case 9 => 0x4865 case 10 => 0x7806
    case 11 => 0x6827 case 12 => 0x18c0 case 13 => 0x08e1 case 14 => 0x3882 case _ => 0x28a3
  }

  function RowD(i: bv8): bv16 {
    match i case 0 => 0xcb7d case 1 => 0xdb5c case 2 => 0xeb3f case 3 => 0xfb1e case 4 => 0x8bf9 case 5 => 0x9bd8
    case 6 => 0xabbb case 7 => 0xbb9a case 8 => 0x4a75 case 9 => 0x5a54 case 10 => 0x6a37
    case 11 => 0x7a16 case 12 => 0x0af1 case 13 => 0x1ad0 case 14 => 0x2ab3 case _ => 0x3a92
  }

  function RowE(i: bv8): bv16 {
    match i case 0 => 0xfd2e case 1 => 0xed0f case 2 => 0xdd6c case 3 => 0xcd4d case 4 => 0xbdaa case 5 => 0xad8b
    case 6 => 0x9de8 case 7 => 0x8dc9 case 8 => 0x7c26 case 9 => 0x6c07 case 10 => 0x5c64
    case 11 => 0x4c45 case 12 => 0x3ca2 case 13 => 0x2c83 case 14 => 0x1ce0 case _ => 0x0cc1
  }

  function RowF(i: bv8): bv16 {
    match i case 0 => 0xef1f case 1 => 0xff3e case 2 => 0xcf5d case 3 => 0xdf7c case 4 => 0xaf9b case 5 => 0xbfba
    case 6 => 0x8fd9 case 7 => 0x9ff8 case 8 => 0x6e17 case 9 => 0x7e36 case 10 => 0x4e55
    case 11 => 0x5e74 case 12 => 0x2e93 case 13 => 0x3eb2 case 14 => 0x0ed1 case _ => 0x1ef0
  }

  function Table(i: bv8): bv16 {
    var low := i & 0x0F;
    match i >> 4
    case 0 => Row0(low) case 1 => Row1(low) case 2 => Row2(low) case 3 => Row3(low) case 4 => Row4(low)
    case 5 => Row5(low) case 6 => Row6(low) case 7 => Row7(low) case 8 => Row8(low) case 9 => Row9(low)
    case 10 => RowA(low) case 11 => RowB(low) case 12 => RowC(low) case 13 => RowD(low) case 14 => RowE(low)
    case _ => RowF(low)
  }

  // ---------------------------------------------------------------- the register

  predicate Msb(r: bv16) {
    r & 0x8000 != 0
  }

  function Twice(r: bv16): bv16 {
    r << 1
  }

  /** What subtracting the polynomial changes, when a bit leaves at the top. */
  function Carry(r: bv16): bv16 {
    if Msb(r) then 0x1021 else 0
  }

  /** Addition of polynomials. */
  function Plus(a: bv16, b: bv16): bv16 {
    a ^ b
  }

  /** Multiplication by x, modulo the polynomial. */
  function Step(r: bv16): bv16 {
    Plus(Twice(r), Carry(r))
  }

  function Steps(r: bv16, n: nat): bv16
    decreases n
  {
    if n == 0 then r else Steps(Step(r), n - 1)
  }

  lemma XorRules(a: bv16, b: bv16, c: bv16, d: bv16)
    ensures (a ^ b) ^ (c ^ d) == (a ^ c) ^ (b ^ d)
    ensures a ^ (b ^ c) == (a ^ b) ^ c
    ensures a ^ b == b ^ a
  {}

  lemma PlusRules(a: bv16, b: bv16, c: bv16, d: bv16)
    ensures Plus(Plus(a, b), Plus(c, d)) == Plus(Plus(a, c), Plus(b, d))
    ensures Plus(a, Plus(b, c)) == Plus(Plus(a, b), c)
    ensures Plus(a, b) == Plus(b, a)
  {
    XorRules(a, b, c, d);
  }

  lemma XorShift(a: bv16, b: bv16)
    ensures (a ^ b) << 1 == (a << 1) ^ (b << 1)
  {}

  lemma TopXor(a: bv16, b: bv16)
    ensures (a ^ b) & 0x8000 != 0 <==> ((a & 0x8000 != 0) != (b & 0x8000 != 0))
  {}

  lemma TwiceLinear(a: bv16, b: bv16)
    ensures Twice(Plus(a, b)) == Plus(Twice(a), Twice(b))
  {
    XorShift(a, b);
  }

  lemma CarryLinear(a: bv16, b: bv16)
    ensures Carry(Plus(a, b)) == Plus(Carry(a), Carry(b))
  {
    MsbLinear(a, b);
    PlusZero(0x1021);
    PlusZero(0);
    hide Msb, Plus;
  }

  lemma MsbLinear(a: bv16, b: bv16)
    ensures Msb(Plus(a, b)) == (Msb(a) != Msb(b))
  {
    TopXor(a, b);
  }

  lemma PlusZero(r: bv16)
    ensures Plus(r, 0) == r && Plus(0, r) == r && Plus(r, r) == 0
  {}

  lemma StepLinear(a: bv16, b: bv16)
    ensures Step(Plus(a, b)) == Plus(Step(a), Step(b))
  {
    hide Plus, Twice, Carry;
    TwiceLinear(a, b);
    CarryLinear(a, b);
    PlusRules(Twice(a), Twice(b), Carry(a), Carry(b));
  }

  lemma {:induction false} StepsLinear(a: bv16, b: bv16, n: nat)
    ensures Steps(Plus(a, b), n) == Plus(Steps(a, n), Steps(b, n))
    decreases n
  {
    hide Step, Plus;
    if n > 0 {
      StepLinear(a, b);
      StepsLinear(Step(a), Step(b), n - 1);
    }
  }

  // ---------------------------------------------------------------- the table

  lemma TableRow0(i: bv8)
    requires i >> 4 == 0
    ensures Table(i) == Steps((i as bv16) << 8, 8)
  {
    EightSteps((i as bv16) << 8);
  }

  lemma TableRow1(i: bv8)
    requires i >> 4 == 1
    ensures Table(i) == Steps((i as bv16) << 8, 8)
  {
    EightSteps((i as bv16) << 8);
  }

  lemma TableRow2(i: bv8)
    requires i >> 4 == 2
    ensures Table(i) == Steps((i as bv16) << 8, 8)
  {
    EightSteps((i as bv16) << 8);
  }

  lemma TableRow3(i: bv8)
    requires i >> 4 == 3
    ensures Table(i) == Steps((i as bv16) << 8, 8)
  {
    EightSteps((i as bv16) << 8);
  }

  lemma TableRow4(i: bv8)
    requires i >> 4 == 4
    ensures Table(i) == Steps((i as bv16) << 8, 8)
  {
    EightSteps((i as bv16) << 8);
  }

  lemma TableRow5(i: bv8)
    requires i >> 4 == 5
    ensures Table(i) == Steps((i as bv16) << 8, 8)
  {
    EightSteps((i as bv16) << 8);
  }

  lemma TableRow6(i: bv8)
    requires i >> 4 == 6
    ensures Table(i) == Steps((i as bv16) << 8, 8)
  {
    EightSteps((i as bv16) << 8);
  }

  lemma TableRow7(i: bv8)
    requires i >> 4 == 7
    ensures Table(i) == Steps((i as bv16) << 8, 8)
  {
    EightSteps((i as bv16) << 8);
  }

  lemma TableRow8(i: bv8)
    requires i >> 4 == 8
    ensures Table(i) == Steps((i as bv16) << 8, 8)
  {
    EightSteps((i as bv16) << 8);
  }

  lemma TableRow9(i: bv8)
    requires i >> 4 == 9
    ensures Table(i) == Steps((i as bv16) << 8, 8)
  {
    EightSteps((i as bv16) << 8);
  }

  lemma TableRowA(i: bv8)
    requires i >> 4 == 10
    ensures Table(i) == Steps((i as bv16) << 8, 8)
  {
    EightSteps((i as bv16) << 8);
  }

  lemma TableRowB(i: bv8)
    requires i >> 4 == 11
    ensures Table(i) == Steps((i as bv16) << 8, 8)
  {
    EightSteps((i as bv16) << 8);
  }

  lemma TableRowC(i: bv8)
    requires i >> 4 == 12
    ensures Table(i) == Steps((i as bv16) << 8, 8)
  {
    EightSteps((i as bv16) << 8);
  }

  lemma TableRowD(i: bv8)
    requires i >> 4 == 13
    ensures Table(i) == Steps((i as bv16) << 8, 8)
  {
    EightSteps((i as bv16) << 8);
  }

  lemma TableRowE(i: bv8)
    requires i >> 4 == 14
    ensures Table(i) == Steps((i as bv16) << 8, 8)
  {
    EightSteps((i as bv16) << 8);
  }

  lemma TableRowF(i: bv8)
    requires i >> 4 == 15
    ensures Table(i) == Steps((i as bv16) << 8, 8)
  {
    EightSteps((i as bv16) << 8);
  }

  lemma EightSteps(r: bv16)
    ensures Steps(r, 8) == Step(Step(Step(Step(Step(Step(Step(Step(r))))))))
  {
    hide Step;
  }

  /** Entry i of the table is the byte i carried through eight steps. */
  lemma TableIsEightSteps(i: bv8)
    ensures Table(i) == Steps((i as bv16) << 8, 8)
  {
    hide Table, Steps;
    var h := i >> 4;
    assert h < 16;
    if h == 0 { TableRow0(i); } else if h == 1 { TableRow1(i); } else if h == 2 { TableRow2(i); }
    else if h == 3 { TableRow3(i); } else if h == 4 { TableRow4(i); } else if h == 5 { TableRow5(i); }
    else if h == 6 { TableRow6(i); } else if h == 7 { TableRow7(i); } else if h == 8 { TableRow8(i); }
    else if h == 9 { TableRow9(i); } else if h == 10 { TableRowA(i); } else if h == 11 { TableRowB(i); }
    else if h == 12 { TableRowC(i); } else if h == 13 { TableRowD(i); } else if h == 14 { TableRowE(i); }
    else { TableRowF(i); }
  }

  // ---------------------------------------------------------------- bits into the register

  function Unit(b: bool): bv16 {
    if b then 1 else 0
  }

  function Top(b: bool): bv16 {
    if b then 0x8000 else 0
  }

  /** Long division, one bit of the dividend at a time: bring the bit down, subtract if needed. */
  function Divide(r: bv16, bits: seq<bool>): bv16
    decreases |bits|
  {
    if bits == [] then r else Divide(Plus(Step(r), Unit(bits[0])), bits[1..])
  }

  /** The same bits added at the top of the register instead, before the step. */
  function Feed(r: bv16, bits: seq<bool>): bv16
    decreases |bits|
  {
    if bits == [] then r else Feed(Step(Plus(r, Top(bits[0]))), bits[1..])
  }

  lemma {:induction false} StepsOfStep(r: bv16, n: nat)
    ensures Steps(Step(r), n) == Step(Steps(r, n))
    decreases n
  {
    hide Step;
    if n > 0 { StepsOfStep(Step(r), n - 1); }
  }

  lemma {:induction false} StepsAdd(r: bv16, m: nat, n: nat)
    ensures Steps(r, m + n) == Steps(Steps(r, m), n)
    decreases m
  {
    hide Step;
    if m > 0 { StepsAdd(Step(r), m - 1, n); }
  }

  lemma SixteenSteps()
    ensures Steps(1, 15) == 0x8000 && Steps(1, 16) == 0x1021 && Steps(0, 16) == 0
  {
    StepsAdd(1, 8, 7);
    assert Steps(1, 8) == 0x0100;
    assert Steps(0x0100, 7) == 0x8000;
    StepsAdd(1, 15, 1);
    StepsAdd(0, 8, 8);
  }

  lemma UnitSixteenTimes(b: bool)
    ensures Steps(Unit(b), 16) == Step(Top(b))
  {
    SixteenSteps();
  }

  /** Adding a bit at the top is bringing it down sixteen steps early. */
  lemma {:induction false} FeedIsDivideAhead(r: bv16, bits: seq<bool>)
    ensures Feed(Steps(r, 16), bits) == Steps(Divide(r, bits), 16)
    decreases |bits|
  {
    if bits != [] {
      var b := bits[0];
      hide Step, Plus, Top, Unit;
      StepLinear(Steps(r, 16), Top(b));
      StepsOfStep(r, 16);
      UnitSixteenTimes(b);
      StepsLinear(Step(r), Unit(b), 16);
      FeedIsDivideAhead(Plus(Step(r), Unit(b)), bits[1..]);
    }
  }

  lemma {:induction false} DivideAppend(r: bv16, bits: seq<bool>, more: seq<bool>)
    ensures Divide(r, bits + more) == Divide(Divide(r, bits), more)
    decreases |bits|
  {
    hide Step, Plus, Unit;
    if bits == [] {
      assert bits + more == more;
    } else {
      assert (bits + more)[1..] == bits[1..] + more;
      DivideAppend(Plus(Step(r), Unit(bits[0])), bits[1..], more);
    }
  }

  lemma {:induction false} DivideZeros(r: bv16, n: nat)
    ensures Divide(r, Zeros(n)) == Steps(r, n)
    decreases n
  {
    hide Step;
    if n > 0 {
      assert Zeros(n)[1..] == Zeros(n - 1) && !Zeros(n)[0];
      assert Plus(Step(r), Unit(false)) == Step(r) by { PlusZero(Step(r)); }
      hide Plus;
      DivideZeros(Step(r), n - 1);
    }
  }

  /** Feeding a message gives the remainder of the message with sixteen zeros after it. */
  lemma FeedIsRemainder(bits: seq<bool>)
    ensures Feed(0, bits) == Divide(0, bits + Zeros(16))
  {
    hide Step, Plus;
    SixteenSteps();
    FeedIsDivideAhead(0, bits);
    DivideAppend(0, bits, Zeros(16));
    DivideZeros(Divide(0, bits), 16);
  }

  lemma {:induction false} FeedAppend(r: bv16, bits: seq<bool>, more: seq<bool>)
    ensures Feed(r, bits + more) == Feed(Feed(r, bits), more)
    decreases |bits|
  {
    hide Step, Plus, Top;
    if bits == [] {
      assert bits + more == more;
    } else {
      assert (bits + more)[1..] == bits[1..] + more;
      FeedAppend(Step(Plus(r, Top(bits[0]))), bits[1..], more);
    }
  }

  // ---------------------------------------------------------------- a byte at a time

  /** One pass of the loop. In C `*buf++` may be negative; the mask keeps its low eight bits. */
  function ByteStep(crc: bv16, b: bv8): bv16 {
    var index := ((crc >> 8) ^ (b as bv16)) & 0x00FF;
    (crc << 8) ^ Table(index as bv8)
  }

  function CrcFrom(crc: bv16, bytes: seq<bv8>): bv16
    decreases |bytes|
  {
    if bytes == [] then crc else CrcFrom(ByteStep(crc, bytes[0]), bytes[1..])
  }

  lemma {:induction false} CrcAppend(crc: bv16, bytes: seq<bv8>, more: seq<bv8>)
    ensures CrcFrom(crc, bytes + more) == CrcFrom(CrcFrom(crc, bytes), more)
    decreases |bytes|
  {
    hide ByteStep;
    if bytes == [] {
      assert bytes + more == more;
    } else {
      assert (bytes + more)[1..] == bytes[1..] + more;
      CrcAppend(ByteStep(crc, bytes[0]), bytes[1..], more);
    }
  }

  // The n leading bits of w, and what is left of w once they are shifted out.
  function Leading(w: bv16, n: nat): (bits: seq<bool>)
    ensures |bits| == n
    decreases n
  {
    if n == 0 then [] else [Msb(w)] + Leading(Twice(w), n - 1)
  }

  function Shifted(w: bv16, n: nat): bv16
    decreases n
  {
    if n == 0 then w else Shifted(Twice(w), n - 1)
  }

  lemma {:induction false} LeadingAt(w: bv16, n: nat, j: nat)
    requires j < n
    ensures Leading(w, n)[j] == Msb(Shifted(w, j))
    decreases n
  {
    hide Msb, Twice;
    if j > 0 { LeadingAt(Twice(w), n - 1, j - 1); }
  }

  lemma {:induction false} ShiftedOnce(w: bv16, n: nat)
    ensures Shifted(w, n + 1) == Twice(Shifted(w, n))
    decreases n
  {
    hide Twice;
    if n > 0 { ShiftedOnce(Twice(w), n - 1); }
  }

  function LeftShift(w: bv16, n: nat): bv16
    requires n <= 16
  {
    w << n
  }

  lemma {:induction false} ShiftedIs(w: bv16, n: nat)
    requires n <= 8
    ensures Shifted(w, n) == LeftShift(w, n)
    decreases n
  {
    hide Twice, Shifted, LeftShift;
    ShiftedNone(w);
    if n > 0 {
      ShiftedIs(w, n - 1);
      ShiftedOnce(w, n - 1);
      TwiceShift(w, n - 1);
    }
  }

  lemma ShiftedNone(w: bv16)
    ensures Shifted(w, 0) == w == LeftShift(w, 0)
  {}

  lemma TwiceShift(w: bv16, n: nat)
    requires n < 8
    ensures Twice(LeftShift(w, n)) == LeftShift(w, n + 1)
  {
    if n == 0 {} else if n == 1 {} else if n == 2 {} else if n == 3 {}
    else if n == 4 {} else if n == 5 {} else if n == 6 {} else { assert n == 7; }
  }

  lemma {:induction false} StepsWithoutCarry(w: bv16, n: nat)
    requires forall k :: 0 <= k < n ==> !Leading(w, n)[k]
    ensures Steps(w, n) == Shifted(w, n)
    decreases n
  {
    hide Twice, Msb;
    if n > 0 {
      assert !Leading(w, n)[0];
      assert Leading(w, n)[1..] == Leading(Twice(w), n - 1);
      assert Step(w) == Twice(w) by { StepNoCarry(w); }
      hide Step;
      StepsWithoutCarry(Twice(w), n - 1);
    }
  }

  lemma StepNoCarry(w: bv16)
    requires !Msb(w)
    ensures Step(w) == Twice(w)
  {}

  lemma LowByteSteps(a: bv16)
    requires a & 0xFF00 == 0
    ensures Steps(a, 8) == a << 8
  {
    hide Steps, Leading, Shifted, Msb;
    forall k: nat | k < 8
      ensures !Leading(a, 8)[k]
    {
      LeadingAt(a, 8, k);
      ShiftedIs(a, k);
      NoHighBit(a, k);
    }
    StepsWithoutCarry(a, 8);
    ShiftedIs(a, 8);
  }

  lemma NoHighBit(a: bv16, k: nat)
    requires a & 0xFF00 == 0 && k < 8
    ensures !Msb(LeftShift(a, k))
  {
    if k == 0 {} else if k == 1 {} else if k == 2 {} else if k == 3 {}
    else if k == 4 {} else if k == 5 {} else if k == 6 {} else { assert k == 7; }
  }

  lemma RegisterWithByte(crc: bv16, b: bv8)
    ensures var index := (((crc >> 8) ^ (b as bv16)) & 0x00FF) as bv8;
            Plus(crc, (b as bv16) << 8) == Plus((index as bv16) << 8, crc & 0x00FF)
  {}

  /** The table does eight steps at once. */
  lemma ByteStepIsEightSteps(crc: bv16, b: bv8)
    ensures ByteStep(crc, b) == Steps(Plus(crc, (b as bv16) << 8), 8)
  {
    hide Table, Steps, Plus, ByteStep;
    var index := (((crc >> 8) ^ (b as bv16)) & 0x00FF) as bv8;
    ByteStepParts(crc, b);
    RegisterWithByte(crc, b);
    StepsLinear((index as bv16) << 8, crc & 0x00FF, 8);
    TableIsEightSteps(index);
    LowByteSteps(crc & 0x00FF);
  }

  lemma ByteStepParts(crc: bv16, b: bv8)
    ensures var index := (((crc >> 8) ^ (b as bv16)) & 0x00FF) as bv8;
            ByteStep(crc, b) == Plus(Table(index), (crc & 0x00FF) << 8)
    ensures (crc & 0x00FF) & 0xFF00 == 0
  {
    hide Table;
    LowByteShifted(crc, Table((((crc >> 8) ^ (b as bv16)) & 0x00FF) as bv8));
  }

  lemma LowByteShifted(crc: bv16, t: bv16)
    ensures t ^ ((crc & 0x00FF) << 8) == (crc << 8) ^ t
  {}

  lemma StepWithWord(r: bv16, w: bv16)
    ensures Step(Plus(r, w)) == Plus(Step(Plus(r, Top(Msb(w)))), Twice(w))
  {
    hide Step, Plus, Msb, Twice, Top;
    var t, rest := Top(Msb(w)), w & 0x7FFF;
    SplitTop(w);
    PlusRules(r, t, rest, 0);
    StepNoCarry(rest);
    StepLinear(Plus(r, t), rest);
  }

  lemma SplitTop(w: bv16)
    ensures w == Plus(Top(Msb(w)), w & 0x7FFF)
    ensures !Msb(w & 0x7FFF) && Twice(w & 0x7FFF) == Twice(w)
  {}

  /** A word added at once is its bits fed one by one. */
  lemma {:induction false} StepsFeedWord(r: bv16, w: bv16, n: nat)
    ensures Steps(Plus(r, w), n) == Plus(Feed(r, Leading(w, n)), Shifted(w, n))
    decreases n
  {
    if n > 0 {
      hide Step, Plus, Top, Msb, Twice;
      StepWithWord(r, w);
      assert Leading(w, n)[1..] == Leading(Twice(w), n - 1);
      StepsFeedWord(Step(Plus(r, Top(Msb(w)))), Twice(w), n - 1);
    }
  }

  lemma ByteBits(b: bv8)
    ensures Leading((b as bv16) << 8, 8) == ToBits([b]) && Shifted((b as bv16) << 8, 8) == 0
  {
    hide Leading, Shifted, BitOf, Msb, LeftShift;
    var w := (b as bv16) << 8;
    forall j: nat | j < 8
      ensures Leading(w, 8)[j] == ToBits([b])[j]
    {
      LeadingAt(w, 8, j);
      ShiftedIs(w, j);
      ByteInWord(b, j);
    }
    ShiftedIs(w, 8);
    ByteGone(b);
  }

  lemma ByteGone(b: bv8)
    ensures LeftShift((b as bv16) << 8, 8) == 0
  {}

  lemma ByteInWord(b: bv8, j: nat)
    requires j < 8
    ensures BitOf(b, j) == Msb(LeftShift((b as bv16) << 8, j))
  {
    if j == 0 {} else if j == 1 {} else if j == 2 {} else if j == 3 {}
    else if j == 4 {} else if j == 5 {} else if j == 6 {} else { assert j == 7; }
  }

  lemma ByteStepIsFeed(crc: bv16, b: bv8)
    ensures ByteStep(crc, b) == Feed(crc, ToBits([b]))
  {
    hide ByteStep, Steps, Feed, Leading, Shifted, Plus, BitOf;
    ByteStepIsEightSteps(crc, b);
    StepsFeedWord(crc, (b as bv16) << 8, 8);
    ByteBits(b);
    PlusZero(Feed(crc, ToBits([b])));
  }

  lemma {:induction false} CrcIsFeed(crc: bv16, bytes: seq<bv8>)
    ensures CrcFrom(crc, bytes) == Feed(crc, ToBits(bytes))
    decreases |bytes|
  {
    hide ByteStep, Feed, BitOf;
    if bytes == [] {
      assert ToBits(bytes) == [];
      FeedNothing(crc);
    } else {
      assert ToBits(bytes) == ToBits([bytes[0]]) + ToBits(bytes[1..]);
      FeedAppend(crc, ToBits([bytes[0]]), ToBits(bytes[1..]));
      ByteStepIsFeed(crc, bytes[0]);
      CrcIsFeed(ByteStep(crc, bytes[0]), bytes[1..]);
    }
  }

  lemma FeedNothing(r: bv16)
    ensures Feed(r, []) == r
  {}

  // ---------------------------------------------------------------- polynomial division

  // x^16 + x^12 + x^5 + 1, highest power first.
  function Divisor(): (d: seq<bool>)
    ensures |d| == 17
  {
    [true, false, false, false, true, false, false, false, false, false, false, true, false, false, false, false, true]
  }

  function Multiple(q: bool): (m: seq<bool>)
    ensures |m| == 17
  {
    if q then Divisor() else Zeros(17)
  }

  /** The product of q and the divisor, both written highest power first, over GF(2). */
  function Product(q: seq<bool>): (p: seq<bool>)
    ensures |p| == |q| + 16
  {
    if q == [] then Zeros(16)
    else
      var n := |q| - 1;
      Xor(Product(q[..n]) + [false], Zeros(n) + Multiple(q[n]))
  }

  function RegisterBit(r: bv16, j: nat): bool
    requires j < 16
  {
    Masked(r, Place(j)) != 0
  }

  function Place(j: nat): bv16
    requires j < 16
  {
    (0x8000 as bv16) >> j
  }

  function Masked(r: bv16, m: bv16): bv16 {
    r & m
  }

  function RegisterBits(r: bv16): (b: seq<bool>)
    ensures |b| == 16
    ensures forall j :: 0 <= j < 16 ==> b[j] == RegisterBit(r, j)
  {
    seq(16, j requires 0 <= j < 16 => RegisterBit(r, j))
  }

  /** dividend = q * divisor + r, for a quotient q and a remainder of degree below 16. */
  ghost predicate Divides(dividend: seq<bool>, q: seq<bool>, r: bv16) {
    && |q| == |dividend|
    && Zeros(16) + dividend == Xor(Product(q), Zeros(|q|) + RegisterBits(r))
  }

  ghost predicate IsRemainder(dividend: seq<bool>, r: bv16) {
    exists q :: Divides(dividend, q, r)
  }

  /** One step of the division: 17 bits of register and new bit, less the divisor if a bit
      stands at the top, are a zero and the next register. */
  lemma StepBits(r: bv16, b: bool)
    ensures [false] + RegisterBits(Plus(Step(r), Unit(b))) == Xor(RegisterBits(r) + [b], Multiple(Msb(r)))
  {
    var next := Plus(Step(r), Unit(b));
    forall j: nat | j < 16
      ensures RegisterBit(next, j) == Xor(RegisterBits(r) + [b], Multiple(Msb(r)))[j + 1]
    {
      NextRegisterBit(r, b, j);
    }
    hide RegisterBit, Plus, Step, Unit, Msb;
    assert RegisterBits(r)[0] == RegisterBit(r, 0);
    assert RegisterBit(r, 0) == Msb(r) by { RegisterTop(r); }
  }

  lemma RegisterTop(r: bv16)
    ensures RegisterBit(r, 0) == Msb(r)
  {}

  lemma NextRegisterBit(r: bv16, b: bool, j: nat)
    requires j < 16
    ensures RegisterBit(Plus(Step(r), Unit(b)), j)
         == ((if j == 15 then b else RegisterBit(r, j + 1)) != (Msb(r) && Divisor()[j + 1]))
  {
    hide RegisterBit, Plus, Twice, Carry, Unit, Msb;
    PlusBit(Step(r), Unit(b), j);
    PlusBit(Twice(r), Carry(r), j);
    TwiceBit(r, j);
    CarryBit(r, j);
    UnitBit(b, j);
  }

  lemma PlusBit(a: bv16, b: bv16, j: nat)
    requires j < 16
    ensures RegisterBit(Plus(a, b), j) == (RegisterBit(a, j) != RegisterBit(b, j))
  {
    hide Plus, Masked, Place;
    PlusMasked(a, b, Place(j));
    SumIsZero(Masked(a, Place(j)), Masked(b, Place(j)));
    OnePlace(j, a);
    OnePlace(j, b);
  }

  lemma PlusMasked(a: bv16, b: bv16, m: bv16)
    ensures Masked(Plus(a, b), m) == Plus(Masked(a, m), Masked(b, m))
  {}

  lemma OnePlace(j: nat, a: bv16)
    requires j < 16
    ensures Masked(a, Place(j)) == 0 || Masked(a, Place(j)) == Place(j)
  {
    RegisterMask(j);
  }

  lemma RegisterMask(j: nat)
    requires j < 16
    ensures (0x8000 as bv16) >> j == match j case 0 => 0x8000 case 1 => 0x4000 case 2 => 0x2000 case 3 => 0x1000
      case 4 => 0x0800 case 5 => 0x0400 case 6 => 0x0200 case 7 => 0x0100 case 8 => 0x80 case 9 => 0x40
      case 10 => 0x20 case 11 => 0x10 case 12 => 8 case 13 => 4 case 14 => 2 case _ => 1
  {}

  lemma TwiceBit(r: bv16, j: nat)
    requires j < 16
    ensures RegisterBit(Twice(r), j) == (j < 15 && RegisterBit(r, j + 1))
  {
    RegisterMask(j);
    if j < 15 { RegisterMask(j + 1); }
  }

  lemma CarryBit(r: bv16, j: nat)
    requires j < 16
    ensures RegisterBit(Carry(r), j) == (Msb(r) && Divisor()[j + 1])
  {
    RegisterMask(j);
  }

  lemma UnitBit(b: bool, j: nat)
    requires j < 16
    ensures RegisterBit(Unit(b), j) == (b && j == 15)
  {
    RegisterMask(j);
  }

  // The quotient digits of the division, one for each bit of the dividend.
  function Quotient(bits: seq<bool>): (q: seq<bool>)
    ensures |q| == |bits|
    decreases |bits|
  {
    if bits == [] then []
    else Quotient(bits[..|bits| - 1]) + [Msb(Divide(0, bits[..|bits| - 1]))]
  }

  lemma NothingDivides()
    ensures Divides([], [], 0)
  {
    hide RegisterBit;
    NoRegisterBits();
    assert Zeros(16) + [] == Xor(Product([]), Zeros(0) + RegisterBits(0));
  }

  /** What long division leaves is a remainder, with Quotient for its quotient. */
  lemma {:induction false} DivisionWorks(bits: seq<bool>)
    ensures Divides(bits, Quotient(bits), Divide(0, bits))
    decreases |bits|
  {
    hide Step, Plus, Unit, Msb, RegisterBit;
    if bits == [] {
      NothingDivides();
    } else {
      hide Divides;
      var n := |bits| - 1;
      DivisionWorks(bits[..n]);
      assert bits == bits[..n] + [bits[n]];
      DivideAppend(0, bits[..n], [bits[n]]);
      BringDown(bits[..n], bits[n], Quotient(bits[..n]), Divide(0, bits[..n]));
    }
  }

  lemma BringDown(front: seq<bool>, b: bool, q: seq<bool>, r: bv16)
    requires Divides(front, q, r)
    ensures Divides(front + [b], q + [Msb(r)], Plus(Step(r), Unit(b)))
  {
    hide Step, Plus, Unit, Msb, RegisterBit, Multiple, Divisor;
    var n, digit, next := |front|, Msb(r), RegisterBits(Plus(Step(r), Unit(b)));
    StepBits(r, b);
    ProductMore(q, digit);
    ZerosSnoc(n);
    Regrouped(Zeros(16), front, [b]);
    Regrouped(Zeros(n), [false], next);
    hide Product, RegisterBits, Zeros;
    DivisionStep(n, Product(q), Zeros(16) + front, RegisterBits(r), b, digit, next);
  }

  lemma Regrouped(a: seq<bool>, b: seq<bool>, c: seq<bool>)
    ensures (a + b) + c == a + (b + c)
  {}

  lemma ProductMore(q: seq<bool>, digit: bool)
    ensures Product(q + [digit]) == Xor(Product(q) + [false], Zeros(|q|) + Multiple(digit))
  {
    hide Multiple;
    assert (q + [digit])[..|q|] == q;
  }

  lemma DivisionStep(n: nat, product: seq<bool>, dividend: seq<bool>, r: seq<bool>, b: bool, digit: bool, next: seq<bool>)
    requires |product| == |dividend| == n + 16 && |r| == |next| == 16
    requires dividend == Xor(product, Zeros(n) + r)
    requires [false] + next == Xor(r + [b], Multiple(digit))
    ensures dividend + [b] == Xor(Xor(product + [false], Zeros(n) + Multiple(digit)), Zeros(n) + ([false] + next))
  {
    var left, right := dividend + [b], Xor(Xor(product + [false], Zeros(n) + Multiple(digit)), Zeros(n) + ([false] + next));
    forall i | 0 <= i < n + 17
      ensures left[i] == right[i]
    {
      if i >= n {
        assert ([false] + next)[i - n] == ((r + [b])[i - n] != Multiple(digit)[i - n]);
      }
    }
  }

  lemma {:induction false} ZerosSnoc(n: nat)
    ensures Zeros(n + 1) == Zeros(n) + [false]
  {}

  lemma NoRegisterBits()
    ensures RegisterBits(0) == Zeros(16)
  {
    forall j: nat | j < 16 ensures !RegisterBit(0, j) { RegisterMask(j); }
  }

  /** A product with a non-zero factor has a bit above the remainder's place. */
  lemma {:induction false} ProductLeads(q: seq<bool>, i: nat)
    requires i < |q| && q[i] && forall k :: 0 <= k < i ==> !q[k]
    ensures Product(q)[i]
    decreases |q|
  {
    hide Product;
    var n := |q| - 1;
    ProductStep(q);
    if i < n {
      ProductLeads(q[..n], i);
    } else {
      ProductOfLast(q);
    }
  }

  lemma ProductOfLast(q: seq<bool>)
    requires q != [] && q[|q| - 1] && forall k :: 0 <= k < |q| - 1 ==> !q[k]
    ensures Product(q)[|q| - 1]
  {
    hide Product;
    ProductStep(q);
    ProductOfZeros(q[..|q| - 1]);
    assert Multiple(true)[0];
  }

  lemma ProductStep(q: seq<bool>)
    requires q != []
    ensures var n := |q| - 1; Product(q) == Xor(Product(q[..n]) + [false], Zeros(n) + Multiple(q[n]))
  {
    hide Multiple;
  }

  lemma {:induction false} ProductOfZeros(q: seq<bool>)
    requires forall k :: 0 <= k < |q| ==> !q[k]
    ensures Product(q) == Zeros(|q| + 16)
    decreases |q|
  {
    if q != [] {
      hide Product;
      var n := |q| - 1;
      ProductStep(q);
      ProductOfZeros(q[..n]);
      assert Multiple(q[n]) == Zeros(17);
    }
  }

  lemma MultipleLinear(a: bool, b: bool)
    ensures Multiple(a != b) == Xor(Multiple(a), Multiple(b))
  {}

  lemma ProductSumStep(q: seq<bool>, q': seq<bool>)
    requires |q| == |q'| > 0
    requires var n := |q| - 1; Product(Xor(q[..n], q'[..n])) == Xor(Product(q[..n]), Product(q'[..n]))
    ensures var n := |q| - 1;
            Product(Xor(q, q')) == Xor(Xor(Product(q[..n]) + [false], Product(q'[..n]) + [false]),
                                       Xor(Zeros(n) + Multiple(q[n]), Zeros(n) + Multiple(q'[n])))
  {
    hide Product, Multiple;
    var n, sum := |q| - 1, Xor(q, q');
    assert sum[..n] == Xor(q[..n], q'[..n]);
    ProductStep(sum);
    MultipleLinear(q[n], q'[n]);
    assert Zeros(n) + Multiple(sum[n]) == Xor(Zeros(n) + Multiple(q[n]), Zeros(n) + Multiple(q'[n]));
    assert Product(sum[..n]) + [false] == Xor(Product(q[..n]) + [false], Product(q'[..n]) + [false]);
  }

  lemma {:induction false} ProductLinear(q: seq<bool>, q': seq<bool>)
    requires |q| == |q'|
    ensures Product(Xor(q, q')) == Xor(Product(q), Product(q'))
    decreases |q|
  {
    if q != [] {
      hide Product, Multiple, Xor, Zeros;
      var n := |q| - 1;
      ProductLinear(q[..n], q'[..n]);
      ProductSumStep(q, q');
      ProductStep(q); ProductStep(q');
      XorPairsBits(Product(q[..n]) + [false], Product(q'[..n]) + [false],
                   Zeros(n) + Multiple(q[n]), Zeros(n) + Multiple(q'[n]));
    }
  }

  lemma XorPairsBits(a: seq<bool>, b: seq<bool>, c: seq<bool>, d: seq<bool>)
    requires |a| == |b| == |c| == |d|
    ensures Xor(Xor(a, b), Xor(c, d)) == Xor(Xor(a, c), Xor(b, d))
  {}

  /** The remainder is unique. */
  lemma RemainderUnique(dividend: seq<bool>, q: seq<bool>, r: bv16, q': seq<bool>, r': bv16)
    requires Divides(dividend, q, r) && Divides(dividend, q', r')
    ensures r == r'
  {
    hide RegisterBit;
    var n := |dividend|;
    var p, p' := Product(q), Product(q');
    var t, t' := Zeros(n) + RegisterBits(r), Zeros(n) + RegisterBits(r');
    ProductLinear(q, q');
    var d := Xor(q, q');
    assert Product(d) == Xor(t, t') by {
      forall i | 0 <= i < n + 16 ensures Product(d)[i] == Xor(t, t')[i] {
        assert (Zeros(16) + dividend)[i] == (p[i] != t[i]) == (p'[i] != t'[i]);
      }
    }
    if exists k :: 0 <= k < n && d[k] {
      var i := FirstSet(d);
      ProductLeads(d, i);
      assert false;
    }
    ProductOfZeros(d);
    forall j: nat | j < 16
      ensures RegisterBit(r, j) == RegisterBit(r', j)
    {
      assert !Zeros(n + 16)[n + j];
      assert t[n + j] == RegisterBits(r)[j] && t'[n + j] == RegisterBits(r')[j];
    }
    SameRegister(r, r');
  }

  lemma FirstSet(d: seq<bool>) returns (i: nat)
    requires exists k :: 0 <= k < |d| && d[k]
    ensures i < |d| && d[i] && forall k :: 0 <= k < i ==> !d[k]
    decreases |d|
  {
    if d[0] {
      i := 0;
    } else {
      i := FirstSet(d[1..]);
      assert forall k :: 0 < k < i + 1 ==> d[k] == d[1..][k - 1];
      i := i + 1;
    }
  }

  lemma SameRegister(r: bv16, r': bv16)
    requires forall j: nat :: j < 16 ==> RegisterBit(r, j) == RegisterBit(r', j)
    ensures r == r'
  {
    var x := Plus(r, r');
    forall j: nat | j < 16 ensures !RegisterBit(x, j) { PlusBit(r, r', j); }
    NoBits(x);
    SumIsZero(r, r');
  }

  lemma NoBits(x: bv16)
    requires forall j: nat :: j < 16 ==> !RegisterBit(x, j)
    ensures x == 0
  {
    assert !RegisterBit(x, 0) && !RegisterBit(x, 1) && !RegisterBit(x, 2) && !RegisterBit(x, 3);
    assert !RegisterBit(x, 4) && !RegisterBit(x, 5) && !RegisterBit(x, 6) && !RegisterBit(x, 7);
    assert !RegisterBit(x, 8) && !RegisterBit(x, 9) && !RegisterBit(x, 10) && !RegisterBit(x, 11);
    assert !RegisterBit(x, 12) && !RegisterBit(x, 13) && !RegisterBit(x, 14) && !RegisterBit(x, 15);
  }

  lemma RemainderIff(bits: seq<bool>, r: bv16)
    ensures IsRemainder(bits, r) <==> r == Divide(0, bits)
  {
    hide Divides, Divide;
    DivisionWorks(bits);
    if IsRemainder(bits, r) {
      var q :| Divides(bits, q, r);
      RemainderUnique(bits, q, r, Quotient(bits), Divide(0, bits));
    }
  }

  // ---------------------------------------------------------------- crc16

  /** The checksum of a message is the one remainder of M(x) * x^16 by the divisor. */
  lemma CrcIsRemainder(bytes: seq<bv8>, r: bv16)
    ensures IsRemainder(ToBits(bytes) + Zeros(16), r) <==> r == CrcFrom(0, bytes)
  {
    hide IsRemainder, Divide, CrcFrom;
    CrcIsFeed(0, bytes);
    FeedIsRemainder(ToBits(bytes));
    RemainderIff(ToBits(bytes) + Zeros(16), r);
  }

  method Crc16(buf: seq<bv8>, len: int) returns (crc: bv16)
    requires len <= |buf|
    ensures var message := if len <= 0 then [] else buf[..len];
            forall r :: IsRemainder(ToBits(message) + Zeros(16), r) <==> r == crc
    ensures crc == CrcFrom(0, if len <= 0 then [] else buf[..len])
  {
    hide ByteStep, IsRemainder;
    crc := 0;
    var counter := 0;
    while counter < len
      invariant 0 <= counter && (len <= 0 ==> counter == 0) && (0 < len ==> counter <= len)
      invariant crc == CrcFrom(0, buf[..counter])
    {
      assert buf[..counter + 1] == buf[..counter] + [buf[counter]];
      CrcAppend(0, buf[..counter], [buf[counter]]);
      crc := ByteStep(crc, buf[counter]);
      counter := counter + 1;
    }
    ghost var message := if len <= 0 then [] else buf[..len];
    assert buf[..counter] == message;
    forall r ensures IsRemainder(ToBits(message) + Zeros(16), r) <==> r == crc {
      CrcIsRemainder(message, r);
    }
  }

  /** The checksum of the sum of two messages of one length is the sum of their checksums. */
  lemma {:induction false} CrcLinear(crc: bv16, crc': bv16, bytes: seq<bv8>, bytes': seq<bv8>)
    requires |bytes| == |bytes'|
    ensures CrcFrom(Plus(crc, crc'), SumBytes(bytes, bytes')) == Plus(CrcFrom(crc, bytes), CrcFrom(crc', bytes'))
    decreases |bytes|
  {
    hide ByteStep, Plus;
    if bytes != [] {
      ByteStepLinear(crc, crc', bytes[0], bytes'[0]);
      assert SumBytes(bytes, bytes')[1..] == SumBytes(bytes[1..], bytes'[1..]);
      CrcLinear(ByteStep(crc, bytes[0]), ByteStep(crc', bytes'[0]), bytes[1..], bytes'[1..]);
    }
  }

  function SumBytes(a: seq<bv8>, b: seq<bv8>): (r: seq<bv8>)
    requires |a| == |b|
    ensures |r| == |a| && forall i :: 0 <= i < |a| ==> r[i] == a[i] ^ b[i]
  {
    seq(|a|, i requires 0 <= i < |a| => a[i] ^ b[i])
  }

  lemma ByteStepLinear(crc: bv16, crc': bv16, b: bv8, b': bv8)
    ensures ByteStep(Plus(crc, crc'), b ^ b') == Plus(ByteStep(crc, b), ByteStep(crc', b'))
  {
    hide ByteStep, Steps, Plus;
    var w, w' := (b as bv16) << 8, (b' as bv16) << 8;
    ByteStepIsEightSteps(crc, b);
    ByteStepIsEightSteps(crc', b');
    ByteStepIsEightSteps(Plus(crc, crc'), b ^ b');
    WordSum(b, b');
    PlusRules(crc, crc', w, w');
    StepsLinear(Plus(crc, w), Plus(crc', w'), 8);
  }

  lemma WordSum(b: bv8, b': bv8)
    ensures ((b ^ b') as bv16) << 8 == Plus((b as bv16) << 8, (b' as bv16) << 8)
  {}

  /** A message with two more bytes has checksum zero exactly when the two bytes are its own
      checksum, high byte first. */
  lemma AppendedChecksum(bytes: seq<bv8>, high: bv8, low: bv8)
    ensures CrcFrom(0, bytes + [high, low]) == 0
        <==> CrcFrom(0, bytes) == Plus((high as bv16) << 8, low as bv16)
  {
    hide ByteStep, Steps, Plus;
    var crc := CrcFrom(0, bytes);
    CrcAppend(0, bytes, [high, low]);
    var r := ByteStep(crc, high);
    assert CrcFrom(crc, [high, low]) == ByteStep(r, low) by {
      assert [high, low][1..] == [low] && [low][1..] == [];
      assert CrcFrom(r, [low]) == CrcFrom(ByteStep(r, low), []) == ByteStep(r, low);
    }
    var h, l := (high as bv16) << 8, low as bv16;
    ByteStepIsEightSteps(crc, high);
    ByteStepIsEightSteps(r, low);
    StepsZeroIff(Plus(r, l << 8), 8);
    SumIsZero(r, l << 8);
    LowWord(low);
    LowByteSteps(l);
    StepsLinear(Plus(crc, h), l, 8);
    StepsZeroIff(Plus(Plus(crc, h), l), 8);
    SumIsZero(Steps(Plus(crc, h), 8), Steps(l, 8));
    PlusRules(crc, h, l, 0);
    SumIsZero(crc, Plus(h, l));
  }

  /** The checksum of "123456789", by which variants of the polynomial, the start value and the order of
      bits are told apart. */
  lemma CheckValue()
    ensures CrcFrom(0, [49, 50, 51, 52, 53, 54, 55, 56, 57]) == 0x31C3
  {
    hide CrcFrom;
    var front, middle, end := [49, 50, 51], [52, 53, 54], [55, 56, 57];
    ThreeFed(0, 49, 50, 51, 0x2672, 0x20B5, 0x9752);
    ThreeFed(0x9752, 52, 53, 54, 0xD789, 0x546C, 0x20E4);
    ThreeFed(0x20E4, 55, 56, 57, 0x86D6, 0x9015, 0x31C3);
    CrcAppend(0, front, middle);
    CrcAppend(0, front + middle, end);
    assert front + middle + end == [49, 50, 51, 52, 53, 54, 55, 56, 57];
  }

  lemma ThreeFed(crc: bv16, a: bv8, b: bv8, c: bv8, r: bv16, s: bv16, t: bv16)
    requires ByteStep(crc, a) == r && ByteStep(r, b) == s && ByteStep(s, c) == t
    ensures CrcFrom(crc, [a, b, c]) == t
  {
    hide ByteStep;
    assert [a, b, c][1..] == [b, c] && [b, c][1..] == [c] && [c][1..] == [];
    assert CrcFrom(s, [c]) == CrcFrom(t, []);
  }

  // One step back.
  function StepBack(r: bv16): bv16 {
    if r & 1 != 0 then ((r ^ 0x1021) >> 1) | 0x8000 else r >> 1
  }

  function StepsBack(r: bv16, n: nat): bv16 {
    if n == 0 then r else StepBack(StepsBack(r, n - 1))
  }

  lemma StepOfBack(r: bv16)
    ensures Step(StepBack(r)) == r
  {}

  lemma {:induction false} StepsOfBack(r: bv16, n: nat)
    ensures Steps(StepsBack(r, n), n) == r
  {
    hide Step, StepBack;
    if n > 0 {
      StepOfBack(StepsBack(r, n - 1));
      StepsOfBack(r, n - 1);
    }
  }

  function HighByte(w: bv16): bv8 {
    (w >> 8) as bv8
  }

  function LowByte(w: bv16): bv8 {
    (w & 0xFF) as bv8
  }

  lemma TwoBytes(w: bv16)
    ensures Plus((HighByte(w) as bv16) << 8, LowByte(w) as bv16) == w
  {}

  // Two bytes are sixteen steps.
  lemma CrcOfTwo(bytes: seq<bv8>, high: bv8, low: bv8)
    ensures CrcFrom(0, bytes + [high, low]) == Steps(Plus(CrcFrom(0, bytes), Plus((high as bv16) << 8, low as bv16)), 16)
  {
    hide ByteStep, Steps, Plus;
    var crc := CrcFrom(0, bytes);
    CrcAppend(0, bytes, [high, low]);
    var r := ByteStep(crc, high);
    assert CrcFrom(crc, [high, low]) == ByteStep(r, low) by {
      assert [high, low][1..] == [low] && [low][1..] == [];
      assert CrcFrom(r, [low]) == CrcFrom(ByteStep(r, low), []) == ByteStep(r, low);
    }
    var h, l := (high as bv16) << 8, low as bv16;
    ByteStepIsEightSteps(crc, high);
    ByteStepIsEightSteps(r, low);
    LowWord(low);
    LowByteSteps(l);
    StepsLinear(Plus(crc, h), l, 8);
    PlusRules(crc, h, l, 0);
    StepsAdd(Plus(crc, Plus(h, l)), 8, 8);
  }

  /** Whatever a message is, two more bytes can give it any checksum. */
  lemma EveryChecksum(bytes: seq<bv8>, crc: bv16) returns (high: bv8, low: bv8)
    ensures CrcFrom(0, bytes + [high, low]) == crc
  {
    hide Steps, CrcFrom, Plus, HighByte, LowByte;
    var before, wanted := CrcFrom(0, bytes), StepsBack(crc, 16);
    var w := Plus(before, wanted);
    high, low := HighByte(w), LowByte(w);
    TwoBytes(w);
    CrcOfTwo(bytes, high, low);
    SumBack(before, wanted);
    StepsOfBack(crc, 16);
  }

  lemma SumBack(a: bv16, b: bv16)
    ensures Plus(a, Plus(a, b)) == b
  {}

  lemma LowWord(low: bv8)
    ensures (low as bv16) & 0xFF00 == 0
  {}

  lemma SumIsZero(a: bv16, b: bv16)
    ensures Plus(a, b) == 0 <==> a == b
  {}

  lemma StepZeroIff(r: bv16)
    ensures Step(r) == 0 <==> r == 0
  {}

  lemma {:induction false} StepsZeroIff(r: bv16, n: nat)
    ensures Steps(r, n) == 0 <==> r == 0
    decreases n
  {
    hide Step;
    if n > 0 {
      StepZeroIff(r);
      StepsZeroIff(Step(r), n - 1);
    }
  }
}
