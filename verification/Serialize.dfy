/** server/socket_tools.c and server/serialize.c: numbers as big-endian bytes, and the packet
    struct as 146 bytes behind a moving pointer. A pointer into a buffer is the array and an index. */
module Serialize {

  // ---------------------------------------------------------------- numbers

  function LastByte(v: bv64): bv8 {
    (v & 0xFF) as bv8
  }

  function Down8(v: bv64): bv64 {
    v >> 8
  }

  // `(value << 8) + buffer[i]`
  function Appended(v: bv64, b: bv8): bv64 {
    (v << 8) + (b as bv64)
  }

  /** The n low bytes of v, highest first. */
  function BigEndian(v: bv64, n: nat): (bytes: seq<bv8>)
    ensures |bytes| == n
    decreases n
  {
    if n == 0 then [] else BigEndian(Down8(v), n - 1) + [LastByte(v)]
  }

  function FromBigEndian(bytes: seq<bv8>): bv64 {
    if bytes == [] then 0 else Appended(FromBigEndian(bytes[..|bytes| - 1]), bytes[|bytes| - 1])
  }

  // `value >> 8 * k`
  function DownBytes(v: bv64, k: nat): bv64 {
    if k == 0 then v else Down8(DownBytes(v, k - 1))
  }

  /** v is a number of n bytes. */
  predicate Fits(v: bv64, n: nat)
    decreases n
  {
    if n == 0 then v == 0 else Fits(Down8(v), n - 1)
  }

  lemma AppendedBack(v: bv64)
    ensures Appended(Down8(v), LastByte(v)) == v
  {}

  lemma {:induction false} NumberRoundTrip(v: bv64, n: nat)
    requires Fits(v, n)
    ensures FromBigEndian(BigEndian(v, n)) == v
    decreases n
  {
    hide Appended, Down8, LastByte;
    if n > 0 {
      NumberRoundTrip(Down8(v), n - 1);
      AppendedBack(v);
      assert BigEndian(v, n)[..n - 1] == BigEndian(Down8(v), n - 1);
    }
  }

  lemma AppendedParts(v: bv64, b: bv8)
    ensures v & 0xFF00_0000_0000_0000 == 0 ==> Down8(Appended(v, b)) == v
    ensures LastByte(Appended(v, b)) == b
  {}

  predicate TopByteClear(v: bv64) {
    v & 0xFF00_0000_0000_0000 == 0
  }

  lemma {:induction false} FitsMore(v: bv64, n: nat, m: nat)
    requires Fits(v, n) && n <= m
    ensures Fits(v, m)
    decreases m
  {
    hide Down8;
    if n == 0 {
      if m > 0 {
        assert Down8(0) == 0 by { DownZero(); }
        FitsMore(0, 0, m - 1);
      }
    } else {
      FitsMore(Down8(v), n - 1, m - 1);
    }
  }

  lemma DownZero()
    ensures Down8(0) == 0
  {}

  function DownSeven(v: bv64): bv64 {
    Down8(Down8(Down8(Down8(Down8(Down8(Down8(v)))))))
  }

  lemma SevenBytesClear(v: bv64)
    ensures DownSeven(v) == 0 ==> TopByteClear(v)
  {}

  lemma FitsSeven(v: bv64)
    requires Fits(v, 7)
    ensures DownSeven(v) == 0
  {
    hide Down8;
    assert Fits(Down8(Down8(v)), 5);
    assert Fits(Down8(Down8(Down8(Down8(v)))), 3);
  }

  lemma AppendedFirst(v: bv64, b: bv8)
    ensures TopByteClear(v) ==> Down8(Appended(v, b)) == v
    ensures LastByte(Appended(v, b)) == b
  {
    AppendedParts(v, b);
  }

  // Appending a byte to a number that leaves room for it.
  lemma AppendedRoundTrip(v: bv64, b: bv8, n: nat)
    requires n <= 7 && Fits(v, n)
    ensures BigEndian(Appended(v, b), n + 1) == BigEndian(v, n) + [b] && Fits(Appended(v, b), n + 1)
  {
    hide Appended, Down8, LastByte, TopByteClear;
    FitsMore(v, n, 7);
    FitsSeven(v);
    SevenBytesClear(v);
    AppendedFirst(v, b);
  }

  lemma {:induction false} BytesRoundTrip(bytes: seq<bv8>)
    requires |bytes| <= 8
    ensures BigEndian(FromBigEndian(bytes), |bytes|) == bytes
    ensures Fits(FromBigEndian(bytes), |bytes|)
    decreases |bytes|
  {
    hide Appended, Down8, LastByte, BigEndian, Fits;
    if bytes == [] {
      NoBytes();
    } else {
      var n := |bytes| - 1;
      BytesRoundTrip(bytes[..n]);
      AppendedRoundTrip(FromBigEndian(bytes[..n]), bytes[n], n);
      assert bytes == bytes[..n] + [bytes[n]];
    }
  }

  lemma NoBytes()
    ensures BigEndian(0, 0) == [] && Fits(0, 0)
  {}

  /** serialize_u16, _u32 and _u64, at the given number of bytes. */
  method SerializeNumber(buffer: array<bv8>, at: nat, value: bv64, bits: nat) returns (next: nat)
    requires at + bits <= buffer.Length
    modifies buffer
    ensures next == at + bits
    ensures buffer[..next] == old(buffer[..at]) + BigEndian(value, bits)
    ensures forall n :: next <= n < buffer.Length ==> buffer[n] == old(buffer[n])
  {
    hide LastByte, Down8, BigEndian;
    ghost var bytes := BigEndian(value, bits);
    for bit := 0 to bits
      invariant forall n :: 0 <= n < bit ==> buffer[at + n] == bytes[n]
      invariant forall n :: 0 <= n < buffer.Length && !(at <= n < at + bits) ==> buffer[n] == old(buffer[n])
    {
      BigEndianAt(value, bits, bit);
      buffer[at + bit] := LastByte(DownBytes(value, bits - 1 - bit));
    }
    next := at + bits;
    assert buffer[..next] == buffer[..at] + buffer[at..next] && buffer[at..next] == bytes;
  }

  lemma {:induction false} BigEndianAt(v: bv64, n: nat, i: nat)
    requires i < n
    ensures BigEndian(v, n)[i] == LastByte(DownBytes(v, n - 1 - i))
    decreases n
  {
    hide LastByte, Down8;
    if i < n - 1 {
      BigEndianAt(Down8(v), n - 1, i);
      DownBytesFirst(v, n - 2 - i);
    }
  }

  lemma {:induction false} DownBytesFirst(v: bv64, k: nat)
    ensures DownBytes(Down8(v), k) == DownBytes(v, k + 1)
  {
    hide Down8;
    if k > 0 { DownBytesFirst(v, k - 1); }
  }

  /** deserialize_u16, _u32 and _u64, before the result is cut to their width. */
  method DeserializeNumber(buffer: array<bv8>, at: nat, bits: nat) returns (value: bv64)
    requires at + bits <= buffer.Length
    ensures value == FromBigEndian(buffer[at..at + bits])
  {
    hide Appended;
    value := 0;
    for i := 0 to bits
      invariant value == FromBigEndian(buffer[at..at + i])
    {
      assert buffer[at..at + i + 1][..i] == buffer[at..at + i];
      value := Appended(value, buffer[at + i]);
    }
  }

  function Wide16(v: bv16): bv64 { v as bv64 }
  function Wide32(v: bv32): bv64 { v as bv64 }
  function Narrow16(v: bv64): bv16 { (v & 0xFFFF) as bv16 }
  function Narrow32(v: bv64): bv32 { (v & 0xFFFF_FFFF) as bv32 }

  function DownFour(v: bv64): bv64 {
    Down8(Down8(Down8(Down8(v))))
  }

  lemma FitsWhenDown(v: bv64)
    ensures Fits(v, 2) == (Down8(Down8(v)) == 0)
    ensures Fits(v, 4) == (DownFour(v) == 0)
    ensures Fits(v, 8) == (DownFour(DownFour(v)) == 0)
  {
    hide Down8;
    assert Fits(DownFour(v), 4) == (DownFour(DownFour(v)) == 0);
    assert Fits(v, 8) == Fits(Down8(Down8(v)), 6) == Fits(DownFour(v), 4);
  }

  lemma WidthFacts(a: bv16, b: bv32, c: bv64)
    ensures Down8(Down8(Wide16(a))) == 0 && Narrow16(Wide16(a)) == a
    ensures DownFour(Wide32(b)) == 0 && Narrow32(Wide32(b)) == b
    ensures DownFour(DownFour(c)) == 0
  {}

  lemma NarrowFacts(v: bv64)
    ensures Down8(Down8(v)) == 0 ==> Wide16(Narrow16(v)) == v
    ensures DownFour(v) == 0 ==> Wide32(Narrow32(v)) == v
  {}

  function U16Bytes(v: bv16): seq<bv8> { BigEndian(Wide16(v), 2) }
  function U32Bytes(v: bv32): (b: seq<bv8>) ensures |b| == 4 { BigEndian(Wide32(v), 4) }
  function U64Bytes(v: bv64): seq<bv8> { BigEndian(v, 8) }
  function U16Of(b: seq<bv8>): bv16 { Narrow16(FromBigEndian(b)) }
  function U32Of(b: seq<bv8>): bv32 { Narrow32(FromBigEndian(b)) }
  function U64Of(b: seq<bv8>): bv64 { FromBigEndian(b) }

  /** Every number of each width survives the trip through its bytes, and every two, four or
      eight bytes the trip through their number. */
  lemma WidthsRoundTrip(a: bv16, b: bv32, c: bv64)
    ensures U16Of(U16Bytes(a)) == a && U32Of(U32Bytes(b)) == b && U64Of(U64Bytes(c)) == c
  {
    hide Fits, BigEndian, FromBigEndian, DownFour, Down8, Wide16, Wide32, Narrow16, Narrow32;
    WidthFacts(a, b, c);
    FitsWhenDown(Wide16(a)); FitsWhenDown(Wide32(b)); FitsWhenDown(c);
    NumberRoundTrip(Wide16(a), 2); NumberRoundTrip(Wide32(b), 4); NumberRoundTrip(c, 8);
  }

  lemma WidthBytesRoundTrip(a: seq<bv8>, b: seq<bv8>, c: seq<bv8>)
    requires |a| == 2 && |b| == 4 && |c| == 8
    ensures U16Bytes(U16Of(a)) == a && U32Bytes(U32Of(b)) == b && U64Bytes(U64Of(c)) == c
  {
    hide Fits, BigEndian, FromBigEndian, DownFour, Down8, Wide16, Wide32, Narrow16, Narrow32;
    BytesRoundTrip(a); BytesRoundTrip(b); BytesRoundTrip(c);
    FitsWhenDown(FromBigEndian(a)); FitsWhenDown(FromBigEndian(b));
    NarrowFacts(FromBigEndian(a)); NarrowFacts(FromBigEndian(b));
  }

  // ---------------------------------------------------------------- the packet

  const ZERO_FILL_OFFSET := 6
  const STATE_SIZE := 67
  const PAYLOAD_SIZE := 146

  /** struct packet_format: a value with arrays of fixed size. */
  datatype Packet = Packet(zero: seq<bv8>, direction: bv8, kind: bv8, userID: seq<bv32>, reserve: bv16,
                           typeAffirm: bv8, family: bv64, srcDeviceID: seq<bv32>, dstDeviceID: seq<bv32>,
                           operation: seq<bv32>, state: seq<bv8>)
  {
    predicate Sized() {
      && |zero| == ZERO_FILL_OFFSET && |userID| == 3 && |srcDeviceID| == 4 && |dstDeviceID| == 4
      && |operation| == 4 && |state| == STATE_SIZE
    }
  }

  function U32sBytes(s: seq<bv32>): (b: seq<bv8>)
    ensures |b| == 4 * |s|
    ensures forall i :: 0 <= i < |b| ==> b[i] == U32Bytes(s[i / 4])[i % 4]
  {
    seq(4 * |s|, i requires 0 <= i < 4 * |s| => U32Bytes(s[i / 4])[i % 4])
  }

  function U32sOf(b: seq<bv8>): (s: seq<bv32>)
    requires |b| % 4 == 0
    ensures |s| == |b| / 4
    ensures forall i :: 0 <= i < |s| ==> s[i] == U32Of(b[4 * i..4 * i + 4])
  {
    seq(|b| / 4, i requires 0 <= i < |b| / 4 => U32Of(b[4 * i..4 * i + 4]))
  }

  lemma U32sRoundTrip(s: seq<bv32>)
    ensures U32sOf(U32sBytes(s)) == s
  {
    hide U32Bytes, U32Of, U16Of, U16Bytes, U64Of, U64Bytes;
    forall i | 0 <= i < |s| ensures U32sOf(U32sBytes(s))[i] == s[i] {
      assert U32sBytes(s)[4 * i..4 * i + 4] == U32Bytes(s[i]);
      WidthsRoundTrip(0, s[i], 0);
    }
  }

  lemma U32sBytesRoundTrip(b: seq<bv8>)
    requires |b| % 4 == 0
    ensures U32sBytes(U32sOf(b)) == b
  {
    hide U32Bytes, U32Of, U16Of, U16Bytes, U64Of, U64Bytes;
    forall i: nat | i < |b| ensures U32sBytes(U32sOf(b))[i] == b[i] {
      var q := b[4 * (i / 4)..4 * (i / 4) + 4];
      WidthBytesRoundTrip([0, 0], q, [0, 0, 0, 0, 0, 0, 0, 0]);
      assert q[i % 4] == b[i];
    }
  }

  /** The bytes of a packet, field after field in the order of serialize_payload. */
  function Serialized(p: Packet): (b: seq<bv8>)
    requires p.Sized()
    ensures |b| == PAYLOAD_SIZE
  {
    p.zero + [p.direction, p.kind] + U32sBytes(p.userID) + U16Bytes(p.reserve) + [p.typeAffirm] + U64Bytes(p.family)
    + U32sBytes(p.srcDeviceID) + U32sBytes(p.dstDeviceID) + U32sBytes(p.operation) + p.state
  }

  /** The packet read back from its bytes, at the offsets the moving pointer reaches. */
  function Deserialized(b: seq<bv8>): (p: Packet)
    requires |b| == PAYLOAD_SIZE
    ensures p.Sized()
  {
    Packet(b[0..6], b[6], b[7], U32sOf(b[8..20]), U16Of(b[20..22]), b[22], U64Of(b[23..31]),
           U32sOf(b[31..47]), U32sOf(b[47..63]), U32sOf(b[63..79]), b[79..146])
  }

  lemma Slices(z: seq<bv8>, dk: seq<bv8>, u: seq<bv8>, r: seq<bv8>, t: seq<bv8>, f: seq<bv8>,
               s: seq<bv8>, d: seq<bv8>, o: seq<bv8>, st: seq<bv8>)
    requires |z| == 6 && |dk| == 2 && |u| == 12 && |r| == 2 && |t| == 1 && |f| == 8
    requires |s| == |d| == |o| == 16 && |st| == 67
    ensures var b := z + dk + u + r + t + f + s + d + o + st;
            && b[0..6] == z && b[6..8] == dk && b[8..20] == u && b[20..22] == r && b[22..23] == t && b[23..31] == f
            && b[31..47] == s && b[47..63] == d && b[63..79] == o && b[79..146] == st
  {}

  /** Bytes as a number, the first the highest. */
  function Two(a: bv8, b: bv8): bv16 {
    ((a as bv16) << 8) | (b as bv16)
  }

  function Four(a: bv8, b: bv8, c: bv8, d: bv8): bv32 {
    ((a as bv32) << 24) | ((b as bv32) << 16) | ((c as bv32) << 8) | (d as bv32)
  }

  function Eight(a: bv8, b: bv8, c: bv8, d: bv8, e: bv8, f: bv8, g: bv8, h: bv8): bv64 {
    ((a as bv64) << 56) | ((b as bv64) << 48) | ((c as bv64) << 40) | ((d as bv64) << 32)
    | ((e as bv64) << 24) | ((f as bv64) << 16) | ((g as bv64) << 8) | (h as bv64)
  }

  lemma TwoBytes(a: bv8, b: bv8)
    ensures Narrow16(Appended(Appended(0, a), b)) == Two(a, b)
  {}

  lemma FourBytes(a: bv8, b: bv8, c: bv8, d: bv8)
    ensures Narrow32(Appended(Appended(Appended(Appended(0, a), b), c), d)) == Four(a, b, c, d)
  {}

  lemma EightBytes(a: bv8, b: bv8, c: bv8, d: bv8, e: bv8, f: bv8, g: bv8, h: bv8)
    ensures Appended(Appended(Appended(Appended(Appended(Appended(Appended(Appended(0, a), b), c), d), e), f), g), h)
         == Eight(a, b, c, d, e, f, g, h)
  {}

  lemma {:induction false} FromBigEndianMore(bytes: seq<bv8>, b: bv8)
    ensures FromBigEndian(bytes + [b]) == Appended(FromBigEndian(bytes), b)
  {
    hide Appended;
    assert (bytes + [b])[..|bytes|] == bytes;
  }

  lemma TwoAppended(a: bv8, b: bv8)
    ensures FromBigEndian([a, b]) == Appended(Appended(0, a), b)
  {
    hide Appended;
    FromBigEndianMore([], a);
    FromBigEndianMore([a], b);
    assert [] + [a] == [a] && [a] + [b] == [a, b];
  }

  lemma FourAppended(a: bv8, b: bv8, c: bv8, d: bv8)
    ensures FromBigEndian([a, b, c, d]) == Appended(Appended(Appended(Appended(0, a), b), c), d)
  {
    hide Appended, FromBigEndian;
    TwoAppended(a, b);
    FromBigEndianMore([a, b], c);
    FromBigEndianMore([a, b, c], d);
    assert [a, b] + [c] == [a, b, c] && [a, b, c] + [d] == [a, b, c, d];
  }

  lemma U16Is(b: seq<bv8>)
    requires |b| == 2
    ensures U16Of(b) == Two(b[0], b[1])
  {
    hide Appended, Narrow16, FromBigEndian, Two;
    assert b == [b[0], b[1]];
    TwoAppended(b[0], b[1]);
    TwoBytes(b[0], b[1]);
  }

  lemma U32Is(b: seq<bv8>)
    requires |b| == 4
    ensures U32Of(b) == Four(b[0], b[1], b[2], b[3])
  {
    hide Appended, Narrow32, FromBigEndian, Four;
    assert b == [b[0], b[1], b[2], b[3]];
    FourAppended(b[0], b[1], b[2], b[3]);
    FourBytes(b[0], b[1], b[2], b[3]);
  }

  lemma U64Is(b: seq<bv8>)
    requires |b| == 8
    ensures U64Of(b) == Eight(b[0], b[1], b[2], b[3], b[4], b[5], b[6], b[7])
  {
    hide Appended, FromBigEndian, Eight;
    assert b[..4] == [b[0], b[1], b[2], b[3]];
    FourAppended(b[0], b[1], b[2], b[3]);
    FromBigEndianMore(b[..4], b[4]);
    FromBigEndianMore(b[..5], b[5]);
    FromBigEndianMore(b[..6], b[6]);
    FromBigEndianMore(b[..7], b[7]);
    assert b[..5] == b[..4] + [b[4]] && b[..6] == b[..5] + [b[5]] && b[..7] == b[..6] + [b[6]] && b == b[..7] + [b[7]];
    EightBytes(b[0], b[1], b[2], b[3], b[4], b[5], b[6], b[7]);
  }

  // The number in four bytes from `at` on.
  function Quad(b: seq<bv8>, at: nat): bv32
    requires at + 4 <= |b|
  {
    Four(b[at], b[at + 1], b[at + 2], b[at + 3])
  }

  lemma QuadOfSlice(b: seq<bv8>, from: nat, to: nat, i: nat)
    requires from <= to <= |b| && (to - from) % 4 == 0 && 4 * i + 4 <= to - from
    ensures U32sOf(b[from..to])[i] == Quad(b, from + 4 * i)
  {
    hide U32Of, Four;
    U32Is(b[from..to][4 * i..4 * i + 4]);
  }

  /** Where the fields of a packet stand on the wire, with every number in network order. */
  lemma WireLayout(p: Packet)
    requires p.Sized()
    ensures var b := Serialized(p);
      && b[..6] == p.zero && b[6] == p.direction && b[7] == p.kind
      && (forall i: nat :: i < 3 ==> p.userID[i] == Quad(b, 8 + 4 * i))
      && p.reserve == Two(b[20], b[21]) && p.typeAffirm == b[22]
      && p.family == Eight(b[23], b[24], b[25], b[26], b[27], b[28], b[29], b[30])
      && (forall i: nat :: i < 4 ==> p.srcDeviceID[i] == Quad(b, 31 + 4 * i))
      && (forall i: nat :: i < 4 ==> p.dstDeviceID[i] == Quad(b, 47 + 4 * i))
      && (forall i: nat :: i < 4 ==> p.operation[i] == Quad(b, 63 + 4 * i))
      && b[79..] == p.state
  {
    PacketRoundTrip(p);
    hide Serialized;
    FieldsFromBytes(Serialized(p));
  }

  lemma FieldsFromBytes(b: seq<bv8>)
    requires |b| == PAYLOAD_SIZE
    ensures var p := Deserialized(b);
      && b[..6] == p.zero && b[6] == p.direction && b[7] == p.kind
      && (forall i: nat :: i < 3 ==> p.userID[i] == Quad(b, 8 + 4 * i))
      && p.reserve == Two(b[20], b[21]) && p.typeAffirm == b[22]
      && p.family == Eight(b[23], b[24], b[25], b[26], b[27], b[28], b[29], b[30])
      && (forall i: nat :: i < 4 ==> p.srcDeviceID[i] == Quad(b, 31 + 4 * i))
      && (forall i: nat :: i < 4 ==> p.dstDeviceID[i] == Quad(b, 47 + 4 * i))
      && (forall i: nat :: i < 4 ==> p.operation[i] == Quad(b, 63 + 4 * i))
      && b[79..] == p.state
  {
    hide U16Of, U64Of, U32sOf, Quad, Two, Eight;
    U16Is(b[20..22]);
    U64Is(b[23..31]);
    forall i: nat | i < 3 ensures U32sOf(b[8..20])[i] == Quad(b, 8 + 4 * i) { QuadOfSlice(b, 8, 20, i); }
    forall i: nat | i < 4 ensures U32sOf(b[31..47])[i] == Quad(b, 31 + 4 * i) { QuadOfSlice(b, 31, 47, i); }
    forall i: nat | i < 4 ensures U32sOf(b[47..63])[i] == Quad(b, 47 + 4 * i) { QuadOfSlice(b, 47, 63, i); }
    forall i: nat | i < 4 ensures U32sOf(b[63..79])[i] == Quad(b, 63 + 4 * i) { QuadOfSlice(b, 63, 79, i); }
    assert b[0..6] == b[..6] && b[79..146] == b[79..];
  }

  /** Deserializing gives back every packet. */
  lemma PacketRoundTrip(p: Packet)
    requires p.Sized()
    ensures Deserialized(Serialized(p)) == p
  {
    hide U32Bytes, U32Of, U16Of, U16Bytes, U64Of, U64Bytes, BigEndian;
    WidthsRoundTrip(p.reserve, 0, p.family);
    U32sRoundTrip(p.userID); U32sRoundTrip(p.srcDeviceID); U32sRoundTrip(p.dstDeviceID); U32sRoundTrip(p.operation);
    FieldSizes(p);
    Slices(p.zero, [p.direction, p.kind], U32sBytes(p.userID), U16Bytes(p.reserve), [p.typeAffirm], U64Bytes(p.family),
           U32sBytes(p.srcDeviceID), U32sBytes(p.dstDeviceID), U32sBytes(p.operation), p.state);
    var b := Serialized(p);
    assert b[6] == b[6..8][0] && b[7] == b[6..8][1] && b[22] == b[22..23][0];
  }

  /** The decoder in client/serialize.c reads the third device ID array into srcDeviceID again
      and leaves dstDeviceID as it was in the caller's struct. */
  function ClientDeserialized(b: seq<bv8>, before: Packet): Packet
    requires |b| == PAYLOAD_SIZE
  {
    Deserialized(b).(srcDeviceID := U32sOf(b[47..63]), dstDeviceID := before.dstDeviceID)
  }

  /** So it recovers exactly the packets whose two device IDs are equal, and those only into a
      struct that already holds the right dstDeviceID. */
  lemma ClientRoundTripIff(p: Packet, before: Packet)
    requires p.Sized()
    ensures ClientDeserialized(Serialized(p), before) == p
        <==> p.srcDeviceID == p.dstDeviceID && before.dstDeviceID == p.dstDeviceID
  {
    hide U32sOf, Serialized;
    PacketRoundTrip(p);
  }

  lemma FieldSizes(p: Packet)
    ensures |U16Bytes(p.reserve)| == 2 && |U64Bytes(p.family)| == 8
  {}

  /** And serializing gives back every 146 bytes. */
  lemma BytesOfPacketRoundTrip(b: seq<bv8>)
    requires |b| == PAYLOAD_SIZE
    ensures Serialized(Deserialized(b)) == b
  {
    hide U32Bytes, U32Of, U16Of, U16Bytes, U64Of, U64Bytes, BigEndian;
    WidthBytesRoundTrip(b[20..22], [0, 0, 0, 0], b[23..31]);
    U32sBytesRoundTrip(b[8..20]); U32sBytesRoundTrip(b[31..47]); U32sBytesRoundTrip(b[47..63]); U32sBytesRoundTrip(b[63..79]);
    assert b == b[0..6] + b[6..8] + b[8..20] + b[20..22] + b[22..23] + b[23..31] + b[31..47] + b[47..63] + b[63..79] + b[79..146];
    assert b[6..8] == [b[6], b[7]] && b[22..23] == [b[22]];
  }

  /** The loops over serialize_u8. */
  method SerializeU8s(buffer: array<bv8>, at: nat, bytes: seq<bv8>) returns (next: nat)
    requires at + |bytes| <= buffer.Length
    modifies buffer
    ensures next == at + |bytes|
    ensures buffer[..next] == old(buffer[..at]) + bytes
    ensures forall n :: next <= n < buffer.Length ==> buffer[n] == old(buffer[n])
  {
    next := at;
    for i := 0 to |bytes|
      invariant next == at + i
      invariant buffer[..next] == old(buffer[..at]) + bytes[..i]
      invariant forall n :: next <= n < buffer.Length ==> buffer[n] == old(buffer[n])
    {
      buffer[next] := bytes[i];
      next := next + 1;
    }
  }

  /** The loops over serialize_u32. */
  method SerializeU32s(buffer: array<bv8>, at: nat, values: seq<bv32>) returns (next: nat)
    requires at + 4 * |values| <= buffer.Length
    modifies buffer
    ensures next == at + 4 * |values|
    ensures buffer[..next] == old(buffer[..at]) + U32sBytes(values)
    ensures forall n :: next <= n < buffer.Length ==> buffer[n] == old(buffer[n])
  {
    hide Wide32, BigEndian;
    next := at;
    for i := 0 to |values|
      invariant next == at + 4 * i
      invariant buffer[..next] == old(buffer[..at]) + U32sBytes(values[..i])
      invariant forall n :: next <= n < buffer.Length ==> buffer[n] == old(buffer[n])
    {
      U32sGrow(values, i);
      next := SerializeNumber(buffer, next, Wide32(values[i]), 4);
    }
    assert values[..|values|] == values;
  }

  lemma U32sGrow(values: seq<bv32>, i: nat)
    requires i < |values|
    ensures U32sBytes(values[..i + 1]) == U32sBytes(values[..i]) + U32Bytes(values[i])
  {
    hide U32Bytes;
  }

  /** serialize_payload: 146 bytes written, nothing else touched. */
  method SerializePayload(buffer: array<bv8>, info: Packet) returns (next: nat)
    requires buffer.Length >= PAYLOAD_SIZE && info.Sized()
    modifies buffer
    ensures next == PAYLOAD_SIZE
    ensures buffer[..PAYLOAD_SIZE] == Serialized(info)
    ensures forall n :: PAYLOAD_SIZE <= n < buffer.Length ==> buffer[n] == old(buffer[n])
  {
    hide Wide16, BigEndian, U32sBytes;
    FieldSizes(info);
    next := SerializeU8s(buffer, 0, info.zero);
    assert buffer[..next] == info.zero;
    next := SerializeU8s(buffer, next, [info.direction, info.kind]);
    next := SerializeU32s(buffer, next, info.userID);
    next := SerializeNumber(buffer, next, Wide16(info.reserve), 2);
    next := SerializeU8s(buffer, next, [info.typeAffirm]);
    next := SerializeNumber(buffer, next, info.family, 8);
    next := SerializeU32s(buffer, next, info.srcDeviceID);
    next := SerializeU32s(buffer, next, info.dstDeviceID);
    next := SerializeU32s(buffer, next, info.operation);
    next := SerializeU8s(buffer, next, info.state);
  }

  method DeserializeU8s(buffer: array<bv8>, at: nat, count: nat) returns (bytes: seq<bv8>, next: nat)
    requires at + count <= buffer.Length
    ensures next == at + count && bytes == buffer[at..next]
  {
    bytes, next := [], at;
    for i := 0 to count
      invariant next == at + i && bytes == buffer[at..next]
    {
      bytes := bytes + [buffer[next]];
      next := next + 1;
    }
  }

  method DeserializeU32s(buffer: array<bv8>, at: nat, count: nat) returns (values: seq<bv32>, next: nat)
    requires at + 4 * count <= buffer.Length
    ensures next == at + 4 * count && values == U32sOf(buffer[at..next])
  {
    hide Narrow32, FromBigEndian;
    values, next := [], at;
    for i := 0 to count
      invariant next == at + 4 * i && |values| == i
      invariant forall n :: 0 <= n < i ==> values[n] == U32Of(buffer[at + 4 * n..at + 4 * n + 4])
    {
      var value := DeserializeNumber(buffer, next, 4);
      values := values + [Narrow32(value)];
      next := next + 4;
    }
    ghost var b := buffer[at..next];
    forall n | 0 <= n < count ensures values[n] == U32sOf(b)[n] {
      assert b[4 * n..4 * n + 4] == buffer[at + 4 * n..at + 4 * n + 4];
    }
  }

  // The fields of a packet at the start of a longer buffer.
  lemma SlicesOfPrefix(w: seq<bv8>)
    requires PAYLOAD_SIZE <= |w|
    ensures var b := w[..PAYLOAD_SIZE];
      && b[0..6] == w[0..6] && b[8..20] == w[8..20] && b[20..22] == w[20..22] && b[23..31] == w[23..31] && b[31..47] == w[31..47]
      && b[47..63] == w[47..63] && b[63..79] == w[63..79] && b[79..146] == w[79..146]
  {}

  // Lines 36-55 of both decoders: the fields before the device IDs, into `before`.
  method DeserializeFront(buffer: array<bv8>, before: Packet) returns (info: Packet, next: nat)
    requires buffer.Length >= PAYLOAD_SIZE
    ensures next == 31
    ensures info == before.(zero := buffer[0..6], direction := buffer[6], kind := buffer[7], userID := U32sOf(buffer[8..20]),
                            reserve := U16Of(buffer[20..22]), typeAffirm := buffer[22], family := U64Of(buffer[23..31]))
  {
    hide Narrow16, FromBigEndian, U32sOf;
    var zero, at := DeserializeU8s(buffer, 0, ZERO_FILL_OFFSET);
    var direction, kind := buffer[at], buffer[at + 1];
    var userID, at1 := DeserializeU32s(buffer, at + 2, 3);
    var reserve := DeserializeNumber(buffer, at1, 2);
    var typeAffirm := buffer[at1 + 2];
    var family := DeserializeNumber(buffer, at1 + 3, 8);
    info := before.(zero := zero, direction := direction, kind := kind, userID := userID,
                    reserve := Narrow16(reserve), typeAffirm := typeAffirm, family := family);
    next := at1 + 11;
  }

  /** server/serialize.c's deserialize_payload, into the struct `before`, of which nothing is left. */
  method DeserializePayload(buffer: array<bv8>, before: Packet) returns (info: Packet)
    requires buffer.Length >= PAYLOAD_SIZE
    ensures info == Deserialized(buffer[..PAYLOAD_SIZE])
  {
    hide U16Of, U64Of, U32sOf;
    var at: nat;
    info, at := DeserializeFront(buffer, before);
    var src, at2 := DeserializeU32s(buffer, at, 4);
    info := info.(srcDeviceID := src);
    var dst, at3 := DeserializeU32s(buffer, at2, 4);
    info := info.(dstDeviceID := dst);
    var operation, at4 := DeserializeU32s(buffer, at3, 4);
    var state, end := DeserializeU8s(buffer, at4, STATE_SIZE);
    info := info.(operation := operation, state := state);
    SlicesOfPrefix(buffer[..]);
    assert buffer[..][..PAYLOAD_SIZE] == buffer[..PAYLOAD_SIZE];
  }

  /** client/serialize.c's deserialize_payload, into the struct `before`. */
  method ClientDeserializePayload(buffer: array<bv8>, before: Packet) returns (info: Packet)
    requires buffer.Length >= PAYLOAD_SIZE
    ensures info == ClientDeserialized(buffer[..PAYLOAD_SIZE], before)
  {
    hide U16Of, U64Of, U32sOf;
    var at: nat;
    info, at := DeserializeFront(buffer, before);
    var src, at2 := DeserializeU32s(buffer, at, 4);
    info := info.(srcDeviceID := src);
    var again, at3 := DeserializeU32s(buffer, at2, 4);
    info := info.(srcDeviceID := again);
    var operation, at4 := DeserializeU32s(buffer, at3, 4);
    var state, end := DeserializeU8s(buffer, at4, STATE_SIZE);
    info := info.(operation := operation, state := state);
    SlicesOfPrefix(buffer[..]);
    assert buffer[..][..PAYLOAD_SIZE] == buffer[..PAYLOAD_SIZE];
  }
}
