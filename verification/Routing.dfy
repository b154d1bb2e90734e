/** The sharded key-value store behind the server: server/redis/connect.c, server/redis/redis.c and
    server/server.c:183-217. A node is the map it holds; databases are simulated by composed keys. */
module Routing {
  import Bits
  import Crc16
  import opened Numbers
  import Serialize
  import opened Wrappers

  type Bytes = seq<bv8>

  const SLOTS := 16384

  // ---------------------------------------------------------------- composed keys

  function Digit(d: nat): bv8
    requires d < 10
  {
    match d
    case 0 => 0x30 case 1 => 0x31 case 2 => 0x32 case 3 => 0x33 case 4 => 0x34
    case 5 => 0x35 case 6 => 0x36 case 7 => 0x37 case 8 => 0x38 case _ => 0x39
  }

  function Digits(n: nat): (digits: Bytes)
    ensures |digits| > 0
  {
    if n < 10 then [Digit(n)] else Digits(n / 10) + [Digit(n % 10)]
  }

  /** `%d` */
  function Decimal(n: int): (digits: Bytes)
    ensures |digits| > 0
  {
    if n < 0 then [MINUS] + Digits(-n) else Digits(n)
  }

  const BACKSPACE: bv8 := 8
  const MINUS: bv8 := 0x2D
  const NIL: Bytes := [0x6E, 0x69, 0x6C] // "nil"

  /** `"%d\b%s"` */
  function Composed(db: int, key: Bytes): Bytes {
    Decimal(db) + [BACKSPACE] + key
  }

  lemma DigitsDiffer(a: nat, b: nat)
    requires a < 10 && b < 10
    ensures Digit(a) == Digit(b) ==> a == b
    ensures Digit(a) != BACKSPACE && Digit(a) != MINUS && Digit(a) != 0x6E
  {}

  lemma {:induction false} DigitsPlain(n: nat, i: nat)
    requires i < |Digits(n)|
    ensures Digits(n)[i] != BACKSPACE && Digits(n)[i] != MINUS && Digits(n)[i] != 0x6E
    decreases n
  {
    hide Digit;
    DigitsDiffer(n % 10, 0);
    if n >= 10 && i < |Digits(n)| - 1 {
      DigitsPlain(n / 10, i);
    }
  }

  lemma {:induction false} DigitsInjective(m: nat, n: nat)
    requires Digits(m) == Digits(n)
    ensures m == n
    decreases m
  {
    hide Digit;
    DigitsDiffer(m % 10, n % 10);
    var s := Digits(m);
    assert s[|s| - 1] == Digit(m % 10) == Digit(n % 10);
    assert (m >= 10) == (|s| > 1) == (n >= 10);
    if |s| > 1 {
      assert s[..|s| - 1] == Digits(m / 10) == Digits(n / 10);
      DigitsInjective(m / 10, n / 10);
    }
  }

  lemma DecimalInjective(m: int, n: int)
    requires Decimal(m) == Decimal(n)
    ensures m == n
  {
    hide Digits;
    if m >= 0 { DigitsPlain(m, 0); }
    if n >= 0 { DigitsPlain(n, 0); }
    if m < 0 {
      assert Decimal(m)[1..] == Digits(-m) && Decimal(n)[1..] == Digits(-n);
      DigitsInjective(-m, -n);
    } else {
      DigitsInjective(m, n);
    }
  }

  lemma DecimalPlain(n: int, i: nat)
    requires i < |Decimal(n)|
    ensures Decimal(n)[i] != BACKSPACE && Decimal(n)[i] != 0x6E
  {
    hide Digits;
    if n < 0 {
      if i > 0 { DigitsPlain(-n, i - 1); }
    } else {
      DigitsPlain(n, i);
    }
  }

  function Number(b: bv8): nat {
    b as nat
  }

  /** What a text of digits says in base ten. */
  function ReadBack(text: Bytes): int {
    if text == [] then 0 else 10 * ReadBack(text[..|text| - 1]) + (Number(text[|text| - 1]) - 48)
  }

  lemma DigitIs(d: nat)
    requires d < 10
    ensures Number(Digit(d)) == 48 + d
  {}

  lemma {:induction false} DigitsRead(n: nat)
    ensures ReadBack(Digits(n)) == n
  {
    hide Digit, Number;
    DigitIs(n % 10);
    var text := Digits(n);
    if n >= 10 {
      DigitsRead(n / 10);
      assert text[..|text| - 1] == Digits(n / 10);
    } else {
      assert text[..0] == [];
    }
  }

  predicate IsDigit(b: bv8) {
    48 <= b <= 57
  }

  predicate IsZero(b: bv8) {
    b == 48
  }

  lemma DigitInRange(d: nat)
    requires d < 10
    ensures IsDigit(Digit(d)) && (IsZero(Digit(d)) ==> d == 0)
  {}

  lemma {:induction false} DigitsInRange(n: nat)
    ensures forall i :: 0 <= i < |Digits(n)| ==> IsDigit(Digits(n)[i])
    ensures IsZero(Digits(n)[0]) ==> n == 0 && |Digits(n)| == 1
  {
    hide Digit, IsDigit, IsZero;
    DigitInRange(n % 10);
    if n >= 10 { DigitsInRange(n / 10); }
  }

  /** `%d` prints the number: a minus sign if it is negative, then decimal digits, without a leading
      zero, that read back as its amount. */
  lemma DecimalRead(n: int)
    ensures n < 0 <==> Decimal(n)[0] == 45
    ensures var digits := if n < 0 then Decimal(n)[1..] else Decimal(n);
            && |digits| > 0 && ReadBack(digits) == (if n < 0 then -n else n)
            && (forall i :: 0 <= i < |digits| ==> 48 <= digits[i] <= 57)
            && (digits[0] == 48 ==> n == 0 && |digits| == 1)
  {
    var digits := if n < 0 then Decimal(n)[1..] else Decimal(n);
    assert digits == Digits(if n < 0 then -n else n) by { hide Digits; }
    hide Digits, ReadBack;
    DigitsRead(if n < 0 then -n else n);
    DigitsInRange(if n < 0 then -n else n);
    assert IsDigit(digits[0]) && (IsZero(digits[0]) <==> digits[0] == 48);
  }

  /** A number is never stored as the text that stands for an absent key. */
  lemma DecimalIsNotNil(n: int)
    ensures Decimal(n) != NIL
  {
    hide Decimal;
    DecimalPlain(n, 0);
  }

  // The database number ends at the first backspace.
  lemma FirstBackspace(db: int, key: Bytes, i: nat)
    ensures i < |Decimal(db)| ==> Composed(db, key)[i] != BACKSPACE
    ensures Composed(db, key)[|Decimal(db)|] == BACKSPACE
  {
    hide Decimal;
    if i < |Decimal(db)| { DecimalPlain(db, i); }
  }

  /** Two databases never share a composed key, nor do two keys of one database. */
  lemma ComposedInjective(db: int, key: Bytes, db': int, key': Bytes)
    ensures Composed(db, key) == Composed(db', key') <==> db == db' && key == key'
  {
    hide Decimal;
    if Composed(db, key) == Composed(db', key') {
      var d, d', c := Decimal(db), Decimal(db'), Composed(db, key);
      FirstBackspace(db, key, |d'|);
      FirstBackspace(db', key', |d|);
      assert d == c[..|d|] == d';
      DecimalInjective(db, db');
      assert key == c[|d| + 1..] == key';
    }
  }

  // ---------------------------------------------------------------- slots and nodes

  /** `crc16(key, strlen(key)) & 16383` */
  function Slot(key: Bytes): (slot: nat)
    ensures slot < SLOTS
  {
    Masked(Crc16.CrcFrom(0, key))
  }

  function Masked(crc: bv16): (slot: nat)
    ensures slot < SLOTS
  {
    (crc & 16383) as nat
  }

  function Joined(high: bv8, low: bv8): bv16 {
    ((high as bv16) << 8) | (low as bv16)
  }

  function WordNumber(w: bv16): nat {
    w as nat
  }

  lemma JoinedParts(high: bv8, low: bv8)
    ensures (((high as bv16) << 8) | (low as bv16)) as nat == 256 * (high as nat) + (low as nat)
  {}

  lemma JoinedNumber(high: bv8, low: bv8)
    ensures WordNumber(Joined(high, low)) == 256 * Number(high) + Number(low)
  {
    JoinedParts(high, low);
  }

  lemma NumberBelow(b: bv8)
    ensures Number(b) < 256
  {}

  lemma BitsJoined(high: bv2, low: bv6)
    ensures (((high as bv8) << 6) | (low as bv8)) as nat == 64 * (high as nat) + (low as nat)
    ensures (low as bv8) as nat == low as nat && low as nat < 64
  {}

  lemma ByteSplit(b: bv8)
    ensures b == (((b >> 6) as bv2 as bv8) << 6) | ((b & 0x3F) as bv6 as bv8)
    ensures b & 0x3F == (b & 0x3F) as bv6 as bv8
  {}

  function SixBits(b: bv8): bv8 {
    b & 0x3F
  }

  lemma SixBitsModulo(b: bv8)
    ensures Number(SixBits(b)) == Number(b) % 64
  {
    ByteSplit(b);
    BitsJoined((b >> 6) as bv2, (b & 0x3F) as bv6);
    ModUnique(b as nat, 64, ((b >> 6) as bv2) as nat, ((b & 0x3F) as bv6) as nat);
  }

  lemma WordSplit(c: bv16)
    ensures c == Joined((c >> 8) as bv8, (c & 0xFF) as bv8)
    ensures c & 16383 == Joined((c >> 8) as bv8 & 0x3F, (c & 0xFF) as bv8)
  {}

  lemma MaskedParts(high: bv8, low: bv8)
    ensures Masked(Joined(high, low)) == WordNumber(Joined(SixBits(high), low))
  {
    hide Joined;
    WordSplit(Joined(high, low));
    BytesOfJoined(high, low);
  }

  lemma BytesOfJoined(high: bv8, low: bv8)
    ensures (Joined(high, low) >> 8) as bv8 == high && (Joined(high, low) & 0xFF) as bv8 == low
  {}

  lemma MaskedJoined(high: bv8, low: bv8)
    ensures Masked(Joined(high, low)) == WordNumber(Joined(high, low)) % 16384
  {
    hide Joined, Masked, SixBits, Number, WordNumber;
    MaskedParts(high, low);
    JoinedNumber(high, low);
    JoinedNumber(SixBits(high), low);
    SixBitsModulo(high);
    NumberBelow(low);
    var h, l := Number(high), Number(low);
    ModUnique(256 * h + l, 16384, h / 64, 256 * (h % 64) + l);
  }

  lemma MaskedIsModulo(crc: bv16)
    ensures Masked(crc) == WordNumber(crc) % 16384
  {
    WordSplit(crc);
    hide Joined, Masked, WordNumber;
    MaskedJoined((crc >> 8) as bv8, (crc & 0xFF) as bv8);
  }

  /** The slot of a key is the remainder of its bits times x^16 by the divisor, as a number, modulo 16384. */
  lemma SlotIsRemainder(key: Bytes, r: bv16)
    requires Crc16.IsRemainder(Bits.ToBits(key) + Bits.Zeros(16), r)
    ensures Slot(key) == (r as nat) % 16384
  {
    hide Crc16.IsRemainder, Crc16.CrcFrom, Masked;
    Crc16.CrcIsRemainder(key, r);
    MaskedIsModulo(r);
  }

  lemma NibbleOf(n: nat) returns (b: bv4)
    requires n < 16
    ensures b as nat == n
  {
    b := n as bv4;
  }

  lemma NibblesJoined(high: bv4, low: bv4)
    ensures (((high as bv8) << 4) | (low as bv8)) as nat == 16 * (high as nat) + (low as nat)
  {}

  function FromNibbles(high: bv4, low: bv4): bv8 {
    ((high as bv8) << 4) | (low as bv8)
  }

  lemma ByteOf(n: nat) returns (b: bv8)
    requires n < 256
    ensures Number(b) == n
  {
    var high := NibbleOf(n / 16);
    var low := NibbleOf(n % 16);
    b := FromNibbles(high, low);
    NibblesJoined(high, low);
  }

  /** Every slot is reached, whatever a key starts with. */
  lemma EverySlotReached(text: Bytes, slot: nat) returns (key: Bytes)
    requires slot < 16384
    ensures |key| == |text| + 2 && key[..|text|] == text && Slot(key) == slot
  {
    hide Crc16.CrcFrom, Masked, Joined, WordNumber, Number;
    var high := ByteOf(slot / 256);
    var low := ByteOf(slot % 256);
    JoinedNumber(high, low);
    ModUnique(slot, 16384, 0, slot);
    var a, b := Crc16.EveryChecksum(text, Joined(high, low));
    key := text + [a, b];
    MaskedJoined(high, low);
  }

  /** User 2 in database 1. */
  lemma SlotOfUserTwo()
    ensures Composed(1, Decimal(2)) == [49, 8, 50] && Slot([49, 8, 50]) == 11565
  {
    assert Decimal(1) == [49] && Decimal(2) == [50];
    Crc16.ThreeFed(0, 49, 8, 50, 0x2672, 0xB7AC, 0x6D2D);
    hide Crc16.CrcFrom, Masked;
    MaskedOfUserTwo();
  }

  lemma MaskedOfUserTwo()
    ensures Masked(0x6D2D) == 11565
  {}

  // What assign_slot reads of a struct parseArgv.
  datatype Node = Node(startSlot: int, endSlot: int)

  predicate Owns(node: Node, slot: int) {
    node.startSlot <= slot <= node.endSlot
  }

  // The last of the first n nodes that owns the slot; `before` if none does.
  function LastOwner(nodes: seq<Node>, n: nat, slot: int, before: int): (h: int)
    requires n <= |nodes|
    ensures h == before || (0 <= h < n && Owns(nodes[h], slot))
    ensures forall i :: 0 <= i < n && Owns(nodes[i], slot) ==> i <= h < n
  {
    if n == 0 then before
    else if Owns(nodes[n - 1], slot) then n - 1
    else LastOwner(nodes, n - 1, slot, before)
  }

  /** A slot is led to the last node whose range, both ends included, has it, and stays if there is none. */
  lemma LastOwnerIs(nodes: seq<Node>, slot: int, before: int)
    ensures var h := LastOwner(nodes, |nodes|, slot, before);
      && (forall i :: 0 <= i < |nodes| && nodes[i].startSlot <= slot <= nodes[i].endSlot ==>
            i <= h < |nodes| && nodes[h].startSlot <= slot <= nodes[h].endSlot)
      && ((forall i :: 0 <= i < |nodes| ==> slot < nodes[i].startSlot || nodes[i].endSlot < slot) ==> h == before)
  {
    var h := LastOwner(nodes, |nodes|, slot, before);
    forall i | 0 <= i < |nodes| && nodes[i].startSlot <= slot <= nodes[i].endSlot ensures i <= h < |nodes| && Owns(nodes[h], slot) {
      assert Owns(nodes[i], slot);
      OwnerIfAny(nodes, |nodes|, slot, before, i);
    }
    if h != before { assert Owns(nodes[h], slot); }
  }

  lemma {:induction false} OwnerIfAny(nodes: seq<Node>, n: nat, slot: int, before: int, i: nat)
    requires i < n <= |nodes| && Owns(nodes[i], slot)
    ensures var h := LastOwner(nodes, n, slot, before); 0 <= h < n && Owns(nodes[h], slot)
  {
    hide Owns;
    if !Owns(nodes[n - 1], slot) { OwnerIfAny(nodes, n - 1, slot, before, i); }
  }

  /** The slot ranges partition 0..16383: no slot belongs to two nodes, and every slot to one. */
  ghost predicate Partition(nodes: seq<Node>) {
    && (forall i, j, slot :: 0 <= i < j < |nodes| && 0 <= slot < SLOTS && Owns(nodes[i], slot) ==> !Owns(nodes[j], slot))
    && (forall slot :: 0 <= slot < SLOTS ==> HasOwner(nodes, slot))
  }

  ghost predicate HasOwner(nodes: seq<Node>, slot: int) {
    exists i :: 0 <= i < |nodes| && Owns(nodes[i], slot)
  }

  // A node answers for the slots of its range; `h` is the one node that answers for this one.
  predicate AnswersAlone(nodes: seq<Node>, h: int, slot: int) {
    0 <= h < |nodes| && forall i :: 0 <= i < |nodes| ==> (Owns(nodes[i], slot) <==> i == h)
  }

  ghost predicate LeadsToAnswers(nodes: seq<Node>) {
    forall slot :: 0 <= slot < SLOTS ==> AnswersAlone(nodes, LastOwner(nodes, |nodes|, slot, -1), slot)
  }

  /** After assign_slot on an empty table, every slot leads to the one node that answers for it
      exactly when the ranges are a partition. */
  lemma AssignedIff(nodes: seq<Node>)
    ensures Partition(nodes) <==> LeadsToAnswers(nodes)
  {
    hide Owns;
    if Partition(nodes) {
      forall slot | 0 <= slot < SLOTS ensures AnswersAlone(nodes, LastOwner(nodes, |nodes|, slot, -1), slot) {
        assert HasOwner(nodes, slot);
        var h := LastOwner(nodes, |nodes|, slot, -1);
        forall i | 0 <= i < |nodes| ensures Owns(nodes[i], slot) <==> i == h {}
      }
    }
    if LeadsToAnswers(nodes) {
      forall slot | 0 <= slot < SLOTS ensures HasOwner(nodes, slot) {
        assert AnswersAlone(nodes, LastOwner(nodes, |nodes|, slot, -1), slot);
        assert Owns(nodes[LastOwner(nodes, |nodes|, slot, -1)], slot);
      }
      forall i, j, slot | 0 <= i < j < |nodes| && 0 <= slot < SLOTS && Owns(nodes[i], slot) ensures !Owns(nodes[j], slot) {
        assert AnswersAlone(nodes, LastOwner(nodes, |nodes|, slot, -1), slot);
      }
    }
  }

  /** Every slot leads to some node. */
  predicate Routes(hosts: seq<int>, n: nat) {
    |hosts| == SLOTS && forall slot :: 0 <= slot < SLOTS ==> 0 <= hosts[slot] < n
  }

  // ---------------------------------------------------------------- the shards as one map

  function Host(hosts: seq<int>, n: nat, key: Bytes): (h: nat)
    requires Routes(hosts, n)
    ensures h < n
  {
    hosts[Slot(key)]
  }

  function PutKey(stores: seq<map<Bytes, Bytes>>, hosts: seq<int>, key: Bytes, value: Bytes): (after: seq<map<Bytes, Bytes>>)
    requires Routes(hosts, |stores|)
    ensures |after| == |stores|
  {
    var h := Host(hosts, |stores|, key);
    stores[h := stores[h][key := value]]
  }

  /** What the client of the store sees: one map from (database, key) to value. */
  ghost function View(stores: seq<map<Bytes, Bytes>>, hosts: seq<int>): imap<(int, Bytes), Bytes>
    requires Routes(hosts, |stores|)
  {
    imap p: (int, Bytes) | Composed(p.0, p.1) in stores[Host(hosts, |stores|, Composed(p.0, p.1))]
      :: stores[Host(hosts, |stores|, Composed(p.0, p.1))][Composed(p.0, p.1)]
  }

  /** Storing under a composed key changes that map at one place. */
  lemma PutView(stores: seq<map<Bytes, Bytes>>, hosts: seq<int>, db: int, key: Bytes, value: Bytes)
    requires Routes(hosts, |stores|)
    ensures View(PutKey(stores, hosts, Composed(db, key), value), hosts) == View(stores, hosts)[(db, key) := value]
  {
    hide Slot, Composed;
    var after := PutKey(stores, hosts, Composed(db, key), value);
    var v, w := View(after, hosts), View(stores, hosts)[(db, key) := value];
    forall p: (int, Bytes) ensures (p in v <==> p in w) && (p in v ==> v[p] == w[p]) {
      ComposedInjective(db, key, p.0, p.1);
      assert p == (p.0, p.1);
    }
  }

  // ---------------------------------------------------------------- get and set

  const SUCCESS := true
  const FAILURE := false
  const GET := 1
  const SET := 2
  const USER_DEVICE_DB := 1
  const USER_KEY_DB := 2
  const DEVICE_STATE_DB := 3

  ghost function GetOrCreate(view: imap<(int, Bytes), Bytes>, p: (int, Bytes), cmpValue: Bytes): imap<(int, Bytes), Bytes> {
    if p in view && view[p] != NIL then view else view[p := cmpValue]
  }

  /** clusterInfo with its nodes. slotToHost holds an index into the nodes, -1 for a null pointer;
      contexts[i] says whether node i's connection is there. */
  class Cluster {
    const nodes: seq<Node>
    const slotToHost: array<int>
    var contexts: seq<bool>
    var stores: seq<map<Bytes, Bytes>>

    constructor (nodes: seq<Node>, contexts: seq<bool>, stores: seq<map<Bytes, Bytes>>)
      ensures this.nodes == nodes && this.contexts == contexts && this.stores == stores
      ensures fresh(slotToHost) && slotToHost.Length == SLOTS == 16384
    {
      this.nodes, this.contexts, this.stores := nodes, contexts, stores;
      slotToHost := new int[SLOTS](_ => -1);
    }

    /** assign_slot: a later node overrides an earlier one, and slots of no node keep their entry. */
    method AssignSlot()
      requires slotToHost.Length == SLOTS
      requires forall i :: 0 <= i < |nodes| ==> 0 <= nodes[i].startSlot && nodes[i].endSlot < SLOTS
      modifies slotToHost
      ensures forall slot :: 0 <= slot < SLOTS ==>
        slotToHost[slot] == LastOwner(nodes, |nodes|, slot, old(slotToHost[slot]))
      ensures Partition(nodes) ==> Routes(slotToHost[..], |nodes|)
    {
      var len := |nodes|;
      for i := 0 to len
        invariant forall slot :: 0 <= slot < SLOTS ==> slotToHost[slot] == LastOwner(nodes, i, slot, old(slotToHost[slot]))
      {
        var start, end := nodes[i].startSlot, nodes[i].endSlot;
        var j := start;
        while j <= end
          invariant start <= j && (start <= end ==> j <= end + 1) && (end < start ==> j == start)
          invariant forall slot :: 0 <= slot < SLOTS ==>
            slotToHost[slot] == if start <= slot < j then i else LastOwner(nodes, i, slot, old(slotToHost[slot]))
        {
          slotToHost[j] := i;
          j := j + 1;
        }
      }
      if Partition(nodes) {
        forall slot | 0 <= slot < SLOTS ensures 0 <= slotToHost[slot] < len {
          assert HasOwner(nodes, slot);
        }
      }
    }

    ghost predicate Valid()
      reads this, slotToHost
    {
      |contexts| == |nodes| == |stores| && Routes(slotToHost[..], |nodes|)
    }

    ghost function Contents(): imap<(int, Bytes), Bytes>
      requires Valid()
      reads this, slotToHost
    {
      View(stores, slotToHost[..])
    }

    predicate Connected(key: Bytes)
      requires Valid()
      reads this, slotToHost
    {
      contexts[slotToHost[Slot(key)]]
    }

    // __set_nodb
    method SetNodb(key: Bytes, value: Bytes) returns (error: int)
      requires Valid()
      modifies this`stores
      ensures Valid()
      ensures error == if Connected(key) then 0 else -1
      ensures stores == if Connected(key) then PutKey(old(stores), slotToHost[..], key, value) else old(stores)
    {
      hide Slot;
      var myslot := Slot(key);
      var host := slotToHost[myslot];
      if !contexts[host] { return -1; }
      assert Host(slotToHost[..], |stores|, key) == host;
      stores := stores[host := stores[host][key := value]];
      error := 0;
    }

    /** __set_withdb: with the connection there, one place of the map changes; without, nothing. */
    method SetWithdb(key: Bytes, value: Bytes, dbnum: int) returns (error: int)
      requires Valid()
      modifies this`stores
      ensures Valid()
      ensures error == if Connected(Composed(dbnum, key)) then 0 else -1
      ensures Contents() == if error == 0 then old(Contents())[(dbnum, key) := value] else old(Contents())
    {
      hide View, PutKey, Composed, Slot;
      PutView(stores, slotToHost[..], dbnum, key, value);
      error := SetNodb(Composed(dbnum, key), value);
    }

    // __get_nodb
    method GetNodb(key: Bytes) returns (error: int, value: Bytes)
      requires Valid()
      ensures error == if Connected(key) then 0 else -1
      ensures var store := stores[Host(slotToHost[..], |stores|, key)];
              error == 0 ==> value == if key in store then store[key] else NIL
    {
      hide Slot;
      var myslot := Slot(key);
      var host := slotToHost[myslot];
      if !contexts[host] { return -1, []; }
      assert Host(slotToHost[..], |stores|, key) == host;
      error := 0;
      value := if key in stores[host] then stores[host][key] else NIL;
    }

    /** __get_withdb: what the map holds for the database and key, "nil" if nothing. */
    method GetWithdb(key: Bytes, dbnum: int) returns (error: int, value: Bytes)
      requires Valid()
      ensures error == if Connected(Composed(dbnum, key)) then 0 else -1
      ensures error == 0 ==> value == if (dbnum, key) in Contents() then Contents()[(dbnum, key)] else [0x6E, 0x69, 0x6C]
    {
      hide Composed, Slot;
      error, value := GetNodb(Composed(dbnum, key));
      ghost var p := (dbnum, key);
      assert p in Contents() <==> Composed(p.0, p.1) in stores[Host(slotToHost[..], |stores|, Composed(p.0, p.1))];
    }

    /** queryDatabase: GET is get-or-create, except that a stored "nil" counts as absent; a failing
        set goes unnoticed. */
    method QueryDatabase(key: Bytes, cmpValue: Bytes, database: int, op: int) returns (result: bool)
      requires Valid()
      modifies this`stores
      ensures Valid()
      ensures result == (op == 1 ==> Connected(Composed(database, key)))
      ensures Contents() ==
        if !Connected(Composed(database, key)) then old(Contents())
        else if op == 1 then GetOrCreate(old(Contents()), (database, key), cmpValue)
        else if op == 2 then old(Contents())[(database, key) := cmpValue]
        else old(Contents())
    {
      hide View, Composed, Slot;
      if op == GET {
        var error, value := GetWithdb(key, database);
        if error == 0 {
          if value == NIL {
            var ignored := SetWithdb(key, cmpValue, database);
          }
          result := SUCCESS;
        } else {
          result := FAILURE;
        }
      } else if op == SET {
        var ignored := SetWithdb(key, cmpValue, database);
        result := SUCCESS;
      } else {
        result := SUCCESS;
      }
    }

    // The places whose node has its connection.
    ghost function Reachable(): iset<(int, Bytes)>
      requires Valid()
      reads this, slotToHost
    {
      iset p: (int, Bytes) | Connected(Composed(p.0, p.1))
    }

    /** processDatabase: of the three queries, those whose node is not connected are dropped. */
    method ProcessDatabase(payload: Serialize.Packet)
      requires Valid() && payload.Sized()
      modifies this`stores
      ensures Valid() && Reachable() == old(Reachable())
      ensures Contents() == Processed(old(Contents()), Reachable(), FieldsOf(payload))
    {
      hide View, Composed, Slot, Decimal, GetOrCreate, Signed;
      var userID, deviceID := Decimal(Signed(payload.userID[0])), Decimal(Signed(payload.dstDeviceID[0]));
      var state, sid := Decimal(payload.state[0] as int), Decimal(Signed(payload.userID[1]));
      var r1 := QueryDatabase(userID, deviceID, USER_DEVICE_DB, GET);
      var r2 := QueryDatabase(userID, state, DEVICE_STATE_DB, SET);
      var r3 := QueryDatabase(sid, deviceID, USER_KEY_DB, GET);
    }
  }

  // ---------------------------------------------------------------- runs

  // The fields of a packet that processDatabase prints with `%d`: userID[0], dstDeviceID[0],
  // state[0] and userID[1].
  datatype Fields = Fields(user: int, device: int, state: int, sid: int)

  // A uint32_t printed with `%d`.
  function Signed(v: bv32): int {
    Int32(v as int)
  }

  function FieldsOf(p: Serialize.Packet): Fields
    requires p.Sized()
  {
    Fields(Signed(p.userID[0]), Signed(p.dstDeviceID[0]), p.state[0] as int, Signed(p.userID[1]))
  }

  /** Which bytes of a packet the database sees, and how: three as signed numbers, one as it is. */
  lemma FieldsOnWire(b: Bytes)
    requires |b| == 146
    ensures var p := FieldsOf(Serialize.Deserialized(b));
      && p.user == Int32(Serialize.Quad(b, 8) as int) && p.sid == Int32(Serialize.Quad(b, 12) as int)
      && p.device == Int32(Serialize.Quad(b, 47) as int) && p.state == b[79] as int
  {
    hide Int32, Serialize.Quad, Serialize.Deserialized;
    Serialize.FieldsFromBytes(b);
    assert b[79..][0] == b[79];
  }

  ghost function Processed(view: imap<(int, Bytes), Bytes>, reachable: iset<(int, Bytes)>, p: Fields): imap<(int, Bytes), Bytes> {
    var device, state, sid := (USER_DEVICE_DB, Decimal(p.user)), (DEVICE_STATE_DB, Decimal(p.user)), (USER_KEY_DB, Decimal(p.sid));
    var v1 := if device in reachable then GetOrCreate(view, device, Decimal(p.device)) else view;
    var v2 := if state in reachable then v1[state := Decimal(p.state)] else v1;
    if sid in reachable then GetOrCreate(v2, sid, Decimal(p.device)) else v2
  }

  ghost function ProcessedAll(view: imap<(int, Bytes), Bytes>, reachable: iset<(int, Bytes)>, packets: seq<Fields>): imap<(int, Bytes), Bytes> {
    if packets == [] then view else ProcessedAll(Processed(view, reachable, packets[0]), reachable, packets[1..])
  }

  /** The device of the first packet with this user. */
  function FirstDevice(packets: seq<Fields>, user: int): Option<Bytes> {
    if packets == [] then None
    else if packets[0].user == user then Some(Decimal(packets[0].device))
    else FirstDevice(packets[1..], user)
  }

  function FirstKey(packets: seq<Fields>, sid: int): Option<Bytes> {
    if packets == [] then None
    else if packets[0].sid == sid then Some(Decimal(packets[0].device))
    else FirstKey(packets[1..], sid)
  }

  /** The state of the last packet with this user. */
  function LastState(packets: seq<Fields>, user: int): Option<Bytes> {
    if packets == [] then None
    else match LastState(packets[1..], user)
      case Some(v) => Some(v)
      case None => if packets[0].user == user then Some(Decimal(packets[0].state)) else None
  }

  /** What get-or-create takes for stored: "nil" counts as absent. */
  ghost function Stored(view: imap<(int, Bytes), Bytes>, db: int, n: int): Option<Bytes> {
    var p := (db, Decimal(n));
    if p in view && view[p] != NIL then Some(view[p]) else None
  }

  function Or<T>(first: Option<T>, second: Option<T>): Option<T> {
    if first.Some? then first else second
  }

  // What a query offers, if its node can be reached.
  ghost function Offered(reachable: iset<(int, Bytes)>, db: int, n: int, value: Option<Bytes>): Option<Bytes> {
    if (db, Decimal(n)) in reachable then value else None
  }

  lemma StoredAfterGet(view: imap<(int, Bytes), Bytes>, db: int, m: int, value: Bytes, db': int, n: int)
    requires value != NIL
    ensures Stored(GetOrCreate(view, (db, Decimal(m)), value), db', n)
         == Or(Stored(view, db', n), if db == db' && m == n then Some(value) else None)
  {
    hide Decimal;
    if Decimal(m) == Decimal(n) { DecimalInjective(m, n); }
  }

  lemma StoredAfterSet(view: imap<(int, Bytes), Bytes>, db: int, m: int, value: Bytes, db': int, n: int)
    requires value != NIL
    ensures Stored(view[(db, Decimal(m)) := value], db', n)
         == Or(if db == db' && m == n then Some(value) else None, Stored(view, db', n))
  {
    hide Decimal;
    if Decimal(m) == Decimal(n) { DecimalInjective(m, n); }
  }

  lemma ProcessedOne(view: imap<(int, Bytes), Bytes>, reachable: iset<(int, Bytes)>, p: Fields, db: int, n: int)
    ensures Stored(Processed(view, reachable, p), db, n) ==
      if db == USER_DEVICE_DB then
        Or(Stored(view, db, n), Offered(reachable, db, n, if p.user == n then Some(Decimal(p.device)) else None))
      else if db == USER_KEY_DB then
        Or(Stored(view, db, n), Offered(reachable, db, n, if p.sid == n then Some(Decimal(p.device)) else None))
      else if db == DEVICE_STATE_DB then
        Or(Offered(reachable, db, n, if p.user == n then Some(Decimal(p.state)) else None), Stored(view, db, n))
      else Stored(view, db, n)
  {
    hide Decimal, GetOrCreate, Stored;
    var device, state, sid := (USER_DEVICE_DB, Decimal(p.user)), (DEVICE_STATE_DB, Decimal(p.user)), (USER_KEY_DB, Decimal(p.sid));
    DecimalIsNotNil(p.device);
    DecimalIsNotNil(p.state);
    var v1 := if device in reachable then GetOrCreate(view, device, Decimal(p.device)) else view;
    var v2 := if state in reachable then v1[state := Decimal(p.state)] else v1;
    StoredAfterGet(view, USER_DEVICE_DB, p.user, Decimal(p.device), db, n);
    StoredAfterSet(v1, DEVICE_STATE_DB, p.user, Decimal(p.state), db, n);
    StoredAfterGet(v2, USER_KEY_DB, p.sid, Decimal(p.device), db, n);
  }

  /** Over any run of packets, from any contents: where the node can be reached, a user keeps the
      device of its first packet and has the state of its last, and a session key keeps the device of
      its first packet; where it cannot, what is stored stays. */
  lemma {:induction false} DatabaseAfterRun(view: imap<(int, Bytes), Bytes>, reachable: iset<(int, Bytes)>, packets: seq<Fields>, n: int)
    ensures var w := ProcessedAll(view, reachable, packets);
      && Stored(w, 1, n) == Or(Stored(view, 1, n), Offered(reachable, 1, n, FirstDevice(packets, n)))
      && Stored(w, 2, n) == Or(Stored(view, 2, n), Offered(reachable, 2, n, FirstKey(packets, n)))
      && Stored(w, 3, n) == Or(Offered(reachable, 3, n, LastState(packets, n)), Stored(view, 3, n))
    decreases |packets|
  {
    hide Stored, Processed, Decimal;
    if packets != [] {
      ProcessedOne(view, reachable, packets[0], USER_DEVICE_DB, n);
      ProcessedOne(view, reachable, packets[0], USER_KEY_DB, n);
      ProcessedOne(view, reachable, packets[0], DEVICE_STATE_DB, n);
      DatabaseAfterRun(Processed(view, reachable, packets[0]), reachable, packets[1..], n);
    }
  }

  /** GET leaves a stored value alone exactly when the value is not "nil" or is the one offered. */
  lemma GetKeepsIff(view: imap<(int, Bytes), Bytes>, p: (int, Bytes), cmpValue: Bytes)
    requires p in view
    ensures GetOrCreate(view, p, cmpValue) == view <==> view[p] != NIL || cmpValue == NIL
  {
    if view[p] == NIL && cmpValue != NIL {
      assert GetOrCreate(view, p, cmpValue)[p] == cmpValue;
    }
  }
}
