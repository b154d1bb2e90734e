/** The way of a packet from the client's socket to the server's worker:
    client/DES/payload_cipher.c, client/client.c:275-290 with CIPHER on, and
    server/server.c:422-429. The cipher covers 16 blocks of 8 bytes from offset 22, four bytes
    more than the 146 that are sent, so the working buffers here have 150 bytes; what stands in
    the last four, on either side, is arbitrary. */
module PacketPath {
  import opened ClientCipher
  import opened KeyTable
  import opened Serialize
  import opened WordCipher

  const CIPHER_SIZE := 8
  const GROUPS := 16
  const PAYLOAD_OFFSET := 22
  const BUFFER_SIZE := 150

  /** The key for sixteen bytes of user ID. */
  function KeyFor(userID: seq<bv8>, table: seq<bv64>): bv64
    requires |userID| == 16 && TABLE_SIZE <= |table|
  {
    table[KeyIndex(userID)]
  }

  /** Consecutive blocks under one key. */
  function EncryptedBlocks(bytes: seq<bv8>, key: bv64): (cipher: seq<bv8>)
    requires |bytes| % 8 == 0
    ensures |cipher| == |bytes|
    decreases |bytes|
  {
    if bytes == [] then [] else Encrypted(bytes[..8], key) + EncryptedBlocks(bytes[8..], key)
  }

  function DecryptedBlocks(cipher: seq<bv8>, key: bv64): (bytes: seq<bv8>)
    requires |cipher| % 8 == 0
    ensures |bytes| == |cipher|
    decreases |cipher|
  {
    if cipher == [] then [] else Decrypted(cipher[..8], key) + DecryptedBlocks(cipher[8..], key)
  }

  function Block(bytes: seq<bv8>, i: nat): (block: seq<bv8>)
    requires 8 * i + 8 <= |bytes|
    ensures |block| == 8
  {
    bytes[8 * i..8 * i + 8]
  }

  /** Block i of the result is the cipher of block i alone. */
  lemma {:induction false} BlockAt(bytes: seq<bv8>, key: bv64, i: nat)
    requires |bytes| % 8 == 0 && 8 * i + 8 <= |bytes|
    ensures Block(EncryptedBlocks(bytes, key), i) == Encrypted(Block(bytes, i), key)
    ensures Block(DecryptedBlocks(bytes, key), i) == Decrypted(Block(bytes, i), key)
    decreases i
  {
    hide Encrypted, Decrypted;
    if i > 0 {
      BlockAt(bytes[8..], key, i - 1);
      var j := i - 1;
      assert Block(bytes[8..], j) == Block(bytes, i);
      assert EncryptedBlocks(bytes, key)[8..] == EncryptedBlocks(bytes[8..], key);
      assert DecryptedBlocks(bytes, key)[8..] == DecryptedBlocks(bytes[8..], key);
    }
  }

  lemma {:induction false} BlocksRoundTrip(bytes: seq<bv8>, key: bv64)
    requires |bytes| % 8 == 0
    ensures DecryptedBlocks(EncryptedBlocks(bytes, key), key) == bytes
    decreases |bytes|
  {
    hide Encrypted, Decrypted;
    if bytes != [] {
      OwnRoundTrip(bytes[..8], key);
      BlocksRoundTrip(bytes[8..], key);
      var c := EncryptedBlocks(bytes, key);
      assert c[..8] == Encrypted(bytes[..8], key) && c[8..] == EncryptedBlocks(bytes[8..], key);
    }
  }

  lemma BlockOfRegion(bytes: seq<bv8>, at: nat, i: nat)
    requires at + 128 <= |bytes| && i < GROUPS
    ensures bytes[at + 8 * i..at + 8 * i + 8] == Block(bytes[at..at + 128], i)
  {
    SliceOfSlice(bytes, at, at + 128, 8 * i, 8 * i + 8);
  }

  lemma SliceOfSlice(s: seq<bv8>, a: nat, b: nat, c: nat, d: nat)
    requires a <= b <= |s| && c <= d <= b - a
    ensures s[a..b][c..d] == s[a + c..a + d]
  {
    var inner, outer := s[a..b][c..d], s[a + c..a + d];
    forall n | 0 <= n < d - c ensures inner[n] == outer[n] {}
  }

  // The body of the loop in encrypt_payload: memcpy of one block, then the cipher.
  method EncryptGroup(payload: array<bv8>, at: nat, ciphertext: array<bv8>, to: nat, key: bv64)
    requires at + 8 <= payload.Length && to + 8 <= ciphertext.Length
    modifies ciphertext
    ensures ciphertext[to..to + 8] == Encrypted(old(payload[at..at + 8]), key)
    ensures forall n :: 0 <= n < ciphertext.Length && !(to <= n < to + 8) ==> ciphertext[n] == old(ciphertext[n])
  {
    hide Encrypted;
    ghost var block := payload[at..at + 8];
    var plain := new bv8[CIPHER_SIZE];
    for n := 0 to CIPHER_SIZE
      modifies plain
      invariant forall m :: 0 <= m < n ==> plain[m] == payload[at + m]
    {
      plain[n] := payload[at + n];
    }
    assert plain[0..0 + 8] == block;
    OwnEncrypt(plain, 0, ciphertext, to, key);
  }

  // The loop of encrypt_payload.
  method EncryptGroups(payload: array<bv8>, at: nat, ciphertext: array<bv8>, to: nat, key: bv64)
    requires at + 128 <= payload.Length && to + 128 <= ciphertext.Length && payload != ciphertext
    modifies ciphertext
    ensures ciphertext[to..to + 128] == EncryptedBlocks(old(payload[at..at + 128]), key)
    ensures forall n :: 0 <= n < ciphertext.Length && !(to <= n < to + 128) ==> ciphertext[n] == old(ciphertext[n])
  {
    hide Encrypted, Decrypted, EncryptedBlocks, DecryptedBlocks;
    ghost var region := payload[at..at + 128];
    ghost var whole := EncryptedBlocks(region, key);
    for i := 0 to GROUPS
      invariant forall m :: 0 <= m < 8 * i ==> ciphertext[to + m] == whole[m]
      invariant forall n :: 0 <= n < ciphertext.Length && !(to <= n < to + 128) ==> ciphertext[n] == old(ciphertext[n])
    {
      var from, into := at + 8 * i, to + 8 * i;
      BlockOfRegion(payload[..], at, i);
      BlockAt(region, key, i);
      EncryptGroup(payload, from, ciphertext, into, key);
      forall m | 8 * i <= m < 8 * i + 8 ensures ciphertext[to + m] == whole[m] {
        var k := m - 8 * i;
        assert ciphertext[into..into + 8][k] == Block(whole, i)[k];
      }
    }
  }

  /** encrypt_payload: a pointer is an array and an index into it. */
  method EncryptPayload(payload: array<bv8>, payloadAt: nat, userID: array<bv8>, userAt: nat,
                        ciphertext: array<bv8>, cipherAt: nat, table: array<bv64>)
    requires payloadAt + 128 <= payload.Length && userAt + 16 <= userID.Length && cipherAt + 128 <= ciphertext.Length
    requires TABLE_SIZE <= table.Length && ciphertext != payload
    modifies ciphertext
    ensures ciphertext[cipherAt..cipherAt + 128]
         == EncryptedBlocks(old(payload[payloadAt..payloadAt + 128]), KeyFor(old(userID[userAt..userAt + 16]), table[..]))
    ensures forall n :: 0 <= n < ciphertext.Length && !(cipherAt <= n < cipherAt + 128) ==> ciphertext[n] == old(ciphertext[n])
  {
    hide KeyIndex, EncryptedBlocks;
    var key := GetKeyFromUserID(userID, userAt, table);
    EncryptGroups(payload, payloadAt, ciphertext, cipherAt, key);
  }

  // The body of the loop in decrypt_payload: memcpy of one block, then the cipher.
  method DecryptGroup(ciphertext: array<bv8>, at: nat, payload: array<bv8>, to: nat, key: bv64)
    requires at + 8 <= ciphertext.Length && to + 8 <= payload.Length
    modifies payload
    ensures payload[to..to + 8] == Decrypted(old(ciphertext[at..at + 8]), key)
    ensures forall n :: 0 <= n < payload.Length && !(to <= n < to + 8) ==> payload[n] == old(payload[n])
  {
    hide Decrypted;
    ghost var block := ciphertext[at..at + 8];
    var cipher := new bv8[CIPHER_SIZE];
    for n := 0 to CIPHER_SIZE
      modifies cipher
      invariant forall m :: 0 <= m < n ==> cipher[m] == ciphertext[at + m]
    {
      cipher[n] := ciphertext[at + n];
    }
    assert cipher[0..0 + 8] == block;
    OwnDecrypt(cipher, 0, payload, to, key);
  }

  // The loop of decrypt_payload.
  method DecryptGroups(ciphertext: array<bv8>, at: nat, payload: array<bv8>, to: nat, key: bv64)
    requires at + 128 <= ciphertext.Length && to + 128 <= payload.Length && ciphertext != payload
    modifies payload
    ensures payload[to..to + 128] == DecryptedBlocks(old(ciphertext[at..at + 128]), key)
    ensures forall n :: 0 <= n < payload.Length && !(to <= n < to + 128) ==> payload[n] == old(payload[n])
  {
    hide Encrypted, Decrypted, EncryptedBlocks, DecryptedBlocks;
    ghost var region := ciphertext[at..at + 128];
    ghost var whole := DecryptedBlocks(region, key);
    for i := 0 to GROUPS
      invariant forall m :: 0 <= m < 8 * i ==> payload[to + m] == whole[m]
      invariant forall n :: 0 <= n < payload.Length && !(to <= n < to + 128) ==> payload[n] == old(payload[n])
    {
      var from, into := at + 8 * i, to + 8 * i;
      BlockOfRegion(ciphertext[..], at, i);
      BlockAt(region, key, i);
      DecryptGroup(ciphertext, from, payload, into, key);
      forall m | 8 * i <= m < 8 * i + 8 ensures payload[to + m] == whole[m] {
        var k := m - 8 * i;
        assert payload[into..into + 8][k] == Block(whole, i)[k];
      }
    }
  }

  /** decrypt_payload: a pointer is an array and an index into it. */
  method DecryptPayload(payload: array<bv8>, payloadAt: nat, userID: array<bv8>, userAt: nat,
                        ciphertext: array<bv8>, cipherAt: nat, table: array<bv64>)
    requires payloadAt + 128 <= payload.Length && userAt + 16 <= userID.Length && cipherAt + 128 <= ciphertext.Length
    requires TABLE_SIZE <= table.Length && ciphertext != payload
    modifies payload
    ensures payload[payloadAt..payloadAt + 128]
         == DecryptedBlocks(old(ciphertext[cipherAt..cipherAt + 128]), KeyFor(old(userID[userAt..userAt + 16]), table[..]))
    ensures forall n :: 0 <= n < payload.Length && !(payloadAt <= n < payloadAt + 128) ==> payload[n] == old(payload[n])
  {
    hide KeyIndex, DecryptedBlocks;
    var key := GetKeyFromUserID(userID, userAt, table);
    DecryptGroups(ciphertext, cipherAt, payload, payloadAt, key);
  }

  // ---------------------------------------------------------------- losing the end of the ciphertext

  lemma SameBlock(cipher: seq<bv8>, cipher': seq<bv8>, key: bv64, i: nat, words: nat)
    requires |cipher| == |cipher'| && |cipher| % 8 == 0 && 8 * i + 8 <= |cipher| && words <= 4
    requires cipher[..8 * i + 2 * words] == cipher'[..8 * i + 2 * words]
    ensures Block(DecryptedBlocks(cipher, key), i)[..2 * words] == Block(DecryptedBlocks(cipher', key), i)[..2 * words]
  {
    hide EncipheredBytes, DecipheredBytes, EncryptedBlocks, DecryptedBlocks, KeyBytes;
    BlockAt(cipher, key, i);
    BlockAt(cipher', key, i);
    var b, b', front := Block(cipher, i), Block(cipher', i), cipher[..8 * i + 2 * words];
    assert b[..2 * words] == front[8 * i..] == b'[..2 * words];
    DecipheredBytesFront(b, b', KeyBytes(key), words);
  }

  lemma ShorterPrefix(a: seq<bv8>, b: seq<bv8>, n: nat, k: nat)
    requires k <= n <= |a| == |b| && a[..n] == b[..n]
    ensures a[..k] == b[..k]
  {
    assert a[..n][..k] == a[..k] && b[..n][..k] == b[..k];
  }

  lemma InBlock(bytes: seq<bv8>, i: nat, words: nat, m: nat)
    requires 8 * i + 8 <= |bytes| && words <= 4 && 8 * i <= m < 8 * i + 2 * words
    ensures bytes[m] == Block(bytes, i)[..2 * words][m - 8 * i]
  {}

  lemma SameByte(cipher: seq<bv8>, cipher': seq<bv8>, key: bv64, n: nat, m: nat)
    requires |cipher| == |cipher'| && |cipher| % 8 == 0 && m < n
    requires n % 2 == 0 && n <= |cipher| && cipher[..n] == cipher'[..n]
    ensures DecryptedBlocks(cipher, key)[m] == DecryptedBlocks(cipher', key)[m]
  {
    hide Decrypted, DecryptedBlocks, Block;
    var i := m / 8;
    var words := if n - 8 * i >= 8 then 4 else (n - 8 * i) / 2;
    var k := 8 * i + 2 * words;
    ShorterPrefix(cipher, cipher', n, k);
    SameBlock(cipher, cipher', key, i, words);
    var d, d' := DecryptedBlocks(cipher, key), DecryptedBlocks(cipher', key);
    InBlock(d, i, words, m);
    InBlock(d', i, words, m);
  }

  /** Whatever happens to the ciphertext from an even byte n on, the first n bytes of the plaintext
      are the same: word i depends on the words i - 1 and i of the ciphertext only. */
  lemma LostTail(cipher: seq<bv8>, cipher': seq<bv8>, key: bv64, n: nat)
    requires |cipher| == |cipher'| && |cipher| % 8 == 0
    requires n % 2 == 0 && n <= |cipher| && cipher[..n] == cipher'[..n]
    ensures DecryptedBlocks(cipher, key)[..n] == DecryptedBlocks(cipher', key)[..n]
  {
    hide Decrypted, DecryptedBlocks;
    var d, d' := DecryptedBlocks(cipher, key), DecryptedBlocks(cipher', key);
    forall m: nat | m < n ensures d[m] == d'[m] {
      SameByte(cipher, cipher', key, n, m);
    }
  }

  // ---------------------------------------------------------------- from struct to struct

  // The user ID field, from which both sides take the key.
  function UserID(bytes: seq<bv8>): (id: seq<bv8>)
    requires |bytes| >= PAYLOAD_OFFSET
    ensures |id| == 16
  {
    bytes[ZERO_FILL_OFFSET..PAYLOAD_OFFSET]
  }

  function OnTheWire(plain: seq<bv8>, key: bv64): (wire: seq<bv8>)
    requires |plain| == BUFFER_SIZE
    ensures |wire| == PAYLOAD_SIZE
  {
    plain[..PAYLOAD_OFFSET] + EncryptedBlocks(plain[PAYLOAD_OFFSET..], key)[..124]
  }

  function OffTheWire(slot: seq<bv8>, key: bv64): (plain: seq<bv8>)
    requires |slot| == BUFFER_SIZE
    ensures |plain| == PAYLOAD_SIZE
  {
    slot[..PAYLOAD_OFFSET] + DecryptedBlocks(slot[PAYLOAD_OFFSET..], key)[..124]
  }

  /** The 146 bytes on the wire; `tail` is what the four bytes behind the packet in the client's
      buffer happened to hold. */
  function Sent(p: Packet, tail: seq<bv8>, table: seq<bv64>): (wire: seq<bv8>)
    requires p.Sized() && |tail| == 4 && TABLE_SIZE <= |table|
    ensures |wire| == PAYLOAD_SIZE
  {
    var plain := Serialized(p) + tail;
    OnTheWire(plain, KeyFor(UserID(plain), table))
  }

  /** The struct the worker reads from them; `tail` is what the ring slot held behind the packet. */
  function Received(wire: seq<bv8>, tail: seq<bv8>, table: seq<bv64>): (p: Packet)
    requires |wire| == PAYLOAD_SIZE && |tail| == 4 && TABLE_SIZE <= |table|
    ensures p.Sized()
  {
    Deserialized(OffTheWire(wire + tail, KeyFor(UserID(wire), table)))
  }

  /** What 146 bytes become on the wire: the first 22 stay, then come 15 blocks of eight bytes, each enciphered by
      itself. */
  lemma WireIs(b: seq<bv8>, tail: seq<bv8>, key: bv64, i: nat, block: seq<bv8>)
    requires |b| == 146 && |tail| == 4 && i < 15 && block == b[22 + 8 * i..30 + 8 * i]
    ensures OnTheWire(b + tail, key)[..22] == b[..22]
    ensures OnTheWire(b + tail, key)[22 + 8 * i..30 + 8 * i] == Encrypted(block, key)
  {
    hide EncryptedBlocks, Encrypted;
    var plain := b + tail;
    assert plain[..22] == b[..22];
    BlockAt(plain[22..], key, i);
    BlockOfWire(b, tail, i);
    BlockOfCipher(plain[..22], EncryptedBlocks(plain[22..], key), i);
  }

  /** The sixteenth block reaches four bytes beyond the packet; of its cipher the first half is sent. */
  lemma WireEndIs(b: seq<bv8>, tail: seq<bv8>, key: bv64, block: seq<bv8>)
    requires |b| == 146 && |tail| == 4 && |block| == 8 && block[..4] == b[142..] && block[4..] == tail
    ensures OnTheWire(b + tail, key)[142..146] == Encrypted(block, key)[..4]
  {
    hide EncryptedBlocks, Encrypted, Block;
    var plain := b + tail;
    EndBlock(b, tail, block);
    BlockAt(plain[22..], key, 15);
    BlockOfCipher(plain[..22], EncryptedBlocks(plain[22..], key), 0);
  }

  lemma EndBlock(b: seq<bv8>, tail: seq<bv8>, block: seq<bv8>)
    requires |b| == 146 && |tail| == 4 && |block| == 8 && block[..4] == b[142..] && block[4..] == tail
    ensures Block((b + tail)[22..], 15) == block
  {
    assert block == block[..4] + block[4..];
    SliceOfSlice(b + tail, 22, 150, 120, 128);
  }

  lemma BlockOfWire(b: seq<bv8>, tail: seq<bv8>, i: nat)
    requires |b| == 146 && |tail| == 4 && i < 15
    ensures Block((b + tail)[22..], i) == b[22 + 8 * i..30 + 8 * i]
  {
    var region, slice := (b + tail)[22..], b[22 + 8 * i..30 + 8 * i];
    forall n | 0 <= n < 8 ensures Block(region, i)[n] == slice[n] {
      var m := 8 * i + n;
      assert Block(region, i)[n] == region[m] == b[22 + m];
    }
  }

  lemma BlockOfCipher(front: seq<bv8>, cipher: seq<bv8>, i: nat)
    requires |front| == 22 && |cipher| == 128 && i < 15
    ensures var wire := front + cipher[..124];
            wire[22 + 8 * i..30 + 8 * i] == Block(cipher, i) && wire[142..146] == Block(cipher, 15)[..4]
  {
    var wire := front + cipher[..124];
    forall n | 0 <= n < 8 ensures wire[22 + 8 * i..30 + 8 * i][n] == Block(cipher, i)[n] {
      assert wire[22 + 8 * i..30 + 8 * i][n] == wire[22 + (8 * i + n)] == cipher[8 * i + n];
    }
  }

  /** The bytes are those of the packet, and the key is the table entry its bytes 6 to 21 choose. */
  lemma SentIs(p: Packet, tail: seq<bv8>, table: seq<bv64>)
    requires p.Sized() && |tail| == 4 && 16384 <= |table|
    ensures Sent(p, tail, table) == OnTheWire(Serialized(p) + tail, table[KeyIndex(Serialized(p)[6..22])])
  {
    hide KeyIndex, Serialized, OnTheWire;
    assert UserID(Serialized(p) + tail) == Serialized(p)[6..22];
  }

  /** Every packet arrives as it was, for every key table and although the last four bytes of the
      ciphertext are not sent and the receiver's last four are arbitrary. */
  lemma EndToEnd(p: Packet, tail: seq<bv8>, tail': seq<bv8>, table: seq<bv64>)
    requires p.Sized() && |tail| == |tail'| == 4 && TABLE_SIZE <= |table|
    ensures Received(Sent(p, tail, table), tail', table) == p
  {
    hide KeyFor, Serialized, Deserialized, EncryptedBlocks, DecryptedBlocks;
    var plain := Serialized(p) + tail;
    var key := KeyFor(UserID(plain), table);
    var region := plain[PAYLOAD_OFFSET..];
    var cipher := EncryptedBlocks(region, key);
    var wire := Sent(p, tail, table);
    assert wire == plain[..PAYLOAD_OFFSET] + cipher[..124];
    assert UserID(wire) == UserID(plain);
    var cipher' := (wire + tail')[PAYLOAD_OFFSET..];
    assert cipher'[..124] == cipher[..124];
    LostTail(cipher, cipher', key, 124);
    BlocksRoundTrip(region, key);
    assert (wire + tail')[..PAYLOAD_OFFSET] == wire[..PAYLOAD_OFFSET] == plain[..PAYLOAD_OFFSET];
    assert OffTheWire(wire + tail', key) == plain[..PAYLOAD_OFFSET] + region[..124];
    assert plain[..PAYLOAD_OFFSET] + region[..124] == Serialized(p);
    PacketRoundTrip(p);
  }

  // ---------------------------------------------------------------- the two ends

  /** The client's EPOLLOUT branch up to the write: client/client.c:279-286. The buffers come with
      arbitrary contents. */
  method SendPacket(payload: Packet, payloadBuf: array<bv8>, payloadCipher: array<bv8>, table: array<bv64>) returns (count: nat)
    requires payload.Sized() && payloadBuf.Length == payloadCipher.Length == BUFFER_SIZE
    requires payloadBuf != payloadCipher && TABLE_SIZE <= table.Length
    modifies payloadBuf, payloadCipher
    ensures count == PAYLOAD_SIZE
    ensures payloadCipher[..count] == Sent(payload, old(payloadBuf[PAYLOAD_SIZE..]), table[..])
  {
    hide KeyFor, Serialized, EncryptedBlocks;
    ghost var tail := payloadBuf[PAYLOAD_SIZE..];
    count := SerializePayload(payloadBuf, payload);
    ghost var plain := payloadBuf[..];
    assert plain == Serialized(payload) + tail;
    for n := 0 to PAYLOAD_OFFSET
      modifies payloadCipher
      invariant forall m :: 0 <= m < n ==> payloadCipher[m] == plain[m]
    {
      payloadCipher[n] := payloadBuf[n];
    }
    assert payloadBuf[..] == plain;
    assert payloadBuf[22..150] == plain[22..] && payloadBuf[6..22] == UserID(plain);
    ghost var key := KeyFor(UserID(plain), table[..]);
    EncryptPayload(payloadBuf, PAYLOAD_OFFSET, payloadBuf, ZERO_FILL_OFFSET, payloadCipher, PAYLOAD_OFFSET, table);
    ghost var cipher := payloadCipher[22..150];
    assert cipher == EncryptedBlocks(plain[PAYLOAD_OFFSET..], key);
    assert payloadCipher[..22] == plain[..22];
    assert payloadCipher[..146] == payloadCipher[..22] + cipher[..124];
    assert payloadCipher[..146] == OnTheWire(plain, key);
    assert payloadCipher[..count] == Sent(payload, tail, table[..]);
  }

  /** The worker's branch from the slot to the struct, which holds `before`: server/server.c:424-429. */
  method ReceivePacket(slot: array<bv8>, bufPlain: array<bv8>, table: array<bv64>, before: Packet) returns (payload: Packet)
    requires slot.Length >= BUFFER_SIZE && bufPlain.Length == BUFFER_SIZE && slot != bufPlain && TABLE_SIZE <= table.Length
    modifies bufPlain
    ensures payload == Received(slot[..PAYLOAD_SIZE], slot[PAYLOAD_SIZE..BUFFER_SIZE], table[..])
  {
    hide KeyFor, Deserialized, DecryptedBlocks;
    ghost var wire, tail := slot[..PAYLOAD_SIZE], slot[PAYLOAD_SIZE..BUFFER_SIZE];
    for n := 0 to PAYLOAD_OFFSET
      modifies bufPlain
      invariant forall m :: 0 <= m < n ==> bufPlain[m] == wire[m]
    {
      bufPlain[n] := slot[n];
    }
    ghost var whole := wire + tail;
    assert slot[22..150] == whole[22..];
    assert bufPlain[6..22] == UserID(wire);
    ghost var key := KeyFor(UserID(wire), table[..]);
    DecryptPayload(bufPlain, PAYLOAD_OFFSET, bufPlain, ZERO_FILL_OFFSET, slot, PAYLOAD_OFFSET, table);
    ghost var plain := bufPlain[22..150];
    assert plain == DecryptedBlocks(whole[PAYLOAD_OFFSET..], key);
    assert bufPlain[..22] == wire[..22] == whole[..22];
    assert bufPlain[..146] == bufPlain[..22] + plain[..124];
    assert bufPlain[..146] == OffTheWire(whole, key);
    payload := DeserializePayload(bufPlain, before);
  }
}
