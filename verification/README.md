# DaBao, modelled and proved

DaBao is a traffic generator (`client/`) that keeps millions of connections open and sends one packet
over each in every epoch, and a server (`server/`) that takes the packets through rings to worker
threads, which decipher them and keep records in a sharded Redis store. This project models the
algorithms under the sockets and proves what they are for. `dafny verify dfyconfig.toml` checks it.

| module | models |
|---|---|
| `Fips46`, `DesTables`, `SBoxes`, `Des` | `client/DES/des.c`: the bit-level Data Encryption Standard (FIPS 46-3, "Enciphering", "Deciphering", "The Cipher Function f" and Appendix 1) and the byte code proved to compute it |
| `WordCipher`, `ClientCipher`, `ServerCipher`, `CipherBits` | the block cipher of the packets on 16-bit words, and its two implementations, `client/DES/cipher.c` and `server/cipher.c`, both proved to compute it |
| `KeyTable`, `LongBits`, `Powers`, `Period` | the generator of the key table, its period, and the choice of a key by user ID |
| `Serialize`, `PacketPath` | a packet from the client's struct to the worker's |
| `Ring` | the ring between the epoll thread and a worker, and every interleaving of the two |
| `Crc16`, `Routing` | the checksum as a polynomial remainder, the slots it selects, and the shards as one map |
| `Connections`, `Shuffle` | closing and restoring connections through a shuffled map |
| `Pacing`, `SendSpacing` | when a descriptor may send, and what that means over a run |
| `Bits`, `Numbers`, `Wrappers` | bit strings, remainders, C integers, missing values |

How C is read. A pointer into a buffer is an array and an index. `long long` is a 64-bit vector, so that
negative numbers and wrap-around are there; `int` and `unsigned int` are numbers cut to 32 bits by `Int32`
and `Unsigned`; division truncates. Reading a `long long` or `int` out of bytes assumes a little-endian
machine. Clock readings, random numbers and scheduling are arguments.

Where the code does less than it seems to, the exact condition is proved, for all inputs:

- `generate_sub_keys` only ORs into the subkeys. The table is right exactly when every bit already there
  belongs to the new subkey (`Des.SubkeysRightIff`); zeroed entries are one such case.
- `client/serialize.c:60-63` fills `srcDeviceID` twice (`Serialize.ClientRoundTripIff`).
- A packet has 146 bytes but the cipher works on 22 + 128: it reads and writes four bytes past the packet on
  both sides. The buffers here have 150 bytes with anything in the last four, and the packet still arrives.
- The waits at `server/server.c:378` and `server/server.c:419` stand under `if`. The safety theorem is about
  waiting until the guard holds. Under `if`, a wake-up is harmless exactly when it finds its guard true
  (`Ring.WakeIsSafeIff`), and signalling after the unlock lets a late signal wake a thread whose guard is
  false, in every ring of two slots or more (`Ring.StaleSignal`). Even threads that recheck can both fall
  asleep, when a signal falls between a test and the sleep after it (`Ring.LostSignal`), and only
  then (`Ring.NotBothAsleep`); they then sleep for ever unless one wakes without a signal
  (`Ring.AsleepForEver`). Such wake-ups do no harm to threads that recheck, but under `if` the first one
  makes the worker take a packet nobody put in (`Ring.SpuriousWake`). The mutex is left out of the interleavings. The worker holds it only after
  `pthread_cond_wait` returns at line 420, the one producer competes with nobody else for it, and leaving it
  out only adds runs; the runs shown to fail do not wake the worker before their last steps.
- A descriptor that is a closed connection must not be added, registered or deleted, or the counters stop
  counting (`Connections.StepKeepsIff`); a hang-up during a close does that (`Connections.HangUpMiscounts`).
  Restoring divides by the number of connections and by the interval: it returns exactly when nothing is to be
  restored or neither is zero (`Connections.RestoreExact`), and a descriptor that was registered but never
  added reaches the zero (`Connections.RestoreDivides`). `restoreConnection` falls off its end for an open
  connection; 0 here.
- Shuffling always permutes, and in terms of the indices drawn every permutation is reached in one way. In
  terms of `rand()` it is not: of the 4,000,000 entries the last 961 never come first
  (`Shuffle.ReachableIff`, `Shuffle.NotEveryPosition`).
- The interval is the quotient it stands for exactly when the epoch is at most 2147 seconds and the interval
  fits into an int, or the burst is zero; it can be divided by exactly if in addition there is a microsecond for
  every connection and the burst is not zero (`Pacing.IntervalRightIff`). `client/client_config.c:48` scales the
  burst down to zero for few connections; the interval is then zero and `setVirtualEventTime` divides by it.
- A descriptor is put at the last multiple of the interval before it is due exactly when fd * (epoch / total)
  fits into an int (`Pacing.OffsetRightIff`), and inside the epoch exactly when it is due before the first
  multiple from the epoch's end on (`Pacing.OffsetInsideIff`). Descriptors are sockets and start above zero, so
  the last ones can come an epoch late (`Pacing.DescriptorTotalIsLate`).
- GET in `queryDatabase` takes a stored "nil" for an absent key (`Routing.GetKeepsIff`).
- `README.md` of the repository promises one packet per epoch. The code rounds the time of a send down to a
  multiple of the interval within the second, so the next TRUE keeps the epoch exactly when nothing is lost by
  that, or when there is none because the epoch is past 2147 seconds (`Pacing.EpochKeptIff`). Sends come closer
  by less than an interval and less than a second, and that distance is attained (`SendSpacing.ClosestSends`).
- Every connection starts outside the states from which sends are spaced and requests answered. The descriptor
  is not yet in the epoll set, so the first TRUE of `canSendPkt` takes the way through `addEpollEvent`, which
  frees the flag again, and a second request can go out before the first is answered, or two packets at once
  (`SendSpacing.FirstPacketsUnanswered`, `SendSpacing.FirstPacketsTogether`). The states from which all calm runs
  are right are exactly those of `SendSpacing.SafeStart` (`SendSpacing.SafeStartIff`); a connection settles with
  its first packet, or with the reply to it if that comes before the next TRUE (`SendSpacing.Settles`).
- A run is calm if `canSendPkt` is not TRUE between `resetSendPkt` at `client/client.c:306` and
  `setEventSendTime` at line 308. There the flag is free and the time is still that of the send before, so the
  update thread can arm the descriptor for a second packet at once (`SendSpacing.SecondPacketAtOnce`). Over all
  runs, calm or not, sends are spaced and requests answered exactly where not more than the packet on its way
  can ever be sent (`SendSpacing.EveryRunIff`).
- A write that is interrupted is neither repeated nor given up: `client/client.c:291` leaves the flag taken and
  nothing armed, so that descriptor never sends again (`SendSpacing.InterruptedForEver`).

## Model

| member | source | states |
|---|---|---|
| Fips46.FinalUndoesInitial | client/DES/des.c:16-23 | the final permutation is the inverse of the initial one, on both sides |
| Fips46.RoundsReversed | client/DES/des.c:273-407 | rounds with reversed keys on the exchanged halves lead back, for any number of rounds and any keys |
| Fips46.DecipherUndoesEncipher | client/DES/des.c:246-423 | deciphering and enciphering are inverse, for arbitrary subkeys |
| Fips46.RotatedIsOneRotation | client/DES/des.c:180-227 | after i iterations a register is the first one rotated by the sum of the shifts so far |
| Fips46.RegistersReturn | client/DES/des.c:25 | sixteen iterations bring a register back |
| Fips46.TwoSubkeysDetermine | client/DES/des.c:229-242 | two subkeys fix all 56 bits of the registers |
| Fips46.ScheduleIgnoresExactlyParity | client/DES/des.c:148-244 | two keys have the same schedule if and only if they differ in parity bits only |
| Fips46.CipherFunctionNot | client/DES/des.c:276-397 | complementing half and subkey cancels before the S-boxes |
| Fips46.KeyScheduleNot | client/DES/des.c:148-244 | the schedule commutes with the complement |
| Fips46.Complementation | client/DES/des.c:148-423 | complemented block under complemented key gives the complemented ciphertext |
| SBoxes.SBoxIs | client/DES/des.c:45-83 | the entries of the S-boxes are the hexadecimal digits of their rows |
| SBoxes.OneBitChangesTwo | client/DES/des.c:297-384 | one input bit of an S-box turned over changes at least two of its four output bits |
| SBoxes.RowsPermute | client/DES/des.c:45-83 | every row of an S-box is a permutation of 0 to 15 |
| SBoxes.TablesAre | client/DES/des.c:7-43 | IP, E, PC-1 and the shifts in closed form |
| SBoxes.PlacesDistinct | client/DES/des.c:27-92 | P is a permutation, PC-2 takes 48 different bits and leaves eight out |
| Des.OrPermuted | client/DES/des.c:255-262 | the bit loop ORs the permuted source onto the target, bit by bit, and clears nothing |
| Des.Substitute | client/DES/des.c:297-384 | the masks and shifts cut out the eight groups, every index is below 64, and the four bytes are the standard's S-box outputs |
| Des.RoundStep | client/DES/des.c:274-406 | the bytes of one pass are one round of the standard: (R, L xor f(R, K)) |
| Des.RunRounds | client/DES/des.c:273-407 | sixteen passes are the rounds of the standard, with the keys backwards in decryption mode |
| Des.ProcessMessage | client/DES/des.c:246-423 | the output buffer holds the standard's cipher, or decipher, of the message |
| Des.DecryptionUndoesEncryption | client/DES/des.c:246-423 | decryption mode undoes the other mode for every eight bytes and arbitrary subkeys, both ways |
| Des.SplitRegisters | client/DES/des.c:166-177 | C0 and D0 are cut out with the low nibble of byte 3 zero |
| Des.ShiftRegister | client/DES/des.c:193-209 | the byte shifts rotate the 28-bit register left and keep the low nibble zero |
| Des.OrSubkey | client/DES/des.c:229-242 | PC-2 of the registers is ORed onto k |
| Des.GenerateSubKeys | client/DES/des.c:148-244 | every entry holds the registers of its iteration and its subkey ORed onto the old k |
| Des.SubkeysRightIff | client/DES/des.c:229-242 | the generated table is the schedule if and only if no stray bit was in the entries |
| Des.ZeroedTableIsRight | client/DES/des.c:148-244 | with zeroed entries it is the schedule |
| Des.RegistersComeBack | client/DES/des.c:180-227 | the register bytes of entry 16 are those of entry 0 |
| Des.ComplementedBytes | client/DES/des.c:148-423 | the complement property on the bytes of process_message |
| WordCipher.RightIsLeft | server/cipher.h:14-15 | turning right by n is turning left by 16 - n |
| WordCipher.BlockRoundTrip | client/DES/cipher.c:195-261 | the chained cipher and its inverse cancel in both orders, for any number of words and any key |
| WordCipher.DecipheredAt | client/DES/cipher.c:248-261 | plaintext word i depends on ciphertext words i - 1 and i alone |
| WordCipher.BytesRoundTrip | server/cipher.c:70-109 | the same on bytes, both orders |
| WordCipher.DecipheredBytesFront | client/DES/cipher.c:220-270 | a front of the plaintext needs only that front of the ciphertext |
| CipherBits.EnciphersBits | client/DES/cipher.c:195-208 | the cipher bit by bit for all blocks and keys: bit j of ciphertext word i is bit s of plaintext word i, plus bit s of the ciphertext word before or of 0x1234, plus bit j of key word i, with s as many places back in the circle of 16 as key word i has ones |
| CipherBits.UnderKeyZero | client/DES/cipher.c:195-208 | under key 0 each ciphertext word is the sum of 0x1234 and the plaintext words so far |
| CipherBits.ZerosUnderKeyZero | server/cipher.c:70-85 | the zero block under key 0 gives 34 12 34 12 34 12 34 12 |
| CipherBits.KeyBytesAre | client/DES/cipher.c:173-183 | the key's bytes are its bits, eight by eight from the lowest |
| ClientCipher.CalNonzeroBits | client/DES/cipher.c:151-165 | the number of ones, for every C int; 0 for a negative one |
| ClientCipher.FoldedShl | client/DES/cipher.c:195-209 | the 32-bit shift folded onto 16 bits is a rotation, popcounts 0 and 16 included |
| ClientCipher.FoldedShr | client/DES/cipher.c:253-261 | so is the shift right of the raised word |
| ClientCipher.WordsFit | client/DES/cipher.c:195-261 | every intermediate word is the zero-extended 16-bit word of the cipher, for both directions |
| ClientCipher.PackedBytes | client/DES/cipher.c:211-216 | joining four words and writing eight characters loses nothing, whatever the sign |
| ClientCipher.Longlong2Char | client/DES/cipher.c:141-149 | eight characters are written and nothing else |
| ClientCipher.KeyBytesInMemory | client/DES/cipher.c:141-183 | the bytes of the four key words are the bytes longlong2char writes for the key |
| ClientCipher.OwnEncrypt | client/DES/cipher.c:167-218 | own_encrypt computes the common cipher with the key's little-endian bytes |
| ClientCipher.OwnDecrypt | client/DES/cipher.c:220-270 | own_decrypt computes its inverse |
| ClientCipher.OwnRoundTrip | client/DES/cipher.c:167-270 | the two are mutual inverses for every block and every 64-bit key |
| ServerCipher.PopCountIsBitSum | server/cipher.c:4-27 | counting by halving and counting by testing bits agree |
| ServerCipher.GetCounter | server/cipher.c:4-33 | the mask scan counts what cal_nonzero_bits counts |
| ServerCipher.RotateLeftIs | server/cipher.h:14 | ROTATE_LEFT is the rotation, for all amounts 0 to 16 |
| ServerCipher.RotateRightIs | server/cipher.h:15 | ROTATE_RIGHT is its inverse rotation |
| ServerCipher.Encipher | server/cipher.c:70-85 | encipher computes the same function of block and key bytes as own_encrypt, also in place |
| ServerCipher.Decipher | server/cipher.c:88-109 | decipher computes the same function as own_decrypt, and writes the terminator |
| ServerCipher.EncipherBoth | server/cipher.c:70-85 | encipher under the key's bytes and own_encrypt under the key give the same eight bytes for every block and key |
| ServerCipher.DecipherBoth | server/cipher.c:88-109 | so do decipher and own_decrypt |
| KeyTable.NumberRoundTrip | client/DES/cipher.c:30-47 | bits2longlong undoes longlong2bits on every number, also a negative one |
| KeyTable.BitsRoundTrip | client/DES/cipher.c:30-47 | and the other way round, for up to 64 bits |
| KeyTable.Longlong2Bits | client/DES/cipher.c:30-38 | the low bits as characters, lowest first |
| KeyTable.Bits2Longlong | client/DES/cipher.c:40-47 | the number of the bits read downwards from place 63 |
| KeyTable.NxtBits | client/DES/cipher.c:49-73 | the character array form is multiplication by x in each half |
| KeyTable.NxtValue | client/DES/cipher.c:75-83 | through the arrays, the next value |
| KeyTable.NextValueSteps | client/DES/cipher.c:75-83 | each 32-bit half is multiplied by x modulo x^32 + x^7 + x^6 + x^2 + 1 |
| KeyTable.NextValueInvertible | client/DES/cipher.c:75-83 | the step is a bijection on 64-bit numbers |
| LongBits.NextValueIs | client/DES/cipher.c:49-83 | on arrays of characters or not, a step is one shift of both halves with 0xC5 added to each whose top bit falls off |
| LongBits.FirstValues | client/DES/payload_cipher.c:5-10 | the first four keys of the table, written out |
| KeyTable.DesKeyInit | client/DES/cipher.c:85-98 | entry i is the i-th iterate of the seed, nothing else is written |
| KeyTable.HalvesStayNonzero | client/DES/cipher.c:85-98 | from a seed with two nonzero halves every entry has two nonzero halves |
| KeyTable.SeedIsNonzero | client/DES/payload_cipher.c:5-10 | the seed in use is such a seed |
| KeyTable.EqualEntriesRepeatSeed | client/DES/cipher.c:85-98 | equal entries i < j force entry j - i to be the seed |
| Powers.PowerSquare | client/DES/cipher.c:49-73 | twice as many steps from 1 give the square, modulo the same polynomial |
| Powers.PowerWhole | client/DES/cipher.c:49-73 | x^(2^32 - 1) = 1, computed |
| Powers.PowerThird | client/DES/cipher.c:49-73 | a third of that exponent gives another power; likewise for the other four prime factors |
| Period.OneReturnsIff | client/DES/cipher.c:49-73 | n steps lead from 1 back to 1 if and only if 2^32 - 1 divides n |
| Period.EveryRegisterIsAPower | client/DES/cipher.c:49-73 | every register but zero is reached from 1 |
| Period.RegisterReturnsIff | client/DES/cipher.c:49-73 | n steps lead from any register but zero back to it if and only if 2^32 - 1 divides n |
| Period.ValuesRepeatIff | client/DES/cipher.c:75-98 | two values from a seed are equal if and only if the seed is 0 or their distance is a multiple of 2^32 - 1 |
| Period.KeysDistinct | client/DES/payload_cipher.c:5-10 | the first 2^32 - 1 values from any seed but 0 are pairwise different |
| Period.InitKeyTable | client/DES/payload_cipher.c:5-10 | the table holds the first 16384 iterates of the seed in use, the first three written out, no key twice |
| KeyTable.GetKeyFromUserID | client/DES/cipher.c:103-139 | the key is the entry at the folded user ID |
| LongBits.KeyIndexBit | client/DES/cipher.c:110-135 | bit j of the place in the table is the sum modulo 2 of the bits j, 14 + j, 28 + j and 42 + j of the bytes 15 down to 8 and of the bytes 8 down to 1 |
| LongBits.EveryIndexReached | client/DES/cipher.c:135 | every one of the 16384 places is chosen by some user ID |
| KeyTable.KeyIgnoresFirstTwo | client/DES/cipher.c:100-139 | bytes 0 and 1 of the user ID have no influence, as the comment there says |
| Serialize.SerializeNumber | server/socket_tools.c:3-31 | big-endian bytes, the rest of the buffer untouched |
| Serialize.DeserializeNumber | server/socket_tools.c:48-76 | the number of big-endian bytes |
| Serialize.WidthsRoundTrip | server/socket_tools.c:3-76 | numbers of 2, 4 and 8 bytes survive the trip |
| Serialize.WidthBytesRoundTrip | server/socket_tools.c:3-76 | so do 2, 4 and 8 bytes |
| Serialize.SerializePayload | server/serialize.c:4-31 | the 146 bytes of the packet, nothing behind them |
| Serialize.DeserializePayload | server/serialize.c:34-72 | the packet at the offsets the pointer reaches |
| Serialize.PacketRoundTrip | server/serialize.c:4-72 | deserializing a serialized packet gives the packet |
| Serialize.WireLayout | server/serialize.c:3-32 | which bytes hold which field, every number in network order |
| Serialize.BytesOfPacketRoundTrip | server/serialize.c:4-72 | serializing deserialized bytes gives the bytes |
| Serialize.ClientDeserializePayload | client/serialize.c:34-72 | the walk that reads srcDeviceID twice, into the caller's struct |
| Serialize.ClientRoundTripIff | client/serialize.c:34-72 | the client's decoder recovers a packet if and only if its two device IDs are equal and the caller's struct already held the second |
| PacketPath.BlockAt | client/DES/payload_cipher.c:24-48 | block i of the result is the cipher of block i |
| PacketPath.BlocksRoundTrip | client/DES/payload_cipher.c:24-48 | deciphering the blocks undoes enciphering them |
| PacketPath.EncryptPayload | client/DES/payload_cipher.c:24-35 | sixteen enciphered blocks under the user's key, nothing else written |
| PacketPath.DecryptPayload | client/DES/payload_cipher.c:37-48 | sixteen deciphered blocks |
| PacketPath.LostTail | client/DES/payload_cipher.c:37-48 | whatever happens to the ciphertext from an even byte n on, the first n plaintext bytes stay |
| PacketPath.WireIs | client/DES/payload_cipher.c:24-35 | the first 22 bytes go in the clear, then 15 blocks enciphered one by one |
| PacketPath.WireEndIs | client/DES/payload_cipher.c:24-35 | of the sixteenth block, four bytes of which lie beyond the packet, half the cipher is sent |
| PacketPath.SentIs | client/client.c:279-286 | that is done to the packet's bytes, under the table entry that bytes 6 to 21 choose |
| PacketPath.SendPacket | client/client.c:279-286 | what goes on the wire, as a function of the struct, the leftover bytes and the key table |
| PacketPath.ReceivePacket | server/server.c:424-429 | what the worker reads, as a function of the wire, the slot's leftover bytes and the key table |
| PacketPath.EndToEnd | client/client.c:279-286 | every packet arrives as it was, although four ciphertext bytes are lost and replaced by anything |
| Ring.MaskIsMod | server/ring.h:39-52 | masking with RING_SIZE - 1 is the remainder, for every power of two |
| Ring.UsedIsDistance | server/ring.h:49-52 | the masked difference of two indices is the distance of the positions they stand for |
| Ring.RingBuffer.Push | server/ring.h:39-42 | the head slot joins the contents; in a full ring everything is lost |
| Ring.RingBuffer.Pop | server/ring.h:44-47 | the oldest packet leaves; an empty ring then counts all slots but one |
| Ring.RingBuffer.Count | server/ring.h:49-57 | used is the number of packets, used and avail add up to the size |
| Ring.ProducerKeeps | server/server.c:378-388 | every producer step keeps the invariant |
| Ring.ConsumerKeeps | server/server.c:418-440 | every consumer step keeps it |
| Ring.EveryRunIsSafe | server/server.c:374-440 | in every interleaving of threads that recheck their guards, whether or not signals are lost or threads wake without one, the packets taken are a prefix of those put, in order, the rest is in the ring, and at most RING_SIZE - 1 are |
| Ring.SlotBeingReadStays | server/server.c:422-434 | the slot the consumer reads does not change before its pop, whoever moves |
| Ring.WakeIsSafeIff | server/server.c:378-380 | without rechecking, a woken thread stays safe if and only if its guard is true |
| Ring.StaleSignal | server/server.c:417-435 | a run with a late signal in which the consumer takes a packet nobody put |
| Ring.SpuriousWake | server/server.c:418-420 | the same with a wake-up without a signal, from the start and in every ring |
| Ring.NotBothAsleep | server/server.c:378-436 | rechecking threads never both wait if no signal falls between a test and its sleep |
| Ring.AtomicNotBothAsleep | server/server.c:378-436 | so never if test and sleep are one step |
| Ring.LostSignal | server/server.c:378-436 | otherwise a run exists, in every ring of two slots or more, after which both wait |
| Ring.AsleepForEver | server/server.c:378-436 | and then they wait for ever, as long as none wakes without a signal |
| Crc16.TableIsEightSteps | server/redis/crc16.c:47-80 | each of the 256 entries is its index carried through eight steps of division by 0x1021 |
| Crc16.RemainderUnique | server/redis/crc16.c:82-88 | a remainder of degree below 16 is unique |
| Crc16.CrcIsRemainder | server/redis/crc16.c:82-88 | the checksum is the remainder of the message times x^16, and no other value is |
| Crc16.CheckValue | server/redis/crc16.c:82-88 | the checksum of "123456789" is 0x31C3 |
| Crc16.Crc16 | server/redis/crc16.c:82-88 | the table loop returns that remainder |
| Crc16.CrcLinear | server/redis/crc16.c:82-88 | it is linear under xor of strings of one length |
| Crc16.AppendedChecksum | server/redis/crc16.c:82-88 | two appended bytes give checksum zero if and only if they are the checksum, high byte first |
| Crc16.EveryChecksum | server/redis/crc16.c:82-88 | whatever a message is, two more bytes can give it any checksum |
| Routing.ComposedInjective | server/redis/connect.c:128-134 | composed keys are equal if and only if database and key are |
| Routing.DecimalIsNotNil | server/server.c:207-217 | no number is stored as "nil" |
| Routing.DecimalRead | server/server.c:210-213 | `%d` prints a minus sign for a negative number, then digits without a leading zero that read back as its amount |
| Routing.SlotIsRemainder | server/redis/connect.c:84 | the slot of a key is the remainder of its bits times x^16 by the polynomial, as a number, modulo 16384 |
| Routing.EverySlotReached | server/redis/connect.c:84 | every one of the 16384 slots is reached, whatever a key starts with |
| Routing.SlotOfUserTwo | server/redis/connect.c:128-134 | user 2 in database 1: the composed key and its slot, 11565 |
| Routing.AssignedIff | server/redis/connect.c:357-380 | every slot leads to the one node that answers for it if and only if the ranges are disjoint and cover 0..16383 |
| Routing.LastOwnerIs | server/redis/connect.c:357-380 | a slot is led to the last node whose range, both ends included, has it, and keeps its entry if there is none |
| Routing.Cluster.AssignSlot | server/redis/connect.c:357-380 | a slot gets the last node whose range holds it, or keeps its entry |
| Routing.PutView | server/redis/connect.c:81-134 | storing under a composed key changes the one map at one place |
| Routing.Cluster.SetWithdb | server/redis/connect.c:81-134 | set updates that place, or returns -1 and changes nothing without a connection |
| Routing.Cluster.GetWithdb | server/redis/connect.c:140-202 | get returns what the map holds, "nil" if nothing, or -1 |
| Routing.Cluster.QueryDatabase | server/server.c:183-204 | GET is get-or-create, SET sets, a failing set goes unnoticed |
| Routing.Cluster.ProcessDatabase | server/server.c:207-217 | the three queries of a packet, with four of its fields printed as signed numbers, on the one map, each dropped if its node is not connected |
| Routing.FieldsOnWire | server/server.c:210-213 | the database sees the bytes 8 to 15 and 47 to 50 as three signed numbers, and byte 79 |
| Routing.DatabaseAfterRun | server/server.c:207-217 | over any run of packets, from any contents, where the node can be reached a user keeps its first device in database 1 and has its last state in 3, a session key keeps its first device in 2, and elsewhere what is stored stays |
| Connections.StepKeepsIff | client/epoll.c:16-57 | adding, registering and deleting keep the counters right if and only if the descriptor is not a closed connection |
| Connections.LiveFromCounts | client/epoll.c:218-222 | the live connections met from an index on are the live places of the map from there |
| Connections.CloseExact | client/epoll.c:211-227 | closing n closes min(n, live ones in the rest of the map) and the counters follow |
| Connections.RestoreExact | client/epoll.c:231-251 | the call returns if and only if nothing is to be restored or connections and interval are not zero; then it restores min(n, closed ones) with new times, the forced zero was zero, and an early exit leaves none closed |
| Connections.CloseThenRestore | client/epoll.c:211-251 | closing n and restoring n gives back every flag, owner and counter, sets new times for those closed, and returns n minus those closed; it returns under that same condition |
| Connections.RestoreDivides | client/epoll.c:231-251 | a registered descriptor that was never added leads to the division by zero |
| Connections.HangUpMiscounts | client/client.c:269-274 | deleting a connection while it is closed leaves the counters wrong |
| Connections.RunFromStart | client/epoll.c:16-251 | over all runs active + dead = connections and dead counts the closed connections still owned |
| Connections.EpollTable.CloseConnection | client/epoll.c:181-194 | 1 and closed exactly for a live connection of efd |
| Connections.EpollTable.RestoreConnection | client/epoll.c:197-208 | 1 and restored exactly for a closed connection of efd |
| Connections.EpollTable.CloseConnections | client/epoll.c:211-227 | the walk from entry 1 of the map |
| Connections.EpollTable.RestoreConnections | client/epoll.c:231-251 | the walk from entry 0 with its schedule of each restored descriptor, the number left over, and whether it ended in a division by zero |
| Connections.EpollTable.AddEpollEvent | client/epoll.c:16-32 | the entry and the two counters |
| Connections.EpollTable.DeleteEpollEvent | client/epoll.c:48-57 | the entry and the two counters |
| Shuffle.DrawnInRange | client/utils.c:12 | the index stays in [i, size) for every value of rand(), at the last place in spite of the overflow |
| Shuffle.ReachableIff | client/utils.c:12 | place k of n can be drawn if and only if k * (RAND_MAX / n + 1) is at most RAND_MAX |
| Shuffle.NotEveryPosition | client/epoll.c:69 | of 4,000,000 entries the last 961 are never drawn first |
| Shuffle.ShuffledMultiset | client/utils.c:7-18 | the shuffle permutes |
| Shuffle.ExactlyOneSequence | client/utils.c:7-18 | a sequence of choices leads to a given permutation if and only if it is the one found by search |
| Shuffle.Shuffer | client/utils.c:7-18 | the swaps in place are the shuffle with the choices drawn, nothing beyond size changes |
| Shuffle.InitConnsMap | client/epoll.c:65-69 | the map is a bijection whatever rand() returns |
| Pacing.OffsetRightIff | client/epoll.c:133-134 | for any descriptor, total and interval the offset is the last multiple of the interval before the descriptor is due if and only if that time fits into an int |
| Pacing.OffsetInsideIff | client/epoll.c:133-134 | it lies inside the epoch if and only if the descriptor is due before the first multiple from the epoch's end on |
| Pacing.OffsetIsSlot | client/epoll.c:133-134 | with the configured connections as total, the offset of fd is (fd / burst) * interval, and inside the epoch for fd below total |
| Pacing.DescriptorTotalIsLate | client/epoll.c:133-134 | with burst 1 and an even share the descriptor `total` lands exactly one epoch late |
| Pacing.IntervalRightIff | client/client_config.c:50 | the interval is the quotient it stands for if and only if the epoch is at most 2147 and the interval fits, or the burst is 0; it is positive too exactly in the sound configurations |
| Pacing.EpochOverflows | client/client_config.c:50 | for every epoch from 2148 seconds on and every burst but 0 the interval is wrong |
| Pacing.SameSlotIff | client/epoll.c:133-134 | two descriptors whose times fit share an offset if and only if they are in the same burst; a burst is burst consecutive ones |
| Pacing.VirtualTimeIs | client/epoll.c:127-141 | seconds and microseconds are normalized and add up to start minus delay plus the last multiple of the interval before the descriptor is due, for any total and interval |
| Pacing.EpochHasPassed | client/epoll.c:121-124 | a difference cut to 32 bits never reports an epoch that has not passed |
| Pacing.ReadyIff | client/epoll.c:151-164 | canSendPkt is TRUE if and only if the descriptor is free and open and the time since its virtual time, on a clock face of 2^32 microseconds, is at least the epoch and less than 2^31 |
| Pacing.ReadyAfterEpochIff | client/epoll.c:158 | as long as the difference fits, that is an epoch or more after the virtual time |
| Pacing.EpochKeptIff | client/epoll.c:98-105 | after a send every later TRUE comes a whole epoch later if and only if its microseconds are a multiple of the interval, or no TRUE comes |
| Pacing.PacketTimes.SetEventSendTime | client/epoll.c:90-106 | given time, or the clock rounded down to the interval |
| Pacing.PacketTimes.SetVirtualEventTime | client/epoll.c:127-141 | all three times become the virtual time |
| Pacing.PacketTimes.CanSendPkt | client/epoll.c:151-164 | TRUE exactly when free, open and at least an epoch after the virtual time, as long as the difference fits; it takes the flag |
| SendSpacing.StepKeeps | client/client.c:274-329 | every event but a TRUE between resetSendPkt and setEventSendTime keeps the spacing invariant, the fallback to addEpollEvent included |
| SendSpacing.SpacedAndAnswered | client/client.c:274-329 | from a safe start, in every calm run any two sends are more than an epoch less one interval, or less one second, apart, and a request is answered before the next send |
| SendSpacing.NothingWhileAwaiting | client/client.c:396-410 | from a safe start, in calm runs, while a request is unanswered canSendPkt is FALSE at any time and no EPOLLOUT is on its way |
| SendSpacing.SafeStartIff | client/epoll.c:35-46 | all calm runs from a state are spaced and answered if and only if it is a safe start |
| SendSpacing.FirstPacketsUnanswered | client/epoll.c:16-46 | from where every connection starts, a run with two requests and no reply between them |
| SendSpacing.FirstPacketsTogether | client/epoll.c:16-46 | and one with two packets at the same time |
| SendSpacing.Settles | client/client.c:274-329 | whatever the flag was, every calm run from the first packet on, or from the reply to it, is spaced and answered, the first packet included |
| SendSpacing.SecondPacketAtOnce | client/client.c:305-308 | a TRUE between resetSendPkt and setEventSendTime lets two packets go at one time |
| SendSpacing.EveryRunIff | client/client.c:305-308 | all runs from a state, calm or not, are spaced and answered if and only if at most one EPOLLOUT is on its way and no TRUE can ever come |
| SendSpacing.ClosedSendsNoMore | client/epoll.c:181-194 | after closeConnection no packet goes out but the one on its way |
| SendSpacing.InterruptedForEver | client/client.c:290-295 | after an interrupted write with the flag taken no packet goes out any more |
| SendSpacing.ClosestSends | client/epoll.c:98-105 | a calm run whose two sends are as close as the bound allows, to the microsecond |

## Left out

- Sockets, epoll calls, thread start-up, CPU affinity, statistics, printing, `nop`, `process_delay`, the shell scripts: they deliver events or numbers, which are arguments here.
- libconfig and the floating-point burst, request rate and unit delay: the resulting integers are arguments.
- hiredis: a node is the map it holds; MOVED replies, the text of `cluster nodes` and `flushdb` are not modelled, nor are the `slots` flags, which only feed a check that is ignored.
- The null-pointer key of `__get_nodb`: a composed key is never null.
- The fixed lengths of string buffers (`KEY_LEN`, `VALUE_LEN`, 1024 bytes of composed key) and of the 50 node entries.
- The server's copies of `client/DES/` and the client's copy of `socket_tools.c`: the same code, modelled once.
- `str2Int` and `str2longlong` read a decimal and a hexadecimal number from text, `generate_key` fills a DES key with random bytes, and the config codecs send the client's settings with the number codecs of `Serialize`; nothing modelled here calls them.
- The tables of `des.c`: P and PC-2 follow no rule that determines them; what is proved of them is in `SBoxes.PlacesDistinct`.
- Local buffers of `des.c` (`l`, `r`, `er`, `ser`, the members of a key set) are sequences that the loops reassign; the message, output and key-set buffers are arrays, and message and output must differ.
- client/client.h:27 has `CIPHER` commented out; the model has it on, as server/server.h:30 does.
- Ring.EveryRunIsSafe: is about threads that recheck their guard; what the `if` of the source changes is stated by WakeIsSafeIff and StaleSignal.
- Ring: the times `recv` and `done` in a slot, of which `done` is written and `recv` read after the pop.
- Connections.RestoreExact: a quotient of the least int by -1, which the machine may trap as well, wraps here.
- Connections.RunFromStart: one epoll instance; `closeAllConnections` is left out.
- SendSpacing.SpacedAndAnswered: covers one descriptor between two restores, with EPOLLIN reported and read in one step, a request written and timed in one, and a failing write other than an interrupted one ending it.
- SendSpacing.State: a TRUE of `canSendPkt` is taken to yield at most one EPOLLOUT, as edge-triggered epoll on a writable socket gives it; an edge without a TRUE, after a full send buffer drains, is not modelled.
- PacketPath.SendPacket: takes buffers of 150 bytes, where the source's have 146 and are overrun by four.
- PacketPath.ReceivePacket: takes a plaintext buffer of 150 bytes, where the source's has 146 and is overrun by four.
