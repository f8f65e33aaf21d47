# OpenBC protocol core in Dafny

OpenBC is a clean-room server for the Star Trek: Bridge Commander
multiplayer protocol. This project models its protocol core, layer by
layer, and proves properties of the model:

- integrity hashes: the 4-lane Pearson name hash (`StringHash`) and the
  rotate-XOR content hash that skips the .pyc timestamp word (`FileHash`);
- the byte buffer: the `bc_buffer_t` cursor with little-endian integers and
  5-bits-per-byte bit packing (`BufferModel`, `BufferLayout`, `Reader`),
  and the "AlbyRules!" XOR cipher (`Cipher`);
- the transport layer: packet framing and parsing (`Transport`), the
  outgoing batch (`Outgoing`), fragment reassembly (`Reassembly`) and the
  reliable-delivery queue (`Reliable`);
- the peer table (`Peer`) and the player-id domain (`PlayerIds`);
- the checksum handshake: request and session builders (`Handshake`), the
  recursive response parser (`ChecksumResponse`), validation against the
  hash manifest (`ChecksumValidate`) and the manifest lookups (`Manifest`);
- game messages: the opcode name tables (`Opcodes`), the host's message
  builders (`GameBuilders`) and the event parsers (`GameEvents`);
- the client side: packet builders (`ClientTransport`), the directory-scan
  filter and leaf rule (`ClientScan`) and the checksum responses
  (`ClientChecksum`);
- the GameSpy query and validation replies (`GameSpy`, `Gsmsalg`), the
  master-server list (`Master`), the JSON reader (`Json`, `JsonParse`),
  the ship registry (`ShipData`) and the session summary (`ServerStats`);
- the tools: the manifest scanner (`Scrape`), the trace comparison
  (`TraceCompare`, `TraceChecks`) and the checksum-response decoder
  (`ChecksumDecode`).

Each C object that is updated in place is a Dafny `class`:
`ByteBuffer.Buffer`, `Reliable.Queue`, `Peer.Manager`, `Outgoing.Outbox`,
`Reassembly.FragmentBuf`, `Master.MasterList`, `JsonParse.Parser`,
`ShipData.ShipClass`, and the decoder's cursor `ChecksumDecode.Decoder`.
Each method over one is proved to reach exactly the state a pure function
computes, and the pure functions carry the properties: round trips,
failure without side effects, exact layouts, invariants kept. Loops in the
source are methods with loop invariants proved against the same functions.

Conventions:

- `byte`, `u8`, `u16`, `u32` are subset types of `int`, and `i32` is the
  signed 32-bit range. Wrap-around is written out where the C code casts.
- An `f32` field is 4 opaque bytes (its bit pattern as a `u32`).
- Constants that live in headers not part of this model are parameters:
  the checksum response limits (`ChecksumResponse.Limits`).

## Model

| member | source | states |
|---|---|---|
| Bytes.I32RoundTrip | src/protocol/buffer.c:62 | casting an i32 to u32 and back returns it |
| Bytes.U16RoundTrip | src/protocol/buffer.c:54-55 | the two little-endian bytes of a u16 decode to it at any offset |
| Bytes.U32RoundTrip | src/protocol/buffer.c:63-66 | the four little-endian bytes of a u32 decode to it at any offset |
| Bytes.I32RoundTripAt | src/protocol/buffer.c:145-150 | the little-endian bytes of an i32 read back as the same i32 |
| Bytes.LeU32Bytes | src/protocol/buffer.c:63-66 | byte k of the encoding is (v >> 8k) & 0xFF |
| StringHash.StringHashLoop | src/checksum/string_hash.c:15-28 | the while loop returns Hash: the lanes folded over the bytes before the first NUL and packed |
| StringHash.CString | src/checksum/string_hash.c:19 | the walk sees a NUL-free prefix that ends at the first NUL or the end |
| StringHash.FoldAppend | src/checksum/string_hash.c:19-25 | the lane state is a left fold: s ++ t continues from the state after s |
| StringHash.FoldSnoc | src/checksum/string_hash.c:20-24 | one more byte applies one lane step to every lane |
| StringHash.HashOfNulFree | src/checksum/string_hash.c:19-27 | a NUL-free string hashes to the packed fold of all its bytes |
| StringHash.EmptyHashesToZero | src/checksum/string_hash.c:17-27 | the empty string hashes to 0 |
| StringHash.StopsAtNul | src/checksum/string_hash.c:19 | bytes after a NUL never change the hash |
| StringHash.PackKeepsLanes | src/checksum/string_hash.c:27 | lane 0 is the top byte of the result, lane 3 the bottom byte |
| StringHash.KnownValue60 | src/checksum/string_hash.c:13 | "60" hashes to 0x7E0CE243 |
| StringHash.KnownAppPyc | src/checksum/string_hash.c:15-28 | "App.pyc" hashes to 0x373EB677 |
| StringHash.KnownScripts | src/checksum/string_hash.c:15-28 | "scripts" hashes to 0x4DAFCB2F |
| StringHash.KnownAutoexec | src/checksum/string_hash.c:15-28 | "Autoexec.pyc" hashes to 0x8501E6A1 |
| StringHash.CaseSensitive | src/checksum/string_hash.c:20-24 | "ships" and "Ships" hash differently |
| FileHash.FileHashLoop | src/checksum/file_hash.c:19-49 | the two loops compute Hash: the words except word 1, then the sign-extended tail |
| FileHash.HashWords | src/checksum/file_hash.c:24-35 | the word loop folds every full little-endian word except index 1 |
| FileHash.HashTail | src/checksum/file_hash.c:38-46 | the tail loop folds each of the len % 4 bytes sign-extended |
| FileHash.TailStartBounds | src/checksum/file_hash.c:22-40 | the tail starts at 4 * (len / 4), fewer than 4 bytes before the end |
| FileHash.TimestampInsensitive | src/checksum/file_hash.c:25 | buffers that differ only in bytes 4..7 (and are at least 8 long) hash equally |
| FileHash.ShortBufferTimestampCounts | src/checksum/file_hash.c:38-45 | in a buffer shorter than 8 bytes, byte 4 is a tail byte and does count |
| FileHash.EmptyIsZero | src/checksum/file_hash.c:21-22 | the empty buffer hashes to 0 |
| FileHash.OneWord | src/checksum/file_hash.c:28-34 | [01 00 00 00] hashes to 2 |
| FileHash.SecondWordSkipped | src/checksum/file_hash.c:25 | [01 00 00 00 FF FF FF FF] hashes to 2 as well |
| FileHash.NegativeTailByte | src/checksum/file_hash.c:42-44 | [0x80] is sign-extended: the hash is 0xFFFFFF01 |
| FileHash.PositiveTailByte | src/checksum/file_hash.c:42-44 | [0x7F] hashes to 0xFE |
| Cipher.Encrypt | src/protocol/cipher.c:8-13 | the cipher keeps the length |
| Cipher.AlbyRulesCipher | src/protocol/cipher.c:8-13 | the first len bytes become Encrypt of themselves; bytes from len on are untouched |
| Cipher.Involution | src/protocol/cipher.c:8-13 | applying the cipher twice restores the input |
| Cipher.ZerosGiveKey | src/protocol/cipher.c:3-11 | on a zero byte the output is the key byte at i mod 10 |
| Cipher.ZeroPeriod | src/protocol/cipher.c:11 | on zeros the output repeats with period 10 |
| Cipher.PrefixStable | src/protocol/cipher.c:10-12 | a prefix is enciphered the same whatever follows it |
| Cipher.ZeroBlockIsKey | src/protocol/cipher.c:3-6 | ten zero bytes encipher to "AlbyRules!" |
| BufferModel.Init | src/protocol/buffer.c:5-12 | a new buffer is valid with cursor and bit count 0 |
| BufferModel.Reset | src/protocol/buffer.c:30-35 | reset zeroes pos, bookmark and bit count and keeps data and capacity |
| BufferModel.Remaining | src/protocol/buffer.c:37-40 | capacity − pos when pos < capacity, else 0 |
| BufferModel.Put | src/protocol/buffer.c:80 | the copied range holds the bytes and nothing else changes |
| BufferModel.WriteRaw | src/protocol/buffer.c:44-83 | a write succeeds iff pos + width ≤ capacity; failure changes nothing; success puts the bytes at pos, advances pos by the width and touches no other byte |
| BufferModel.WriteBit | src/protocol/buffer.c:97-122 | a bit write keeps the buffer valid and the capacity |
| BufferModel.WriteBitShape | src/protocol/buffer.c:97-122 | write_bit fails only when it must open a group in a full buffer; a new group is a byte holding the bit; a join ORs bit count into the bookmark byte and rewrites the count field |
| BufferModel.ReadRaw | src/protocol/buffer.c:126-168 | a read fails iff pos + width > capacity; success returns data[pos..pos+width] and only advances pos |
| BufferModel.ReadBit | src/protocol/buffer.c:170-191 | read_bit fails only when it needs a new byte and none is left, and never changes data |
| BufferModel.Preserve | src/protocol/buffer.c:44-122 | later writes never change a written byte other than the open group's byte, and only add bits to that byte |
| BufferModel.RoundTrip | src/protocol/buffer.c:30-191 | after writes that all succeed and a reset, the same reads succeed and return every value written, bits included |
| BufferModel.BitGroupSpansByteWrites | src/protocol/buffer.c:44-122 | a bit, a byte and a bit take two bytes: the second bit rewrites the first group's byte to 0x23 |
| ByteBuffer.Buffer.constructor | src/protocol/buffer.c:5-12 | the object's state is Init over the caller's memory |
| ByteBuffer.Buffer.Reset | src/protocol/buffer.c:30-35 | the new state is Reset of the old |
| ByteBuffer.Buffer.Remaining | src/protocol/buffer.c:37-40 | capacity − pos when pos < capacity, else 0 |
| ByteBuffer.Buffer.WriteU8 | src/protocol/buffer.c:44-49 | result and new state are WriteU8 of the old state |
| ByteBuffer.Buffer.WriteU16 | src/protocol/buffer.c:51-57 | result and new state are WriteU16 of the old state |
| ByteBuffer.Buffer.WriteI32 | src/protocol/buffer.c:59-68 | result and new state are WriteI32 of the old state |
| ByteBuffer.Buffer.WriteF32 | src/protocol/buffer.c:70-75 | an f32 is written as its 32-bit pattern |
| ByteBuffer.Buffer.WriteBytes | src/protocol/buffer.c:77-83 | result and new state are WriteRaw of the old state |
| ByteBuffer.Buffer.WriteBit | src/protocol/buffer.c:97-122 | result and new state are WriteBit of the old state |
| ByteBuffer.Buffer.ReadU8 | src/protocol/buffer.c:126-131 | ok iff ReadU8 of the old state succeeds; then value and state are its result; failure changes nothing |
| ByteBuffer.Buffer.ReadU16 | src/protocol/buffer.c:133-140 | as ReadU8, for the little-endian u16 |
| ByteBuffer.Buffer.ReadI32 | src/protocol/buffer.c:142-152 | as ReadU8, for the little-endian i32 |
| ByteBuffer.Buffer.ReadF32 | src/protocol/buffer.c:154-160 | an f32 is read as its 32-bit pattern |
| ByteBuffer.Buffer.ReadBytes | src/protocol/buffer.c:162-168 | as ReadU8, for a run of len bytes |
| ByteBuffer.Buffer.ReadBit | src/protocol/buffer.c:170-191 | result and new state are ReadBit of the old state |
| BufferLayout.WriteImage | src/protocol/buffer.c:44-122 | from a fresh buffer, a chain of writes succeeds iff its image fits the capacity, and then the memory starts with the image |
| BufferLayout.ReadImage | src/protocol/buffer.c:126-191 | reading an image back with the same kinds of reads returns the values written |
| Handshake.RequestImage | src/protocol/handshake.c:38-47 | a request is [0x20][round][dirLen u16][dir][fltLen u16][flt][bit byte], 7 + dir + filter bytes |
| Handshake.RequestBuild | src/protocol/handshake.c:23-48 | −1 for a round outside [0,4); otherwise the request for the round's table entry, or −1 when it does not fit |
| Handshake.RequestFinalBuild | src/protocol/handshake.c:50-73 | round 0xFF for "Scripts/Multiplayer", "*.pyc", recursive |
| Handshake.SettingsImage | src/protocol/handshake.c:87-99 | the checksum flag joins the collision/friendly bit byte: the message is 9 + map bytes |
| Handshake.SettingsBuild | src/protocol/handshake.c:75-100 | the settings writes in order, −1 when they do not fit |
| Handshake.UiCollisionImage | src/protocol/handshake.c:141-150 | [0x16][collision bit byte] |
| Handshake.UiCollisionBuild | src/protocol/handshake.c:141-150 | the UI settings writes, −1 when they do not fit |
| Handshake.MissionInitImage | src/protocol/handshake.c:109-139 | 5 bytes with no time limit, 9 with one: 0xFF or the limit byte and end_time |
| Handshake.MissionInitDecodes | src/protocol/handshake.c:113-136 | a reader of the documented format recovers every field, as long as the limit byte is not 255 |
| Handshake.MissionInitMarkerClash | src/protocol/handshake.c:125-130 | a time limit of 255 produces a message the documented reader rejects |
| Handshake.MissionInitFixedDecodes | src/protocol/handshake.c:113-136 | with the corrected time-limit writes every message decodes, 255 reading back as no limit |
| Handshake.MissionInitBuild | src/protocol/handshake.c:109-139 | the mission-init writes in order, −1 when they do not fit |
| Handshake.GameInitBuild | src/protocol/handshake.c:102-107 | −1 below 1 byte, else the single opcode 0x01 |
| Handshake.TwoByteBuild | src/protocol/handshake.c:152-172 | −1 below 2 bytes, else opcode and value |
| Handshake.BootPlayerBuild | src/protocol/handshake.c:152-158 | [0x04][reason] or −1 |
| Handshake.DeletePlayerUiBuild | src/protocol/handshake.c:160-172 | [0x17][slot] or −1 |
| Handshake.DeletePlayerAnimBuild | src/protocol/handshake.c:174-192 | −1 iff 3 + name length exceeds the buffer; else [0x18][len u16][name] |
| Manifest.FindFile | src/checksum/manifest.c:155-173 | the lowest index with the name hash, None iff no entry has it |
| Manifest.FindSubdir | src/checksum/manifest.c:175-183 | the lowest subdirectory with the name hash, None iff none has it |
| Manifest.ParseFiles | src/checksum/manifest.c:16-32 | None iff the array exceeds the maximum; otherwise one entry per element with its two hashes |
| Manifest.ParseSubdirs | src/checksum/manifest.c:35-55 | None iff the array exceeds its maximum or a subdirectory exceeds 128 files; otherwise one subdirectory per element |
| Manifest.HexRoundTrip | src/checksum/manifest.c:8-12 | hex_to_u32 of "0x" and the eight hex digits of v is v |
| Manifest.PrefixedDigits | src/checksum/manifest.c:8-12 | "0x" and eight hex digits convert to exactly their value: it always fits in 32 bits |
| ChecksumResponse.ReadHead | src/protocol/handshake.c:210-240 | the head of a level consumes input and keeps the file count within the level's limit |
| ChecksumResponse.ReadTree | src/protocol/handshake.c:206-275 | a parsed level consumes input, pairs every name with a child and keeps its files within its limit |
| ChecksumResponse.ParsedFits | src/protocol/handshake.c:216-264 | a parsed response never holds more files, subdirectories or subdirectory files than the record's arrays |
| ChecksumResponse.ParseEntries | src/protocol/handshake.c:223-231 | the entry loop reads exactly ReadEntries: ok iff it succeeds, then the same entries and cursor |
| ChecksumResponse.ParseNames | src/protocol/handshake.c:250-256 | the name loop reads exactly ReadNames |
| ChecksumResponse.ParseHead | src/protocol/handshake.c:210-240 | the file count, limit check, entries and subdir count read exactly ReadHead |
| ChecksumResponse.ParseTree | src/protocol/handshake.c:206-275 | parse_file_tree succeeds iff ReadTree does, leaves the buffer where ReadTree ends, returns the level's files and at the top the stored subdirectory records |
| ChecksumResponse.ParseChildren | src/protocol/handshake.c:258-272 | the subtree loop succeeds iff ReadTrees does and stores the first maxSubdirs records at the top |
| ChecksumResponse.ParseHeader | src/protocol/handshake.c:287-318 | opcode 0x21, the round, the reference hash only for round 0, then the directory hash, exactly as ReadHeader |
| ChecksumResponse.ResponseParse | src/protocol/handshake.c:277-334 | the parser over the buffer object returns ParseResponse of the payload |
| ChecksumValidate.ResultNamesDistinct | src/protocol/handshake.c:420-431 | distinct results have distinct names |
| ChecksumValidate.SubdirsVerdict | src/protocol/handshake.c:376-403 | the subdirectory checks only ever yield OK, FILE_MISMATCH or FILE_MISSING |
| ChecksumValidate.Verdict | src/protocol/handshake.c:336-418 | validation never yields EMPTY_DIR or PARSE_ERROR |
| ChecksumValidate.SubdirsOk | src/protocol/handshake.c:376-403 | the subdirectory checks pass iff every response subdirectory passes |
| ChecksumValidate.AcceptedIff | src/protocol/handshake.c:336-418 | OK iff the directory hash agrees, no known file differs, every manifest file and subdirectory is present, and the same holds in every listed subdirectory; an empty response is OK iff the manifest has no files |
| ChecksumValidate.ExtraFileIgnored | src/protocol/handshake.c:355-358 | a response file the manifest does not list never changes the verdict |
| ChecksumValidate.ContainsFile | src/protocol/handshake.c:364-372 | the inline presence loop finds the name iff some entry has it |
| ChecksumValidate.ContainsSubdir | src/protocol/handshake.c:406-414 | the inline presence loop over response subdirectories |
| ChecksumValidate.CheckFiles | src/protocol/handshake.c:351-373 | the two file loops of a level give FilesVerdict: a mismatch wins over a missing file |
| ChecksumValidate.Validate | src/protocol/handshake.c:336-418 | the validation loops return Verdict |
| Opcodes.NamedIffListed | src/protocol/opcodes.c:4-62 | bc_opcode_name has a name exactly for the listed opcodes: 0x00-0x2D except 0x05, 0x24, 0x26, 0x2B, then 0x35-0x39 and 0x3F-0x41 |
| Opcodes.NameInverse | src/protocol/opcodes.c:4-62 | every listed opcode is recovered from its name, so the table is one-to-one |
| Opcodes.NamesDistinct | src/protocol/opcodes.c:4-62 | two different listed opcodes never share a name |
| Opcodes.KnownNames | src/protocol/opcodes.c:32-43 | 0x19 TorpedoFire, 0x1A BeamFire, 0x1C StateUpdate, 0x21 ChecksumResp, 0x29 Explosion |
| Opcodes.UnlistedUnnamed | src/protocol/opcodes.c:4-62 | the gaps 0x05, 0x24, 0x26, 0x2B have no name |
| Opcodes.TransportNames | src/protocol/opcodes.c:64-76 | bc_transport_type_name has a name exactly for 0x00, 0x01, 0x03, 0x04, 0x05, 0x06, 0x32, and distinct types have distinct names |
| PlayerIds.PeerSlotValid | include/openbc/player_ids.h:13-17 | a peer slot gives a valid id iff it is in [0,7); the id is the slot plus one, otherwise 0 |
| PlayerIds.GameSlotValid | include/openbc/player_ids.h:19-23 | game slots 0..5 give ids 2..7; game slot 6 and every other value give 0 |
| PlayerIds.PeerSlotInjective | include/openbc/player_ids.h:13-28 | distinct peer slots never share a valid id |
| Reliable.ActiveCount | src/network/reliable.c:4-7 | the number of active slots never exceeds the number of slots |
| Reliable.FirstFree | src/network/reliable.c:16-17 | the lowest inactive slot, None iff every slot is active |
| Reliable.FirstWithSeq | src/network/reliable.c:33-34 | the lowest active slot carrying the sequence number, None iff there is none |
| Reliable.FirstDue | src/network/reliable.c:45-49 | the lowest active slot whose unsigned 32-bit elapsed time reaches 2000 ms, None iff there is none |
| Reliable.ActiveCountUpdate | src/network/reliable.c:23-24 | overwriting a slot moves the active count by exactly the change in that slot's active flag |
| Reliable.FullIff | src/network/reliable.c:16-28 | no slot is free iff all sixteen are active |
| Reliable.AddCount | src/network/reliable.c:9-29 | add succeeds iff the payload is at most 512 bytes and a slot is inactive; success adds one active slot, failure changes nothing |
| Reliable.AckCount | src/network/reliable.c:31-41 | ack succeeds iff an active slot has the sequence number; success removes one active slot, failure changes nothing |
| Reliable.AddThenAck | src/network/reliable.c:9-41 | acking a sequence number just added, and not already pending, frees exactly the slot the add filled |
| Reliable.RetransmitChoice | src/network/reliable.c:43-56 | -1 iff no active slot is due; otherwise a due slot whose retry count goes up by one (u8 wrap) and whose send time becomes now |
| Reliable.RetransmitFrame | src/network/reliable.c:43-56 | every other slot is unchanged, no slot changes its active flag, the active count is kept |
| Reliable.RetransmitProgress | src/network/reliable.c:43-56 | called again at the same time, the next slot reported lies strictly after the previous one |
| Reliable.ElapsedWraps | src/network/reliable.c:49 | elapsed time is now - send_time, plus 2^32 when the clock has wrapped |
| Reliable.ZeroCount | src/network/reliable.c:4-7 | a zeroed table has no active slot |
| Reliable.Queue.constructor | src/network/reliable.c:4-7 | sixteen blank slots, count 0 |
| Reliable.Queue.Add | src/network/reliable.c:9-29 | the slot table and result become AddSpec of the old table; count stays the number of active slots |
| Reliable.Queue.Ack | src/network/reliable.c:31-41 | the slot table and result become AckSpec of the old table; count stays the number of active slots |
| Reliable.Queue.CheckRetransmit | src/network/reliable.c:43-56 | the index and table become RetransmitSpec of the old table; count unchanged |
| Reliable.Queue.CheckTimeout | src/network/reliable.c:58-67 | true iff some active slot has at least 8 retries |
| Peer.Occupied | src/network/peer.c:4-13 | the number of occupied slots never exceeds the number of slots |
| Peer.FindSpec | src/network/peer.c:15-24 | the lowest occupied slot whose ip and port both equal the address, None iff there is none |
| Peer.FirstEmpty | src/network/peer.c:29-30 | the lowest empty slot, None iff every slot is occupied |
| Peer.ExpiredCount | src/network/peer.c:75-86 | the number of expired slots never exceeds the number of occupied slots |
| Peer.OccupiedUpdate | src/network/peer.c:52 | overwriting a slot moves the occupied count by exactly the change in its occupied flag |
| Peer.FullIff | src/network/peer.c:26-57 | no slot is empty iff all seven are occupied |
| Peer.BlankCount | src/network/peer.c:4-13 | a table of zeroed slots has no occupied slot |
| Peer.AddCount | src/network/peer.c:26-57 | add returns -1 iff all slots are occupied, and then changes nothing; otherwise one more slot is occupied |
| Peer.RemoveCount | src/network/peer.c:59-73 | removing an occupied slot in range blanks it and frees one slot; any other slot number changes nothing |
| Peer.AddThenFind | src/network/peer.c:15-57 | an address added while absent is found at the slot add returned |
| Peer.RemoveThenFind | src/network/peer.c:15-73 | removing the only slot holding an address makes find fail for it |
| Peer.SweptFacts | src/network/peer.c:75-86 | the sweep blanks exactly the slots silent for longer than the timeout (unsigned 32-bit), keeps every other slot, and frees as many slots as it removes |
| Peer.SweptClean | src/network/peer.c:75-86 | after the sweep no occupied slot is expired |
| Peer.SweptSnoc | src/network/peer.c:78-84 | the sweep and its count proceed slot by slot in index order |
| Peer.SweepStep | src/network/peer.c:78-84 | one loop step clears slot i exactly when it has expired and counts it exactly then |
| Peer.Manager.constructor | src/network/peer.c:4-13 | seven empty slots with object id and class index -1, count 0 |
| Peer.Manager.Find | src/network/peer.c:15-24 | the lowest occupied slot holding the address, -1 iff none |
| Peer.Manager.Add | src/network/peer.c:26-57 | the index and table become AddSpec of the old table; count stays the number of occupied slots |
| Peer.Manager.Remove | src/network/peer.c:59-73 | the table becomes RemoveSpec of the old table; count stays the number of occupied slots |
| Peer.Manager.Timeout | src/network/peer.c:75-86 | the table becomes the sweep of the old table and the result is the number of expired slots |
| Transport.ParseOne | src/network/transport.c:20-52 | a message read from the front of the remaining bytes takes at least one byte and no more than there are; ACKs take 4, others their length byte, None when truncated or the length is below the header size |
| Transport.ParseFromLength | src/network/transport.c:18 | the loop reads no more messages than its limit and than there are bytes left |
| Transport.ParseSpec | src/network/transport.c:6-60 | None for fewer than two bytes; otherwise the direction is byte 0 and at most min(count byte, 32) messages are read |
| Transport.ParseMessage | src/network/transport.c:19-53 | one loop iteration succeeds iff ParseOne succeeds on the bytes from pos, with the same message and the position after it |
| Transport.ParseMessages | src/network/transport.c:15-56 | the message loop fails iff some message in reach is malformed, and otherwise returns exactly the messages ParseFrom reads |
| Transport.ParseAdvance | src/network/transport.c:18-55 | one iteration keeps the messages read so far plus those still to come equal to the whole parse |
| Transport.ParseStep | src/network/transport.c:18-55 | a malformed message fails the whole parse; a good one is followed by the parse of the bytes after it |
| Transport.Parse | src/network/transport.c:6-60 | succeeds iff ParseSpec does, with the same packet |
| Transport.Encode | src/network/transport.c:20-52 | the wire form of a message, at least its type and length bytes; the inverse of ParseOne (ParseOneEncode) |
| Transport.EncodeAll | src/network/transport.c:18-55 | the concatenated wire forms take at least two bytes per message |
| Transport.EncodeAllSnoc | src/network/transport.c:154-198 | appending a well-formed message appends its wire form |
| Transport.ParseOneEncode | src/network/transport.c:20-52 | a well-formed message is read back from its wire form followed by anything, taking exactly its length |
| Transport.ParseFromEncodeAll | src/network/transport.c:18-55 | encoded well-formed messages are read back in order, as many as the limit allows |
| Transport.PacketRoundTrip | src/network/transport.c:6-60 | a packet [direction, count] + messages parses to the direction and the first min(count, 32) messages |
| Transport.CopyIn | src/network/transport.c:75 | memcpy: the bytes at the offset become the source, every other byte is kept |
| Transport.BuildUnreliable | src/network/transport.c:62-78 | -1 and nothing written iff 4 + len exceeds out_size; otherwise 4 + len bytes [1, 1, 0, (2 + len) mod 256] + payload |
| Transport.BuildUnreliableChecked | src/network/transport.c:62-78 | as BuildUnreliable, but also -1 when the message length does not fit its byte |
| Transport.UnreliableRoundTrip | src/network/transport.c:62-78 | a payload whose length fits reads back as one type-0 message with that payload |
| Transport.UnreliableOverflow | src/network/transport.c:66-74 | a 254-byte payload, which the size check alone lets through, gets the length byte 0, and the packet does not parse |
| Transport.BuildReliable | src/network/transport.c:80-102 | -1 and nothing written iff 7 + len exceeds out_size or 5 + len exceeds 255; otherwise the 7-byte header with flags 0x80 and seq & 0xFF, then the payload |
| Transport.ReliableRoundTrip | src/network/transport.c:80-102 | the reliable packet reads back as one 0x32 message with flags 0x80, sequence number (seq & 0xFF) << 8 and the payload |
| Transport.BuildAck | src/network/transport.c:104-120 | -1 and nothing written iff out_size < 6; otherwise [1, 1, 1, seq >> 8, 0, flags] |
| Transport.AckRoundTrip | src/network/transport.c:104-120 | the ACK reads back as one ACK message with counter seq >> 8 and the flags |
| Transport.ReliableThenAck | src/network/transport.c:80-120 | acknowledging a received reliable message echoes the counter its sender put in the high sequence byte |
| Transport.BuildShutdownNotify | src/network/transport.c:122-144 | -1 and nothing written iff out_size < 12; otherwise the 8-byte ConnectAck header with the slot, then the IP's bytes low to high |
| Transport.ShutdownNotifyParses | src/network/transport.c:122-144 | the notice reads back as one type-5 message whose payload is flags, two pads, slot and IP |
| Outgoing.ReliableEncoding | src/network/transport.c:175-180 | the reliable message's wire form carries seq & 0xFF in the high sequence byte and 0 in the low one |
| Outgoing.Appended | src/network/transport.c:158-166 | writing a message's wire form at pos extends the encoded batch by that message |
| Outgoing.CountFits | src/network/transport.c:224 | a batch that fits 512 bytes has fewer than 256 messages, so the (u8) count cast loses nothing |
| Outgoing.FlushedPacketParses | src/network/transport.c:211-228 | the flushed packet parses back to the queued messages, up to 32 |
| Outgoing.Outbox.constructor | src/network/transport.c:148-152 | an empty batch at position 2 over a 512-byte buffer |
| Outgoing.Outbox.Init | src/network/transport.c:148-152 | the batch is empty and the position is 2 |
| Outgoing.Outbox.AddUnreliable | src/network/transport.c:154-167 | succeeds iff pos + 2 + len fits 512 and 2 + len fits 255; then the wire form of a type-0 message is written at pos and queued, otherwise nothing changes |
| Outgoing.Outbox.AddReliable | src/network/transport.c:169-185 | succeeds iff pos + 5 + len fits 512 and 5 + len fits 255; then the reliable message is written at pos and queued, otherwise nothing changes |
| Outgoing.Outbox.AddAck | src/network/transport.c:187-198 | succeeds iff pos + 4 fits 512; then the ACK with counter seq >> 8 is written and queued, otherwise nothing changes |
| Outgoing.Outbox.AddKeepalive | src/network/transport.c:200-209 | succeeds iff pos + 2 fits 512; then [0, 2] is written and queued, otherwise nothing changes |
| Outgoing.Outbox.FlushToBuf | src/network/transport.c:211-228 | 0 and nothing changed for an empty batch; -1 and an emptied batch when pos exceeds out_size; otherwise pos bytes [1, count] + messages in out, a packet that parses back to the messages, and an emptied batch |
| Outgoing.Outbox.Pending | src/network/transport.c:242-245 | true iff a message is queued |
| Reassembly.ReceiveSpec | src/network/transport.c:257-310 | an empty payload changes nothing; a reported completion leaves an active buffer whose received count reached the expected one; every other outcome that ends inactive is a reset; the buffer never exceeds 4096 bytes |
| Reassembly.IndexIgnored | src/network/transport.c:287-289 | the continuation index byte does not affect the result |
| Reassembly.FirstNeverCompletes | src/network/transport.c:265-283 | a first fragment alone never completes a message |
| Reassembly.Feed | src/network/transport.c:257-310 | one result per fragment fed |
| Reassembly.ContinueAll | src/network/transport.c:286-309 | continuation fragments that fit are appended in order, each adds one to the count, and each completes exactly when the count reaches the expected one |
| Reassembly.Reassemble | src/network/transport.c:257-310 | a first fragment announcing k fragments and k - 1 continuations that fit: only the last completes, and the buffer holds all their data in order |
| Reassembly.FragmentBuf.constructor | src/network/transport.c:249-255 | an idle buffer of 4096 bytes |
| Reassembly.FragmentBuf.Reset | src/network/transport.c:249-255 | the buffer becomes idle: inactive, empty, counts 0 |
| Reassembly.FragmentBuf.Receive | src/network/transport.c:257-310 | the result and new buffer state are ReceiveSpec of the old state |
| GameBuilders.MakeObjectId | src/protocol/game_builders.c:9-12 | the id of sub-index sub of a player slot is base + slot * 2^18 + sub whenever that sum fits an i32 (wrapping otherwise) |
| GameBuilders.MakeShipId | src/protocol/game_builders.c:14-17 | a slot's primary ship id is base + slot * 2^18 |
| GameBuilders.ObjectCreateTeamBuild | src/protocol/game_builders.c:19-33 | -1 and the buffer untouched exactly when 3 + blob length exceeds the buffer size; otherwise the buffer starts with [0x03][owner][team][blob], the rest is unchanged, and the length is returned |
| GameBuilders.TorpedoFireImage | src/protocol/game_builders.c:35-58 | the TorpedoFire image is [0x19][shooter][subsys][flags][velocity] plus [target][impact] with a target: 19 bytes with a target, 10 without, and the flags byte is 0x02 exactly when there is a target |
| GameBuilders.TorpedoFireBuild | src/protocol/game_builders.c:35-58 | the builder writes the TorpedoFire field sequence or returns -1 when it does not fit, the rest of the buffer unchanged |
| GameBuilders.BeamFireImage | src/protocol/game_builders.c:60-81 | the BeamFire image: 14 bytes with a target, 10 without, and the more-flags byte is 0x01 exactly when there is a target |
| GameBuilders.BeamFireBuild | src/protocol/game_builders.c:60-81 | the builder writes the BeamFire field sequence or returns -1 when it does not fit |
| GameBuilders.ExplosionImage | src/protocol/game_builders.c:83-98 | an Explosion is [0x29][object][impact][damage][radius], 14 bytes |
| GameBuilders.ExplosionBuild | src/protocol/game_builders.c:83-98 | the builder writes the Explosion field sequence or returns -1 when it does not fit |
| GameBuilders.DestroyObjImage | src/protocol/game_builders.c:100-109 | a DestroyObject is [0x14][object], 5 bytes |
| GameBuilders.DestroyObjBuild | src/protocol/game_builders.c:100-109 | the builder writes the DestroyObject field sequence or returns -1 when it does not fit |
| GameBuilders.ChatImage | src/protocol/game_builders.c:111-129 | a chat message is [0x2C or 0x2D][sender][0 0 0][length u16][text], 7 bytes plus the text, with the team opcode exactly for team chat |
| GameBuilders.ChatBuild | src/protocol/game_builders.c:111-129 | the builder writes the chat field sequence or returns -1 when it does not fit |
| GameBuilders.ScoreChangeImage | src/protocol/game_builders.c:131-143 | a ScoreChange is [0x36][killer][victim][score], 7 bytes |
| GameBuilders.ScoreChangeBuild | src/protocol/game_builders.c:131-143 | the builder writes the ScoreChange field sequence or returns -1 when it does not fit |
| GameBuilders.EndGameImage | src/protocol/game_builders.c:145-154 | an EndGame is [0x38][winner] |
| GameBuilders.EndGameBuild | src/protocol/game_builders.c:145-154 | the builder writes the EndGame field sequence or returns -1 when it does not fit |
| GameBuilders.StateUpdateImage | src/protocol/game_builders.c:156-173 | a StateUpdate is [0x1C][object][game time][dirty][field data], 10 bytes plus the field data, with the dirty mask at offset 9 |
| GameBuilders.StateUpdateBuild | src/protocol/game_builders.c:156-173 | the builder writes the StateUpdate field sequence or returns -1 when it does not fit |
| GameBuilders.ScoreEntryImage | src/protocol/game_builders.c:175-192 | the entries from i on encode to 5 bytes each: the index as a byte, then the score |
| GameBuilders.ScoreImage | src/protocol/game_builders.c:175-192 | a Score message is [0x37][count byte] and then, for each player j, [j][score j] at offset 2 + 5j |
| GameBuilders.ScoreBuild | src/protocol/game_builders.c:175-192 | the builder writes the Score field sequence or returns -1 when it does not fit |
| GameBuilders.EventForwardBuild | src/protocol/game_builders.c:194-206 | -1 and the buffer untouched exactly when 1 + data length exceeds the buffer size; otherwise [opcode][data], the rest unchanged |
| GameEvents.ObjectIdToSlotRange | src/protocol/game_events.c:15-24 | a slot 0..6 comes back exactly for ids in the seven 2^18-id player ranges above the base, and the id lies in the range of that slot; every other id gives -1 |
| GameEvents.ObjectIdToSlotWrapped | src/protocol/game_events.c:15-24 | computing the offset with wrapping i32 subtraction changes no answer |
| GameEvents.SlotOfMadeId | src/protocol/game_events.c:15-24 | the slot of an id made for a slot and sub-index is that slot |
| GameEvents.SlotSixRecognised | src/protocol/game_events.c:15-24 | slot 6's ship id maps back to slot 6, and the first id past slot 6's range maps to -1 |
| GameEvents.TorpedoFireAccepts | src/protocol/game_events.c:36-61 | the parse succeeds exactly for the TorpedoFire opcode and 10 bytes, 19 when flags bit 1 announces a target, and has_target is that bit |
| GameEvents.ParseTorpedoFire | src/protocol/game_events.c:36-61 | the buffer-reading parser succeeds exactly when the reference parse does, with the same fields |
| GameEvents.TorpedoFireRoundTrip | src/protocol/game_events.c:36-61 | a built TorpedoFire parses back to its shooter, subsystem, velocity and, with a target, its target and impact |
| GameEvents.BeamFireAccepts | src/protocol/game_events.c:73-96 | the parse succeeds exactly for the BeamFire opcode and 10 bytes, 14 when more-flags bit 0 announces a target, and has_target is that bit |
| GameEvents.ParseBeamFire | src/protocol/game_events.c:73-96 | the buffer-reading parser succeeds exactly when the reference parse does, with the same fields |
| GameEvents.BeamFireRoundTrip | src/protocol/game_events.c:73-96 | a built BeamFire parses back to its shooter, flags, direction and target |
| GameEvents.Explosion | src/protocol/game_events.c:106-124 | the parse succeeds exactly for the Explosion opcode and 14 bytes |
| GameEvents.ParseExplosion | src/protocol/game_events.c:106-124 | the buffer-reading parser succeeds exactly when the reference parse does, with the same fields |
| GameEvents.ExplosionRoundTrip | src/protocol/game_events.c:106-124 | a built Explosion parses back to its object, impact, damage and radius |
| GameEvents.DestroyObj | src/protocol/game_events.c:134-148 | the parse succeeds exactly for the DestroyObject opcode and 5 bytes |
| GameEvents.ParseDestroyObj | src/protocol/game_events.c:134-148 | the buffer-reading parser succeeds exactly when the reference parse does, with the same object id |
| GameEvents.DestroyObjRoundTrip | src/protocol/game_events.c:134-148 | a built DestroyObject parses back to its object id |
| GameEvents.ObjectCreateHeader | src/protocol/game_events.c:157-178 | the header parses exactly for tag 2 with 2 bytes or tag 3 with 3 bytes, and has_team holds exactly for tag 3 |
| GameEvents.ParseObjectCreateHeader | src/protocol/game_events.c:157-178 | the buffer-reading parser succeeds exactly when the reference parse does, with the same header |
| GameEvents.ObjectCreateTeamRoundTrip | src/protocol/game_events.c:157-178 | the header of a built ObjCreateTeam message reads back tag 3, the owner and the team |
| GameEvents.CollisionEffectAccepts | src/protocol/game_events.c:189-222 | the parse succeeds exactly for the CollisionEffect opcode and 22 bytes plus 4 per announced contact point |
| GameEvents.SkipBytes | src/protocol/game_events.c:208-212 | skipping n bytes one read at a time succeeds exactly when n bytes remain, and moves the cursor by n |
| GameEvents.ParseCollisionEffect | src/protocol/game_events.c:189-222 | the buffer-reading parser succeeds exactly when the reference parse does, with the same source, target, count and force |
| GameEvents.ShipBlob | src/protocol/game_events.c:235-261 | the ship blob header parses exactly when the blob has 21 bytes |
| GameEvents.ParseShipBlobHeader | src/protocol/game_events.c:235-261 | the buffer-reading parser succeeds exactly when the reference parse does, with the same object, species and position |
| GameEvents.FieldBytes | src/protocol/game_events.c:279-320 | the field data of a dirty mask is at most 25 bytes |
| GameEvents.StateUpdateAccepts | src/protocol/game_events.c:279-320 | the parse succeeds exactly for the StateUpdate opcode and 10 bytes plus the field bytes of the set bits 0-4 |
| GameEvents.GetStateFields | src/protocol/game_events.c:298-317 | after a good header, the field reads succeed exactly when the reference parse does, and give its position, forward, up and speed |
| GameEvents.ParseStateUpdate | src/protocol/game_events.c:279-320 | the buffer-reading parser succeeds exactly when the reference parse does, with the same fields |
| GameEvents.StateUpdateRoundTrip | src/protocol/game_events.c:279-320 | a built StateUpdate parses exactly when its field data covers the mask's fields, and gives back the object, game time and mask |
| GameEvents.ChatMessage | src/protocol/game_events.c:330-364 | the parse succeeds exactly for a chat opcode and 7 bytes, and the text is at most 255 bytes and at most the announced length |
| GameEvents.ParseChatMessage | src/protocol/game_events.c:330-364 | the buffer-reading parser succeeds exactly when the reference parse does, with the same sender and text |
| GameEvents.ChatRoundTrip | src/protocol/game_events.c:330-364 | a built chat message parses back to its sender and its text cut to 255 bytes |
| Reader.Open | src/protocol/buffer.c:5-12 | a fresh buffer over the first len bytes of the payload, cursor at 0, no bit group open |
| Reader.GetU8 | src/protocol/buffer.c:126-131 | succeeds exactly when a byte remains; then gives the payload byte at the cursor and advances by 1; failure leaves the cursor |
| Reader.GetU16 | src/protocol/buffer.c:133-140 | succeeds exactly when 2 bytes remain; gives the little-endian u16 of the payload at the cursor |
| Reader.GetI32 | src/protocol/buffer.c:142-152 | succeeds exactly when 4 bytes remain; gives the little-endian i32 of the payload at the cursor |
| Reader.GetF32 | src/protocol/buffer.c:154-160 | succeeds exactly when 4 bytes remain; gives the 32-bit pattern at the cursor |
| Reader.GetBytes | src/protocol/buffer.c:162-168 | succeeds exactly when n bytes remain; gives the n payload bytes at the cursor |
| Reader.GetBit | src/protocol/buffer.c:170-191 | with no bit group open the read succeeds iff one byte is left, and its value is bit 0 of that byte |
| GameBuilders.ScoreEntryLength | src/protocol/game_builders.c:183-189 | each player's entry takes five bytes, so the entries from player i take 5 (count - i) |
| GameBuilders.ScoreEntryAt | src/protocol/game_builders.c:183-189 | entry j sits 5 (j - i) bytes into the entries from i and holds j as a byte, then score j little-endian |
| GameBuilders.ScoreHead | src/protocol/game_builders.c:175-192 | the score message is the opcode and the count byte, then the entries of every player in slot order |
| GameEvents.GetCollisionHead | src/protocol/game_events.c:202-209 | reads class id, code, source, target and the contact count in that order; succeeds iff 17 bytes are left, and returns source, target and count from offsets 8, 12 and 16 |
| GameEvents.StateFields | src/protocol/game_events.c:298-317 | the fields after the 10-byte header are present iff the payload holds 10 + the field bytes of the dirty bits |
| GameEvents.LaterFields | src/protocol/game_events.c:306-317 | the forward, up and speed fields are present iff the payload holds their 3 + 3 + 2 bytes for the set bits |
| GameEvents.GetLaterFields | src/protocol/game_events.c:306-317 | reads exactly the forward, up and speed fields that LaterFields describes, and fails exactly when it does |
| ClientTransport.ConnectBuild | src/network/client_transport.c:17-34 | fails iff out_size < 10, leaving the buffer unchanged; otherwise writes FF 01 03 08 01 00 00 00 and the two low IP bytes, and returns 10 |
| ClientTransport.ConnectParses | src/network/client_transport.c:17-34 | the server's transport parser reads the connect packet as one type-0x03 message whose payload is the flags, the pads and the two IP bytes |
| ClientTransport.Utf16LeSnoc | src/network/client_transport.c:64-67 | appending a name byte appends that byte and a zero high byte to the UTF-16LE encoding |
| ClientTransport.Utf16LeNameRoundTrip | src/network/client_transport.c:62-70 | a NUL-free name written as UTF-16LE with its 00 00 terminator reads back as the same name, whatever follows |
| ClientTransport.PutUtf16Le | src/network/client_transport.c:63-67 | the name loop writes exactly the UTF-16LE encoding at offset 12 and nothing else |
| ClientTransport.PutKeepalive | src/network/client_transport.c:49-70 | the writes produce the keepalive packet: head, UTF-16LE name and terminator; bytes past it are unchanged |
| ClientTransport.KeepaliveNameBuild | src/network/client_transport.c:36-73 | fails iff the 14 + 2n packet exceeds out_size or the 12 + 2n message exceeds 255, leaving the buffer unchanged; otherwise returns 14 + 2n |
| ClientTransport.KeepaliveParses | src/network/client_transport.c:36-73 | the server's transport parser reads the keepalive as one type-0x00 message carrying everything after its length byte |
| ClientTransport.KeepalivePayloadFields | src/network/client_transport.c:53-70 | the keepalive message payload holds flags 0x80, two pads, the slot, the IP little-endian and the name, which reads back when NUL-free |
| ClientTransport.ReliableBuild | src/network/client_transport.c:75-94 | fails iff 7 + n exceeds out_size or 5 + n exceeds 255; otherwise writes [dir][1][0x32][5+n][0x80][seq & 0xFF][0][payload] and returns 7 + n |
| ClientTransport.ReliableParses | src/network/client_transport.c:75-94 | the server reads the message with flags 0x80, sequence number (seq & 0xFF) << 8 and the same payload |
| ClientTransport.UnreliableBuild | src/network/client_transport.c:96-115 | fails iff 5 + n exceeds out_size or 3 + n exceeds 255; otherwise writes [dir][1][0x32][3+n][0x00][payload] and returns 5 + n |
| ClientTransport.UnreliableAsParsed | src/network/client_transport.c:96-115 | the server's parser rejects a client unreliable message with fewer than two payload bytes and otherwise takes its first two payload bytes as a sequence number |
| ClientTransport.AckBuild | src/network/client_transport.c:117-130 | fails iff out_size < 6; otherwise writes [dir][1][0x01][seq >> 8][0][flags] and returns 6 |
| ClientTransport.ServerReliableThenClientAck | src/network/client_transport.c:117-130 | a client's ACK of a server reliable message built with counter c carries c & 0xFF, which the server reads back |
| ClientTransport.ChecksumRequest | src/network/client_transport.c:134-173 | a request that parses has a directory under 64 and a filter under 32 bytes |
| ClientTransport.ParseChecksumRequest | src/network/client_transport.c:134-173 | succeeds exactly when the request grammar reads the payload (opcode 0x20, directory length < 64, filter length < 32, a bit byte) and returns its fields |
| ClientTransport.RequestRoundTrip | src/network/client_transport.c:134-173 | the client parse inverts the server's request builder for every directory and filter that fit the request record |
| ClientTransport.RequestLongDirectoryRejected | src/network/client_transport.c:156 | a well-formed request whose directory has 64 or more bytes is rejected |
| ClientTransport.RoundTableRequestsParse | src/network/client_transport.c:134-173 | every request of the server's round table, and the final round, reads back with its directory, filter and recursive flag |
| ClientScan.SameIgnoringCaseLower | src/network/client_transport.c:273-276 | strcasecmp equality holds iff the lower-cased strings are equal |
| ClientScan.FilterMatchIgnoresCase | src/network/client_transport.c:265-277 | lower-casing the name or the filter does not change whether the filter matches |
| ClientScan.FilterMatchesItself | src/network/client_transport.c:265-277 | every filter matches a file named as the filter itself |
| ClientScan.PycFilter | src/network/client_transport.c:267-274 | "*.pyc" matches exactly the names with a ".pyc" suffix in any case |
| ClientScan.StripSeps | src/network/client_transport.c:357-359 | the stripped path is a prefix that does not end in a separator, and only separators were removed |
| ClientScan.LeafStart | src/network/client_transport.c:361-366 | the leaf starts just after a separator, or at 0, and holds no separator |
| ClientScan.StripLength | src/network/client_transport.c:356-359 | the loop that shortens dlen stops at the length of the path without its trailing separators |
| ClientScan.LastSepEnd | src/network/client_transport.c:361-366 | the scan returns one past the last separator, or 0 |
| ClientScan.LeafName | src/network/client_transport.c:353-367 | the extraction returns the leaf: the last component of the first 63 bytes without trailing separators |
| ClientScan.LeafCharacterized | src/network/client_transport.c:353-367 | the leaf is a suffix of the stripped path, holds no separator, and is the whole path or follows a separator |
| ClientScan.LeafIgnoresTrailingSep | src/network/client_transport.c:357-359 | a trailing '/' does not change the leaf of a short path |
| ClientScan.LeafAfterLastSep | src/network/client_transport.c:361-366 | a path with its last separator at k - 1 has the leaf that starts at k |
| ClientScan.LeafOfName | src/network/client_transport.c:361-366 | a name without a separator is its own leaf |
| ClientScan.ScriptsLeaf | src/network/client_transport.c:353-367 | "scripts/" hashes as "scripts" |
| ClientScan.ShipsLeaf | src/network/client_transport.c:353-367 | "scripts/ships" hashes as "ships" |
| ClientScan.MultiplayerLeaf | src/network/client_transport.c:353-367 | "Scripts/Multiplayer" hashes as "Multiplayer" |
| ClientChecksum.Count16 | src/network/client_transport.c:192 | the (u16) cast of a file count keeps any count below 2^16 |
| ClientChecksum.Count8 | src/network/client_transport.c:227 | the (u8) cast of a subdirectory count keeps any count below 2^8 |
| ClientChecksum.BuildChecksumResp | src/network/client_transport.c:175-200 | writes exactly the flat response ops when they fit, otherwise fails with -1 |
| ClientChecksum.BuildChecksumRespRecursive | src/network/client_transport.c:202-242 | writes exactly the recursive response ops when they fit, otherwise fails with -1 |
| ClientChecksum.BuildChecksumFinal | src/network/client_transport.c:244-259 | writes exactly [0x21][0xFF][dir_hash][0 u16][0] when it fits, otherwise fails with -1 |
| ClientChecksum.RecursiveWithoutSubdirsIsFlat | src/network/client_transport.c:175-242 | the recursive builder with no subdirectories writes what the flat builder writes |
| ClientChecksum.FinalIsFlat | src/network/client_transport.c:244-259 | the final response is the flat response of round 0xFF with no files, whatever reference hash is passed |
| ClientChecksum.FlatImage | src/network/client_transport.c:175-200 | the flat response is header, u16 count, 8 bytes per file and a 0, of length 2 + (round 0 ? 4 : 0) + 4 + 2 + 8n + 1 |
| ClientChecksum.RecursiveImage | src/network/client_transport.c:202-242 | the recursive response is header, top files, the u8 count, every name hash, then every subtree ending in 0 |
| ClientChecksum.FlatParses | src/network/client_transport.c:175-200 | the server's response parser reads back the round, the reference hash for round 0, the directory hash and the files, with no subdirectories |
| ClientChecksum.FinalParses | src/network/client_transport.c:244-259 | the final response reads back as round 0xFF with the directory hash and no files or subdirectories |
| Decimal.Digits | src/server/server_stats.c:18-22 | %u writes at least one digit and nothing else, and exactly one digit when the value is below 10 |
| Decimal.DigitsRoundTrip | src/server/server_stats.c:18-22 | the %u text of n reads back as n |
| Decimal.DigitsNoLeadingZero | src/network/master.c:82-87 | the %u text starts with '0' only when the value is 0 |
| Decimal.DigitsFit | src/network/master.c:82-87 | a value below 10^k takes at most k digits |
| Decimal.Signed | src/network/gamespy.c:93-98 | %d writes at least one character, each a digit or '-' |
| Decimal.SignedRoundTrip | src/network/gamespy.c:93-98 | the %d text of any int reads back as that int, negative values included |
| Decimal.Pad2RoundTrip | src/server/server_stats.c:32 | the %02u text of n reads back as n and is exactly two digits when n < 100 |
| Gsmsalg.Identity | src/network/gamespy.c:172-173 | the table before the key schedule holds i at index i for all 256 entries |
| Gsmsalg.RoundsPermute | src/network/gamespy.c:175-181 | after any number of key-schedule rounds the table is still a permutation of 0..255 |
| Gsmsalg.EncipherPermutes | src/network/gamespy.c:187-195 | the stream cipher only exchanges entries, so the table stays a permutation of the one the key schedule left |
| Gsmsalg.Pad3 | src/network/gamespy.c:197-198 | the cipher text is padded with zero bytes up to the next multiple of three, its own bytes kept |
| Gsmsalg.SextetIsAlphabet | src/network/gamespy.c:145-153 | gsvalfunc maps 0..63 to the base64 alphabet of section 4 of RFC 4648, in its order |
| Gsmsalg.IndexOfSextet | src/network/gamespy.c:145-153 | gsvalfunc is one-to-one on 0..63: the character's place in the alphabet gives the value back |
| Gsmsalg.QuadRoundTrip | src/network/gamespy.c:206-212 | the four characters written for bytes x, y, z decode back to x, y, z |
| Gsmsalg.EncodeIsBase64 | src/network/gamespy.c:204-213 | every character of the encoding is in the base64 alphabet |
| Gsmsalg.EncodeLength | src/network/gamespy.c:205-213 | 3k bytes encode to 4k characters |
| Gsmsalg.EncodeRoundTrip | src/network/gamespy.c:205-213 | the encoding of 3k bytes decodes back to those bytes |
| Gsmsalg.HashShape | src/network/gamespy.c:155-215 | the validation text is empty for a challenge shorter than 1 or longer than 65 characters; otherwise it is 4*ceil(n/3) base64 characters that decode to the zero-padded cipher text of the challenge under the key schedule of the secret key |
| Gsmsalg.Strlen | src/network/gamespy.c:164 | returns the length of the NUL-terminated text |
| Gsmsalg.Run | src/network/gamespy.c:155-215 | dst receives the validation text followed by a NUL, and the bytes after the NUL keep their old values |
| Gsmsalg.KeyTable | src/network/gamespy.c:171-181 | the table after the identity loop and the 256 key-schedule rounds is KeySchedule of the key |
| Gsmsalg.KeyRound | src/network/gamespy.c:176-181 | one key-schedule pass moves the table and a exactly as Round says |
| Gsmsalg.Encrypt | src/network/gamespy.c:183-198 | tmp holds the zero-padded cipher text of the challenge |
| Gsmsalg.CipherByte | src/network/gamespy.c:188-194 | one cipher pass moves the table, a and b and yields the cipher byte exactly as Step says |
| Gsmsalg.PadZeros | src/network/gamespy.c:197-198 | the padding loop leaves tmp[..n] equal to Pad3 of the cipher text |
| Gsmsalg.Base64Into | src/network/gamespy.c:204-214 | dst receives the encoding of tmp's padded bytes and a NUL after it; the bytes after the NUL are unchanged |
| Gsmsalg.PutQuad | src/network/gamespy.c:209-212 | writes the four characters of one group at p and changes nothing else |
| GameSpy.IsSecure | src/network/gamespy.c:10-14 | a datagram that passes the \secure\ test (at least 9 bytes opening with "\secure\") also passes the query test |
| GameSpy.Token | src/network/gamespy.c:23-25 | the challenge scan takes the longest prefix with no '\' and no NUL, and stops only at one of them or at the end |
| GameSpy.Challenge | src/network/gamespy.c:19-27 | a challenge exists only for a secure packet; it is the non-empty token right after the 8-byte tag, with no '\' or NUL in it |
| GameSpy.ExtractSecure | src/network/gamespy.c:16-31 | returns the challenge length when there is one and it fits below out_size, and then writes it and a NUL; otherwise returns 0 and leaves out unchanged |
| GameSpy.TokenEnd | src/network/gamespy.c:23-25 | the scan loop ends exactly where Token ends |
| GameSpy.Field | src/network/gamespy.c:52-55 | a value runs to the first '\' after it or to the end of the query |
| GameSpy.Lookup | src/network/gamespy.c:36-60 | a value found for a key holds no '\' and lies inside the query |
| GameSpy.ExtractValue | src/network/gamespy.c:36-60 | the position loop returns exactly Lookup: the value after the first '\' key '\' that ends before the last byte, or none |
| GameSpy.KeyAt | src/network/gamespy.c:43-49 | the test at position i (a '\', the key, another '\', all before the end) is KeyHere on the suffix from i |
| GameSpy.FieldEnd | src/network/gamespy.c:52-55 | the inner scan ends exactly where Field ends |
| GameSpy.FieldAfter | src/network/gamespy.c:36-60 | the reference reading: a value it returns follows an occurrence of the key in the field list |
| GameSpy.LookupSkip | src/network/gamespy.c:42-43 | bytes before the first '\' are never matched, so a plain prefix does not change the lookup |
| GameSpy.LookupFirst | src/network/gamespy.c:42-57 | a query that opens with '\' k '\' v gives v for k |
| GameSpy.NoKeyFirst | src/network/gamespy.c:46-49 | a query opening with a plain field other than the key, or with the key as its last field, has no match at its first '\' |
| GameSpy.LookupJoin | src/network/gamespy.c:36-60 | reading a key from a query built of plain fields gives the field after the key's first occurrence, as FieldAfter does |
| GameSpy.FieldAfterSkip | src/network/gamespy.c:42-58 | fields before the key's first occurrence do not change the reading |
| GameSpy.QueryId | src/network/gamespy.c:122-136 | the echoed query id holds no '\' |
| GameSpy.Stored | src/network/gamespy.c:84 | snprintf stores nothing for size 0, the whole text and a NUL when it fits, else the first size-1 bytes and a NUL |
| GameSpy.Snprintf | src/network/gamespy.c:117-118 | returns the full length of the text and writes exactly Stored at the offset, nothing else |
| GameSpy.ResponseParts | src/network/gamespy.c:84-138 | the reply is the formatted info fields, then \final\, then \queryid\ and the id |
| GameSpy.AppendText | src/network/gamespy.c:117-119 | one append succeeds exactly when the text and its NUL fit below out_size, and then extends the written prefix by the text |
| GameSpy.BuildResponse | src/network/gamespy.c:62-141 | returns -1 exactly when the reply does not fit below out_size; otherwise writes the reply and a NUL and returns its length; nothing at or past out_size changes |
| GameSpy.AppendClosing | src/network/gamespy.c:113-138 | the two closing appends give -1 exactly when the whole reply does not fit, and otherwise the reply and its length |
| GameSpy.SignedIsPlain | src/network/gamespy.c:93-98 | a %d field holds no '\' and is never the text "queryid" |
| GameSpy.InfoFieldsPlain | src/network/gamespy.c:84-109 | when the server texts hold no '\' and none reads "queryid", no formatted field does either |
| GameSpy.ResponseEchoesQueryId | src/network/gamespy.c:122-136 | a client reads back from the reply the query id it sent when that is 1 to 31 bytes, otherwise 1.1, whenever the server texts hold no '\' and none reads "queryid" |
| GameSpy.ResponseNamesGame | src/network/gamespy.c:86 | whatever the server texts, the reply's gamename reads back as bcommander |
| GameSpy.HashIsPlain | src/network/gamespy.c:204-214 | the validation hash holds no '\' and no NUL |
| GameSpy.ValidateCarriesHash | src/network/gamespy.c:221-231 | the master reads the gsmsalg hash of the challenge back from the validate reply |
| GameSpy.BuildValidate | src/network/gamespy.c:217-235 | returns -1 exactly when the validate reply does not fit below out_size; otherwise writes it and a NUL and returns its length; nothing at or past out_size changes |
| Master.FirstMatchFrom | src/network/master.c:175-181 | the search from i finds an enabled entry with the datagram's address, and no entry it passed over matches |
| Master.FirstMatch | src/network/master.c:264-269 | a match exists exactly when some enabled entry has the address, and it is the first such entry |
| Master.MasterList.constructor | src/network/master.c:128-129 | an empty list that remembers the game port and the BC_MAX_MASTERS capacity |
| Master.MasterList.Add | src/network/master.c:94-124 | a full list refuses the host and keeps its port; otherwise the game port is taken, and the host joins as an enabled, unverified entry with no beat exactly when its address resolved |
| Master.MasterList.InitDefaults | src/network/master.c:126-136 | the list is the default masters added in order, each when it resolved and the list had room; the count of entries is returned |
| Master.MasterList.ProbeStart | src/network/master.c:147-150 | every entry gets the probe time as its last beat, and the heartbeat goes to exactly the enabled entries, in order |
| Master.MasterList.ProbeDatagram | src/network/master.c:170-234 | one datagram of the probe moves the list as ProbeReply says and reports whether a master has just registered |
| Master.MasterList.IsFromMaster | src/network/master.c:262-270 | true exactly when an enabled entry has the datagram's address |
| Master.MasterList.Find | src/network/master.c:274-283 | returns the first enabled entry with the address, or none |
| Master.MasterList.MarkVerified | src/network/master.c:272-285 | moves the list as Verify says and returns the hostname only on the first verification |
| Master.MasterList.RecordStatusCheck | src/network/master.c:287-302 | moves the list as StatusCheck says and returns the hostname only on the first status check |
| Master.MasterList.Tick | src/network/master.c:304-315 | every due entry gets now as its last beat and is sent a heartbeat, in order; other entries are unchanged |
| Master.MasterList.Shutdown | src/network/master.c:331-339 | the final heartbeat goes to exactly the enabled entries, which are all disabled afterwards |
| Master.MasterList.StateChanged | src/network/master.c:317-329 | the statechanged heartbeat goes to exactly the enabled entries and the list is unchanged |
| Master.AdmittedEntries | src/network/master.c:126-136 | the default list never exceeds the capacity, holds only resolved default hosts, and holds every resolved one while it has room |
| Master.ProbeReplyEffect | src/network/master.c:197-234 | a probe datagram changes at most the first matching entry, and registers exactly when that entry was unverified and becomes verified |
| Master.VerifyEffect | src/network/master.c:272-285 | only the first matching entry changes, it becomes verified, and the hostname comes back exactly when it was unverified |
| Master.VerifyOnce | src/network/master.c:277-281 | a second mark from the same address changes nothing and returns nothing |
| Master.FirstMatchSame | src/network/master.c:274-276 | lists that agree on which entries match an address find the same first match |
| Master.StatusCheckEffect | src/network/master.c:287-302 | an unknown address changes nothing; otherwise only the first matching entry changes: it is verified, its count goes up by one, and the hostname comes back exactly on its first check |
| Master.TickEffect | src/network/master.c:304-315 | after a tick no entry is due, each due entry has its beat moved to now and no other changes, and the sends go to exactly the due entries |
| Master.DueAmongMembers | src/network/master.c:306-313 | the tick sends to exactly the due entries |
| Master.EnabledAmongMembers | src/network/master.c:319-321 | the statechanged and shutdown loops send to exactly the enabled entries |
| Master.ShutdownEffect | src/network/master.c:331-339 | after shutdown no datagram is taken as coming from a master |
| Master.HeartbeatReadsPort | src/network/master.c:81-88 | a master reads the game port back from the heartbeat, in decimal |
| Master.HeartbeatReadsGame | src/network/master.c:81-88 | a master reads the game name bcommander from the heartbeat |
| Master.HeartbeatReadsFinal | src/network/master.c:81-88 | the heartbeat carries the final key exactly when it is the final one |
| Master.StateChangedReads | src/network/master.c:324-326 | the statechanged heartbeat reads back statechanged 1 and the game port |
| Json.SkipWs | src/json/json_parse.c:12-15 | the text left starts with a byte that is not C white space, and is no longer than the input |
| Json.Unescape | src/json/json_parse.c:50-58 | an escape gives NUL exactly when the escaped byte is NUL |
| Json.ReadChars | src/json/json_parse.c:36-65 | a string body that is read leaves strictly less text, and decodes a NUL-free text to NUL-free bytes |
| Json.ReadString | src/json/json_parse.c:26-30 | a string that is read consumes at least its opening quote |
| Json.DigitRun | src/json/json_parse.c:209 | the count stops at the end or at the first byte that is not a digit |
| Json.NumberLength | src/json/json_parse.c:89-94 | a readable number is at least one byte long and lies within the text |
| Json.FractionEnd | src/json/json_parse.c:92 | a fraction adds nothing, or at least its '.' |
| Json.ExponentEnd | src/json/json_parse.c:92 | an exponent stays within the text |
| Json.ReadWord | src/json/json_parse.c:17-22 | a literal is accepted exactly when the word follows in full, and then it is consumed |
| Json.ReadNumber | src/json/json_parse.c:89-99 | a number that is read consumes at least one byte |
| Json.ReadValue | src/json/json_parse.c:178-213 | a value that is read consumes at least one byte |
| Json.ReadArray | src/json/json_parse.c:101-133 | an array that is read is an Array and consumes its closing bracket |
| Json.ReadElements | src/json/json_parse.c:115-132 | the element loop yields an Array and consumes text |
| Json.ReadObject | src/json/json_parse.c:135-176 | an object that is read is an Object and consumes its closing brace |
| Json.ReadMember | src/json/json_parse.c:150-158 | a member that is read consumes text |
| Json.ReadMembers | src/json/json_parse.c:149-175 | the member loop yields an Object and consumes text |
| Json.CharsStep | src/json/json_parse.c:47-63 | one step of the copy loop: an escape decodes the next byte, any other byte is kept |
| Json.ElementsStep | src/json/json_parse.c:116-131 | after an element comes ',' and another, ']' that closes the array, or a failure |
| Json.MemberStep | src/json/json_parse.c:150-158 | a member is a key, a ':' past white space and a value, or a failure |
| Json.MembersStep | src/json/json_parse.c:166-174 | after a member comes ',' and another, '}' that closes the object, or a failure |
| Json.EscapeBack | src/json/json_parse.c:47-65 | a NUL-free string escaped and closed by a quote decodes back to itself, leaving the rest |
| Json.StringBack | src/json/json_parse.c:26-67 | a written string reads back to its bytes, leaving the rest |
| Json.NumberBack | src/json/json_parse.c:89-99 | an integer lexeme followed by a delimiter reads back as that number |
| Json.WriteStart | src/json/json_parse.c:182-211 | a written value opens with a byte that chooses its branch: never white space or a closing bracket |
| Json.ValueOpens | src/json/json_parse.c:182-190 | a quote reads a string, '[' an array and '{' an object |
| Json.WriteBack | src/json/json_parse.c:178-213 | every writable value reads back from its text, leaving what follows |
| Json.ArrayBack | src/json/json_parse.c:101-133 | written items closed by ']' read back as that array |
| Json.ItemsBack | src/json/json_parse.c:115-132 | a non-empty written item list closed by ']' reads back after the items already read |
| Json.ObjectBack | src/json/json_parse.c:135-176 | written members closed by '}' read back as that object |
| Json.MemberBack | src/json/json_parse.c:150-158 | a written member reads back as its key and value |
| Json.MembersBack | src/json/json_parse.c:149-175 | a non-empty written member list closed by '}' reads back after the members already read |
| Json.WriteNoNul | src/json/json_parse.c:217-222 | the written text is a C string: no NUL inside |
| Json.RoundTrip | src/json/json_parse.c:217-222 | json_parse reads every writable value back from its written text |
| Json.TrailingIgnored | src/json/json_parse.c:217-222 | json_parse ignores whatever follows the first value |
| Json.TrailingCommaRefused | src/json/json_parse.c:127-131 | "[1,]" is refused: a comma must be followed by an element |
| Json.MissingCommaRefused | src/json/json_parse.c:127-131 | "[1 2]" is refused: after an element only a comma or the closing bracket may follow |
| Json.MissingColonRefused | src/json/json_parse.c:152-154 | the text {"a" 1} is refused: a key must be followed by a colon |
| Json.EscapeDecoded | src/json/json_parse.c:48-58 | the text "a\nb" quoted reads as the three bytes a, newline, b |
| Json.ExponentRead | src/json/json_parse.c:92-94 | "-1.5e3" is read whole as one number |
| Json.BareExponentLeft | src/json/json_parse.c:92-94 | in "1e," the 'e' has no digits and is not part of the number |
| JsonParse.Parser.constructor | src/json/json_parse.c:219 | the cursor starts at the beginning of the text |
| JsonParse.Parser.SkipSpace | src/json/json_parse.c:12-15 | the cursor moves past the white space exactly as SkipWs says |
| JsonParse.Parser.MatchWord | src/json/json_parse.c:17-22 | the word is consumed exactly when it follows in full |
| JsonParse.Parser.ScanString | src/json/json_parse.c:32-41 | the scan reports a closed string exactly when the body reads, and its decoded length |
| JsonParse.Parser.ParseStringRaw | src/json/json_parse.c:26-67 | succeeds exactly when ReadString does, with its bytes and the cursor after the closing quote |
| JsonParse.Parser.CopyChars | src/json/json_parse.c:43-66 | the copy loop fills a buffer of the scanned length with the decoded body and consumes the closing quote |
| JsonParse.Parser.NextChar | src/json/json_parse.c:48-62 | one byte or one escape is decoded and the cursor moves past it |
| JsonParse.Parser.ParseNumber | src/json/json_parse.c:89-99 | succeeds exactly when ReadNumber does, leaving the cursor where strtod stops |
| JsonParse.Parser.ParseValue | src/json/json_parse.c:178-213 | succeeds exactly when ReadValue does, with its value and the cursor after it |
| JsonParse.Parser.Separator | src/json/json_parse.c:127-131 | past white space: a comma, the closing byte, or anything else, consuming the first two |
| JsonParse.Parser.ParseArray | src/json/json_parse.c:101-133 | succeeds exactly when ReadArray does, with its items and the cursor after ']' |
| JsonParse.Parser.ParseMember | src/json/json_parse.c:150-158 | succeeds exactly when ReadMember does |
| JsonParse.Parser.ParseObject | src/json/json_parse.c:135-176 | succeeds exactly when ReadObject does, with its members and the cursor after '}' |
| JsonParse.JsonParse | src/json/json_parse.c:217-222 | the cursor parser returns the value the functional reader describes |
| JsonParse.LookupFirst | src/json/json_parse.c:252-256 | a key is found exactly when some member has it, and the value is that of the first such member |
| JsonParse.Get | src/json/json_parse.c:249-257 | nothing for a missing or non-object value, otherwise the first member with the key |
| JsonParse.ArrayLen | src/json/json_parse.c:259-263 | a non-zero length only for an array |
| JsonParse.ArrayGet | src/json/json_parse.c:265-269 | an element exactly for an index below the length, and it is one of the items |
| JsonParse.StringOf | src/json/json_parse.c:271-275 | a string exactly for a string value |
| JsonParse.NumberOf | src/json/json_parse.c:277-281 | the lexeme of a number, "0" otherwise |
| JsonParse.BoolOf | src/json/json_parse.c:283-287 | true only for the boolean true |
| JsonParse.AccessorsOnWritten | src/json/json_parse.c:249-287 | on a tree parsed from its written text, every accessor gives back the part it was written from |
| JsonParse.ScanAsWritten | src/json/json_parse.c:35-41 | the scan as written stops only at a NUL or a quote inside the buffer |
| JsonParse.BackslashAtEnd | src/json/json_parse.c:36-41 | a backslash as the last byte makes the scan as written step over the NUL; the corrected reader refuses the text |
| JsonParse.UnterminatedIsNone | src/json/json_parse.c:41 | a body with no quote is refused |
| JsonParse.ScanAgrees | src/json/json_parse.c:36-41 | where the scan as written stays in the text, it finds the closing quote exactly when the body reads |
| ShipData.ShipClass.constructor | src/game/ship_data.c:186-188 | a ship class with its name, species and flat subsystem array, and an empty serialization list with no reactor entry |
| ShipData.ShipClass.FindSubsystem | src/game/ship_data.c:90-96 | the loop returns the index FindName gives |
| ShipData.ShipClass.Place | src/game/ship_data.c:139-147 | a name is placed as PlaceName says: its subsystem's index, or a fresh HP slot |
| ShipData.ShipClass.LoadChildren | src/game/ship_data.c:155-178 | the children loop reaches the state AllKids describes over the first BC_SS_MAX_CHILDREN children |
| ShipData.ShipClass.LoadSerializationList | src/game/ship_data.c:111-182 | the list and the subsystems end as LoadList computes them |
| ShipData.FindFrom | src/game/ship_data.c:92-95 | -1, or an index from i on whose subsystem has the name |
| ShipData.FindName | src/game/ship_data.c:90-96 | -1, or the index of a subsystem with the name |
| ShipData.FindFirst | src/game/ship_data.c:92-95 | -1 exactly when no subsystem has the name, otherwise the first one that has it |
| ShipData.FindKeepsOverParents | src/game/ship_data.c:169 | setting a subsystem's parent does not change which subsystem a name finds |
| ShipData.ParseFormat | src/game/ship_data.c:99-106 | "powered" and "power" give their formats; every other value, strings included, gives base |
| ShipData.Capped | src/game/ship_data.c:157-158 | the first min(length, cap) items of an array, each as json_array_get gives it |
| ShipData.PlaceEffect | src/game/ship_data.c:139-147 | a name some subsystem has is placed at its first such subsystem; any other takes the next slot, which advances until BC_MAX_SUBSYSTEMS |
| ShipData.KidsShape | src/game/ship_data.c:155-178 | one slot per child; a child whose name some subsystem has gets the index of the first subsystem with that name, any other child a fresh slot from the counter; names kept; a subsystem that is no child's slot is unchanged and every subsystem a child was matched to ends with the entry's slot as its parent |
| ShipData.KidsSlots | src/game/ship_data.c:161-176 | after c children, child j's slot is the first subsystem with its name when there is one, otherwise a fresh slot between the counter's start and end |
| ShipData.KidsParents | src/game/ship_data.c:164-169 | after the children loop, a subsystem no child was matched to is unchanged, and a subsystem some child was matched to has the entry's slot as its parent |
| ShipData.StepShape | src/game/ship_data.c:130-178 | one entry is appended, fits its JSON item, takes its own and its children's slots by name, and the slot counter stays within BC_MAX_SUBSYSTEMS |
| ShipData.StepMatches | src/game/ship_data.c:137-176 | the appended entry's slot is the first subsystem named like the item when there is one, otherwise a fresh slot, and likewise for each of its children |
| ShipData.EntriesShape | src/game/ship_data.c:129-179 | after n entries: n entries, each fitting its item, names kept, counter within bounds |
| ShipData.EntriesReactor | src/game/ship_data.c:150-152 | the reactor entry is the last entry whose format is power, or -1 |
| ShipData.EntriesParents | src/game/ship_data.c:128-178 | every subsystem's parent is its old one or the HP slot of an entry that lists it as a child; precisely, the slot of the last entry listing it, or its old parent when no entry does |
| ShipData.EntriesMatch | src/game/ship_data.c:128-176 | after n entries, every entry and every child of it takes the index of the first subsystem with its name, or a fresh slot when no subsystem has that name |
| ShipData.EntriesLastParent | src/game/ship_data.c:128-178 | after n entries, each subsystem's parent is the slot of the last entry whose children include it, or its parent before the list was read |
| ShipData.ListLoaded | src/game/ship_data.c:111-182 | at most BC_SS_MAX_ENTRIES entries, each from its array item, with it and its children slotted by name (first subsystem with the name, else a fresh slot); the total HP slots lie between the subsystem count and BC_MAX_SUBSYSTEMS; the reactor is the last power entry; each subsystem ends with the slot of the last entry listing it as a child, or its old parent |
| ShipData.NoList | src/game/ship_data.c:117-120 | without an array: no entries, no reactor, and as many HP slots as subsystems |
| ShipData.SaturatedSlotShared | src/game/ship_data.c:144-146 | with the slots exhausted, two unknown containers share the last slot |
| ShipData.GetShip | src/game/ship_data.c:312-316 | a ship exactly for an index in range, and it is the ship at that index |
| ShipData.FirstSpecies | src/game/ship_data.c:320-323 | -1, or an index from i on whose ship has the species |
| ShipData.FirstSpeciesFirst | src/game/ship_data.c:320-323 | -1 exactly when no ship has the species, otherwise the first that has it |
| ShipData.FindShipIndex | src/game/ship_data.c:327-334 | the loop returns the first ship of the species, or -1 |
| ShipData.FindShip | src/game/ship_data.c:318-325 | a ship exactly when one has the species, and it is the first such ship |
| ShipData.FirstProjectile | src/game/ship_data.c:339-341 | -1, or an index from i on whose projectile has the network type |
| ShipData.FirstProjectileFirst | src/game/ship_data.c:339-341 | -1 exactly when no projectile has the type, otherwise the first that has it |
| ShipData.GetProjectile | src/game/ship_data.c:336-343 | a projectile exactly when one has the type, and it is the first such projectile |
| ServerStats.Elapsed | src/server/server_stats.c:38 | u32 subtraction: start plus the result is now modulo 2^32, and the plain difference when now is not below start |
| ServerStats.Split | src/server/server_stats.c:13-16 | hours, minutes and seconds that make up the seconds, minutes and seconds below 60 |
| ServerStats.RenderSmall | src/server/server_stats.c:18-22 | the text of one, two and three pieces is their digits and marks in order |
| ServerStats.DigitRun | src/server/server_stats.c:18 | the longest run of digits at the start |
| ServerStats.MarkRun | src/server/server_stats.c:18 | the longest run of non-digits at the start |
| ServerStats.DigitRunOf | src/server/server_stats.c:18 | a run of digits followed by a non-digit is read back whole |
| ServerStats.MarkRunOf | src/server/server_stats.c:18 | a run of non-digits followed by a digit is read back whole |
| ServerStats.PieceOf | src/server/server_stats.c:18 | a text is split into a piece of digits and its mark, then the rest |
| ServerStats.ReadableTail | src/server/server_stats.c:18 | the tail of splittable pieces is splittable |
| ServerStats.RenderStart | src/server/server_stats.c:18 | rendered pieces start with a digit |
| ServerStats.RenderBack | src/server/server_stats.c:18-22 | splitting rendered pieces gives them back |
| ServerStats.DurationPiecesBack | src/server/server_stats.c:17-22 | each of the three duration formats reads back as h*3600 + m*60 + s |
| ServerStats.DurationOfPieces | src/server/server_stats.c:17-22 | the pieces format_duration chooses are worth the seconds they were made from |
| ServerStats.ValueOfPiece | src/server/server_stats.c:18 | the digits of %u read back as the number |
| ServerStats.DurationRoundTrip | src/server/server_stats.c:11-23 | the duration text reads back as the whole seconds of the milliseconds |
| ServerStats.DurationFits | src/server/server_stats.c:39-40 | every duration text fits the 32-byte buffer |
| ServerStats.TimeOffsetRoundTrip | src/server/server_stats.c:26-33 | the "H:MM:SS" text reads back as the whole seconds of the offset |
| ServerStats.OffsetPiecesBack | src/server/server_stats.c:32 | "H:MM:SS" with two-digit padding reads back as h*3600 + m*60 + s |
| ServerStats.OffsetOfPieces | src/server/server_stats.c:32 | the offset pieces are worth the seconds they were made from |
| ServerStats.TimeOffsetFits | src/server/server_stats.c:57-62 | every offset text fits the 16-byte buffer |
| ServerStats.NonzeroRows | src/server/server_stats.c:73-79 | a row is collected exactly for a non-zero counter, with its count, in ascending opcode order |
| ServerStats.Collect | src/server/server_stats.c:72-79 | the collection loop fills the first n slots with the non-zero rows and leaves the rest |
| ServerStats.InsertPermutes | src/server/server_stats.c:82-88 | inserting adds x to the rows and loses none |
| ServerStats.SortPermutes | src/server/server_stats.c:81-89 | the sort is a permutation of the rows |
| ServerStats.InsertDescending | src/server/server_stats.c:84-88 | inserting into rows sorted by decreasing count keeps them sorted |
| ServerStats.SortDescending | src/server/server_stats.c:81-89 | the rows come out by decreasing count |
| ServerStats.InsertOrdered | src/server/server_stats.c:84 | inserting a later opcode keeps equal counts in opcode order |
| ServerStats.SortOrdered | src/server/server_stats.c:81-89 | the sort is stable: equal counts stay in ascending opcode order |
| ServerStats.InsertAt | src/server/server_stats.c:83-88 | the inner loop's stop position is where Insert places the row |
| ServerStats.InsertStep | src/server/server_stats.c:82-88 | one outer pass leaves the first i+1 rows as Insert of row i into the sorted prefix, and the rest untouched |
| ServerStats.InsertionSort | src/server/server_stats.c:81-89 | the first n rows become Sort of themselves and the rest are untouched |
| ServerStats.OpcodeTable | src/server/server_stats.c:69-89 | the table holds the sorted non-zero rows |
| ServerStats.TableRows | src/server/server_stats.c:69-89 | each non-zero counter appears exactly once with its count, by decreasing count, ties by opcode |
| TraceCompare.ParseTrace | tools/compare_traces.py:269-307 | the reading loop returns the per-opcode lists ByOpcode gives and the count of all complete records |
| TraceCompare.ReadRecord | tools/compare_traces.py:280-293 | a header and a payload are complete exactly when the payload fits, and then the record is the first of the records from there; otherwise reading stops |
| TraceCompare.ByOpcodeAppend | tools/compare_traces.py:294-305 | a record with a payload is filed under its first byte; one without is counted only |
| TraceCompare.ListsAreFilters | tools/compare_traces.py:295-305 | an opcode has a list exactly when some record starts with it, and the list holds those records in file order |
| TraceCompare.SumAppend | tools/compare_traces.py:295-305 | one more record adds one to the lists of the opcodes at or below its first byte |
| TraceCompare.ListsCount | tools/compare_traces.py:294-305 | the list lengths plus the records with empty payload make up the record count |
| TraceCompare.RecordAt | tools/compare_traces.py:285-290 | an encoded record's header gives its length, tick, direction and slot back |
| TraceCompare.PartialAt | tools/compare_traces.py:281-292 | a short header or a short payload at the end yields no record |
| TraceCompare.RecordIn | tools/compare_traces.py:280-292 | an encoded record at pos is read back whole and reading resumes after it |
| TraceCompare.RecordsBack | tools/compare_traces.py:280-293 | encoded records followed by a partial tail read back as exactly those records |
| TraceCompare.TraceBack | tools/compare_traces.py:274-293 | the magic, encoded records and a partial tail read back as the records |
| TraceChecks.LayoutOf | tools/compare_traces.py:154-262 | a layout exactly for the eleven opcodes the table lists, 0x03 to 0x29 |
| TraceChecks.CompareOpcode | tools/compare_traces.py:374-493 | the loop makes the checks Compare lists: opcode byte, length, field walk, then the opcode's own checks |
| TraceChecks.WalkPasses | tools/compare_traces.py:396-430 | the field walk passes exactly when the fixed fields fit the payload; only its last check can fail, and that one is a presence check |
| TraceChecks.LayoutsConsistent | tools/compare_traces.py:154-262 | every layout's fixed fields add up to its exact or minimum length |
| TraceChecks.WalkMatchesLength | tools/compare_traces.py:382-430 | with a minimum length the walk passes exactly when the length check does; an exact length met means the walk passes |
| TraceChecks.WalkCount | tools/compare_traces.py:396-430 | when every field fits, one check per fixed field |
| TraceChecks.AllPassConcat | tools/compare_traces.py:586-594 | a list of checks passes exactly when both its parts pass |
| TraceChecks.ComparePasses | tools/compare_traces.py:374-493 | a payload with the right opcode byte whose length and opcode checks pass passes every check |
| TraceChecks.ReferencesPass | tools/compare_traces.py:30-147 | every reference payload compared with itself passes every check |
| TraceChecks.UntargetedBeamFails | tools/compare_traces.py:433-444 | a ten-byte beam fire without a target passes the layout checks but fails the target bit and total length checks against the targeted reference |
| TraceChecks.Sample | tools/compare_traces.py:547-549 | a record exactly when the list is non-empty: the first sent record of the list, or the first record when none was sent |
| TraceChecks.FirstSent | tools/compare_traces.py:548 | the first sent record from i on, or the end |
| TraceChecks.ByOpcodeIndexed | tools/compare_traces.py:295-305 | every list of the map is non-empty and starts with its opcode |
| TraceChecks.Passed | tools/compare_traces.py:587-594 | the passed count is at most the total, and equal exactly when all pass |
| TraceChecks.PassedAppend | tools/compare_traces.py:587-594 | passed counts add up over concatenation |
| TraceChecks.CheckOpcode | tools/compare_traces.py:541-598 | one opcode's checks: its sample compared with its reference, none when it was not generated |
| TraceChecks.Tally | tools/compare_traces.py:586-594 | the counting loop gives the total, the passed count, and whether all passed |
| TraceChecks.RunComparison | tools/compare_traces.py:536-603 | the totals over every listed opcode, in ascending order |
| TraceChecks.RunOver | tools/compare_traces.py:541-599 | the loop over opcodes accumulates the totals of their checks |
| TraceChecks.OpcodeCheckPasses | tools/compare_traces.py:378-379 | a filed sample always passes the opcode byte check |
| ChecksumDecode.Words | tools/decode_checksum.py:71-74 | count little-endian words are skipped and the cursor ends 4*count further, or the read that overruns raises at a word boundary |
| ChecksumDecode.TreeD | tools/decode_checksum.py:126-152 | a tree of hypothesis D consumes at least its file count and stays within the data, or raises inside it |
| ChecksumDecode.TreesD | tools/decode_checksum.py:150-152 | the subtrees of hypothesis D are read in sequence within the data |
| ChecksumDecode.TreeB | tools/decode_checksum.py:91-108 | a tree of hypothesis B consumes at least its count fields and stays within the data, or raises inside it |
| ChecksumDecode.SubdirsB | tools/decode_checksum.py:102-114 | the subdirectories of hypothesis B are read in sequence within the data |
| ChecksumDecode.Judge | tools/decode_checksum.py:116-121 | a perfect parse exactly when the cursor ends at the end, bytes remaining when it stops short, and an error exactly when a read raised |
| ChecksumDecode.ReadHeader | tools/decode_checksum.py:54-64 | opcode and round, then the directory hash, preceded by the reference hash in round 0: 10 or 6 header bytes, and none when the data is shorter |
| ChecksumDecode.Decoder.constructor | tools/decode_checksum.py:28-31 | the payload with the cursor at 0 |
| ChecksumDecode.Decoder.ReadU8 | tools/decode_checksum.py:33-37 | one byte read and the cursor advanced, or the read raises and the cursor stays |
| ChecksumDecode.Decoder.ReadU16 | tools/decode_checksum.py:39-43 | a little-endian u16 read and the cursor advanced by 2, or the read raises |
| ChecksumDecode.Decoder.ReadU32 | tools/decode_checksum.py:45-49 | a little-endian u32 read and the cursor advanced by 4, or the read raises |
| ChecksumDecode.Decoder.SkipFiles | tools/decode_checksum.py:132-135 | the file loop ends as Words says for two words per file |
| ChecksumDecode.Decoder.SkipNames | tools/decode_checksum.py:145-148 | the name loop ends as Words says for one word per name |
| ChecksumDecode.Decoder.ParseTreeD | tools/decode_checksum.py:126-152 | the recursive parse ends where TreeD says, or raises where it says |
| ChecksumDecode.Decoder.ParseTreesD | tools/decode_checksum.py:150-152 | the subtree loop ends where TreesD says |
| ChecksumDecode.Decoder.ParseTreeB | tools/decode_checksum.py:91-108 | the recursive parse ends where TreeB says |
| ChecksumDecode.Decoder.ParseSubdirsB | tools/decode_checksum.py:102-114 | the subdirectory loop ends where SubdirsB says, stopping at the end of the data in the guarded form |
| ChecksumDecode.Decoder.ParseHeader | tools/decode_checksum.py:54-64 | the header is read as ReadHeader says and the cursor is left after it |
| ChecksumDecode.Decoder.TryA | tools/decode_checksum.py:66-77 | hypothesis A yields the u16 subdirectory count HypothesisA gives |
| ChecksumDecode.Decoder.TryB | tools/decode_checksum.py:79-121 | hypothesis B yields the verdict HypothesisB gives: not tried for a count of 0 or of 50 and over, none when an unguarded read raises |
| ChecksumDecode.Decoder.TryD | tools/decode_checksum.py:123-161 | hypothesis D, from offset 6, yields the verdict of TreeD judged against the length |
| ChecksumDecode.DecodeScript | tools/decode_checksum.py:28-161 | the script's run yields the report Decode describes |
| ChecksumDecode.EncodeFiles | tools/decode_checksum.py:71-74 | eight bytes per file entry |
| ChecksumDecode.EncodeNames | tools/decode_checksum.py:145-148 | four bytes per subdirectory name |
| ChecksumDecode.WordsFit | tools/decode_checksum.py:71-74 | words that fit are skipped without raising |
| ChecksumDecode.CountedBack | tools/decode_checksum.py:130 | a written count reads back as the count, leaving what follows |
| ChecksumDecode.LayoutD | tools/decode_checksum.py:126-152 | where the counts, names and subtrees of a written tree D lie |
| ChecksumDecode.LayoutTreesD | tools/decode_checksum.py:150-152 | each subtree follows the previous one |
| ChecksumDecode.WrittenPlacedD | tools/decode_checksum.py:126-152 | a written tree D places every subtree where the parse expects it |
| ChecksumDecode.PlacedHeadD | tools/decode_checksum.py:130-152 | after the files and names of a placed tree, the parse continues with its subtrees |
| ChecksumDecode.PlacedReadD | tools/decode_checksum.py:126-152 | a placed tree D is read exactly to its end |
| ChecksumDecode.PlacedReadTreesD | tools/decode_checksum.py:150-152 | placed subtrees are read exactly to their end |
| ChecksumDecode.TreeDBack | tools/decode_checksum.py:126-152 | every written tree D of at most 100 files per level reads back to exactly its end |
| ChecksumDecode.LayoutB | tools/decode_checksum.py:91-108 | where the counts and subdirectories of a written tree B lie |
| ChecksumDecode.LayoutSubdirsB | tools/decode_checksum.py:102-108 | each subdirectory name is followed by its tree |
| ChecksumDecode.WrittenPlacedB | tools/decode_checksum.py:91-108 | a written tree B places every subtree where the parse expects it |
| ChecksumDecode.PlacedReadB | tools/decode_checksum.py:91-108 | a placed tree B is read exactly to its end |
| ChecksumDecode.PlacedReadSubdirsB | tools/decode_checksum.py:102-108 | placed subdirectories are read exactly to their end |
| ChecksumDecode.TreeBBack | tools/decode_checksum.py:91-108 | every written tree B within the caps reads back to exactly its end |
| ChecksumDecode.DFromOffsetSix | tools/decode_checksum.py:123-157 | a non-zero round response whose tree is written in grammar D is a perfect parse |
| ChecksumDecode.DIgnoresRoundZeroHeader | tools/decode_checksum.py:124 | hypothesis D restarts at 6 even in round 0, reading the directory hash as the tree and leaving bytes over |
| ChecksumDecode.DAcceptsMissingCount | tools/decode_checksum.py:136-138 | a tree that ends after its files, with no subdirectory count, is accepted |
| ChecksumDecode.FileCapD | tools/decode_checksum.py:132 | past 100 files the rest of the entries are left unread |
| ChecksumDecode.HypothesisBBack | tools/decode_checksum.py:79-117 | a response written in grammar B with subdirectories is a perfect parse under hypothesis B |
| Scrape.EncodeAscii | tools/scrape_bc.py:536 | encoding succeeds exactly when every character is below 0x80, and keeps each character as its byte |
| Scrape.NameHashRaises | tools/scrape_bc.py:533-541 | the name hash raises exactly when the name holds a non-ASCII character |
| Scrape.StringHashPy | tools/scrape_bc.py:533-541 | the lane loop returns NameHash: the hash of the ASCII bytes, or the error for a non-ASCII name |
| Scrape.NameHashAgreesWithC | tools/scrape_bc.py:534 | for NUL-free ASCII names the script's hash equals the server's string hash of the same bytes |
| Scrape.PyExtend | tools/scrape_bc.py:558-559 | the script's sign extension of a tail byte masked to 32 bits equals the server's |
| Scrape.FileHashPy | tools/scrape_bc.py:544-561 | the script's loops compute the server's content hash, word 1 skipped and the tail sign-extended |
| Scrape.TailPy | tools/scrape_bc.py:554-560 | the tail loop folds the remainder bytes as the server's tail does |
| Scrape.TailBounds | tools/scrape_bc.py:547-556 | the tail starts at the last whole word, holds len % 4 bytes, and adds nothing when there are none |
| Scrape.StripSlashes | tools/scrape_bc.py:589 | rstrip("/"): a prefix that does not end in '/', and only slashes were removed |
| Scrape.AfterLastSlash | tools/scrape_bc.py:590 | the position after the last '/', with no '/' after it |
| Scrape.SegmentsSpec | tools/scrape_bc.py:581 | the components of a path are non-empty and hold no '/' |
| Scrape.LeafIsLastSegment | tools/scrape_bc.py:589-590 | the leaf is empty exactly when the path has no component, otherwise it is the last component |
| Scrape.SingleName | tools/scrape_bc.py:590 | a name without '/' is its own only component and leaf |
| Scrape.TrailingSlash | tools/scrape_bc.py:589 | a trailing '/' changes neither the components nor the leaf |
| Scrape.AppendName | tools/scrape_bc.py:589-590 | appending "/name" appends a component that becomes the leaf |
| Scrape.TwoNames | tools/scrape_bc.py:589-590 | "a/b/" has components a, b and leaf b |
| Scrape.ThreeNames | tools/scrape_bc.py:589-590 | "a/b/c/" has components a, b, c and leaf c |
| Scrape.LookupSpec | tools/scrape_bc.py:603 | a name is found in a listing exactly when an entry has it, and the entry found is one with that name |
| Scrape.BelowTotal | tools/scrape_bc.py:602 | any two names are equal or one sorts before the other |
| Scrape.InsertSpec | tools/scrape_bc.py:602 | inserting into a sorted listing keeps it sorted and adds just the entry |
| Scrape.SortSpec | tools/scrape_bc.py:602 | sorted() orders the listing by name and is a permutation of it |
| Scrape.SuffixFilterExamples | tools/scrape_bc.py:597-598 | "*.pyc" matches names ending in .pyc in any case, and not "Galaxy.py" or "pyc" |
| Scrape.NameFilterExamples | tools/scrape_bc.py:599 | "App.pyc" matches its name in any case, and not a name that only ends with it |
| Scrape.FilesOfExact | tools/scrape_bc.py:602-611 | the files scanned are the matching regular files in order, each with its name and hashes; a non-ASCII name among them raises |
| Scrape.FilesOfFailed | tools/scrape_bc.py:609 | once a name raises, the rest of the listing changes nothing |
| Scrape.ScanFiles | tools/scrape_bc.py:601-611 | the file loop returns what FilesOf describes |
| Scrape.FilesCoverMatches | tools/scrape_bc.py:602-611 | every matching regular file of the listing has a record that describes it |
| Scrape.FilesOnlyMatches | tools/scrape_bc.py:602-611 | every record describes a matching regular file of the listing |
| Scrape.FilesInOrder | tools/scrape_bc.py:602 | the records are in name order |
| Scrape.HiddenFileRecorded | tools/scrape_bc.py:604 | a matching file whose name starts with '.' is recorded all the same |
| Scrape.SubdirsOfExact | tools/scrape_bc.py:615-635 | one record per kept directory in order, with its name, name hash and non-empty files; a non-ASCII name raises |
| Scrape.KeptMembers | tools/scrape_bc.py:617-630 | a directory is kept exactly when it is not hidden and holds a matching file |
| Scrape.SubdirsOfFailed | tools/scrape_bc.py:627-633 | once a name raises, the rest of the listing changes nothing |
| Scrape.ScanSubdirs | tools/scrape_bc.py:613-635 | the subdirectory loop returns what SubdirsOf describes |
| Scrape.SubdirsCoverKept | tools/scrape_bc.py:615-635 | every kept directory of the listing has a record with its files |
| Scrape.SubdirsOnlyKept | tools/scrape_bc.py:615-635 | every record is a visible directory of the listing with non-empty matching files |
| Scrape.SubdirsInOrder | tools/scrape_bc.py:615 | the records are in name order |
| Scrape.HiddenDirSkipped | tools/scrape_bc.py:617-618 | a directory whose name starts with '.' is skipped |
| Scrape.DeepMatchIgnored | tools/scrape_bc.py:620-622 | a match two levels down is not scanned, so its directory is not kept |
| Scrape.ScanRound | tools/scrape_bc.py:580-649 | one round returns what RoundOf describes: none for a missing directory, otherwise its hashes, files and subdirectories |
| Scrape.RoundsInOrder | tools/scrape_bc.py:580-653 | the manifest holds one result per round in order, none exactly for a missing directory, or the error of the first round that raises |
| Scrape.FourRounds | tools/scrape_bc.py:573-578 | a manifest that is built has four rounds |
| Scrape.ScanManifest | tools/scrape_bc.py:564-653 | the round loop returns the manifest Manifest describes |
| Scrape.Round0Names | tools/scrape_bc.py:574 | round 0 scans "scripts" and hashes the leaf "scripts" |
| Scrape.Round1Names | tools/scrape_bc.py:575 | round 1 scans scripts/Custom/Multiplayer with the leaf "Multiplayer" |
| Scrape.Round2Names | tools/scrape_bc.py:576 | round 2 scans scripts/ships with the leaf "ships" |
| Scrape.Round3Names | tools/scrape_bc.py:577 | round 3 scans scripts/ships/Hardpoints with the leaf "Hardpoints" |
| Scrape.Round0DirHash | tools/scrape_bc.py:588-591 | round 0's directory hash is the server's known hash of "scripts" |
| Scrape.TableDiffersFromServer | tools/scrape_bc.py:573-578 | the script's rounds 1 to 3 differ from the server's round table in filter, directory or recursion |

## Left out

- The hash tables of string_hash.c come from hash_tables.c, which is not part of this model; they are copied from tools/scrape_bc.py:456-530 and pinned by the known hashes.
- `file_hash_from_path`, `bc_manifest_load`, `bc_buf_alloc` and `bc_buf_free`: file and heap I/O.
- `bc_buf_read_u32`/`bc_buf_write_u32` are declared in buffer.h but their bodies are not shown; they are modelled as the i32 primitives on the unsigned value.
- Manifest.HexToU32: strtoul is modelled for the strings the loader meets (an optional "0x", hex digits, saturation to ULONG_MAX before the cast to u32); leading blanks and a sign are not modelled.
- ChecksumResponse.ResponseParse: on failure the C leaves partially filled fields in the zeroed record; the model returns None.
- ChecksumResponse.ParseTree returns the files of a skipped subtree as well; the C consumes them without storing, and the callers here drop them.
- The response limits BC_CHECKSUM_MAX_RESP_FILES, BC_CHECKSUM_MAX_RESP_SUBDIRS and BC_CHECKSUM_MAX_SUB_FILES live in checksum.h, which is not part of this model; they are the `Limits` parameter.
- bc_checksum_result_name's "unknown" fallback cannot be reached from a value of the enum and is not modelled.
- Reliable.Queue.Add: the payload is a byte sequence, so the negative payload_len the C signature admits (which memcpy would misuse) cannot be expressed.
- Peer.Slot: a peer's name, checksum round, reliable sequence numbers, fragment buffer and reliable queue are zero in every slot that init, add and remove produce, and are set by server code that is not part of this model; the slot keeps only the fields these operations set.
- `bc_outbox_flush`: it applies the cipher and sends on a socket; its packet is the one FlushToBuf writes.
- Outgoing.Outbox.AddUnreliable: the payload is a byte sequence, so the negative lengths the C `int len` admits cannot be expressed; the same holds for the other payload-taking builders.
- Transport.Parse: payloads are sub-sequences where the C keeps pointers into the packet; aliasing of the packet buffer is not modelled.
- Reassembly.FragmentBuf.Receive: the log messages on reset are not modelled.
- Handshake.RequestFinalBuild: the comment at handshake.c:54 quotes a final byte 0x21, but write_bit of a single true bit writes 0x01; the model follows the code.
- Slot 6 of the object-id mapping: tests/test_game_events.c:31 expects an id in slot 6's range to map to -1, but BC_MAX_PLAYERS is 7 (include/openbc/opcodes.h:153) and the code returns 6; the model follows the code (GameEvents.SlotSixRecognised).
- `bc_parse_set_phaser_level` and `bc_parse_host_msg` are declared in game_events.h but have no body in game_events.c; they are not modelled.
- The game-event parsers: on failure the C leaves a zeroed, partially filled record; the model returns only the failure.
- cv3, cv4 and cf16 fields are kept as their opaque 3, 5 and 2 wire bytes; their decoding into floats by the buffer layer is floating point and is not modelled.
- In a state update, the delta-position field (dirty bit 1) is read and dropped as in the C; dirty bits 5-7 are left unread as in the C.
- `scan_single_dir` and the rest of `bc_client_scan_directory` (directory listing, path joining, reading and hashing each file): filesystem I/O. The model keeps `filter_match` and the leaf-name extraction that feeds the directory hash.
- ClientChecksum.RecursiveImage: the bytes of a recursive response are proved, but the server parser's reading of them back into subdirectories is not; only the flat and final responses carry a parse round trip (FlatParses, FinalParses).
- The client checksum builders take the files and subdirectories as sequences, so the negative file_count and subdir_count the C `int` parameters admit cannot be expressed; counts past a u16 or u8 are cast as in the C (Count16, Count8).
- The client unreliable message (bc_client_build_unreliable) (type 0x32, flags 0x00, no sequence bytes) is read by bc_transport_parse as if it had two sequence bytes (UnreliableAsParsed); the source does not say which side is intended, so the model records the mismatch rather than correcting either side.
- Master: name resolution (`resolve_address`), the sockets, the timed receive loop of `bc_master_probe` and the log lines are left to the caller; Add takes the resolved address, ProbeDatagram takes one classified datagram, and the sending operations return the indices of the entries they send to.
- GameSpy: the query and reply texts are byte sequences; the sockets that carry them are not modelled.
- Json.NumberLength: the hexadecimal ("0x1A"), infinity and NaN forms that strtod also reads after a leading digit or minus are not modelled; the model stops after the decimal prefix.
- Json: a number keeps the text strtod reads; its double value, and so `json_number`'s value and `json_int`'s truncating cast, are floating point and are not modelled (NumberOf returns the text).
- JsonParse: malloc, calloc and realloc are taken to succeed, so the NULL returns on allocation failure and `json_free` are not modelled; arrays and objects are sequences, so the capacity doubling is not modelled.
- JsonParse.JsonParse: the text is the bytes of the C string before its terminating NUL; a sequence with a NUL inside, which a C caller cannot pass, is read as given rather than cut at the NUL (the same holds for JsonParse.Parser.constructor).
- GameBuilders.ChatBuild: the message is the C string without its terminator, as strlen measures it; a sequence with a NUL inside, which a C caller cannot pass, is written in full.
- ClientTransport.KeepaliveNameBuild: the name is the C string without its terminator, as strlen measures it; a sequence with a NUL inside, which a C caller cannot pass, is encoded in full.
- ShipData: `bc_registry_load`, `load_ship`, `load_projectile` and `copy_str` read a JSON file into floating-point and fixed-size string fields; file I/O and floating point are not modelled, and a ship class is built from its name, species and subsystems.
- ShipData.ShipClass.LoadSerializationList: the entries' max_condition, normal_power and the children's max_condition are floats and are not modelled.
- ServerStats: `bc_log_session_summary`'s log lines, the player history and the network counters are logging; the model keeps the arithmetic (Elapsed, the two time formats) and the opcode tables; GetTickCount is the parameter now.
- Scrape: the script's reference-script scraping, its float parsing, argument handling, JSON output and stderr messages are not modelled; the model is `scan_manifest` and the two hashes.
- Scrape: the file system is an abstract tree of nodes; symbolic links, unreadable files and names that occur twice in one listing are not modelled.
- Scrape: `str.lower` is modelled on ASCII letters only; other characters are unchanged.
- TraceCompare: file reading is a byte-sequence parameter; the printed report and the detail texts of each check are not modelled, only which checks are made and whether each passes.
- TraceChecks: the "Min length" rule's detail text, `field_breakdown`, `hex_str` and the float and object-id formatting are display only and are not modelled.
- TraceChecks.RunComparison: when no record with a payload was parsed, the script prints "ERROR: Could not parse OBCTRACE" and exits with status 1 before comparing (tools/compare_traces.py:511-513); the model does not stop there and gives the totals of a run over the empty index, in which no opcode was generated.
- ChecksumDecode: the payload is a parameter instead of the embedded hex dump, and the printed lines are not modelled; each hypothesis yields its count or verdict.

## Findings

| source | as written | input that shows it | evidently intended | confidence | as-written member | corrected member |
|---|---|---|---|---|---|---|
| src/network/transport.c:66-74 | the unreliable builder checks only the output size and writes (u8)(2 + payload_len) as the length byte | a 254-byte payload with out_size 512: the length byte is 0 and the packet no longer parses | reject a message whose length does not fit its byte, as the reliable builder and the outbox do | not executed; high | Transport.UnreliableOverflow | Transport.BuildUnreliableChecked |
| src/protocol/handshake.c:125-130 | a time limit of 255 is written as the byte 0xFF followed by end_time | time_limit = 255: the reader takes 0xFF as "no limit", reads the first end_time byte as the frag limit and is left with trailing bytes | a limit byte of 255 is not a valid limit, so the builder should write the no-limit marker for it | not executed | Handshake.MissionInitMarkerClash | Handshake.MissionInitFixedDecodes |
| src/json/json_parse.c:36-41 | the length scan skips the byte after a backslash without checking for the terminating NUL | the text '"\' (a quote, then a backslash as its last byte): the scan steps over the NUL and reads past the end of the text | stop the scan at the NUL, so that an unterminated string is refused | not executed | JsonParse.BackslashAtEnd | JsonParse.UnterminatedIsNone |
