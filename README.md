# s2client core in Dafny

A verified model of the protocol core of s2client, a headless client for the
game Savage 2. The client logs in through the master server and joins a game
server over UDP. It keeps the server's entities in step from compressed
snapshots and drives a small session state machine. The model covers:

- the byte cursors `network::packet` and `core::bytestream`;
- `core::bitvector` and the tree-compressed field-presence bitfield
  (`bits2htree`, `bfhcomp`, `bfhdecomp`, `entity::decodefieldsbitarray`);
- FNV-1a hashing (Fowler/Noll/Vo, section 2 of the IETF Internet-Draft
  draft-eastlake-fnv) and the entity attribute dispatch it keys;
- the reliable-datagram layer: `netmsg::parse` and `netclient`'s framing,
  sequencing, acknowledgement and out-of-order queue;
- the entity table and snapshot ingestion in `game` and `snapshot`;
- the `userclient` session: command handlers, `think`, state strings, cvars,
  fragment reassembly and the `clientstate` input mask;
- the secondary parsers and structures: the SMDL model loader, replay
  headers, the master server's reply parser and login check, the `.mdf`
  resource registry, Bresenham line stepping and the `map2d` grid.

Code that changes state in place is modelled as classes with `modifies`
frames: packets, streams, bit vectors, entities, the game, the net client, the
user client, models, replays, the resource manager, the grid and the line
iterator. Each method is proved equal to a specification function on values,
and the properties are proved as lemmas about those functions. Code that is
pure in the source, such as FNV, the block splitter and the session decisions,
is modelled as functions.

Sockets, clocks, randomness, zlib, zip archives and XML become parameters:

- the socket is a finite sequence of inbound datagrams plus an append-only
  log of outbound frames;
- elapsed milliseconds, the client id and the HTTP response text are
  arguments;
- decompression (`Env.inflate`), archive extraction and XML parsing are
  function-typed parameters.

Every `core::error` call (an abort) is a `Fatal` outcome. The debug
`assert`s are treated one by one:

- a failing one in the master-server parser is an `AssertFails` outcome;
- the one in `packet.hpp`'s `read<T>` guards a read past the end, which is
  a failure outcome;
- the one in `game.cpp`'s field loop gives a `Failed(OutOfData)` snapshot;
- `packet::advance` moves the read index as the code before its assert
  (`packet.cpp:53`) does, without failing;
- `update`'s assert that a message is non-empty is not a failure: an empty
  message processes no commands;
- the two snapshot-length asserts follow a `core::error` on the same
  condition, so they never fail;
- `bfhcomp`'s `assert(false)` is unreachable (FieldBits.EmitChildren).
- the iterator's `assert(!finished())` in `next()` (`bresenham.hpp:55`) is
  the precondition `!Finished()` of Bresenham.Iterator.Next; the only
  caller (`world.cpp:304-305`) tests `finished()` before each call.

Module layout: `Common` and `LittleEndian` hold shared helpers. Each core
file has its own module: `Packet`, `ByteStream`, `BitVector`, `FieldBits`,
`Fnv`, `Entity`, `TypeRegistry`, `NetMsg`, `NetClient`, `Snapshot`, `Game`,
`StateStrings`, `ClientInput`, `ClientWire`, `Session`, `UserClient`,
`Bresenham`, `World`, `SmdlFormat` (the model format as values),
`SmdlModel` (the loader), `Replays`, `MasterServer` and `Resources`.

Where the headers and the `.cpp` files disagree, the model follows the
`.cpp` files:

- `game.hpp` declares `readentupdate` and `rcvserversnapshot` with fewer
  parameters, and its `ServerSnapshotHdr` has no timestamp and no
  state-string sequence; the model follows `game.cpp`.
- `userclient.hpp` lacks the `WaitingFirstFrame` state that `userclient.cpp`
  uses; the model includes it.

## Model

| member | source | states |
|---|---|---|
| BitVector.BitVector.constructor | s2client/core/utils/bitvector.hpp:26-29 | a vector of nbits bits holds ceil(nbits / 8) zero bytes and count nbits, and is valid |
| BitVector.BitVector.Set | s2client/core/utils/bitvector.hpp:12-18 | assigning bit idx through the proxy changes only that bit of its byte (all other bits and the count unchanged) and reading it back gives the assigned value |
| BitVector.BitVector.Append | s2client/core/utils/bitvector.hpp:31-39 | at a byte boundary a byte holding b in bit 0 is pushed, otherwise bit count is set in place; the count grows by one and validity is kept |
| BitVector.BitVector.Bytes | s2client/core/utils/bitvector.hpp:41-49 | bytes() returns the backing bytes; bit i of them is exactly operator[](i) |
| BitVector.LowBitOnly | s2client/core/utils/bitvector.hpp:33 | the byte pushed for a bit (1 or 0) has no bit set other than bit 0 |
| BitVector.AppendBitAt | s2client/core/utils/bitvector.hpp:31-39 | after append, bit count is the appended value and every earlier bit is unchanged |
| BitVector.PacksAppend | s2client/core/utils/bitvector.hpp:31-39 | appending b to bytes that pack the bit list E gives bytes that pack E + [b] |
| BitVector.PacksSet | s2client/core/utils/bitvector.hpp:12-18 | setting bit i of a packing of T packs T with element i replaced |
| BitVector.PacksSuffix | s2client/core/utils/bitvector.hpp:41-46 | dropping k leading bytes of a packing drops exactly its first 8k bits |
| BitVector.PacksZeros | s2client/core/utils/bitvector.hpp:26-29 | zero bytes pack all-clear bits |
| BitVector.PacksUnique | s2client/core/utils/bitvector.hpp:47-49 | two byte strings that pack the same bit list are equal |
| ByteStream.ByteStream.constructor | s2client/core/io/bytestream.cpp:4-6 | a stream over the buffer starts at index 0 |
| ByteStream.ByteStream.Seek | s2client/core/io/bytestream.hpp:17-19 | seek sets the read index to idx, unchecked |
| ByteStream.ByteStream.Advance | s2client/core/io/bytestream.hpp:20-22 | advance adds the offset modulo 2^64 (size_t), so it is the plain sum whenever that sum is a valid index |
| ByteStream.ByteStream.Eof | s2client/core/io/bytestream.hpp:30-32 | eof holds exactly when not even one byte can be read |
| ByteStream.ByteStream.Read | s2client/core/io/bytestream.cpp:8-14 | read(len) succeeds exactly when len bytes remain, returning those bytes and moving past them; otherwise nothing moves |
| ByteStream.ByteStream.ReadBigEndian | s2client/core/io/bytestream.cpp:15-23 | readBigEndian(len) has the same bound rule and writes the len bytes in reverse order; on failure neither the output buffer nor the index changes |
| ByteStream.ByteStream.ReadByte | s2client/core/io/bytestream.hpp:51 | one byte, read exactly when one remains |
| ByteStream.ByteStream.ReadWord | s2client/core/io/bytestream.hpp:52 | the little-endian 16-bit value of the next two bytes, read exactly when they exist |
| ByteStream.ByteStream.ReadDword | s2client/core/io/bytestream.hpp:55 | the little-endian 32-bit value of the next four bytes, read exactly when they exist |
| ByteStream.ByteStream.ReadShort | s2client/core/io/bytestream.hpp:53 | the next two bytes as a signed 16-bit number |
| ByteStream.ByteStream.ReadInt | s2client/core/io/bytestream.hpp:54 | the next four bytes as a signed 32-bit number |
| ByteStream.ByteStream.ReadFloat | s2client/core/io/bytestream.hpp:58 | the raw bits of the next four bytes as a float |
| ByteStream.ByteStream.ReadDwordBE | s2client/core/io/bytestream.hpp:56 | the next four bytes as a big-endian 32-bit value |
| ByteStream.ByteStream.ReadCString | s2client/core/io/bytestream.hpp:60-65 | readString(-1) returns the bytes before the first zero byte (excluded from the result, consumed from the stream); with no zero byte left it fails, and the index ends at the end of the data |
| ByteStream.ByteStream.ReadFixedString | s2client/core/io/bytestream.hpp:66-70 | readString(n) returns exactly the next n bytes when they exist and fails otherwise |
| ByteStream.ByteStream.ReadWCString | s2client/core/io/bytestream.hpp:73-78 | readWString(-1) returns the 16-bit words before the first zero word, consuming them and the terminator |
| ByteStream.ByteStream.ReadFixedWString | s2client/core/io/bytestream.hpp:79-83 | readWString(n) resizes to n and then pushes n more words, so it yields 2n words (n zero words, then the n words read) |
| ByteStream.WStringStep | s2client/core/io/bytestream.hpp:76-77 | reading one non-zero word of a zero-terminated wide string and continuing gives the same string as reading it whole |
| ByteStream.AdvanceFrom | s2client/core/io/bytestream.hpp:20-22 | advance from index from by offs lands on (from + offs) modulo 2^64 |
| ByteStream.ReadU32 | s2client/core/io/bytestream.hpp:55 | readDword as the unsigned number its four little-endian bytes denote |
| ByteStream.ReadS32 | s2client/core/io/bytestream.hpp:54 | readInt as the two's-complement number its four little-endian bytes denote |
| LittleEndian.DwordNumber | s2client/core/io/bytestream.hpp:54-55 | the 32-bit word at i read as bits agrees with its byte-sum value, unsigned and signed |
| LittleEndian.Signed | s2client/core/io/bytestream.hpp:54 | a 32-bit word read as int32 is its unsigned value, less 2^32 when the top bit is set |
| LittleEndian.BytesNumber | s2client/core/io/bytestream.hpp:55 | four little-endian bytes as a 32-bit word and as a base-256 number agree |
| Packet.CString | s2client/network/packet.cpp:92-98 | the string at the front of the bytes is the zero-free run before the first zero byte, and there is none exactly when no zero byte exists |
| Packet.CStringOfTerminated | s2client/network/packet.cpp:92-121 | readstring after writestring gives back the string written (for a string without zero bytes), whatever follows it |
| Packet.Packet.constructor | s2client/network/packet.cpp:4-6 | a new packet is empty with read index 0 |
| Packet.Packet.FromBytes | s2client/network/packet.cpp:8-10 | packet(string&&) holds the string's bytes, read from the start |
| Packet.Packet.Moved | s2client/network/packet.cpp:12-14 | the move constructor takes the other's bytes and read index; the other is left with no bytes |
| Packet.Packet.MoveAssign | s2client/network/packet.cpp:16-20 | move assignment takes the other's bytes and read index; the other is left with no bytes |
| Packet.Packet.Rest | s2client/network/packet.cpp:25-27 | the unread bytes: the data splits into the bytes before the read index and these |
| Packet.Packet.Clear | s2client/network/packet.cpp:37-39 | clear drops every byte and keeps the read index |
| Packet.Packet.Resize | s2client/network/packet.cpp:41-43 | resize truncates to n bytes or extends with zero bytes, keeping the read index |
| Packet.Packet.Seek | s2client/network/packet.cpp:48-50 | seek clamps the index to at most the length and leaves the data alone |
| Packet.Packet.Advance | s2client/network/packet.cpp:51-54 | advance adds the offset modulo 2^64 (size_t); the bound is only a debug assertion |
| Packet.Packet.Remaining | s2client/network/packet.cpp:56-58 | remaining is length minus index modulo 2^64, the number of unread bytes whenever the index is in range |
| Packet.Packet.End | s2client/network/packet.cpp:60-62 | end holds exactly when not even one byte can be read |
| Packet.Packet.Read | s2client/network/packet.cpp:64-71 | read(len) succeeds exactly when len bytes remain, copies them and moves past them; otherwise the index stays |
| Packet.Packet.ReadN | s2client/network/packet.hpp:33-39 | read<T> of an n-byte T: the next n bytes when they exist, and no movement otherwise |
| Packet.Packet.ReadByte | s2client/network/packet.cpp:73-75 | the next byte |
| Packet.Packet.ReadWord | s2client/network/packet.cpp:77-79 | the next two bytes as a little-endian 16-bit value |
| Packet.Packet.ReadDword | s2client/network/packet.cpp:81-83 | the next four bytes as a little-endian 32-bit value |
| Packet.Packet.ReadQword | s2client/network/packet.cpp:85-87 | the next eight bytes as a little-endian 64-bit value |
| Packet.Packet.ReadSingle | s2client/network/packet.cpp:89-91 | the next four bytes as a float's raw bits |
| Packet.Packet.ReadString | s2client/network/packet.cpp:92-98 | readstring returns the bytes up to the first zero byte and consumes that byte too; with no zero byte it fails at the end of the data |
| Packet.Packet.Write | s2client/network/packet.cpp:100-102 | write appends the bytes and leaves the read index |
| Packet.Packet.WriteByte | s2client/network/packet.cpp:103-105 | appends one byte |
| Packet.Packet.WriteWord | s2client/network/packet.cpp:106-108 | appends the little-endian bytes of a 16-bit value |
| Packet.Packet.WriteDword | s2client/network/packet.cpp:109-111 | appends the little-endian bytes of a 32-bit value |
| Packet.Packet.WriteQword | s2client/network/packet.cpp:112-114 | appends the little-endian bytes of a 64-bit value |
| Packet.Packet.WriteSingle | s2client/network/packet.cpp:115-117 | appends a float's four raw bytes |
| Packet.Packet.WriteString | s2client/network/packet.cpp:118-121 | appends the string's bytes and then a zero byte |
| Common.LE16RoundTrip | s2client/network/packet.cpp:77-108 | a word written little-endian reads back as itself, and two bytes read and rewritten are unchanged |
| Common.LE32RoundTrip | s2client/network/packet.cpp:81-111 | the same round trip for 32-bit values |
| Common.LE64RoundTrip | s2client/network/packet.cpp:85-114 | the same round trip for 64-bit values |
| Common.WithBitAt | s2client/core/utils/bitvector.hpp:12-18 | setting bit i changes bit i to the value and no other bit |
| Common.BytesFromBits | s2client/core/utils/bitvector.hpp:41-49 | byte strings of the same length with the same bits are equal |
| Fnv.OffsetBasis | s2client/core/utils/fnv.hpp:47-55 | the offset basis of each width is a hash of that width (below 2^bits) |
| Fnv.HashInit | s2client/core/utils/fnv.hpp:100-103 | hash_init is the offset basis |
| Fnv.HashByte | s2client/core/utils/fnv.hpp:105-110 | hash_byte xors in the byte and multiplies by the prime, wrapping to the width |
| Fnv.HashFrom | s2client/core/utils/fnv.hpp:132-143 | hashing no bytes leaves the hash as it was; hashing any byte yields a hash of the width |
| Fnv.HashBytes | s2client/core/utils/fnv.hpp:132-143 | the hash of a byte string is a value of the width |
| Fnv.HashFromAppend | s2client/core/utils/fnv.hpp:132-143 | hashing a + b equals hashing b starting from the hash of a (incremental hashing) |
| Fnv.HashFromSnoc | s2client/core/utils/fnv.hpp:139-140 | one more byte is one more hash_byte step |
| Fnv.TestVectors32 | s2client/core/utils/fnv.hpp:47-50 | the 32-bit hashes of "" and "a" are the published FNV-1a values 0x811c9dc5 and 0xe40c292c |
| Fnv.TestVectors64 | s2client/core/utils/fnv.hpp:52-55 | the 64-bit hashes of "" and "a" are the published values 0xcbf29ce484222325 and 0xaf63dc4c8601ec8c |
| Fnv.HashSingleBigEndian | s2client/core/utils/fnv.hpp:87-97 | hash_single on a multi-byte value hashes its high half, then its low half, recursively, which is its bytes in big-endian order |
| Fnv.HashRuntimeData | s2client/core/utils/fnv.hpp:132-143 | hash_runtime_data returns the hash of the sz bytes in order |
| Fnv.UntilNul | s2client/core/utils/fnv.hpp:189-198 | the characters of a NUL-terminated string are the zero-free prefix before the first zero |
| Fnv.HashRuntime | s2client/core/utils/fnv.hpp:189-198 | hash_runtime returns the hash of the characters before the terminating zero |
| Fnv.HashConstexpr | s2client/core/utils/fnv.hpp:120-130 | hash_constexpr of a character array of N elements hashes its first N - 1 (the terminator excluded) |
| Fnv.LiteralMatchesRuntime | s2client/core/utils/fnv.hpp:206 | the FNV constant of a literal equals the run-time hash of the same characters, so literals and received strings compare equal |
| Fnv.HashSingle | s2client/core/utils/fnv.hpp:87-97 | hashing a multi-byte value half by half stays a hash of the width, below 2^bits |
| NetMsg.Header | s2client/s2/netmsg.cpp:6-8 | the frame header is 7 bytes: the sequence number, the flags byte and the sender id |
| NetMsg.Encode | s2client/s2/netmsg.cpp:4-12 | a message's frame is its header followed by its payload, 7 bytes longer than the payload |
| NetMsg.Decode | s2client/s2/netmsg.cpp:4-12 | a frame decodes exactly when it holds a whole header; the flags are byte 4 and the payload is everything after byte 7 |
| NetMsg.EncodeDecode | s2client/s2/netmsg.cpp:4-12 | every frame at least a header long is the encoding of what it decodes to |
| NetMsg.DecodeEncode | s2client/s2/netmsg.cpp:4-12 | decoding an encoded message gives the message back |
| NetMsg.Parse | s2client/s2/netmsg.cpp:4-12 | parse reads the header and takes every remaining byte as the payload, so its result is the decoding of the unread bytes and the packet ends fully read |
| NetMsg.ReadHeader | s2client/s2/netmsg.cpp:6-8 | the three header reads succeed iff seven bytes remain, and then give the little-endian sequence number, the flags byte and the sender word and move the read index past them, leaving the bytes unchanged |
| TypeRegistry.VarTypeOfCode | s2client/s2/typeregistry.hpp:6-20 | the thirteen attribute type codes 0..12 name the enumeration's members; a code above 12 is no member of the enumeration |
| TypeRegistry.ApplicableVars | s2client/s2/entity.cpp:146-148 | the fields that take part in a protocol version are a sub-list of the schema's fields, never longer than it |
| TypeRegistry.ApplicableMembers | s2client/s2/entity.cpp:162-163 | a field is among the applicable fields exactly when it is one of the schema's fields and minversion <= version < maxversion |
| TypeRegistry.ApplicableSnoc | s2client/s2/entity.cpp:162-167 | the applicable fields keep schema order: one more schema field adds itself at the end exactly when it applies |
| Session.Frames | s2client/s2/netclient.cpp:70-86 | each command handed to the reliable-datagram layer becomes exactly one datagram, in order |
| Session.FramesAppend | s2client/s2/netclient.cpp:76-81 | sending two lists one after the other gives the datagrams of their concatenation; the second list's reliable numbers continue where the first left the counter |
| Session.FramesJoin | s2client/s2/netclient.cpp:76-81 | two sends in a row leave the same log and counter as one send of both lists |
| Session.SeqAfterCounts | s2client/s2/netclient.cpp:77 | the send counter advances by one per reliable command, wrapping at 2^32, and unreliable commands leave it alone |
| Session.FrameOfDecodes | s2client/s2/netclient.cpp:70-81 | a reliable command's datagram reads back with its counter value and the reliable flag; an unreliable one with the unreliable sentinel and no flag; the payload is the command byte and its data |
| Session.FramesDecode | s2client/s2/netclient.cpp:70-81 | the i-th datagram sent reads back as the i-th command, numbered by the counter after the commands before it |
| Session.Emit | s2client/s2/userclient.cpp:412-436 | sending a list of commands appends exactly their datagrams to the socket's log and moves the counter to where the list leaves it, and changes nothing else of the layer |
| Session.ThinkOncePerFrame | s2client/s2/userclient.cpp:155-158 | think records the current frame, so thinking again before a new frame arrives changes nothing and sends nothing |
| Session.ThinkTransitions | s2client/s2/userclient.cpp:155-210 | think changes only the connection state and the last frame; its only transitions are Spectating to Spawning, Spawning to Playing and Playing to Spectating; waypoints are cleared only when playing turns to spectating; a consistent session stays consistent |
| Session.SpectatingSpawns | s2client/s2/userclient.cpp:164-172 | a spectating client asks for team 2 and then team 1 and moves to Spawning exactly when it is in game, connected and its client entry shows a nonzero ping |
| Session.SpawningPlays | s2client/s2/userclient.cpp:173-196 | a spawning client plays exactly when its player entity exists and is alive; it asks for unit 705 (team 1) or 704 exactly when the entity is missing or dormant; it asks to spawn at the team's base building exactly when the entity exists, is not alive and the team has one |
| Session.PlayingSpectates | s2client/s2/userclient.cpp:197-210 | a playing client returns to Spectating and clears its waypoints exactly when its player entity exists and is dormant, and sends nothing |
| Session.GamedataRequests | s2client/s2/userclient.cpp:407-436 | teamrequest, unitrequest, preparespawn and spawnrequest each send one reliable Gamedata command whose first byte is the request's id and whose remaining bytes read back as its word or dword argument (none for preparespawn) |
| Session.EmitOne | s2client/s2/userclient.cpp:407-417 | one outgoing command goes through the reliable or the unreliable send its kind names, and is then in the layer's log as exactly one frame |
| Session.Decide | s2client/s2/userclient.cpp:159-210 | think's switch sends only reliable Gamedata requests, at most three, clears the waypoints only when play turns to spectating (and then sends nothing), and does nothing in any state but Spectating, Spawning and Playing |
| Session.Think | s2client/s2/userclient.cpp:154-210 | think records the current frame as the last think frame and moves to the decided state; every command it sends is a reliable Gamedata request, and it does nothing twice in one frame |
| ClientInput.InputsAreSingleBits | s2client/s2/userclient.hpp:11-20 | every input of the enumeration is a single bit |
| ClientInput.InputsAreDisjoint | s2client/s2/userclient.hpp:11-20 | no two inputs share a bit |
| ClientInput.Pressed | s2client/s2/userclient.hpp:27 | setting an input sets all of its bits and keeps every other bit |
| ClientInput.Released | s2client/s2/userclient.hpp:28 | clearing an input clears all of its bits and keeps every other bit |
| ClientInput.OtherInputsKept | s2client/s2/userclient.hpp:27-28 | setting or clearing one input leaves every input that shares no bit with it unchanged |
| ClientInput.ReleaseAfterPress | s2client/s2/userclient.hpp:27-28 | clearing an input right after setting it gives the mask with that input cleared |
| ClientInput.ClientState.constructor | s2client/s2/userclient.hpp:21-26 | a new client state has weapon index 0, zero view angles and no input held |
| ClientInput.ClientState.SetInput | s2client/s2/userclient.hpp:27 | setinput changes only the input mask, to the mask with the input set |
| ClientInput.ClientState.ClearInput | s2client/s2/userclient.hpp:28 | clearinput(inp) changes only the input mask, to the mask with the input cleared |
| ClientInput.ClientState.ClearAllInput | s2client/s2/userclient.hpp:29 | clearinput() leaves no input held and changes nothing else |
| ClientWire.KnownCmds | s2client/s2/userclient.cpp:494-759 | processcmd has a case for exactly the 25 server command ids of the ServerCmd namespace |
| ClientWire.Uncompress | s2client/s2/userclient.cpp:544-553 | a decompression succeeds only with the inflated bytes, and only when they fit the buffer sized by the announced length |
| ClientWire.ConnectIdsFields | s2client/s2/userclient.cpp:99-101 | the Connect body ends in the low 16 bits of the client id, the account id and an empty string, 7 bytes that read back as those fields |
| ClientWire.CStrReadsBack | s2client/s2/userclient.cpp:95-98 | a string written with its terminator reads back as itself, whatever follows, and the reader stops right after the terminator |
| ClientWire.ConnectPayloadFields | s2client/s2/userclient.cpp:94-101 | the Connect body reads back field by field: the magic, the client version, protocol version 1, the password and the ids, each at the offset the earlier fields leave |
| ClientWire.CvarsPayloadReadsBack | s2client/s2/userclient.cpp:368-381 | the Vars body is a length dword counting the encoded cvars, the encoding, and a closing 0xC2; parsed as state strings the encoding gives back the cvar map when no key or value holds 0xFF |
| ClientWire.CvarsPayloadShape | s2client/s2/userclient.cpp:377-380 | below 2^32 bytes the length written is the whole encoding's length and the whole encoding is written |
| ClientWire.ServerTimeLags | s2client/s2/userclient.cpp:68-71 | since the last server timestamp keeps its initial ~0, the server time sent is one less than the milliseconds elapsed, wrapping to ~0 when none have |
| ClientWire.SnapshotHeadLayout | s2client/s2/userclient.cpp:353-357 | the snapshot body starts with the frame and server time dwords, the weapon byte and the input word, at offsets 0, 4, 8 and 9 |
| ClientWire.SnapshotAnglesLayout | s2client/s2/userclient.cpp:358-361 | the snapshot body ends with a zero word, the flags byte 5 and the pitch and yaw singles |
| ClientWire.SnapshotPayloadLayout | s2client/s2/userclient.cpp:353-361 | a client snapshot body is 22 bytes, and each field reads back from its offset |
| ClientWire.SlotEnd | s2client/s2/userclient.cpp:670-692 | one fixed-width or string read advances the read index within the data, or fails when the data runs out |
| ClientWire.SlotsEnd | s2client/s2/userclient.cpp:676-687 | a sequence of reads ends within the data, or fails when the data runs out |
| ClientWire.Repeat | s2client/s2/userclient.cpp:682-686 | n rounds of a layout have n times its reads |
| ClientWire.SlotsConcat | s2client/s2/userclient.cpp:676-687 | reading one layout and then another reads the first and then the second from where the first ended, and fails when either does |
| ClientWire.RepeatAdd | s2client/s2/userclient.cpp:682-686 | a + b rounds of a layout are a rounds followed by b rounds |
| ClientWire.RepeatStep | s2client/s2/userclient.cpp:682-686 | one more round of a repeated layout reads on from where the earlier rounds ended |
| ClientWire.RepeatStops | s2client/s2/userclient.cpp:682-686 | once a round runs out of data, every longer repetition fails |
| ClientWire.CStringExtend | s2client/network/packet.cpp:92-98 | a terminated string reads the same whatever bytes follow |
| ClientWire.SlotsExtend | s2client/s2/userclient.cpp:676-687 | a message read whole reads the same, to the same index, whatever follows it in the datagram |
| ClientWire.SlotExtend | s2client/s2/userclient.cpp:676-687 | a single read that succeeds reads the same whatever follows |
| ClientWire.VoiceUpdateEnd | s2client/s2/userclient.cpp:676-687 | a voice update reads at least its 4 header bytes and stays within the data |
| ClientWire.VoiceUpdateSize | s2client/s2/userclient.cpp:676-687 | a voice update with client count n is exactly 4 + 5n bytes, and fails exactly when fewer remain |
| ClientWire.FixedRepeat | s2client/s2/userclient.cpp:682-686 | n records of a dword and a byte take exactly 5n bytes, and fail exactly when fewer remain |
| ClientWire.GamedataEnd | s2client/s2/userclient.cpp:763-899 | a known gamedata message, HitFeedback and ExecScript included, is read within the data or fails when it runs out |
| ClientWire.ChatLayout | s2client/s2/userclient.cpp:765-785 | a chat message is its sender dword, its text and the terminator, whatever follows |
| ClientWire.AppendFrag | s2client/s2/userclient.cpp:559-565 | appending a fragment under a state id adds that id to the buffered ids and no other |
| ClientWire.FragmentsAccumulate | s2client/s2/userclient.cpp:559-575 | after a run of fragments the buffer under an id holds what it held followed by all of them in order, and every other id keeps its buffer |
| ClientWire.ConnectPayload | s2client/s2/userclient.cpp:94-101 | the Connect body is 31 bytes longer than the password and opens with the "S2_K2_CONNECT" magic as a C string |
| ClientWire.CvarsPayload | s2client/s2/userclient.cpp:368-381 | the Vars body is the encoding's length cut to 32 bits plus five bytes, and ends in the 0xC2 byte |
| ClientWire.ServerTime | s2client/s2/userclient.cpp:68-71 | servertime() is one less than the elapsed milliseconds, in 32-bit arithmetic, because the last server timestamp keeps its initial value ~0 |
| ClientWire.SnapshotPayload | s2client/s2/userclient.cpp:353-361 | a client snapshot body is always 22 bytes |
| ClientWire.GamedataSlots | s2client/s2/userclient.cpp:763-899 | a gamedata message has a fixed layout exactly when its id is one processgamedata knows, other than HitFeedback and ExecScript |
| Entity.FieldOf | s2client/s2/entity.hpp:74-135 | the switch selects an attribute only for a name equal to that attribute's name; the source compares machine-word FNV-1a hashes, so it also selects for a name whose hash collides (see Left out) |
| Entity.FieldOfName | s2client/s2/entity.hpp:76-135 | every attribute's own name selects it, so no two cases of the switch collide |
| Entity.Narrow | s2client/s2/entity.hpp:77-78 | assigning an integral value to a slot of width w keeps it within the slot's unsigned or signed range |
| Entity.NarrowCongruent | s2client/s2/entity.hpp:77-78 | the value stored keeps the assigned value's remainder modulo 2^(8w), and a value already in the slot's range is stored unchanged |
| Entity.Assign | s2client/s2/entity.hpp:76-135 | after an assignment the attribute holds the value converted to its slot's type |
| Entity.UpdateUnknown | s2client/s2/entity.hpp:74-141 | updatefield with a name no case matches changes nothing |
| Entity.UpdateSlot | s2client/s2/entity.hpp:76-135 | the named attribute takes the converted value when the value's type is one its case accepts (integral of at most the slot's width, vector, string, floating point) and keeps its value otherwise |
| Entity.AssignOthers | s2client/s2/entity.hpp:76-135 | assigning one attribute leaves every other attribute as it was |
| Entity.UpdateOthers | s2client/s2/entity.hpp:74-141 | an updatefield call changes at most the attribute it names |
| Entity.UpdateSame | s2client/s2/entity.hpp:76-135 | assigning an attribute the value it already holds changes nothing |
| Entity.Entity.constructor | s2client/s2/entity.cpp:17-19 | a new entity has the given id and type, the schema's type information for that type when the schema has it, every attribute at its default and is not killed |
| Entity.Entity.UpdateField | s2client/s2/entity.hpp:63-142 | updatefield changes the attributes as Update says and nothing else |
| Entity.AliveNotDormant | s2client/s2/entity.hpp:55-56 | an entity is never both alive (status 0) and dormant (status 1 or 5), and a fresh entity is alive |
| Entity.Update | s2client/s2/entity.hpp:74-141 | updatefield leaves the attributes unchanged for a name the switch does not select, and for a value the selected attribute's type does not take |
| FieldBits.Pow2From | s2client/s2/entity.cpp:22-23 | the count loop's result from a starting power of two is a power of two at least the start and n, and the first such |
| FieldBits.Pow2CeilLeast | s2client/s2/entity.cpp:22-23 | cpo2 is a power of two that covers n, and no smaller power of two does |
| FieldBits.CeilPow2 | s2client/s2/entity.cpp:44-45 | the loop `for (cpo2 = 1; cpo2 < n; cpo2 *= 2)` ends with the least power of two covering n |
| FieldBits.Pow2Mod8 | s2client/s2/entity.cpp:49 | a power of two above 8 is a whole number of bytes of bits, and at least 16 |
| FieldBits.NodeSetLeaf | s2client/s2/entity.cpp:32-37 | setting leaf k of the tree sets exactly the nodes on its path to the root |
| FieldBits.RootIsAny | s2client/s2/entity.cpp:21-40 | the tree's root is set exactly when some leaf is |
| FieldBits.SomeLeaf | s2client/s2/entity.cpp:21-40 | every set node of the tree has a set leaf below it |
| FieldBits.RootByte | s2client/s2/entity.cpp:111-115 | with at least 16 leaves, the tree's byte 1 is zero exactly when the root is clear, so bfhcomp's test of treebs[1] is a test for "no presence bit set" |
| FieldBits.Leaves | s2client/s2/entity.cpp:33 | the leaves are the first cpo2 bits of the presence bytes, least significant bit first |
| FieldBits.Code | s2client/s2/entity.cpp:105-109 | a set node's code is 0 for children 10, 10 for 01, 11 for 11, and empty only when both children are clear |
| FieldBits.NodeCode | s2client/s2/entity.cpp:118-138 | a node contributes a code exactly when it is set |
| FieldBits.Set2 | s2client/s2/entity.cpp:66-87 | one step of the decoder assigns the two children of a node and no other bit |
| FieldBits.DecodeOne | s2client/s2/entity.cpp:62-89 | one iteration of bfhdecomp's loop consumes no input for a clear node, one or two input bits for a set node, and runs out only at a set node near the end of the input |
| FieldBits.DecodeFrom | s2client/s2/entity.cpp:62-90 | the decoding loop keeps the tree's size and consumes input only forward, within the input |
| FieldBits.RootOnly | s2client/s2/entity.cpp:49-53 | the decoder starts from a tree with only the root set |
| FieldBits.DecompSpec | s2client/s2/entity.cpp:43-94 | bfhdecomp yields max(cpo2, 8) presence bits and consumes between one byte and all of the unread bytes; it fails only beyond eight fields or on an empty packet |
| FieldBits.AsWrittenTooShort | s2client/s2/entity.cpp:50-55 | as written, beyond eight fields a clear root bit makes bfhdecomp return one byte, 8 bits for more than 8 fields |
| FieldBits.AsWrittenNineFields | s2client/s2/entity.cpp:50-55 | nine fields and the byte 0 make bfhdecomp as written return fewer than nine bits |
| FieldBits.DecodeStep | s2client/s2/entity.cpp:62-89 | given a node's code, one decoder step assigns the node's true children and consumes the code |
| FieldBits.DecodeCodes | s2client/s2/entity.cpp:62-90 | fed the codes of the set nodes, the decoding loop rebuilds the whole tree and consumes exactly the codes |
| FieldBits.DecodeCodesStep | s2client/s2/entity.cpp:62-90 | the decoder moves from node idx to idx + 1 with the children of idx assigned and the code of idx consumed |
| FieldBits.Set2Tree | s2client/s2/entity.cpp:62-90 | assigning the true children of node idx extends the correctly decoded part of the tree by two nodes |
| FieldBits.CodesSplit | s2client/s2/entity.cpp:118-139 | the codes from node idx on are the code of idx followed by the codes from idx + 1 on |
| FieldBits.RoundTrip | s2client/s2/entity.cpp:43-140 | bfhdecomp inverts bfhcomp: decoding what bfhcomp produced for n fields, followed by anything, gives back the first max(cpo2, 8) presence bits and consumes exactly the bytes produced (one when cpo2 <= 8) |
| FieldBits.DecodeEncoded | s2client/s2/entity.cpp:56-92 | decoding the packed encoding of a tree with a set root, followed by anything, rebuilds the leaves and stops within the encoding's last byte |
| FieldBits.PackedPrefix | s2client/s2/entity.cpp:56-61 | the input bits of a packing followed by anything start with the packed bits |
| FieldBits.TreeLeaves | s2client/s2/entity.cpp:91-92 | the bytes bfhdecomp returns from cpo2/8 on are the tree's leaves |
| FieldBits.PresenceBytes | s2client/s2/entity.cpp:100-102 | the first k presence bytes pack the first 8k presence bits |
| FieldBits.ZerosTree | s2client/s2/entity.cpp:24 | a zeroed bitvector holds the tree of all-clear leaves |
| FieldBits.PathTree | s2client/s2/entity.cpp:33-36 | setting the path of leaf k in the tree of U gives the tree of U with leaf k set |
| FieldBits.UptoNext | s2client/s2/entity.cpp:32-33 | admitting leaf idx into the prefix sets it exactly when the presence bit is set |
| FieldBits.MarkLeaf | s2client/s2/entity.cpp:33-36 | marking a set leaf's path turns the tree of U into the tree of U with that leaf set |
| FieldBits.MarkLeaves | s2client/s2/entity.cpp:32-37 | bits2htree's outer loop turns the empty tree into the tree over all the presence bits |
| FieldBits.MarkNext | s2client/s2/entity.cpp:32-37 | one iteration of that loop admits leaf idx into the tree |
| FieldBits.Bits2HTree | s2client/s2/entity.cpp:21-40 | bits2htree returns a bitvector of 2*cpo2 bits holding the OR-tree over the first cpo2 presence bits, bit 0 clear |
| FieldBits.SetPath | s2client/s2/entity.cpp:34-35 | `for (i = m; i >= 1; i >>= 1) bv[i] = 1` sets node m and all its ancestors and nothing else |
| FieldBits.NoLeafNoNode | s2client/s2/entity.cpp:21-40 | with no presence bit set no node of the tree is set |
| FieldBits.TreeCode | s2client/s2/entity.cpp:117-122 | the code of node idx read off the tree's bytes is the code of its children when set, nothing otherwise |
| FieldBits.CodesStep | s2client/s2/entity.cpp:118-139 | each loop iteration moves one node's code from the pending codes to the emitted ones |
| FieldBits.AppendPacked | s2client/s2/entity.cpp:116 | appending a bit to the bitvector extends the packed bits by that bit |
| FieldBits.EmitChildren | s2client/s2/entity.cpp:119-137 | for a set node, the appended bits are the children's code; children 00 cannot occur |
| FieldBits.EncodeNode | s2client/s2/entity.cpp:119-138 | one iteration of bfhcomp's loop appends node idx's code |
| FieldBits.EncodeTree | s2client/s2/entity.cpp:116-140 | bfhcomp's loop packs the root bit followed by the code of every set node in index order |
| FieldBits.BfhComp | s2client/s2/entity.cpp:96-141 | bfhcomp returns the first byte when cpo2 <= 8, the byte 0 when no presence bit is set, and the packed tree code otherwise |
| FieldBits.SetChildren | s2client/s2/entity.cpp:66-87 | the loop's two assignments set exactly the children of the node |
| FieldBits.NextInput | s2client/s2/entity.cpp:57-61 | nextinput yields the next input bit, reading a new byte at every multiple of eight, and fails exactly when the packet is used up |
| FieldBits.DecodeNode | s2client/s2/entity.cpp:63-89 | one iteration of bfhdecomp's loop on the packet takes the step DecodeOne takes, or fails where it runs out, having read every byte |
| FieldBits.DecodeSetNode | s2client/s2/entity.cpp:69-88 | for a set node, input 0 gives children 10; input 1 then 1 gives 11, and 1 then 0 gives 01 |
| FieldBits.DecodeSecondBit | s2client/s2/entity.cpp:77-87 | after an input 1 the second input bit picks children 11 or 01 |
| FieldBits.DecodeLoop | s2client/s2/entity.cpp:62-90 | bfhdecomp's loop follows DecodeFrom on the packet's bits, reads exactly the bytes holding the bits consumed, and fails exactly when DecodeFrom does |
| FieldBits.BfhDecomp | s2client/s2/entity.cpp:43-94 | bfhdecomp returns the presence bits DecompSpec gives for the unread bytes and reads exactly the bytes it consumes; a packet that runs out yields failure with every byte consumed |
| FieldBits.DecompTree | s2client/s2/entity.cpp:49-92 | with the root bit set, the decoded tree's leaf bytes are returned |
| FieldBits.Pick | s2client/s2/entity.cpp:161-167 | the fields picked by the presence bits are a sub-list of the applicable fields |
| FieldBits.PickAll | s2client/s2/entity.cpp:161-167 | with every presence bit set, every applicable field is picked |
| FieldBits.PickNone | s2client/s2/entity.cpp:161-167 | with no presence bit set, nothing is picked |
| FieldBits.PickIn | s2client/s2/entity.cpp:161-167 | only applicable fields are picked |
| FieldBits.PickMember | s2client/s2/entity.cpp:161-167 | among distinct fields, field i is picked exactly when its presence bit is set |
| FieldBits.CountApplicable | s2client/s2/entity.cpp:144-149 | the first loop counts exactly the fields with minversion <= version < maxversion |
| FieldBits.PickFields | s2client/s2/entity.cpp:160-168 | the second loop keeps, in schema order, the applicable fields whose presence bit is set |
| FieldBits.PickOne | s2client/s2/entity.cpp:162-167 | at field i, an applicable field takes the next presence bit and is kept when it is set |
| FieldBits.PickStep | s2client/s2/entity.cpp:162-167 | one more field joins the applicable list exactly when it applies, and is picked exactly when its presence bit is set |
| FieldBits.ApplicablePrefix | s2client/s2/entity.cpp:144-149 | a prefix of the schema has no more applicable fields than the whole, so the bit index never passes the count |
| FieldBits.DecodeFieldsBitArray | s2client/s2/entity.cpp:143-170 | with no applicable field nothing is read and nothing returned; otherwise the presence bits are read (one raw byte when cpo2 <= 8, bfhdecomp beyond), and the result is the applicable fields whose bit is set, in schema order, with the presence bytes; failure when the packet runs out |
| Game.Suffix | s2client/s2/game.cpp:101-102 | the unread bytes from index i on number the data's length less i |
| Game.NewEntityProps | s2client/s2/game.cpp:33-42 | after newentity the id holds an entity of the requested type and no other id changes; an entity of the same type is kept as it was, and otherwise a fresh one with default attributes takes the id |
| Game.NewEntityIdempotent | s2client/s2/game.cpp:33-42 | asking twice for the same entity is the same as asking once |
| Game.ReadValue | s2client/s2/game.cpp:115-174 | a variable's value takes at least one byte and no more than are there, and only an unknown type code is rejected as a bad type |
| Game.ReadValueWidth | s2client/s2/game.cpp:116-171 | a fixed-size variable is read exactly when its width is available, and then takes exactly its width |
| Game.ReadValueString | s2client/s2/game.cpp:144-148 | a string variable takes its bytes and the terminator |
| Game.ReadValueIntegers | s2client/s2/game.cpp:116-136 | byte, word, dword and qword variables written little-endian read back as the same number, tagged with their width |
| Game.ReadValueExtend | s2client/s2/game.cpp:115-174 | a value depends only on the bytes it takes, whatever follows |
| Game.ApplyVars | s2client/s2/game.cpp:112-175 | reading the present variables never takes more bytes than remain |
| Game.ApplyVarsOthers | s2client/s2/game.cpp:112-175 | an attribute that none of the present variables names keeps its value |
| Game.ApplyVarsUnknownNames | s2client/s2/game.cpp:112-175 | variables whose names no attribute carries change nothing |
| Game.PresentVars | s2client/s2/game.cpp:109-111 | the presence bits take no more bytes than remain |
| Game.ReadVars | s2client/s2/game.cpp:109-175 | the presence bits and present variables of a record never take more bytes than remain |
| Game.UpdateSpec | s2client/s2/game.cpp:107-191 | an entity update that completes reports success and moves the read index forward within the data |
| Game.RecordSpec | s2client/s2/game.cpp:60-192 | a record that completes leaves the read index within the data |
| Game.BaselineSpec | s2client/s2/game.cpp:65-92 | a baseline record that completes leaves the read index within the data |
| Game.DeltaSpec | s2client/s2/game.cpp:93-106 | a record for an existing entity that completes leaves the read index within the data |
| Game.PublishKeepsEnts | s2client/s2/game.cpp:15-32 | updateclient, updateteam and updategame never touch the entity table |
| Game.RecordConsistent | s2client/s2/game.cpp:60-192 | after any record every entity in the table has a type the schema knows |
| Game.BaselineConsistent | s2client/s2/game.cpp:65-92 | after a baseline record every entity has a type the schema knows |
| Game.KeysConsistent | s2client/s2/game.cpp:81-88 | dropping entities keeps every remaining entity's type known |
| Game.NewEntityConsistent | s2client/s2/game.cpp:73-79 | creating an entity only after the schema lookup succeeded keeps every type known |
| Game.StoreConsistent | s2client/s2/game.cpp:107 | storing an entity of a known type keeps every type known |
| Game.DeltaConsistent | s2client/s2/game.cpp:93-106 | after a record for an existing entity every type is known |
| Game.UpdateConsistent | s2client/s2/game.cpp:107-191 | updating an entity keeps every type known |
| Game.StoreKeeps | s2client/s2/game.cpp:107-191 | storing an update changes that entity's attributes and nothing else in the entity table |
| Game.RecordOnlyItsEntity | s2client/s2/game.cpp:60-192 | a record changes at most the entity its head word names |
| Game.BaselineOnlyItsEntity | s2client/s2/game.cpp:65-92 | a baseline record changes at most its own entity |
| Game.UpdateOnlyItsEntity | s2client/s2/game.cpp:107-191 | an entity update changes at most that entity |
| Game.ReadVarsOthers | s2client/s2/game.cpp:112-175 | reading variables none of which names an attribute leaves that attribute as it was |
| Game.PresentVarsDeclared | s2client/s2/game.cpp:109-112 | a record carries only variables that its type declares for the protocol version |
| Game.PresentVarsIn | s2client/s2/game.cpp:109-112 | each present variable is declared by the type and applies to the version |
| Game.UpdateOnlyDeclared | s2client/s2/game.cpp:107-191 | an update keeps the entity's type and killed flag and changes only attributes its type declares |
| Game.UpdatePublishesClient | s2client/s2/game.cpp:176-182 | after an update of an Entity_ClientInfo entity, the client table's entry for its client number holds its name, number, player entity index and ping |
| Game.UpdatePublishesTeam | s2client/s2/game.cpp:187-190 | after an update of an Entity_TeamInfo entity, the team table's entry for its team id holds its base building index |
| Game.UpdatePublishesGame | s2client/s2/game.cpp:183-186 | after an update of an Entity_GameInfo entity, it is the game info entity |
| Game.RecordDeletes | s2client/s2/game.cpp:81-89 | a baseline record of type 0 deletes the entity, whether or not it exists, reports success and takes four bytes |
| Game.RecordSkipsUnknownType | s2client/s2/game.cpp:73-77 | a baseline record of a type the schema lacks changes nothing, skips the rest of the packet and reports false |
| Game.RecordMissingEntitySeeks | s2client/s2/game.cpp:98-103 | as written, a record for an id the table lacks changes nothing and moves the read index to the absolute position equal to the bytes remaining after its head |
| Game.RecordIntended | s2client/s2/game.cpp:98-103 | with the evidently intended skip to the end of the packet, a completed record leaves the index within the data and the table consistent |
| Game.RecordProgress | s2client/s2/game.cpp:60-192 | with the intended skip every completed record moves the read index forward |
| Game.BaselineProgress | s2client/s2/game.cpp:65-92 | a completed baseline record moves the read index forward |
| Game.DeltaProgress | s2client/s2/game.cpp:93-106 | a completed record for an existing entity moves the read index forward, except the as-written missing-entity seek |
| Game.UpdateProgress | s2client/s2/game.cpp:107-191 | an update never moves the read index back |
| Game.RecordsTerminate | s2client/s2/game.cpp:330-332 | with the intended skip the record loop always finishes within as many records as the packet has bytes |
| Game.AsWrittenSeekLoops | s2client/s2/game.cpp:330-332 | as written, a record for a missing entity at index i of a packet of 2i + 2 bytes seeks back to itself, and the loop never finishes |
| Game.SeekLoopExample | s2client/s2/game.cpp:98-103 | a 38-byte snapshot whose one record updates entity 1 on an empty table loops forever as written, and finishes after one record with the intended skip |
| Game.SkipFinishes | s2client/s2/game.cpp:330-332 | with the intended skip the loop ends right after such a record, the table unchanged |
| Game.EncodeHdr | s2client/s2/game.cpp:259-264 | a snapshot header takes 17 bytes |
| Game.DecodeEncodeHdr | s2client/s2/game.cpp:259-264 | decoding an encoded header gives it back, without events |
| Game.EncodeDecodeHdr | s2client/s2/game.cpp:259-264 | encoding a decoded header gives back its 17 bytes |
| Game.DecodeHdrAt | s2client/s2/game.cpp:259-264 | the header at index i is the four little-endian dwords and the sequence byte found there |
| Game.EventLength | s2client/s2/game.cpp:274-328 | a game event takes at least its flags word and no more than the bytes there |
| Game.DecodeEventLength | s2client/s2/game.cpp:274-328 | an event decodes exactly when its length, given by its flags, is available, and takes that length |
| Game.EventsEnd | s2client/s2/game.cpp:274-328 | reading n events moves the index forward within the data, or fails when it ends first |
| Game.RecordsConsistent | s2client/s2/game.cpp:330-332 | the record loop keeps every entity's type known |
| Game.SnapshotDropped | s2client/s2/game.cpp:265-268 | a snapshot whose state string sequence is not the expected one is dropped after its header: tables untouched, no events |
| Game.SnapshotHeader | s2client/s2/game.cpp:253-273 | a received snapshot's header is the one its first 17 bytes encode, and its events are the count byte's number of value-initialised events |
| Game.SnapshotSound | s2client/s2/game.cpp:253-335 | the tables stay consistent through a snapshot |
| Game.PublishedClientIsLocal | s2client/s2/game.cpp:23-32 | once an Entity_ClientInfo entity carrying the local client number is published, clientinfo() finds its entry and localent() the player entity it names (none for index 0) |
| Game.EmptyLookups | s2client/s2/game.cpp:208-252 | every lookup on the tables of a fresh or reset game finds nothing or the value-initialised entry |
| Game.KillProps | s2client/s2/userclient.cpp:871-875 | a Death message marks the killed entity killed, keeps its type and attributes, and changes no other entity and no key |
| Game.Least | s2client/s2/game.cpp:202 | the next key a std::map visits is the least remaining one |
| Game.ReadVar | s2client/s2/game.cpp:115-174 | one case of readentupdate's switch reads ReadValue's value and advances by its width |
| Game.ReadScalar | s2client/s2/game.cpp:116-164 | a one-value variable type is one read of its width |
| Game.ReadVector3 | s2client/s2/game.cpp:137-143 | a vector is three singles |
| Game.ReadWordVector3 | s2client/s2/game.cpp:165-171 | a word vector is three words converted to floats |
| Game.ApplyVarsStep | s2client/s2/game.cpp:112-175 | one variable read: a short read or bad type stops the loop with nothing applied, a value updates the named field and the loop goes on after its bytes |
| Game.ReadVarsLoop | s2client/s2/game.cpp:112-175 | the loop over the present variables on the packet agrees with ApplyVars |
| Game.Game.constructor | s2client/s2/game.hpp:55-63 | a new game has empty tables, no game info entity, local client -1 and no world |
| Game.Game.ResetWorld | s2client/s2/game.cpp:49-54 | resetworld empties the tables and keeps the world and the local client number |
| Game.Game.LoadWorld | s2client/s2/game.cpp:55-59 | loadworld succeeds exactly when the world loader finds maps/name_checksum.s2z, records it, and empties the tables either way |
| Game.Game.SetClientNumber | s2client/s2/game.cpp:193-195 | setclientnumber changes only the local client number |
| Game.Game.ReadEntUpdate | s2client/s2/game.cpp:60-192 | readentupdate on the packet gives RecordSpec's outcome, tables and read index |
| Game.Game.ReadBaseline | s2client/s2/game.cpp:65-92 | the baseline branch agrees with BaselineSpec |
| Game.Game.ReadTyped | s2client/s2/game.cpp:69-80 | the branch for a nonzero type agrees with BaselineSpec |
| Game.Game.ReadDelta | s2client/s2/game.cpp:93-106 | the branch for an existing entity agrees with DeltaSpec |
| Game.Game.UpdateEntity | s2client/s2/game.cpp:107-191 | the presence bits, the variables and the publication agree with UpdateSpec |
| Game.Game.StoreEntity | s2client/s2/game.cpp:176-190 | storing the new attributes and publishing special types gives Store's tables |
| Game.Game.ReadRecords | s2client/s2/game.cpp:330-332 | the record loop on the packet agrees with RecordsSpec |
| Game.Game.RcvServerSnapshot | s2client/s2/game.cpp:253-335 | rcvserversnapshot on the packet gives SnapshotSpec's header or failure, tables and read index |
| Game.Game.MarkKilled | s2client/s2/userclient.cpp:871-875 | the Death message's update changes the tables as Kill says |
| Game.Game.EntsOfType | s2client/s2/game.cpp:199-207 | entsoftype returns, in increasing id order as the map iterates, exactly the entities whose type name starts with the prefix |
| Game.Game.ReadHdr | s2client/s2/game.cpp:259-264 | the header is read exactly when 17 bytes remain, and is the header they encode |
| Game.Game.SkipEvents | s2client/s2/game.cpp:274-328 | the event loop reads past exactly the events EventsEnd counts, or fails where it does |
| Game.Game.SkipEvent | s2client/s2/game.cpp:275-327 | one event is read and dropped, one step of EventsEnd |
| Game.Game.SkipRest | s2client/s2/game.cpp:75 | pkt.advance(pkt.remaining()) moves the read index to the end of the packet |
| Game.RecordsSpec | s2client/s2/game.cpp:330-332 | when the record loop finishes, it has read at least length bytes from the snapshot's start, counted in size_t arithmetic |
| Game.SnapshotSpec | s2client/s2/game.cpp:253-335 | a broken snapshot changes no table and leaves the read index where it was, and a received one held a whole 17-byte header |
| Snapshot.FlagBits | s2client/s2/snapshot.cpp:7-40 | the event's flags word gives eleven presence bits, one per optional field |
| Snapshot.Offset | s2client/s2/snapshot.cpp:5-40 | each optional field starts after the flags word, at least two bytes in |
| Snapshot.FieldOpt | s2client/s2/snapshot.cpp:7-40 | a present field takes exactly its type's width: dword 4, word 2, word vector 6, byte angles 3, single 4 |
| Snapshot.Fields | s2client/s2/snapshot.cpp:7-40 | an event has eleven optional fields |
| Snapshot.DecodeEvent | s2client/s2/snapshot.cpp:4-42 | a decoded event takes between 2 bytes and the whole input, exactly the size its flags give |
| Snapshot.OffsetMono | s2client/s2/snapshot.cpp:7-40 | fields are read in bit order: offsets never decrease |
| Snapshot.OffsetMonoAll | s2client/s2/snapshot.cpp:7-40 | every later field starts no earlier than every earlier one |
| Snapshot.EventSizeHighBits | s2client/s2/snapshot.cpp:7-40 | flag bits 11 to 15 consume nothing |
| Snapshot.OffsetSameBits | s2client/s2/snapshot.cpp:7-40 | the layout depends on flag bits 0 to 10 alone |
| Snapshot.EventSizeRange | s2client/s2/snapshot.cpp:4-42 | an event occupies 2 to 40 bytes |
| Snapshot.EventSizeExtremes | s2client/s2/snapshot.cpp:4-42 | an event is 2 bytes when no field is present and 40 when all are |
| Snapshot.FullOffsetsStep | s2client/s2/snapshot.cpp:7-40 | with every field present, each offset is the previous plus the previous field's width |
| Snapshot.OffsetNone | s2client/s2/snapshot.cpp:5 | with no flag set every field would start right after the flags word |
| Snapshot.OffsetAll | s2client/s2/snapshot.cpp:7-40 | with all flags set the offsets are 2, 6, 8, 14, 17, 21, 23, 29, 32, 36, 38 |
| Snapshot.OffsetAtMost | s2client/s2/snapshot.cpp:7-40 | no field starts later than it does with every field present |
| Snapshot.ReadField | s2client/s2/snapshot.cpp:7-40 | reading the field of bit k succeeds exactly when the data reaches its end, and yields its bytes when its bit is set and nothing otherwise |
| Snapshot.ReadEvent | s2client/s2/snapshot.cpp:4-42 | gameevent::read yields DecodeEvent's event and advances by its size, and fails exactly when the event runs past the data |
| Snapshot.ReadFields | s2client/s2/snapshot.cpp:7-40 | the optional fields are read exactly when the event's size fits, and are the bytes at their offsets |
| Snapshot.EntId | s2client/s2/snapshot.cpp:47 | the entity id is the head word shifted right by one, below 2^15 |
| Snapshot.ReadRecordHead | s2client/s2/snapshot.cpp:44-55 | entitysnapshot::read reads the head word and, when bit 0 is set, the type word |
| Snapshot.EncodeSnapshotHeader | s2client/s2/snapshot.cpp:57-63 | a snapshot header takes 17 bytes |
| Snapshot.EncodeSnapshotHeaderInjective | s2client/s2/snapshot.cpp:57-63 | distinct headers have distinct bytes, so the bytes read determine the header |
| Snapshot.ReadSnapshotHeader | s2client/s2/snapshot.cpp:57-63 | snapshot::read succeeds exactly when 17 bytes remain; they are the header's encoding, frame, previous frame, time1, time0 and the event count |
| Snapshot.HeaderBytes | s2client/s2/snapshot.cpp:57-63 | the 17 bytes at the read index are the header's encoding |
| Snapshot.NextEntity | s2client/s2/snapshot.cpp:64-67 | nextentity never yields an entity record and leaves its argument unchanged |
| Snapshot.WordVec | s2client/s2/snapshot.cpp:12 | a vector of three words converts each word exactly to a float in [0, 65536) |
| StateStrings.ScanConcat | s2client/s2/userclient.cpp:459-478 | scanning a concatenation scans its parts one after the other |
| StateStrings.ScanPlain | s2client/s2/userclient.cpp:472-477 | bytes without a separator only extend the key being read, or the value |
| StateStrings.CommitPair | s2client/s2/userclient.cpp:461-468 | a pair key 0xFF value 0xFF read between two pairs assigns the key and counts one update |
| StateStrings.ReadKey | s2client/s2/userclient.cpp:469-474 | a key is collected until the first 0xFF, which starts the value |
| StateStrings.UpdateEntry | s2client/s2/userclient.cpp:459-478 | the first 0xFF ends a key and the next commits the pair, whatever follows |
| StateStrings.ScanCountFree | s2client/s2/userclient.cpp:458-467 | the update count never steers the scan |
| StateStrings.TrailingDropped | s2client/s2/userclient.cpp:459-478 | a trailing key without separator, or a key and separator followed by a value without one, assigns nothing |
| StateStrings.Entry | s2client/s2/userclient.cpp:371-374 | one cvar on the wire is its key, 0xFF, its value and 0xFF, two bytes longer than key and value |
| StateStrings.ScanEncoded | s2client/s2/userclient.cpp:459-478 | scanning the encoding of separator-free pairs assigns them in order and counts them |
| StateStrings.ApplyEncoded | s2client/s2/userclient.cpp:454-480 | parsing an encoding gives back what its pairs assign, later pairs overwriting earlier ones, and updatecount counts them |
| StateStrings.LessIrreflexive | s2client/s2/userclient.hpp:61 | std::string's byte-wise order is irreflexive |
| StateStrings.LessTransitive | s2client/s2/userclient.hpp:61 | std::string's byte-wise order is transitive |
| StateStrings.LessTotal | s2client/s2/userclient.hpp:61 | any two distinct strings are ordered one way or the other |
| StateStrings.Put | s2client/s2/userclient.cpp:84-86 | operator[](k) = v adds at most one entry |
| StateStrings.FoldOutside | s2client/s2/userclient.cpp:84-86 | an assignment to a key no later entry names survives them |
| StateStrings.FoldOverwrite | s2client/s2/userclient.cpp:84-86 | a later assignment of a key wins over an earlier one |
| StateStrings.PutProps | s2client/s2/userclient.cpp:84-86 | cvar(k, v) keeps the entries in strictly increasing key order, adds no key but k, and the map becomes the old map with k assigned v |
| StateStrings.SortedTailKeys | s2client/s2/userclient.hpp:61 | in a sorted map no later key equals the first |
| StateStrings.FromList | s2client/s2/userclient.hpp:62-72 | the initializer list of the client's cvars gives entries in strictly increasing key order |
| StateStrings.AsMapSorted | s2client/s2/userclient.hpp:61 | a sorted list of entries and the map it stands for agree on every key |
| StateStrings.FindInMap | s2client/s2/userclient.cpp:81-83 | looking k up in sorted entries is looking it up in the map they stand for |
| StateStrings.FindSound | s2client/s2/userclient.cpp:81-83 | a key found has that entry, and a key not found has none |
| StateStrings.CvarsRoundTrip | s2client/s2/userclient.cpp:368-375 | the server's state string parse of what sendcvars writes gives back the client's cvar map, when no key or value holds 0xFF |
| StateStrings.DigitRun | s2client/s2/userclient.cpp:606 | the leading decimal digits run up to the first byte that is not one |
| StateStrings.Decimal | s2client/s2/userclient.cpp:606 | a number written in decimal is a non-empty run of digits |
| StateStrings.DecimalValue | s2client/s2/userclient.cpp:606 | the digits of n have value n |
| StateStrings.StolDecimal | s2client/s2/userclient.cpp:606 | std::stol reads back a number written in decimal, after any white space and whatever follows the digits |
| StateStrings.StolDecimalAt | s2client/s2/userclient.cpp:606 | std::stol reads back a decimal number whatever follows it |
| StateStrings.StolDigits | s2client/s2/userclient.cpp:606 | a run of digits is read up to the first byte that is not one, and fails (out_of_range) beyond the 32-bit long range |
| StateStrings.StolSkipsSpace | s2client/s2/userclient.cpp:606 | leading white space does not change what std::stol reads |
| StateStrings.DigitRunPrefix | s2client/s2/userclient.cpp:606 | the digit run of digits followed by a non-digit is exactly those digits |
| StateStrings.StolRejects | s2client/s2/userclient.cpp:606 | the empty value operator[] inserts for a missing svr_gameFPS, or a value with no digits after the white space and sign, makes std::stol throw |
| StateStrings.UpdateStateStrings | s2client/s2/userclient.cpp:454-480 | updatestatestrings' loop leaves the set the pairs of the data assign and counts the pairs committed |
| StateStrings.EncodeCvars | s2client/s2/userclient.cpp:368-375 | sendcvars' loop writes every entry in key order, each as key 0xFF value 0xFF |
| StateStrings.Step | s2client/s2/userclient.cpp:459-478 | one byte of the scan adds at most the pending key to the set, counts one update only when a separator ends a value, and grows the pending key and value by at most one byte |
| StateStrings.Encode | s2client/s2/userclient.cpp:368-375 | writing the cvars as key 0xFF value 0xFF pairs takes at least two bytes per pair |
| StateStrings.Find | s2client/s2/userclient.cpp:81-83 | a value found for a key is one of that key's entries, and nothing is found only when no entry has the key |
| StateStrings.Stol | s2client/s2/userclient.cpp:606 | std::stol yields only values inside the 32-bit long range of the client's Windows build and throws on text with no digit at all |
| NetClient.Next32 | s2client/s2/netclient.hpp:12 | the uint32_t counter's increment adds one below 2^32-1 and wraps to 0 at the top |
| NetClient.Frame | s2client/s2/netclient.cpp:9-15 | an outbound frame header is always exactly the header size: sequence dword, flag byte with bit 0 set, low word of the client id |
| NetClient.FrameDecodes | s2client/s2/netclient.cpp:9-15 | a frame built by newframe with any body parses back as that sequence, flags with FLG_UNK added, the client id's low sixteen bits and exactly that body |
| NetClient.AckFrameDecodes | s2client/s2/netclient.cpp:87-91 | an ack parses as an unreliable ack message with the SeqUnreliable sentinel whose four-byte payload is the acknowledged sequence number |
| NetClient.AckFor | s2client/s2/netclient.cpp:43-44 | at most one ack goes out per received message, and only for a reliable one |
| NetClient.AckOf | s2client/s2/netclient.cpp:40-44 | at most one ack goes out per received datagram |
| NetClient.AckOfDecode | s2client/s2/netclient.cpp:40-44 | the ack for a raw datagram is exactly the ack owed to the message it parses to, and none for an unparsable one |
| NetClient.AcksOf | s2client/s2/netclient.cpp:40-62 | a run of received datagrams never produces more acks than datagrams |
| NetClient.PopThenRead | s2client/s2/netclient.cpp:54 | receiving one datagram and then reading on consumes a prefix of the inbox and sends exactly the acks of that prefix, in order |
| NetClient.HasKeyTail | s2client/s2/netmsg.cpp:13-15 | a queue whose head has another sequence number holds a given number iff its tail does |
| NetClient.SortedCons | s2client/s2/netmsg.cpp:13-15 | a message ordered below every queued one can be put at the head and the queue stays strictly ordered |
| NetClient.InTail | s2client/s2/netclient.hpp:16 | membership in a non-empty queue is membership of its head or of its tail |
| NetClient.InsertStep | s2client/s2/netclient.cpp:48 | inserting after a smaller head keeps the queue ordered and holds exactly the old messages plus the new one when its number was absent |
| NetClient.Insert | s2client/s2/netclient.cpp:48 | emplace keeps the queue strictly ordered by sequence number and adds the message iff no message with its number was queued, the set semantics of std::set |
| NetClient.InsertHasKey | s2client/s2/netclient.cpp:48 | after emplace the queue holds a message with the new message's sequence number |
| NetClient.HeldAfterReading | s2client/s2/netclient.cpp:46-54 | a message queued before reading on stays queued, since reading on takes only a due message out of the queue |
| NetClient.Client.constructor | s2client/s2/netclient.cpp:16-19 | a new client has both counters at 1, an empty queue, nothing sent and the given datagrams waiting |
| NetClient.Client.Reset | s2client/s2/netclient.cpp:25-30 | reset takes the new client id, puts both counters back to 1 and empties the queue, leaving the socket alone |
| NetClient.Client.NewFrame | s2client/s2/netclient.cpp:9-15 | newframe returns a fresh packet holding exactly the frame header, read position at the start |
| NetClient.Client.Send | s2client/s2/netclient.hpp:10 | send appends the packet's bytes to what was sent and changes nothing else |
| NetClient.Client.SendUnreliable | s2client/s2/netclient.cpp:70-75 | an unreliable command is sent under the SeqUnreliable sentinel with the command byte and data after the header, counters untouched |
| NetClient.Client.SendReliable | s2client/s2/netclient.cpp:76-81 | a reliable command takes the current send counter as its sequence number and the counter then advances by one, wrapping at 2^32 |
| NetClient.Client.SendReliableCmd | s2client/s2/netclient.cpp:82-86 | a reliable command without data takes the current counter, which then advances by one |
| NetClient.Client.SendAck | s2client/s2/netclient.cpp:87-91 | sendack sends exactly the ack frame for the given number and leaves every counter and the queue alone |
| NetClient.Client.ReadMsg | s2client/s2/netclient.cpp:31-69 | readmsg delivers the due queued message first; with none, an empty socket gives nothing, and of the first datagram received a due reliable message or an unreliable message that is not an ack is delivered and a later reliable one ends up queued; every reliable datagram consumed is acked; a delivered reliable message is exactly the expected one and advances the expected counter, nothing else moves it; acks are never delivered; queued messages leave only by delivery and only later ones join |
| NetClient.Client.ParseDatagram | s2client/s2/netclient.cpp:40-42 | a received datagram is parsed from its start into exactly the message it encodes |
| NetClient.Client.Receive | s2client/s2/netclient.cpp:38-66 | receiving consumes at least one datagram; the message the first one parses to is delivered when due or unreliable and not an ack, and queued when later; readmsg's guarantees about acks, the expected counter and the queue hold |
| NetClient.Client.Handle | s2client/s2/netclient.cpp:40-66 | handling one datagram sends its ack, if owed, before the acks of whatever is read after it; the message it parses to is delivered when due or unreliable and not an ack, and queued when later |
| NetClient.Client.Dispatch | s2client/s2/netclient.cpp:43-65 | a parsed message is acked if reliable; it is delivered when it is the expected reliable one or an unreliable non-ack, queued when a later reliable one, and an ack is never delivered |
| NetClient.Client.HandleReliable | s2client/s2/netclient.cpp:43-59 | a reliable message is acked, delivered when it is the expected one, held in the queue when later and dropped when earlier, and reading continues after the latter two |
| NetClient.Client.HoldOrDrop | s2client/s2/netclient.cpp:45-54 | a reliable message that is not due is held in the queue when later, dropped when earlier, and the next datagram is read |
| NetClient.Client.HoldThenReadOn | s2client/s2/netclient.cpp:46-54 | a later reliable message is still queued after reading on, and every message queued before stays unless delivered |
| NetClient.Client.Hold | s2client/s2/netclient.cpp:46-49 | emplace of a later message keeps the queue ordered, keeps every queued message and adds only that one, and a message with its number is then queued |
| NetClient.Client.ReadNext | s2client/s2/netclient.cpp:54 | reading on reports nothing when no datagram is pending; otherwise it is readmsg: a due queued message is delivered, else the first datagram's message is delivered when due or unreliable and not an ack, and queued when later |
| UserClient.Touch | s2client/s2/userclient.cpp:603 | indexing a varset inserts a missing key with an empty value and keeps every existing entry |
| UserClient.Len32 | s2client/s2/userclient.cpp:534 | a dword read as a length is always below 2^32 |
| UserClient.TouchedKeeps | s2client/s2/userclient.cpp:603-606 | after StateStringsEnd's three lookups set 1 holds exactly its old keys plus the three looked-up ones, old values kept, and a missing svr_gameFPS leaves an empty string that std::stol rejects |
| UserClient.SkipSlots | s2client/s2/userclient.cpp:672-673 | reading a fixed sequence of fields succeeds exactly when the data holds them all, and then stops right after the last |
| UserClient.SkipRepeat | s2client/s2/userclient.cpp:682-686 | a counted loop of reads succeeds exactly when the data holds every repetition, ending after the last |
| UserClient.WorldStringsRoundTrip | s2client/s2/userclient.cpp:612-613 | a world name and checksum written as terminated strings read back as themselves |
| UserClient.VoiceEnd | s2client/s2/userclient.cpp:670-692 | the end of a voice message, when it can be read, lies within the data and after its start |
| UserClient.VoiceCmd | s2client/s2/userclient.cpp:670-692 | the voice commands are read and dropped: handled when their fields are all present, stopped for lack of data otherwise |
| UserClient.StateUpdateAt | s2client/s2/userclient.cpp:533-536 | a StateUpdate is a word id, a dword length and that many bytes, all inside the data |
| UserClient.CompressedUpdateAt | s2client/s2/userclient.cpp:542-548 | a CompressedStateUpdate is a word id, a dword length, a dword capacity and that many bytes, all inside the data |
| UserClient.FragmentAt | s2client/s2/userclient.cpp:561-564 | a StateFragment or StateTerminate is a word id, a word length and that many bytes, all inside the data |
| UserClient.CompressedTerminateAt | s2client/s2/userclient.cpp:581-589 | a CompressedStateTerminate is a word id, a word length, a dword capacity and that many bytes, all inside the data |
| UserClient.ChunkAt | s2client/s2/userclient.cpp:634-636 | a DownloadWorld chunk is a word length and that many bytes, all inside the data |
| UserClient.SizedAt | s2client/s2/userclient.cpp:700-705 | a Snapshot is a dword length and that many bytes, all inside the data |
| UserClient.CompressedSnapshotAt | s2client/s2/userclient.cpp:713-719 | a CompressedSnapshot is a dword length, a dword capacity and that many bytes, all inside the data |
| UserClient.ReadWordValue | s2client/s2/userclient.cpp:533 | readword yields the little-endian word at the read index and advances by two, or fails and stays put when fewer than two bytes remain |
| UserClient.ReadDwordValue | s2client/s2/userclient.cpp:534 | readdword yields the little-endian dword at the read index and advances by four, or fails and stays put when fewer than four bytes remain |
| UserClient.ReadStateUpdate | s2client/s2/userclient.cpp:533-536 | the reads of StateUpdate yield exactly its layout and advance past it |
| UserClient.ReadCompressedUpdate | s2client/s2/userclient.cpp:542-548 | the reads of CompressedStateUpdate yield exactly its layout and advance past it |
| UserClient.ReadFragment | s2client/s2/userclient.cpp:561-564 | the reads of a state fragment yield exactly its layout and advance past it |
| UserClient.ReadCompressedTerminate | s2client/s2/userclient.cpp:581-589 | the reads of CompressedStateTerminate yield exactly its layout and advance past it |
| UserClient.ReadChunk | s2client/s2/userclient.cpp:634-636 | the reads of a download chunk yield exactly its layout and advance past it |
| UserClient.ReadSized | s2client/s2/userclient.cpp:700-705 | the reads of Snapshot yield exactly its layout and advance past it |
| UserClient.ReadCompressedSnapshot | s2client/s2/userclient.cpp:713-719 | the reads of CompressedSnapshot yield exactly its layout and advance past it |
| UserClient.BuildConnect | s2client/s2/userclient.cpp:94-101 | the Connect body written field by field is the wire format's Connect payload: magic, version, protocol byte, password, client id word, account dword, empty string |
| UserClient.WriteConnectHead | s2client/s2/userclient.cpp:95-98 | the first four Connect fields append the magic, the client version, the protocol byte and the password |
| UserClient.WriteConnectIds | s2client/s2/userclient.cpp:99-101 | the last three Connect fields append the client id word, the account dword and an empty string |
| UserClient.SnapshotFragmentAt | s2client/s2/userclient.cpp:732-735 | a SnapshotFragment is a frame dword and a byte, the rest of the packet being the fragment |
| UserClient.SnapshotTerminateAt | s2client/s2/userclient.cpp:739-745 | a SnapshotTerminate is a frame dword, a byte, a word length and that many bytes, all inside the data |
| UserClient.ReadWorldStrings | s2client/s2/userclient.cpp:612-613 | the reads of LoadWorld yield the two strings and advance past both terminators |
| UserClient.ReadSnapshotFragment | s2client/s2/userclient.cpp:732-735 | the reads of SnapshotFragment yield exactly its layout, five bytes in |
| UserClient.ReadSnapshotTerminate | s2client/s2/userclient.cpp:739-745 | the reads of SnapshotTerminate yield exactly its layout and advance past it |
| UserClient.GamedataAt | s2client/s2/userclient.cpp:763-900 | a gamedata message ends within the data, and only a whole Death message marks an entity killed |
| UserClient.DeathLayout | s2client/s2/userclient.cpp:866-870 | a Death message is exactly two dwords and a word |
| UserClient.GamedataAtKnown | s2client/s2/userclient.cpp:763-893 | a known gamedata message ends where its layout says, and kills iff it is a whole Death message |
| UserClient.SkipGamedata | s2client/s2/userclient.cpp:765-893 | reading past a known gamedata message succeeds exactly when it is whole, ending right after it |
| UserClient.SkipHitFeedback | s2client/s2/userclient.cpp:797-805 | reading past a HitFeedback (a kind byte, then three singles for kind 13 and a word otherwise) succeeds exactly when it is whole, ending right after it |
| UserClient.SkipExecScript | s2client/s2/userclient.cpp:878-887 | reading past an ExecScript (the script name, a word count and that many name and value strings) succeeds exactly when it is whole, ending right after it |
| UserClient.InflatedState | s2client/s2/userclient.cpp:590-596 | a failed inflate leaves the state sets alone; a successful one updates only the set of its id with the inflated bytes |
| UserClient.ApplyInflated | s2client/s2/userclient.cpp:590-596 | applying the inflate outcome yields that state map |
| UserClient.SkipToEnd | s2client/s2/userclient.cpp:523 | advancing by what remains puts the read index at the end and keeps the bytes |
| UserClient.BuildCvars | s2client/s2/userclient.cpp:368-380 | the Vars body written into a packet is the wire format's cvars payload: the length dword, the key/value pairs with 0xFF after each, then 0xC2 |
| UserClient.BuildSnapshot | s2client/s2/userclient.cpp:353-361 | the client snapshot body written into a packet is the wire format's snapshot payload |
| UserClient.SnapshotStatus | s2client/s2/userclient.cpp:482-491 | every server snapshot is counted, and a received header sets the current frame |
| UserClient.SnapshotStatusOk | s2client/s2/userclient.cpp:483-486 | the first snapshot puts a client waiting for it in game as a spectator, other states are unchanged, and the session facts are kept |
| UserClient.UserClient.constructor | s2client/s2/userclient.hpp:35-86 | a new client is disconnected, out of game, with no client number, no frame, 20 server fps, the seven default cvars, empty state, fragments and download, and cleared controls |
| UserClient.UserClient.Reset | s2client/s2/userclient.cpp:22-29 | reset sets 20 server fps, disconnected, not connected, no client number, state sequence 0, and clears the world |
| UserClient.UserClient.ResetWorld | s2client/s2/userclient.cpp:30-38 | resetworld empties the game's tables, leaves the game, forgets the frame and drops the state sets and both fragment maps |
| UserClient.UserClient.ResetLocalEnt | s2client/s2/userclient.cpp:39-42 | resetlocalent drops the waypoints and clears the input bits, nothing else |
| UserClient.UserClient.GetCvar | s2client/s2/userclient.cpp:81-83 | reading a cvar returns its value and inserts a missing one with an empty value, keeping the cvars ordered; the key is taken whole, where the source cuts it at its first NUL (see Left out) |
| UserClient.UserClient.SetCvar | s2client/s2/userclient.cpp:84-86 | writing a cvar maps the key to the value and changes no other cvar; the key is taken whole, where the source cuts it at its first NUL (see Left out) |
| UserClient.UserClient.SendCvars | s2client/s2/userclient.cpp:368-382 | sendcvars sends one reliable Vars carrying every cvar in key order |
| UserClient.UserClient.RequestStateStrings | s2client/s2/userclient.cpp:383-385 | one reliable RequestStateStrings with no data is sent |
| UserClient.UserClient.SendVarsRequest | s2client/s2/userclient.cpp:514-515 | the answer to RequestVars is the cvars then the request for state strings, in that order |
| UserClient.UserClient.SendClientReady | s2client/s2/userclient.cpp:387-391 | sendclientready leaves the game, enters Ready and sends one reliable Ready |
| UserClient.UserClient.SendClientJoin | s2client/s2/userclient.cpp:393-398 | sendclientjoin enters WaitingFirstFrame and sends one reliable Join |
| UserClient.UserClient.SendDownloadWorld | s2client/s2/userclient.cpp:400-405 | senddownloadworld leaves the game, enters LoadingWorld and sends one reliable DownloadWorld |
| UserClient.UserClient.SendClientSnapshot | s2client/s2/userclient.cpp:344-366 | before the first server frame nothing is sent; otherwise one unreliable Snapshot for the current frame carrying server time, weapon, input, pitch and yaw, and one more snapshot counted |
| UserClient.UserClient.Think | s2client/s2/userclient.cpp:155-256 | think acts once per frame, takes the session decision's new state and sends its commands, and clears the waypoints when the player went dormant |
| UserClient.UserClient.ProcessServerSnapshot | s2client/s2/userclient.cpp:482-491 | a server snapshot updates the status as SnapshotStatus says and replaces the game's tables when it was received whole |
| UserClient.UserClient.OnKick | s2client/s2/userclient.cpp:495-501 | KickClient reads the reason string and resets the client, stopping when the string is unterminated |
| UserClient.UserClient.OnShuttingDown | s2client/s2/userclient.cpp:502-507 | ShuttingDown resets the client |
| UserClient.UserClient.OnRequestVars | s2client/s2/userclient.cpp:508-516 | RequestVars takes the client number for client and game, connects, enters Connecting and sends the cvars then the state string request |
| UserClient.UserClient.OnDenyConnect | s2client/s2/userclient.cpp:517-524 | DenyConnect with nothing left is fatal (the reason length wraps); otherwise the client resets and skips the rest of the packet |
| UserClient.UserClient.OnStateReset | s2client/s2/userclient.cpp:525-530 | StateReset puts the state sequence to 0 and drops every state set |
| UserClient.UserClient.OnStateUpdate | s2client/s2/userclient.cpp:531-539 | StateUpdate applies its bytes to the set of its id and moves the state sequence on |
| UserClient.UserClient.OnCompressedStateUpdate | s2client/s2/userclient.cpp:540-558 | CompressedStateUpdate applies the inflated bytes to the set of its id and moves the sequence on; a failed inflate stops the client |
| UserClient.UserClient.OnStateFragment | s2client/s2/userclient.cpp:559-565 | StateFragment appends its bytes to the fragments of its id |
| UserClient.UserClient.OnStateTerminate | s2client/s2/userclient.cpp:566-577 | StateTerminate completes the fragments of its id, applies them to that set, drops them and moves the sequence on |
| UserClient.UserClient.OnCompressedStateTerminate | s2client/s2/userclient.cpp:578-600 | CompressedStateTerminate inflates the completed fragments and applies them only on success, then drops them and moves the sequence on either way |
| UserClient.UserClient.OnStateStringsEnd | s2client/s2/userclient.cpp:601-609 | StateStringsEnd inserts the three looked-up keys into set 1, takes the server fps from svr_gameFPS, stopping when it is no number, and sends Ready |
| UserClient.UserClient.OnLoadWorld | s2client/s2/userclient.cpp:610-624 | LoadWorld reads the name and checksum strings (stopping when either is missing), moves past both, keeps them, loads the world, clears the world state and then joins or asks for a download |
| UserClient.UserClient.EnterAndJoin | s2client/s2/userclient.cpp:616-623 | once the names are read, LoadWorld keeps them, clears the world state, and sends Join when the world was found and DownloadWorld otherwise |
| UserClient.UserClient.EnterWorld | s2client/s2/userclient.cpp:612-617 | the world part of LoadWorld keeps the names, loads the world found under them and clears the world state |
| UserClient.UserClient.JoinOrDownload | s2client/s2/userclient.cpp:618-623 | a loaded world is joined and a missing one downloaded |
| UserClient.UserClient.OnDownloadStart | s2client/s2/userclient.cpp:625-631 | DownloadStart takes the announced length and empties the download |
| UserClient.UserClient.OnDownloadWorld | s2client/s2/userclient.cpp:632-638 | DownloadWorld appends exactly its chunk to the download |
| UserClient.UserClient.OnDownloadFinished | s2client/s2/userclient.cpp:639-665 | DownloadFinished writes the download to the world's file, empties it, loads the world and joins; an unwritable file or a world that does not load stops the client |
| UserClient.UserClient.OnSnapshot | s2client/s2/userclient.cpp:698-710 | Snapshot processes a copy of exactly its counted bytes and advances past them |
| UserClient.UserClient.OnCompressedSnapshot | s2client/s2/userclient.cpp:711-729 | CompressedSnapshot processes the inflated bytes as a snapshot of the inflated length; a failed inflate stops the client |
| UserClient.UserClient.OnSnapshotFragment | s2client/s2/userclient.cpp:730-736 | SnapshotFragment appends the rest of the packet to the fragments of its frame |
| UserClient.UserClient.OnSnapshotTerminate | s2client/s2/userclient.cpp:737-752 | SnapshotTerminate completes the fragments of its frame, processes and drops them; an empty terminate for an unknown frame only warns |
| UserClient.UserClient.ProcessGamedata | s2client/s2/userclient.cpp:763-900 | a known gamedata message is read past, Death marking its victim killed; an unknown id skips the packet and is not handled |
| UserClient.UserClient.OnGamedata | s2client/s2/userclient.cpp:693-697 | Gamedata reads the message id and processes the message, dropping processgamedata's result |
| UserClient.UserClient.ConnectionCmd | s2client/s2/userclient.cpp:495-524 | the connection commands dispatch to their handlers and never report not handled; DenyConnect is fatal on an empty rest and otherwise resets the client and skips to the end of the packet |
| UserClient.UserClient.StateCmd | s2client/s2/userclient.cpp:525-558 | the state string commands that update a set dispatch to their handlers |
| UserClient.UserClient.FragmentCmd | s2client/s2/userclient.cpp:559-609 | the fragmented state string commands and StateStringsEnd dispatch to their handlers |
| UserClient.UserClient.WorldCmd | s2client/s2/userclient.cpp:610-669 | the world commands dispatch to their handlers and ClientAuthenticated is handled without effect |
| UserClient.UserClient.SnapshotCmd | s2client/s2/userclient.cpp:698-754 | the snapshot commands dispatch to their handlers and CompressedSnapshotTerminate stops the client |
| UserClient.UserClient.ProcessCmd | s2client/s2/userclient.cpp:493-762 | a known command is handled by its case; an unknown one skips the rest of the packet and reports not handled, leaving state, held strings and the send log as they were; CompressedSnapshotTerminate is fatal; DenyConnect resets and skips to the end of the packet |
| UserClient.UserClient.ProcessMessage | s2client/s2/userclient.cpp:134-141 | a message is processed command by command to its end; the count is at least one for a non-empty message and at most one per byte, and the bytes and client id are kept |
| UserClient.UserClient.Update | s2client/s2/userclient.cpp:130-153 | update keeps the client id and only adds to what was sent; when no command stopped the client it stays valid and has thought about the current frame |
| UserClient.UserClient.Tick | s2client/s2/userclient.cpp:142-151 | the end of update sends the due client snapshot and then thinks: the new status is think's decision on the status the snapshot left, the send log gains the snapshot followed by think's commands, the waypoints are cleared when think says so, and the current frame is thought about |
| UserClient.UserClient.SnapshotIfDue | s2client/s2/userclient.cpp:142-148 | a client snapshot for the current frame is sent and counted exactly when the client is in game, a frame has arrived and the last snapshot is at least 1000 / mPacketSendFps milliseconds old; otherwise nothing changes |
| UserClient.UserClient.ReadAndProcess | s2client/s2/userclient.cpp:133-141 | the next delivered message is processed command by command, keeping the client id and only adding to what was sent; a client that was not stopped stays valid |
| UserClient.UserClient.Connect | s2client/s2/userclient.cpp:88-119 | connect takes the new client id; an unsent Connect leaves the client reset and disconnected; otherwise the next datagram out is exactly the unreliable Connect frame with the password, client id and account id; a completed attempt returns whether the client is connected |
| UserClient.UserClient.Disconnect | s2client/s2/userclient.cpp:121-128 | disconnect sends one reliable Disconnect carrying the reason, then resets to disconnected |
| UserClient.SkipSlot | s2client/s2/userclient.cpp:670-692 | reading one field of a command succeeds exactly when the data holds it, then stops right after it, and never moves the read index back or past the end |
| UserClient.WriteCounted | s2client/s2/userclient.cpp:377-380 | the packet written holds the length dword in little-endian order, then the counted bytes, then the 0xC2 end marker |
| World.IndexInGrid | s2client/s2/world.hpp:56-61 | inside a width x height grid the row-major index y * width + x lies in [0, width * height) |
| World.IndexInjective | s2client/s2/world.hpp:56-61 | inside the grid two cells share a row-major index iff they are the same cell, so a set touches only its own cell |
| World.MulLe | s2client/s2/world.hpp:57 | row offsets grow with the row: m <= n gives m * width <= n * width |
| World.GetAfterSet | s2client/s2/world.hpp:56-61 | after set(x, y, v), get(x, y) returns v and every other cell of the grid keeps its value |
| World.Map2D.Cells | s2client/s2/world.hpp:12-14 | the cells of a valid map are exactly width * height values |
| World.Map2D.constructor | s2client/s2/world.hpp:22 | the default map has no data and is 0 x 0 |
| World.Map2D.Release | s2client/s2/world.hpp:15-20 | release drops the data and makes the map 0 x 0 |
| World.Map2D.Initialize | s2client/s2/world.hpp:51-54 | initialize takes the new size and a fresh array of exactly width * height cells |
| World.Map2D.Get | s2client/s2/world.hpp:56-58 | get(x, y) is the cell at row-major index y * width + x |
| World.Map2D.Set | s2client/s2/world.hpp:59-61 | set(x, y, v) changes exactly the cell at y * width + x to v |
| World.Map2D.At | s2client/s2/world.hpp:63-65 | reading by linear index gives the same cell as get at the coordinates of that index |
| World.Map2D.SetAt | s2client/s2/world.hpp:66-68 | writing through the linear index changes exactly that cell |
| World.Map2D.Copy | s2client/s2/world.hpp:23-27 | the copy constructor makes a fresh array of the same size holding the same cells |
| World.Map2D.CopyAssign | s2client/s2/world.hpp:37-43 | copy assignment as written duplicates another map's size and cells, but empties a map assigned to itself |
| World.Map2D.CopyAssignChecked | s2client/s2/world.hpp:37-43 | copy assignment with a self-assignment check always leaves the map with the source map's size and cells, including for itself |
| World.Map2D.Moved | s2client/s2/world.hpp:28-33 | the move constructor takes the other map's data and size and leaves it 0 x 0 with no data |
| World.Map2D.MoveAssign | s2client/s2/world.hpp:44-50 | move assignment takes another map's data and size and leaves that map 0 x 0 with no data |
| World.SelfCopyAssignEmpties | s2client/s2/world.hpp:38-41 | a 2 x 2 map assigned to itself as written goes from four cells to none |
| World.SelfCopyAssignChecked | s2client/s2/world.hpp:37-43 | the same map assigned to itself with the check keeps its four cells |
| World.CopyCells | s2client/s2/world.hpp:40-41 | the copy loop leaves every cell of the destination equal to the source's cell at the same index |
| Bresenham.Abs | s2client/core/utils/bresenham.hpp:9 | abs is non-negative and equals the value or its negation |
| Bresenham.Setup | s2client/core/utils/bresenham.hpp:9-13 | dx is non-negative, dy non-positive, and each step sign is 1 or -1 |
| Bresenham.ErrArith | s2client/core/utils/bresenham.hpp:18-26 | on the track a finished coordinate's test always fails, at least one test passes, and each update keeps the error term equal to a (v + 1) - b (u + 1) |
| Bresenham.AtEnd | s2client/core/utils/bresenham.hpp:16 | on the track the walk is at the end point exactly when every step along x and y is taken |
| Bresenham.StartOnTrack | s2client/core/utils/bresenham.hpp:9-13 | the initial position with err = dx + dy is on the track |
| Bresenham.StepOnTrack | s2client/core/utils/bresenham.hpp:18-26 | away from the end one step stays on the track, strictly reduces the steps left, never overshoots, moves, and changes x by 0 or sx and y by 0 or sy |
| Bresenham.Walk | s2client/core/utils/bresenham.hpp:14-27 | the walk from a position starts at that position and is never empty |
| Bresenham.Points | s2client/core/utils/bresenham.hpp:15 | the pushed points are the walk's positions, one for one |
| Bresenham.WalkStep | s2client/core/utils/bresenham.hpp:15-26 | away from the end the walk's points are the current point followed by the walk from the next position |
| Bresenham.WalkProps | s2client/core/utils/bresenham.hpp:14-27 | every position of a walk is on the track, each is the step of the one before, and only the last is at the end point |
| Bresenham.LineEnds | s2client/core/utils/bresenham.hpp:6-29 | fullbresenham's line is never empty, begins at the start and finishes at the end |
| Bresenham.LineSteps | s2client/core/utils/bresenham.hpp:6-29 | consecutive points of the line are distinct 8-neighbours, moving x only by sx and y only by sy |
| Bresenham.LineInBox | s2client/core/utils/bresenham.hpp:6-29 | every point of the line lies in the box spanned by the two ends |
| Bresenham.LineToItself | s2client/core/utils/bresenham.hpp:14-17 | the line from a point to itself is that single point |
| Bresenham.Advance | s2client/core/utils/bresenham.hpp:18-26 | the loop body updates x, y and err exactly as one step of the walk |
| Bresenham.FullBresenham | s2client/core/utils/bresenham.hpp:6-29 | the in-place loop pushes exactly the points of the line, so it ends and has all of LineEnds, LineSteps and LineInBox |
| Bresenham.BresenhamNextOnLine | s2client/core/utils/bresenham.hpp:72-89 | bresenham_next is the line's second point, or the start when the line is the start alone |
| Bresenham.Iterator.constructor | s2client/core/utils/bresenham.hpp:42-50 | a new iterator has the walk's constants, is at the start and has returned nothing |
| Bresenham.Iterator.Finished | s2client/core/utils/bresenham.hpp:52 | finished holds iff the line is a single point and nothing was returned, or the whole line has been returned |
| Bresenham.Iterator.Next | s2client/core/utils/bresenham.hpp:54-69 | next returns the line's next point in order, so the points returned so far are always a prefix of fullbresenham's line |
| Bresenham.Line | s2client/core/utils/bresenham.hpp:6-29 | fullbresenham's line is never empty and starts at the start point |
| Bresenham.BresenhamNext | s2client/core/utils/bresenham.hpp:72-89 | bresenham_next moves each coordinate by at most one, and returns the start itself when it is the end |
| SmdlFormat.Vec3s | s2client/s2/model.cpp:147-149 | n vectors read one after the other give exactly n values, twelve bytes apart |
| SmdlFormat.FlippedVec3s | s2client/s2/model.cpp:296-301 | n normals or tangents read give exactly n values, each with x and y negated |
| SmdlFormat.Dwords | s2client/s2/model.cpp:315-318 | n colour dwords read give exactly n values |
| SmdlFormat.TexCoords | s2client/s2/model.cpp:264-268 | n (u, v) pairs read give exactly n texture coordinates |
| SmdlFormat.Planes | s2client/s2/model.cpp:141-145 | n planes read give exactly n planes, sixteen bytes apart |
| SmdlFormat.ByteIndexes | s2client/s2/model.cpp:231-237 | byte-wide face indices give exactly n unsigned values |
| SmdlFormat.ShortIndexes | s2client/s2/model.cpp:238-244 | short face indices give exactly n values, sign-extended from 16 bits |
| SmdlFormat.IntIndexes | s2client/s2/model.cpp:245-251 | int face indices give exactly n values, read as signed 32-bit |
| SmdlFormat.CStringAtSpec | s2client/s2/model.cpp:103-105 | readString yields the zero-free bytes before the first zero at or after the index, and fails exactly when no zero follows |
| SmdlFormat.CStringUnique | s2client/s2/model.cpp:103-105 | a zero-terminated prefix of the data is unique, so the string read is determined |
| SmdlFormat.ZeroNotBefore | s2client/s2/model.cpp:103 | a zero byte of the data never lies inside a zero-free prefix |
| SmdlFormat.Resize | s2client/s2/model.cpp:140 | resize to n keeps the first n elements and pads with the default value |
| SmdlFormat.AllocFaces | s2client/s2/model.hpp:43-48 | AllocFaces(count) makes room for exactly 3 * count indices, so NumFaces is then count, keeping the faces already there and nothing else changing |
| SmdlFormat.AllocVertices | s2client/s2/model.hpp:49-54 | AllocVertices(count) makes NumVertices count, keeping the vertices already there and nothing else changing |
| SmdlFormat.NameFlagsChoice | s2client/s2/model.cpp:115-122 | a mesh name gets Foliage iff it contains "_foliage", else NoHit iff it contains "_nohit", else Invis iff it contains "_invis" or "_trisurf", else no flag |
| SmdlFormat.Split | s2client/s2/model.cpp:69-78 | the block loop, when it reaches the end of the data, records every block with its payload offset inside the data; otherwise it fails on a truncated header or runs out of fuel |
| SmdlFormat.BE32 | s2client/s2/model.cpp:70 | a tag written big-endian is exactly four bytes |
| SmdlFormat.EncodeBlock | s2client/s2/model.cpp:70-76 | a block as written is its tag, its length and its payload: eight bytes more than the payload |
| SmdlFormat.Locate | s2client/s2/model.cpp:72-77 | one located block per written block |
| SmdlFormat.ShortPayloadsTail | s2client/s2/model.cpp:71 | a run of blocks with lengths below 2^31 keeps that after its first block |
| SmdlFormat.BE32RoundTrip | s2client/s2/model.cpp:70 | readDwordBE reads back the tag written big-endian |
| SmdlFormat.ByteBits | s2client/s2/model.cpp:71 | a number below 256 survives the trip through a byte |
| SmdlFormat.NatLE32 | s2client/s2/model.cpp:71 | a 32-bit length is written as four bytes |
| SmdlFormat.NatLE32Number | s2client/s2/model.cpp:71 | a length written as four little-endian bytes reads back as itself |
| SmdlFormat.Digits | s2client/s2/model.cpp:71 | a 32-bit number is the sum of its four base-256 digits |
| SmdlFormat.EncodedHead | s2client/s2/model.cpp:70-71 | the header of a written block reads back its tag and its length, both unsigned and as a signed int |
| SmdlFormat.SplitEncoded | s2client/s2/model.cpp:69-78 | splitting written blocks gives back each tag with the offset and length of its payload, in order: the block loop inverts the block encoding |
| SmdlFormat.EncodedLaidOut | s2client/s2/model.cpp:70-76 | in written blocks each header reads back as its block's tag and length, and the next header starts right after the payload |
| SmdlFormat.SplitLaidOut | s2client/s2/model.cpp:69-78 | on data whose block headers read back in that way, the block loop records every block in order, each at the index after its header, and stops at the end |
| SmdlFormat.SplitCons | s2client/s2/model.cpp:69-78 | one turn of the block loop records the block at the index and continues after its length |
| SmdlFormat.SmallMod | s2client/s2/model.cpp:76 | an index below the size bound is unchanged by the wrap of the size type |
| SmdlFormat.LocatedPayloads | s2client/s2/model.cpp:72-77 | each located block's payload is exactly the bytes at its recorded offset and length |
| SmdlFormat.HeaderAt | s2client/s2/model.cpp:39-53 | the header loads iff 44 bytes are there and the version is 3; a wrong version is a core::error, a short one a failed read |
| SmdlFormat.NewMeshValue | s2client/s2/model.cpp:111-125 | a new mesh has the standard set counts, NumVertices default vertices and the flag its name selects |
| SmdlFormat.MeshRecordAt | s2client/s2/model.cpp:102-105 | a mesh block's reads give the 42-byte record at its offset, else a failed read |
| SmdlFormat.MeshBlock | s2client/s2/model.cpp:100-127 | a mesh block whose Id is the mesh count appends exactly one new mesh with the record's vertex count, leaving the other meshes, the surface and the bounds alone; a wrong Id is fatal |
| SmdlFormat.OffsetTriangles | s2client/s2/model.cpp:156-160 | each triangle index is offset by the point count before the block, stored as uint32 |
| SmdlFormat.SurfBlock | s2client/s2/model.cpp:128-171 | a surf block either applies or fails only on a read past the end |
| SmdlFormat.BonesEnd | s2client/s2/model.cpp:178-198 | the bone records, when all present, end inside the data |
| SmdlFormat.BoneBlock | s2client/s2/model.cpp:172-209 | a bone block reads bonecount records and keeps nothing: the model is unchanged |
| SmdlFormat.MeshIndex | s2client/s2/model.cpp:212-213 | the addressed mesh is found iff the index dword is present and below the mesh count; an index at or past the count, which the source does not check, is Fatal here |
| SmdlFormat.SetMesh | s2client/s2/model.cpp:213 | writing through GetMesh changes only that mesh |
| SmdlFormat.VrtsBlock | s2client/s2/model.cpp:210-221 | a vrts block succeeds iff its mesh exists and NumVertices vectors follow; it then replaces only that mesh's vertices, keeping their number; a bad index is fatal, short data a failed read |
| SmdlFormat.FaceIndexes | s2client/s2/model.cpp:230-251 | a face block's indices, when readable, are 3 * count values |
| SmdlFormat.FaceBlock | s2client/s2/model.cpp:222-257 | a face block with width 1, 2 or 4 replaces only its mesh's faces with 3 * count indices; any other width is fatal |
| SmdlFormat.TexcBlock | s2client/s2/model.cpp:258-271 | a texc block succeeds iff its mesh exists, its set index is below 8 and a pair per vertex follows; it then replaces only that set of that mesh, with one entry per vertex |
| SmdlFormat.TangBlock | s2client/s2/model.cpp:272-289 | a tang block succeeds iff its mesh exists, its set index is below 8 and a vector per vertex follows; it then replaces only that tangent set of that mesh, with one entry per vertex |
| SmdlFormat.NrmlBlock | s2client/s2/model.cpp:290-306 | a nrml block succeeds iff its mesh exists and a vector per vertex follows; it then replaces only that mesh's normals, one per vertex |
| SmdlFormat.ColrBlock | s2client/s2/model.cpp:307-321 | a colour set index above 1 is fatal before the mesh is looked up; otherwise the block succeeds iff its mesh exists and a dword per vertex follows, replacing only that colour set, one entry per vertex |
| SmdlFormat.LinkBlock | s2client/s2/model.cpp:322-343 | a link block succeeds iff its vertex count matches its mesh's, and then keeps nothing |
| SmdlFormat.ApplyBlock | s2client/s2/model.cpp:97-353 | any block keeps every mesh well shaped; only mesh blocks add meshes, only surf blocks change the surface, and sign or unknown tags change nothing |
| SmdlFormat.ApplyBlocks | s2client/s2/model.cpp:97-353 | applying the blocks in order keeps every mesh well shaped, and the first failure stops the load |
| SmdlFormat.InitialModel | s2client/s2/model.cpp:88-89 | the model starts with no meshes and the header's bounds |
| SmdlFormat.LoadSpec | s2client/s2/model.cpp:55-355 | Load returns null exactly for a wrong signature; a loaded model had the signature, a first block tagged head and a valid header |
| SmdlFormat.MeshIdsInOrder | s2client/s2/model.cpp:109-111 | when the blocks apply, each mesh block's Id is the number of mesh blocks before it, and one mesh is added per mesh block |
| SmdlFormat.LoadedMeshes | s2client/s2/model.cpp:97-127 | a loaded model has one mesh per mesh block, created in Id order |
| SmdlFormat.SurfShape | s2client/s2/model.cpp:140-160 | after a surf block the planes are NumPlanes resized entries then NumPlanes read ones, points, edges and triangles keep their old entries and gain exactly the block's, and each new triangle index is shifted by the earlier point count modulo 2^32 |
| SmdlFormat.FirstSurfPlanes | s2client/s2/model.cpp:140-145 | on a model without planes the first surf block leaves NumPlanes default planes followed by the NumPlanes planes read |
| SmdlFormat.CStringAt | s2client/s2/model.cpp:103-105 | a string read at i ends at a zero byte inside the data, right after its last byte |
| SmdlFormat.NameFlags | s2client/s2/model.cpp:115-122 | a mesh name selects no flag or exactly one of foliage, nohit and invis, and a name holding "_foliage" always selects foliage |
| SmdlModel.Model.constructor | s2client/s2/model.hpp:77 | a new model has no meshes, zero bounds and an empty surface |
| SmdlModel.Model.NewMesh | s2client/s2/model.hpp:89-92 | NewMesh appends exactly one default mesh and returns its index, the old mesh count |
| SmdlModel.Model.GetMesh | s2client/s2/model.hpp:93-95 | GetMesh(id) is the mesh at that index |
| SmdlModel.Model.NumMeshes | s2client/s2/model.hpp:96-98 | NumMeshes is the length of the mesh list |
| SmdlModel.ReadVec3 | s2client/s2/model.cpp:137 | read<vector3f> succeeds iff twelve bytes remain, yields the three floats there and advances by twelve; a failed read does not move |
| SmdlModel.RecordDword | s2client/s2/model.cpp:102 | a dword of a record read in one piece is the dword at that place in the data |
| SmdlModel.RecordVec3 | s2client/s2/model.cpp:102 | a vector of a record read in one piece is the vector at that place in the data |
| SmdlModel.CStringMatches | s2client/s2/model.cpp:103-105 | readString yields exactly the zero-terminated string the format defines at that index |
| SmdlModel.ReadVec3s | s2client/s2/model.cpp:147-149 | the points loop succeeds iff n vectors remain, yields them in order and advances past them |
| SmdlModel.ReadFlippedVec3s | s2client/s2/model.cpp:296-301 | the normals loop succeeds iff n vectors remain and yields them with x and y negated |
| SmdlModel.ReadTexCoords | s2client/s2/model.cpp:264-268 | the texc loop succeeds iff n pairs remain and yields them in order |
| SmdlModel.ReadDwords | s2client/s2/model.cpp:315-318 | the colr loop succeeds iff n dwords remain and yields them in order |
| SmdlModel.ReadPlanes | s2client/s2/model.cpp:141-145 | the planes loop succeeds iff n planes remain, yields them in order and advances past them |
| SmdlModel.ReadEdges | s2client/s2/model.cpp:150-155 | the edges loop succeeds iff n vector pairs remain and pushes the 2n vectors in order |
| SmdlModel.ReadTriangles | s2client/s2/model.cpp:156-160 | the triangles loop succeeds iff 3n dwords remain and pushes each offset by the earlier point count, as uint32 |
| SmdlModel.ReadByteFaces | s2client/s2/model.cpp:231-237 | the byte faces loop succeeds iff 3 * count bytes remain and yields them as unsigned indices |
| SmdlModel.ReadShortFaces | s2client/s2/model.cpp:238-244 | the short faces loop succeeds iff 3 * count shorts remain and yields them sign-extended |
| SmdlModel.ReadIntFaces | s2client/s2/model.cpp:245-251 | the int faces loop succeeds iff 3 * count ints remain and yields them as signed values |
| SmdlModel.LoadHeader | s2client/s2/model.cpp:39-53 | LoadHeader's reads give exactly the format's header outcome: version 3 required, then four dwords and two vectors |
| SmdlModel.ReadMeshBlock | s2client/s2/model.cpp:100-127 | the mesh case changes the model exactly as the format's mesh block says, or stops with its failure |
| SmdlModel.MeshBlockOk | s2client/s2/model.cpp:109-125 | a mesh block whose reads succeed and whose Id is the mesh count appends exactly the new mesh value |
| SmdlModel.ReplaceLast | s2client/s2/model.cpp:111-113 | filling in the mesh just appended replaces only the last element |
| SmdlModel.ReadMeshRecord | s2client/s2/model.cpp:102-105 | the reads of the mesh case give exactly the record, name and material the format defines |
| SmdlModel.MeshRecordFields | s2client/s2/model.cpp:102-124 | the fields taken from the record read in one piece are those of the data, so the new mesh is the same |
| SmdlModel.FillMesh | s2client/s2/model.cpp:112-125 | the member assignments make the new mesh exactly the format's new mesh value |
| SmdlModel.NameFlag | s2client/s2/model.cpp:115-122 | the flag or-ed into a new mesh is the first-match flag its name selects |
| SmdlModel.OrZero | s2client/s2/model.cpp:116 | or-ing a flag into a zero flags word gives that flag |
| SmdlModel.ReadSurfBlock | s2client/s2/model.cpp:128-171 | the surf case changes the model's surface exactly as the format's surf block says, or stops |
| SmdlModel.ReadSurface | s2client/s2/model.cpp:130-163 | the reads of a surf block give exactly the format's surface outcome |
| SmdlModel.ReadSurfLists | s2client/s2/model.cpp:140-160 | the list reads succeed iff the whole block is there, resizing the planes to NumPlanes then appending the planes, points, edges and offset triangles |
| SmdlModel.SurfRecord | s2client/s2/model.cpp:132 | the counts of the surf record read in one piece are the format's counts |
| SmdlModel.ReadBoneBlock | s2client/s2/model.cpp:172-209 | the bone case succeeds iff all bonecount records are present and otherwise fails on a read past the end |
| SmdlModel.ReadBone | s2client/s2/model.cpp:179-197 | one bone record is an int, 24 floats, a name length byte, that many bytes and one more byte, read in order |
| SmdlModel.ReadMeshIndex | s2client/s2/model.cpp:212-213 | the mesh index read gives exactly the format's mesh lookup and advances by four |
| SmdlModel.ReadVrtsBlock | s2client/s2/model.cpp:210-221 | the vrts case changes the model exactly as the format's vrts block says, or stops |
| SmdlModel.ReadFaceBlock | s2client/s2/model.cpp:222-257 | the face case changes the model exactly as the format's face block says, or stops |
| SmdlModel.ReadTexcBlock | s2client/s2/model.cpp:258-271 | the texc case changes the model exactly as the format's texc block says, or stops |
| SmdlModel.ReadTangBlock | s2client/s2/model.cpp:272-289 | the tang case changes the model exactly as the format's tang block says, or stops |
| SmdlModel.ReadNrmlBlock | s2client/s2/model.cpp:290-306 | the nrml case changes the model exactly as the format's nrml block says, or stops |
| SmdlModel.ReadColrBlock | s2client/s2/model.cpp:307-321 | the colr case changes the model exactly as the format's colr block says, or stops |
| SmdlModel.ReadLinkBlock | s2client/s2/model.cpp:322-343 | the link cases leave the model alone and succeed exactly as the format's link block says |
| SmdlModel.ApplyBlockTo | s2client/s2/model.cpp:98-352 | the switch on a block's tag changes the model exactly as the format's block says, keeping it valid |
| SmdlModel.SplitBlocks | s2client/s2/model.cpp:68-78 | the block loop records exactly the blocks the format's splitter gives |
| SmdlModel.ReadBlock | s2client/s2/model.cpp:70-77 | one turn of the block loop records the block after its header and advances by its length |
| SmdlModel.SplitStep | s2client/s2/model.cpp:69-78 | one turn of the loop extends the recorded blocks by that block, as the splitter does |
| SmdlModel.Load | s2client/s2/model.cpp:55-355 | model::Load fails exactly when the format's load fails, with the same failure; otherwise it returns a fresh valid model whose value is the format's loaded model |
| SmdlModel.ReadStringAt | s2client/s2/model.cpp:103-105 | seeking to an offset and reading a string gives the zero-terminated string stored at that offset, or fails when it has no terminator |
| SmdlModel.ApplyLaterBlocks | s2client/s2/model.cpp:97-353 | the loop over the blocks after 'head' leaves the model as applying those blocks in order specifies, or stops with the first block's failure |
| Replays.WordBytes | s2client/s2/replay.cpp:48-55 | a word is the 0xFFFF terminator iff both its bytes are 0xFF, is zero iff both are zero, and its low byte is its first byte |
| Replays.Field | s2client/s2/replay.cpp:52-55 | a key or value that is found ends after its terminator, inside the data |
| Replays.EntryAt | s2client/s2/replay.cpp:46-58 | one turn of the state-string loop, when it reads a whole entry, ends inside the data past the first word |
| Replays.StateSet | s2client/s2/replay.cpp:43-61 | a set that is read whole ends after its zero word, inside the data |
| Replays.ByteLists | s2client/s2/replay.cpp:71-76 | count byte-list entries, when present, take at least eight bytes each |
| Replays.WStringLists | s2client/s2/replay.cpp:85-88 | count wide-string entries, when present, take at least six bytes each |
| Replays.Snapshots | s2client/s2/replay.cpp:65-91 | the snapshot loop either counts at least the records already read or fails on a truncated record or for lack of fuel |
| Replays.SignatureIsS2R0 | s2client/s2/replay.cpp:23-25 | the signature check accepts exactly the data starting with the ASCII bytes S2R0 |
| Replays.LoadOutcomes | s2client/s2/replay.cpp:10-99 | the load is a core::error exactly for a wrong signature or, with the right one, a version above 27, and a loaded replay has the wide string after the version as its map name and state sets 1 to 3 |
| Replays.ThreeSets | s2client/s2/replay.cpp:42-62 | the set loop stores under the keys k to 3 and nothing else |
| Replays.LowBytes | s2client/s2/replay.cpp:51-55 | the low bytes of n words are n bytes |
| Replays.Shift | s2client/s2/replay.cpp:52 | the k-th word after the next is the (k+1)-th from here |
| Replays.FieldFound | s2client/s2/replay.cpp:52-55 | a key or value found is the low bytes of the words before the first 0xFFFF word, and it ends just after that word |
| Replays.FieldMissing | s2client/s2/replay.cpp:52-55 | a key or value is unterminated exactly when no 0xFFFF word follows in the data |
| Replays.Wide | s2client/s2/replay.cpp:44 | a byte string stored as wide characters takes two bytes per character |
| Replays.EncodeEntry | s2client/s2/replay.cpp:51-55 | an entry as stored is its key, 0xFFFF, its value and 0xFFFF, two bytes per character plus four |
| Replays.Window | s2client/s2/replay.cpp:52-55 | a window of the data holding a then b holds a and, after it, b |
| Replays.FieldRoundTrip | s2client/s2/replay.cpp:52-55 | a field stored as wide characters and 0xFFFF reads back as its bytes |
| Replays.KeyRoundTrip | s2client/s2/replay.cpp:48-53 | a stored key reads back whole, its first word taken before the loop |
| Replays.EntryRoundTrip | s2client/s2/replay.cpp:46-58 | a stored entry with a storable key reads back as that key and value |
| Replays.SetRoundTrip | s2client/s2/replay.cpp:43-61 | a stored set of storable entries reads back as those entries stored in order |
| Replays.LastWins | s2client/s2/replay.cpp:58 | with duplicate keys the last entry's value is the one kept |
| Replays.Untouched | s2client/s2/replay.cpp:58 | a key that no entry names keeps what the set held for it |
| Replays.Replay.constructor | s2client/s2/replay.cpp:7-8 | a new replay has an empty map name and no state sets |
| Replays.ReadField | s2client/s2/replay.cpp:52-55 | the inner read loop yields exactly the format's key or value and stops after its terminator |
| Replays.ReadStateSet | s2client/s2/replay.cpp:43-61 | the entry loop yields exactly the format's set and stops after its zero word |
| Replays.SkipBytes | s2client/s2/replay.cpp:74-75 | the byte-skipping loop succeeds iff n bytes remain and then advances by n |
| Replays.ReadByteLists | s2client/s2/replay.cpp:71-76 | the first two count loops read exactly the format's byte-list entries |
| Replays.ReadWStringLists | s2client/s2/replay.cpp:85-88 | the third count loop reads exactly the format's wide-string entries |
| Replays.ReadSnapshot | s2client/s2/replay.cpp:67-90 | one snapshot record is read exactly as the format's record, ending where it ends |
| Replays.ReadCountedBytes | s2client/s2/replay.cpp:70-76 | a dword count and that many byte-list entries are read as the format says |
| Replays.ReadCountedWStrings | s2client/s2/replay.cpp:84-88 | a dword count and that many wide-string entries are read as the format says |
| Replays.ReadSnapshots | s2client/s2/replay.cpp:65-91 | the snapshot loop counts exactly the records the format's loop counts |
| Replays.WStringFits | s2client/s2/replay.cpp:87 | a zero-terminated wide string fits in the bytes it is read from |
| Replays.SnapshotsStep | s2client/s2/replay.cpp:66-91 | one turn of the snapshot loop fails on a truncated record and otherwise continues after it with one more record counted |
| Replays.ReadStateSets | s2client/s2/replay.cpp:42-62 | the three sets are read as the format's sets 1 to 3 |
| Replays.LoadFromData | s2client/s2/replay.cpp:21-96 | LoadFromFile on the extracted data fails exactly when the format's load fails, with the same failure, and otherwise returns a fresh replay holding the format's result |
| Replays.ReadContents | s2client/s2/replay.cpp:38-91 | what follows the version is read as the format says: map name, three sets, snapshot records |
| Replays.StateSets | s2client/s2/replay.cpp:42-62 | reading the three state-string sets consumes at least two bytes per remaining set and, before the last set, stays inside the data |
| Replays.Turns | s2client/s2/replay.cpp:73-75 | the loop `for (; i; i--)` runs a non-negative count below 2^32 times, and a negative count i wraps to i + 2^32 turns |
| Replays.LoadSpec | s2client/s2/replay.cpp:21-96 | a replay loads only when it holds the 'S2R0' signature and a version of at most 27 |
| Replays.LoadedContents | s2client/s2/replay.cpp:38-62 | a loaded replay's map name is the wide string after the version, and its state sets are exactly sets 1, 2 and 3 |
| Replays.ReadByteEntry | s2client/s2/replay.cpp:72-75 | one byte-list entry reads iff its two ints and its byte count fit in the data, and then the index moves past them |
| Replays.ReadWStringEntry | s2client/s2/replay.cpp:86-87 | one wide-string entry reads iff its int fits and a terminated wide string follows, and then the index moves past the terminator |
| Replays.ReadNextSnapshot | s2client/s2/replay.cpp:66-91 | reading one snapshot record fails exactly when the whole remaining record loop would end truncated, and otherwise leaves the loop's outcome unchanged with one record counted |
| Replays.ReadNameAndSets | s2client/s2/replay.cpp:38-62 | reading the map name and the three sets succeeds iff both are whole, and then the replay holds that name and those sets and the index is after the last set |
| MasterServer.FirstSplit | s2client/s2/masterserver.cpp:11-24 | the tokenizer's next token ends at a position inside the text that is a separator or a brace, or at the end of the text |
| MasterServer.FirstSplitAfter | s2client/s2/masterserver.cpp:22-24 | characters that are neither separators nor braces only lengthen the pending token |
| MasterServer.PiecesStep | s2client/s2/masterserver.cpp:13-21 | a separator pushes the pending token and a brace pushes itself, then tokenizing carries on after it |
| MasterServer.PiecesPlain | s2client/s2/masterserver.cpp:11-25 | text with no separator and no brace gives no token at all |
| MasterServer.TokenEnds | s2client/s2/masterserver.cpp:13-21 | at a separator or brace the pending token is pushed (or the brace in its place) and cleared |
| MasterServer.TokenGrows | s2client/s2/masterserver.cpp:22-24 | at any other character the pending token grows by that character and stays free of separators |
| MasterServer.TokensFromPieces | s2client/s2/masterserver.cpp:11-25 | the tokenizer loop from any point pushes the tokens of the pending token followed by the rest of the text |
| MasterServer.Tokenize | s2client/s2/masterserver.cpp:8-26 | the tokenizer loop fills the deque with exactly the tokens of the text |
| MasterServer.SplitCountAppend | s2client/s2/masterserver.cpp:11-25 | separators and braces counted over two texts add up, and plain text has none |
| MasterServer.TokenCount | s2client/s2/masterserver.cpp:11-25 | the tokenizer pushes one token per separator or brace in the text |
| MasterServer.FirstSplitPlain | s2client/s2/masterserver.cpp:22-24 | the text before the first separator or brace has none |
| MasterServer.TrailingTextDropped | s2client/s2/masterserver.cpp:11-25 | text after the last separator or brace never becomes a token |
| MasterServer.JoinRoundTrip | s2client/s2/masterserver.cpp:11-25 | tokens free of separators joined with ';' tokenize back to themselves |
| MasterServer.DigitRun | s2client/s2/masterserver.cpp:68 | the digits std::stoi reads lie inside its argument |
| MasterServer.Decimal | s2client/s2/masterserver.cpp:68 | a count written in decimal is a non-empty run of digits |
| MasterServer.DecimalValue | s2client/s2/masterserver.cpp:68 | the digits of a number written in decimal have that value |
| MasterServer.DigitRunAll | s2client/s2/masterserver.cpp:68 | a run made only of digits is read whole |
| MasterServer.StoiDecimal | s2client/s2/masterserver.cpp:68 | std::stoi on a non-negative int written in decimal gives it back |
| MasterServer.LookupLast | s2client/s2/masterserver.cpp:43-49 | the first pair with a key is in the front pairs if any of them has it, else it is the last pair or none |
| MasterServer.PairsFromLookup | s2client/s2/masterserver.cpp:43-49 | popping pairs from the back into a map keeps a key exactly when some pair or the map had it, the value of the earliest pair with it winning |
| MasterServer.FirstPairWins | s2client/s2/masterserver.cpp:41-49 | the string map built from the pairs holds exactly the keys of the pairs, each with the value of its first pair |
| MasterServer.ConvertPairs | s2client/s2/masterserver.cpp:43-49 | the pop-back loop builds exactly that string map |
| MasterServer.Append | s2client/s2/masterserver.cpp:60-62 | appending a node to the current array keeps the depth of open arrays |
| MasterServer.ParseResponse | s2client/s2/masterserver.cpp:5-94 | parse_ms_response gives exactly the tree the token-by-token parser spec gives, or the same failed assert, throw or undefined access |
| MasterServer.PairNodes | s2client/s2/masterserver.cpp:78-87 | n string pairs become 2n string nodes |
| MasterServer.UnquoteQuote | s2client/s2/masterserver.cpp:80-85 | a quoted string of the declared length is read back without its quotes |
| MasterServer.StringEntry | s2client/s2/masterserver.cpp:78-87 | an 's' entry appends its string node to the current array |
| MasterServer.PairEntry | s2client/s2/masterserver.cpp:58-89 | a key and a value entry append two string nodes in order |
| MasterServer.PairsParse | s2client/s2/masterserver.cpp:32-91 | the entries of n pairs append their 2n string nodes to the current array |
| MasterServer.MapParse | s2client/s2/masterserver.cpp:37-73 | an array of string pairs with its count and braces is closed into a string map appended to the enclosing array |
| MasterServer.ReplyParse | s2client/s2/masterserver.cpp:5-94 | a reply that is one serialized array of string pairs parses to a root whose only element is the map of those pairs, the first pair of a key winning |
| MasterServer.LoginSucceeds | s2client/s2/masterserver.cpp:123-137 | a login succeeds exactly when the first element is a string map with a non-empty cookie and a numeric account_id, then reports them; otherwise it reports failure with empty fields |
| MasterServer.Login | s2client/s2/masterserver.cpp:118-138 | login on the response fails as the parse fails, and otherwise gives the login spec of the parsed root |
| MasterServer.Pieces | s2client/s2/masterserver.cpp:11-25 | every token the tokenizer emits is either free of separators and braces or a single brace |
| MasterServer.Stoi | s2client/s2/masterserver.cpp:68 | std::stoi yields only values inside the 32-bit int range, throws on text that is empty after white space, and yields a negative value only after a '-' sign |
| MasterServer.PairsFrom | s2client/s2/masterserver.cpp:43-49 | popping pairs from the back keeps every key already in the map and leaves the first pair's key mapped to the first pair's value |
| MasterServer.FirstPairsWin | s2client/s2/masterserver.cpp:43-49 | for every key at once, the map holds the key exactly when some pair has it, with the value of the first such pair |
| MasterServer.Close | s2client/s2/masterserver.cpp:37-51 | a closing brace leaves an array unchanged, or turns it into a string map whose keys are exactly the pairs' keys, each with its first pair's value |
| MasterServer.Collapse | s2client/s2/masterserver.cpp:32-93 | when the tokens run out the result is the root array, with the root's count |
| MasterServer.Unquote | s2client/s2/masterserver.cpp:79-85 | a missing token fails as undefined, and an accepted string has the declared length and is the token with its quotes stripped (a lone quote gives the empty string) |
| MasterServer.Run | s2client/s2/masterserver.cpp:32-91 | the parser loop ends with the root, either still an array with the root's count or turned into a string map |
| MasterServer.ParseSpec | s2client/s2/masterserver.cpp:5-94 | parse_ms_response returns the root, either an array with the root's count or a string map |
| MasterServer.LoginSpec | s2client/s2/masterserver.cpp:123-137 | login fails only by std::stoi throwing, and a successful login always has a non-empty cookie |
| Resources.FileData | s2client/s2/resourcemanager.cpp:10-14 | an archive file is found exactly when the archive holds that name |
| Resources.DirIsLastSlash | s2client/s2/resourcemanager.cpp:38 | the directory of an mdf is its longest prefix ending in '/', empty when it has none, and no '/' follows it |
| Resources.Key | s2client/s2/resourcemanager.cpp:51 | a model's key is '/' followed by the mdf's name |
| Resources.KeyInjective | s2client/s2/resourcemanager.cpp:51 | two different mdf names never share a key |
| Resources.ModelOf | s2client/s2/resourcemanager.cpp:46-50 | loading the model file gives a model exactly when the model format's load succeeds, and then that model; a null model is not a failure |
| Resources.LoadModelFile | s2client/s2/resourcemanager.cpp:46-50 | the model load yields a fresh well-shaped model holding exactly the model format's result, or the same null or failure |
| Resources.FindModel | s2client/s2/resourcemanager.cpp:10-50 | the steps before storing yield a fresh well-shaped model holding exactly what LoadMdf's spec loads, or the same false return or failure |
| Resources.MdfSpec | s2client/s2/resourcemanager.cpp:9-54 | LoadMdf stops only on a load failure of the model itself; a null model (bad signature) is the false return, never a stop |
| Resources.MdfLoads | s2client/s2/resourcemanager.cpp:9-54 | LoadMdf loads a model exactly when the mdf exists, parses to a model element with a file attribute, that model file exists and loads, and the model is the loaded one |
| Resources.LoadAllKeys | s2client/s2/resourcemanager.cpp:58-69 | loading an archive keeps every model already stored and adds only keys of its mdf names; models under other keys are untouched |
| Resources.OthersIgnored | s2client/s2/resourcemanager.cpp:63 | names that do not end in .mdf are never opened |
| Resources.ResourceManager.constructor | s2client/s2/resourcemanager.hpp:17 | a new manager holds no models |
| Resources.ResourceManager.LookupModel | s2client/s2/resourcemanager.cpp:70-76 | LookupModel finds a model exactly when one is stored under that key, and then it is that model |
| Resources.ResourceManager.LoadMdf | s2client/s2/resourcemanager.cpp:9-54 | LoadMdf returns true exactly when its spec loads a model, then stores a fresh model under '/' + the name and changes no other key; a false return leaves the models as they were |
| Resources.ResourceManager.Put | s2client/s2/resourcemanager.cpp:51 | storing a model replaces the key's model and keeps every other key |
| Resources.ResourceManager.LoadResources | s2client/s2/resourcemanager.cpp:58-69 | LoadResources runs LoadMdf on every .mdf name in archive order, skips failed ones and returns true, leaving the models the archive spec gives |
| Resources.Dir | s2client/s2/resourcemanager.cpp:38 | the directory part of a file name is no longer than the name and is empty or ends in '/' |
| Resources.ModelPath | s2client/s2/resourcemanager.cpp:35-38 | a model attribute starting with '/' names the file after that '/', and any other attribute is appended to the mdf's directory |
| Resources.LoadAll | s2client/s2/resourcemanager.cpp:58-69 | LoadResources keeps every model already loaded, and an archive with no .mdf name changes nothing |
| Common.LE16Num | s2client/network/packet.cpp:77-79 | a word read from two bytes is the number those bytes denote little-endian |
| Common.LE32Num | s2client/network/packet.cpp:81-83 | a dword read from four bytes is the number those bytes denote little-endian |
| Common.ByteBitUpdate | s2client/core/utils/bitvector.hpp:12-21 | assigning bit k of a byte sets or clears bit k and keeps the other seven |
| Common.ByteFromBits | s2client/core/utils/bitvector.hpp:19-21 | two bytes that agree on all eight bits are equal |
| Common.BitAtAppend | s2client/core/utils/bitvector.hpp:31-34 | pushing bytes onto the end keeps every bit already there |
| Common.ZeroBits | s2client/core/utils/bitvector.hpp:26-29 | the zero bytes of a new bit vector read every bit as clear |
| Common.Zeros | s2client/core/utils/bitvector.hpp:28 | zero-filled storage of n bytes has n bytes, all zero |
| LittleEndian.DwordBytes | s2client/core/io/bytestream.hpp:55 | the dword at i read as bits is the base-256 number of its four bytes |

## Left out

- Sockets, the UDP/TCP/HTTP transport, logging, rendering, the UI thread, key polling and `Sleep` are not part of this model. The socket is a finite sequence of inbound datagrams plus a log of outbound frames. The HTTP post in `masterserver::login` is replaced by the response text, given as a parameter.
- Clocks and randomness are parameters. `servertime()` takes the elapsed milliseconds as an argument, `update` takes the time since the last client snapshot, and `connect` takes the client id that `core::random` would draw.
- zlib's `mz_uncompress` is a partial function parameter (`Env.inflate`). Zip extraction is a map from name to bytes (`Resources.Archive`, and the replay's extracted data). tinyxml2's parse of an `.mdf` is a function parameter returning the `<model>` element's file attribute.
- Floating point is not modelled numerically. Wire singles are kept as raw IEEE-754 bits. Conversions are exact real values with no rounding to the nearest float: ByteFloat is exactly b/255, the event angles are exactly b/255*360, and WordFloat and the word vectors are the exact integer values.
- Game.ReadValue: does not round ByteFloat, WordFloat or WordVector3 values to float, because floats are exact values here.
- Snapshot.ReadEvent: does not round the scaled angles2 field to float, because floats are exact values here.
- Packet.Packet.Read: a failed `read<T>` (`packet.hpp:34-38`) only asserts in the source, and in a release build it returns an uninitialised value without moving the cursor. Here it is a failure outcome, and every caller stops on it: Game.Game.ReadEntUpdate gives `Failed(OutOfData)`, the snapshot spec gives a broken snapshot, NetMsg.Parse fails, and the UserClient handlers stop with `OutOfData`.
- UserClient.UserClient.ProcessCmd: unchecked `nextdata()`/`data()` reads past the end of the packet (`userclient.cpp:519,734`) are undefined behaviour in the source. Here they are failure outcomes.
- DecodeFieldsBitArray/PresentVars: when the root presence bit is clear, `bfhdecomp` returns a single zero byte and `decodefieldsbitarray` reads past it for more than 8 fields, which is undefined behaviour. Here every presence bit reads as clear in that case (FieldBits.DecodeFieldsBitArray, Game.PresentVars), which is the evidently intended result (see Findings).
- The lower-casing FNV variants (`hash_*_to_lower`, `fnv.hpp:145-187`) depend on the C locale's `tolower` and are not part of this model. The `fnv` alias sized by `sizeof(void*)` (`fnv.hpp:204`) is not fixed to one platform: both widths are modelled (`Fnv.Width`).
- `masterserver::getserverlist` (`masterserver.cpp:98-117`) is not modelled: it fetches the list over HTTP and indexes the parsed tree without any check. Only `parse_ms_response` and `login` are modelled.
- MasterServer.ParseResponse: the root node's element count is never initialised in the source. Here it is the parameter `rootCount`. The parser's `current` node in the tree is a stack of open arrays, and reading past the token deque's end (`front()` or `tokens[0]` on an empty deque) is the `Undefined` outcome.
- Resources.ResourceManager: the process-wide singleton `_Instance`/`gResourceManager` and the destructor are not modelled; a manager is created explicitly. `shared_ptr` models are object references.
- SmdlModel.Load: the loop over blocks, the replay snapshot loop (Replays.ReadSnapshots) and the snapshot record loop (Game.Game.ReadRecords) take a fuel bound on the number of iterations. Running out is an `OutOfFuel` outcome, which a real run of the as-written record loop can reach by looping forever.
- SmdlModel: the float payloads (vertex positions, normals, tangents, texture coordinates, colours, bone matrices) are kept as raw 32-bit words. The sign flips of normals and tangents are bit flips of the sign. The `vrts` resize before reading is a no-op on the model's length-checked vector.
- Replays.ReadStateSets: the three state-string sets are built in a local map and assigned to `mState` once all three are read. The source writes `mState` as it goes, but on a failure the replay object is discarded, so no state that can be observed differs.
- Session.Think: `think()`'s Playing branch follows waypoints with float geometry (`userclient.cpp:211-252`). This branch, `movetowards`, `pathtowards`, `pingminimap` and `drawminimap` are not modelled. The model keeps the dormant-entity transition back to Spectating with its waypoint clearing. Otherwise Playing stays Playing without sending anything.
- UserClient: the `DownloadFinished` file write and `_mkdir` (`userclient.cpp:642-656`) are a `save` parameter, and the ExecScript reconnect (`userclient.cpp:888-892`) is not modelled. The accessors that only return a member (`game()`, `state()`, `connected()`, `ingame()`, `sentsnapshots()`, `recvdsnapshots()`, `currentworld()`, `clientinfo()`, `gameinfo()`, `teaminfo()`) have no members of their own; their values are fields of the model.
- UserClient.UserClient.GetCvar: the source looks the cvar up under `std::string(key.data())` (`userclient.cpp:81-83`), which stops at the key's first NUL byte (and reads past the end of a view that is not NUL-terminated), so a key holding a zero byte reads and inserts its prefix; the model keys the map by the whole key. The only callers pass string literals.
- UserClient.UserClient.SetCvar: the source assigns under `std::string(key.data())` (`userclient.cpp:84-86`), which stops at the key's first NUL byte, so a key holding a zero byte sets its prefix; the model keys the map by the whole key. The only callers pass string literals.
- Entity.FieldOf: the source's switch compares machine-word FNV-1a hashes of the name (`entity.hpp:74-135`), and the runtime hash stops at the first NUL byte; a name whose hash collides with an attribute name's, or which equals it up to a NUL, also selects that attribute. The model selects by exact name only, which is the switch's evident intent.
- ByteStream: `readChar` has no member of its own. It is the one-byte read inside ByteStream.ByteStream.ReadCString and ByteStream.ByteStream.ReadFixedString, which model the `readString` loops that call it. `readQword` and `readDouble` are not modelled: no modelled code calls them.
- A `core::bytestream` read past the end (`bytestream.hpp:37-42`, `bytestream.cpp:8-23`) neither moves nor asserts in the source. It returns an uninitialised value and the caller reads on. The model has no value for that, so such a read is a failure outcome and the load that made it fails. The lines below name each member that takes this failure. The source's bound test `(mReadIdx + len) > mDataLength` (`bytestream.cpp:9`, `bytestream.cpp:16`) is computed in `size_t` and wraps once `advance` has pushed the read index near 2^64, so a read there passes the test; the model compares unbounded integers and rejects such a read.
- ByteStream.ByteStream.ReadByte: a read past the end is `None` here; the source returns an uninitialised byte and goes on.
- ByteStream.ByteStream.ReadWord: a read past the end is `None` here; the source returns an uninitialised word and goes on.
- ByteStream.ByteStream.ReadDword: a read past the end is `None` here; the source returns an uninitialised dword and goes on.
- ByteStream.ByteStream.ReadShort: a read past the end is `None` here; the source returns an uninitialised short and goes on.
- ByteStream.ByteStream.ReadInt: a read past the end is `None` here; the source returns an uninitialised int and goes on.
- ByteStream.ByteStream.ReadFloat: a read past the end is `None` here; the source returns an uninitialised float and goes on.
- ByteStream.ByteStream.ReadDwordBE: a read past the end is `None` here; the source returns an uninitialised dword and goes on.
- ByteStream.ByteStream.ReadCString: a string with no terminator before the end is `None` here; the source's `readString(-1)` keeps calling `readChar` on uninitialised chars.
- ByteStream.ByteStream.ReadFixedString: fewer than n bytes left is `None` here; the source appends uninitialised chars.
- ByteStream.ByteStream.ReadWCString: a wide string with no terminator before the end is `None` here; the source's `readWString(-1)` keeps calling `readWord` on uninitialised words.
- ByteStream.ByteStream.ReadFixedWString: fewer than 2n words left is `None` here; the source appends uninitialised words.
- SmdlFormat.HeaderAt: a header block shorter than 44 bytes is `Truncated` here; the source loads it from uninitialised values.
- SmdlFormat.MeshRecordAt: a short mesh record is `Truncated` here; the source reads uninitialised values and goes on.
- SmdlFormat.SurfBlock: a short surf block is `Truncated` here; the source reads uninitialised values and goes on.
- SmdlFormat.BoneBlock: a short bone block is `Truncated` here; the source reads uninitialised values and then seeks to the next block (`model.cpp:96-97`).
- SmdlFormat.VrtsBlock: short vertex data is `Truncated` here; the source reads uninitialised values and goes on.
- SmdlFormat.NrmlBlock: short normal data is `Truncated` here; the source reads uninitialised values and goes on.
- SmdlFormat.LoadSpec: a truncated block fails the whole load here, where the source reads on and returns the model.
- SmdlModel.ReadBoneBlock: inherits SmdlFormat.BoneBlock's `Truncated` for a short bone block.
- SmdlModel.Load: inherits SmdlFormat.LoadSpec's failures for short reads and for the undefined behaviour listed below.
- Replays.Snapshots: a truncated snapshot record is `Truncated` here; the source reads uninitialised values and its loop runs on to `eof()` (`replay.cpp:65-91`).
- Replays.SnapshotsStep: a truncated record is `Truncated` here, as in Replays.Snapshots.
- Replays.LoadFromData: inherits the snapshot loop's `Truncated` for a truncated record, where `LoadFromFile` returns the replay.
- Replays.LoadOutcomes: a truncated record is a failure here, where the source goes on; its statements about the signature and the version are exact.
- Replays.Turns: `for (; i; i--)` on a negative int passes INT_MIN, which is signed overflow and undefined behaviour in the source. Here the count wraps modulo 2^32, the two's-complement reading.
- SmdlFormat.MeshIndex: `GetMesh` (`model.hpp:93-95`) indexes the mesh list without a check, so an index at or past the mesh count is undefined behaviour in the source. Here it is `Fatal`.
- SmdlFormat.VrtsBlock: a bad mesh index is `Fatal` here, through SmdlFormat.MeshIndex; the source's unchecked `GetMesh` is undefined behaviour.
- SmdlFormat.FaceBlock: a bad mesh index is `Fatal` here, through SmdlFormat.MeshIndex; the source's unchecked `GetMesh` is undefined behaviour.
- SmdlFormat.NrmlBlock: a bad mesh index is `Fatal` here, through SmdlFormat.MeshIndex; the source's unchecked `GetMesh` is undefined behaviour.
- SmdlFormat.ColrBlock: a bad mesh index is `Fatal` here, through SmdlFormat.MeshIndex; the source's unchecked `GetMesh` is undefined behaviour.
- SmdlFormat.LinkBlock: a bad mesh index is `Fatal` here, through SmdlFormat.MeshIndex; the source's unchecked `GetMesh` is undefined behaviour.
- SmdlFormat.TexcBlock: a slot index of 8 or more indexes past `texcoords[8]` (`model.cpp:263`, `model.hpp:33`), which is undefined behaviour in the source. Here it is a failure.
- SmdlFormat.TangBlock: a slot index of 8 or more indexes past `tangents[8]` (`model.cpp:277`, `model.hpp:34`), which is undefined behaviour in the source. Here it is a failure.
- SmdlModel.ReadMeshIndex: inherits SmdlFormat.MeshIndex's `Fatal` for an index the source's `GetMesh` does not check.
- SmdlModel.ReadTexcBlock: inherits SmdlFormat.TexcBlock's failure for a slot index of 8 or more.
- SmdlModel.ReadTangBlock: inherits SmdlFormat.TangBlock's failure for a slot index of 8 or more.
- SmdlFormat.LoadSpec: an empty block list reads `blocks[0]` of an empty vector (`model.cpp:81`), which is undefined behaviour in the source. Here it is `Fatal`.
- Snapshot.WordVec: `vector3f(readword(), readword(), readword())` (`snapshot.cpp:12,25`) evaluates its three reads in an order C++ leaves unspecified. The model reads them left to right into x, y and z.
- Snapshot.DecodeEvent: fixes the order of the three word reads of each vector to x, y, z, as Snapshot.WordVec does; the source leaves that order to the compiler.
- Snapshot.ReadEvent: fixes the order of the three word reads of each vector to x, y, z, as Snapshot.WordVec does; the source leaves that order to the compiler.
- Bresenham.Setup: coordinates are unbounded integers. The source computes `abs(x1 - x0)`, `abs(y1 - y0)` and `dx + dy` in 32-bit int (`bresenham.hpp:9-13`), which overflows, undefined behaviour, for points more than 2^31 - 1 apart.
- Bresenham.Advance: the source's `2 * err` (`bresenham.hpp:18-26`) overflows a 32-bit int for far-apart points; here it is unbounded.
- Bresenham.FullBresenham: inherits Bresenham.Setup's and Bresenham.Advance's unbounded arithmetic where the source overflows a 32-bit int.
- Bresenham.Iterator.constructor: the source's `abs` differences and error sum (`bresenham.hpp:42-50`) overflow a 32-bit int for far-apart points; here they are unbounded.
- Bresenham.Iterator.Next: the source's `2 * err` (`bresenham.hpp:54-69`) overflows a 32-bit int for far-apart points; here it is unbounded.
- UserClient.UserClient.Tick: the time since the last client snapshot is a parameter, so the reset of `mLastClientSnapshot` by `sendclientsnapshot` is not state of the model; the sent-snapshot counter is.
- UserClient.UserClient.ProcessMessage: states what every processed message keeps (bytes, client id, a send log that only grows, validity) and the command count. The new state is not stated as the per-command contracts of UserClient.UserClient.ProcessCmd folded over the message, because those contracts take the state between commands, which the loop does not name.
- UserClient.UserClient.Update: inherits UserClient.UserClient.ProcessMessage's statement of the processed message, so the new state is not the per-command contracts folded over the message; what follows the message is stated exactly by UserClient.UserClient.Tick.
- Allocation failure (`std::bad_alloc`) is not modelled: every resize and insert succeeds.
- `iowriter.hpp`, `modelregistry.hpp` and `aicontroller.h` do not compile or only declare interfaces; they are not part of this model, and neither are `world.cpp`, `navmesh2d.cpp`, the math headers and the quadtree.
- Bresenham.FullBresenham: the source returns a reference to one static vector that every call reuses. Here each call returns a fresh sequence, so the aliasing between calls is not modelled.

## Findings

| source | as written | input that shows it | evidently intended | confidence | as-written member | corrected member |
|---|---|---|---|---|---|---|
| s2client/s2/entity.cpp:50-55 | `bfhdecomp` returns the one byte `{0}` when the root bit is clear, and `decodefieldsbitarray` then reads presence bits up to N-1 from that one byte | 9 applicable fields and the input byte 0x00: 8 bits are decoded, bits 8 and up are read past the buffer | every one of the N fields is absent | not executed | FieldBits.AsWrittenTooShort | FieldBits.RoundTrip |
| s2client/s2/game.cpp:102 | an update record for an entity that is not in the table calls `pkt.seek(pkt.remaining())`, which moves the read index to the absolute position equal to the bytes left | a 38-byte snapshot whose record at byte 18 names a missing entity: remaining() is 18, so the loop reads the same record again forever | skip to the end of the packet, as the unknown-type branch does | not executed | Game.AsWrittenSeekLoops | Game.RecordsTerminate |
| s2client/s2/world.hpp:37-43 | copy assignment releases the grid before copying the source's size and cells | `m = m` on a 2 x 2 grid leaves it 0 x 0 with no cells | assigning a grid to itself keeps it unchanged | not executed | World.Map2D.CopyAssign | World.Map2D.CopyAssignChecked |
