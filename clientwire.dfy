/*
 * What userclient puts on the wire and reads off it, as values: the
 * server's command and gamedata ids, the bodies of Connect, Vars and the
 * client snapshot, the layouts of the messages the client reads only to
 * skip them, the reassembly of fragmented state strings and snapshots,
 * and the foreign pieces (the zlib decompressor and the file system) as
 * an environment of functions.
 */
module ClientWire {
  import opened Common
  import opened Packet
  import opened StateStrings

  // ---------------------------------------------------------------------
  // Server command ids (netids.hpp, namespace ServerCmd)

  const SvKickClient: bv8 := 0x05
  const SvShuttingDown: bv8 := 0x06
  const SvRequestVars: bv8 := 0x50
  const SvDenyConnect: bv8 := 0x51
  const SvStateReset: bv8 := 0x52
  const SvStateUpdate: bv8 := 0x53
  const SvCompressedStateUpdate: bv8 := 0x54
  const SvStateFragment: bv8 := 0x55
  const SvStateTerminate: bv8 := 0x56
  const SvCompressedStateTerminate: bv8 := 0x57
  const SvStateStringsEnd: bv8 := 0x58
  const SvLoadWorld: bv8 := 0x5A
  const SvSnapshot: bv8 := 0x5B
  const SvCompressedSnapshot: bv8 := 0x5C
  const SvSnapshotFragment: bv8 := 0x5D
  const SvSnapshotTerminate: bv8 := 0x5E
  const SvCompressedSnapshotTerminate: bv8 := 0x5F
  const SvGamedata: bv8 := 0x60
  const SvClientAuthenticated: bv8 := 0x61
  const SvDownloadWorld: bv8 := 0x62
  const SvDownloadFinished: bv8 := 0x63
  const SvDownloadStart: bv8 := 0x64
  const SvNewVoiceClient: bv8 := 0x65
  const SvUpdateVoiceClient: bv8 := 0x66
  const SvRemoveVoiceClient: bv8 := 0x67

  /** The commands processcmd has a case for. */
  predicate KnownCmd(cmd: bv8) {
    cmd == SvKickClient || cmd == SvShuttingDown || (SvRequestVars <= cmd <= SvStateStringsEnd) ||
    (SvLoadWorld <= cmd <= SvRemoveVoiceClient)
  }

  /** Exactly the 25 ids above are known. */
  lemma KnownCmds(cmd: bv8)
    ensures KnownCmd(cmd) <==>
      cmd in {SvKickClient, SvShuttingDown, SvRequestVars, SvDenyConnect, SvStateReset, SvStateUpdate,
              SvCompressedStateUpdate, SvStateFragment, SvStateTerminate, SvCompressedStateTerminate,
              SvStateStringsEnd, SvLoadWorld, SvSnapshot, SvCompressedSnapshot, SvSnapshotFragment,
              SvSnapshotTerminate, SvCompressedSnapshotTerminate, SvGamedata, SvClientAuthenticated,
              SvDownloadWorld, SvDownloadFinished, SvDownloadStart, SvNewVoiceClient,
              SvUpdateVoiceClient, SvRemoveVoiceClient}
  {
  }

  // ---------------------------------------------------------------------
  // Gamedata ids the client reads (netids.hpp, namespace Gamedata)

  const GdChatAll: bv8 := 0x03
  const GdChatTeam: bv8 := 0x04
  const GdChatSquad: bv8 := 0x05
  const GdServerMessage: bv8 := 0x06
  const GdMessage: bv8 := 0x19
  const GdHitFeedback: bv8 := 0x1b
  const GdMinimapDraw: bv8 := 0x1c
  const GdMinimapPing: bv8 := 0x1f
  const GdConstructionComplete: bv8 := 0x2e
  const GdGoldmineLow: bv8 := 0x2f
  const GdPermanentItems: bv8 := 0x31
  const GdVoiceCommand: bv8 := 0x36
  const GdExecScript: bv8 := 0x38
  const GdStartConstructBuilding: bv8 := 0x3e
  const GdBuildingDestroyed: bv8 := 0x3f
  const GdDeath: bv8 := 0x47
  const GdSendMessage: bv8 := 0x4a

  // ---------------------------------------------------------------------
  // Foreign pieces

  /** What the client asks of code outside the model: mz_uncompress as a
      partial function of the compressed bytes, whether game::loadworld
      finds the world file at a path, whether the world file can be opened
      for writing, and whether the world just written there loads. */
  datatype Env = Env(
    inflate: Bytes -> Option<Bytes>,
    worldLoads: Bytes -> bool,
    canWrite: Bytes -> bool,
    loadsWritten: (Bytes, Bytes) -> bool)

  /** mz_uncompress into a buffer of capacity bytes: it fails when the
      input is not a zlib stream or its output does not fit. */
  function Uncompress(env: Env, src: Bytes, capacity: nat): (r: Option<Bytes>)
    ensures r.Some? ==> |r.value| <= capacity && Some(r.value) == env.inflate(src)
  {
    var out := env.inflate(src);
    if out.Some? && |out.value| <= capacity then out else None
  }

  // ---------------------------------------------------------------------
  // Connect (userclient::connect)

  /** "S2_K2_CONNECT" and "2.1.1.1" (consts.hpp), as bytes. */
  const ConnectMagic: Bytes := [0x53, 0x32, 0x5F, 0x4B, 0x32, 0x5F, 0x43, 0x4F, 0x4E, 0x4E, 0x45, 0x43, 0x54]
  const ClientVersion: Bytes := [0x32, 0x2E, 0x31, 0x2E, 0x31, 0x2E, 0x31]
  const ProtocolVersion: bv8 := 1

  /** s as writestring writes it: its bytes and a terminating zero. */
  function CStr(s: Bytes): Bytes {
    s + [0]
  }

  /** The tail of the Connect body: the low 16 bits of the client id, the
      account id and an empty string. */
  function ConnectIds(clientId: bv32, accountId: bv32): Bytes {
    LE16((clientId & 0xFFFF) as bv16) + (LE32(accountId) + [0])
  }

  /** The body of Connect: magic and client version as C strings, the
      protocol version byte, the password as a C string, then the ids. */
  function ConnectPayload(password: Bytes, clientId: bv32, accountId: bv32): (r: Bytes)
    ensures |r| == |password| + 31
    ensures r[..|ConnectMagic| + 1] == CStr(ConnectMagic)
  {
    CStr(ConnectMagic) + (CStr(ClientVersion) + ([ProtocolVersion] + (CStr(password) + ConnectIds(clientId, accountId))))
  }

  /** The ids read back from the tail. */
  lemma ConnectIdsFields(clientId: bv32, accountId: bv32)
    ensures var t := ConnectIds(clientId, accountId);
            |t| == 7 && FromLE16(t[0..2]) as bv32 == clientId & 0xFFFF &&
            FromLE32(t[2..6]) == accountId && t[6] == 0
  {
    var t := ConnectIds(clientId, accountId);
    LE16RoundTrip((clientId & 0xFFFF) as bv16, []);
    LE32RoundTrip(accountId, []);
    assert t[0..2] == LE16((clientId & 0xFFFF) as bv16);
    assert t[2..6] == LE32(accountId);
  }

  /** A C string followed by anything reads back as itself. */
  lemma CStrReadsBack(s: Bytes, rest: Bytes)
    requires NoZero(s)
    ensures CString(CStr(s) + rest) == Some(s) && (CStr(s) + rest)[|s| + 1..] == rest
  {
    CStringOfTerminated(s, rest);
  }

  /** Where each field of the Connect body starts: the strings read back
      as written, the protocol version follows them, and the client id's
      low 16 bits and the account id follow the password's terminator. */
  lemma ConnectPayloadFields(password: Bytes, clientId: bv32, accountId: bv32)
    requires NoZero(password)
    ensures var p := ConnectPayload(password, clientId, accountId);
            var a := |ConnectMagic| + 1 + |ClientVersion| + 1;
            var b := a + 1 + |password| + 1;
            |p| == b + 7 &&
            CString(p) == Some(ConnectMagic) &&
            CString(p[|ConnectMagic| + 1..]) == Some(ClientVersion) &&
            p[a] == ProtocolVersion &&
            CString(p[a + 1..]) == Some(password) &&
            p[b..] == ConnectIds(clientId, accountId)
  {
    var ids := ConnectIds(clientId, accountId);
    var t2 := CStr(password) + ids;
    var t1 := CStr(ClientVersion) + ([ProtocolVersion] + t2);
    var p := CStr(ConnectMagic) + t1;
    assert p == ConnectPayload(password, clientId, accountId);
    CStrReadsBack(ConnectMagic, t1);
    CStrReadsBack(ClientVersion, [ProtocolVersion] + t2);
    CStrReadsBack(password, ids);
    assert p[|ConnectMagic| + 1..] == t1;
    assert t1[|ClientVersion| + 1..] == [ProtocolVersion] + t2;
    var a := |ConnectMagic| + 1 + |ClientVersion| + 1;
    assert p[a..] == [ProtocolVersion] + t2;
    assert p[a + 1..] == t2;
  }

  // ---------------------------------------------------------------------
  // Vars (userclient::sendcvars)

  /** The body of Vars: the length of the encoded cvars as a dword, that
      many bytes of the encoding (the length is cut to 32 bits), and a
      closing 0xC2 byte. */
  function CvarsPayload(cvars: seq<(Bytes, Bytes)>): (r: Bytes)
    ensures |r| == |Encode(cvars)| % 0x1_0000_0000 + 5
    ensures r[|r| - 1] == 0xC2
  {
    var body := Encode(cvars);
    var n := |body| % 0x1_0000_0000;
    LE32(n as bv32) + body[..n] + [0xC2]
  }

  /** The server reads the Vars body back: its length field counts the
      encoding, and parsing the encoding as state strings gives the cvar
      map, when no key or value holds 0xFF. */
  lemma CvarsPayloadReadsBack(cvars: seq<(Bytes, Bytes)>)
    requires NoSepPairs(cvars) && |Encode(cvars)| < 0x1_0000_0000
    ensures var p := CvarsPayload(cvars);
            |p| == |Encode(cvars)| + 5 &&
            FromLE32(p[..4]) == |Encode(cvars)| as bv32 &&
            p[4..|p| - 1] == Encode(cvars) &&
            p[|p| - 1] == 0xC2 &&
            Apply(map[], p[4..|p| - 1]) == AsMap(cvars)
  {
    var body := Encode(cvars);
    var w := |body| as bv32;
    CvarsPayloadShape(cvars);
    LE32RoundTrip(w, []);
    var p := LE32(w) + body + [0xC2];
    assert p[..4] == LE32(w);
    assert p[4..|p| - 1] == body;
    CvarsRoundTrip(cvars);
  }

  /** Below 2^32 bytes the length is not cut. */
  lemma CvarsPayloadShape(cvars: seq<(Bytes, Bytes)>)
    requires |Encode(cvars)| < 0x1_0000_0000
    ensures CvarsPayload(cvars) == LE32(|Encode(cvars)| as bv32) + Encode(cvars) + [0xC2]
  {
    var body := Encode(cvars);
    var n := |body| % 0x1_0000_0000;
    assert n == |body|;
    assert body[..n] == body;
  }

  // ---------------------------------------------------------------------
  // The client snapshot (userclient::sendclientsnapshot)

  /** servertime(): the last server timestamp plus the milliseconds elapsed
      since the last server frame, in 32 bits. The timestamp keeps its
      initial value ~0 (nothing assigns it). */
  function ServerTime(elapsed: bv32): (r: bv32)
    ensures r + 1 == elapsed
  {
    0xFFFF_FFFF + elapsed
  }

  /** So the time sent is one less than the elapsed milliseconds, wrapping
      to ~0 when none have elapsed. */
  lemma ServerTimeLags(elapsed: bv32)
    ensures elapsed != 0 ==> ServerTime(elapsed) == elapsed - 1
    ensures elapsed == 0 ==> ServerTime(elapsed) == 0xFFFF_FFFF
  {
  }

  /** The body of a client snapshot: frame, server time, weapon and input
      mask, then a zero word, the flags byte 5 and the pitch and yaw singles. */
  function SnapshotPayload(frame: bv32, svrtime: bv32, weapon: bv8, input: bv16, pitch: bv32, yaw: bv32): (r: Bytes)
    ensures |r| == 22
  {
    SnapshotHead(frame, svrtime, weapon, input) + SnapshotAngles(pitch, yaw)
  }

  function SnapshotHead(frame: bv32, svrtime: bv32, weapon: bv8, input: bv16): Bytes {
    LE32(frame) + LE32(svrtime) + [weapon] + LE16(input)
  }

  function SnapshotAngles(pitch: bv32, yaw: bv32): Bytes {
    LE16(0) + [5] + LE32(pitch) + LE32(yaw)
  }

  lemma SnapshotHeadLayout(frame: bv32, svrtime: bv32, weapon: bv8, input: bv16)
    ensures var h := SnapshotHead(frame, svrtime, weapon, input);
            |h| == 11 && FromLE32(h[0..4]) == frame && FromLE32(h[4..8]) == svrtime &&
            h[8] == weapon && FromLE16(h[9..11]) == input
  {
    var h := SnapshotHead(frame, svrtime, weapon, input);
    LE32RoundTrip(frame, []);
    LE32RoundTrip(svrtime, []);
    LE16RoundTrip(input, []);
    assert h[0..4] == LE32(frame) && h[4..8] == LE32(svrtime) && h[9..11] == LE16(input);
  }

  lemma SnapshotAnglesLayout(pitch: bv32, yaw: bv32)
    ensures var t := SnapshotAngles(pitch, yaw);
            |t| == 11 && t[0] == 0 && t[1] == 0 && t[2] == 5 &&
            FromLE32(t[3..7]) == pitch && FromLE32(t[7..11]) == yaw
  {
    var t := SnapshotAngles(pitch, yaw);
    LE32RoundTrip(pitch, []);
    LE32RoundTrip(yaw, []);
    assert t[3..7] == LE32(pitch) && t[7..11] == LE32(yaw);
  }

  /** The 22 bytes of a client snapshot and where each field reads back. */
  lemma SnapshotPayloadLayout(frame: bv32, svrtime: bv32, weapon: bv8, input: bv16, pitch: bv32, yaw: bv32)
    ensures var p := SnapshotPayload(frame, svrtime, weapon, input, pitch, yaw);
            |p| == 22 &&
            FromLE32(p[0..4]) == frame && FromLE32(p[4..8]) == svrtime &&
            p[8] == weapon && FromLE16(p[9..11]) == input &&
            p[11] == 0 && p[12] == 0 && p[13] == 5 &&
            FromLE32(p[14..18]) == pitch && FromLE32(p[18..22]) == yaw
  {
    var h := SnapshotHead(frame, svrtime, weapon, input);
    var t := SnapshotAngles(pitch, yaw);
    SnapshotHeadLayout(frame, svrtime, weapon, input);
    SnapshotAnglesLayout(pitch, yaw);
    var p := h + t;
    assert p[0..4] == h[0..4] && p[4..8] == h[4..8] && p[9..11] == h[9..11];
    assert p[14..18] == t[3..7] && p[18..22] == t[7..11];
  }

  // ---------------------------------------------------------------------
  // Messages the client only reads past

  /** One read: a fixed number of bytes, or a NUL-terminated string. */
  datatype Slot = Fixed(width: nat) | Text

  /** The read index after one read from index i, or None when the data
      runs out first. */
  function SlotEnd(data: Bytes, i: nat, slot: Slot): (r: Option<nat>)
    requires i <= |data|
    ensures r.Some? ==> i <= r.value <= |data|
  {
    match slot
    case Fixed(w) => if i + w <= |data| then Some(i + w) else None
    case Text =>
      match CString(data[i..])
      case None => None
      case Some(s) => Some(i + |s| + 1)
  }

  /** The read index after reading slots in order from index i, or None
      when the data runs out first. */
  function SlotsEnd(data: Bytes, i: nat, slots: seq<Slot>): (r: Option<nat>)
    requires i <= |data|
    ensures r.Some? ==> i <= r.value <= |data|
    decreases |slots|
  {
    if slots == [] then Some(i)
    else
      match SlotEnd(data, i, slots[0])
      case None => None
      case Some(j) => SlotsEnd(data, j, slots[1..])
  }

  /** slots, n times over. */
  function Repeat(slots: seq<Slot>, n: nat): (r: seq<Slot>)
    ensures |r| == n * |slots|
  {
    if n == 0 then [] else Repeat(slots, n - 1) + slots
  }

  /** Reading a + b reads a and then b from where a ended. */
  lemma {:induction false} SlotsConcat(data: Bytes, i: nat, a: seq<Slot>, b: seq<Slot>)
    requires i <= |data|
    ensures SlotsEnd(data, i, a + b) ==
            match SlotsEnd(data, i, a)
            case None => None
            case Some(j) => SlotsEnd(data, j, b)
    decreases |a|
  {
    if a != [] {
      assert (a + b)[0] == a[0] && (a + b)[1..] == a[1..] + b;
      var e := SlotEnd(data, i, a[0]);
      if e.Some? {
        SlotsConcat(data, e.value, a[1..], b);
      }
    } else {
      assert a + b == b;
    }
  }

  /** Repeating a + b times is repeating a times and then b times. */
  lemma {:induction false} RepeatAdd(slots: seq<Slot>, a: nat, b: nat)
    ensures Repeat(slots, a + b) == Repeat(slots, a) + Repeat(slots, b)
    decreases b
  {
    if b > 0 {
      RepeatAdd(slots, a, b - 1);
      assert Repeat(slots, a) + Repeat(slots, b - 1) + slots == Repeat(slots, a) + (Repeat(slots, b - 1) + slots);
    } else {
      assert Repeat(slots, a) + [] == Repeat(slots, a);
    }
  }

  /** One more round of a repeated layout reads on from where the rounds
      before it ended. */
  lemma RepeatStep(data: Bytes, i: nat, slots: seq<Slot>, k: nat)
    requires i <= |data| && SlotsEnd(data, i, Repeat(slots, k)).Some?
    ensures SlotsEnd(data, i, Repeat(slots, k + 1)) == SlotsEnd(data, SlotsEnd(data, i, Repeat(slots, k)).value, slots)
  {
    SlotsConcat(data, i, Repeat(slots, k), slots);
  }

  /** A round that runs out of data makes every longer repetition run out. */
  lemma RepeatStops(data: Bytes, i: nat, slots: seq<Slot>, k: nat, n: nat)
    requires i <= |data| && k < n && SlotsEnd(data, i, Repeat(slots, k)).Some?
    requires SlotsEnd(data, SlotsEnd(data, i, Repeat(slots, k)).value, slots).None?
    ensures SlotsEnd(data, i, Repeat(slots, n)).None?
  {
    RepeatAdd(slots, k + 1, n - k - 1);
    SlotsConcat(data, i, Repeat(slots, k + 1), Repeat(slots, n - k - 1));
    SlotsConcat(data, i, Repeat(slots, k), slots);
  }

  /** A string read whole stays the same when more bytes follow. */
  lemma {:induction false} CStringExtend(s: Bytes, more: Bytes)
    requires CString(s).Some?
    ensures CString(s + more) == CString(s)
  {
    var t := CString(s).value;
    assert s == t + [0] + s[|t| + 1..];
    CStringOfTerminated(t, s[|t| + 1..] + more);
    assert s + more == t + [0] + (s[|t| + 1..] + more);
  }

  /** A message read whole is read the same, to the same index, whatever
      follows it: the reads never look past what they consume. */
  lemma {:induction false} SlotsExtend(data: Bytes, more: Bytes, i: nat, slots: seq<Slot>)
    requires i <= |data| && SlotsEnd(data, i, slots).Some?
    ensures SlotsEnd(data + more, i, slots) == SlotsEnd(data, i, slots)
    decreases |slots|
  {
    if slots != [] {
      SlotExtend(data, more, i, slots[0]);
      SlotsExtend(data, more, SlotEnd(data, i, slots[0]).value, slots[1..]);
    }
  }

  lemma SlotExtend(data: Bytes, more: Bytes, i: nat, slot: Slot)
    requires i <= |data| && SlotEnd(data, i, slot).Some?
    ensures SlotEnd(data + more, i, slot) == SlotEnd(data, i, slot)
  {
    if slot == Text {
      assert (data + more)[i..] == data[i..] + more;
      CStringExtend(data[i..], more);
    }
  }

  /** UpdateVoiceClient: a byte, a word, the client count n, then n times a
      dword and a byte. */
  function VoiceUpdateEnd(data: Bytes, i: nat): (r: Option<nat>)
    requires i <= |data|
    ensures r.Some? ==> i + 4 <= r.value <= |data|
  {
    if i + 4 > |data| then None
    else SlotsEnd(data, i + 4, Repeat([Fixed(4), Fixed(1)], data[i + 3] as nat))
  }

  /** The voice update takes exactly 4 + 5n bytes. */
  lemma {:induction false} VoiceUpdateSize(data: Bytes, i: nat)
    requires i <= |data|
    ensures i + 4 <= |data| ==>
            var n := data[i + 3] as nat;
            VoiceUpdateEnd(data, i) == if i + 4 + 5 * n <= |data| then Some(i + 4 + 5 * n) else None
  {
    if i + 4 <= |data| {
      FixedRepeat(data, i + 4, data[i + 3] as nat);
    }
  }

  /** n records of a dword and a byte take 5n bytes. */
  lemma {:induction false} FixedRepeat(data: Bytes, i: nat, n: nat)
    requires i <= |data|
    ensures SlotsEnd(data, i, Repeat([Fixed(4), Fixed(1)], n)) == if i + 5 * n <= |data| then Some(i + 5 * n) else None
  {
    if n > 0 {
      SlotsConcat(data, i, Repeat([Fixed(4), Fixed(1)], n - 1), [Fixed(4), Fixed(1)]);
      FixedRepeat(data, i, n - 1);
    }
  }

  /** The gamedata messages processgamedata has a case for. */
  predicate KnownGamedata(id: bv8) {
    id in {GdChatAll, GdChatTeam, GdChatSquad, GdServerMessage, GdMessage, GdHitFeedback, GdMinimapDraw,
           GdMinimapPing, GdConstructionComplete, GdGoldmineLow, GdPermanentItems, GdVoiceCommand,
           GdExecScript, GdStartConstructBuilding, GdBuildingDestroyed, GdDeath, GdSendMessage}
  }

  /** The fixed layout of a known gamedata message other than HitFeedback
      and ExecScript, whose layouts depend on their contents. */
  function GamedataSlots(id: bv8): (r: seq<Slot>)
    ensures r != [] <==> KnownGamedata(id) && id != GdHitFeedback && id != GdExecScript
  {
    if id == GdChatAll || id == GdChatTeam || id == GdChatSquad then [Fixed(4), Text]
    else if id == GdServerMessage || id == GdMessage || id == GdSendMessage then [Text]
    else if id == GdMinimapDraw || id == GdMinimapPing then [Fixed(4), Fixed(4)]
    else if id == GdPermanentItems then Repeat([Fixed(2), Fixed(4)], 5)
    else if id == GdVoiceCommand then [Fixed(4), Text, Fixed(4), Fixed(1)]
    else if id == GdConstructionComplete || id == GdStartConstructBuilding then [Fixed(2)]
    else if id == GdGoldmineLow then [Fixed(4)]
    else if id == GdBuildingDestroyed then [Fixed(2), Fixed(1)]
    else if id == GdDeath then [Fixed(4), Fixed(4), Fixed(2)]
    else []
  }

  /** The read index after a known gamedata message whose body starts at
      i, or None when the data runs out. HitFeedback is a byte, then three
      singles when it is 13 and a word otherwise; ExecScript is a string,
      an argument count and that many key and value strings. */
  function GamedataEnd(id: bv8, data: Bytes, i: nat): (r: Option<nat>)
    requires i <= |data|
    ensures r.Some? ==> i <= r.value <= |data|
  {
    if id == GdHitFeedback then
      if i + 1 > |data| then None
      else SlotsEnd(data, i + 1, if data[i] == 13 then [Fixed(4), Fixed(4), Fixed(4)] else [Fixed(2)])
    else if id == GdExecScript then
      match SlotsEnd(data, i, [Text])
      case None => None
      case Some(j) =>
        if j + 2 > |data| then None
        else SlotsEnd(data, j + 2, Repeat([Text, Text], FromLE16(data[j..j + 2]) as nat))
    else SlotsEnd(data, i, GamedataSlots(id))
  }

  /** A chat line is its sender dword, its text and the terminator,
      whatever follows it. */
  lemma ChatLayout(id: bv8, sender: bv32, text: Bytes, rest: Bytes)
    requires id in {GdChatAll, GdChatTeam, GdChatSquad} && NoZero(text)
    ensures GamedataEnd(id, LE32(sender) + text + [0] + rest, 0) == Some(4 + |text| + 1)
  {
    var data := LE32(sender) + text + [0] + rest;
    assert GamedataSlots(id) == [Fixed(4), Text];
    assert data[4..] == text + [0] + rest;
    CStringOfTerminated(text, rest);
    assert SlotsEnd(data, 0, [Fixed(4), Text]) == SlotsEnd(data, 4, [Text]);
    assert SlotsEnd(data, 4, [Text]) == SlotsEnd(data, 4 + |text| + 1, []);
  }

  // ---------------------------------------------------------------------
  // Fragment reassembly

  /** The bytes gathered so far under key k (operator[] gives an empty
      buffer for a key not seen). */
  function FragOf<K>(m: map<K, Bytes>, k: K): Bytes {
    if k in m then m[k] else []
  }

  /** One fragment appended under key k. */
  function AppendFrag<K>(m: map<K, Bytes>, k: K, b: Bytes): (r: map<K, Bytes>)
    ensures r.Keys == m.Keys + {k}
  {
    m[k := FragOf(m, k) + b]
  }

  /** A run of fragments appended under k, first to last. */
  function AppendAll<K>(m: map<K, Bytes>, k: K, parts: seq<Bytes>): map<K, Bytes>
    decreases |parts|
  {
    if parts == [] then m else AppendAll(AppendFrag(m, k, parts[0]), k, parts[1..])
  }

  function Concat(parts: seq<Bytes>): Bytes
    decreases |parts|
  {
    if parts == [] then [] else parts[0] + Concat(parts[1..])
  }

  /** Fragments accumulate: after a run of them the buffer under k holds
      what it held followed by all of them in order, and every other key
      keeps its buffer. */
  lemma {:induction false} FragmentsAccumulate<K>(m: map<K, Bytes>, k: K, parts: seq<Bytes>)
    requires parts != []
    ensures AppendAll(m, k, parts) == m[k := FragOf(m, k) + Concat(parts)]
    decreases |parts|
  {
    if |parts| == 1 {
      assert Concat(parts) == parts[0] + Concat([]);
      assert parts[0] + [] == parts[0];
    } else {
      var m1 := AppendFrag(m, k, parts[0]);
      FragmentsAccumulate(m1, k, parts[1..]);
      assert FragOf(m1, k) + Concat(parts[1..]) == FragOf(m, k) + Concat(parts);
      assert m1[k := FragOf(m1, k) + Concat(parts[1..])] == m[k := FragOf(m, k) + Concat(parts)];
    }
  }
}
