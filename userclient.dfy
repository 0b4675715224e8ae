/*
 * The user client (userclient.cpp): the object a bot drives. It owns the
 * game state, the reliable-datagram layer and the client's own controls;
 * it dispatches every server command, keeps the server's state strings and
 * the fragments of state strings and snapshots, downloads the world, and
 * sends the client's commands and snapshots.
 */
module UserClient {
  import opened Common
  import opened Packet
  import opened NetClient
  import opened TypeRegistry
  import opened Game
  import opened StateStrings
  import opened ClientInput
  import opened Session
  import opened ClientWire

  /** What processcmd leaves behind: the command was handled (known says
      whether it has a case), or the client stopped on it, because a read
      ran out of data or the source ends the program (core::error, an
      uncaught exception, a debug break). */
  datatype CmdResult = Handled(known: bool) | Stopped(why: Failure)

  /** What update returns: the number of commands processed, or the
      failure that stopped the client. */
  datatype UpdateResult = Processed(count: nat) | Aborted(why: Failure)

  /** What connect leaves behind: whether the client got connected, or the
      failure that stopped it while waiting. */
  datatype ConnectResult = Attempted(connected: bool) | Interrupted(why: Failure)

  /** The collections of the user client. */
  datatype Held = Held(
    cvars: seq<(Bytes, Bytes)>,             // mCvars, in key order
    svState: map<int, VarSet>,              // mSvState
    stateFragments: map<int, Bytes>,        // mStateFragments
    snapshotFragments: map<bv32, Bytes>,    // mSnapshotFragments (the packets' bytes)
    worldName: Bytes,
    worldChecksum: Bytes,
    worldDownload: Bytes,
    worldDownloadLength: bv32,
    waypoints: seq<Vec3>)

  /** -1 as a uint32_t: no client number assigned. */
  const NoClientNumber: bv32 := 0xFFFF_FFFF

  /** mPacketSendFps: client snapshots per second. */
  const PacketSendFps: nat := 30

  /** update() sends a client snapshot for the status s: the client is in
      game, a frame has arrived and the last snapshot is at least
      1000 / mPacketSendFps milliseconds old. */
  predicate SnapshotDue(s: Session.Status, sinceSnapshot: nat) {
    s.ingame && sinceSnapshot >= 1000 / PacketSendFps && s.currentFrame != NoFrame
  }

  /** The cvars a new client sends, in the order of their declaration:
      cl_packetSendFPS = "30"
      net_FPS = "30"
      net_cookie = ""
      net_maxPacketSize = "65535"
      net_maxBPS = "20000"
      net_name = "noob123"
      net_sendCvars = "true" */
  const DefaultCvars: seq<(Bytes, Bytes)> := FromList([
    ([0x63, 0x6C, 0x5F, 0x70, 0x61, 0x63, 0x6B, 0x65, 0x74, 0x53, 0x65, 0x6E, 0x64, 0x46, 0x50, 0x53],
     [0x33, 0x30]),
    ([0x6E, 0x65, 0x74, 0x5F, 0x46, 0x50, 0x53],
     [0x33, 0x30]),
    ([0x6E, 0x65, 0x74, 0x5F, 0x63, 0x6F, 0x6F, 0x6B, 0x69, 0x65],
     []),
    ([0x6E, 0x65, 0x74, 0x5F, 0x6D, 0x61, 0x78, 0x50, 0x61, 0x63, 0x6B, 0x65, 0x74, 0x53, 0x69, 0x7A, 0x65],
     [0x36, 0x35, 0x35, 0x33, 0x35]),
    ([0x6E, 0x65, 0x74, 0x5F, 0x6D, 0x61, 0x78, 0x42, 0x50, 0x53],
     [0x32, 0x30, 0x30, 0x30, 0x30]),
    ([0x6E, 0x65, 0x74, 0x5F, 0x6E, 0x61, 0x6D, 0x65],
     [0x6E, 0x6F, 0x6F, 0x62, 0x31, 0x32, 0x33]),
    ([0x6E, 0x65, 0x74, 0x5F, 0x73, 0x65, 0x6E, 0x64, 0x43, 0x76, 0x61, 0x72, 0x73],
     [0x74, 0x72, 0x75, 0x65])])

  /** The state string keys StateStringsEnd looks up in set 1:
      svr_clientConnectedTimeout, svr_clientConnectingTimeout, svr_gameFPS. */
  const KeyConnectedTimeout: Bytes := [0x73, 0x76, 0x72, 0x5F, 0x63, 0x6C, 0x69, 0x65, 0x6E, 0x74, 0x43, 0x6F, 0x6E, 0x6E, 0x65, 0x63, 0x74, 0x65, 0x64, 0x54, 0x69, 0x6D, 0x65, 0x6F, 0x75, 0x74]
  const KeyConnectingTimeout: Bytes := [0x73, 0x76, 0x72, 0x5F, 0x63, 0x6C, 0x69, 0x65, 0x6E, 0x74, 0x43, 0x6F, 0x6E, 0x6E, 0x65, 0x63, 0x74, 0x69, 0x6E, 0x67, 0x54, 0x69, 0x6D, 0x65, 0x6F, 0x75, 0x74]
  const KeyGameFps: Bytes := [0x73, 0x76, 0x72, 0x5F, 0x67, 0x61, 0x6D, 0x65, 0x46, 0x50, 0x53]

  /** mSvState[id], an empty set for an id not seen. */
  function SetOf(sv: map<int, VarSet>, id: int): VarSet {
    if id in sv then sv[id] else map[]
  }

  /** varset[k] as operator[] reads it: a missing key is inserted with an
      empty value. */
  function Touch(vars: VarSet, k: Bytes): (r: VarSet)
    ensures k in r && r.Keys == vars.Keys + {k}
    ensures forall x :: x in vars ==> r[x] == vars[x]
    ensures k !in vars ==> r[k] == []
  {
    if k in vars then vars else vars[k := []]
  }

  /** Set 1 after StateStringsEnd has looked up its three keys. */
  function Touched(vars: VarSet): VarSet {
    Touch(Touch(Touch(vars, KeyConnectedTimeout), KeyConnectingTimeout), KeyGameFps)
  }

  /** The word and dword at index i. */
  function Word(d: Bytes, i: nat): nat
    requires i + 2 <= |d|
  {
    LENum(d[i..i + 2])
  }

  function Dword(d: Bytes, i: nat): bv32
    requires i + 4 <= |d|
  {
    FromLE32(d[i..i + 4])
  }

  /** The dword at index i as a length. */
  function Len32(d: Bytes, i: nat): (r: nat)
    requires i + 4 <= |d|
    ensures r < 0x1_0000_0000
  {
    LE32Num(d[i..i + 4]);
    LENum(d[i..i + 4])
  }

  /** The looked-up keys all end up in set 1, the values already there
      kept, and the server frame rate is read from svr_gameFPS. */
  lemma TouchedKeeps(vars: VarSet)
    ensures var t := Touched(vars);
            KeyConnectedTimeout in t && KeyConnectingTimeout in t && KeyGameFps in t &&
            t.Keys == vars.Keys + {KeyConnectedTimeout, KeyConnectingTimeout, KeyGameFps} &&
            (forall x :: x in vars ==> t[x] == vars[x]) &&
            (KeyGameFps !in vars ==> t[KeyGameFps] == [] && Stol(t[KeyGameFps]).None?)
  {
    var t := Touched(vars);
    if KeyGameFps !in vars {
      StolRejects([]);
    }
  }

  // ---------------------------------------------------------------------
  // Read loops over messages the client only reads past

  /** Reads slots in order; ok says whether all of them could be read. */
  method SkipSlots(pkt: Packet, slots: seq<Slot>) returns (ok: bool)
    requires pkt.readIdx <= |pkt.data|
    modifies pkt
    ensures pkt.data == old(pkt.data) && old(pkt.readIdx) <= pkt.readIdx <= |pkt.data|
    ensures ok <==> SlotsEnd(pkt.data, old(pkt.readIdx), slots).Some?
    ensures ok ==> pkt.readIdx == SlotsEnd(pkt.data, old(pkt.readIdx), slots).value
  {
    var k := 0;
    while k < |slots|
      invariant k <= |slots| && pkt.data == old(pkt.data)
      invariant old(pkt.readIdx) <= pkt.readIdx <= |pkt.data|
      invariant SlotsEnd(pkt.data, old(pkt.readIdx), slots) == SlotsEnd(pkt.data, pkt.readIdx, slots[k..])
    {
      assert slots[k..][0] == slots[k] && slots[k..][1..] == slots[k + 1..];
      var more := SkipSlot(pkt, slots[k]);
      if !more {
        return false;
      }
      k := k + 1;
    }
    ok := true;
  }

  /** Reads one slot; ok says whether it could be read. */
  method SkipSlot(pkt: Packet, slot: Slot) returns (ok: bool)
    requires pkt.readIdx <= |pkt.data|
    modifies pkt
    ensures pkt.data == old(pkt.data) && old(pkt.readIdx) <= pkt.readIdx <= |pkt.data|
    ensures ok <==> SlotEnd(pkt.data, old(pkt.readIdx), slot).Some?
    ensures ok ==> pkt.readIdx == SlotEnd(pkt.data, old(pkt.readIdx), slot).value
  {
    match slot {
      case Fixed(w) =>
        var b := pkt.ReadN(w);
        ok := b.Some?;
      case Text =>
        assert pkt.Rest() == pkt.data[pkt.readIdx..];
        var s := pkt.ReadString();
        ok := s.Some?;
    }
  }

  /** Reads slots n times over, as the source's counted loops do. */
  method SkipRepeat(pkt: Packet, slots: seq<Slot>, n: nat) returns (ok: bool)
    requires pkt.readIdx <= |pkt.data|
    modifies pkt
    ensures pkt.data == old(pkt.data) && old(pkt.readIdx) <= pkt.readIdx <= |pkt.data|
    ensures ok <==> SlotsEnd(pkt.data, old(pkt.readIdx), Repeat(slots, n)).Some?
    ensures ok ==> pkt.readIdx == SlotsEnd(pkt.data, old(pkt.readIdx), Repeat(slots, n)).value
  {
    ghost var i0 := pkt.readIdx;
    var k := 0;
    while k < n
      invariant k <= n && pkt.data == old(pkt.data)
      invariant i0 <= pkt.readIdx <= |pkt.data|
      invariant SlotsEnd(pkt.data, i0, Repeat(slots, k)) == Some(pkt.readIdx)
    {
      RepeatStep(pkt.data, i0, slots, k);
      var more := SkipSlots(pkt, slots);
      if !more {
        RepeatStops(pkt.data, i0, slots, k, n);
        return false;
      }
      k := k + 1;
    }
    ok := true;
  }

  /** The world name and checksum LoadWorld carries at index i, as two
      strings, or None when the data runs out. */
  function WorldStrings(d: Bytes, i: nat): Option<(Bytes, Bytes)>
    requires i <= |d|
  {
    match CString(d[i..])
    case None => None
    case Some(n) =>
      match CString(d[i + |n| + 1..])
      case None => None
      case Some(c) => Some((n, c))
  }

  /** A name and a checksum written as strings read back as themselves. */
  lemma WorldStringsRoundTrip(n: Bytes, c: Bytes, rest: Bytes)
    requires NoZero(n) && NoZero(c)
    ensures WorldStrings(CStr(n) + CStr(c) + rest, 0) == Some((n, c))
  {
    var d := CStr(n) + CStr(c) + rest;
    assert d == n + [0] + (CStr(c) + rest);
    CStringOfTerminated(n, CStr(c) + rest);
    assert d[|n| + 1..] == c + [0] + rest;
    CStringOfTerminated(c, rest);
  }

  /** The read index after a voice message whose body starts at i:
      NewVoiceClient is a dword and a byte, UpdateVoiceClient its counted
      list, RemoveVoiceClient one byte. */
  function VoiceEnd(cmd: bv8, d: Bytes, i: nat): (r: Option<nat>)
    requires i <= |d|
    ensures r.Some? ==> i <= r.value <= |d|
  {
    if cmd == SvNewVoiceClient then SlotsEnd(d, i, [Fixed(4), Fixed(1)])
    else if cmd == SvUpdateVoiceClient then VoiceUpdateEnd(d, i)
    else SlotsEnd(d, i, [Fixed(1)])
  }

  /** The voice commands: read and dropped. */
  method VoiceCmd(cmd: bv8, pkt: Packet) returns (r: CmdResult)
    requires SvNewVoiceClient <= cmd <= SvRemoveVoiceClient && pkt.readIdx <= |pkt.data|
    modifies pkt
    ensures pkt.data == old(pkt.data) && old(pkt.readIdx) <= pkt.readIdx <= |pkt.data|
    ensures var e := VoiceEnd(cmd, pkt.data, old(pkt.readIdx));
            r == (if e.Some? then Handled(true) else Stopped(OutOfData)) &&
            (e.Some? ==> pkt.readIdx == e.value)
  {
    var ok;
    if cmd == SvNewVoiceClient {
      ok := SkipSlots(pkt, [Fixed(4), Fixed(1)]);
    } else if cmd == SvUpdateVoiceClient {
      ghost var i := pkt.readIdx;
      var x := pkt.ReadByte();
      var y := pkt.ReadWord();
      var n := pkt.ReadByte();
      if x.None? || y.None? || n.None? {
        return Stopped(OutOfData);
      }
      ok := SkipRepeat(pkt, [Fixed(4), Fixed(1)], n.value as nat);
    } else {
      ok := SkipSlots(pkt, [Fixed(1)]);
    }
    r := if ok then Handled(true) else Stopped(OutOfData);
  }

  // ---------------------------------------------------------------------
  // The fields of the server commands, as processcmd reads them from
  // index i; None when the data runs out first

  /** StateUpdate: the state id word, a length dword, that many bytes. */
  function StateUpdateAt(d: Bytes, i: nat): (r: Option<(int, Bytes)>)
    ensures r.Some? ==> i + 6 + |r.value.1| <= |d|
  {
    if i + 6 > |d| then None
    else
      var len := Len32(d, i + 2);
      if i + 6 + len > |d| then None else Some((Word(d, i), d[i + 6..i + 6 + len]))
  }

  /** CompressedStateUpdate: the state id word, a length dword, the
      capacity dword, then the compressed bytes. */
  function CompressedUpdateAt(d: Bytes, i: nat): (r: Option<(int, Bytes, nat)>)
    ensures r.Some? ==> i + 10 + |r.value.1| <= |d|
  {
    if i + 10 > |d| then None
    else
      var len := Len32(d, i + 2);
      if i + 10 + len > |d| then None
      else Some((Word(d, i), d[i + 10..i + 10 + len], Len32(d, i + 6)))
  }

  /** StateFragment and StateTerminate: the state id word, a length word,
      that many bytes. */
  function FragmentAt(d: Bytes, i: nat): (r: Option<(int, Bytes)>)
    ensures r.Some? ==> i + 4 + |r.value.1| <= |d|
  {
    if i + 4 > |d| then None
    else
      var len := Word(d, i + 2);
      if i + 4 + len > |d| then None else Some((Word(d, i), d[i + 4..i + 4 + len]))
  }

  /** CompressedStateTerminate: the state id word, a length word, the
      capacity dword, then the last compressed bytes. */
  function CompressedTerminateAt(d: Bytes, i: nat): (r: Option<(int, Bytes, nat)>)
    ensures r.Some? ==> i + 8 + |r.value.1| <= |d|
  {
    if i + 8 > |d| then None
    else
      var len := Word(d, i + 2);
      if i + 8 + len > |d| then None
      else Some((Word(d, i), d[i + 8..i + 8 + len], Len32(d, i + 4)))
  }

  /** DownloadWorld: a length word and that many bytes. */
  function ChunkAt(d: Bytes, i: nat): (r: Option<Bytes>)
    ensures r.Some? ==> i + 2 + |r.value| <= |d|
  {
    if i + 2 > |d| then None
    else
      var len := Word(d, i);
      if i + 2 + len > |d| then None else Some(d[i + 2..i + 2 + len])
  }

  /** Snapshot: a length dword and that many bytes. */
  function SizedAt(d: Bytes, i: nat): (r: Option<Bytes>)
    ensures r.Some? ==> i + 4 + |r.value| <= |d|
  {
    if i + 4 > |d| then None
    else
      var len := Len32(d, i);
      if i + 4 + len > |d| then None else Some(d[i + 4..i + 4 + len])
  }

  /** CompressedSnapshot: a length dword, the capacity dword, then the
      compressed bytes. */
  function CompressedSnapshotAt(d: Bytes, i: nat): (r: Option<(Bytes, nat)>)
    ensures r.Some? ==> i + 8 + |r.value.0| <= |d|
  {
    if i + 8 > |d| then None
    else
      var len := Len32(d, i);
      if i + 8 + len > |d| then None else Some((d[i + 8..i + 8 + len], Len32(d, i + 4)))
  }

  // ---------------------------------------------------------------------
  // Reading those fields from a packet

  /** readword() as a number. */
  method ReadWordValue(pkt: Packet) returns (r: Option<nat>)
    modifies pkt
    ensures pkt.data == old(pkt.data)
    ensures r == if old(pkt.readIdx) + 2 <= |pkt.data| then Some(Word(pkt.data, old(pkt.readIdx))) else None
    ensures pkt.readIdx == if r.Some? then old(pkt.readIdx) + 2 else old(pkt.readIdx)
  {
    var w := pkt.ReadWord();
    if w.Some? {
      LE16Num(pkt.data[old(pkt.readIdx)..old(pkt.readIdx) + 2]);
    }
    r := if w.Some? then Some(w.value as nat) else None;
  }

  /** readdword() as a number. */
  method ReadDwordValue(pkt: Packet) returns (r: Option<nat>)
    modifies pkt
    ensures pkt.data == old(pkt.data)
    ensures r == if old(pkt.readIdx) + 4 <= |pkt.data| then Some(Len32(pkt.data, old(pkt.readIdx))) else None
    ensures pkt.readIdx == if r.Some? then old(pkt.readIdx) + 4 else old(pkt.readIdx)
  {
    var w := pkt.ReadDword();
    if w.Some? {
      LE32Num(pkt.data[old(pkt.readIdx)..old(pkt.readIdx) + 4]);
    }
    r := if w.Some? then Some(w.value as nat) else None;
  }

  /** The reads of StateUpdate. */
  method ReadStateUpdate(pkt: Packet) returns (r: Option<(int, Bytes)>)
    requires pkt.readIdx <= |pkt.data|
    modifies pkt
    ensures pkt.data == old(pkt.data) && old(pkt.readIdx) <= pkt.readIdx <= |pkt.data|
    ensures r == StateUpdateAt(pkt.data, old(pkt.readIdx))
    ensures r.Some? ==> pkt.readIdx == old(pkt.readIdx) + 6 + |r.value.1|
  {
    var id := ReadWordValue(pkt);
    if id.None? {
      return None;
    }
    var len := ReadDwordValue(pkt);
    if len.None? {
      return None;
    }
    var s := pkt.ReadN(len.value);
    if s.None? {
      return None;
    }
    r := Some((id.value, s.value));
  }

  /** The reads of CompressedStateUpdate. */
  method ReadCompressedUpdate(pkt: Packet) returns (r: Option<(int, Bytes, nat)>)
    requires pkt.readIdx <= |pkt.data|
    modifies pkt
    ensures pkt.data == old(pkt.data) && old(pkt.readIdx) <= pkt.readIdx <= |pkt.data|
    ensures r == CompressedUpdateAt(pkt.data, old(pkt.readIdx))
    ensures r.Some? ==> pkt.readIdx == old(pkt.readIdx) + 10 + |r.value.1|
  {
    var id := ReadWordValue(pkt);
    if id.None? {
      return None;
    }
    var len := ReadDwordValue(pkt);
    if len.None? {
      return None;
    }
    var cap := ReadDwordValue(pkt);
    if cap.None? {
      return None;
    }
    var s := pkt.ReadN(len.value);
    if s.None? {
      return None;
    }
    r := Some((id.value, s.value, cap.value));
  }

  /** The reads of StateFragment and StateTerminate. */
  method ReadFragment(pkt: Packet) returns (r: Option<(int, Bytes)>)
    requires pkt.readIdx <= |pkt.data|
    modifies pkt
    ensures pkt.data == old(pkt.data) && old(pkt.readIdx) <= pkt.readIdx <= |pkt.data|
    ensures r == FragmentAt(pkt.data, old(pkt.readIdx))
    ensures r.Some? ==> pkt.readIdx == old(pkt.readIdx) + 4 + |r.value.1|
  {
    var id := ReadWordValue(pkt);
    if id.None? {
      return None;
    }
    var len := ReadWordValue(pkt);
    if len.None? {
      return None;
    }
    var s := pkt.ReadN(len.value);
    if s.None? {
      return None;
    }
    r := Some((id.value, s.value));
  }

  /** The reads of CompressedStateTerminate. */
  method ReadCompressedTerminate(pkt: Packet) returns (r: Option<(int, Bytes, nat)>)
    requires pkt.readIdx <= |pkt.data|
    modifies pkt
    ensures pkt.data == old(pkt.data) && old(pkt.readIdx) <= pkt.readIdx <= |pkt.data|
    ensures r == CompressedTerminateAt(pkt.data, old(pkt.readIdx))
    ensures r.Some? ==> pkt.readIdx == old(pkt.readIdx) + 8 + |r.value.1|
  {
    var id := ReadWordValue(pkt);
    if id.None? {
      return None;
    }
    var len := ReadWordValue(pkt);
    if len.None? {
      return None;
    }
    var cap := ReadDwordValue(pkt);
    if cap.None? {
      return None;
    }
    var s := pkt.ReadN(len.value);
    if s.None? {
      return None;
    }
    r := Some((id.value, s.value, cap.value));
  }

  /** The reads of DownloadWorld. */
  method ReadChunk(pkt: Packet) returns (r: Option<Bytes>)
    requires pkt.readIdx <= |pkt.data|
    modifies pkt
    ensures pkt.data == old(pkt.data) && old(pkt.readIdx) <= pkt.readIdx <= |pkt.data|
    ensures r == ChunkAt(pkt.data, old(pkt.readIdx))
    ensures r.Some? ==> pkt.readIdx == old(pkt.readIdx) + 2 + |r.value|
  {
    var len := ReadWordValue(pkt);
    if len.None? {
      return None;
    }
    r := pkt.ReadN(len.value);
  }

  /** The reads of Snapshot. */
  method ReadSized(pkt: Packet) returns (r: Option<Bytes>)
    requires pkt.readIdx <= |pkt.data|
    modifies pkt
    ensures pkt.data == old(pkt.data) && old(pkt.readIdx) <= pkt.readIdx <= |pkt.data|
    ensures r == SizedAt(pkt.data, old(pkt.readIdx))
    ensures r.Some? ==> pkt.readIdx == old(pkt.readIdx) + 4 + |r.value|
  {
    var len := ReadDwordValue(pkt);
    if len.None? {
      return None;
    }
    r := pkt.ReadN(len.value);
  }

  /** The reads of CompressedSnapshot. */
  method ReadCompressedSnapshot(pkt: Packet) returns (r: Option<(Bytes, nat)>)
    requires pkt.readIdx <= |pkt.data|
    modifies pkt
    ensures pkt.data == old(pkt.data) && old(pkt.readIdx) <= pkt.readIdx <= |pkt.data|
    ensures r == CompressedSnapshotAt(pkt.data, old(pkt.readIdx))
    ensures r.Some? ==> pkt.readIdx == old(pkt.readIdx) + 8 + |r.value.0|
  {
    var len := ReadDwordValue(pkt);
    if len.None? {
      return None;
    }
    var cap := ReadDwordValue(pkt);
    if cap.None? {
      return None;
    }
    var s := pkt.ReadN(len.value);
    if s.None? {
      return None;
    }
    r := Some((s.value, cap.value));
  }

  /** Five pieces appended one after the other are the first followed by
      the rest nested to the right. */
  lemma NestRight(a: Bytes, b: Bytes, c: Bytes, d: Bytes, e: Bytes)
    ensures a + b + c + d + e == a + (b + (c + (d + e)))
  {
  }

  /** The Connect body, written field by field. */
  method BuildConnect(password: Bytes, clientId: bv32, accountId: bv32) returns (payload: Bytes)
    ensures payload == ConnectPayload(password, clientId, accountId)
  {
    var pkt := new Packet();
    WriteConnectHead(pkt, password);
    WriteConnectIds(pkt, clientId, accountId);
    NestRight([] + CStr(ConnectMagic), CStr(ClientVersion), [ProtocolVersion], CStr(password), ConnectIds(clientId, accountId));
    assert [] + CStr(ConnectMagic) == CStr(ConnectMagic);
    payload := pkt.data;
  }

  method WriteConnectHead(pkt: Packet, password: Bytes)
    modifies pkt
    ensures pkt.data == old(pkt.data) + CStr(ConnectMagic) + CStr(ClientVersion) + [ProtocolVersion] + CStr(password)
  {
    pkt.WriteString(ConnectMagic);
    pkt.WriteString(ClientVersion);
    pkt.WriteByte(ProtocolVersion);
    pkt.WriteString(password);
  }

  method WriteConnectIds(pkt: Packet, clientId: bv32, accountId: bv32)
    modifies pkt
    ensures pkt.data == old(pkt.data) + ConnectIds(clientId, accountId)
  {
    pkt.WriteWord((clientId & 0xFFFF) as bv16);
    pkt.WriteDword(accountId);
    pkt.WriteString([]);
  }

  /** A SnapshotFragment at index i: the frame number, then a byte, then
      the rest of the packet as the fragment. */
  function SnapshotFragmentAt(d: Bytes, i: nat): (r: Option<(bv32, Bytes)>)
    requires i <= |d|
    ensures r.Some? ==> i + 5 <= |d| && |r.value.1| == |d| - i - 5
  {
    if i + 5 <= |d| then Some((Dword(d, i), d[i + 5..])) else None
  }

  /** A SnapshotTerminate at index i: the frame number, a byte, a word
      length and that many bytes. */
  function SnapshotTerminateAt(d: Bytes, i: nat): (r: Option<(bv32, Bytes)>)
    requires i <= |d|
    ensures r.Some? ==> i + 7 + |r.value.1| <= |d|
  {
    if i + 7 > |d| then None
    else
      var n := Word(d, i + 5);
      if i + 7 + n <= |d| then Some((Dword(d, i), d[i + 7..i + 7 + n])) else None
  }

  method ReadWorldStrings(pkt: Packet) returns (r: Option<(Bytes, Bytes)>)
    requires pkt.readIdx <= |pkt.data|
    modifies pkt
    ensures pkt.data == old(pkt.data) && old(pkt.readIdx) <= pkt.readIdx <= |pkt.data|
    ensures r == WorldStrings(pkt.data, old(pkt.readIdx))
    ensures r.Some? ==> pkt.readIdx == old(pkt.readIdx) + |r.value.0| + |r.value.1| + 2
  {
    ghost var i := pkt.readIdx;
    assert pkt.Rest() == pkt.data[i..];
    var name := pkt.ReadString();
    if name.None? {
      return None;
    }
    assert pkt.Rest() == pkt.data[i + |name.value| + 1..];
    var sum := pkt.ReadString();
    if sum.None? {
      return None;
    }
    r := Some((name.value, sum.value));
  }

  method ReadSnapshotFragment(pkt: Packet) returns (r: Option<(bv32, Bytes)>)
    requires pkt.readIdx <= |pkt.data|
    modifies pkt
    ensures pkt.data == old(pkt.data) && old(pkt.readIdx) <= pkt.readIdx <= |pkt.data|
    ensures r == SnapshotFragmentAt(pkt.data, old(pkt.readIdx))
    ensures r.Some? ==> pkt.readIdx == old(pkt.readIdx) + 5
  {
    var frame := pkt.ReadDword();
    if frame.None? {
      return None;
    }
    var id := pkt.ReadByte();
    if id.None? {
      return None;
    }
    r := Some((frame.value, pkt.data[pkt.readIdx..]));
  }

  method ReadSnapshotTerminate(pkt: Packet) returns (r: Option<(bv32, Bytes)>)
    requires pkt.readIdx <= |pkt.data|
    modifies pkt
    ensures pkt.data == old(pkt.data) && old(pkt.readIdx) <= pkt.readIdx <= |pkt.data|
    ensures r == SnapshotTerminateAt(pkt.data, old(pkt.readIdx))
    ensures r.Some? ==> pkt.readIdx == old(pkt.readIdx) + 7 + |r.value.1|
  {
    var frame := pkt.ReadDword();
    if frame.None? {
      return None;
    }
    var id := pkt.ReadByte();
    if id.None? {
      return None;
    }
    var n := ReadWordValue(pkt);
    if n.None? {
      return None;
    }
    var b: Bytes := [];
    if n.value > 0 {
      var bytes := pkt.ReadN(n.value);
      if bytes.None? {
        return None;
      }
      b := bytes.value;
    }
    r := Some((frame.value, b));
  }

  /** What processgamedata does with message id whose body starts at i:
      the read index after it (None when the data runs out) and the entity
      it marks killed, if any. An unknown id skips the rest of the packet. */
  datatype GamedataStep = GamedataStep(end: Option<nat>, killed: Option<int>)

  function GamedataAt(id: bv8, d: Bytes, i: nat): (r: GamedataStep)
    requires i <= |d|
    ensures r.end.Some? ==> i <= r.end.value <= |d|
    ensures r.killed.Some? ==> id == GdDeath && r.end.Some?
  {
    if !KnownGamedata(id) then GamedataStep(Some(|d|), None)
    else if id == GdDeath then
      if i + 10 <= |d| then GamedataStep(Some(i + 10), Some(Int32(Dword(d, i + 4)))) else GamedataStep(None, None)
    else GamedataStep(GamedataEnd(id, d, i), None)
  }

  /** A Death message is two dwords and a word. */
  lemma DeathLayout(d: Bytes, i: nat)
    requires i <= |d|
    ensures GamedataEnd(GdDeath, d, i) == if i + 10 <= |d| then Some(i + 10) else None
  {
    assert GamedataSlots(GdDeath) == [Fixed(4), Fixed(4), Fixed(2)];
    if i + 10 <= |d| {
      assert SlotsEnd(d, i + 8, [Fixed(2)]) == SlotsEnd(d, i + 10, []);
      assert SlotsEnd(d, i + 4, [Fixed(4), Fixed(2)]) == SlotsEnd(d, i + 8, [Fixed(2)]);
    } else if i + 8 <= |d| {
      assert SlotsEnd(d, i + 8, [Fixed(2)]) == None;
      assert SlotsEnd(d, i + 4, [Fixed(4), Fixed(2)]) == SlotsEnd(d, i + 8, [Fixed(2)]);
    } else if i + 4 <= |d| {
      assert SlotsEnd(d, i + 4, [Fixed(4), Fixed(2)]) == None;
    }
  }

  /** A known message ends where its layout says; only Death kills, the
      victim being its second dword. */
  lemma GamedataAtKnown(id: bv8, d: Bytes, i: nat)
    requires i <= |d| && KnownGamedata(id)
    ensures GamedataAt(id, d, i).end == GamedataEnd(id, d, i)
    ensures GamedataAt(id, d, i).killed.Some? <==> id == GdDeath && i + 10 <= |d|
  {
    if id == GdDeath {
      DeathLayout(d, i);
    }
  }

  /** Reads past a known gamedata message; ok says whether it could be
      read whole. */
  method SkipGamedata(id: bv8, pkt: Packet) returns (ok: bool)
    requires pkt.readIdx <= |pkt.data|
    modifies pkt
    ensures pkt.data == old(pkt.data) && old(pkt.readIdx) <= pkt.readIdx <= |pkt.data|
    ensures var e := GamedataEnd(id, pkt.data, old(pkt.readIdx));
            ok == e.Some? && (ok ==> pkt.readIdx == e.value)
  {
    if id == GdHitFeedback {
      ok := SkipHitFeedback(pkt);
    } else if id == GdExecScript {
      ok := SkipExecScript(pkt);
    } else {
      ok := SkipSlots(pkt, GamedataSlots(id));
    }
  }

  /** HitFeedback: a kind byte, then three dwords for kind 13 and one word
      otherwise. */
  method SkipHitFeedback(pkt: Packet) returns (ok: bool)
    requires pkt.readIdx <= |pkt.data|
    modifies pkt
    ensures pkt.data == old(pkt.data) && old(pkt.readIdx) <= pkt.readIdx <= |pkt.data|
    ensures var e := GamedataEnd(GdHitFeedback, pkt.data, old(pkt.readIdx));
            ok == e.Some? && (ok ==> pkt.readIdx == e.value)
  {
    var b := pkt.ReadByte();
    if b.None? {
      return false;
    }
    ok := SkipSlots(pkt, if b.value == 13 then [Fixed(4), Fixed(4), Fixed(4)] else [Fixed(2)]);
  }

  /** ExecScript: the script name, then a word count of name and value
      string pairs. */
  method SkipExecScript(pkt: Packet) returns (ok: bool)
    requires pkt.readIdx <= |pkt.data|
    modifies pkt
    ensures pkt.data == old(pkt.data) && old(pkt.readIdx) <= pkt.readIdx <= |pkt.data|
    ensures var e := GamedataEnd(GdExecScript, pkt.data, old(pkt.readIdx));
            ok == e.Some? && (ok ==> pkt.readIdx == e.value)
  {
    ok := SkipSlots(pkt, [Text]);
    if !ok {
      return;
    }
    var n := pkt.ReadWord();
    if n.None? {
      return false;
    }
    ok := SkipRepeat(pkt, [Text, Text], n.value as nat);
  }

  /** The state sets after a compressed terminate: the inflated bytes, when
      inflating succeeded, update the set of their id; otherwise nothing
      changes. */
  function InflatedState(sv: map<int, VarSet>, id: int, out: Option<Bytes>): (r: map<int, VarSet>)
    ensures out.None? ==> r == sv
    ensures out.Some? ==> r.Keys == sv.Keys + {id} && r[id] == Apply(SetOf(sv, id), out.value)
    ensures forall k :: k in sv && k != id ==> k in r && r[k] == sv[k]
  {
    if out.Some? then sv[id := Apply(SetOf(sv, id), out.value)] else sv
  }

  method ApplyInflated(sv: map<int, VarSet>, id: int, out: Option<Bytes>) returns (r: map<int, VarSet>)
    ensures r == InflatedState(sv, id, out)
  {
    r := sv;
    if out.Some? {
      var vars, _ := UpdateStateStrings(SetOf(sv, id), out.value);
      r := sv[id := vars];
    }
  }

  /** What a command whose fields are p leaves as its result when p was
      read. */
  function ReadOk<T>(p: Option<T>): CmdResult {
    if p.Some? then Handled(true) else Stopped(OutOfData)
  }

  /** pkt.advance(pkt.remaining()): the read index moves to the end. */
  method SkipToEnd(pkt: Packet)
    requires pkt.readIdx <= |pkt.data| < SizeMod
    modifies pkt
    ensures pkt.data == old(pkt.data) && pkt.readIdx == |pkt.data|
  {
    pkt.Advance(pkt.Remaining());
  }

  // ---------------------------------------------------------------------
  // Building the client's payloads

  /** The Vars body as sendcvars writes it into a packet. */
  method BuildCvars(cvars: seq<(Bytes, Bytes)>) returns (payload: Bytes)
    ensures payload == CvarsPayload(cvars)
  {
    var body := EncodeCvars(cvars);
    var n := |body| % 0x1_0000_0000;
    payload := WriteCounted(n as bv32, body[..n]);
  }

  /** A dword, the bytes it counts and the 0xC2 end marker, written into a
      new packet. */
  method WriteCounted(len: bv32, bytes: Bytes) returns (payload: Bytes)
    ensures payload == LE32(len) + bytes + [0xC2]
  {
    var pkt := new Packet();
    pkt.WriteDword(len);
    pkt.Write(bytes);
    pkt.WriteByte(0xC2);
    payload := pkt.data;
  }

  /** Appending four pieces one by one appends their concatenation. */
  lemma AppendFour(h: Bytes, a: Bytes, b: Bytes, c: Bytes, d: Bytes)
    ensures h + a + b + c + d == h + (a + b + c + d)
  {
  }

  /** The client snapshot body as sendclientsnapshot writes it. */
  method BuildSnapshot(frame: bv32, svrtime: bv32, weapon: bv8, input: bv16, pitch: bv32, yaw: bv32) returns (payload: Bytes)
    ensures payload == SnapshotPayload(frame, svrtime, weapon, input, pitch, yaw)
  {
    var pkt := new Packet();
    pkt.WriteDword(frame);
    assert pkt.data == LE32(frame);
    pkt.WriteDword(svrtime);
    pkt.WriteByte(weapon);
    pkt.WriteWord(input);
    ghost var head := pkt.data;
    assert head == SnapshotHead(frame, svrtime, weapon, input);
    pkt.WriteWord(0);
    pkt.WriteByte(5);
    pkt.WriteSingle(pitch);
    pkt.WriteSingle(yaw);
    AppendFour(head, LE16(0), [5], LE32(pitch), LE32(yaw));
    payload := pkt.data;
  }

  // ---------------------------------------------------------------------
  // processserversnapshot: the status update

  /** The first snapshot after joining puts the client in game as a
      spectator; every snapshot is counted; a received header sets the
      current frame. */
  function SnapshotStatus(s: Status, o: SnapshotOutcome): (r: Status)
    ensures r.recvdSnapshots == s.recvdSnapshots + 1
    ensures r.currentFrame == if o.Received? then o.hdr.frameId else s.currentFrame
  {
    var first := s.state == WaitingFirstFrame;
    s.(ingame := first || s.ingame, state := if first then Spectating else s.state,
       recvdSnapshots := s.recvdSnapshots + 1,
       currentFrame := if o.Received? then o.hdr.frameId else s.currentFrame)
  }

  /** A received snapshot is handled; a broken one stops the client. */
  function SnapshotReply(o: SnapshotOutcome): CmdResult {
    if o.Received? then Handled(true) else Stopped(o.why)
  }

  /** The snapshot's status update keeps the session facts, and leaves
      the client in game exactly when it was in game or waiting for its
      first frame. */
  lemma SnapshotStatusOk(s: Status, o: SnapshotOutcome)
    ensures SessionOk(s) ==> SessionOk(SnapshotStatus(s, o))
    ensures SnapshotStatus(s, o).ingame <==> s.ingame || s.state == WaitingFirstFrame
    ensures SnapshotStatus(s, o).state == if s.state == WaitingFirstFrame then Spectating else s.state
  {
  }

  // ---------------------------------------------------------------------
  // class userclient

  class UserClient {
    /** mGame */
    const game: Game
    /** mNet (made by connect in the source; here from the start) */
    const net: Client
    /** mClientState */
    const input: ClientState
    /** mAccountId */
    const accountId: bv32
    /** The scalar members: mState, mConnected, mIngame, mLocalClientNumber,
        m_yStateStringSequence, mCurrentFrame, mLastThinkFrame, the two
        snapshot counters and mServerFps. */
    var status: Session.Status
    /** The collections: mCvars, mSvState, the fragment maps, the world
        name, checksum and download, and mWaypoints. */
    var held: Held

    /** The parts are each well formed: consistent game tables, an ordered
        receive queue, the cvars in key order. */
    ghost predicate Owned()
      reads this, game, net
    {
      game.Valid() && net.Valid() && Sorted(held.cvars)
    }

    ghost predicate Valid()
      reads this, game, net
    {
      Owned() && SessionOk(status)
    }

    /** What resetworld does to the collections, the game and the controls. */
    twostate predicate WorldCleared()
      reads this, game, input
    {
      held == old(held).(svState := map[], stateFragments := map[], snapshotFragments := map[], waypoints := []) &&
      game.State() == EmptyTables && game.world == old(game.world) &&
      game.localClientNumber == old(game.localClientNumber) &&
      input.input == 0 && input.weaponIdx == old(input.weaponIdx) &&
      input.yaw == old(input.yaw) && input.pitch == old(input.pitch)
    }

    /** What reset does. */
    twostate predicate WasReset()
      reads this, game, input
    {
      status == old(status).(state := Disconnected, connected := false, ingame := false,
        localClientNumber := NoClientNumber, stateSeq := 0, currentFrame := NoFrame, serverFps := 20) &&
      WorldCleared()
    }

    /** What every command handler keeps: the packet's bytes, a read index
        that only moves forward, a send log that only grows under the same
        client id, and, when the command was handled, a valid client. */
    twostate predicate CmdOk(pkt: Packet, r: CmdResult)
      reads this, game, net, pkt
    {
      pkt.data == old(pkt.data) && old(pkt.readIdx) <= pkt.readIdx <= |pkt.data| &&
      old(net.sent) <= net.sent && net.clientId == old(net.clientId) &&
      (r.Handled? ==> Valid())
    }

    /** What DenyConnect leaves: fatal when nothing remains, otherwise a
        reset client that has skipped the rest of the packet. */
    twostate predicate DeniedOk(pkt: Packet, r: CmdResult)
      reads this, game, net, input, pkt
    {
      r == (if old(pkt.readIdx) == |pkt.data| then Stopped(Fatal) else Handled(true)) &&
      (r.Handled? ==> WasReset() && pkt.readIdx == |pkt.data|)
    }

    /** userclient(accountid): a reset client with the default cvars. */
    constructor (schema: Schema, accountId: bv32, clientId: bv32, datagrams: seq<Bytes>)
      requires forall i :: 0 <= i < |datagrams| ==> |datagrams[i]| < SizeMod
      ensures Valid() && this.accountId == accountId
      ensures status == Session.Status(Disconnected, false, false, NoClientNumber, 0, NoFrame, NoFrame, 0, 0, 20)
      ensures held == Held(DefaultCvars, map[], map[], map[], [], [], [], 0, [])
      ensures game.schema == schema && game.State() == EmptyTables && game.world == None && game.localClientNumber == -1
      ensures net.clientId == clientId && net.seqNo == 1 && net.sent == [] && net.inbox == datagrams
      ensures input.input == 0 && input.weaponIdx == 0 && input.yaw == 0 && input.pitch == 0
      ensures fresh(game) && fresh(net) && fresh(input)
    {
      game := new Game(schema);
      net := new Client(clientId, datagrams);
      input := new ClientState();
      this.accountId := accountId;
      status := Session.Status(Disconnected, false, false, NoClientNumber, 0, NoFrame, NoFrame, 0, 0, 20);
      held := Held(DefaultCvars, map[], map[], map[], [], [], [], 0, []);
      new;
      Reset();
    }

    // -------------------------------------------------------------------
    // reset, resetworld, resetlocalent

    method Reset()
      requires Valid()
      modifies this, game, input
      ensures Valid() && WasReset()
    {
      status := status.(serverFps := 20, state := Disconnected, connected := false,
        localClientNumber := NoClientNumber, stateSeq := 0);
      ResetWorld();
    }

    method ResetWorld()
      requires Owned() && SessionOk(status.(ingame := false))
      modifies this, game, input
      ensures Valid() && WorldCleared()
      ensures status == old(status).(ingame := false, currentFrame := NoFrame)
    {
      game.ResetWorld();
      status := status.(ingame := false, currentFrame := NoFrame);
      held := held.(svState := map[], stateFragments := map[], snapshotFragments := map[]);
      ResetLocalEnt();
    }

    method ResetLocalEnt()
      modifies this, input
      ensures status == old(status) && held == old(held).(waypoints := [])
      ensures input.input == 0 && input.weaponIdx == old(input.weaponIdx)
      ensures input.yaw == old(input.yaw) && input.pitch == old(input.pitch)
    {
      held := held.(waypoints := []);
      input.ClearAllInput();
    }

    // -------------------------------------------------------------------
    // cvar(key), cvar(key, value)

    /** Reading a cvar inserts it with an empty value when it is missing. */
    method GetCvar(key: Bytes) returns (value: Bytes)
      requires Valid()
      modifies this
      ensures Valid() && status == old(status) && held == old(held).(cvars := held.cvars)
      ensures AsMap(held.cvars) == if key in old(AsMap(held.cvars)) then old(AsMap(held.cvars)) else old(AsMap(held.cvars))[key := []]
      ensures key in AsMap(held.cvars) && value == AsMap(held.cvars)[key]
    {
      var f := Find(held.cvars, key);
      FindInMap(held.cvars, key);
      if f.Some? {
        value := f.value;
      } else {
        PutProps(held.cvars, key, []);
        held := held.(cvars := Put(held.cvars, key, []));
        value := [];
      }
    }

    method SetCvar(key: Bytes, value: Bytes)
      requires Valid()
      modifies this
      ensures Valid() && status == old(status) && held == old(held).(cvars := held.cvars)
      ensures AsMap(held.cvars) == old(AsMap(held.cvars))[key := value]
    {
      PutProps(held.cvars, key, value);
      held := held.(cvars := Put(held.cvars, key, value));
    }

    // -------------------------------------------------------------------
    // The client's commands

    /** sendcvars(): every cvar, in key order, in one reliable Vars. */
    method SendCvars()
      requires Valid()
      modifies net
      ensures Valid() && Emitted(net, [Reliable(CmdVars, CvarsPayload(held.cvars))])
    {
      var payload := BuildCvars(held.cvars);
      Emit(net, [Reliable(CmdVars, payload)]);
    }

    method RequestStateStrings()
      requires Valid()
      modifies net
      ensures Valid() && Emitted(net, [Reliable(CmdRequestStateStrings, [])])
    {
      Emit(net, [Reliable(CmdRequestStateStrings, [])]);
    }

    /** What a RequestVars answers: the cvars, then the request for the
        state strings. */
    method SendVarsRequest()
      requires Valid()
      modifies net
      ensures Valid() && Emitted(net, [Reliable(CmdVars, CvarsPayload(held.cvars)), Reliable(CmdRequestStateStrings, [])])
    {
      ghost var sent0, seq0 := net.sent, net.seqNo;
      ghost var xs, ys := [Reliable(CmdVars, CvarsPayload(held.cvars))], [Reliable(CmdRequestStateStrings, [])];
      assert xs + ys == [Reliable(CmdVars, CvarsPayload(held.cvars)), Reliable(CmdRequestStateStrings, [])];
      SendCvars();
      RequestStateStrings();
      FramesJoin(sent0, seq0, net.clientId, xs, ys);
    }

    method SendClientReady()
      requires Owned()
      modifies this, net
      ensures Valid() && held == old(held)
      ensures status == old(status).(ingame := false, state := Ready)
      ensures Emitted(net, [Reliable(CmdReady, [])])
    {
      status := status.(ingame := false, state := Ready);
      Emit(net, [Reliable(CmdReady, [])]);
    }

    method SendClientJoin()
      requires Owned() && SessionOk(status.(state := WaitingFirstFrame))
      modifies this, net
      ensures Valid() && held == old(held)
      ensures status == old(status).(state := WaitingFirstFrame)
      ensures Emitted(net, [Reliable(CmdJoin, [])])
    {
      status := status.(state := WaitingFirstFrame);
      Emit(net, [Reliable(CmdJoin, [])]);
    }

    method SendDownloadWorld()
      requires Owned()
      modifies this, net
      ensures Valid() && held == old(held)
      ensures status == old(status).(ingame := false, state := LoadingWorld)
      ensures Emitted(net, [Reliable(CmdDownloadWorld, [])])
    {
      status := status.(ingame := false, state := LoadingWorld);
      Emit(net, [Reliable(CmdDownloadWorld, [])]);
    }

    /** sendclientsnapshot(): nothing before the first server frame;
        otherwise one unreliable Snapshot for the current frame, carrying
        the controls, and one more snapshot counted. elapsed is the number
        of milliseconds since the last server frame. */
    method SendClientSnapshot(elapsed: bv32)
      requires Valid()
      modifies this, net
      ensures Valid() && held == old(held)
      ensures old(status.currentFrame) == NoFrame ==> status == old(status) && Emitted(net, [])
      ensures old(status.currentFrame) != NoFrame ==>
                status == old(status).(sentSnapshots := old(status.sentSnapshots) + 1) &&
                Emitted(net, [Unreliable(CmdSnapshot, SnapshotPayload(old(status.currentFrame), ServerTime(elapsed),
                  input.weaponIdx, input.input, input.pitch, input.yaw))])
    {
      if status.currentFrame == NoFrame {
        return;
      }
      var payload := BuildSnapshot(status.currentFrame, ServerTime(elapsed), input.weaponIdx, input.input, input.pitch, input.yaw);
      Emit(net, [Unreliable(CmdSnapshot, payload)]);
      status := status.(sentSnapshots := status.sentSnapshots + 1);
    }

    // -------------------------------------------------------------------
    // think()

    /** think(): the session decision for the current frame, once per
        frame; its commands are sent and the waypoints cleared when it
        says so. */
    method Think()
      requires Valid()
      modifies this, net
      ensures Valid()
      ensures var (s1, d) := Session.Think(old(status), game.State(), game.localClientNumber);
              status == s1 && Emitted(net, d.outs) &&
              held == if d.clearWaypoints then old(held).(waypoints := []) else old(held)
      ensures status.lastThinkFrame == status.currentFrame
    {
      ThinkTransitions(status, game.State(), game.localClientNumber);
      if status.currentFrame == status.lastThinkFrame {
        return;
      }
      var d := Decide(status.state, status.ingame, status.connected, game.State(), game.localClientNumber);
      Emit(net, d.outs);
      status := status.(lastThinkFrame := status.currentFrame, state := d.next);
      if d.clearWaypoints {
        held := held.(waypoints := []);
      }
    }

    // -------------------------------------------------------------------
    // processserversnapshot(pkt, length)

    /** The game's outcome on the snapshot's bytes decides the reply and the
        new status; a received snapshot's tables replace the game's. The
        record loop is given |data| + 1 records of fuel: the intended loop
        never needs more (RecordsTerminate), and the loop as written can run
        forever (AsWrittenSeekLoops), which shows as Stopped(OutOfFuel). */
    twostate predicate SnapshotApplied(data: Bytes, i: nat, length: nat, r: CmdResult)
      reads this, game
    {
      Consistent(game.schema, old(game.State())) &&
      var S := SnapshotSpec(game.schema, old(game.State()), data, i, length, old(status.stateSeq),
        Int32(old(status.localClientNumber)), |data| + 1);
      r == SnapshotReply(S.outcome) && status == SnapshotStatus(old(status), S.outcome) &&
      (S.outcome.Received? ==> game.State() == S.tables) &&
      game.world == old(game.world) && game.localClientNumber == old(game.localClientNumber)
    }

    method ProcessServerSnapshot(pkt: Packet, length: nat) returns (r: CmdResult)
      requires Valid() && pkt.readIdx <= |pkt.data| < SizeMod
      modifies this, game, pkt
      ensures Valid() && pkt.data == old(pkt.data) && held == old(held)
      ensures SnapshotApplied(pkt.data, old(pkt.readIdx), length, r)
    {
      var client := Int32(status.localClientNumber);
      ghost var S := SnapshotSpec(game.schema, game.State(), pkt.data, pkt.readIdx, length, status.stateSeq, client, |pkt.data| + 1);
      SnapshotSound(game.schema, game.State(), pkt.data, pkt.readIdx, length, status.stateSeq, client, |pkt.data| + 1);
      var o := game.RcvServerSnapshot(pkt, length, status.stateSeq, client, |pkt.data| + 1);
      assert o == S.outcome && (o.Received? ==> game.State() == S.tables);
      SnapshotStatusOk(status, o);
      status := SnapshotStatus(status, o);
      r := SnapshotReply(o);
    }

    // -------------------------------------------------------------------
    // processcmd: connection commands

    /** KickClient: the reason string, then a reset. */
    method OnKick(pkt: Packet) returns (r: CmdResult)
      requires Valid() && pkt.readIdx <= |pkt.data| < SizeMod
      modifies this, game, input, pkt
      ensures CmdOk(pkt, r) && r == ReadOk(CString(old(pkt.data)[old(pkt.readIdx)..]))
      ensures r.Handled? ==> WasReset()
    {
      assert pkt.Rest() == pkt.data[pkt.readIdx..];
      var reason := pkt.ReadString();
      if reason.None? {
        return Stopped(OutOfData);
      }
      Reset();
      r := Handled(true);
    }

    /** ShuttingDown: a reset. */
    method OnShuttingDown(pkt: Packet) returns (r: CmdResult)
      requires Valid() && pkt.readIdx <= |pkt.data| < SizeMod
      modifies this, game, input
      ensures CmdOk(pkt, r) && r == Handled(true) && WasReset()
    {
      Reset();
      r := Handled(true);
    }

    /** RequestVars: the server's number for the client; the client is
        connected and connecting, and answers with its cvars and a request
        for the state strings. */
    method OnRequestVars(pkt: Packet) returns (r: CmdResult)
      requires Valid() && pkt.readIdx <= |pkt.data| < SizeMod
      modifies this, game, net, pkt
      ensures CmdOk(pkt, r) && (r == if old(pkt.readIdx) + 4 <= |pkt.data| then Handled(true) else Stopped(OutOfData))
      ensures r.Handled? ==>
                var n := Dword(pkt.data, old(pkt.readIdx));
                pkt.readIdx == old(pkt.readIdx) + 4 && held == old(held) &&
                status == old(status).(localClientNumber := n, state := Connecting, connected := true) &&
                game.localClientNumber == Int32(n) && game.State() == old(game.State()) && game.world == old(game.world) &&
                Emitted(net, [Reliable(CmdVars, CvarsPayload(held.cvars)), Reliable(CmdRequestStateStrings, [])])
    {
      var n := pkt.ReadDword();
      if n.None? {
        return Stopped(OutOfData);
      }
      status := status.(localClientNumber := n.value, state := Connecting, connected := true);
      game.SetClientNumber(Int32(n.value));
      SendVarsRequest();
      r := Handled(true);
    }

    /** DenyConnect: the reason string is built from remaining() - 1 bytes,
        which throws when nothing remains; otherwise a reset, after which the
        rest of the packet (the reason) is skipped. */
    method OnDenyConnect(pkt: Packet) returns (r: CmdResult)
      requires Valid() && pkt.readIdx <= |pkt.data| < SizeMod
      modifies this, game, input, pkt
      ensures CmdOk(pkt, r) && DeniedOk(pkt, r)
      ensures r.Stopped? ==> pkt.readIdx == old(pkt.readIdx)
    {
      if pkt.Remaining() == 0 {
        return Stopped(Fatal);
      }
      Reset();
      SkipToEnd(pkt);
      r := Handled(true);
    }

    // -------------------------------------------------------------------
    // processcmd: state strings

    /** StateReset: the sequence back to 0 and every state set dropped. */
    method OnStateReset(pkt: Packet) returns (r: CmdResult)
      requires Valid() && pkt.readIdx <= |pkt.data| < SizeMod
      modifies this
      ensures CmdOk(pkt, r) && r == Handled(true)
      ensures status == old(status).(stateSeq := 0) && held == old(held).(svState := map[])
    {
      status := status.(stateSeq := 0);
      held := held.(svState := map[]);
      r := Handled(true);
    }

    /** StateUpdate: the bytes update the state set of their id, and the
        sequence moves on. */
    method OnStateUpdate(pkt: Packet) returns (r: CmdResult)
      requires Valid() && pkt.readIdx <= |pkt.data| < SizeMod
      modifies this, pkt
      ensures var U := StateUpdateAt(old(pkt.data), old(pkt.readIdx));
              CmdOk(pkt, r) && r == ReadOk(U) &&
              (U.Some? ==>
                 var id := U.value.0;
                 pkt.readIdx == old(pkt.readIdx) + 6 + |U.value.1| &&
                 held == old(held).(svState := old(held.svState)[id := Apply(SetOf(old(held.svState), id), U.value.1)]) &&
                 status == old(status).(stateSeq := old(status.stateSeq) + 1))
    {
      var u := ReadStateUpdate(pkt);
      if u.None? {
        return Stopped(OutOfData);
      }
      var id, bytes := u.value.0, u.value.1;
      var vars, _ := UpdateStateStrings(SetOf(held.svState, id), bytes);
      held := held.(svState := held.svState[id := vars]);
      status := status.(stateSeq := status.stateSeq + 1);
      r := Handled(true);
    }

    /** CompressedStateUpdate: the bytes are inflated into a buffer of the
        given capacity; a failure is fatal (core::error). */
    method OnCompressedStateUpdate(env: Env, pkt: Packet) returns (r: CmdResult)
      requires Valid() && pkt.readIdx <= |pkt.data| < SizeMod
      modifies this, pkt
      ensures var U := CompressedUpdateAt(old(pkt.data), old(pkt.readIdx));
              CmdOk(pkt, r) && (U.None? ==> r == Stopped(OutOfData)) &&
              (U.Some? ==>
                 var id := U.value.0;
                 var out := Uncompress(env, U.value.1, U.value.2);
                 r == (if out.Some? then Handled(true) else Stopped(Fatal)) &&
                 (out.Some? ==>
                    pkt.readIdx == old(pkt.readIdx) + 10 + |U.value.1| &&
                    held == old(held).(svState := old(held.svState)[id := Apply(SetOf(old(held.svState), id), out.value)]) &&
                    status == old(status).(stateSeq := old(status.stateSeq) + 1)))
    {
      var u := ReadCompressedUpdate(pkt);
      if u.None? {
        return Stopped(OutOfData);
      }
      var id, bytes, cap := u.value.0, u.value.1, u.value.2;
      var out := Uncompress(env, bytes, cap);
      if out.None? {
        return Stopped(Fatal);
      }
      var vars, _ := UpdateStateStrings(SetOf(held.svState, id), out.value);
      held := held.(svState := held.svState[id := vars]);
      status := status.(stateSeq := status.stateSeq + 1);
      r := Handled(true);
    }

    /** StateFragment: the bytes are appended to the fragments of their id. */
    method OnStateFragment(pkt: Packet) returns (r: CmdResult)
      requires Valid() && pkt.readIdx <= |pkt.data| < SizeMod
      modifies this, pkt
      ensures var F := FragmentAt(old(pkt.data), old(pkt.readIdx));
              CmdOk(pkt, r) && r == ReadOk(F) &&
              (F.Some? ==>
                 pkt.readIdx == old(pkt.readIdx) + 4 + |F.value.1| && status == old(status) &&
                 held == old(held).(stateFragments := AppendFrag(old(held.stateFragments), F.value.0, F.value.1)))
    {
      var u := ReadFragment(pkt);
      if u.None? {
        return Stopped(OutOfData);
      }
      var id, bytes := u.value.0, u.value.1;
      held := held.(stateFragments := AppendFrag(held.stateFragments, id, bytes));
      r := Handled(true);
    }

    /** StateTerminate: the last bytes complete the fragments of their id,
        which update that state set and are dropped; the sequence moves on. */
    method OnStateTerminate(pkt: Packet) returns (r: CmdResult)
      requires Valid() && pkt.readIdx <= |pkt.data| < SizeMod
      modifies this, pkt
      ensures var F := FragmentAt(old(pkt.data), old(pkt.readIdx));
              CmdOk(pkt, r) && r == ReadOk(F) &&
              (F.Some? ==>
                 var id := F.value.0;
                 var full := FragOf(old(held.stateFragments), id) + F.value.1;
                 pkt.readIdx == old(pkt.readIdx) + 4 + |F.value.1| &&
                 held == old(held).(svState := old(held.svState)[id := Apply(SetOf(old(held.svState), id), full)],
                                    stateFragments := old(held.stateFragments) - {id}) &&
                 status == old(status).(stateSeq := old(status.stateSeq) + 1))
    {
      var u := ReadFragment(pkt);
      if u.None? {
        return Stopped(OutOfData);
      }
      var id, bytes := u.value.0, u.value.1;
      var full := FragOf(held.stateFragments, id) + bytes;
      var vars, _ := UpdateStateStrings(SetOf(held.svState, id), full);
      held := held.(svState := held.svState[id := vars], stateFragments := held.stateFragments - {id});
      status := status.(stateSeq := status.stateSeq + 1);
      r := Handled(true);
    }

    /** CompressedStateTerminate: the fragments completed by the last bytes
        are inflated; the state set is updated only when that succeeds (a
        failure is only a warning); the fragments are dropped and the
        sequence moves on either way. */
    method OnCompressedStateTerminate(env: Env, pkt: Packet) returns (r: CmdResult)
      requires Valid() && pkt.readIdx <= |pkt.data| < SizeMod
      modifies this, pkt
      ensures var F := CompressedTerminateAt(old(pkt.data), old(pkt.readIdx));
              CmdOk(pkt, r) && r == ReadOk(F) &&
              (F.Some? ==>
                 var id := F.value.0;
                 var out := Uncompress(env, FragOf(old(held.stateFragments), id) + F.value.1, F.value.2);
                 pkt.readIdx == old(pkt.readIdx) + 8 + |F.value.1| &&
                 held == old(held).(svState := InflatedState(old(held.svState), id, out),
                                    stateFragments := old(held.stateFragments) - {id}) &&
                 status == old(status).(stateSeq := old(status.stateSeq) + 1))
    {
      var u := ReadCompressedTerminate(pkt);
      if u.None? {
        return Stopped(OutOfData);
      }
      var id, bytes, cap := u.value.0, u.value.1, u.value.2;
      var out := Uncompress(env, FragOf(held.stateFragments, id) + bytes, cap);
      var sv := ApplyInflated(held.svState, id, out);
      held := held.(svState := sv, stateFragments := held.stateFragments - {id});
      status := status.(stateSeq := status.stateSeq + 1);
      r := Handled(true);
    }

    /** StateStringsEnd: looking up the three timeouts and rates inserts
        them into state set 1; the server frame rate is parsed with
        std::stol, which throws when svr_gameFPS holds no number; then the
        client is ready. */
    method OnStateStringsEnd(pkt: Packet) returns (r: CmdResult)
      requires Valid() && pkt.readIdx <= |pkt.data| < SizeMod
      modifies this, net
      ensures var set1 := Touched(SetOf(old(held.svState), 1));
              var fps := Stol(set1[KeyGameFps]);
              CmdOk(pkt, r) && (r == if fps.Some? then Handled(true) else Stopped(Fatal)) &&
              (fps.Some? ==>
                 held == old(held).(svState := old(held.svState)[1 := set1]) &&
                 status == old(status).(serverFps := fps.value, ingame := false, state := Ready) &&
                 Emitted(net, [Reliable(CmdReady, [])]))
    {
      TouchedKeeps(SetOf(held.svState, 1));
      var set1 := Touched(SetOf(held.svState, 1));
      held := held.(svState := held.svState[1 := set1]);
      var fps := Stol(set1[KeyGameFps]);
      if fps.None? {
        return Stopped(Fatal);
      }
      status := status.(serverFps := fps.value);
      SendClientReady();
      r := Handled(true);
    }

    // -------------------------------------------------------------------
    // processcmd: the world

    /** LoadWorld: the world's name and checksum; the game loads the world
        and the world state is cleared; the client joins when the world was
        found and asks to download it otherwise. */
    method OnLoadWorld(env: Env, pkt: Packet) returns (r: CmdResult)
      requires Valid() && pkt.readIdx <= |pkt.data| < SizeMod
      modifies this, game, net, input, pkt
      ensures var W := WorldStrings(old(pkt.data), old(pkt.readIdx));
              CmdOk(pkt, r) && r == ReadOk(W) &&
              (W.Some? ==> pkt.readIdx == old(pkt.readIdx) + |W.value.0| + |W.value.1| + 2 &&
                           WorldEntered(W.value.0, W.value.1, env.worldLoads(WorldPath(W.value.0, W.value.1))))
    {
      var w := ReadWorldStrings(pkt);
      if w.None? {
        return Stopped(OutOfData);
      }
      EnterAndJoin(w.value.0, w.value.1, env.worldLoads(WorldPath(w.value.0, w.value.1)));
      r := Handled(true);
    }

    /** LoadWorld once the world's name and checksum are read. */
    method EnterAndJoin(name: Bytes, sum: Bytes, found: bool)
      requires Valid()
      modifies this, game, net, input
      ensures Valid() && WorldEntered(name, sum, found)
    {
      var ok := EnterWorld(name, sum, found);
      JoinOrDownload(ok);
    }

    /** What LoadWorld leaves once it has read the world's name and
        checksum: the names kept and the world state cleared, and the client
        joining the world when it was found and asking to download it
        otherwise. */
    twostate predicate WorldEntered(name: Bytes, sum: Bytes, found: bool)
      reads this, game, net, input
    {
      held == old(held).(worldName := name, worldChecksum := sum, svState := map[], stateFragments := map[],
                         snapshotFragments := map[], waypoints := []) &&
      game.State() == EmptyTables && game.localClientNumber == old(game.localClientNumber) && input.input == 0 &&
      (found ==> status == old(status).(ingame := false, currentFrame := NoFrame, state := WaitingFirstFrame) &&
                 game.world == Some(WorldPath(name, sum)) && Emitted(net, [Reliable(CmdJoin, [])])) &&
      (!found ==> status == old(status).(ingame := false, currentFrame := NoFrame, state := LoadingWorld) &&
                  game.world == None && Emitted(net, [Reliable(CmdDownloadWorld, [])]))
    }

    /** The world part of LoadWorld: the names are kept, the game loads the
        world, and the world state is cleared. */
    method EnterWorld(name: Bytes, sum: Bytes, found: bool) returns (ok: bool)
      requires Valid()
      modifies this, game, input
      ensures Valid() && ok == found
      ensures held == old(held).(worldName := name, worldChecksum := sum, svState := map[], stateFragments := map[],
                                 snapshotFragments := map[], waypoints := [])
      ensures status == old(status).(ingame := false, currentFrame := NoFrame)
      ensures game.State() == EmptyTables && game.localClientNumber == old(game.localClientNumber) && input.input == 0
      ensures game.world == if found then Some(WorldPath(name, sum)) else None
    {
      ok := game.LoadWorld(name, sum, found);
      ResetWorld();
      held := held.(worldName := name, worldChecksum := sum);
    }

    /** Joins a loaded world, or asks to download a missing one. */
    method JoinOrDownload(found: bool)
      requires Owned() && SessionOk(status) && !status.ingame
      modifies this, net
      ensures Valid() && held == old(held)
      ensures found ==> status == old(status).(state := WaitingFirstFrame) && Emitted(net, [Reliable(CmdJoin, [])])
      ensures !found ==> status == old(status).(state := LoadingWorld) && Emitted(net, [Reliable(CmdDownloadWorld, [])])
    {
      if found {
        SendClientJoin();
      } else {
        SendDownloadWorld();
      }
    }

    /** DownloadStart: the announced length; the download is emptied. */
    method OnDownloadStart(pkt: Packet) returns (r: CmdResult)
      requires Valid() && pkt.readIdx <= |pkt.data| < SizeMod
      modifies this, pkt
      ensures CmdOk(pkt, r) && (r == if old(pkt.readIdx) + 4 <= |pkt.data| then Handled(true) else Stopped(OutOfData))
      ensures r.Handled? ==>
                pkt.readIdx == old(pkt.readIdx) + 4 && status == old(status) &&
                held == old(held).(worldDownload := [], worldDownloadLength := Dword(pkt.data, old(pkt.readIdx)))
    {
      var n := pkt.ReadDword();
      if n.None? {
        return Stopped(OutOfData);
      }
      held := held.(worldDownload := [], worldDownloadLength := n.value);
      r := Handled(true);
    }

    /** DownloadWorld: one chunk appended to the download. */
    method OnDownloadWorld(pkt: Packet) returns (r: CmdResult)
      requires Valid() && pkt.readIdx <= |pkt.data| < SizeMod
      modifies this, pkt
      ensures var C := ChunkAt(old(pkt.data), old(pkt.readIdx));
              CmdOk(pkt, r) && r == ReadOk(C) &&
              (C.Some? ==>
                 pkt.readIdx == old(pkt.readIdx) + 2 + |C.value| && status == old(status) &&
                 held == old(held).(worldDownload := old(held.worldDownload) + C.value))
    {
      var c := ReadChunk(pkt);
      if c.None? {
        return Stopped(OutOfData);
      }
      held := held.(worldDownload := held.worldDownload + c.value);
      r := Handled(true);
    }

    /** DownloadFinished: the download is written to the world's file, which
        the game then loads, and the client joins. A file that cannot be
        opened and a world that does not load are fatal (core::error). */
    method OnDownloadFinished(env: Env, pkt: Packet) returns (r: CmdResult)
      requires Valid() && pkt.readIdx <= |pkt.data| < SizeMod
      modifies this, game, net
      ensures var path := WorldPath(old(held.worldName), old(held.worldChecksum));
              var loads := env.loadsWritten(path, old(held.worldDownload));
              CmdOk(pkt, r) && (r == if env.canWrite(path) && loads then Handled(true) else Stopped(Fatal)) &&
              (r.Handled? ==>
                 held == old(held).(worldDownload := []) && status == old(status).(state := WaitingFirstFrame) &&
                 game.State() == EmptyTables && game.world == Some(path) &&
                 game.localClientNumber == old(game.localClientNumber) &&
                 Emitted(net, [Reliable(CmdJoin, [])]))
    {
      var path := WorldPath(held.worldName, held.worldChecksum);
      if !env.canWrite(path) {
        return Stopped(Fatal);
      }
      var written := held.worldDownload;
      held := held.(worldDownload := []);
      var ok := game.LoadWorld(held.worldName, held.worldChecksum, env.loadsWritten(path, written));
      if !ok {
        return Stopped(Fatal);
      }
      SendClientJoin();
      r := Handled(true);
    }

    // -------------------------------------------------------------------
    // processcmd: snapshots

    /** Snapshot: a copy of the counted bytes is processed as a snapshot. */
    method OnSnapshot(pkt: Packet) returns (r: CmdResult)
      requires Valid() && pkt.readIdx <= |pkt.data| < SizeMod
      modifies this, game, pkt
      ensures var B := SizedAt(old(pkt.data), old(pkt.readIdx));
              CmdOk(pkt, r) && (B.None? ==> r == Stopped(OutOfData)) &&
              (B.Some? ==>
                 pkt.readIdx == old(pkt.readIdx) + 4 + |B.value| && held == old(held) &&
                 SnapshotApplied(B.value, 0, 0, r))
    {
      var b := ReadSized(pkt);
      if b.None? {
        return Stopped(OutOfData);
      }
      var copy := new Packet.FromBytes(b.value);
      r := ProcessServerSnapshot(copy, 0);
    }

    /** CompressedSnapshot: the bytes are inflated into a zeroed buffer of
        the given capacity, which is processed as a snapshot of the inflated
        length; a failure is fatal (core::error). */
    method OnCompressedSnapshot(env: Env, pkt: Packet) returns (r: CmdResult)
      requires Valid() && pkt.readIdx <= |pkt.data| < SizeMod
      modifies this, game, pkt
      ensures var C := CompressedSnapshotAt(old(pkt.data), old(pkt.readIdx));
              CmdOk(pkt, r) && (C.None? ==> r == Stopped(OutOfData)) &&
              (C.Some? ==>
                 var out := Uncompress(env, C.value.0, C.value.1);
                 pkt.readIdx == old(pkt.readIdx) + 8 + |C.value.0| && held == old(held) &&
                 (out.None? ==> r == Stopped(Fatal)) &&
                 (out.Some? ==> SnapshotApplied(out.value + Zeros(C.value.1 - |out.value|), 0, |out.value|, r)))
    {
      var c := ReadCompressedSnapshot(pkt);
      if c.None? {
        return Stopped(OutOfData);
      }
      var out := Uncompress(env, c.value.0, c.value.1);
      if out.None? {
        return Stopped(Fatal);
      }
      var snapdata := new Packet.FromBytes(out.value + Zeros(c.value.1 - |out.value|));
      r := ProcessServerSnapshot(snapdata, |out.value|);
    }

    /** SnapshotFragment: the rest of the packet is appended to the
        fragments of its frame. */
    method OnSnapshotFragment(pkt: Packet) returns (r: CmdResult)
      requires Valid() && pkt.readIdx <= |pkt.data| < SizeMod
      modifies this, pkt
      ensures var F := SnapshotFragmentAt(old(pkt.data), old(pkt.readIdx));
              CmdOk(pkt, r) && r == ReadOk(F) &&
              (F.Some? ==>
                 pkt.readIdx == |pkt.data| && status == old(status) &&
                 held == old(held).(snapshotFragments := AppendFrag(old(held.snapshotFragments), F.value.0, F.value.1)))
    {
      var f := ReadSnapshotFragment(pkt);
      if f.None? {
        return Stopped(OutOfData);
      }
      held := held.(snapshotFragments := AppendFrag(held.snapshotFragments, f.value.0, f.value.1));
      SkipToEnd(pkt);
      r := Handled(true);
    }

    /** SnapshotTerminate: the last bytes complete the fragments of their
        frame, which are processed as a snapshot and dropped. An empty
        terminate for a frame with no fragments is only a warning. */
    method OnSnapshotTerminate(pkt: Packet) returns (r: CmdResult)
      requires Valid() && pkt.readIdx <= |pkt.data| < SizeMod
      modifies this, game, pkt
      ensures var T := SnapshotTerminateAt(old(pkt.data), old(pkt.readIdx));
              CmdOk(pkt, r) && (T.None? ==> r == Stopped(OutOfData)) &&
              (T.Some? ==>
                 var frame := T.value.0;
                 var full := FragOf(old(held.snapshotFragments), frame) + T.value.1;
                 pkt.readIdx == old(pkt.readIdx) + 7 + |T.value.1| &&
                 if T.value.1 == [] && frame !in old(held.snapshotFragments) then
                   r == Handled(true) && held == old(held) && status == old(status) && game.State() == old(game.State())
                 else
                   held == old(held).(snapshotFragments := old(held.snapshotFragments) - {frame}) &&
                   (|full| < SizeMod ==> SnapshotApplied(full, 0, 0, r)) &&
                   (|full| >= SizeMod ==> r == Stopped(Fatal)))
    {
      var t := ReadSnapshotTerminate(pkt);
      if t.None? {
        return Stopped(OutOfData);
      }
      var frame, bytes := t.value.0, t.value.1;
      if bytes == [] && frame !in held.snapshotFragments {
        return Handled(true);
      }
      var full := FragOf(held.snapshotFragments, frame) + bytes;
      held := held.(snapshotFragments := held.snapshotFragments - {frame});
      if |full| >= SizeMod {
        return Stopped(Fatal);
      }
      var snapdata := new Packet.FromBytes(full);
      r := ProcessServerSnapshot(snapdata, 0);
    }

    // -------------------------------------------------------------------
    // processgamedata(id, pkt)

    /** processgamedata: a known message is read past, Death marking its
        victim killed; an unknown id skips the packet and is not handled. */
    method ProcessGamedata(id: bv8, pkt: Packet) returns (r: CmdResult)
      requires Valid() && pkt.readIdx <= |pkt.data| < SizeMod
      modifies game, pkt
      ensures CmdOk(pkt, r) && game.world == old(game.world) && game.localClientNumber == old(game.localClientNumber)
      ensures var g := GamedataAt(id, pkt.data, old(pkt.readIdx));
              r == (if g.end.None? then Stopped(OutOfData) else Handled(KnownGamedata(id))) &&
              (g.end.Some? ==>
                 pkt.readIdx == g.end.value &&
                 game.State() == if g.killed.Some? then old(game.State()).(ents := Kill(old(game.entities), g.killed.value))
                                 else old(game.State()))
    {
      if !KnownGamedata(id) {
        pkt.Seek(|pkt.data|);
        return Handled(false);
      }
      if id == GdDeath {
        var killer := pkt.ReadDword();
        var killed := pkt.ReadDword();
        var weapon := pkt.ReadWord();
        if killer.None? || killed.None? || weapon.None? {
          return Stopped(OutOfData);
        }
        game.MarkKilled(Int32(killed.value));
        return Handled(true);
      }
      var ok := SkipGamedata(id, pkt);
      r := if ok then Handled(true) else Stopped(OutOfData);
    }

    /** Gamedata: the message id, then the message; processgamedata's own
        result is dropped. */
    method OnGamedata(pkt: Packet) returns (r: CmdResult)
      requires Valid() && pkt.readIdx <= |pkt.data| < SizeMod
      modifies game, pkt
      ensures CmdOk(pkt, r) && game.world == old(game.world) && game.localClientNumber == old(game.localClientNumber)
      ensures old(pkt.readIdx) == |pkt.data| ==> r == Stopped(OutOfData)
      ensures old(pkt.readIdx) < |pkt.data| ==>
                var g := GamedataAt(pkt.data[old(pkt.readIdx)], pkt.data, old(pkt.readIdx) + 1);
                r == (if g.end.None? then Stopped(OutOfData) else Handled(true)) &&
                (g.end.Some? ==>
                   pkt.readIdx == g.end.value &&
                   game.State() == if g.killed.Some? then old(game.State()).(ents := Kill(old(game.entities), g.killed.value))
                                   else old(game.State()))
    {
      var id := pkt.ReadByte();
      if id.None? {
        return Stopped(OutOfData);
      }
      r := ProcessGamedata(id.value, pkt);
      if r.Handled? {
        r := Handled(true);
      }
    }

    // -------------------------------------------------------------------
    // processcmd(cmdid, pkt)

    /** The connection commands. */
    method ConnectionCmd(cmd: bv8, pkt: Packet) returns (r: CmdResult)
      requires cmd == SvKickClient || cmd == SvShuttingDown || cmd == SvRequestVars || cmd == SvDenyConnect
      requires Valid() && pkt.readIdx <= |pkt.data| < SizeMod
      modifies this, game, net, input, pkt
      ensures CmdOk(pkt, r) && r != Handled(false)
      ensures cmd == SvDenyConnect ==> DeniedOk(pkt, r)
    {
      if cmd == SvKickClient {
        r := OnKick(pkt);
      } else if cmd == SvShuttingDown {
        r := OnShuttingDown(pkt);
      } else if cmd == SvRequestVars {
        r := OnRequestVars(pkt);
      } else {
        r := OnDenyConnect(pkt);
      }
    }

    /** The state string commands that update a set directly. */
    method StateCmd(env: Env, cmd: bv8, pkt: Packet) returns (r: CmdResult)
      requires SvStateReset <= cmd <= SvCompressedStateUpdate
      requires Valid() && pkt.readIdx <= |pkt.data| < SizeMod
      modifies this, pkt
      ensures CmdOk(pkt, r) && r != Handled(false)
    {
      if cmd == SvStateReset {
        r := OnStateReset(pkt);
      } else if cmd == SvStateUpdate {
        r := OnStateUpdate(pkt);
      } else {
        r := OnCompressedStateUpdate(env, pkt);
      }
    }

    /** The fragmented state string commands and the end of the strings. */
    method FragmentCmd(env: Env, cmd: bv8, pkt: Packet) returns (r: CmdResult)
      requires SvStateFragment <= cmd <= SvStateStringsEnd
      requires Valid() && pkt.readIdx <= |pkt.data| < SizeMod
      modifies this, net, pkt
      ensures CmdOk(pkt, r) && r != Handled(false)
    {
      if cmd == SvStateFragment {
        r := OnStateFragment(pkt);
      } else if cmd == SvStateTerminate {
        r := OnStateTerminate(pkt);
      } else if cmd == SvCompressedStateTerminate {
        r := OnCompressedStateTerminate(env, pkt);
      } else {
        r := OnStateStringsEnd(pkt);
      }
    }

    /** The world commands; ClientAuthenticated only logs. */
    method WorldCmd(env: Env, cmd: bv8, pkt: Packet) returns (r: CmdResult)
      requires cmd == SvLoadWorld || SvClientAuthenticated <= cmd <= SvDownloadStart
      requires Valid() && pkt.readIdx <= |pkt.data| < SizeMod
      modifies this, game, net, input, pkt
      ensures CmdOk(pkt, r) && r != Handled(false)
      ensures cmd == SvClientAuthenticated ==> r == Handled(true) && status == old(status) && held == old(held)
    {
      if cmd == SvLoadWorld {
        r := OnLoadWorld(env, pkt);
      } else if cmd == SvClientAuthenticated {
        r := Handled(true);
      } else if cmd == SvDownloadWorld {
        r := OnDownloadWorld(pkt);
      } else if cmd == SvDownloadFinished {
        r := OnDownloadFinished(env, pkt);
      } else {
        r := OnDownloadStart(pkt);
      }
    }

    /** The snapshot commands; CompressedSnapshotTerminate hits a debug
        break. */
    method SnapshotCmd(env: Env, cmd: bv8, pkt: Packet) returns (r: CmdResult)
      requires SvSnapshot <= cmd <= SvCompressedSnapshotTerminate
      requires Valid() && pkt.readIdx <= |pkt.data| < SizeMod
      modifies this, game, pkt
      ensures CmdOk(pkt, r) && r != Handled(false)
      ensures cmd == SvCompressedSnapshotTerminate ==> r == Stopped(Fatal)
      ensures cmd == SvDenyConnect ==> DeniedOk(pkt, r)
    {
      if cmd == SvSnapshot {
        r := OnSnapshot(pkt);
      } else if cmd == SvCompressedSnapshot {
        r := OnCompressedSnapshot(env, pkt);
      } else if cmd == SvSnapshotFragment {
        r := OnSnapshotFragment(pkt);
      } else if cmd == SvSnapshotTerminate {
        r := OnSnapshotTerminate(pkt);
      } else {
        r := Stopped(Fatal);
      }
    }

    /** processcmd: a known command is handled by its case; an unknown one
        skips the rest of the packet and is reported as not handled. */
    method ProcessCmd(env: Env, cmd: bv8, pkt: Packet) returns (r: CmdResult)
      requires Valid() && pkt.readIdx <= |pkt.data| < SizeMod
      modifies this, game, net, input, pkt
      ensures CmdOk(pkt, r)
      ensures r.Handled? ==> r.known == KnownCmd(cmd)
      ensures !KnownCmd(cmd) ==>
                r == Handled(false) && pkt.readIdx == |pkt.data| && status == old(status) && held == old(held) &&
                net.sent == old(net.sent)
      ensures cmd == SvCompressedSnapshotTerminate ==> r == Stopped(Fatal)
      ensures cmd == SvDenyConnect ==> DeniedOk(pkt, r)
    {
      if cmd == SvKickClient || cmd == SvShuttingDown || cmd == SvRequestVars || cmd == SvDenyConnect {
        r := ConnectionCmd(cmd, pkt);
      } else if SvStateReset <= cmd <= SvCompressedStateUpdate {
        r := StateCmd(env, cmd, pkt);
      } else if SvStateFragment <= cmd <= SvStateStringsEnd {
        r := FragmentCmd(env, cmd, pkt);
      } else if cmd == SvLoadWorld || SvClientAuthenticated <= cmd <= SvDownloadStart {
        r := WorldCmd(env, cmd, pkt);
      } else if SvSnapshot <= cmd <= SvCompressedSnapshotTerminate {
        r := SnapshotCmd(env, cmd, pkt);
      } else if cmd == SvGamedata {
        r := OnGamedata(pkt);
      } else if SvNewVoiceClient <= cmd <= SvRemoveVoiceClient {
        r := VoiceCmd(cmd, pkt);
      } else {
        pkt.Seek(|pkt.data|);
        r := Handled(false);
      }
    }

    // -------------------------------------------------------------------
    // update(), connect(...), disconnect(reason)

    /** The loop of update(): commands are read and processed until the
        message ends. The count is the number of commands, at least one for
        a non-empty message and at most one per byte. */
    method ProcessMessage(env: Env, pkt: Packet) returns (r: UpdateResult)
      requires Valid() && pkt.readIdx <= |pkt.data| < SizeMod
      modifies this, game, net, input, pkt
      ensures net.clientId == old(net.clientId) && old(net.sent) <= net.sent && pkt.data == old(pkt.data)
      ensures r.Processed? ==>
                Valid() && pkt.readIdx == |pkt.data| && r.count <= |pkt.data| - old(pkt.readIdx) &&
                (old(pkt.readIdx) < |pkt.data| ==> r.count > 0)
    {
      var count := 0;
      while !pkt.End()
        invariant Valid() && pkt.data == old(pkt.data) && old(pkt.readIdx) <= pkt.readIdx <= |pkt.data|
        invariant net.clientId == old(net.clientId) && old(net.sent) <= net.sent
        invariant count <= pkt.readIdx - old(pkt.readIdx)
        invariant old(pkt.readIdx) < pkt.readIdx ==> count > 0
        decreases |pkt.data| - pkt.readIdx
      {
        var cmd := pkt.ReadByte();
        var c := ProcessCmd(env, cmd.value, pkt);
        if c.Stopped? {
          return Aborted(c.why);
        }
        count := count + 1;
      }
      r := Processed(count);
    }

    /** update(): the next message, if one is delivered, is processed
        command by command; an ingame client whose last snapshot is at
        least 1000 / mPacketSendFps milliseconds old sends one; then think()
        runs. The result counts the commands processed. sinceSnapshot is the
        milliseconds since the last client snapshot and elapsed those since
        the last server frame. */
    method Update(env: Env, sinceSnapshot: nat, elapsed: bv32) returns (r: UpdateResult)
      requires Valid()
      modifies this, game, net, input
      ensures net.clientId == old(net.clientId) && old(net.sent) <= net.sent
      ensures r.Processed? ==> Valid() && status.lastThinkFrame == status.currentFrame
    {
      r := ReadAndProcess(env);
      if r.Aborted? {
        return;
      }
      Tick(sinceSnapshot, elapsed);
    }

    /** The first half of update(): the next delivered message, if any,
        processed command by command; no message counts no commands. */
    method ReadAndProcess(env: Env) returns (r: UpdateResult)
      requires Valid()
      modifies this, game, net, input
      ensures net.clientId == old(net.clientId) && old(net.sent) <= net.sent
      ensures r.Processed? ==> Valid()
    {
      var m := net.ReadMsg();
      r := Processed(0);
      if m.Delivered? {
        var pkt := new Packet.FromBytes(m.msg.data);
        r := ProcessMessage(env, pkt);
      }
    }

    /** The end of update(): the client snapshot when one is due, then
        think(), which decides on the status the snapshot leaves. */
    method Tick(sinceSnapshot: nat, elapsed: bv32)
      requires Valid()
      modifies this, net
      ensures Valid() && status.lastThinkFrame == status.currentFrame
      ensures net.clientId == old(net.clientId) && old(net.sent) <= net.sent
      ensures var (s1, d) := Session.Think(old(AfterSnapshot(sinceSnapshot)), game.State(), game.localClientNumber);
              status == s1 && Emitted(net, old(DueSnapshot(sinceSnapshot, elapsed)) + d.outs) &&
              held == if d.clearWaypoints then old(held).(waypoints := []) else old(held)
    {
      ghost var sent0, seq0, xs := net.sent, net.seqNo, DueSnapshot(sinceSnapshot, elapsed);
      SnapshotIfDue(sinceSnapshot, elapsed);
      ghost var mid := status;
      Think();
      FramesJoin(sent0, seq0, net.clientId, xs, Session.Think(mid, game.State(), game.localClientNumber).1.outs);
    }

    /** The snapshot update() sends now: one, for the current frame, when
        it is due, and none otherwise. */
    function DueSnapshot(sinceSnapshot: nat, elapsed: bv32): seq<Outgoing>
      reads this, input
    {
      if SnapshotDue(status, sinceSnapshot) then
        [Unreliable(CmdSnapshot, SnapshotPayload(status.currentFrame, ServerTime(elapsed),
          input.weaponIdx, input.input, input.pitch, input.yaw))]
      else []
    }

    /** The status after the snapshot step: one more snapshot sent when
        one was due. */
    function AfterSnapshot(sinceSnapshot: nat): Session.Status
      reads this
    {
      if SnapshotDue(status, sinceSnapshot) then status.(sentSnapshots := status.sentSnapshots + 1) else status
    }

    /** The client snapshot of update(): sent exactly when the client is in
        game, a frame has arrived and the last one is at least
        1000 / mPacketSendFps milliseconds old, and then counted. */
    method SnapshotIfDue(sinceSnapshot: nat, elapsed: bv32)
      requires Valid()
      modifies this, net
      ensures Valid() && held == old(held)
      ensures status == old(AfterSnapshot(sinceSnapshot))
      ensures Emitted(net, old(DueSnapshot(sinceSnapshot, elapsed)))
    {
      if status.ingame && sinceSnapshot >= 1000 / PacketSendFps {
        SendClientSnapshot(elapsed);
      }
    }

    /** connect(ip, port, password): a reset, a fresh reliable layer with
        the client id drawn for it, and an unreliable Connect; when that was
        sent, up to ten updates until one processes a command; otherwise the
        client is disconnected. The result is whether it is connected. */
    method Connect(password: Bytes, clientId: bv32, sendOk: bool, env: Env, sinceSnapshot: nat, elapsed: bv32)
      returns (r: ConnectResult)
      requires Valid()
      modifies this, game, net, input
      ensures net.clientId == clientId && old(net.sent) <= net.sent
      ensures r.Attempted? ==> Valid() && r.connected == status.connected
      ensures !sendOk ==> r == Attempted(false) && WasReset() && net.sent == old(net.sent)
      ensures sendOk ==>
                |old(net.sent)| < |net.sent| &&
                net.sent[|old(net.sent)|] == Frames(1, clientId, [Unreliable(CmdConnect, ConnectPayload(password, clientId, accountId))])[0]
    {
      Reset();
      net.Reset(clientId);
      if sendOk {
        var payload := BuildConnect(password, clientId, accountId);
        Emit(net, [Unreliable(CmdConnect, payload)]);
        ghost var first := net.sent;
        var i := 0;
        while i < 10
          invariant Valid() && net.clientId == clientId && first <= net.sent
        {
          var u := Update(env, sinceSnapshot, elapsed);
          if u.Aborted? {
            return Interrupted(u.why);
          }
          if u.count > 0 {
            break;
          }
          i := i + 1;
        }
      } else {
        status := status.(connected := false, state := Disconnected);
      }
      r := Attempted(status.connected);
    }

    /** disconnect(reason): a reliable Disconnect carrying the reason, then
        a reset. */
    method Disconnect(reason: Bytes)
      requires Valid()
      modifies this, game, net, input
      ensures Valid() && WasReset() && Emitted(net, [Reliable(CmdDisconnect, CStr(reason))])
    {
      var pkt := new Packet();
      pkt.WriteString(reason);
      assert pkt.data == CStr(reason);
      Emit(net, [Reliable(CmdDisconnect, pkt.data)]);
      Reset();
    }
  }
}
