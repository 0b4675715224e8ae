/*
 * The session layer of the user client, as values: the connection state
 * machine, the decisions `think` takes once per server frame, and the
 * commands the client sends, turned into frames by the reliable-datagram
 * layer.
 */
module Session {
  import opened Common
  import opened NetMsg
  import opened NetClient
  import opened Entity
  import opened Game

  /** The connection states of the user client. */
  datatype ConnState =
    | Disconnected
    | Connecting
    | LoadingWorld
    | Ready
    | WaitingFirstFrame
    | Spectating
    | Spawning
    | Playing

  /** The scalar members of the user client. */
  datatype Status = Status(
    state: ConnState,
    connected: bool,
    ingame: bool,
    localClientNumber: bv32,   // mLocalClientNumber (uint32_t, -1 when unknown)
    stateSeq: bv8,             // m_yStateStringSequence
    currentFrame: bv32,        // mCurrentFrame
    lastThinkFrame: bv32,      // mLastThinkFrame
    sentSnapshots: bv64,
    recvdSnapshots: bv64,
    serverFps: int)            // mServerFps (long)

  /** ~0: no frame received yet. */
  const NoFrame: bv32 := 0xFFFF_FFFF

  /** The facts every transition keeps: a disconnected client is not
      connected, and a client that is disconnected, downloading its world
      or waiting to join is not in game. */
  predicate SessionOk(s: Status) {
    (s.state == Disconnected ==> !s.connected) &&
    (s.state == Disconnected || s.state == LoadingWorld || s.state == Ready ==> !s.ingame)
  }

  // ---------------------------------------------------------------------
  // Outbound commands

  const CmdDownloadWorld: bv8 := 0x62
  const CmdConnect: bv8 := 0xC0
  const CmdVars: bv8 := 0xC1
  const CmdRequestStateStrings: bv8 := 0xC2
  const CmdDisconnect: bv8 := 0xC3
  const CmdReady: bv8 := 0xC4
  const CmdJoin: bv8 := 0xC5
  const CmdSnapshot: bv8 := 0xC7
  const CmdGamedata: bv8 := 0xC8

  const GdRequestUnit: bv8 := 0x01
  const GdRequestTeam: bv8 := 0x02
  const GdSpawn: bv8 := 0x0b
  const GdRequestSpawn: bv8 := 0x16

  /** A command handed to the reliable-datagram layer. */
  datatype Outgoing =
    | Reliable(cmd: bv8, payload: Bytes)
    | Unreliable(cmd: bv8, payload: Bytes)

  /** sendgamedata(id, data) */
  function SendGamedata(id: bv8, data: Bytes): Outgoing {
    Reliable(CmdGamedata, [id] + data)
  }

  /** teamrequest(id) */
  function TeamRequest(id: bv16): Outgoing {
    SendGamedata(GdRequestTeam, LE16(id))
  }

  /** unitrequest(id) */
  function UnitRequest(id: bv16): Outgoing {
    SendGamedata(GdRequestUnit, LE16(id))
  }

  /** preparespawn() */
  function PrepareSpawn(): Outgoing {
    SendGamedata(GdSpawn, [])
  }

  /** spawnrequest(id) */
  function SpawnRequest(id: bv32): Outgoing {
    SendGamedata(GdRequestSpawn, LE32(id))
  }

  /** Each request is a reliable Gamedata command whose first payload byte
      names the request and whose remaining bytes read back as its id
      (a word for teams and units, a dword for spawns, none to prepare). */
  lemma GamedataRequests(team: bv16, unit: bv16, spawn: bv32)
    ensures forall o :: o in [TeamRequest(team), UnitRequest(unit), PrepareSpawn(), SpawnRequest(spawn)] ==>
              o.Reliable? && o.cmd == CmdGamedata
    ensures var p := TeamRequest(team).payload;
            |p| == 3 && p[0] == GdRequestTeam && FromLE16(p[1..]) == team
    ensures var p := UnitRequest(unit).payload;
            |p| == 3 && p[0] == GdRequestUnit && FromLE16(p[1..]) == unit
    ensures PrepareSpawn().payload == [GdSpawn]
    ensures var p := SpawnRequest(spawn).payload;
            |p| == 5 && p[0] == GdRequestSpawn && FromLE32(p[1..]) == spawn
  {
    LE16RoundTrip(team, []);
    LE16RoundTrip(unit, []);
    LE32RoundTrip(spawn, []);
    assert TeamRequest(team).payload[1..] == LE16(team);
    assert UnitRequest(unit).payload[1..] == LE16(unit);
    assert SpawnRequest(spawn).payload[1..] == LE32(spawn);
  }

  /** The datagram the layer sends for o when its send counter is seqNo. */
  function FrameOf(seqNo: U32, clientId: bv32, o: Outgoing): Bytes {
    match o
    case Reliable(cmd, payload) => Frame(seqNo as bv32, FlagReliable, clientId) + [cmd] + payload
    case Unreliable(cmd, payload) => Frame(SeqUnreliable, 0, clientId) + [cmd] + payload
  }

  /** The send counter after o. */
  function CountAfter(seqNo: U32, o: Outgoing): U32 {
    if o.Reliable? then Next32(seqNo) else seqNo
  }

  /** The datagrams the commands outs become, in order. */
  function Frames(seqNo: U32, clientId: bv32, outs: seq<Outgoing>): (r: seq<Bytes>)
    ensures |r| == |outs|
    decreases |outs|
  {
    if outs == [] then []
    else [FrameOf(seqNo, clientId, outs[0])] + Frames(CountAfter(seqNo, outs[0]), clientId, outs[1..])
  }

  /** The send counter after outs. */
  function SeqAfter(seqNo: U32, outs: seq<Outgoing>): U32
    decreases |outs|
  {
    if outs == [] then seqNo else SeqAfter(CountAfter(seqNo, outs[0]), outs[1..])
  }

  /** Sending xs and then ys sends the frames of xs + ys: the frames of ys
      take the counter where xs left it. */
  lemma {:induction false} FramesAppend(seqNo: U32, clientId: bv32, xs: seq<Outgoing>, ys: seq<Outgoing>)
    ensures Frames(seqNo, clientId, xs + ys) == Frames(seqNo, clientId, xs) + Frames(SeqAfter(seqNo, xs), clientId, ys)
    ensures SeqAfter(seqNo, xs + ys) == SeqAfter(SeqAfter(seqNo, xs), ys)
    decreases |xs|
  {
    if xs == [] {
      assert xs + ys == ys;
    } else {
      assert (xs + ys)[0] == xs[0] && (xs + ys)[1..] == xs[1..] + ys;
      FramesAppend(CountAfter(seqNo, xs[0]), clientId, xs[1..], ys);
    }
  }

  /** Two sends in a row leave the log of one send of both lists. */
  lemma FramesJoin(sent0: seq<Bytes>, seqNo: U32, clientId: bv32, xs: seq<Outgoing>, ys: seq<Outgoing>)
    ensures sent0 + Frames(seqNo, clientId, xs) + Frames(SeqAfter(seqNo, xs), clientId, ys) == sent0 + Frames(seqNo, clientId, xs + ys)
    ensures SeqAfter(SeqAfter(seqNo, xs), ys) == SeqAfter(seqNo, xs + ys)
  {
    FramesAppend(seqNo, clientId, xs, ys);
    var a, b := Frames(seqNo, clientId, xs), Frames(SeqAfter(seqNo, xs), clientId, ys);
    assert Frames(seqNo, clientId, xs + ys) == a + b;
    SeqAssoc(sent0, a, b);
  }

  lemma SeqAssoc<T>(s: seq<T>, a: seq<T>, b: seq<T>)
    ensures s + a + b == s + (a + b)
  {
  }

  /** The number of reliable commands in outs. */
  function ReliableCount(outs: seq<Outgoing>): nat
    decreases |outs|
  {
    if outs == [] then 0 else (if outs[0].Reliable? then 1 else 0) + ReliableCount(outs[1..])
  }

  /** The counter advances by one per reliable command, modulo 2^32. */
  lemma {:induction false} SeqAfterCounts(seqNo: U32, outs: seq<Outgoing>)
    ensures SeqAfter(seqNo, outs) == (seqNo + ReliableCount(outs)) % 0x1_0000_0000
    decreases |outs|
  {
    if outs != [] {
      SeqAfterCounts(CountAfter(seqNo, outs[0]), outs[1..]);
    }
  }

  /** Datagram i reads back as command i, a reliable one numbered by the
      counter after the commands before it. */
  lemma {:induction false} FramesDecode(seqNo: U32, clientId: bv32, outs: seq<Outgoing>, i: nat)
    requires i < |outs|
    ensures Decode(Frames(seqNo, clientId, outs)[i]) == Some(MessageOf(SeqAfter(seqNo, outs[..i]), clientId, outs[i]))
    decreases i
  {
    if i == 0 {
      FrameOfDecodes(seqNo, clientId, outs[0]);
      assert outs[..0] == [];
    } else {
      FramesDecode(CountAfter(seqNo, outs[0]), clientId, outs[1..], i - 1);
      assert outs[1..][..i - 1] == outs[..i][1..];
      assert outs[..i][0] == outs[0];
    }
  }

  /** The message a command becomes when the send counter is seqNo: a
      reliable one takes the counter, an unreliable one the sentinel; the
      sender field is the low half of the client id. */
  function MessageOf(seqNo: U32, clientId: bv32, o: Outgoing): Message {
    Message(
      if o.Reliable? then seqNo as bv32 else SeqUnreliable,
      if o.Reliable? then FlagUnk | FlagReliable else FlagUnk | 0,
      (clientId & 0xFFFF) as bv16,
      [o.cmd] + o.payload)
  }

  lemma FrameOfDecodes(seqNo: U32, clientId: bv32, o: Outgoing)
    ensures Decode(FrameOf(seqNo, clientId, o)) == Some(MessageOf(seqNo, clientId, o))
  {
    var seqWord := if o.Reliable? then seqNo as bv32 else SeqUnreliable;
    var flags: bv8 := if o.Reliable? then FlagReliable else 0;
    assert FrameOf(seqNo, clientId, o) == Frame(seqWord, flags, clientId) + ([o.cmd] + o.payload);
    FrameDecodes(seqWord, flags, clientId, [o.cmd] + o.payload);
  }

  /** What the reliable-datagram layer n shows after it has sent outs, and
      nothing else, since the old state. */
  twostate predicate Emitted(n: Client, outs: seq<Outgoing>)
    reads n
  {
    n.sent == old(n.sent) + Frames(old(n.seqNo), old(n.clientId), outs) &&
    n.seqNo == SeqAfter(old(n.seqNo), outs) &&
    n.clientId == old(n.clientId) && n.expectedSeq == old(n.expectedSeq) &&
    n.queued == old(n.queued) && n.inbox == old(n.inbox)
  }

  /** Sends outs in order, each through sendreliable or sendunreliable. */
  method Emit(n: Client, outs: seq<Outgoing>)
    requires n.Valid()
    modifies n
    ensures n.Valid() && Emitted(n, outs)
  {
    ghost var sent0, seq0 := n.sent, n.seqNo;
    var i := 0;
    while i < |outs|
      invariant i <= |outs| && n.Valid()
      invariant sent0 + Frames(seq0, n.clientId, outs) == n.sent + Frames(n.seqNo, n.clientId, outs[i..])
      invariant SeqAfter(seq0, outs) == SeqAfter(n.seqNo, outs[i..])
      invariant n.clientId == old(n.clientId) && n.expectedSeq == old(n.expectedSeq)
      invariant n.queued == old(n.queued) && n.inbox == old(n.inbox)
    {
      ghost var before := n.seqNo;
      assert outs[i..] == [outs[i]] + outs[i + 1..];
      FramesAppend(before, n.clientId, [outs[i]], outs[i + 1..]);
      EmitOne(n, outs[i]);
      i := i + 1;
    }
    assert outs[i..] == [];
  }

  /** Sends one outgoing command through the send call its kind names. */
  method EmitOne(n: Client, o: Outgoing)
    requires n.Valid()
    modifies n
    ensures n.Valid() && Emitted(n, [o])
  {
    match o {
      case Reliable(cmd, payload) =>
        n.SendReliable(cmd, payload);
      case Unreliable(cmd, payload) =>
        n.SendUnreliable(cmd, payload);
    }
  }

  // ---------------------------------------------------------------------
  // think()

  /** What think decides for one frame: the next state, the commands it
      sends and whether it clears the waypoints. */
  datatype Decision = Decision(next: ConnState, outs: seq<Outgoing>, clearWaypoints: bool)

  /** The unit think asks for when it has no live local entity: 705 for
      team 1, 704 otherwise. */
  function UnitFor(local: Option<EntState>): bv16 {
    if local.Some? && local.value.attrs.team == 1 then 705 else 704
  }

  /** The local player entity: the entity the local client's entry names. */
  function LocalPlayer(t: Tables, local: int): Option<EntState> {
    GetEnt(t, LocalClient(t, local).playerEntityIndex)
  }

  /** The switch of think on the connection state, given the game tables,
      the game's local client number and whether the client is in game and
      connected (userclient::clientinfo is empty when not connected). */
  function Decide(state: ConnState, ingame: bool, connected: bool, t: Tables, local: int): (r: Decision)
    ensures forall o :: o in r.outs ==> o.Reliable? && o.cmd == CmdGamedata
    ensures |r.outs| <= 3
    ensures r.clearWaypoints ==> state == Playing && r.next == Spectating && r.outs == []
    ensures state !in {Spectating, Spawning, Playing} ==> r == Decision(state, [], false)
  {
    match state
    case Spectating =>
      var ping := if connected then LocalClient(t, local).ping else 0;
      if ingame && ping != 0 then Decision(Spawning, [TeamRequest(2), TeamRequest(1)], false)
      else Decision(Spectating, [], false)
    case Spawning =>
      var e := LocalPlayer(t, local);
      var unit := if e.None? || IsDormant(e.value.attrs) then [UnitRequest(UnitFor(e))] else [];
      if e.None? then Decision(Spawning, unit, false)
      else if IsAlive(e.value.attrs) then Decision(Playing, unit, false)
      else
        var bbi := TeamInfoOf(t, e.value.attrs.team).baseBuildingIndex;
        Decision(Spawning, unit + (if bbi != 0 then [PrepareSpawn(), SpawnRequest(Bits32(bbi))] else []), false)
    case Playing =>
      var e := LocalPlayer(t, local);
      if e.Some? && IsDormant(e.value.attrs) then Decision(Spectating, [], true)
      else Decision(Playing, [], false)
    case Disconnected => Decision(state, [], false)
    case Connecting => Decision(state, [], false)
    case LoadingWorld => Decision(state, [], false)
    case Ready => Decision(state, [], false)
    case WaitingFirstFrame => Decision(state, [], false)
  }

  /** think(): nothing when the current frame was already thought about;
      otherwise the frame is recorded and the decision taken. */
  function Think(s: Status, t: Tables, local: int): (r: (Status, Decision))
    ensures r.0 == s.(lastThinkFrame := s.currentFrame, state := r.1.next)
    ensures forall o :: o in r.1.outs ==> o.Reliable? && o.cmd == CmdGamedata
    ensures s.currentFrame == s.lastThinkFrame ==> r.1 == Decision(s.state, [], false)
  {
    if s.currentFrame == s.lastThinkFrame then (s, Decision(s.state, [], false))
    else
      var d := Decide(s.state, s.ingame, s.connected, t, local);
      (s.(lastThinkFrame := s.currentFrame, state := d.next), d)
  }

  /** think acts at most once per frame: thinking again before a new frame
      arrives changes nothing and sends nothing. */
  lemma ThinkOncePerFrame(s: Status, t: Tables, local: int)
    ensures var s1 := Think(s, t, local).0;
            s1.lastThinkFrame == s.currentFrame &&
            Think(s1, t, local) == (s1, Decision(s1.state, [], false))
  {
  }

  /** think touches only the state and the last frame, and its only state
      changes are Spectating to Spawning, Spawning to Playing and Playing to
      Spectating; so it keeps SessionOk. */
  lemma ThinkTransitions(s: Status, t: Tables, local: int)
    ensures var (s1, d) := Think(s, t, local);
            s1 == s.(state := s1.state, lastThinkFrame := s1.lastThinkFrame) && s1.state == d.next &&
            (s1.state == s.state ||
             (s.state == Spectating && s1.state == Spawning) ||
             (s.state == Spawning && s1.state == Playing) ||
             (s.state == Playing && s1.state == Spectating)) &&
            (d.clearWaypoints ==> s.state == Playing && s1.state == Spectating) &&
            (SessionOk(s) ==> SessionOk(s1))
  {
  }

  /** Spectating: the client asks to join team 2 and then team 1 and moves
      to Spawning exactly when it is in game, connected and its client
      entry shows a nonzero ping. */
  lemma SpectatingSpawns(ingame: bool, connected: bool, t: Tables, local: int)
    ensures var d := Decide(Spectating, ingame, connected, t, local);
            (d.next == Spawning <==> ingame && connected && LocalClient(t, local).ping != 0) &&
            d.outs == (if d.next == Spawning then [TeamRequest(2), TeamRequest(1)] else []) &&
            (d.next == Spawning || d.next == Spectating)
  {
  }

  /** Spawning: the client plays exactly when its player entity exists and
      is alive; it asks for a unit exactly when the entity is missing or
      dormant, and asks to spawn at its team's base exactly when the entity
      exists, is not alive and the team has a base building. */
  lemma SpawningPlays(ingame: bool, connected: bool, t: Tables, local: int)
    ensures var d := Decide(Spawning, ingame, connected, t, local);
            var e := LocalPlayer(t, local);
            (d.next == Playing <==> e.Some? && IsAlive(e.value.attrs)) &&
            (d.next == Playing || d.next == Spawning) &&
            ((e.None? || IsDormant(e.value.attrs)) <==> |d.outs| in {1, 3}) &&
            (|d.outs| in {1, 3} ==> d.outs[0] == UnitRequest(UnitFor(e))) &&
            (|d.outs| >= 2 <==> e.Some? && !IsAlive(e.value.attrs) && TeamInfoOf(t, e.value.attrs.team).baseBuildingIndex != 0) &&
            (|d.outs| >= 2 ==>
               d.outs[|d.outs| - 2..] == [PrepareSpawn(), SpawnRequest(Bits32(TeamInfoOf(t, e.value.attrs.team).baseBuildingIndex))])
  {
    var e := LocalPlayer(t, local);
    if e.Some? {
      AliveNotDormant(e.value.attrs);
    }
  }

  /** Playing: the client goes back to Spectating, clearing its waypoints,
      exactly when its player entity exists and is dormant; it sends
      nothing. */
  lemma PlayingSpectates(ingame: bool, connected: bool, t: Tables, local: int)
    ensures var d := Decide(Playing, ingame, connected, t, local);
            var e := LocalPlayer(t, local);
            (d.next == Spectating <==> e.Some? && IsDormant(e.value.attrs)) &&
            d.clearWaypoints == (d.next == Spectating) &&
            (d.next == Spectating || d.next == Playing) && d.outs == []
  {
  }
}
