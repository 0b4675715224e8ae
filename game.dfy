/*
 * The client's picture of the game world: the entity table kept up to date
 * from the entity records of server snapshots, and the per-client and
 * per-team tables fed by the three special entity types Entity_ClientInfo,
 * Entity_TeamInfo and Entity_GameInfo.
 *
 * The tables are maps held by value (std::map<int, entity> and friends).
 * The reference definitions (RecordSpec, SnapshotSpec) say what one entity
 * record and one whole snapshot do to them; the class Game reads the packet
 * step by step as the client does and is proved to agree with them.
 */
module Game {
  import opened Common
  import opened Packet
  import opened TypeRegistry
  import opened Entity
  import opened FieldBits
  import opened Snapshot

  /** TeamInfo: what the client keeps of an Entity_TeamInfo entity. */
  datatype TeamInfo = TeamInfo(baseBuildingIndex: nat)

  /** ClientInfo: what the client keeps of an Entity_ClientInfo entity. */
  datatype ClientInfo = ClientInfo(name: Bytes, clientNumber: int, playerEntityIndex: nat, ping: nat)

  /** The value-initialised structs the lookups return for a missing key. */
  const NoTeam: TeamInfo := TeamInfo(0)
  const NoClient: ClientInfo := ClientInfo([], 0, 0, 0)

  /** An entity as the game's table holds it: its type and the state
      updatefield and the Death message change. Its id is its key. */
  datatype EntState = EntState(entType: int, attrs: Attributes, killed: bool)

  /** The game's tables: mEntities, mTeams, mClients, mGameInfoEntNumber. */
  datatype Tables = Tables(
    ents: map<int, EntState>,
    teams: map<int, TeamInfo>,
    clients: map<int, ClientInfo>,
    gameInfoEnt: int)

  /** The tables of a fresh game, and after resetworld. */
  const EmptyTables: Tables := Tables(map[], map[], map[], -1)

  /** Every entity in the table has a type the schema knows: entities are
      only created after the schema lookup succeeded. */
  ghost predicate Consistent(schema: Schema, t: Tables)
  {
    forall id :: id in t.ents ==> t.ents[id].entType in schema
  }

  /** The bytes from index i on (nextdata() .. end). */
  function Suffix(data: Bytes, i: nat): (r: Bytes)
    ensures i <= |data| ==> |r| == |data| - i
  {
    if i <= |data| then data[i..] else []
  }

  // ---------------------------------------------------------------------
  // game::newentity

  /** newentity(id, type): a new entity with default attributes, unless one
      of the same type already has the id; one of another type is replaced. */
  function NewEntity(ents: map<int, EntState>, id: int, typ: int): map<int, EntState>
  {
    if id in ents && ents[id].entType == typ then ents
    else ents[id := EntState(typ, DefaultAttributes, false)]
  }

  /** Afterwards the id holds an entity of the requested type, every other
      id is untouched, and the entity is fresh exactly when the id was free
      or held another type. */
  lemma NewEntityProps(ents: map<int, EntState>, id: int, typ: int)
    ensures var r := NewEntity(ents, id, typ);
            r.Keys == ents.Keys + {id} && r[id].entType == typ &&
            (forall k :: k in ents && k != id ==> r[k] == ents[k]) &&
            (id in ents && ents[id].entType == typ ==> r[id] == ents[id]) &&
            (!(id in ents && ents[id].entType == typ) ==> r[id].attrs == DefaultAttributes && !r[id].killed)
  {
  }

  /** Asking twice for the same entity is the same as asking once. */
  lemma NewEntityIdempotent(ents: map<int, EntState>, id: int, typ: int)
    ensures NewEntity(NewEntity(ents, id, typ), id, typ) == NewEntity(ents, id, typ)
  {
  }

  // ---------------------------------------------------------------------
  // The per-variable switch of readentupdate

  /** One variable read off the wire: its value and the bytes it took, a
      read past the end of the packet, or a variable type the switch does
      not know (core::error). */
  datatype ValueRead = Value(v: FieldValue, width: nat) | ShortRead | BadType

  /** The wire width of each fixed-size variable type; strings are
      NUL-terminated and unknown types have none. */
  function FixedWidth(t: VarType): Option<nat>
  {
    match t
    case Byte | ByteFloat => Some(1)
    case Short | WordEntityIndex | WordHandle | WordAngle | WordFloat => Some(2)
    case Int | Single => Some(4)
    case WordVector3 => Some(6)
    case Qword => Some(8)
    case Vector3 => Some(12)
    case String | Unknown(_) => None
  }

  /** The value of a fixed-size variable of type t from its bytes b, as the
      switch converts it for updatefield. */
  function FixedValue(t: VarType, b: Bytes): FieldValue
    requires FixedWidth(t).Some? && |b| == FixedWidth(t).value
  {
    match t
    case Byte => Integral(b[0] as int, 1)
    case Short | WordEntityIndex | WordHandle | WordAngle => Integral(FromLE16(b) as int, 2)
    case Int => Integral(FromLE32(b) as int, 4)
    case Single => Floating(Raw(FromLE32(b)))
    case Qword => Integral(FromLE64(b) as int, 8)
    case Vector3 => Vector(Vec3(Raw(FromLE32(b[..4])), Raw(FromLE32(b[4..8])), Raw(FromLE32(b[8..]))))
    case WordFloat => Floating(FromInt(FromLE16(b) as int))
    case ByteFloat => Floating(Exact((b[0] as int as real) / 255.0))
    case WordVector3 => Vector(WordVec(b))
  }

  /** The value a variable of type t takes from the front of s. */
  function ReadValue(t: VarType, s: Bytes): (r: ValueRead)
    ensures r.Value? ==> 1 <= r.width <= |s|
    ensures r.BadType? <==> t.Unknown?
  {
    match FixedWidth(t)
    case Some(w) => if |s| < w then ShortRead else Value(FixedValue(t, s[..w]), w)
    case None =>
      if t.Unknown? then BadType
      else
        match CString(s)
        case None => ShortRead
        case Some(str) => Value(Text(str), |str| + 1)
  }

  /** A fixed-size variable is read exactly when its width is available,
      and then takes exactly its width. */
  lemma ReadValueWidth(t: VarType, s: Bytes)
    requires FixedWidth(t).Some?
    ensures ReadValue(t, s).Value? <==> FixedWidth(t).value <= |s|
    ensures ReadValue(t, s).Value? ==> ReadValue(t, s).width == FixedWidth(t).value
  {
  }

  /** A string variable takes its bytes and the terminator. */
  lemma ReadValueString(str: Bytes, rest: Bytes)
    requires NoZero(str)
    ensures ReadValue(String, str + [0] + rest) == Value(Text(str), |str| + 1)
  {
    CStringOfTerminated(str, rest);
  }

  /** Integers written little-endian read back as the same number, tagged
      with the width of their C++ type. */
  lemma ReadValueIntegers(b: bv8, w: bv16, d: bv32, q: bv64, rest: Bytes)
    ensures ReadValue(Byte, [b] + rest) == Value(Integral(b as int, 1), 1)
    ensures ReadValue(Short, LE16(w) + rest) == Value(Integral(w as int, 2), 2)
    ensures ReadValue(Int, LE32(d) + rest) == Value(Integral(d as int, 4), 4)
    ensures ReadValue(Qword, LE64(q) + rest) == Value(Integral(q as int, 8), 8)
  {
    LE16RoundTrip(w, []);
    LE32RoundTrip(d, []);
    LE64RoundTrip(q, []);
    assert (LE16(w) + rest)[..2] == LE16(w);
    assert (LE32(d) + rest)[..4] == LE32(d);
    assert (LE64(q) + rest)[..8] == LE64(q);
  }

  /** A value depends only on the bytes it takes: bytes after it make no
      difference. */
  lemma ReadValueExtend(t: VarType, s: Bytes, more: Bytes)
    requires ReadValue(t, s).Value?
    ensures ReadValue(t, s + more) == ReadValue(t, s)
  {
    match FixedWidth(t)
    case Some(w) =>
      assert (s + more)[..w] == s[..w];
    case None =>
      var str := CString(s).value;
      assert s == str + [0] + s[|str| + 1..];
      assert s + more == str + [0] + (s[|str| + 1..] + more);
      CStringOfTerminated(str, s[|str| + 1..] + more);
  }

  // ---------------------------------------------------------------------
  // The loop over the present variables

  /** How a list of variables was read: completely, up to a read past the
      end of the packet, or up to a variable of unknown type. */
  datatype VarsStatus = Complete | VarsShort | VarsBadType

  /** The attributes after the values read so far, the bytes they took,
      and how the reading ended. */
  datatype VarsRead = VarsRead(attrs: Attributes, used: nat, status: VarsStatus)

  /** The loop of readentupdate: each variable in turn reads its value and
      passes it to updatefield under the variable's name. */
  function ApplyVars(a: Attributes, vars: seq<VarInfo>, s: Bytes): (r: VarsRead)
    ensures r.used <= |s|
    decreases |vars|
  {
    if vars == [] then VarsRead(a, 0, Complete)
    else
      match ReadValue(vars[0].vtype, s)
      case ShortRead => VarsRead(a, 0, VarsShort)
      case BadType => VarsRead(a, 0, VarsBadType)
      case Value(v, w) =>
        var rest := ApplyVars(Update(a, vars[0].name, v), vars[1..], s[w..]);
        rest.(used := w + rest.used)
  }

  /** An attribute that none of the variables names keeps its value. */
  lemma {:induction false} ApplyVarsOthers(a: Attributes, vars: seq<VarInfo>, s: Bytes, g: Field)
    requires forall i :: 0 <= i < |vars| ==> vars[i].name != NameOf(g)
    ensures Get(ApplyVars(a, vars, s).attrs, g) == Get(a, g)
    decreases |vars|
  {
    if vars != [] {
      match ReadValue(vars[0].vtype, s)
      case ShortRead =>
      case BadType =>
      case Value(v, w) =>
        UpdateOthers(a, vars[0].name, v, g);
        ApplyVarsOthers(Update(a, vars[0].name, v), vars[1..], s[w..], g);
    }
  }

  /** Variables whose names no attribute carries change nothing. */
  lemma ApplyVarsUnknownNames(a: Attributes, vars: seq<VarInfo>, s: Bytes)
    requires forall i, f: Field :: 0 <= i < |vars| ==> vars[i].name != NameOf(f)
    ensures ApplyVars(a, vars, s).attrs == a
  {
    var b := ApplyVars(a, vars, s).attrs;
    forall g: Field
      ensures Get(b, g) == Get(a, g)
    {
      ApplyVarsOthers(a, vars, s, g);
    }
    GetExtensional(b, a);
  }

  // ---------------------------------------------------------------------
  // game::readentupdate

  /** The variables a record carries for an entity of type ti, and the
      bytes of the presence bits in front of them (decodefieldsbitarray). */
  function PresentVars(ti: TypeInfo, s: Bytes, version: bv32): (r: Option<(seq<VarInfo>, nat)>)
    ensures r.Some? ==> r.value.1 <= |s|
  {
    var A := ApplicableVars(ti.vars, version);
    if |A| == 0 then Some(([], 0))
    else
      match DecompSpec(|A|, s)
      case None => None
      case Some((F, n)) =>
        Pow2CeilLeast(|A|, 0);
        Some((Pick(A, F), n))
  }

  /** The special types whose entities feed the client, team and game
      tables after each update (updateclient, updategame, updateteam). */
  function Publish(typname: string, id: int, a: Attributes, t: Tables): Tables
  {
    if typname == "Entity_ClientInfo" then
      t.(clients := t.clients[a.clientNumber := ClientInfo(a.name, a.clientNumber, a.playerEntityIndex, a.ping)])
    else if typname == "Entity_GameInfo" then t.(gameInfoEnt := id)
    else if typname == "Entity_TeamInfo" then t.(teams := t.teams[a.teamId := TeamInfo(a.baseBuildingIndex)])
    else t
  }

  /** How reading stopped short: a read past the end of the packet, a
      variable of unknown type (core::error, which ends the program), or
      a record loop that was still running when its fuel ran out. */
  datatype Failure = OutOfData | Fatal | OutOfFuel

  /** readentupdate's result, or how it failed. */
  datatype Outcome = Done(ok: bool) | Failed(why: Failure)

  /** The outcome of one record, the tables after it and the read index
      after it. Tables and index mean something only when it is Done. */
  datatype RecordResult = RecordResult(outcome: Outcome, tables: Tables, idx: nat)

  /** The variables of a record read into the attributes a: P is the list
      of present variables and the length of the presence bits in front of
      them, None when those could not be read. `used` counts the presence
      bits too. */
  function ReadVars(a: Attributes, P: Option<(seq<VarInfo>, nat)>, s: Bytes): (r: VarsRead)
    requires P.Some? ==> P.value.1 <= |s|
    ensures r.used <= |s|
  {
    if P.None? then VarsRead(a, 0, VarsShort)
    else
      var R := ApplyVars(a, P.value.0, s[P.value.1..]);
      VarsRead(R.attrs, P.value.1 + R.used, R.status)
  }

  /** The tables once entity id has the attributes a: the entity is
      stored, then published if its type is one of the special ones. */
  function Store(t: Tables, id: int, typname: string, a: Attributes): Tables
    requires id in t.ents
  {
    Publish(typname, id, a, t.(ents := t.ents[id := t.ents[id].(attrs := a)]))
  }

  /** The update of entity id from the bytes at j on. */
  function UpdateSpec(schema: Schema, t: Tables, id: int, data: Bytes, j: nat): (r: RecordResult)
    requires id in t.ents && t.ents[id].entType in schema && j <= |data|
    ensures r.outcome.Done? ==> r.outcome.ok && j <= r.idx <= |data|
  {
    var ti := schema[t.ents[id].entType];
    var R := ReadVars(t.ents[id].attrs, PresentVars(ti, data[j..], DefaultVersion), data[j..]);
    if R.status == VarsBadType then RecordResult(Failed(Fatal), t, j)
    else if R.status == VarsShort then RecordResult(Failed(OutOfData), t, j)
    else RecordResult(Done(true), Store(t, id, ti.name, R.attrs), j + R.used)
  }

  /** readentupdate(pkt, client) on the bytes of data from index i. The
      head word carries the baseline bit (bit 0) and the entity id (the
      rest). */
  function RecordSpec(schema: Schema, t: Tables, data: Bytes, i: nat, client: int): (r: RecordResult)
    requires Consistent(schema, t)
    ensures r.outcome.Done? ==> r.idx <= |data|
  {
    if |data| < i + 2 then RecordResult(Failed(OutOfData), t, i)
    else
      var head := FromLE16(data[i..i + 2]);
      if Baseline(head) then BaselineSpec(schema, t, data, i, EntId(head), client)
      else DeltaSpec(schema, t, data, i, EntId(head))
  }

  /** A baseline record names the entity's type after the head: type 0
      deletes the entity; otherwise, when the caller passed client -1, a
      client number dword follows (read and dropped); then a type the schema
      lacks skips the rest of the packet, and a known type creates the
      entity (or keeps it) and updates it. */
  function BaselineSpec(schema: Schema, t: Tables, data: Bytes, i: nat, id: int, client: int): (r: RecordResult)
    requires Consistent(schema, t) && i + 2 <= |data|
    ensures r.outcome.Done? ==> r.idx <= |data|
  {
    if |data| < i + 4 then RecordResult(Failed(OutOfData), t, i)
    else
      var typ := FromLE16(data[i + 2..i + 4]) as int;
      if typ == 0 then RecordResult(Done(true), t.(ents := t.ents - {id}), i + 4)
      else
        var j := if client == -1 then i + 8 else i + 4;
        if |data| < j then RecordResult(Failed(OutOfData), t, i)
        else if typ !in schema then RecordResult(Done(false), t, |data|)
        else UpdateSpec(schema, t.(ents := NewEntity(t.ents, id, typ)), id, data, j)
  }

  /** Any other record updates an entity already in the table. Id 0 is
      skipped after the head. For an id not in the table the reader seeks to
      pkt.remaining(): the absolute index equal to the number of bytes left
      after the head, which may lie before the record itself. */
  function DeltaSpec(schema: Schema, t: Tables, data: Bytes, i: nat, id: int): (r: RecordResult)
    requires Consistent(schema, t) && i + 2 <= |data|
    ensures r.outcome.Done? ==> r.idx <= |data|
  {
    if id == 0 then RecordResult(Done(false), t, i + 2)
    else if id !in t.ents then RecordResult(Done(false), t, |data| - (i + 2))
    else UpdateSpec(schema, t, id, data, i + 2)
  }

  /** Publishing touches only the client, team and game tables. */
  lemma PublishKeepsEnts(typname: string, id: int, a: Attributes, t: Tables)
    ensures Publish(typname, id, a, t).ents == t.ents
  {
  }

  /** An applied record leaves every entity in the table with a type the
      schema knows. */
  lemma RecordConsistent(schema: Schema, t: Tables, data: Bytes, i: nat, client: int)
    requires Consistent(schema, t)
    ensures var r := RecordSpec(schema, t, data, i, client);
            r.outcome.Done? ==> Consistent(schema, r.tables)
  {
    if |data| >= i + 2 {
      var head := FromLE16(data[i..i + 2]);
      if Baseline(head) {
        BaselineConsistent(schema, t, data, i, EntId(head), client);
      } else {
        DeltaConsistent(schema, t, data, i, EntId(head));
      }
    }
  }

  lemma BaselineConsistent(schema: Schema, t: Tables, data: Bytes, i: nat, id: int, client: int)
    requires Consistent(schema, t) && i + 2 <= |data|
    ensures var r := BaselineSpec(schema, t, data, i, id, client);
            r.outcome.Done? ==> Consistent(schema, r.tables)
  {
    if |data| >= i + 4 {
      var typ := FromLE16(data[i + 2..i + 4]) as int;
      var j := if client == -1 then i + 8 else i + 4;
      if typ == 0 {
        KeysConsistent(schema, t, t.(ents := t.ents - {id}));
      } else if j <= |data| && typ in schema {
        NewEntityConsistent(schema, t, id, typ);
        UpdateConsistent(schema, t.(ents := NewEntity(t.ents, id, typ)), id, data, j);
      }
    }
  }

  /** Dropping entities keeps the table consistent. */
  lemma KeysConsistent(schema: Schema, t: Tables, u: Tables)
    requires Consistent(schema, t) && u.ents.Keys <= t.ents.Keys
    requires forall k :: k in u.ents ==> u.ents[k] == t.ents[k]
    ensures Consistent(schema, u)
  {
  }

  /** Creating an entity of a type the schema knows keeps the table consistent. */
  lemma NewEntityConsistent(schema: Schema, t: Tables, id: int, typ: int)
    requires Consistent(schema, t) && typ in schema
    ensures Consistent(schema, t.(ents := NewEntity(t.ents, id, typ)))
  {
    if !(id in t.ents && t.ents[id].entType == typ) {
      StoreConsistent(schema, t, id, EntState(typ, DefaultAttributes, false));
    }
  }

  /** Storing an entity of a type the schema knows keeps the table consistent. */
  lemma StoreConsistent(schema: Schema, t: Tables, id: int, e: EntState)
    requires Consistent(schema, t) && e.entType in schema
    ensures Consistent(schema, t.(ents := t.ents[id := e]))
  {
    var u := t.(ents := t.ents[id := e]);
    forall k | k in u.ents
      ensures u.ents[k].entType in schema
    {
      if k != id {
        assert u.ents[k] == t.ents[k];
      }
    }
  }

  lemma DeltaConsistent(schema: Schema, t: Tables, data: Bytes, i: nat, id: int)
    requires Consistent(schema, t) && i + 2 <= |data|
    ensures var r := DeltaSpec(schema, t, data, i, id);
            r.outcome.Done? ==> Consistent(schema, r.tables)
  {
    if id != 0 && id in t.ents {
      UpdateConsistent(schema, t, id, data, i + 2);
    }
  }

  /** Updating an entity keeps every entity's type. */
  lemma UpdateConsistent(schema: Schema, t: Tables, id: int, data: Bytes, j: nat)
    requires Consistent(schema, t) && id in t.ents && t.ents[id].entType in schema && j <= |data|
    ensures var r := UpdateSpec(schema, t, id, data, j);
            r.outcome.Done? ==> Consistent(schema, r.tables)
  {
    var r := UpdateSpec(schema, t, id, data, j);
    if r.outcome.Done? {
      var ti := schema[t.ents[id].entType];
      var a := ReadVars(t.ents[id].attrs, PresentVars(ti, data[j..], DefaultVersion), data[j..]).attrs;
      StoreConsistent(schema, t, id, t.ents[id].(attrs := a));
      StoreKeeps(t, id, ti.name, a);
    }
  }

  /** Storing changes entity id's attributes and nothing else in the entity
      table. */
  lemma StoreKeeps(t: Tables, id: int, typname: string, a: Attributes)
    requires id in t.ents
    ensures Store(t, id, typname, a).ents == t.ents[id := t.ents[id].(attrs := a)]
  {
    PublishKeepsEnts(typname, id, a, t.(ents := t.ents[id := t.ents[id].(attrs := a)]));
  }

  // ---------------------------------------------------------------------
  // What one record does

  /** The entity a record's head word names. */
  function RecordId(data: Bytes, i: nat): int
    requires i + 2 <= |data|
  {
    EntId(FromLE16(data[i..i + 2]))
  }

  /** Every other entity is left as it was. */
  ghost predicate OthersKept(t: Tables, u: Tables, id: int)
  {
    forall k :: k != id ==> (k in u.ents <==> k in t.ents) && (k in t.ents ==> u.ents[k] == t.ents[k])
  }

  /** A record changes at most the entity its head names. */
  lemma RecordOnlyItsEntity(schema: Schema, t: Tables, data: Bytes, i: nat, client: int)
    requires Consistent(schema, t)
    ensures var r := RecordSpec(schema, t, data, i, client);
            r.outcome.Done? ==> OthersKept(t, r.tables, RecordId(data, i))
  {
    if i + 2 <= |data| {
      var id := RecordId(data, i);
      if Baseline(FromLE16(data[i..i + 2])) {
        BaselineOnlyItsEntity(schema, t, data, i, id, client);
      } else if id != 0 && id in t.ents {
        UpdateOnlyItsEntity(schema, t, id, data, i + 2);
      }
    }
  }

  lemma BaselineOnlyItsEntity(schema: Schema, t: Tables, data: Bytes, i: nat, id: int, client: int)
    requires Consistent(schema, t) && i + 2 <= |data|
    ensures var r := BaselineSpec(schema, t, data, i, id, client);
            r.outcome.Done? ==> OthersKept(t, r.tables, id)
  {
    if |data| >= i + 4 {
      var typ := FromLE16(data[i + 2..i + 4]) as int;
      var j := if client == -1 then i + 8 else i + 4;
      if typ != 0 && j <= |data| && typ in schema {
        var t' := t.(ents := NewEntity(t.ents, id, typ));
        NewEntityConsistent(schema, t, id, typ);
        UpdateOnlyItsEntity(schema, t', id, data, j);
        OthersKeptTrans(t, t', UpdateSpec(schema, t', id, data, j).tables, id);
      }
    }
  }

  lemma OthersKeptTrans(t: Tables, u: Tables, w: Tables, id: int)
    requires OthersKept(t, u, id) && OthersKept(u, w, id)
    ensures OthersKept(t, w, id)
  {
  }

  lemma UpdateOnlyItsEntity(schema: Schema, t: Tables, id: int, data: Bytes, j: nat)
    requires id in t.ents && t.ents[id].entType in schema && j <= |data|
    ensures var r := UpdateSpec(schema, t, id, data, j);
            r.outcome.Done? ==> r.tables.ents.Keys == t.ents.Keys && OthersKept(t, r.tables, id)
  {
    var r := UpdateSpec(schema, t, id, data, j);
    if r.outcome.Done? {
      var ti := schema[t.ents[id].entType];
      StoreKeeps(t, id, ti.name, ReadVars(t.ents[id].attrs, PresentVars(ti, data[j..], DefaultVersion), data[j..]).attrs);
    }
  }

  /** Reading variables none of which names attribute g leaves g as it was. */
  lemma ReadVarsOthers(a: Attributes, P: Option<(seq<VarInfo>, nat)>, s: Bytes, g: Field)
    requires P.Some? ==> P.value.1 <= |s|
    requires P.Some? ==> forall k :: 0 <= k < |P.value.0| ==> P.value.0[k].name != NameOf(g)
    ensures Get(ReadVars(a, P, s).attrs, g) == Get(a, g)
  {
    if P.Some? {
      ApplyVarsOthers(a, P.value.0, s[P.value.1..], g);
    }
  }

  /** A record carries only variables the type declares for the version. */
  lemma PresentVarsDeclared(ti: TypeInfo, s: Bytes, version: bv32)
    ensures var P := PresentVars(ti, s, version);
            P.Some? ==> forall k :: 0 <= k < |P.value.0| ==> P.value.0[k] in ti.vars && Applicable(P.value.0[k], version)
  {
    var P := PresentVars(ti, s, version);
    if P.Some? {
      forall k | 0 <= k < |P.value.0|
        ensures P.value.0[k] in ti.vars && Applicable(P.value.0[k], version)
      {
        PresentVarsIn(ti, s, version, P.value.0[k]);
      }
    }
  }

  lemma PresentVarsIn(ti: TypeInfo, s: Bytes, version: bv32, v: VarInfo)
    requires PresentVars(ti, s, version).Some? && v in PresentVars(ti, s, version).value.0
    ensures v in ti.vars && Applicable(v, version)
  {
    var A := ApplicableVars(ti.vars, version);
    var F := DecompSpec(|A|, s).value.0;
    Pow2CeilLeast(|A|, 0);
    PickIn(A, F, v);
    ApplicableMembers(ti.vars, version, v);
  }

  /** An update keeps the entity's type and killed flag, and changes only
      attributes that some variable of the type's schema names. */
  lemma UpdateOnlyDeclared(schema: Schema, t: Tables, id: int, data: Bytes, j: nat, g: Field)
    requires id in t.ents && t.ents[id].entType in schema && j <= |data|
    requires forall v :: v in schema[t.ents[id].entType].vars ==> v.name != NameOf(g)
    ensures var r := UpdateSpec(schema, t, id, data, j);
            r.outcome.Done? ==>
              id in r.tables.ents && r.tables.ents[id].entType == t.ents[id].entType &&
              r.tables.ents[id].killed == t.ents[id].killed &&
              Get(r.tables.ents[id].attrs, g) == Get(t.ents[id].attrs, g)
  {
    var r := UpdateSpec(schema, t, id, data, j);
    if r.outcome.Done? {
      var ti := schema[t.ents[id].entType];
      var P := PresentVars(ti, data[j..], DefaultVersion);
      PresentVarsDeclared(ti, data[j..], DefaultVersion);
      ReadVarsOthers(t.ents[id].attrs, P, data[j..], g);
      StoreKeeps(t, id, ti.name, ReadVars(t.ents[id].attrs, PresentVars(ti, data[j..], DefaultVersion), data[j..]).attrs);
    }
  }

  /** After an update of an Entity_ClientInfo entity, the client table's
      entry for the entity's client number mirrors the entity. */
  lemma UpdatePublishesClient(schema: Schema, t: Tables, id: int, data: Bytes, j: nat)
    requires id in t.ents && t.ents[id].entType in schema && j <= |data|
    requires schema[t.ents[id].entType].name == "Entity_ClientInfo"
    ensures var r := UpdateSpec(schema, t, id, data, j);
            r.outcome.Done? ==>
              var a := r.tables.ents[id].attrs;
              a.clientNumber in r.tables.clients &&
              r.tables.clients[a.clientNumber] == ClientInfo(a.name, a.clientNumber, a.playerEntityIndex, a.ping) &&
              r.tables.teams == t.teams && r.tables.gameInfoEnt == t.gameInfoEnt
  {
  }

  /** After an update of an Entity_TeamInfo entity, the team table's entry
      for the entity's team id holds its base building index. */
  lemma UpdatePublishesTeam(schema: Schema, t: Tables, id: int, data: Bytes, j: nat)
    requires id in t.ents && t.ents[id].entType in schema && j <= |data|
    requires schema[t.ents[id].entType].name == "Entity_TeamInfo"
    ensures var r := UpdateSpec(schema, t, id, data, j);
            r.outcome.Done? ==>
              var a := r.tables.ents[id].attrs;
              a.teamId in r.tables.teams && r.tables.teams[a.teamId] == TeamInfo(a.baseBuildingIndex) &&
              r.tables.clients == t.clients && r.tables.gameInfoEnt == t.gameInfoEnt
  {
  }

  /** After an update of an Entity_GameInfo entity, it is the game info entity. */
  lemma UpdatePublishesGame(schema: Schema, t: Tables, id: int, data: Bytes, j: nat)
    requires id in t.ents && t.ents[id].entType in schema && j <= |data|
    requires schema[t.ents[id].entType].name == "Entity_GameInfo"
    ensures var r := UpdateSpec(schema, t, id, data, j);
            r.outcome.Done? ==> r.tables.gameInfoEnt == id && r.tables.clients == t.clients && r.tables.teams == t.teams
  {
  }

  /** A baseline record of type 0 deletes the entity (whether or not it
      exists) and reads four bytes. */
  lemma RecordDeletes(schema: Schema, t: Tables, data: Bytes, i: nat, client: int)
    requires Consistent(schema, t) && i + 4 <= |data|
    requires Baseline(FromLE16(data[i..i + 2])) && FromLE16(data[i + 2..i + 4]) == 0
    ensures RecordSpec(schema, t, data, i, client) ==
            RecordResult(Done(true), t.(ents := t.ents - {RecordId(data, i)}), i + 4)
  {
  }

  /** A baseline record of a type the schema lacks changes nothing, skips
      the rest of the packet and reports false. */
  lemma RecordSkipsUnknownType(schema: Schema, t: Tables, data: Bytes, i: nat, client: int)
    requires Consistent(schema, t) && i + 8 <= |data|
    requires Baseline(FromLE16(data[i..i + 2]))
    requires var typ := FromLE16(data[i + 2..i + 4]) as int; typ != 0 && typ !in schema
    ensures RecordSpec(schema, t, data, i, client) == RecordResult(Done(false), t, |data|)
  {
  }

  /** A non-baseline record for an id the table lacks changes nothing and
      moves the read index to |data| - (i + 2). */
  lemma RecordMissingEntitySeeks(schema: Schema, t: Tables, data: Bytes, i: nat, client: int)
    requires Consistent(schema, t) && MissingEntity(t, data, i)
    ensures RecordSpec(schema, t, data, i, client) == RecordResult(Done(false), t, |data| - (i + 2))
  {
  }

  // ---------------------------------------------------------------------
  // The missing-entity seek: as written and as intended

  /** The record at i is a delta record for a nonzero id the table lacks. */
  predicate MissingEntity(t: Tables, data: Bytes, i: nat)
  {
    i + 2 <= |data| && !Baseline(FromLE16(data[i..i + 2])) && RecordId(data, i) != 0 && RecordId(data, i) !in t.ents
  }

  /** readentupdate as evidently intended: a record for a missing entity
      skips the rest of the packet, as a baseline of an unknown type does. */
  function RecordIntended(schema: Schema, t: Tables, data: Bytes, i: nat, client: int): (r: RecordResult)
    requires Consistent(schema, t)
    ensures r.outcome.Done? ==> r.idx <= |data| && Consistent(schema, r.tables)
  {
    RecordConsistent(schema, t, data, i, client);
    if MissingEntity(t, data, i) then RecordResult(Done(false), t, |data|)
    else RecordSpec(schema, t, data, i, client)
  }

  /** The record loop of rcvserversnapshot over RecordIntended. */
  function RecordsIntended(schema: Schema, t: Tables, data: Bytes, p0: nat, i: nat, length: nat, client: int, fuel: nat): (r: RecordResult)
    requires Consistent(schema, t)
    decreases fuel
  {
    if (i - p0) % SizeMod >= length then RecordResult(Done(true), t, i)
    else if fuel == 0 then RecordResult(Failed(OutOfFuel), t, i)
    else
      var R := RecordIntended(schema, t, data, i, client);
      if R.outcome.Failed? then R
      else RecordsIntended(schema, R.tables, data, p0, R.idx, length, client, fuel - 1)
  }

  /** With the intended skip every record that is read moves the read index
      forward, and a record never fails for want of fuel. */
  lemma RecordProgress(schema: Schema, t: Tables, data: Bytes, i: nat, client: int)
    requires Consistent(schema, t)
    ensures var R := RecordIntended(schema, t, data, i, client);
            R.outcome != Failed(OutOfFuel) && (R.outcome.Done? ==> i < R.idx <= |data|)
  {
    if i + 2 <= |data| && !MissingEntity(t, data, i) {
      var head := FromLE16(data[i..i + 2]);
      if Baseline(head) {
        BaselineProgress(schema, t, data, i, EntId(head), client);
      } else {
        DeltaProgress(schema, t, data, i, EntId(head));
      }
    }
  }

  lemma BaselineProgress(schema: Schema, t: Tables, data: Bytes, i: nat, id: int, client: int)
    requires Consistent(schema, t) && i + 2 <= |data|
    ensures var R := BaselineSpec(schema, t, data, i, id, client);
            R.outcome != Failed(OutOfFuel) && (R.outcome.Done? ==> i < R.idx)
  {
    if |data| >= i + 4 {
      var typ := FromLE16(data[i + 2..i + 4]) as int;
      var j := if client == -1 then i + 8 else i + 4;
      if typ != 0 && j <= |data| && typ in schema {
        NewEntityConsistent(schema, t, id, typ);
        NewEntityProps(t.ents, id, typ);
        UpdateProgress(schema, t.(ents := NewEntity(t.ents, id, typ)), id, data, j);
      }
    }
  }

  lemma DeltaProgress(schema: Schema, t: Tables, data: Bytes, i: nat, id: int)
    requires Consistent(schema, t) && i + 2 <= |data| && (id == 0 || id in t.ents)
    ensures var R := DeltaSpec(schema, t, data, i, id);
            R.outcome != Failed(OutOfFuel) && (R.outcome.Done? ==> i < R.idx)
  {
    if id != 0 {
      UpdateProgress(schema, t, id, data, i + 2);
    }
  }

  /** An update never moves the read index back. */
  lemma UpdateProgress(schema: Schema, t: Tables, id: int, data: Bytes, j: nat)
    requires Consistent(schema, t) && id in t.ents && j <= |data|
    ensures var R := UpdateSpec(schema, t, id, data, j);
            R.outcome != Failed(OutOfFuel) && (R.outcome.Done? ==> j <= R.idx)
  {
  }

  /** Since with the intended skip every record moves forward and none ends
      past the packet, the record loop stops within |data| + 1 - i records:
      it never runs out of fuel when given that many. */
  lemma {:induction false} RecordsTerminate(schema: Schema, t: Tables, data: Bytes, p0: nat, i: nat, length: nat, client: int, fuel: nat)
    requires Consistent(schema, t) && i <= |data| < i + fuel
    ensures RecordsIntended(schema, t, data, p0, i, length, client, fuel).outcome != Failed(OutOfFuel)
    decreases fuel
  {
    if (i - p0) % SizeMod < length && fuel > 0 {
      var R := RecordIntended(schema, t, data, i, client);
      RecordProgress(schema, t, data, i, client);
      if R.outcome.Done? {
        RecordsTerminate(schema, R.tables, data, p0, R.idx, length, client, fuel - 1);
      }
    }
  }

  /** As written, a record for a missing entity at index i of a packet of
      2 * i + 2 bytes seeks back to i, and the loop reads that record again
      and again: however much fuel it is given, it never finishes. */
  lemma {:induction false} AsWrittenSeekLoops(schema: Schema, t: Tables, data: Bytes, p0: nat, i: nat, length: nat, client: int, fuel: nat)
    requires Consistent(schema, t) && |data| == 2 * i + 2 && MissingEntity(t, data, i)
    requires (i - p0) % SizeMod < length
    ensures RecordsSpec(schema, t, data, p0, i, length, client, fuel).outcome == Failed(OutOfFuel)
    decreases fuel
  {
    if fuel > 0 {
      RecordMissingEntitySeeks(schema, t, data, i, client);
      AsWrittenSeekLoops(schema, t, data, p0, i, length, client, fuel - 1);
    }
  }

  /** A 38-byte packet whose records start at byte 18 (just past a snapshot
      header and a zero event count) with the delta record of entity 1 on an
      empty table: as written it is read forever; with the intended skip the
      loop ends after it. */
  lemma SeekLoopExample(schema: Schema, fuel: nat)
    ensures var data: Bytes := seq(38, k => if k == 18 then 2 else 0);
            RecordsSpec(schema, EmptyTables, data, 0, 18, 38, 0, fuel).outcome == Failed(OutOfFuel) &&
            RecordsIntended(schema, EmptyTables, data, 0, 18, 38, 0, 1) == RecordResult(Done(true), EmptyTables, 38)
  {
    var data: Bytes := seq(38, k => if k == 18 then 2 else 0);
    assert data[18..20] == [2, 0];
    assert FromLE16(data[18..20]) == 2;
    AsWrittenSeekLoops(schema, EmptyTables, data, 0, 18, 38, 0, fuel);
    SkipFinishes(schema, EmptyTables, data, 0, 18, 38, 0);
  }

  /** The same record with the intended skip to the end of the packet: the
      loop finishes after it, the table unchanged. */
  lemma SkipFinishes(schema: Schema, t: Tables, data: Bytes, p0: nat, i: nat, length: nat, client: int)
    requires Consistent(schema, t) && |data| == 2 * i + 2 && p0 <= i && MissingEntity(t, data, i)
    requires (i - p0) % SizeMod < length <= |data| - p0 < SizeMod
    ensures RecordsIntended(schema, t, data, p0, i, length, client, 1) == RecordResult(Done(true), t, |data|)
  {
  }

  // ---------------------------------------------------------------------
  // game::rcvserversnapshot

  /** The header rcvserversnapshot returns. The events it holds are the
      value-initialised ones resize() makes: the events read off the wire
      are parsed into a local and dropped. */
  datatype ServerSnapshotHdr = ServerSnapshotHdr(
    frameId: bv32,
    prevFrameId: bv32,
    timestamp: bv32,
    lastReceivedClientTimestamp: bv32,
    stateStringSequence: bv8,
    events: seq<GameEvent>)

  /** A value-initialised event: no flag set. */
  const NoEvent: GameEvent := GameEvent(0, None, None, None, None, None, None, None, None, None, None, None)

  /** The first 17 bytes of a snapshot: four little-endian dwords and the
      state string sequence byte. */
  function EncodeHdr(h: ServerSnapshotHdr): (r: Bytes)
    ensures |r| == 17
  {
    LE32(h.frameId) + LE32(h.prevFrameId) + LE32(h.timestamp) + LE32(h.lastReceivedClientTimestamp) + [h.stateStringSequence]
  }

  /** The header held by the first 17 bytes of a snapshot, before any event. */
  function DecodeHdr(b: Bytes): ServerSnapshotHdr
    requires |b| == 17
  {
    ServerSnapshotHdr(FromLE32(b[0..4]), FromLE32(b[4..8]), FromLE32(b[8..12]), FromLE32(b[12..16]), b[16], [])
  }

  /** Decoding an encoded header gives it back, without its events. */
  lemma DecodeEncodeHdr(h: ServerSnapshotHdr)
    ensures DecodeHdr(EncodeHdr(h)) == h.(events := [])
  {
    var e := EncodeHdr(h);
    LE32RoundTrip(h.frameId, []);
    LE32RoundTrip(h.prevFrameId, []);
    LE32RoundTrip(h.timestamp, []);
    LE32RoundTrip(h.lastReceivedClientTimestamp, []);
    assert e[0..4] == LE32(h.frameId) && e[4..8] == LE32(h.prevFrameId);
    assert e[8..12] == LE32(h.timestamp) && e[12..16] == LE32(h.lastReceivedClientTimestamp);
  }

  /** Encoding a decoded header gives back its 17 bytes. */
  lemma EncodeDecodeHdr(b: Bytes)
    requires |b| == 17
    ensures EncodeHdr(DecodeHdr(b)) == b
  {
    LE32RoundTrip(0, b[0..4]);
    LE32RoundTrip(0, b[4..8]);
    LE32RoundTrip(0, b[8..12]);
    LE32RoundTrip(0, b[12..16]);
    assert b == b[0..4] + b[4..8] + b[8..12] + b[12..16] + [b[16]];
  }

  /** The header at index i of data, field by field. */
  lemma DecodeHdrAt(data: Bytes, i: nat)
    requires i + 17 <= |data|
    ensures DecodeHdr(data[i..i + 17]) ==
            ServerSnapshotHdr(FromLE32(data[i..i + 4]), FromLE32(data[i + 4..i + 8]), FromLE32(data[i + 8..i + 12]),
                              FromLE32(data[i + 12..i + 16]), data[i + 16], [])
  {
    var b := data[i..i + 17];
    assert forall k | 0 <= k < 4 :: b[4..8][k] == b[4 + k] == data[i + 4 + k] == data[i + 4..i + 8][k];
    assert forall k | 0 <= k < 4 :: b[8..12][k] == b[8 + k] == data[i + 8 + k] == data[i + 8..i + 12][k];
    assert forall k | 0 <= k < 4 :: b[12..16][k] == b[12 + k] == data[i + 12 + k] == data[i + 12..i + 16][k];
  }

  /** The bytes taken by the game event at the front of s, as its flags
      word gives them; None when s ends first. */
  function EventLength(s: Bytes): (r: Option<nat>)
    ensures r.Some? ==> 2 <= r.value <= |s|
  {
    if |s| < 2 then None
    else
      var size := EventSize(FromLE16(s[..2]));
      if |s| < size then None else Some(size)
  }

  /** An event decodes exactly when its length can be read, and it takes
      that length. */
  lemma DecodeEventLength(s: Bytes)
    ensures DecodeEvent(s).Some? <==> EventLength(s).Some?
    ensures DecodeEvent(s).Some? ==> DecodeEvent(s).value.1 == EventLength(s).value
  {
  }

  /** The index just past n game events that start at index i of data;
      None when data ends first. */
  function EventsEnd(data: Bytes, i: nat, n: nat): (r: Option<nat>)
    requires i <= |data|
    ensures r.Some? ==> i <= r.value <= |data|
    decreases n
  {
    if n == 0 then Some(i)
    else
      var d := EventLength(data[i..]);
      if d.None? then None else EventsEnd(data, i + d.value, n - 1)
  }

  /** The record loop: records are read while the read index less the
      snapshot's start p0, in size_t arithmetic, is below length; what
      readentupdate returns is ignored. At most fuel records are read. */
  function RecordsSpec(schema: Schema, t: Tables, data: Bytes, p0: nat, i: nat, length: nat, client: int, fuel: nat): (r: RecordResult)
    requires Consistent(schema, t)
    ensures r.outcome.Done? ==> r.outcome.ok && (r.idx - p0) % SizeMod >= length
    decreases fuel
  {
    if (i - p0) % SizeMod >= length then RecordResult(Done(true), t, i)
    else if fuel == 0 then RecordResult(Failed(OutOfFuel), t, i)
    else
      var R := RecordSpec(schema, t, data, i, client);
      if R.outcome.Failed? then R
      else
        RecordConsistent(schema, t, data, i, client);
        RecordsSpec(schema, R.tables, data, p0, R.idx, length, client, fuel - 1)
  }

  /** What rcvserversnapshot returns, or why it stopped short. */
  datatype SnapshotOutcome = Received(hdr: ServerSnapshotHdr) | Broken(why: Failure)

  /** The outcome, and the tables and read index after it (meaningful when
      a header was received). */
  datatype SnapshotResult = SnapshotResult(outcome: SnapshotOutcome, tables: Tables, idx: nat)

  /** rcvserversnapshot(pkt, length, stateSeq, client) on the bytes of data
      from index i: the header; nothing more when its state string sequence
      is not stateSeq; otherwise the event count and the events, then entity
      records up to length bytes from the start (the rest of the packet when
      length is 0). */
  function SnapshotSpec(schema: Schema, t: Tables, data: Bytes, i: nat, length: nat, stateSeq: bv8, client: int, fuel: nat): (r: SnapshotResult)
    requires Consistent(schema, t)
    ensures r.outcome.Broken? ==> r.tables == t && r.idx == i
    ensures r.outcome.Received? ==> i + 17 <= |data|
  {
    var len := if length == 0 then (|data| - i) % SizeMod else length;
    if |data| < i + 17 then SnapshotResult(Broken(OutOfData), t, i)
    else
      var hdr := DecodeHdr(data[i..i + 17]);
      if hdr.stateStringSequence != stateSeq then SnapshotResult(Received(hdr), t, i + 17)
      else if |data| < i + 18 then SnapshotResult(Broken(OutOfData), t, i)
      else
        var n := data[i + 17] as nat;
        var E := EventsEnd(data, i + 18, n);
        if E.None? then SnapshotResult(Broken(OutOfData), t, i)
        else
          var R := RecordsSpec(schema, t, data, i, E.value, len, client, fuel);
          if R.outcome.Failed? then SnapshotResult(Broken(R.outcome.why), t, i)
          else SnapshotResult(Received(hdr.(events := seq(n, _ => NoEvent))), R.tables, R.idx)
  }

  /** The record loop keeps the table consistent. */
  lemma {:induction false} RecordsConsistent(schema: Schema, t: Tables, data: Bytes, p0: nat, i: nat, length: nat, client: int, fuel: nat)
    requires Consistent(schema, t)
    ensures var R := RecordsSpec(schema, t, data, p0, i, length, client, fuel);
            R.outcome.Done? ==> Consistent(schema, R.tables)
    decreases fuel
  {
    if (i - p0) % SizeMod < length && fuel > 0 {
      var R := RecordSpec(schema, t, data, i, client);
      if R.outcome.Done? {
        RecordConsistent(schema, t, data, i, client);
        RecordsConsistent(schema, R.tables, data, p0, R.idx, length, client, fuel - 1);
        assert RecordsSpec(schema, t, data, p0, i, length, client, fuel)
            == RecordsSpec(schema, R.tables, data, p0, R.idx, length, client, fuel - 1);
      }
    }
  }

  /** A snapshot whose state string sequence is not the expected one is
      dropped after its header: the tables are untouched and no event is
      reported. */
  lemma SnapshotDropped(schema: Schema, t: Tables, data: Bytes, i: nat, length: nat, stateSeq: bv8, client: int, fuel: nat)
    requires Consistent(schema, t) && i + 17 <= |data| && data[i + 16] != stateSeq
    ensures var S := SnapshotSpec(schema, t, data, i, length, stateSeq, client, fuel);
            S.outcome.Received? && S.outcome.hdr.events == [] && S.tables == t && S.idx == i + 17
  {
  }

  /** A received snapshot's header is the one its first 17 bytes encode, and
      its events are the count byte's number of default events. */
  lemma SnapshotHeader(schema: Schema, t: Tables, data: Bytes, i: nat, length: nat, stateSeq: bv8, client: int, fuel: nat)
    requires Consistent(schema, t)
    ensures var S := SnapshotSpec(schema, t, data, i, length, stateSeq, client, fuel);
            S.outcome.Received? ==>
              i + 17 <= |data| && EncodeHdr(S.outcome.hdr) == data[i..i + 17] &&
              S.outcome.hdr.events == if data[i + 16] == stateSeq then seq(data[i + 17] as nat, _ => NoEvent) else []
  {
    var S := SnapshotSpec(schema, t, data, i, length, stateSeq, client, fuel);
    if S.outcome.Received? {
      EncodeDecodeHdr(data[i..i + 17]);
    }
  }

  /** The tables stay consistent through a snapshot. */
  lemma SnapshotSound(schema: Schema, t: Tables, data: Bytes, i: nat, length: nat, stateSeq: bv8, client: int, fuel: nat)
    requires Consistent(schema, t)
    ensures var S := SnapshotSpec(schema, t, data, i, length, stateSeq, client, fuel);
            Consistent(schema, S.tables)
  {
    if i + 18 <= |data| && data[i + 16] == stateSeq {
      var len := if length == 0 then (|data| - i) % SizeMod else length;
      var E := EventsEnd(data, i + 18, data[i + 17] as nat);
      if E.Some? {
        RecordsConsistent(schema, t, data, i, E.value, len, client, fuel);
      }
    }
  }

  // ---------------------------------------------------------------------
  // Lookups: getent, clientinfo, teaminfo, localent, and the Death message

  /** getent(id): the entity, if the table has it. */
  function GetEnt(t: Tables, id: int): Option<EntState>
  {
    if id in t.ents then Some(t.ents[id]) else None
  }

  /** clientinfo(n): the client table's entry, if there is one. */
  function ClientInfoOf(t: Tables, n: int): Option<ClientInfo>
  {
    if n in t.clients then Some(t.clients[n]) else None
  }

  /** clientinfo(): the local client's entry, or the value-initialised one. */
  function LocalClient(t: Tables, local: int): ClientInfo
  {
    if local in t.clients then t.clients[local] else NoClient
  }

  /** teaminfo(teamid): the team table's entry, or the value-initialised one. */
  function TeamInfoOf(t: Tables, teamid: int): TeamInfo
  {
    if teamid in t.teams then t.teams[teamid] else NoTeam
  }

  /** localent(): the entity the local client's entry names as its player;
      none when that index is 0. */
  function LocalEnt(t: Tables, local: int): Option<EntState>
  {
    var ci := LocalClient(t, local);
    if ci.playerEntityIndex == 0 then None else GetEnt(t, ci.playerEntityIndex)
  }

  /** Once an Entity_ClientInfo entity carrying the local client number is
      published, the lookups find its entry, and localent finds the entity
      it names as the player (none when it names index 0). */
  lemma PublishedClientIsLocal(id: int, a: Attributes, t: Tables, local: int)
    requires a.clientNumber == local
    ensures var u := Publish("Entity_ClientInfo", id, a, t);
            var ci := ClientInfo(a.name, a.clientNumber, a.playerEntityIndex, a.ping);
            ClientInfoOf(u, local) == Some(ci) && LocalClient(u, local) == ci &&
            LocalEnt(u, local) == (if a.playerEntityIndex == 0 then None else GetEnt(t, a.playerEntityIndex))
  {
  }

  /** Every lookup on the tables of a fresh or reset game finds nothing. */
  lemma EmptyLookups(id: int, n: int, teamid: int, local: int)
    ensures GetEnt(EmptyTables, id) == None && ClientInfoOf(EmptyTables, n) == None
    ensures LocalClient(EmptyTables, local) == NoClient && TeamInfoOf(EmptyTables, teamid) == NoTeam
    ensures LocalEnt(EmptyTables, local) == None
  {
  }

  /** The Death message: the killed entity, when the table has it, is
      marked killed. */
  function Kill(ents: map<int, EntState>, id: int): map<int, EntState>
  {
    if id in ents then ents[id := ents[id].(killed := true)] else ents
  }

  /** Killing marks that one entity killed, keeps its type and attributes,
      and changes no other entity and no key. */
  lemma KillProps(schema: Schema, t: Tables, id: int)
    requires Consistent(schema, t)
    ensures var u := t.(ents := Kill(t.ents, id));
            Consistent(schema, u) && OthersKept(t, u, id) && u.ents.Keys == t.ents.Keys &&
            (id in t.ents ==> u.ents[id] == t.ents[id].(killed := true))
  {
    var u := t.(ents := Kill(t.ents, id));
    if id in t.ents {
      StoreConsistent(schema, t, id, t.ents[id].(killed := true));
    }
  }

  /** entsoftype(typ) keeps the entities whose type name starts with typ. */
  ghost predicate OfType(schema: Schema, t: Tables, id: int, typ: string)
  {
    id in t.ents && t.ents[id].entType in schema && typ <= schema[t.ents[id].entType].name
  }

  lemma NonEmpty(s: set<int>)
    requires s != {}
    ensures exists y :: y in s
  {
    if forall y :: y !in s {
      assert false;
    }
  }

  /** The least id of a non-empty set: the next key a std::map visits. */
  ghost function Least(s: set<int>): (m: int)
    requires s != {}
    ensures m in s && forall x :: x in s ==> m <= x
    decreases |s|
  {
    NonEmpty(s);
    var y :| y in s;
    var r := s - {y};
    assert forall x :: x in s ==> x == y || x in r;
    if r == {} then y
    else
      var m := Least(r);
      if y < m then y else m
  }

  // ---------------------------------------------------------------------
  // Reading a record off the packet

  /** One case of the switch of readentupdate: the variable's value read
      from the packet. */
  method ReadVar(pkt: Packet, t: VarType) returns (r: ValueRead)
    modifies pkt
    ensures pkt.data == old(pkt.data)
    ensures r == ReadValue(t, old(pkt.Rest()))
    ensures r.Value? ==> pkt.readIdx == old(pkt.readIdx) + r.width
  {
    match t {
      case String =>
        var str := pkt.ReadString();
        r := if str.None? then ShortRead else Value(Text(str.value), |str.value| + 1);
      case Unknown(_) =>
        r := BadType;
      case Vector3 =>
        r := ReadVector3(pkt);
      case WordVector3 =>
        r := ReadWordVector3(pkt);
      case _ =>
        r := ReadScalar(pkt, t);
    }
  }

  /** A variable of a one-value fixed-size type: one read. */
  method ReadScalar(pkt: Packet, t: VarType) returns (r: ValueRead)
    requires FixedWidth(t).Some? && t != Vector3 && t != WordVector3
    modifies pkt
    ensures pkt.data == old(pkt.data)
    ensures r == ReadValue(t, old(pkt.Rest()))
    ensures r.Value? ==> pkt.readIdx == old(pkt.readIdx) + r.width
  {
    ghost var s := pkt.Rest();
    ghost var w := FixedWidth(t).value;
    assert pkt.CanRead(w) ==> pkt.data[pkt.readIdx..pkt.readIdx + w] == s[..w];
    match t {
      case Byte =>
        var b := pkt.ReadByte();
        r := if b.None? then ShortRead else Value(Integral(b.value as int, 1), 1);
      case ByteFloat =>
        var b := pkt.ReadByte();
        r := if b.None? then ShortRead else Value(Floating(Exact((b.value as int as real) / 255.0)), 1);
      case WordFloat =>
        var x := pkt.ReadWord();
        r := if x.None? then ShortRead else Value(Floating(FromInt(x.value as int)), 2);
      case Int =>
        var x := pkt.ReadDword();
        r := if x.None? then ShortRead else Value(Integral(x.value as int, 4), 4);
      case Single =>
        var x := pkt.ReadSingle();
        r := if x.None? then ShortRead else Value(Floating(x.value), 4);
      case Qword =>
        var x := pkt.ReadQword();
        r := if x.None? then ShortRead else Value(Integral(x.value as int, 8), 8);
      case Short | WordEntityIndex | WordHandle | WordAngle =>
        var x := pkt.ReadWord();
        r := if x.None? then ShortRead else Value(Integral(x.value as int, 2), 2);
      case Vector3 | WordVector3 | String | Unknown(_) =>
        assert false;
    }
  }

  /** vector3f(readsingle(), readsingle(), readsingle()). */
  method ReadVector3(pkt: Packet) returns (r: ValueRead)
    modifies pkt
    ensures pkt.data == old(pkt.data)
    ensures r == ReadValue(Vector3, old(pkt.Rest()))
    ensures r.Value? ==> pkt.readIdx == old(pkt.readIdx) + r.width
  {
    ghost var s := pkt.Rest();
    ghost var i := pkt.readIdx;
    var x := pkt.ReadSingle();
    if x.None? {
      return ShortRead;
    }
    var y := pkt.ReadSingle();
    if y.None? {
      return ShortRead;
    }
    var z := pkt.ReadSingle();
    if z.None? {
      return ShortRead;
    }
    ghost var b := s[..12];
    assert b[..4] == pkt.data[i..i + 4] && b[4..8] == pkt.data[i + 4..i + 8] && b[8..] == pkt.data[i + 8..i + 12];
    r := Value(Vector(Vec3(x.value, y.value, z.value)), 12);
  }

  /** vector3f(float(readword()), float(readword()), float(readword())),
      the words taken in order. */
  method ReadWordVector3(pkt: Packet) returns (r: ValueRead)
    modifies pkt
    ensures pkt.data == old(pkt.data)
    ensures r == ReadValue(WordVector3, old(pkt.Rest()))
    ensures r.Value? ==> pkt.readIdx == old(pkt.readIdx) + r.width
  {
    ghost var s := pkt.Rest();
    ghost var i := pkt.readIdx;
    var x := pkt.ReadWord();
    if x.None? {
      return ShortRead;
    }
    var y := pkt.ReadWord();
    if y.None? {
      return ShortRead;
    }
    var z := pkt.ReadWord();
    if z.None? {
      return ShortRead;
    }
    ghost var b := s[..6];
    assert b[0..2] == pkt.data[i..i + 2] && b[2..4] == pkt.data[i + 2..i + 4] && b[4..6] == pkt.data[i + 4..i + 6];
    r := Value(Vector(Vec3(FromInt(x.value as int), FromInt(y.value as int), FromInt(z.value as int))), 6);
  }

  /** The reading with n more bytes counted as used. */
  function Shift(R: VarsRead, n: nat): VarsRead
  {
    R.(used := n + R.used)
  }

  /** One step of ApplyVars: the first variable's value read off the front. */
  lemma ApplyVarsStep(a: Attributes, vars: seq<VarInfo>, s: Bytes, v: ValueRead)
    requires vars != [] && v == ReadValue(vars[0].vtype, s)
    ensures v.ShortRead? ==> ApplyVars(a, vars, s) == VarsRead(a, 0, VarsShort)
    ensures v.BadType? ==> ApplyVars(a, vars, s) == VarsRead(a, 0, VarsBadType)
    ensures v.Value? ==> ApplyVars(a, vars, s) == Shift(ApplyVars(Update(a, vars[0].name, v.v), vars[1..], s[v.width..]), v.width)
  {
  }

  /** One turn of readentupdate's loop: the first variable's value read and
      related to the rest of the reading. */
  method ReadFirstVar(pkt: Packet, a: Attributes, vars: seq<VarInfo>) returns (v: ValueRead)
    requires vars != [] && pkt.readIdx <= |pkt.data|
    modifies pkt
    ensures pkt.data == old(pkt.data)
    ensures v.ShortRead? ==> ApplyVars(a, vars, old(pkt.Rest())).status == VarsShort
    ensures v.BadType? ==> ApplyVars(a, vars, old(pkt.Rest())).status == VarsBadType
    ensures v.Value? ==>
              old(pkt.readIdx) + v.width == pkt.readIdx <= |pkt.data| &&
              ApplyVars(a, vars, old(pkt.Rest())) == Shift(ApplyVars(Update(a, vars[0].name, v.v), vars[1..], pkt.Rest()), v.width)
  {
    ghost var rest := pkt.Rest();
    v := ReadVar(pkt, vars[0].vtype);
    ApplyVarsStep(a, vars, rest, v);
    if v.Value? {
      assert rest[v.width..] == pkt.Rest();
    }
  }

  /** The loop of readentupdate over the present variables: each value is
      read and handed to updatefield. */
  method ReadVarsLoop(pkt: Packet, a0: Attributes, vars: seq<VarInfo>) returns (a: Attributes, status: VarsStatus)
    requires pkt.readIdx <= |pkt.data|
    modifies pkt
    ensures pkt.data == old(pkt.data)
    ensures var R := ApplyVars(a0, vars, old(pkt.Rest()));
            status == R.status && (status == Complete ==> a == R.attrs && pkt.readIdx == old(pkt.readIdx) + R.used)
  {
    ghost var data := pkt.data;
    ghost var i0 := pkt.readIdx;
    ghost var whole := ApplyVars(a0, vars, data[i0..]);
    a := a0;
    var k := 0;
    while k < |vars|
      invariant 0 <= k <= |vars| && pkt.data == data
      invariant i0 <= pkt.readIdx <= |data|
      invariant whole == Shift(ApplyVars(a, vars[k..], data[pkt.readIdx..]), pkt.readIdx - i0)
    {
      var v := ReadFirstVar(pkt, a, vars[k..]);
      if v.ShortRead? {
        return a, VarsShort;
      }
      if v.BadType? {
        return a, VarsBadType;
      }
      assert vars[k..][1..] == vars[k + 1..];
      a := Update(a, vars[k].name, v.v);
      k := k + 1;
    }
    status := Complete;
  }

  // ---------------------------------------------------------------------
  // The game object

  /** The path loadworld asks the world loader for. */
  function WorldPath(name: Bytes, checksum: Bytes): Bytes
  {
    Ascii("maps/") + name + Ascii("_") + checksum + Ascii(".s2z")
  }

  class Game {
    /** The schema database the entity types are looked up in. */
    const schema: Schema
    /** mWorld: the path of the loaded world, None when none is loaded. */
    var world: Option<Bytes>
    /** mEntities */
    var entities: map<int, EntState>
    /** mGameInfoEntNumber */
    var gameInfoEnt: int
    /** mTeams */
    var teams: map<int, TeamInfo>
    /** mLocalClientNumber */
    var localClientNumber: int
    /** mClients */
    var clients: map<int, ClientInfo>

    /** The tables the snapshots update. */
    function State(): Tables
      reads this
    {
      Tables(entities, teams, clients, gameInfoEnt)
    }

    ghost predicate Valid()
      reads this
    {
      Consistent(schema, State())
    }

    constructor (schema: Schema)
      ensures this.schema == schema && State() == EmptyTables
      ensures localClientNumber == -1 && world == None && Valid()
    {
      this.schema := schema;
      world := None;
      entities := map[];
      gameInfoEnt := -1;
      teams := map[];
      localClientNumber := -1;
      clients := map[];
    }

    /** resetworld(): the tables are emptied; the world and the local client
        number stay. */
    method ResetWorld()
      modifies this
      ensures State() == EmptyTables && Valid()
      ensures world == old(world) && localClientNumber == old(localClientNumber)
    {
      gameInfoEnt := -1;
      teams := map[];
      clients := map[];
      entities := map[];
    }

    /** loadworld(name, checksum): found says whether the world loader found
        and loaded maps/<name>_<checksum>.s2z. The tables are reset either
        way. */
    method LoadWorld(name: Bytes, checksum: Bytes, found: bool) returns (ok: bool)
      modifies this
      ensures ok == found && world == (if found then Some(WorldPath(name, checksum)) else None)
      ensures State() == EmptyTables && Valid() && localClientNumber == old(localClientNumber)
    {
      world := if found then Some(WorldPath(name, checksum)) else None;
      ResetWorld();
      ok := world != None;
    }

    /** setclientnumber(n) */
    method SetClientNumber(n: int)
      modifies this
      ensures localClientNumber == n && State() == old(State()) && world == old(world)
    {
      localClientNumber := n;
    }

    /** readentupdate(pkt, client): one entity record. */
    method ReadEntUpdate(pkt: Packet, client: int) returns (r: Outcome)
      requires Valid() && |pkt.data| < SizeMod
      modifies this, pkt
      ensures Valid() && pkt.data == old(pkt.data)
      ensures world == old(world) && localClientNumber == old(localClientNumber)
      ensures var R := RecordSpec(schema, old(State()), old(pkt.data), old(pkt.readIdx), client);
              r == R.outcome && (r.Done? ==> State() == R.tables && pkt.readIdx == R.idx)
    {
      ghost var i := pkt.readIdx;
      var w := pkt.ReadWord();
      if w.None? {
        return Failed(OutOfData);
      }
      var head := w.value;
      if Baseline(head) {
        r := ReadBaseline(pkt, EntId(head), client, i);
      } else {
        r := ReadDelta(pkt, EntId(head), i);
      }
    }

    /** The rest of a baseline record, after its head at index i. */
    method ReadBaseline(pkt: Packet, id: int, client: int, ghost i: nat) returns (r: Outcome)
      requires Valid() && |pkt.data| < SizeMod && pkt.readIdx == i + 2 <= |pkt.data|
      modifies this, pkt
      ensures Valid() && pkt.data == old(pkt.data)
      ensures world == old(world) && localClientNumber == old(localClientNumber)
      ensures var R := BaselineSpec(schema, old(State()), pkt.data, i, id, client);
              r == R.outcome && (r.Done? ==> State() == R.tables && pkt.readIdx == R.idx)
    {
      ghost var t0 := State();
      var w := pkt.ReadWord();
      if w.None? {
        return Failed(OutOfData);
      }
      assert w.value == FromLE16(pkt.data[i + 2..i + 4]);
      var typ := w.value as int;
      if typ == 0 {
        KeysConsistent(schema, t0, t0.(ents := t0.ents - {id}));
        entities := entities - {id};
        return Done(true);
      }
      r := ReadTyped(pkt, id, typ, client, i);
    }

    /** A baseline record of a nonzero type, after the type word. */
    method ReadTyped(pkt: Packet, id: int, typ: int, client: int, ghost i: nat) returns (r: Outcome)
      requires Valid() && |pkt.data| < SizeMod && pkt.readIdx == i + 4 <= |pkt.data|
      requires typ == FromLE16(pkt.data[i + 2..i + 4]) as int != 0
      modifies this, pkt
      ensures Valid() && pkt.data == old(pkt.data)
      ensures world == old(world) && localClientNumber == old(localClientNumber)
      ensures var R := BaselineSpec(schema, old(State()), pkt.data, i, id, client);
              r == R.outcome && (r.Done? ==> State() == R.tables && pkt.readIdx == R.idx)
    {
      ghost var t0 := State();
      ghost var j := if client == -1 then i + 8 else i + 4;
      if client == -1 {
        var c := pkt.ReadDword();
        if c.None? {
          return Failed(OutOfData);
        }
      }
      assert pkt.readIdx == j <= |pkt.data|;
      if typ !in schema {
        SkipRest(pkt);
        return Done(false);
      }
      NewEntityConsistent(schema, t0, id, typ);
      entities := NewEntity(entities, id, typ);
      assert State() == t0.(ents := NewEntity(t0.ents, id, typ));
      r := UpdateEntity(pkt, id);
    }

    /** The rest of a record for an existing entity, after its head at index i. */
    method ReadDelta(pkt: Packet, id: int, ghost i: nat) returns (r: Outcome)
      requires Valid() && |pkt.data| < SizeMod && pkt.readIdx == i + 2 <= |pkt.data|
      modifies this, pkt
      ensures Valid() && pkt.data == old(pkt.data)
      ensures world == old(world) && localClientNumber == old(localClientNumber)
      ensures var R := DeltaSpec(schema, old(State()), pkt.data, i, id);
              r == R.outcome && (r.Done? ==> State() == R.tables && pkt.readIdx == R.idx)
    {
      if id == 0 {
        return Done(false);
      }
      if id !in entities {
        pkt.Seek(pkt.Remaining());
        return Done(false);
      }
      r := UpdateEntity(pkt, id);
    }

    /** The presence bits and the present variables of entity id, then the
        special tables. */
    method UpdateEntity(pkt: Packet, id: int) returns (r: Outcome)
      requires Valid() && id in entities && pkt.readIdx <= |pkt.data|
      modifies this, pkt
      ensures Valid() && pkt.data == old(pkt.data)
      ensures world == old(world) && localClientNumber == old(localClientNumber)
      ensures var R := UpdateSpec(schema, old(State()), id, pkt.data, old(pkt.readIdx));
              r == R.outcome && (r.Done? ==> State() == R.tables && pkt.readIdx == R.idx)
    {
      ghost var j := pkt.readIdx;
      ghost var t0 := State();
      var e := entities[id];
      var ti := schema[e.entType];
      var present := DecodeFieldsBitArray(ti, pkt, DefaultVersion);
      ghost var P := PresentVars(ti, pkt.data[j..], DefaultVersion);
      assert present.Some? <==> P.Some?;
      if present.None? {
        return Failed(OutOfData);
      }
      assert present.value.0 == P.value.0 && pkt.readIdx == j + P.value.1;
      var a, status := ReadVarsLoop(pkt, e.attrs, present.value.0);
      if status == VarsBadType {
        return Failed(Fatal);
      }
      if status == VarsShort {
        return Failed(OutOfData);
      }
      StoreEntity(id, ti.name, a);
      r := Done(true);
    }

    /** The entity's new attributes stored, then updateclient, updategame or
        updateteam by the name of its type. */
    method StoreEntity(id: int, typname: string, a: Attributes)
      requires Valid() && id in entities
      modifies this
      ensures State() == Store(old(State()), id, typname, a)
      ensures Valid() && world == old(world) && localClientNumber == old(localClientNumber)
    {
      StoreConsistent(schema, State(), id, entities[id].(attrs := a));
      entities := entities[id := entities[id].(attrs := a)];
      if typname == "Entity_ClientInfo" {
        clients := clients[a.clientNumber := ClientInfo(a.name, a.clientNumber, a.playerEntityIndex, a.ping)];
      } else if typname == "Entity_GameInfo" {
        gameInfoEnt := id;
      } else if typname == "Entity_TeamInfo" {
        teams := teams[a.teamId := TeamInfo(a.baseBuildingIndex)];
      }
    }
  
    /** The header of a server snapshot: four dwords and a byte. */
    static method ReadHdr(pkt: Packet) returns (r: Option<ServerSnapshotHdr>)
      modifies pkt
      ensures pkt.data == old(pkt.data)
      ensures r.Some? <==> old(pkt.CanRead(17))
      ensures r.Some? ==> r.value == DecodeHdr(pkt.data[old(pkt.readIdx)..old(pkt.readIdx) + 17]) &&
                          pkt.readIdx == old(pkt.readIdx) + 17
    {
      ghost var i := pkt.readIdx;
      var frameId := pkt.ReadDword();
      if frameId.None? {
        return None;
      }
      var prevFrameId := pkt.ReadDword();
      if prevFrameId.None? {
        return None;
      }
      var timestamp := pkt.ReadDword();
      if timestamp.None? {
        return None;
      }
      var lastReceived := pkt.ReadDword();
      if lastReceived.None? {
        return None;
      }
      var stateSeq := pkt.ReadByte();
      if stateSeq.None? {
        return None;
      }
      DecodeHdrAt(pkt.data, i);
      r := Some(ServerSnapshotHdr(frameId.value, prevFrameId.value, timestamp.value, lastReceived.value, stateSeq.value, []));
    }

    /** The loop over the game events: each is read and dropped. */
    static method SkipEvents(pkt: Packet, n: nat) returns (ok: bool)
      requires pkt.readIdx <= |pkt.data|
      modifies pkt
      ensures pkt.data == old(pkt.data)
      ensures var E := EventsEnd(pkt.data, old(pkt.readIdx), n);
              ok == E.Some? && (ok ==> pkt.readIdx == E.value)
    {
      ghost var data := pkt.data;
      ghost var E := EventsEnd(data, pkt.readIdx, n);
      var k := 0;
      while k < n
        invariant 0 <= k <= n && pkt.data == data && pkt.readIdx <= |data|
        invariant E == EventsEnd(data, pkt.readIdx, n - k)
      {
        var more := SkipEvent(pkt, n - k);
        if !more {
          return false;
        }
        k := k + 1;
      }
      ok := true;
    }

    /** One event read and dropped: a step of EventsEnd. */
    static method SkipEvent(pkt: Packet, ghost m: nat) returns (ok: bool)
      requires m > 0 && pkt.readIdx <= |pkt.data|
      modifies pkt
      ensures pkt.data == old(pkt.data)
      ensures ok ==> pkt.readIdx <= |pkt.data| &&
                     EventsEnd(pkt.data, old(pkt.readIdx), m) == EventsEnd(pkt.data, pkt.readIdx, m - 1)
      ensures !ok ==> EventsEnd(pkt.data, old(pkt.readIdx), m).None?
    {
      DecodeEventLength(pkt.Rest());
      var ev := ReadEvent(pkt);
      ok := ev.Some?;
    }

    /** The record loop of rcvserversnapshot, at most fuel records long. */
    method ReadRecords(pkt: Packet, p0: nat, length: nat, client: int, fuel: nat) returns (r: Outcome)
      requires Valid() && |pkt.data| < SizeMod
      modifies this, pkt
      ensures Valid() && pkt.data == old(pkt.data)
      ensures world == old(world) && localClientNumber == old(localClientNumber)
      ensures var R := RecordsSpec(schema, old(State()), old(pkt.data), p0, old(pkt.readIdx), length, client, fuel);
              r == R.outcome && (r.Done? ==> State() == R.tables && pkt.readIdx == R.idx)
    {
      ghost var R0 := RecordsSpec(schema, State(), pkt.data, p0, pkt.readIdx, length, client, fuel);
      var f := fuel;
      while (pkt.readIdx - p0) % SizeMod < length
        invariant Valid() && pkt.data == old(pkt.data)
        invariant world == old(world) && localClientNumber == old(localClientNumber)
        invariant R0 == RecordsSpec(schema, State(), pkt.data, p0, pkt.readIdx, length, client, f)
        decreases f
      {
        if f == 0 {
          return Failed(OutOfFuel);
        }
        var o := ReadEntUpdate(pkt, client);
        if o.Failed? {
          return o;
        }
        f := f - 1;
      }
      r := Done(true);
    }

    /** rcvserversnapshot(pkt, length, stateSeq, client): the header, and
        when its state string sequence is stateSeq, the events (read and
        dropped) and the entity records. */
    method RcvServerSnapshot(pkt: Packet, length: nat, stateSeq: bv8, client: int, fuel: nat) returns (r: SnapshotOutcome)
      requires Valid() && |pkt.data| < SizeMod
      modifies this, pkt
      ensures Valid() && pkt.data == old(pkt.data)
      ensures world == old(world) && localClientNumber == old(localClientNumber)
      ensures var S := SnapshotSpec(schema, old(State()), old(pkt.data), old(pkt.readIdx), length, stateSeq, client, fuel);
              r == S.outcome && (r.Received? ==> State() == S.tables && pkt.readIdx == S.idx)
    {
      var len := if length == 0 then pkt.Remaining() else length;
      var p0 := pkt.readIdx;
      var h := ReadHdr(pkt);
      if h.None? {
        return Broken(OutOfData);
      }
      var hdr := h.value;
      if hdr.stateStringSequence != stateSeq {
        return Received(hdr);
      }
      var count := pkt.ReadByte();
      if count.None? {
        return Broken(OutOfData);
      }
      var n := count.value as nat;
      if n != 0 {
        hdr := hdr.(events := seq(n, _ => NoEvent));
      }
      var ok := SkipEvents(pkt, n);
      if !ok {
        return Broken(OutOfData);
      }
      var o := ReadRecords(pkt, p0, len, client, fuel);
      if o.Failed? {
        return Broken(o.why);
      }
      r := Received(hdr);
    }

    /** The Death message's update of the killed entity. */
    method MarkKilled(id: int)
      requires Valid()
      modifies this
      ensures Valid() && State() == old(State()).(ents := Kill(old(entities), id))
      ensures world == old(world) && localClientNumber == old(localClientNumber)
    {
      KillProps(schema, State(), id);
      if id in entities {
        entities := entities[id := entities[id].(killed := true)];
      }
    }

    /** entsoftype(typ): the ids of the entities whose type name starts with
        typ, in increasing order as the table iterates them. */
    method EntsOfType(typ: string) returns (ids: seq<int>)
      requires Valid()
      ensures forall k, l :: 0 <= k < l < |ids| ==> ids[k] < ids[l]
      ensures forall id :: id in ids <==> OfType(schema, State(), id, typ)
    {
      var rest := entities.Keys;
      ids := [];
      while rest != {}
        invariant rest <= entities.Keys
        invariant forall k, l :: 0 <= k < l < |ids| ==> ids[k] < ids[l]
        invariant forall k, x :: 0 <= k < |ids| && x in rest ==> ids[k] < x
        invariant forall id :: id in ids <==> id !in rest && OfType(schema, State(), id, typ)
        decreases |rest|
      {
        ghost var least := Least(rest);
        var m :| m in rest && forall x :: x in rest ==> m <= x;
        if typ <= schema[entities[m].entType].name {
          ids := ids + [m];
        }
        rest := rest - {m};
      }
    }

    /** pkt.advance(pkt.remaining()): the read index moves to the end of
        the packet. */
    static method SkipRest(pkt: Packet)
      requires pkt.readIdx <= |pkt.data| < SizeMod
      modifies pkt
      ensures pkt.data == old(pkt.data) && pkt.readIdx == |pkt.data|
    {
      pkt.Advance(pkt.Remaining());
    }
  }
}
