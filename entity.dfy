/*
 * A game entity: its id, its type and the fifteen attributes the client
 * tracks, updated one at a time by name (entity::updatefield). The source
 * dispatches on the FNV-1a hash of the name, so a colliding name would
 * select an attribute too; here the dispatch is an exact match on the name.
 */
module Entity {
  import opened Common
  import opened TypeRegistry

  /** The value handed to updatefield: an integral value of a type of `size`
      bytes, a floating-point value, a vector3f or a string. */
  datatype FieldValue =
    | Integral(v: int, size: nat)
    | Floating(f: Float)
    | Vector(vec: Vec3)
    | Text(s: Bytes)

  /** The kind of an attribute slot: an integer of `width` bytes, signed or
      not, a float, a vector3f or a string. */
  datatype SlotKind = IntSlot(width: nat, signed: bool) | FloatSlot | VecSlot | TextSlot

  /** The value held in a slot. */
  datatype SlotValue = IntValue(i: int) | FloatValue(f: Float) | VecValue(vec: Vec3) | TextValue(s: Bytes)

  /** The attributes, in the order the source declares them. */
  datatype Attributes = Attributes(
    netFlags: int,              // m_uiNetFlags (an int)
    position: Vec3,             // m_v3Position
    angles: Vec3,               // m_v3Angles
    clientNum: int,             // m_iClientNum
    clientNumber: int,          // m_iClientNumber
    accountId: int,             // m_iAccountID
    playerEntityIndex: nat,     // m_uiPlayerEntityIndex (uint16_t)
    name: Bytes,                // m_sName
    ping: nat,                  // m_unPing (uint16_t)
    status: nat,                // m_yStatus (uint8_t)
    gamePhase: nat,             // m_uiGamePhase (uint32_t)
    team: nat,                  // m_iTeam (uint8_t)
    teamId: int,                // m_iTeamID
    baseBuildingIndex: nat,     // m_uiBaseBuildingIndex (uint16_t)
    health: Float)              // m_fHealth

  /** Every attribute zero, empty or 0.0, as a fresh entity has them. */
  const DefaultAttributes: Attributes :=
    Attributes(0, ZeroVec3, ZeroVec3, 0, 0, 0, 0, [], 0, 0, 0, 0, 0, 0, ZeroFloat)

  /** The values of m_yStatus the source names. */
  const StatusAlive: nat := 0
  const StatusSpawning: nat := 1
  const StatusDead: nat := 3
  const StatusDormant2: nat := 5

  /** The attributes updatefield can set, one per case of its switch. */
  datatype Field =
    | NetFlags | Position | Angles | ClientNum | ClientNumber | AccountId
    | PlayerEntityIndex | Name | Ping | Status | GamePhase | Team | TeamId
    | BaseBuildingIndex | Health

  /** The name of each attribute, as the switch spells it. */
  function NameOf(f: Field): string
  {
    match f
    case NetFlags => "m_uiNetFlags"
    case Position => "m_v3Position"
    case Angles => "m_v3Angles"
    case ClientNum => "m_iClientNum"
    case ClientNumber => "m_iClientNumber"
    case AccountId => "m_iAccountID"
    case PlayerEntityIndex => "m_uiPlayerEntityIndex"
    case Name => "m_sName"
    case Ping => "m_unPing"
    case Status => "m_yStatus"
    case GamePhase => "m_uiGamePhase"
    case Team => "m_iTeam"
    case TeamId => "m_iTeamID"
    case BaseBuildingIndex => "m_uiBaseBuildingIndex"
    case Health => "m_fHealth"
  }

  /** The switch's dispatch: the attribute a name selects, None when it
      selects none (the name is then ignored). */
  function FieldOf(name: string): (r: Option<Field>)
    ensures r.Some? ==> NameOf(r.value) == name
  {
    if name == "m_uiNetFlags" then Some(NetFlags)
    else if name == "m_v3Position" then Some(Position)
    else if name == "m_v3Angles" then Some(Angles)
    else if name == "m_iClientNum" then Some(ClientNum)
    else if name == "m_iClientNumber" then Some(ClientNumber)
    else if name == "m_iAccountID" then Some(AccountId)
    else if name == "m_uiPlayerEntityIndex" then Some(PlayerEntityIndex)
    else if name == "m_sName" then Some(Name)
    else if name == "m_unPing" then Some(Ping)
    else if name == "m_yStatus" then Some(Status)
    else if name == "m_uiGamePhase" then Some(GamePhase)
    else if name == "m_iTeam" then Some(Team)
    else if name == "m_iTeamID" then Some(TeamId)
    else if name == "m_uiBaseBuildingIndex" then Some(BaseBuildingIndex)
    else if name == "m_fHealth" then Some(Health)
    else None
  }

  /** Every attribute's own name selects it, so no two cases of the switch
      share a name. */
  lemma FieldOfName(f: Field)
    ensures FieldOf(NameOf(f)) == Some(f)
  {
  }

  /** The kind of each attribute's slot. */
  function KindOf(f: Field): SlotKind
  {
    match f
    case NetFlags => IntSlot(4, true)
    case Position => VecSlot
    case Angles => VecSlot
    case ClientNum => IntSlot(4, true)
    case ClientNumber => IntSlot(4, true)
    case AccountId => IntSlot(4, true)
    case PlayerEntityIndex => IntSlot(2, false)
    case Name => TextSlot
    case Ping => IntSlot(2, false)
    case Status => IntSlot(1, false)
    case GamePhase => IntSlot(4, false)
    case Team => IntSlot(1, false)
    case TeamId => IntSlot(4, true)
    case BaseBuildingIndex => IntSlot(2, false)
    case Health => FloatSlot
  }

  /** The current value of an attribute. */
  function Get(a: Attributes, f: Field): SlotValue
  {
    match f
    case NetFlags => IntValue(a.netFlags)
    case Position => VecValue(a.position)
    case Angles => VecValue(a.angles)
    case ClientNum => IntValue(a.clientNum)
    case ClientNumber => IntValue(a.clientNumber)
    case AccountId => IntValue(a.accountId)
    case PlayerEntityIndex => IntValue(a.playerEntityIndex)
    case Name => TextValue(a.name)
    case Ping => IntValue(a.ping)
    case Status => IntValue(a.status)
    case GamePhase => IntValue(a.gamePhase)
    case Team => IntValue(a.team)
    case TeamId => IntValue(a.teamId)
    case BaseBuildingIndex => IntValue(a.baseBuildingIndex)
    case Health => FloatValue(a.health)
  }

  /** The widths, in bytes, of the integer attributes. */
  predicate IsWidth(width: nat)
  {
    width == 1 || width == 2 || width == 4
  }

  /** 2^(8 * width) */
  function Range(width: nat): (r: nat)
    requires IsWidth(width)
  {
    if width == 1 then 0x100 else if width == 2 then 0x1_0000 else 0x1_0000_0000
  }

  /** The conversion of an integral value on assignment to an integer of
      `width` bytes: reduction modulo 2^(8 * width), then, for a signed
      slot, the upper half of the range read as negative. */
  function Narrow(v: int, width: nat, signed: bool): (r: int)
    requires IsWidth(width)
    ensures !signed ==> 0 <= r < Range(width)
    ensures signed ==> -Half(width) <= r < Half(width)
  {
    var m := v % Range(width);
    if signed && m >= Half(width) then m - Range(width) else m
  }

  /** 2^(8 * width - 1): the bound of the signed range. */
  function Half(width: nat): (r: int)
    requires IsWidth(width)
    ensures r + r == Range(width)
  {
    Range(width) / 2
  }

  /** The reduction modulo R of a remainder modulo R, and of that
      remainder less R, is the remainder. */
  lemma Reduce(v: int, R: int)
    requires R == 0x100 || R == 0x1_0000 || R == 0x1_0000_0000
    ensures (v % R) % R == v % R && (v % R - R) % R == v % R
    ensures 0 <= v < R ==> v % R == v
    ensures -R <= v < 0 ==> v % R == v + R
  {
  }

  /** The stored value has the same remainder modulo 2^(8 * width) as the
      assigned one, and is the assigned one when the slot can represent it. */
  lemma NarrowCongruent(v: int, width: nat, signed: bool)
    requires IsWidth(width)
    ensures Narrow(v, width, signed) % Range(width) == v % Range(width)
    ensures (if signed then -Half(width) <= v < Half(width) else 0 <= v < Range(width)) ==> Narrow(v, width, signed) == v
  {
    Reduce(v, Range(width));
  }

  /** Whether a slot of kind k takes the value: integer slots take integral
      values no wider than the slot, the others values of their own type. */
  predicate Accepts(k: SlotKind, v: FieldValue)
  {
    match k
    case IntSlot(width, _) => v.Integral? && v.size <= width
    case FloatSlot => v.Floating?
    case VecSlot => v.Vector?
    case TextSlot => v.Text?
  }

  /** The value a slot of kind k holds after taking v. */
  function Convert(k: SlotKind, v: FieldValue): SlotValue
    requires Accepts(k, v)
    requires k.IntSlot? ==> IsWidth(k.width)
  {
    match k
    case IntSlot(width, signed) => IntValue(Narrow(v.v, width, signed))
    case FloatSlot => FloatValue(v.f)
    case VecSlot => VecValue(v.vec)
    case TextSlot => TextValue(v.s)
  }

  /** The attributes with attribute f assigned the value v, converted as
      the attribute's type converts it. */
  function Assign(a: Attributes, f: Field, v: FieldValue): (r: Attributes)
    requires Accepts(KindOf(f), v)
    ensures Get(r, f) == Convert(KindOf(f), v)
  {
    match f
    case NetFlags => a.(netFlags := Narrow(v.v, 4, true))
    case Position => a.(position := v.vec)
    case Angles => a.(angles := v.vec)
    case ClientNum => a.(clientNum := Narrow(v.v, 4, true))
    case ClientNumber => a.(clientNumber := Narrow(v.v, 4, true))
    case AccountId => a.(accountId := Narrow(v.v, 4, true))
    case PlayerEntityIndex => a.(playerEntityIndex := Narrow(v.v, 2, false))
    case Name => a.(name := v.s)
    case Ping => a.(ping := Narrow(v.v, 2, false))
    case Status => a.(status := Narrow(v.v, 1, false))
    case GamePhase => a.(gamePhase := Narrow(v.v, 4, false))
    case Team => a.(team := Narrow(v.v, 1, false))
    case TeamId => a.(teamId := Narrow(v.v, 4, true))
    case BaseBuildingIndex => a.(baseBuildingIndex := Narrow(v.v, 2, false))
    case Health => a.(health := v.f)
  }

  /** updatefield(name, value) on the attributes: a name the switch does
      not select, or a value the selected attribute's type does not take,
      changes nothing. */
  function Update(a: Attributes, name: string, v: FieldValue): (r: Attributes)
    ensures FieldOf(name).None? ==> r == a
    ensures FieldOf(name).Some? && !Accepts(KindOf(FieldOf(name).value), v) ==> r == a
  {
    match FieldOf(name)
    case None => a
    case Some(f) => if Accepts(KindOf(f), v) then Assign(a, f, v) else a
  }

  /** A name outside the known attributes changes nothing. */
  lemma UpdateUnknown(a: Attributes, name: string, v: FieldValue)
    requires forall f: Field :: NameOf(f) != name
    ensures Update(a, name, v) == a
  {
  }

  /** The named attribute takes the converted value when its type accepts
      the value, and keeps its value otherwise. */
  lemma UpdateSlot(a: Attributes, f: Field, v: FieldValue)
    ensures Get(Update(a, NameOf(f), v), f) == if Accepts(KindOf(f), v) then Convert(KindOf(f), v) else Get(a, f)
  {
    FieldOfName(f);
  }

  /** Assigning one attribute leaves every other one as it was. */
  lemma AssignOthers(a: Attributes, f: Field, v: FieldValue, g: Field)
    requires Accepts(KindOf(f), v) && f != g
    ensures Get(Assign(a, f, v), g) == Get(a, g)
  {
  }

  /** Every other attribute keeps its value: a call changes at most one. */
  lemma UpdateOthers(a: Attributes, name: string, v: FieldValue, g: Field)
    requires NameOf(g) != name
    ensures Get(Update(a, name, v), g) == Get(a, g)
  {
    match FieldOf(name)
    case None =>
    case Some(f) =>
      if Accepts(KindOf(f), v) {
        AssignOthers(a, f, v, g);
      }
  }

  /** The attributes are determined by their values. */
  lemma GetExtensional(a: Attributes, b: Attributes)
    requires forall f: Field :: Get(a, f) == Get(b, f)
    ensures a == b
  {
    assert Get(a, NetFlags) == Get(b, NetFlags);
    assert Get(a, Position) == Get(b, Position);
    assert Get(a, Angles) == Get(b, Angles);
    assert Get(a, ClientNum) == Get(b, ClientNum);
    assert Get(a, ClientNumber) == Get(b, ClientNumber);
    assert Get(a, AccountId) == Get(b, AccountId);
    assert Get(a, PlayerEntityIndex) == Get(b, PlayerEntityIndex);
    assert Get(a, Name) == Get(b, Name);
    assert Get(a, Ping) == Get(b, Ping);
    assert Get(a, Status) == Get(b, Status);
    assert Get(a, GamePhase) == Get(b, GamePhase);
    assert Get(a, Team) == Get(b, Team);
    assert Get(a, TeamId) == Get(b, TeamId);
    assert Get(a, BaseBuildingIndex) == Get(b, BaseBuildingIndex);
    assert Get(a, Health) == Get(b, Health);
  }

  /** Assigning an attribute the value it already holds changes nothing. */
  lemma UpdateSame(a: Attributes, f: Field, v: FieldValue)
    requires Accepts(KindOf(f), v) && Get(a, f) == Convert(KindOf(f), v)
    ensures Update(a, NameOf(f), v) == a
  {
    var b := Update(a, NameOf(f), v);
    forall g: Field
      ensures Get(b, g) == Get(a, g)
    {
      if g == f {
        UpdateSlot(a, f, v);
      } else {
        FieldOfName(f);
        FieldOfName(g);
        UpdateOthers(a, NameOf(f), v, g);
      }
    }
    GetExtensional(b, a);
  }

  /** An entity: id and type are fixed at construction; the attributes are
      updated in place. */
  class Entity {
    /** mEntId */
    const id: int
    /** mEntType */
    const entType: int
    /** mTypeInfo, looked up in the schema at construction; None when the
        schema has no such type (mTypeInfo is then left null) */
    const info: Option<TypeInfo>
    var attrs: Attributes
    var killed: bool

    /** entity(entid, type): the type information is the schema's entry for
        the type, if it has one. */
    constructor (entid: int, typ: int, schema: Schema)
      ensures id == entid && entType == typ
      ensures info == if typ in schema then Some(schema[typ]) else None
      ensures attrs == DefaultAttributes && !killed
    {
      id := entid;
      entType := typ;
      info := if typ in schema then Some(schema[typ]) else None;
      attrs := DefaultAttributes;
      killed := false;
    }

    /** alive(): m_yStatus is 0. */
    predicate Alive()
      reads this
    {
      IsAlive(attrs)
    }

    /** dormant(): m_yStatus is 1 or 5. */
    predicate Dormant()
      reads this
    {
      IsDormant(attrs)
    }

    /** updatefield(name, value) */
    method UpdateField(name: string, value: FieldValue)
      modifies this
      ensures attrs == Update(old(attrs), name, value) && killed == old(killed)
    {
      attrs := Update(attrs, name, value);
    }
  }

  /** alive(): m_yStatus is 0. */
  predicate IsAlive(a: Attributes)
  {
    a.status == StatusAlive
  }

  /** dormant(): m_yStatus is 1 or 5. */
  predicate IsDormant(a: Attributes)
  {
    a.status == StatusSpawning || a.status == StatusDormant2
  }

  /** An entity is never both alive and dormant, and a fresh entity is alive. */
  lemma AliveNotDormant(a: Attributes)
    ensures IsAlive(a) ==> !IsDormant(a)
    ensures IsAlive(DefaultAttributes) && !IsDormant(DefaultAttributes)
  {
  }
}
