/*
 * s2::model and model::Load: the loader reads an SMDL stream through a
 * bytestream cursor into a freshly built model. The model keeps its meshes
 * by value in a vector, so a mesh reference (NewMesh, GetMesh) is an index
 * into that vector and the writes through it replace that slot. Every step
 * is proved to agree with the value-level reading in SmdlFormat.
 */
module SmdlModel {
  import opened Common
  import opened ByteStream
  import opened LittleEndian
  import opened SmdlFormat

  // ---------------------------------------------------------------------
  // The model

  class Model {
    /** mMeshes */
    var meshes: seq<MeshValue>
    /** mBounds */
    var bmin: Vec3
    var bmax: Vec3
    /** mSurface */
    var surface: SurfaceValue

    /** The model's fields as a value. */
    function Value(): ModelValue
      reads this
    {
      ModelValue(meshes, bmin, bmax, surface)
    }

    /** Every mesh has two colour sets and eight texture coordinate and
        tangent sets. */
    ghost predicate Valid()
      reads this
    {
      AllWellShaped(meshes)
    }

    /** model{}: no meshes, zero bounds, an empty surface. */
    constructor ()
      ensures Valid() && Value() == ModelValue([], ZeroVec3, ZeroVec3, DefaultSurface)
    {
      meshes := [];
      bmin, bmax := ZeroVec3, ZeroVec3;
      surface := DefaultSurface;
    }

    /** NewMesh(): appends a default mesh and returns (the index of) it;
        NumMeshes() grows by one and nothing else changes. */
    method NewMesh() returns (id: nat)
      requires Valid()
      modifies this
      ensures Valid() && id == old(NumMeshes()) && NumMeshes() == old(NumMeshes()) + 1
      ensures Value() == old(Value()).(meshes := old(meshes) + [DefaultMesh])
    {
      id := |meshes|;
      meshes := meshes + [DefaultMesh];
    }

    /** GetMesh(id): the mesh at id. The index is not checked; the block
        readers look it up only after MeshIndex has accepted it. */
    function GetMesh(id: nat): (mesh: MeshValue)
      reads this
      requires id < |meshes|
      ensures mesh == Value().meshes[id]
    {
      meshes[id]
    }

    function NumMeshes(): (n: nat)
      reads this
      ensures n == |Value().meshes|
    {
      |meshes|
    }
  }

  /** A block reader's result against its value-level reading: the same
      failure, or no failure and the model equal to the block's result. */
  predicate Agrees(o: Outcome<ModelValue>, err: Option<Status>, v: ModelValue)
  {
    if o.Fail? then err == Some(o.status) else err.None? && v == o.value
  }

  // ---------------------------------------------------------------------
  // Typed reads

  /** read<vector3f>(): one 12-byte read of three floats. */
  method ReadVec3(stream: ByteStream) returns (r: Option<Vec3>)
    modifies stream
    ensures r.Some? <==> old(stream.CanRead(12))
    ensures r.Some? ==> r.value == Vec3At(stream.data, old(stream.readIdx)) && stream.readIdx == old(stream.readIdx) + 12
    ensures r.None? ==> stream.readIdx == old(stream.readIdx)
  {
    var b := stream.Read(12);
    if b.None? {
      return None;
    }
    RecordVec3(stream.data, old(stream.readIdx), b.value, 0);
    r := Some(Vec3At(b.value, 0));
  }

  /** Fields of a record read in one piece are the fields of the data at
      the record's offset. */
  lemma RecordDword(data: Bytes, p: nat, rec: Bytes, k: nat)
    requires p + |rec| <= |data| && rec == data[p..p + |rec|] && k + 4 <= |rec|
    ensures U32At(rec, k) == U32At(data, p + k) && DwordAt(rec, k) == DwordAt(data, p + k)
  {
    RecordSlice(data, p, rec, k, 4);
  }

  /** n bytes of a record read in one piece are the data's n bytes at the
      record's offset. */
  lemma RecordSlice(data: Bytes, p: nat, rec: Bytes, k: nat, n: nat)
    requires p + |rec| <= |data| && rec == data[p..p + |rec|] && k + n <= |rec|
    ensures rec[k..k + n] == data[p + k..p + k + n]
  {
    var mine, theirs := rec[k..k + n], data[p + k..p + k + n];
    forall j | 0 <= j < n
      ensures mine[j] == theirs[j]
    {
      assert rec[k + j] == data[p + k + j];
    }
    assert mine == theirs;
  }

  lemma RecordVec3(data: Bytes, p: nat, rec: Bytes, k: nat)
    requires p + |rec| <= |data| && rec == data[p..p + |rec|] && k + 12 <= |rec|
    ensures Vec3At(rec, k) == Vec3At(data, p + k)
  {
    var q := p + k;
    RecordSlice(data, p, rec, k, 4);
    RecordSlice(data, p, rec, k + 4, 4);
    RecordSlice(data, p, rec, k + 8, 4);
    assert DwordAt(rec, k) == DwordAt(data, q);
    assert DwordAt(rec, k + 4) == DwordAt(data, q + 4);
    assert DwordAt(rec, k + 8) == DwordAt(data, q + 8);
  }

  /** What readString() returns from index i is CStringAt(data, i). */
  lemma CStringMatches(data: Bytes, i: nat, rest: Bytes, r: Option<Bytes>)
    requires rest == if i <= |data| then data[i..] else []
    requires r.Some? ==> r.value + [0] <= rest && NoZero(r.value)
    requires r.None? <==> NoZero(rest)
    ensures r == CStringAt(data, i)
  {
    CStringAtSpec(data, i);
    if r.Some? {
      CStringUnique(rest, r.value, CStringAt(data, i).value);
    }
  }

  // ---------------------------------------------------------------------
  // Loops reading arrays

  /** n read<vector3f>() calls, stored in order. */
  method ReadVec3s(stream: ByteStream, n: nat) returns (r: Option<seq<Vec3>>)
    requires stream.readIdx <= |stream.data|
    modifies stream
    ensures r.Some? <==> old(stream.readIdx) + 12 * n <= |stream.data|
    ensures r.Some? ==> r.value == Vec3s(stream.data, old(stream.readIdx), n) &&
                        stream.readIdx == old(stream.readIdx) + 12 * n
  {
    ghost var data, q := stream.data, stream.readIdx;
    var vs: seq<Vec3> := [];
    var i := 0;
    while i < n
      invariant 0 <= i <= n && stream.readIdx == q + 12 * i <= |data|
      invariant vs == Vec3s(data, q, i)
    {
      var v := ReadVec3(stream);
      if v.None? {
        return None;
      }
      vs := vs + [v.value];
      i := i + 1;
    }
    r := Some(vs);
  }

  /** n vectors read with x and y negated, as the nrml and tang loops
      store them. */
  method ReadFlippedVec3s(stream: ByteStream, n: nat) returns (r: Option<seq<Vec3>>)
    requires stream.readIdx <= |stream.data|
    modifies stream
    ensures r.Some? <==> old(stream.readIdx) + 12 * n <= |stream.data|
    ensures r.Some? ==> r.value == FlippedVec3s(stream.data, old(stream.readIdx), n)
  {
    ghost var data, q := stream.data, stream.readIdx;
    var vs: seq<Vec3> := [];
    var i := 0;
    while i < n
      invariant 0 <= i <= n && stream.readIdx == q + 12 * i <= |data|
      invariant vs == FlippedVec3s(data, q, i)
    {
      var v := ReadVec3(stream);
      if v.None? {
        return None;
      }
      var t := v.value;
      t := t.(x := Negate(t.x));
      t := t.(y := Negate(t.y));
      vs := vs + [t];
      i := i + 1;
    }
    r := Some(vs);
  }

  /** n (u, v) float pairs. */
  method ReadTexCoords(stream: ByteStream, n: nat) returns (r: Option<seq<TexCoord>>)
    requires stream.readIdx <= |stream.data|
    modifies stream
    ensures r.Some? <==> old(stream.readIdx) + 8 * n <= |stream.data|
    ensures r.Some? ==> r.value == TexCoords(stream.data, old(stream.readIdx), n)
  {
    ghost var data, q := stream.data, stream.readIdx;
    var ts: seq<TexCoord> := [];
    var i := 0;
    while i < n
      invariant 0 <= i <= n && stream.readIdx == q + 8 * i <= |data|
      invariant ts == TexCoords(data, q, i)
    {
      var u := stream.ReadFloat();
      if u.None? {
        return None;
      }
      var v := stream.ReadFloat();
      if v.None? {
        return None;
      }
      ts := ts + [TexCoord(u.value, v.value)];
      i := i + 1;
    }
    r := Some(ts);
  }

  /** n readDword() values. */
  method ReadDwords(stream: ByteStream, n: nat) returns (r: Option<seq<bv32>>)
    requires stream.readIdx <= |stream.data|
    modifies stream
    ensures r.Some? <==> old(stream.readIdx) + 4 * n <= |stream.data|
    ensures r.Some? ==> r.value == Dwords(stream.data, old(stream.readIdx), n)
  {
    ghost var data, q := stream.data, stream.readIdx;
    var cs: seq<bv32> := [];
    var i := 0;
    while i < n
      invariant 0 <= i <= n && stream.readIdx == q + 4 * i <= |data|
      invariant cs == Dwords(data, q, i)
    {
      var c := stream.ReadDword();
      if c.None? {
        return None;
      }
      cs := cs + [c.value];
      i := i + 1;
    }
    r := Some(cs);
  }

  /** n planes, each a vector and a float. */
  method ReadPlanes(stream: ByteStream, n: nat) returns (r: Option<seq<Plane>>)
    requires stream.readIdx <= |stream.data|
    modifies stream
    ensures r.Some? <==> old(stream.readIdx) + 16 * n <= |stream.data|
    ensures r.Some? ==> r.value == Planes(stream.data, old(stream.readIdx), n) &&
                        stream.readIdx == old(stream.readIdx) + 16 * n
  {
    ghost var data, q := stream.data, stream.readIdx;
    var ps: seq<Plane> := [];
    var i := 0;
    while i < n
      invariant 0 <= i <= n && stream.readIdx == q + 16 * i <= |data|
      invariant ps == Planes(data, q, i)
    {
      var v := ReadVec3(stream);
      if v.None? {
        return None;
      }
      var d := stream.ReadFloat();
      if d.None? {
        return None;
      }
      ps := ps + [Plane(v.value, d.value)];
      i := i + 1;
    }
    r := Some(ps);
  }

  /** n edges, each two vectors pushed one after the other. */
  method ReadEdges(stream: ByteStream, n: nat) returns (r: Option<seq<Vec3>>)
    requires stream.readIdx <= |stream.data|
    modifies stream
    ensures r.Some? <==> old(stream.readIdx) + 24 * n <= |stream.data|
    ensures r.Some? ==> r.value == Vec3s(stream.data, old(stream.readIdx), 2 * n) &&
                        stream.readIdx == old(stream.readIdx) + 24 * n
  {
    ghost var data, q := stream.data, stream.readIdx;
    var es: seq<Vec3> := [];
    var i := 0;
    while i < n
      invariant 0 <= i <= n && stream.readIdx == q + 24 * i <= |data|
      invariant es == Vec3s(data, q, 2 * i)
    {
      var e1 := ReadVec3(stream);
      if e1.None? {
        return None;
      }
      var e2 := ReadVec3(stream);
      if e2.None? {
        return None;
      }
      es := es + [e1.value] + [e2.value];
      i := i + 1;
    }
    r := Some(es);
  }

  /** n triangles of three dwords, each pushed as ptsoffs + readDword()
      into a uint32 vector. */
  method ReadTriangles(stream: ByteStream, ptsoffs: nat, n: nat) returns (r: Option<seq<nat>>)
    requires stream.readIdx <= |stream.data|
    modifies stream
    ensures r.Some? <==> old(stream.readIdx) + 12 * n <= |stream.data|
    ensures r.Some? ==> r.value == OffsetTriangles(ptsoffs, stream.data, old(stream.readIdx), 3 * n)
  {
    ghost var data, q := stream.data, stream.readIdx;
    var ts: seq<nat> := [];
    var i := 0;
    while i < n
      invariant 0 <= i <= n && stream.readIdx == q + 12 * i <= |data|
      invariant ts == OffsetTriangles(ptsoffs, data, q, 3 * i)
    {
      var a := ReadU32(stream);
      if a.None? {
        return None;
      }
      var b := ReadU32(stream);
      if b.None? {
        return None;
      }
      var c := ReadU32(stream);
      if c.None? {
        return None;
      }
      ts := ts + [(ptsoffs + a.value) % 0x1_0000_0000, (ptsoffs + b.value) % 0x1_0000_0000,
                  (ptsoffs + c.value) % 0x1_0000_0000];
      i := i + 1;
    }
    r := Some(ts);
  }

  /** count faces of three byte indices. */
  method ReadByteFaces(stream: ByteStream, count: nat) returns (r: Option<seq<int>>)
    requires stream.readIdx <= |stream.data|
    modifies stream
    ensures r.Some? <==> old(stream.readIdx) + 3 * count <= |stream.data|
    ensures r.Some? ==> r.value == ByteIndexes(stream.data, old(stream.readIdx), 3 * count)
  {
    ghost var data, q := stream.data, stream.readIdx;
    var fs: seq<int> := [];
    var i := 0;
    while i < count
      invariant 0 <= i <= count && stream.readIdx == q + 3 * i <= |data|
      invariant fs == ByteIndexes(data, q, 3 * i)
    {
      var a := stream.ReadByte();
      if a.None? {
        return None;
      }
      var b := stream.ReadByte();
      if b.None? {
        return None;
      }
      var c := stream.ReadByte();
      if c.None? {
        return None;
      }
      fs := fs + [a.value as int, b.value as int, c.value as int];
      i := i + 1;
    }
    r := Some(fs);
  }

  /** count faces of three signed short indices. */
  method ReadShortFaces(stream: ByteStream, count: nat) returns (r: Option<seq<int>>)
    requires stream.readIdx <= |stream.data|
    modifies stream
    ensures r.Some? <==> old(stream.readIdx) + 6 * count <= |stream.data|
    ensures r.Some? ==> r.value == ShortIndexes(stream.data, old(stream.readIdx), 3 * count)
  {
    ghost var data, q := stream.data, stream.readIdx;
    var fs: seq<int> := [];
    var i := 0;
    while i < count
      invariant 0 <= i <= count && stream.readIdx == q + 6 * i <= |data|
      invariant fs == ShortIndexes(data, q, 3 * i)
    {
      var a := stream.ReadShort();
      if a.None? {
        return None;
      }
      var b := stream.ReadShort();
      if b.None? {
        return None;
      }
      var c := stream.ReadShort();
      if c.None? {
        return None;
      }
      fs := fs + [a.value, b.value, c.value];
      i := i + 1;
    }
    r := Some(fs);
  }

  /** count faces of three signed int indices. */
  method ReadIntFaces(stream: ByteStream, count: nat) returns (r: Option<seq<int>>)
    requires stream.readIdx <= |stream.data|
    modifies stream
    ensures r.Some? <==> old(stream.readIdx) + 12 * count <= |stream.data|
    ensures r.Some? ==> r.value == IntIndexes(stream.data, old(stream.readIdx), 3 * count)
  {
    ghost var data, q := stream.data, stream.readIdx;
    var fs: seq<int> := [];
    var i := 0;
    while i < count
      invariant 0 <= i <= count && stream.readIdx == q + 12 * i <= |data|
      invariant fs == IntIndexes(data, q, 3 * i)
    {
      var a := stream.ReadInt();
      if a.None? {
        return None;
      }
      var b := stream.ReadInt();
      if b.None? {
        return None;
      }
      var c := stream.ReadInt();
      if c.None? {
        return None;
      }
      fs := fs + [a.value, b.value, c.value];
      i := i + 1;
    }
    r := Some(fs);
  }

  // ---------------------------------------------------------------------
  // The header

  /** LoadHeader: the version dword must be 3 (otherwise core::error), then
      four count dwords and the two bounding vectors. */
  method LoadHeader(stream: ByteStream) returns (r: Outcome<Header>)
    modifies stream
    ensures r == HeaderAt(stream.data, old(stream.readIdx))
  {
    var version := ReadU32(stream);
    if version.None? {
      return Fail(Truncated);
    }
    if version.value != 3 {
      return Fail(Fatal);
    }
    var meshcount := ReadU32(stream);
    if meshcount.None? {
      return Fail(Truncated);
    }
    var spritecount := ReadU32(stream);
    if spritecount.None? {
      return Fail(Truncated);
    }
    var surfcount := ReadU32(stream);
    if surfcount.None? {
      return Fail(Truncated);
    }
    var bonecount := ReadU32(stream);
    if bonecount.None? {
      return Fail(Truncated);
    }
    var bbmin := ReadVec3(stream);
    if bbmin.None? {
      return Fail(Truncated);
    }
    var bbmax := ReadVec3(stream);
    if bbmax.None? {
      return Fail(Truncated);
    }
    r := Ok(Header(meshcount.value, spritecount.value, surfcount.value, bonecount.value, bbmin.value, bbmax.value));
  }

  // ---------------------------------------------------------------------
  // 'mesh'

  /** 'mesh': the record, the name and the material; the Id must equal
      NumMeshes() (otherwise core::error); then a new mesh takes the name,
      material, mode, name flag and bounds, and AllocVertices(NumVertices). */
  method ReadMeshBlock(model: Model, stream: ByteStream, p: nat) returns (err: Option<Status>)
    requires model.Valid() && stream.readIdx == p
    modifies model, stream
    ensures Agrees(MeshBlock(old(model.Value()), stream.data, p), err, model.Value())
    ensures err.None? ==> model.Valid()
  {
    ghost var m0 := model.Value();
    var r := ReadMeshRecord(stream, p);
    if r.Fail? {
      return Some(r.status);
    }
    var MeshRecord(rec, name, mat) := r.value;
    MeshRecordFields(stream.data, p, rec, name, mat);
    if model.NumMeshes() != U32At(rec, 0) {
      return Some(Fatal);
    }
    var id := model.NewMesh();
    var mesh := FillMesh(model.GetMesh(id), rec, name, mat);
    model.meshes := model.meshes[id := mesh];
    ReplaceLast(m0.meshes, DefaultMesh, mesh);
    AppendWellShaped(m0.meshes, mesh);
    MeshBlockOk(m0, stream.data, p, rec, name, mat);
    err := None;
  }

  /** A 'mesh' block whose reads succeed and whose Id is the mesh count
      appends the new mesh. */
  lemma MeshBlockOk(m: ModelValue, data: Bytes, p: nat, rec: Bytes, name: Bytes, mat: Bytes)
    requires MeshRecordAt(data, p) == Ok(MeshRecord(rec, name, mat)) && U32At(data, p) == |m.meshes|
    ensures MeshBlock(m, data, p) == Ok(m.(meshes := m.meshes + [NewMeshValue(data, p, name, mat)]))
  {
  }

  /** Appending a well-shaped mesh keeps every mesh well shaped. */
  lemma AppendWellShaped(ms: seq<MeshValue>, x: MeshValue)
    requires AllWellShaped(ms) && WellShaped(x)
    ensures AllWellShaped(ms + [x])
  {
    forall k | 0 <= k < |ms + [x]| ensures WellShaped((ms + [x])[k]) {
      if k < |ms| {
        assert (ms + [x])[k] == ms[k];
      }
    }
  }

  /** Filling in the mesh NewMesh appended. */
  lemma ReplaceLast<T>(s: seq<T>, d: T, x: T)
    ensures (s + [d])[|s| := x] == s + [x]
  {
  }

  /** The reads of the 'mesh' case: the record in one read, the name, a
      seek past the name, and the material. */
  method ReadMeshRecord(stream: ByteStream, p: nat) returns (r: Outcome<MeshRecord>)
    requires stream.readIdx == p
    modifies stream
    ensures r == MeshRecordAt(stream.data, p)
  {
    ghost var data := stream.data;
    var rec := stream.Read(42);
    if rec.None? {
      return Fail(Truncated);
    }
    var name := ReadStringAt(stream, p + 42);
    if name.None? {
      return Fail(Truncated);
    }
    var mat := ReadStringAt(stream, p + 42 + |name.value| + 1);
    if mat.None? {
      return Fail(Truncated);
    }
    r := Ok(MeshRecord(rec.value, name.value, mat.value));
  }

  /** seek(i) then readString(): the zero-terminated string at i. */
  method ReadStringAt(stream: ByteStream, i: nat) returns (r: Option<Bytes>)
    modifies stream
    ensures r == CStringAt(stream.data, i)
  {
    stream.Seek(i);
    ghost var rest := stream.Rest();
    r := stream.ReadCString();
    CStringMatches(stream.data, i, rest, r);
  }

  /** The fields of a 'mesh' record read in one piece are those of the data. */
  lemma MeshRecordFields(data: Bytes, p: nat, rec: Bytes, name: Bytes, mat: Bytes)
    requires p + 42 <= |data| && rec == data[p..p + 42]
    ensures U32At(rec, 0) == U32At(data, p)
    ensures NewMeshValue(rec, 0, name, mat) == NewMeshValue(data, p, name, mat)
  {
    RecordDword(data, p, rec, 0);
    RecordDword(data, p, rec, 4);
    RecordDword(data, p, rec, 8);
    RecordVec3(data, p, rec, 12);
    RecordVec3(data, p, rec, 24);
  }

  /** The member assignments of the 'mesh' case on the new mesh. */
  method FillMesh(mesh: MeshValue, rec: Bytes, name: Bytes, mat: Bytes) returns (m: MeshValue)
    requires |rec| == 42 && mesh == DefaultMesh
    ensures m == NewMeshValue(rec, 0, name, mat)
  {
    m := mesh.(name := name, material := mat, mode := DwordAt(rec, 4));
    var flag := NameFlag(name);
    OrZero(m.flags, flag);
    m := m.(flags := m.flags | flag);
    m := m.(bmin := Vec3At(rec, 12), bmax := Vec3At(rec, 24));
    m := AllocVertices(m, U32At(rec, 8));
  }

  /** The flag the 'mesh' case ors into a new mesh: the first of the four
      name suffixes that name.find locates, or none. */
  method NameFlag(name: Bytes) returns (f: bv64)
    ensures f == NameFlags(name)
  {
    f := 0;
    if Contains(name, FoliageTag) {
      f := Foliage;
    } else if Contains(name, NoHitTag) {
      f := NoHit;
    } else if Contains(name, InvisTag) {
      f := Invis;
    } else if Contains(name, TrisurfTag) {
      f := Invis;
    }
  }

  lemma OrZero(a: bv64, b: bv64)
    requires a == 0
    ensures a | b == b
  {
  }

  // ---------------------------------------------------------------------
  // 'surf' and 'bone'

  /** 'surf': the count record, the bounds and the flags, then the lists;
      the bounds and flags are stored once the lists are read. */
  method ReadSurfBlock(model: Model, stream: ByteStream, p: nat) returns (err: Option<Status>)
    requires stream.readIdx == p
    modifies model, stream
    ensures var o := SurfBlock(old(model.surface), stream.data, p);
            (o.Fail? ==> err == Some(o.status)) &&
            (o.Ok? ==> err.None? && model.Value() == old(model.Value()).(surface := o.value))
  {
    var r := ReadSurface(stream, model.surface, p);
    if r.Fail? {
      return Some(r.status);
    }
    model.surface := r.value;
    err := None;
  }

  /** The reads of a 'surf' block on the surface value s. */
  method ReadSurface(stream: ByteStream, s: SurfaceValue, p: nat) returns (r: Outcome<SurfaceValue>)
    requires stream.readIdx == p
    modifies stream
    ensures r == SurfBlock(s, stream.data, p)
  {
    ghost var data := stream.data;
    var rec := stream.Read(20);
    if rec.None? {
      return Fail(Truncated);
    }
    var c := SurfRecord(data, p, rec.value);
    var bminf := ReadVec3(stream);
    if bminf.None? {
      return Fail(Truncated);
    }
    var bmaxf := ReadVec3(stream);
    if bmaxf.None? {
      return Fail(Truncated);
    }
    var flags := stream.ReadDword();
    if flags.None? {
      return Fail(Truncated);
    }
    var lists := ReadSurfLists(stream, s, p, c);
    if lists.None? {
      return Fail(Truncated);
    }
    r := Ok(lists.value.(bmin := bminf.value, bmax := bmaxf.value, flags := flags.value));
  }

  /** The lists of a 'surf' block: the planes list resized to NumPlanes with
      NumPlanes read planes pushed after it; points, edge pairs and offset
      triangle indices pushed. */
  method ReadSurfLists(stream: ByteStream, s: SurfaceValue, p: nat, c: SurfCounts) returns (r: Option<SurfaceValue>)
    requires stream.readIdx == p + 48 <= |stream.data|
    modifies stream
    ensures r.Some? <==> SurfEnd(p, c) <= |stream.data|
    ensures r.Some? ==> r.value == s.(planes := Resize(s.planes, c.planes, DefaultPlane) + Planes(stream.data, p + 48, c.planes),
                                      points := s.points + Vec3s(stream.data, PointsAt(p, c), c.points),
                                      edges := s.edges + Vec3s(stream.data, EdgesAt(p, c), 2 * c.edges),
                                      triangles := s.triangles + OffsetTriangles(|s.points|, stream.data, TrisAt(p, c), 3 * c.tris))
  {
    var planes := ReadPlanes(stream, c.planes);
    if planes.None? {
      return None;
    }
    var points := ReadVec3s(stream, c.points);
    if points.None? {
      return None;
    }
    var edges := ReadEdges(stream, c.edges);
    if edges.None? {
      return None;
    }
    var tris := ReadTriangles(stream, |s.points|, c.tris);
    if tris.None? {
      return None;
    }
    r := Some(s.(planes := Resize(s.planes, c.planes, DefaultPlane) + planes.value,
                 points := s.points + points.value, edges := s.edges + edges.value,
                 triangles := s.triangles + tris.value));
  }

  /** The counts of a surf record read in one piece. */
  method SurfRecord(ghost data: Bytes, p: nat, rec: Bytes) returns (c: SurfCounts)
    requires p + 20 <= |data| && rec == data[p..p + 20]
    ensures c == SurfCountsAt(data, p)
  {
    RecordDword(data, p, rec, 4);
    RecordDword(data, p, rec, 8);
    RecordDword(data, p, rec, 12);
    RecordDword(data, p, rec, 16);
    c := SurfCounts(U32At(rec, 4), U32At(rec, 8), U32At(rec, 12), U32At(rec, 16));
  }

  /** 'bone': bonecount records of a parent int, two 4x3 float matrices, a
      name length byte, the name and one more byte; nothing is kept. */
  method ReadBoneBlock(stream: ByteStream, p: nat, bonecount: nat) returns (err: Option<Status>)
    requires stream.readIdx == p
    modifies stream
    ensures err.None? <==> BonesEnd(stream.data, p, bonecount).Some?
    ensures err.Some? ==> err.value == Truncated
  {
    ghost var data := stream.data;
    var i := 0;
    while i < bonecount
      invariant 0 <= i <= bonecount
      invariant BonesEnd(data, p, bonecount) == BonesEnd(data, stream.readIdx, bonecount - i)
    {
      var ok := ReadBone(stream);
      if !ok {
        return Some(Truncated);
      }
      i := i + 1;
    }
    err := if stream.readIdx <= |stream.data| then None else Some(Truncated);
  }

  /** One bone record. */
  method ReadBone(stream: ByteStream) returns (ok: bool)
    modifies stream
    ensures var q, data := old(stream.readIdx), stream.data;
            ok <==> q + 101 <= |data| && q + 101 + data[q + 100] as nat + 1 <= |data|
    ensures ok ==> stream.readIdx == old(stream.readIdx) + 101 + stream.data[old(stream.readIdx) + 100] as nat + 1
  {
    ghost var q := stream.readIdx;
    var parent := stream.ReadInt();
    if parent.None? {
      return false;
    }
    var j := 0;
    while j < 24
      invariant 0 <= j <= 24 && stream.readIdx == q + 4 + 4 * j <= |stream.data|
    {
      var f := stream.ReadFloat();
      if f.None? {
        return false;
      }
      j := j + 1;
    }
    var nameLen := stream.ReadByte();
    if nameLen.None? {
      return false;
    }
    var name := stream.ReadFixedString(nameLen.value as nat);
    if name.None? {
      return false;
    }
    var last := stream.ReadByte();
    ok := last.Some?;
  }

  // ---------------------------------------------------------------------
  // Blocks addressing one mesh

  /** readDword() as a mesh index: GetMesh does not check it, and an index
      past the mesh list is taken as fatal. */
  method ReadMeshIndex(model: Model, stream: ByteStream, p: nat) returns (r: Outcome<nat>)
    requires stream.readIdx == p
    modifies stream
    ensures r == MeshIndex(model.Value(), stream.data, p)
    ensures r.Ok? ==> stream.readIdx == p + 4
  {
    var id := ReadU32(stream);
    if id.None? {
      return Fail(Truncated);
    }
    if id.value >= model.NumMeshes() {
      return Fail(Fatal);
    }
    r := Ok(id.value);
  }

  /** 'vrts': NumVertices() vectors overwrite the mesh's vertices (its
      resize to NumVertices() changes nothing). */
  method ReadVrtsBlock(model: Model, stream: ByteStream, p: nat) returns (err: Option<Status>)
    requires model.Valid() && stream.readIdx == p
    modifies model, stream
    ensures Agrees(VrtsBlock(old(model.Value()), stream.data, p), err, model.Value())
    ensures err.None? ==> model.Valid()
  {
    var idx := ReadMeshIndex(model, stream, p);
    if idx.Fail? {
      return Some(idx.status);
    }
    var mesh := model.GetMesh(idx.value);
    var vs := ReadVec3s(stream, NumVertices(mesh));
    if vs.None? {
      return Some(Truncated);
    }
    model.meshes := model.meshes[idx.value := mesh.(vertices := vs.value)];
    err := None;
  }

  /** 'face': the face count and the index width; AllocFaces(count), then
      count triangles of indices of that width; another width is a
      core::error. */
  method ReadFaceBlock(model: Model, stream: ByteStream, p: nat) returns (err: Option<Status>)
    requires model.Valid() && stream.readIdx == p
    modifies model, stream
    ensures Agrees(FaceBlock(old(model.Value()), stream.data, p), err, model.Value())
    ensures err.None? ==> model.Valid()
  {
    var idx := ReadMeshIndex(model, stream, p);
    if idx.Fail? {
      return Some(idx.status);
    }
    var numFaces := ReadU32(stream);
    if numFaces.None? {
      return Some(Truncated);
    }
    var idxsize := stream.ReadByte();
    if idxsize.None? {
      return Some(Truncated);
    }
    var mesh := AllocFaces(model.GetMesh(idx.value), numFaces.value);
    var faces: Option<seq<int>>;
    if idxsize.value == 1 {
      faces := ReadByteFaces(stream, numFaces.value);
    } else if idxsize.value == 2 {
      faces := ReadShortFaces(stream, numFaces.value);
    } else if idxsize.value == 4 {
      faces := ReadIntFaces(stream, numFaces.value);
    } else {
      return Some(Fatal);
    }
    if faces.None? {
      return Some(Truncated);
    }
    model.meshes := model.meshes[idx.value := mesh.(faces := faces.value)];
    err := None;
  }

  /** 'texc': mesh index and set index, then one (u, v) pair per vertex
      into that set; a set index of 8 or more is taken as fatal. */
  method ReadTexcBlock(model: Model, stream: ByteStream, p: nat) returns (err: Option<Status>)
    requires model.Valid() && stream.readIdx == p
    modifies model, stream
    ensures Agrees(TexcBlock(old(model.Value()), stream.data, p), err, model.Value())
    ensures err.None? ==> model.Valid()
  {
    var meshidx := ReadU32(stream);
    if meshidx.None? {
      return Some(Truncated);
    }
    var texidx := ReadU32(stream);
    if texidx.None? {
      return Some(Truncated);
    }
    if meshidx.value >= model.NumMeshes() || texidx.value >= 8 {
      return Some(Fatal);
    }
    var mesh := model.GetMesh(meshidx.value);
    var ts := ReadTexCoords(stream, NumVertices(mesh));
    if ts.None? {
      return Some(Truncated);
    }
    model.meshes := model.meshes[meshidx.value := mesh.(texcoords := mesh.texcoords[texidx.value := ts.value])];
    err := None;
  }

  /** 'tang': like texc, one tangent per vertex with x and y negated. */
  method ReadTangBlock(model: Model, stream: ByteStream, p: nat) returns (err: Option<Status>)
    requires model.Valid() && stream.readIdx == p
    modifies model, stream
    ensures Agrees(TangBlock(old(model.Value()), stream.data, p), err, model.Value())
    ensures err.None? ==> model.Valid()
  {
    var meshidx := ReadU32(stream);
    if meshidx.None? {
      return Some(Truncated);
    }
    var tngidx := ReadU32(stream);
    if tngidx.None? {
      return Some(Truncated);
    }
    if meshidx.value >= model.NumMeshes() || tngidx.value >= 8 {
      return Some(Fatal);
    }
    var mesh := model.GetMesh(meshidx.value);
    var ts := ReadFlippedVec3s(stream, NumVertices(mesh));
    if ts.None? {
      return Some(Truncated);
    }
    model.meshes := model.meshes[meshidx.value := mesh.(tangents := mesh.tangents[tngidx.value := ts.value])];
    err := None;
  }

  /** 'nrml': one normal per vertex with x and y negated. */
  method ReadNrmlBlock(model: Model, stream: ByteStream, p: nat) returns (err: Option<Status>)
    requires model.Valid() && stream.readIdx == p
    modifies model, stream
    ensures Agrees(NrmlBlock(old(model.Value()), stream.data, p), err, model.Value())
    ensures err.None? ==> model.Valid()
  {
    var idx := ReadMeshIndex(model, stream, p);
    if idx.Fail? {
      return Some(idx.status);
    }
    var mesh := model.GetMesh(idx.value);
    var ns := ReadFlippedVec3s(stream, NumVertices(mesh));
    if ns.None? {
      return Some(Truncated);
    }
    model.meshes := model.meshes[idx.value := mesh.(normals := ns.value)];
    err := None;
  }

  /** 'colr': mesh index and colour set index (above 1 is a core::error,
      checked before the mesh is looked up), then one dword per vertex. */
  method ReadColrBlock(model: Model, stream: ByteStream, p: nat) returns (err: Option<Status>)
    requires model.Valid() && stream.readIdx == p
    modifies model, stream
    ensures Agrees(ColrBlock(old(model.Value()), stream.data, p), err, model.Value())
    ensures err.None? ==> model.Valid()
  {
    var meshidx := ReadU32(stream);
    if meshidx.None? {
      return Some(Truncated);
    }
    var clridx := ReadU32(stream);
    if clridx.None? {
      return Some(Truncated);
    }
    if clridx.value > 1 {
      return Some(Fatal);
    }
    if meshidx.value >= model.NumMeshes() {
      return Some(Fatal);
    }
    var mesh := model.GetMesh(meshidx.value);
    var cs := ReadDwords(stream, NumVertices(mesh));
    if cs.None? {
      return Some(Truncated);
    }
    model.meshes := model.meshes[meshidx.value := mesh.(colors := mesh.colors[clridx.value := cs.value])];
    err := None;
  }

  /** 'lnk1' and 'lnk2': the vertex count must be the mesh's (otherwise
      core::error); nothing is kept. */
  method ReadLinkBlock(model: Model, stream: ByteStream, p: nat) returns (err: Option<Status>)
    requires stream.readIdx == p
    modifies stream
    ensures Agrees(LinkBlock(model.Value(), stream.data, p), err, model.Value())
  {
    var idx := ReadMeshIndex(model, stream, p);
    if idx.Fail? {
      return Some(idx.status);
    }
    var numverts := ReadU32(stream);
    if numverts.None? {
      return Some(Truncated);
    }
    if NumVertices(model.GetMesh(idx.value)) != numverts.value {
      return Some(Fatal);
    }
    err := None;
  }

  // ---------------------------------------------------------------------
  // model::Load

  /** The switch on a block's tag, with the stream at the block's offset;
      'sign' and unknown tags (warned about) change nothing. */
  method ApplyBlockTo(model: Model, stream: ByteStream, h: Header, b: Block) returns (err: Option<Status>)
    requires model.Valid() && stream.readIdx == b.offset
    modifies model, stream
    ensures Agrees(ApplyBlock(old(model.Value()), h, stream.data, b), err, model.Value())
    ensures err.None? ==> model.Valid()
  {
    var p := b.offset;
    if b.name == TagMesh {
      err := ReadMeshBlock(model, stream, p);
    } else if b.name == TagSurf {
      err := ReadSurfBlock(model, stream, p);
    } else if b.name == TagBone {
      err := ReadBoneBlock(stream, p, h.bonecount);
    } else if b.name == TagVrts {
      err := ReadVrtsBlock(model, stream, p);
    } else if b.name == TagFace {
      err := ReadFaceBlock(model, stream, p);
    } else if b.name == TagTexc {
      err := ReadTexcBlock(model, stream, p);
    } else if b.name == TagTang {
      err := ReadTangBlock(model, stream, p);
    } else if b.name == TagNrml {
      err := ReadNrmlBlock(model, stream, p);
    } else if b.name == TagColr {
      err := ReadColrBlock(model, stream, p);
    } else if b.name == TagLnk1 || b.name == TagLnk2 {
      err := ReadLinkBlock(model, stream, p);
    } else {
      err := None;
    }
  }

  /** The blocks bs followed by those o holds, or o's failure. */
  function Then(bs: seq<Block>, o: Outcome<seq<Block>>): Outcome<seq<Block>>
  {
    if o.Fail? then o else Ok(bs + o.value)
  }

  /** The block loop: while not at the end of the stream, the big-endian
      tag, the length, the block recorded at the index after them, and
      advance(len); fuel bounds the number of blocks. */
  method SplitBlocks(stream: ByteStream, fuel: nat) returns (r: Outcome<seq<Block>>)
    modifies stream
    ensures r == Split(stream.data, old(stream.readIdx), fuel)
  {
    ghost var data, i0 := stream.data, stream.readIdx;
    var blocks: seq<Block> := [];
    var f := fuel;
    ghost var rest := Split(data, i0, fuel);
    if rest.Ok? {
      assert blocks + rest.value == rest.value;
    }
    while !stream.Eof()
      invariant rest == Split(data, stream.readIdx, f)
      invariant Split(data, i0, fuel) == Then(blocks, rest)
      decreases f
    {
      if f == 0 {
        return Fail(OutOfFuel);
      }
      ghost var i := stream.readIdx;
      var block := ReadBlock(stream);
      if block.None? {
        return Fail(Truncated);
      }
      ghost var next := stream.readIdx;
      ghost var rest' := Split(data, next, f - 1);
      SplitStep(data, i, f, blocks, block.value, next, Split(data, i0, fuel), rest, rest');
      blocks := blocks + [block.value];
      f := f - 1;
      rest := rest';
    }
    assert blocks + [] == blocks;
    r := Ok(blocks);
  }

  /** One turn of the block loop: the big-endian tag, the length, the
      block recorded at the index after them, and advance(len) with len
      taken as a signed int in size_t arithmetic. */
  method ReadBlock(stream: ByteStream) returns (r: Option<Block>)
    modifies stream
    ensures var i, data := old(stream.readIdx), stream.data;
            (r.Some? <==> i + 8 <= |data|) &&
            (r.Some? ==> r.value == Block(FromBE32(data[i..i + 4]), i + 8, U32At(data, i + 4)) &&
                         stream.readIdx == (i + 8 + S32At(data, i + 4)) % SizeMod)
  {
    ghost var i := stream.readIdx;
    var name := stream.ReadDwordBE();
    if name.None? {
      return None;
    }
    var len := stream.ReadDword();
    if len.None? {
      return None;
    }
    DwordNumber(stream.data, i + 4);
    r := Some(Block(name.value, stream.readIdx, len.value as nat));
    AdvanceFrom(stream, i + 8, S32At(stream.data, i + 4), Int32(len.value));
  }

  /** One turn of the block loop extends the recorded blocks by the block
      Split puts first. */
  lemma SplitStep(data: Bytes, i: nat, f: nat, blocks: seq<Block>, block: Block, next: nat,
                  whole: Outcome<seq<Block>>, rest: Outcome<seq<Block>>, rest': Outcome<seq<Block>>)
    requires i < |data| && i + 8 <= |data| && f > 0
    requires block == Block(FromBE32(data[i..i + 4]), i + 8, U32At(data, i + 4))
    requires next == (i + 8 + S32At(data, i + 4)) % SizeMod
    requires rest == Split(data, i, f) && rest' == Split(data, next, f - 1) && whole == Then(blocks, rest)
    ensures whole == Then(blocks + [block], rest')
  {
    if rest'.Ok? {
      assert blocks + ([block] + rest'.value) == blocks + [block] + rest'.value;
    }
  }

  /** model::Load: the "SMDL" signature (otherwise null), the block loop,
      a 'head' first block (otherwise core::error) holding a version-3
      header whose bounds become the model's, then each later block read
      from its offset; the first failure ends the load. */
  method Load(stream: ByteStream, fuel: nat) returns (r: Outcome<Model>)
    modifies stream
    ensures r.Fail? ==> LoadSpec(stream.data, old(stream.readIdx), fuel) == Fail(r.status)
    ensures r.Ok? ==> fresh(r.value) && r.value.Valid() &&
                      LoadSpec(stream.data, old(stream.readIdx), fuel) == Ok(r.value.Value())
  {
    ghost var data, start := stream.data, stream.readIdx;
    var sig := stream.ReadDwordBE();
    if sig.None? {
      return Fail(Truncated);
    }
    if sig.value != TagSMDL {
      return Fail(NullModel);
    }
    var model := new Model();
    var split := SplitBlocks(stream, fuel);
    if split.Fail? {
      return Fail(split.status);
    }
    var blocks := split.value;
    if |blocks| == 0 || blocks[0].name != TagHead {
      return Fail(Fatal);
    }
    stream.Seek(blocks[0].offset);
    var hdr := LoadHeader(stream);
    if hdr.Fail? {
      return Fail(hdr.status);
    }
    var h := hdr.value;
    model.bmin := h.bbmin;
    model.bmax := h.bbmax;
    assert LoadSpec(data, start, fuel) == ApplyBlocks(model.Value(), h, data, blocks[1..]);
    var err := ApplyLaterBlocks(model, stream, h, blocks);
    if err.Some? {
      return Fail(err.value);
    }
    r := Ok(model);
  }

  /** The loop of model::Load over the blocks after 'head': each one read
      from its offset, in order, until the first failure. */
  method ApplyLaterBlocks(model: Model, stream: ByteStream, h: Header, blocks: seq<Block>) returns (err: Option<Status>)
    requires model.Valid() && |blocks| >= 1
    modifies model, stream
    ensures Agrees(ApplyBlocks(old(model.Value()), h, stream.data, blocks[1..]), err, model.Value())
    ensures err.None? ==> model.Valid()
  {
    ghost var whole := ApplyBlocks(model.Value(), h, stream.data, blocks[1..]);
    var i := 1;
    while i < |blocks|
      invariant 1 <= i <= |blocks|
      invariant model.Valid()
      invariant whole == ApplyBlocks(model.Value(), h, stream.data, blocks[i..])
    {
      stream.Seek(blocks[i].offset);
      err := ApplyBlockTo(model, stream, h, blocks[i]);
      assert blocks[i..][1..] == blocks[i + 1..];
      if err.Some? {
        return;
      }
      i := i + 1;
    }
    assert blocks[i..] == [];
    err := None;
  }
}
