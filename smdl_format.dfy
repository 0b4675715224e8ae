/*
 * The SMDL model file format as model::Load reads it: a "SMDL" signature,
 * then blocks of [4-byte big-endian tag, 4-byte little-endian length,
 * payload], the first of which must be the 'head' block. Every block is
 * parsed from its recorded offset; the functions here say what each block
 * does to the model being built, as values.
 */
module SmdlFormat {
  import opened Common
  import opened LittleEndian

  // ---------------------------------------------------------------------
  // Tags and flags

  /** 'SMDL' and the block tags, as the big-endian dwords the loader compares. */
  const TagSMDL: bv32 := 0x534D_444C
  const TagHead: bv32 := 0x6865_6164
  const TagMesh: bv32 := 0x6D65_7368
  const TagSurf: bv32 := 0x7375_7266
  const TagBone: bv32 := 0x626F_6E65
  const TagVrts: bv32 := 0x7672_7473
  const TagFace: bv32 := 0x6661_6365
  const TagTexc: bv32 := 0x7465_7863
  const TagTang: bv32 := 0x7461_6E67
  const TagNrml: bv32 := 0x6E72_6D6C
  const TagColr: bv32 := 0x636F_6C72
  const TagLnk1: bv32 := 0x6C6E_6B31
  const TagLnk2: bv32 := 0x6C6E_6B32
  const TagSign: bv32 := 0x7369_676E

  /** MeshFlags */
  const Foliage: bv64 := 0x400
  const NoHit: bv64 := 0x1000
  const Invis: bv64 := 0x2_0000_0000

  /** What stops a load: a bad signature (null is returned), a core::error
      (the process aborts), or a typed read past the end of the data. */
  datatype Status = NullModel | Fatal | Truncated | OutOfFuel

  datatype Outcome<T> = Fail(status: Status) | Ok(value: T)

  // ---------------------------------------------------------------------
  // Values read from the data


  function FloatAt(data: Bytes, i: nat): Float
    requires i + 4 <= |data|
  {
    Raw(DwordAt(data, i))
  }

  /** read<vector3f>(): three floats. */
  function Vec3At(data: Bytes, i: nat): Vec3
    requires i + 12 <= |data|
  {
    Vec3(FloatAt(data, i), FloatAt(data, i + 4), FloatAt(data, i + 8))
  }

  /** n consecutive vectors from i. */
  function Vec3s(data: Bytes, i: nat, n: nat): (r: seq<Vec3>)
    requires i + 12 * n <= |data|
    ensures |r| == n
  {
    seq(n, k requires 0 <= k < n => Vec3At(data, i + 12 * k))
  }

  /** A normal or tangent as stored: x and y negated. */
  function Flip(v: Vec3): Vec3
  {
    Vec3(Negate(v.x), Negate(v.y), v.z)
  }

  function FlippedVec3s(data: Bytes, i: nat, n: nat): (r: seq<Vec3>)
    requires i + 12 * n <= |data|
    ensures |r| == n
  {
    seq(n, k requires 0 <= k < n => Flip(Vec3At(data, i + 12 * k)))
  }

  function Dwords(data: Bytes, i: nat, n: nat): (r: seq<bv32>)
    requires i + 4 * n <= |data|
    ensures |r| == n
  {
    seq(n, k requires 0 <= k < n => DwordAt(data, i + 4 * k))
  }

  datatype TexCoord = TexCoord(u: Float, v: Float)

  function TexCoords(data: Bytes, i: nat, n: nat): (r: seq<TexCoord>)
    requires i + 8 * n <= |data|
    ensures |r| == n
  {
    seq(n, k requires 0 <= k < n => TexCoord(FloatAt(data, i + 8 * k), FloatAt(data, i + 8 * k + 4)))
  }

  datatype Plane = Plane(v: Vec3, p: Float)

  const DefaultPlane: Plane := Plane(ZeroVec3, ZeroFloat)

  function Planes(data: Bytes, i: nat, n: nat): (r: seq<Plane>)
    requires i + 16 * n <= |data|
    ensures |r| == n
  {
    seq(n, k requires 0 <= k < n => Plane(Vec3At(data, i + 16 * k), FloatAt(data, i + 16 * k + 12)))
  }

  /** Face indices of each width, widened to int: bytes unsigned, shorts and
      ints signed. */
  function ByteIndexes(data: Bytes, i: nat, n: nat): (r: seq<int>)
    requires i + n <= |data|
    ensures |r| == n
  {
    seq(n, k requires 0 <= k < n => data[i + k] as int)
  }

  function ShortIndexes(data: Bytes, i: nat, n: nat): (r: seq<int>)
    requires i + 2 * n <= |data|
    ensures |r| == n
  {
    seq(n, k requires 0 <= k < n => Int16(FromLE16(data[i + 2 * k..i + 2 * k + 2])))
  }

  function IntIndexes(data: Bytes, i: nat, n: nat): (r: seq<int>)
    requires i + 4 * n <= |data|
    ensures |r| == n
  {
    seq(n, k requires 0 <= k < n => Int32(DwordAt(data, i + 4 * k)))
  }

  /** readString(): the bytes from i up to the first zero byte, or None when
      no zero byte follows. */
  function CStringAt(data: Bytes, i: nat): (r: Option<Bytes>)
    ensures r.Some? ==> i + |r.value| < |data| && data[i + |r.value|] == 0
    decreases |data| - i
  {
    if i >= |data| then None
    else if data[i] == 0 then Some([])
    else match CStringAt(data, i + 1)
      case None => None
      case Some(t) => Some([data[i]] + t)
  }

  /** CStringAt finds the zero-free bytes before the first zero at or after
      i, and nothing when no zero follows i. */
  lemma {:induction false} CStringAtSpec(data: Bytes, i: nat)
    ensures var r := CStringAt(data, i);
            (r.Some? ==> i < |data| && r.value + [0] <= data[i..] && NoZero(r.value)) &&
            (r.None? <==> i >= |data| || NoZero(data[i..]))
    decreases |data| - i
  {
    if i < |data| && data[i] != 0 {
      CStringAtSpec(data, i + 1);
      assert data[i..] == [data[i]] + data[i + 1..];
    }
  }

  /** A zero-terminated prefix is unique. */
  lemma CStringUnique(s: Bytes, a: Bytes, b: Bytes)
    requires a + [0] <= s && NoZero(a) && b + [0] <= s && NoZero(b)
    ensures a == b
  {
    assert (a + [0])[|a|] == s[|a|] && (b + [0])[|b|] == s[|b|];
    ZeroNotBefore(s, a, |b|);
    ZeroNotBefore(s, b, |a|);
    assert a == s[..|a|] && b == s[..|b|];
  }

  /** A zero byte of s cannot lie inside a zero-free prefix of s. */
  lemma ZeroNotBefore(s: Bytes, a: Bytes, j: nat)
    requires a <= s && NoZero(a) && j < |s| && s[j] == 0
    ensures |a| <= j
  {
  }

  // ---------------------------------------------------------------------
  // The model as a value

  datatype MeshValue = MeshValue(
    name: Bytes, material: Bytes, mode: bv32, flags: bv64, bmin: Vec3, bmax: Vec3,
    vertices: seq<Vec3>, normals: seq<Vec3>, colors: seq<seq<bv32>>, faces: seq<int>,
    texcoords: seq<seq<TexCoord>>, tangents: seq<seq<Vec3>>, bonelink: bv32)

  /** mesh{}: empty strings and vectors, two colour sets, eight texture
      coordinate and tangent sets, zero mode, flags and bone link. */
  const DefaultMesh: MeshValue :=
    MeshValue([], [], 0, 0, ZeroVec3, ZeroVec3, [], [], [[], []], [],
              [[], [], [], [], [], [], [], []], [[], [], [], [], [], [], [], []], 0)

  /** The shape every mesh keeps: two colour sets and eight texture
      coordinate and tangent sets. */
  predicate WellShaped(m: MeshValue)
  {
    |m.colors| == 2 && |m.texcoords| == 8 && |m.tangents| == 8
  }

  predicate AllWellShaped(ms: seq<MeshValue>)
  {
    forall k :: 0 <= k < |ms| ==> WellShaped(ms[k])
  }

  /** The triangle indices are uint32 values. */
  datatype SurfaceValue = SurfaceValue(
    bmin: Vec3, bmax: Vec3, flags: bv32, planes: seq<Plane>, points: seq<Vec3>,
    edges: seq<Vec3>, triangles: seq<nat>)

  const DefaultSurface: SurfaceValue := SurfaceValue(ZeroVec3, ZeroVec3, 0, [], [], [], [])

  datatype ModelValue = ModelValue(meshes: seq<MeshValue>, bmin: Vec3, bmax: Vec3, surface: SurfaceValue)

  /** std::vector::resize: keep the first n elements, pad with d. */
  function Resize<T>(s: seq<T>, n: nat, d: T): (r: seq<T>)
    ensures |r| == n
    ensures forall k :: 0 <= k < n ==> r[k] == if k < |s| then s[k] else d
  {
    if n <= |s| then s[..n] else s + seq(n - |s|, _ => d)
  }

  /** mesh::NumFaces(): whole triangles in the faces array. */
  function NumFaces(m: MeshValue): nat
  {
    |m.faces| / 3
  }

  /** mesh::NumVertices() */
  function NumVertices(m: MeshValue): nat
  {
    |m.vertices|
  }

  /** mesh::AllocFaces(count): room for 3 * count indices, so NumFaces() is
      then count; the faces already there are kept and nothing else
      changes. */
  function AllocFaces(m: MeshValue, count: nat): (r: MeshValue)
    ensures |r.faces| == 3 * count && NumFaces(r) == count && r == m.(faces := r.faces)
    ensures forall k :: 0 <= k < |r.faces| && k < |m.faces| ==> r.faces[k] == m.faces[k]
  {
    m.(faces := Resize(m.faces, 3 * count, 0))
  }

  /** mesh::AllocVertices(count): NumVertices() is then count; the vertices
      already there are kept and nothing else changes. */
  function AllocVertices(m: MeshValue, count: nat): (r: MeshValue)
    ensures NumVertices(r) == count && r == m.(vertices := r.vertices)
    ensures forall k :: 0 <= k < count && k < |m.vertices| ==> r.vertices[k] == m.vertices[k]
  {
    m.(vertices := Resize(m.vertices, count, ZeroVec3))
  }

  // ---------------------------------------------------------------------
  // Mesh names

  /** pat occurs in s at index k. */
  predicate OccursAt(s: Bytes, pat: Bytes, k: nat)
  {
    k + |pat| <= |s| && s[k..k + |pat|] == pat
  }

  /** std::string::find(pat) != npos */
  predicate Contains(s: Bytes, pat: Bytes)
  {
    exists k: nat :: k <= |s| - |pat| && OccursAt(s, pat, k)
  }

  /** The bytes of "_foliage", "_nohit", "_invis" and "_trisurf". */
  const FoliageTag: Bytes := [0x5F, 0x66, 0x6F, 0x6C, 0x69, 0x61, 0x67, 0x65]
  const NoHitTag: Bytes := [0x5F, 0x6E, 0x6F, 0x68, 0x69, 0x74]
  const InvisTag: Bytes := [0x5F, 0x69, 0x6E, 0x76, 0x69, 0x73]
  const TrisurfTag: Bytes := [0x5F, 0x74, 0x72, 0x69, 0x73, 0x75, 0x72, 0x66]

  /** The flag a mesh name selects: the first of "_foliage", "_nohit",
      "_invis", "_trisurf" found anywhere in the name wins. */
  function NameFlags(name: Bytes): (r: bv64)
    ensures r == 0 || r == Foliage || r == NoHit || r == Invis
    ensures Contains(name, FoliageTag) ==> r == Foliage
  {
    if Contains(name, FoliageTag) then Foliage
    else if Contains(name, NoHitTag) then NoHit
    else if Contains(name, InvisTag) then Invis
    else if Contains(name, TrisurfTag) then Invis
    else 0
  }

  /** Exactly one of the four outcomes, each for exactly the names the
      first-match rule gives it. */
  lemma NameFlagsChoice(name: Bytes)
    ensures var f := NameFlags(name);
            (f == 0 || f == Foliage || f == NoHit || f == Invis) &&
            (f == Foliage <==> Contains(name, FoliageTag)) &&
            (f == NoHit <==> !Contains(name, FoliageTag) && Contains(name, NoHitTag)) &&
            (f == Invis <==> !Contains(name, FoliageTag) && !Contains(name, NoHitTag) &&
                             (Contains(name, InvisTag) || Contains(name, TrisurfTag))) &&
            (f == 0 <==> !Contains(name, FoliageTag) && !Contains(name, NoHitTag) &&
                         !Contains(name, InvisTag) && !Contains(name, TrisurfTag))
  {
  }

  // ---------------------------------------------------------------------
  // The block splitter

  /** A recorded block: its tag, the offset of its payload and its length. */
  datatype Block = Block(name: bv32, offset: nat, length: nat)

  /** The block loop of model::Load from index i: while the stream is not at
      its end, read the big-endian tag and the length, record the block at
      the index after them, and advance by the length taken as a signed int
      (in size_t arithmetic). fuel bounds the number of blocks, since a
      negative length can send the loop back. */
  function Split(data: Bytes, i: nat, fuel: nat): (r: Outcome<seq<Block>>)
    ensures r.Fail? ==> r.status == Truncated || r.status == OutOfFuel
    ensures r.Ok? ==> forall k :: 0 <= k < |r.value| ==> 8 <= r.value[k].offset <= |data|
    decreases fuel
  {
    if i >= |data| then Ok([])
    else if fuel == 0 then Fail(OutOfFuel)
    else if i + 8 > |data| then Fail(Truncated)
    else
      match Split(data, (i + 8 + S32At(data, i + 4)) % SizeMod, fuel - 1)
      case Fail(st) => Fail(st)
      case Ok(rest) => Ok([Block(FromBE32(data[i..i + 4]), i + 8, U32At(data, i + 4))] + rest)
  }

  /** A block as written: its tag and its payload. */
  datatype RawBlock = RawBlock(tag: bv32, payload: Bytes)

  function BE32(v: bv32): (r: Bytes)
    ensures |r| == 4
  {
    var s := LE32(v);
    [s[3], s[2], s[1], s[0]]
  }

  /** Payloads whose length is a non-negative int. */
  predicate ShortPayloads(bs: seq<RawBlock>)
  {
    forall k :: 0 <= k < |bs| ==> |bs[k].payload| < 0x8000_0000
  }

  function EncodeBlock(b: RawBlock): (r: Bytes)
    requires |b.payload| < 0x8000_0000
    ensures |r| == 8 + |b.payload|
  {
    BE32(b.tag) + NatLE32(|b.payload|) + b.payload
  }

  function EncodeBlocks(bs: seq<RawBlock>): Bytes
    requires ShortPayloads(bs)
  {
    if bs == [] then [] else EncodeBlock(bs[0]) + EncodeBlocks(bs[1..])
  }

  /** Where the blocks of EncodeBlocks(bs) lie when the encoding starts at
      index off. */
  function Locate(bs: seq<RawBlock>, off: nat): (r: seq<Block>)
    ensures |r| == |bs|
  {
    if bs == [] then []
    else [Block(bs[0].tag, off + 8, |bs[0].payload|)] + Locate(bs[1..], off + 8 + |bs[0].payload|)
  }

  lemma ShortPayloadsTail(bs: seq<RawBlock>)
    requires ShortPayloads(bs) && bs != []
    ensures ShortPayloads(bs[1..])
  {
    forall k | 0 <= k < |bs[1..]| ensures |bs[1..][k].payload| < 0x8000_0000 {
      assert bs[1..][k] == bs[k + 1];
    }
  }

  lemma BE32RoundTrip(v: bv32)
    ensures FromBE32(BE32(v)) == v
  {
    var s := LE32(v);
    assert [s[0], s[1], s[2], s[3]] == s;
    LE32RoundTrip(v, []);
  }

  /** A byte-sized number survives the trip through bv8. */
  lemma ByteBits(k: nat)
    requires k < 0x100
    ensures (k as bv8) as nat == k
  {
    var w := k as bv16;
    assert (w as bv8) == k as bv8;
  }

  /** The four little-endian bytes of a 32-bit number. */
  function NatLE32(n: nat): (r: Bytes)
    requires n < 0x1_0000_0000
    ensures |r| == 4
  {
    [(n % 0x100) as bv8, (n / 0x100 % 0x100) as bv8, (n / 0x1_0000 % 0x100) as bv8, (n / 0x100_0000) as bv8]
  }

  /** The number NatLE32(n) denotes, read back byte by byte, is n. */
  lemma NatLE32Number(n: nat)
    requires n < 0x1_0000_0000
    ensures var s := NatLE32(n);
            s[0] as nat + 0x100 * s[1] as nat + 0x1_0000 * s[2] as nat + 0x100_0000 * s[3] as nat == n
  {
    ByteBits(n % 0x100);
    ByteBits(n / 0x100 % 0x100);
    ByteBits(n / 0x1_0000 % 0x100);
    ByteBits(n / 0x100_0000);
    Digits(n);
  }

  /** n in base 256. */
  lemma Digits(n: nat)
    requires n < 0x1_0000_0000
    ensures n == n % 0x100 + 0x100 * (n / 0x100 % 0x100) + 0x1_0000 * (n / 0x1_0000 % 0x100) + 0x100_0000 * (n / 0x100_0000)
  {
    var q1 := n / 0x100;
    var q2 := q1 / 0x100;
    assert n / 0x1_0000 == q2;
    assert q2 / 0x100 == n / 0x100_0000;
    assert n == n % 0x100 + 0x100 * q1;
    assert q1 == q1 % 0x100 + 0x100 * q2;
    assert q2 == q2 % 0x100 + 0x100 * (q2 / 0x100);
  }

  /** The first block of an encoding: its tag and its length read back. */
  lemma EncodedHead(pre: Bytes, b: RawBlock, rest: Bytes)
    requires |b.payload| < 0x8000_0000
    ensures var data := pre + EncodeBlock(b) + rest; var i := |pre|;
            i + 8 <= |data| && FromBE32(data[i..i + 4]) == b.tag &&
            U32At(data, i + 4) == |b.payload| && S32At(data, i + 4) == |b.payload|
  {
    var data := pre + EncodeBlock(b) + rest;
    var i := |pre|;
    var len := NatLE32(|b.payload|);
    assert data[i..i + 4] == BE32(b.tag);
    assert data[i + 4] == len[0] && data[i + 5] == len[1] && data[i + 6] == len[2] && data[i + 7] == len[3];
    BE32RoundTrip(b.tag);
    NatLE32Number(|b.payload|);
  }

  /** Splitting encoded blocks gives back each tag, with the offset and the
      length of its payload, in order, using one unit of fuel per block. */
  lemma SplitEncoded(pre: Bytes, bs: seq<RawBlock>, fuel: nat)
    requires ShortPayloads(bs) && |pre| + |EncodeBlocks(bs)| < SizeMod && fuel > |bs|
    ensures Split(pre + EncodeBlocks(bs), |pre|, fuel) == Ok(Locate(bs, |pre|))
  {
    EncodedLaidOut(pre + EncodeBlocks(bs), pre, bs);
    SplitLaidOut(pre + EncodeBlocks(bs), |pre|, bs, fuel);
  }

  /** The blocks bs lie in data from index i to its end: each one's header
      reads back as its tag and its length. */
  ghost predicate LaidOut(data: Bytes, i: nat, bs: seq<RawBlock>)
    decreases |bs|
  {
    if bs == [] then i == |data|
    else
      var len := |bs[0].payload|;
      i + 8 + len <= |data| && FromBE32(data[i..i + 4]) == bs[0].tag &&
      U32At(data, i + 4) == len && S32At(data, i + 4) == len &&
      LaidOut(data, i + 8 + len, bs[1..])
  }

  /** Encoded blocks are laid out from where their encoding starts. */
  lemma {:induction false} EncodedLaidOut(data: Bytes, pre: Bytes, bs: seq<RawBlock>)
    requires ShortPayloads(bs) && data == pre + EncodeBlocks(bs)
    ensures LaidOut(data, |pre|, bs)
    decreases |bs|
  {
    if bs != [] {
      ShortPayloadsTail(bs);
      var eb, tail := EncodeBlock(bs[0]), EncodeBlocks(bs[1..]);
      assert EncodeBlocks(bs) == eb + tail;
      Associative(pre, eb, tail);
      EncodedHead(pre, bs[0], tail);
      EncodedLaidOut(data, pre + eb, bs[1..]);
    }
  }

  /** Split over laid-out blocks locates each of them. */
  lemma {:induction false} SplitLaidOut(data: Bytes, i: nat, bs: seq<RawBlock>, fuel: nat)
    requires LaidOut(data, i, bs) && |data| < SizeMod && fuel > |bs|
    ensures Split(data, i, fuel) == Ok(Locate(bs, i))
    decreases |bs|
  {
    if bs != [] {
      var len := |bs[0].payload|;
      var next := i + 8 + len;
      SmallMod(next, SizeMod);
      SplitLaidOut(data, next, bs[1..], fuel - 1);
      SplitCons(data, i, fuel, bs[0].tag, len, next, Locate(bs[1..], next));
    }
  }

  /** One step of Split: a block header with the given tag and length,
      whose next index splits into rest. */
  lemma SplitCons(data: Bytes, i: nat, fuel: nat, tag: bv32, len: nat, next: nat, rest: seq<Block>)
    requires i + 8 <= |data| && fuel > 0
    requires FromBE32(data[i..i + 4]) == tag && U32At(data, i + 4) == len
    requires (i + 8 + S32At(data, i + 4)) % SizeMod == next
    requires Split(data, next, fuel - 1) == Ok(rest)
    ensures Split(data, i, fuel) == Ok([Block(tag, i + 8, len)] + rest)
  {
  }

  lemma SmallMod(n: int, m: int)
    requires 0 <= n < m
    ensures n % m == n
  {
  }

  /** Each located block's payload sits at its offset in the encoding. */
  lemma {:induction false} LocatedPayloads(pre: Bytes, bs: seq<RawBlock>, k: nat)
    requires ShortPayloads(bs) && k < |bs|
    ensures var L := Locate(bs, |pre|); var data := pre + EncodeBlocks(bs);
            L[k].offset + L[k].length <= |data| &&
            data[L[k].offset..L[k].offset + L[k].length] == bs[k].payload
    decreases k
  {
    ShortPayloadsTail(bs);
    var eb, tail := EncodeBlock(bs[0]), EncodeBlocks(bs[1..]);
    assert EncodeBlocks(bs) == eb + tail;
    Associative(pre, eb, tail);
    if k == 0 {
      PayloadAt(pre, bs[0], tail);
    } else {
      LocatedPayloads(pre + eb, bs[1..], k - 1);
      assert Locate(bs, |pre|)[k] == Locate(bs[1..], |pre + eb|)[k - 1];
    }
  }

  /** The payload of an encoded block sits 8 bytes after its start. */
  lemma PayloadAt(pre: Bytes, b: RawBlock, tail: Bytes)
    requires |b.payload| < 0x8000_0000
    ensures var data := pre + EncodeBlock(b) + tail;
            |pre| + 8 + |b.payload| <= |data| && data[|pre| + 8..|pre| + 8 + |b.payload|] == b.payload
  {
    var data := pre + EncodeBlock(b) + tail;
    var i := |pre| + 8;
    forall j | 0 <= j < |b.payload|
      ensures data[i..i + |b.payload|][j] == b.payload[j]
    {
      assert data[i + j] == EncodeBlock(b)[8 + j];
    }
  }

  // ---------------------------------------------------------------------
  // The header

  datatype Header = Header(meshcount: nat, spritecount: nat, surfcount: nat, bonecount: nat, bbmin: Vec3, bbmax: Vec3)

  /** LoadHeader: the version must be 3 (otherwise a core::error), then
      four dwords and two vectors. */
  function HeaderAt(data: Bytes, off: nat): (r: Outcome<Header>)
    ensures r.Ok? <==> off + 44 <= |data| && U32At(data, off) == 3
    ensures r.Fail? ==> (r.status == Fatal <==> off + 4 <= |data| && U32At(data, off) != 3)
    ensures r.Fail? ==> r.status == Fatal || r.status == Truncated
  {
    if off + 4 > |data| then Fail(Truncated)
    else if U32At(data, off) != 3 then Fail(Fatal)
    else if off + 44 > |data| then Fail(Truncated)
    else Ok(Header(U32At(data, off + 4), U32At(data, off + 8), U32At(data, off + 12),
                   U32At(data, off + 16), Vec3At(data, off + 20), Vec3At(data, off + 32)))
  }

  // ---------------------------------------------------------------------
  // The blocks

  /** The mesh a 'mesh' block appends: name and material, mode, the name's
      flag, bounds, and NumVertices default vertices. */
  function NewMeshValue(data: Bytes, p: nat, name: Bytes, mat: Bytes): (r: MeshValue)
    requires p + 42 <= |data|
    ensures WellShaped(r) && |r.vertices| == U32At(data, p + 8) && r.flags == NameFlags(name)
  {
    var mesh := DefaultMesh.(name := name, material := mat, mode := DwordAt(data, p + 4),
                             flags := NameFlags(name), bmin := Vec3At(data, p + 12), bmax := Vec3At(data, p + 24));
    AllocVertices(mesh, U32At(data, p + 8))
  }

  /** The 42-byte record, the name and the material of a 'mesh' block. */
  datatype MeshRecord = MeshRecord(rec: Bytes, name: Bytes, mat: Bytes)

  /** The reads of a 'mesh' block: the 42-byte record (Id, Mode,
      NumVertices, two bounds, BoneLink, two name lengths), then the name and
      the material as zero-terminated strings, one after the other. */
  function MeshRecordAt(data: Bytes, p: nat): (r: Outcome<MeshRecord>)
    ensures r.Ok? ==> p + 42 <= |data| && r.value.rec == data[p..p + 42]
    ensures r.Fail? ==> r.status == Truncated
  {
    if p + 42 > |data| then Fail(Truncated)
    else match CStringAt(data, p + 42)
      case None => Fail(Truncated)
      case Some(name) =>
        match CStringAt(data, p + 42 + |name| + 1)
        case None => Fail(Truncated)
        case Some(mat) => Ok(MeshRecord(data[p..p + 42], name, mat))
  }

  /** 'mesh': the record, the name and the material; the Id must be the
      number of meshes so far, and a new mesh is appended. */
  function MeshBlock(m: ModelValue, data: Bytes, p: nat): (r: Outcome<ModelValue>)
    ensures r.Ok? ==> p + 42 <= |data| && U32At(data, p) == |m.meshes| &&
                      r.value.surface == m.surface && r.value.bmin == m.bmin && r.value.bmax == m.bmax &&
                      |r.value.meshes| == |m.meshes| + 1 && r.value.meshes[..|m.meshes|] == m.meshes &&
                      WellShaped(r.value.meshes[|m.meshes|]) &&
                      |r.value.meshes[|m.meshes|].vertices| == U32At(data, p + 8)
    ensures r.Fail? ==> r.status == Fatal || r.status == Truncated
  {
    match MeshRecordAt(data, p)
    case Fail(st) => Fail(st)
    case Ok(MeshRecord(_, name, mat)) =>
      if |m.meshes| != U32At(data, p) then Fail(Fatal)
      else Ok(m.(meshes := m.meshes + [NewMeshValue(data, p, name, mat)]))
  }

  /** The counts of a surf block's record. */
  datatype SurfCounts = SurfCounts(planes: nat, points: nat, edges: nat, tris: nat)

  function SurfCountsAt(data: Bytes, p: nat): SurfCounts
    requires p + 20 <= |data|
  {
    SurfCounts(U32At(data, p + 4), U32At(data, p + 8), U32At(data, p + 12), U32At(data, p + 16))
  }

  /** Where a surf block's planes, points, edges and triangle indices start,
      and where it ends. */
  function PointsAt(p: nat, c: SurfCounts): nat { p + 48 + 16 * c.planes }
  function EdgesAt(p: nat, c: SurfCounts): nat { PointsAt(p, c) + 12 * c.points }
  function TrisAt(p: nat, c: SurfCounts): nat { EdgesAt(p, c) + 24 * c.edges }
  function SurfEnd(p: nat, c: SurfCounts): nat { TrisAt(p, c) + 12 * c.tris }

  /** ptsoffs + readDword(), stored in a uint32_t vector. */
  function OffsetTriangles(ptsoffs: nat, data: Bytes, i: nat, n: nat): (r: seq<nat>)
    requires i + 4 * n <= |data|
    ensures |r| == n
  {
    seq(n, k requires 0 <= k < n => (ptsoffs + U32At(data, i + 4 * k)) % 0x1_0000_0000)
  }

  /** 'surf': a 20-byte record of counts, two bounds and the flags; the
      planes list is resized to NumPlanes and then NumPlanes read planes are
      appended; points and edge pairs are appended; each triangle index is
      offset by the number of points before this block, as a uint32. */
  function SurfBlock(s: SurfaceValue, data: Bytes, p: nat): (r: Outcome<SurfaceValue>)
    ensures r.Fail? ==> r.status == Truncated
  {
    if p + 20 > |data| || SurfEnd(p, SurfCountsAt(data, p)) > |data| then Fail(Truncated)
    else
      var c := SurfCountsAt(data, p);
      Ok(SurfaceValue(Vec3At(data, p + 20), Vec3At(data, p + 32), DwordAt(data, p + 44),
                      Resize(s.planes, c.planes, DefaultPlane) + Planes(data, p + 48, c.planes),
                      s.points + Vec3s(data, PointsAt(p, c), c.points),
                      s.edges + Vec3s(data, EdgesAt(p, c), 2 * c.edges),
                      s.triangles + OffsetTriangles(|s.points|, data, TrisAt(p, c), 3 * c.tris)))
  }

  /** Where the bone records from i end: each is an int, 24 floats, a name
      length byte, that many name bytes and one more byte. */
  function BonesEnd(data: Bytes, i: nat, n: nat): (r: Option<nat>)
    ensures r.Some? ==> i <= r.value <= |data|
    decreases n
  {
    if n == 0 then if i <= |data| then Some(i) else None
    else if i + 101 > |data| then None
    else
      var len := data[i + 100] as nat;
      if i + 101 + len + 1 > |data| then None
      else BonesEnd(data, i + 101 + len + 1, n - 1)
  }

  /** 'bone': bonecount bone records are read and nothing is kept. */
  function BoneBlock(m: ModelValue, h: Header, data: Bytes, p: nat): (r: Outcome<ModelValue>)
    ensures r.Ok? ==> r.value == m
    ensures r.Fail? ==> r.status == Truncated
  {
    if BonesEnd(data, p, h.bonecount).None? then Fail(Truncated) else Ok(m)
  }

  /** The mesh a block addresses by its first dword: GetMesh does not check
      the index, and an index past the mesh list is taken as fatal. */
  function MeshIndex(m: ModelValue, data: Bytes, p: nat): (r: Outcome<nat>)
    ensures r.Ok? <==> p + 4 <= |data| && U32At(data, p) < |m.meshes|
    ensures r.Ok? ==> r.value == U32At(data, p)
    ensures r.Fail? ==> r.status == Fatal || r.status == Truncated
  {
    if p + 4 > |data| then Fail(Truncated)
    else if U32At(data, p) >= |m.meshes| then Fail(Fatal)
    else Ok(U32At(data, p))
  }

  /** The model with mesh idx replaced. */
  function SetMesh(m: ModelValue, idx: nat, v: MeshValue): (r: ModelValue)
    requires idx < |m.meshes|
    ensures r.meshes == m.meshes[idx := v] && r.surface == m.surface && r.bmin == m.bmin && r.bmax == m.bmax
  {
    m.(meshes := m.meshes[idx := v])
  }

  /** 'vrts': the mesh's NumVertices() vectors are read in place. */
  function VrtsBlock(m: ModelValue, data: Bytes, p: nat): (r: Outcome<ModelValue>)
    ensures r.Ok? <==> MeshIndex(m, data, p).Ok? && p + 4 + 12 * |m.meshes[U32At(data, p)].vertices| <= |data|
    ensures r.Ok? ==> |r.value.meshes| == |m.meshes| &&
                      var idx := U32At(data, p); var v := r.value.meshes[idx].vertices;
                      |v| == |m.meshes[idx].vertices| && r.value == SetMesh(m, idx, m.meshes[idx].(vertices := v))
    ensures r.Fail? ==> r.status == Fatal || r.status == Truncated
  {
    match MeshIndex(m, data, p)
    case Fail(st) => Fail(st)
    case Ok(idx) =>
      var mesh := m.meshes[idx];
      var n := |mesh.vertices|;
      if p + 4 + 12 * n > |data| then Fail(Truncated)
      else Ok(SetMesh(m, idx, mesh.(vertices := Vec3s(data, p + 4, n))))
  }

  /** The faces a face block reads: 3 * count indices of the given width. */
  function FaceIndexes(data: Bytes, i: nat, count: nat, width: bv8): (r: Option<seq<int>>)
    ensures r.Some? ==> |r.value| == 3 * count
  {
    if width == 1 then (if i + 3 * count > |data| then None else Some(ByteIndexes(data, i, 3 * count)))
    else if width == 2 then (if i + 6 * count > |data| then None else Some(ShortIndexes(data, i, 3 * count)))
    else if i + 12 * count > |data| then None else Some(IntIndexes(data, i, 3 * count))
  }

  /** 'face': the face count and the index width; AllocFaces(count), then
      3 * count indices of that width (1, 2 or 4 bytes; any other width is
      a core::error). */
  function FaceBlock(m: ModelValue, data: Bytes, p: nat): (r: Outcome<ModelValue>)
    ensures r.Ok? ==> p + 9 <= |data| && (data[p + 8] == 1 || data[p + 8] == 2 || data[p + 8] == 4) &&
                      U32At(data, p) < |m.meshes| && |r.value.meshes| == |m.meshes| &&
                      r.value == SetMesh(m, U32At(data, p), r.value.meshes[U32At(data, p)]) &&
                      |r.value.meshes[U32At(data, p)].faces| == 3 * U32At(data, p + 4)
    ensures MeshIndex(m, data, p).Ok? && p + 9 <= |data| && !(data[p + 8] == 1 || data[p + 8] == 2 || data[p + 8] == 4) ==>
              r == Fail(Fatal)
    ensures r.Fail? ==> r.status == Fatal || r.status == Truncated
  {
    match MeshIndex(m, data, p)
    case Fail(st) => Fail(st)
    case Ok(idx) =>
      if p + 9 > |data| then Fail(Truncated)
      else
        var width := data[p + 8];
        if !(width == 1 || width == 2 || width == 4) then Fail(Fatal)
        else match FaceIndexes(data, p + 9, U32At(data, p + 4), width)
          case None => Fail(Truncated)
          case Some(faces) => Ok(SetMesh(m, idx, AllocFaces(m.meshes[idx], U32At(data, p + 4)).(faces := faces)))
  }

  /** 'texc': mesh index and set index, then one (u, v) pair per vertex into
      that texture coordinate set; a set index of 8 or more (unchecked in
      the loader) is taken as fatal. */
  function TexcBlock(m: ModelValue, data: Bytes, p: nat): (r: Outcome<ModelValue>)
    requires AllWellShaped(m.meshes)
    ensures r.Ok? <==> p + 8 <= |data| && MeshIndex(m, data, p).Ok? && U32At(data, p + 4) < 8 &&
                       p + 8 + 8 * |m.meshes[U32At(data, p)].vertices| <= |data|
    ensures r.Ok? ==> |r.value.meshes| == |m.meshes| &&
                      var idx := U32At(data, p); var mesh := m.meshes[idx];
                      U32At(data, p + 4) < |r.value.meshes[idx].texcoords| &&
                      var t := r.value.meshes[idx].texcoords[U32At(data, p + 4)];
                      |t| == |mesh.vertices| &&
                      r.value == SetMesh(m, idx, mesh.(texcoords := mesh.texcoords[U32At(data, p + 4) := t]))
    ensures r.Fail? ==> r.status == Fatal || r.status == Truncated
  {
    if p + 8 > |data| then Fail(Truncated)
    else match MeshIndex(m, data, p)
      case Fail(st) => Fail(st)
      case Ok(idx) =>
        var slot := U32At(data, p + 4);
        var mesh := m.meshes[idx];
        var n := |mesh.vertices|;
        if slot >= 8 then Fail(Fatal)
        else if p + 8 + 8 * n > |data| then Fail(Truncated)
        else Ok(SetMesh(m, idx, mesh.(texcoords := mesh.texcoords[slot := TexCoords(data, p + 8, n)])))
  }

  /** 'tang': like texc, one tangent per vertex with x and y negated. */
  function TangBlock(m: ModelValue, data: Bytes, p: nat): (r: Outcome<ModelValue>)
    requires AllWellShaped(m.meshes)
    ensures r.Ok? <==> p + 8 <= |data| && MeshIndex(m, data, p).Ok? && U32At(data, p + 4) < 8 &&
                       p + 8 + 12 * |m.meshes[U32At(data, p)].vertices| <= |data|
    ensures r.Ok? ==> |r.value.meshes| == |m.meshes| &&
                      var idx := U32At(data, p); var mesh := m.meshes[idx];
                      U32At(data, p + 4) < |r.value.meshes[idx].tangents| &&
                      var t := r.value.meshes[idx].tangents[U32At(data, p + 4)];
                      |t| == |mesh.vertices| &&
                      r.value == SetMesh(m, idx, mesh.(tangents := mesh.tangents[U32At(data, p + 4) := t]))
    ensures r.Fail? ==> r.status == Fatal || r.status == Truncated
  {
    if p + 8 > |data| then Fail(Truncated)
    else match MeshIndex(m, data, p)
      case Fail(st) => Fail(st)
      case Ok(idx) =>
        var slot := U32At(data, p + 4);
        var mesh := m.meshes[idx];
        var n := |mesh.vertices|;
        if slot >= 8 then Fail(Fatal)
        else if p + 8 + 12 * n > |data| then Fail(Truncated)
        else Ok(SetMesh(m, idx, mesh.(tangents := mesh.tangents[slot := FlippedVec3s(data, p + 8, n)])))
  }

  /** 'nrml': one normal per vertex with x and y negated. */
  function NrmlBlock(m: ModelValue, data: Bytes, p: nat): (r: Outcome<ModelValue>)
    ensures r.Ok? <==> MeshIndex(m, data, p).Ok? && p + 4 + 12 * |m.meshes[U32At(data, p)].vertices| <= |data|
    ensures r.Ok? ==> |r.value.meshes| == |m.meshes| &&
                      var idx := U32At(data, p); var n := r.value.meshes[idx].normals;
                      |n| == |m.meshes[idx].vertices| && r.value == SetMesh(m, idx, m.meshes[idx].(normals := n))
    ensures r.Fail? ==> r.status == Fatal || r.status == Truncated
  {
    match MeshIndex(m, data, p)
    case Fail(st) => Fail(st)
    case Ok(idx) =>
      var mesh := m.meshes[idx];
      var n := |mesh.vertices|;
      if p + 4 + 12 * n > |data| then Fail(Truncated)
      else Ok(SetMesh(m, idx, mesh.(normals := FlippedVec3s(data, p + 4, n))))
  }

  /** 'colr': mesh index and colour set index; a set index above 1 is a
      core::error, checked before the mesh is looked up; then one dword per
      vertex. */
  function ColrBlock(m: ModelValue, data: Bytes, p: nat): (r: Outcome<ModelValue>)
    requires AllWellShaped(m.meshes)
    ensures p + 8 <= |data| && U32At(data, p + 4) > 1 ==> r == Fail(Fatal)
    ensures r.Ok? <==> p + 8 <= |data| && U32At(data, p + 4) <= 1 && MeshIndex(m, data, p).Ok? &&
                       p + 8 + 4 * |m.meshes[U32At(data, p)].vertices| <= |data|
    ensures r.Ok? ==> |r.value.meshes| == |m.meshes| &&
                      var idx := U32At(data, p); var mesh := m.meshes[idx];
                      U32At(data, p + 4) < |r.value.meshes[idx].colors| &&
                      var c := r.value.meshes[idx].colors[U32At(data, p + 4)];
                      |c| == |mesh.vertices| &&
                      r.value == SetMesh(m, idx, mesh.(colors := mesh.colors[U32At(data, p + 4) := c]))
    ensures r.Fail? ==> r.status == Fatal || r.status == Truncated
  {
    if p + 8 > |data| then Fail(Truncated)
    else if U32At(data, p + 4) > 1 then Fail(Fatal)
    else match MeshIndex(m, data, p)
      case Fail(st) => Fail(st)
      case Ok(idx) =>
        var slot := U32At(data, p + 4);
        var mesh := m.meshes[idx];
        var n := |mesh.vertices|;
        if p + 8 + 4 * n > |data| then Fail(Truncated)
        else Ok(SetMesh(m, idx, mesh.(colors := mesh.colors[slot := Dwords(data, p + 8, n)])))
  }

  /** 'lnk1' and 'lnk2': the vertex count must match the mesh's; nothing is
      kept. */
  function LinkBlock(m: ModelValue, data: Bytes, p: nat): (r: Outcome<ModelValue>)
    ensures r.Ok? ==> r.value == m
    ensures r.Ok? <==> MeshIndex(m, data, p).Ok? && p + 8 <= |data| &&
                       U32At(data, p + 4) == |m.meshes[U32At(data, p)].vertices|
    ensures r.Fail? ==> r.status == Fatal || r.status == Truncated
  {
    match MeshIndex(m, data, p)
    case Fail(st) => Fail(st)
    case Ok(idx) =>
      if p + 8 > |data| then Fail(Truncated)
      else if U32At(data, p + 4) != |m.meshes[idx].vertices| then Fail(Fatal)
      else Ok(m)
  }

  /** One block after the header, parsed from its offset. 'sign' and any
      unknown tag (a second 'head' included) leave the model unchanged. */
  function ApplyBlock(m: ModelValue, h: Header, data: Bytes, b: Block): (r: Outcome<ModelValue>)
    requires AllWellShaped(m.meshes)
    ensures r.Fail? ==> r.status == Fatal || r.status == Truncated
    ensures r.Ok? ==> AllWellShaped(r.value.meshes)
    ensures r.Ok? && b.name != TagMesh ==> |r.value.meshes| == |m.meshes|
    ensures r.Ok? && b.name != TagSurf ==> r.value.surface == m.surface
    ensures b.name !in {TagMesh, TagSurf, TagBone, TagVrts, TagFace, TagTexc, TagTang, TagNrml, TagColr, TagLnk1, TagLnk2} ==> r == Ok(m)
  {
    var p := b.offset;
    if b.name == TagMesh then MeshBlock(m, data, p)
    else if b.name == TagSurf then
      match SurfBlock(m.surface, data, p)
      case Fail(st) => Fail(st)
      case Ok(s) => Ok(m.(surface := s))
    else if b.name == TagBone then BoneBlock(m, h, data, p)
    else if b.name == TagVrts then VrtsBlock(m, data, p)
    else if b.name == TagFace then FaceBlock(m, data, p)
    else if b.name == TagTexc then TexcBlock(m, data, p)
    else if b.name == TagTang then TangBlock(m, data, p)
    else if b.name == TagNrml then NrmlBlock(m, data, p)
    else if b.name == TagColr then ColrBlock(m, data, p)
    else if b.name == TagLnk1 || b.name == TagLnk2 then LinkBlock(m, data, p)
    else Ok(m)
  }

  /** The blocks in order; the first failure stops the load. */
  function ApplyBlocks(m: ModelValue, h: Header, data: Bytes, bs: seq<Block>): (r: Outcome<ModelValue>)
    requires AllWellShaped(m.meshes)
    ensures r.Fail? ==> r.status == Fatal || r.status == Truncated
    ensures r.Ok? ==> AllWellShaped(r.value.meshes)
    decreases |bs|
  {
    if bs == [] then Ok(m)
    else match ApplyBlock(m, h, data, bs[0])
      case Fail(st) => Fail(st)
      case Ok(next) => ApplyBlocks(next, h, data, bs[1..])
  }

  /** The model the header starts: no meshes, the header's bounds, an empty
      surface. */
  function InitialModel(h: Header): (r: ModelValue)
    ensures r.meshes == [] && r.bmin == h.bbmin && r.bmax == h.bbmax
  {
    ModelValue([], h.bbmin, h.bbmax, DefaultSurface)
  }

  /** model::Load on the data from index start: a missing "SMDL" signature
      gives null; the first block must be 'head' with a version-3 header,
      whose bounds become the model's; then every later block is applied. */
  function LoadSpec(data: Bytes, start: nat, fuel: nat): (r: Outcome<ModelValue>)
    ensures r == Fail(NullModel) <==> start + 4 <= |data| && FromBE32(data[start..start + 4]) != TagSMDL
    ensures r.Ok? ==> start + 4 <= |data| && FromBE32(data[start..start + 4]) == TagSMDL &&
                      Split(data, start + 4, fuel).Ok? && |Split(data, start + 4, fuel).value| > 0 &&
                      Split(data, start + 4, fuel).value[0].name == TagHead &&
                      HeaderAt(data, Split(data, start + 4, fuel).value[0].offset).Ok?
  {
    if start + 4 > |data| then Fail(Truncated)
    else if FromBE32(data[start..start + 4]) != TagSMDL then Fail(NullModel)
    else match Split(data, start + 4, fuel)
      case Fail(st) => Fail(st)
      case Ok(bs) =>
        if |bs| == 0 || bs[0].name != TagHead then Fail(Fatal)
        else match HeaderAt(data, bs[0].offset)
          case Fail(st) => Fail(st)
          case Ok(h) => ApplyBlocks(InitialModel(h), h, data, bs[1..])
  }

  // ---------------------------------------------------------------------
  // Properties of a load

  /** The number of mesh blocks among bs. */
  function MeshBlocks(bs: seq<Block>): nat
  {
    if bs == [] then 0 else (if bs[0].name == TagMesh then 1 else 0) + MeshBlocks(bs[1..])
  }

  /** Mesh blocks must carry the ids 0, 1, 2, ... in order: when the blocks
      apply, each mesh block has as Id the number of mesh blocks before it
      (plus the meshes already there), and the model ends with one mesh per
      mesh block. */
  lemma {:induction false} MeshIdsInOrder(m: ModelValue, h: Header, data: Bytes, bs: seq<Block>)
    requires AllWellShaped(m.meshes)
    requires ApplyBlocks(m, h, data, bs).Ok?
    ensures |ApplyBlocks(m, h, data, bs).value.meshes| == |m.meshes| + MeshBlocks(bs)
    ensures forall k :: 0 <= k < |bs| && bs[k].name == TagMesh ==>
              bs[k].offset + 4 <= |data| && U32At(data, bs[k].offset) == |m.meshes| + MeshBlocks(bs[..k])
    decreases |bs|
  {
    if bs != [] {
      MeshIdHead(m, h, data, bs);
      var next := ApplyBlock(m, h, data, bs[0]).value;
      MeshIdsInOrder(next, h, data, bs[1..]);
      forall k | 0 <= k < |bs| && bs[k].name == TagMesh
        ensures bs[k].offset + 4 <= |data| && U32At(data, bs[k].offset) == |m.meshes| + MeshBlocks(bs[..k])
      {
        if k > 0 {
          assert bs[1..][k - 1] == bs[k];
          MeshBlocksPrefix(bs, k);
        } else {
          assert bs[..k] == [];
        }
      }
    }
  }

  /** The first of the blocks that apply: it applies, the rest apply to
      its result, it adds a mesh exactly when it is a mesh block, and then
      its Id is the number of meshes already there. */
  lemma MeshIdHead(m: ModelValue, h: Header, data: Bytes, bs: seq<Block>)
    requires AllWellShaped(m.meshes) && bs != [] && ApplyBlocks(m, h, data, bs).Ok?
    ensures ApplyBlock(m, h, data, bs[0]).Ok?
    ensures var next := ApplyBlock(m, h, data, bs[0]).value;
            ApplyBlocks(next, h, data, bs[1..]) == ApplyBlocks(m, h, data, bs) &&
            |next.meshes| == |m.meshes| + (if bs[0].name == TagMesh then 1 else 0) &&
            (bs[0].name == TagMesh ==> bs[0].offset + 4 <= |data| && U32At(data, bs[0].offset) == |m.meshes|)
  {
  }

  /** The mesh blocks among the first k: the first block's, then those
      among the next k - 1. */
  lemma MeshBlocksPrefix(bs: seq<Block>, k: nat)
    requires 0 < k <= |bs|
    ensures MeshBlocks(bs[..k]) == (if bs[0].name == TagMesh then 1 else 0) + MeshBlocks(bs[1..][..k - 1])
  {
    assert bs[..k][1..] == bs[1..][..k - 1];
  }

  /** A load that succeeds has one mesh per mesh block, created in Id
      order. */
  lemma LoadedMeshes(data: Bytes, start: nat, fuel: nat)
    requires LoadSpec(data, start, fuel).Ok?
    ensures |LoadSpec(data, start, fuel).value.meshes| == MeshBlocks(Split(data, start + 4, fuel).value[1..])
    ensures var bs := Split(data, start + 4, fuel).value;
            forall k :: 1 <= k < |bs| && bs[k].name == TagMesh ==>
              bs[k].offset + 4 <= |data| && U32At(data, bs[k].offset) == MeshBlocks(bs[1..k])
  {
    var bs := Split(data, start + 4, fuel).value;
    var h := HeaderAt(data, bs[0].offset).value;
    MeshIdsInOrder(InitialModel(h), h, data, bs[1..]);
    forall k | 1 <= k < |bs| && bs[k].name == TagMesh
      ensures bs[k].offset + 4 <= |data| && U32At(data, bs[k].offset) == MeshBlocks(bs[1..k])
    {
      assert bs[1..][k - 1] == bs[k];
      assert bs[1..][..k - 1] == bs[1..k];
    }
  }

  /** After a surf block the planes list holds NumPlanes resized entries
      followed by NumPlanes read ones; points, edges and triangles keep
      what they had and grow by NumPoints, 2 * NumEdges and 3 * NumTris;
      and every triangle index read is shifted by the point count before
      the block, modulo 2^32. */
  lemma SurfShape(s: SurfaceValue, data: Bytes, p: nat, s': SurfaceValue)
    requires SurfBlock(s, data, p) == Ok(s')
    ensures p + 20 <= |data| && SurfEnd(p, SurfCountsAt(data, p)) <= |data|
    ensures var c := SurfCountsAt(data, p);
            |s'.planes| == 2 * c.planes && s'.planes[..c.planes] == Resize(s.planes, c.planes, DefaultPlane) &&
            |s'.points| == |s.points| + c.points && s'.points[..|s.points|] == s.points &&
            |s'.edges| == |s.edges| + 2 * c.edges && s'.edges[..|s.edges|] == s.edges &&
            |s'.triangles| == |s.triangles| + 3 * c.tris && s'.triangles[..|s.triangles|] == s.triangles
    ensures forall k :: |s.triangles| <= k < |s'.triangles| ==>
              s'.triangles[k] < 0x1_0000_0000 &&
              s'.triangles[k] == (|s.points| + U32At(data, TrisAt(p, SurfCountsAt(data, p)) + 4 * (k - |s.triangles|))) % 0x1_0000_0000
  {
    var c := SurfCountsAt(data, p);
    assert s'.planes[..c.planes] == Resize(s.planes, c.planes, DefaultPlane);
    assert s'.points[..|s.points|] == s.points;
    assert s'.edges[..|s.edges|] == s.edges;
    assert s'.triangles[..|s.triangles|] == s.triangles;
  }

  /** On a model without planes, the first surf block's planes are
      NumPlanes default planes followed by the NumPlanes planes read. */
  lemma FirstSurfPlanes(s: SurfaceValue, data: Bytes, p: nat, s': SurfaceValue)
    requires s.planes == [] && SurfBlock(s, data, p) == Ok(s')
    ensures p + 48 + 16 * U32At(data, p + 4) <= |data|
    ensures s'.planes == seq(U32At(data, p + 4), _ => DefaultPlane) + Planes(data, p + 48, U32At(data, p + 4))
  {
    var n := U32At(data, p + 4);
    assert Resize(s.planes, n, DefaultPlane) == seq(n, _ => DefaultPlane);
  }
}
