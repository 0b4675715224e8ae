/*
 * The pieces of a server snapshot read off a packet: the flag-gated game
 * event (gameevent::read), the head of an entity record
 * (entitysnapshot::read) and the plain snapshot header (snapshot::read).
 *
 * An event starts with a flags word; bit k (0 <= k <= 10) says whether the
 * k-th optional field follows, and the fields that are present follow in
 * bit order. Here the reader (ReadEvent) goes field by field as the client
 * does, and the reference definition (DecodeEvent) places each field at its
 * offset: 2 plus the widths of the present fields before it.
 */
module Snapshot {
  import opened Common
  import opened Packet

  /** The fields of an event. A field is None when its flag bit is clear
      (the client then leaves it unassigned). */
  datatype GameEvent = GameEvent(
    flags: bv16,
    expire: Option<bv32>,      // bit 0, dword
    ent: Option<bv16>,         // bit 1, word
    pos: Option<Vec3>,         // bit 2, three words
    angles: Option<Vec3>,      // bit 3, three bytes
    scale: Option<Float>,      // bit 4, single
    ent2: Option<bv16>,        // bit 5, word
    pos2: Option<Vec3>,        // bit 6, three words
    angles2: Option<Vec3>,     // bit 7, three bytes scaled to degrees
    scale2: Option<Float>,     // bit 8, single
    effect: Option<bv16>,      // bit 9, word
    sound: Option<bv16>)       // bit 10, word

  /** The number of optional fields. */
  const FieldCount: nat := 11

  /** The wire width of the optional field of each flag bit. */
  const Widths: seq<nat> := [4, 2, 6, 3, 4, 2, 6, 3, 4, 2, 2]

  /** The mask of flag bit k (the `has` bit-field of the client's event). */
  const Bits: seq<bv16> := [0x1, 0x2, 0x4, 0x8, 0x10, 0x20, 0x40, 0x80, 0x100, 0x200, 0x400]

  /** Flag bits 0 to 10, lowest first. */
  function FlagBits(flags: bv16): (r: seq<bool>)
    ensures |r| == FieldCount
  {
    [flags & 0x1 != 0, flags & 0x2 != 0, flags & 0x4 != 0, flags & 0x8 != 0,
     flags & 0x10 != 0, flags & 0x20 != 0, flags & 0x40 != 0, flags & 0x80 != 0,
     flags & 0x100 != 0, flags & 0x200 != 0, flags & 0x400 != 0]
  }

  /** Flag bit k is set. */
  predicate Has(flags: bv16, k: nat)
    requires k < FieldCount
  {
    FlagBits(flags)[k]
  }

  /** Where the field of bit k starts: after the flags word and the present
      fields of the lower bits. */
  function Offset(flags: bv16, k: nat): (r: nat)
    requires k <= FieldCount
    ensures r >= 2
  {
    if k == 0 then 2
    else Offset(flags, k - 1) + (if Has(flags, k - 1) then Widths[k - 1] else 0)
  }

  /** The bytes an event occupies. */
  function EventSize(flags: bv16): nat
  {
    Offset(flags, FieldCount)
  }

  /** The bytes of the field of bit k within s, when the bit is set. */
  function FieldOpt(s: Bytes, flags: bv16, k: nat): (r: Option<Bytes>)
    requires k < FieldCount && Offset(flags, k + 1) <= |s|
    ensures r.Some? ==> |r.value| == Widths[k]
  {
    if Has(flags, k) then Some(s[Offset(flags, k)..Offset(flags, k + 1)]) else None
  }

  /** A float converted from an integer, exactly. */
  function FromInt(i: int): Float
  {
    Exact(i as real)
  }

  /** Three little-endian words, each converted to a float. */
  function WordVec(b: Bytes): (r: Vec3)
    requires |b| == 6
    ensures r.x.Exact? && r.y.Exact? && r.z.Exact?
    ensures 0.0 <= r.x.value < 65536.0 && 0.0 <= r.y.value < 65536.0 && 0.0 <= r.z.value < 65536.0
  {
    Vec3(FromInt(FromLE16(b[0..2]) as int), FromInt(FromLE16(b[2..4]) as int), FromInt(FromLE16(b[4..6]) as int))
  }

  /** Three bytes, each converted to a float. */
  function ByteVec(b: Bytes): Vec3
    requires |b| == 3
  {
    Vec3(FromInt(b[0] as int), FromInt(b[1] as int), FromInt(b[2] as int))
  }

  /** A byte angle in degrees: b / 255 * 360. */
  function Degrees(b: bv8): Float
  {
    Exact((b as int as real) / 255.0 * 360.0)
  }

  /** Three byte angles, each scaled to degrees. */
  function DegreesVec(b: Bytes): Vec3
    requires |b| == 3
  {
    Vec3(Degrees(b[0]), Degrees(b[1]), Degrees(b[2]))
  }

  /** An optional field's bytes, converted by f. */
  function MapBytes<T>(o: Option<Bytes>, f: Bytes --> T): Option<T>
    requires o.Some? ==> f.requires(o.value)
  {
    if o.Some? then Some(f(o.value)) else None
  }

  /** The event with flags f whose optional fields have the bytes F. */
  function EventOf(f: bv16, F: seq<Option<Bytes>>): GameEvent
    requires |F| == FieldCount && forall k :: 0 <= k < FieldCount && F[k].Some? ==> |F[k].value| == Widths[k]
  {
    GameEvent(f,
      MapBytes(F[0], b requires |b| == 4 => FromLE32(b)),
      MapBytes(F[1], b requires |b| == 2 => FromLE16(b)),
      MapBytes(F[2], b requires |b| == 6 => WordVec(b)),
      MapBytes(F[3], b requires |b| == 3 => ByteVec(b)),
      MapBytes(F[4], b requires |b| == 4 => Raw(FromLE32(b))),
      MapBytes(F[5], b requires |b| == 2 => FromLE16(b)),
      MapBytes(F[6], b requires |b| == 6 => WordVec(b)),
      MapBytes(F[7], b requires |b| == 3 => DegreesVec(b)),
      MapBytes(F[8], b requires |b| == 4 => Raw(FromLE32(b))),
      MapBytes(F[9], b requires |b| == 2 => FromLE16(b)),
      MapBytes(F[10], b requires |b| == 2 => FromLE16(b)))
  }

  /** The bytes of every optional field of the event at the start of s. */
  function Fields(s: Bytes, f: bv16): (F: seq<Option<Bytes>>)
    requires EventSize(f) <= |s|
    ensures |F| == FieldCount
  {
    OffsetMonoAll(f);
    seq(FieldCount, k requires 0 <= k < FieldCount => FieldOpt(s, f, k))
  }

  /** The event at the start of s and the number of bytes it occupies;
      None when s ends before it does. */
  function DecodeEvent(s: Bytes): (r: Option<(GameEvent, nat)>)
    ensures r.Some? ==> 2 <= r.value.1 <= |s| && r.value.1 == EventSize(r.value.0.flags)
  {
    if |s| < 2 then None
    else
      var f := FromLE16(s[..2]);
      if |s| < EventSize(f) then None
      else Some((EventOf(f, Fields(s, f)), EventSize(f)))
  }

  // ---------------------------------------------------------------------
  // Properties of the layout

  /** Offsets never decrease. */
  lemma {:induction false} OffsetMono(flags: bv16, j: nat, k: nat)
    requires j <= k <= FieldCount
    ensures Offset(flags, j) <= Offset(flags, k)
    decreases k - j
  {
    if j < k {
      OffsetMono(flags, j, k - 1);
    }
  }

  lemma OffsetMonoAll(flags: bv16)
    ensures forall j, k :: 0 <= j <= k <= FieldCount ==> Offset(flags, j) <= Offset(flags, k)
  {
    forall j, k | 0 <= j <= k <= FieldCount
      ensures Offset(flags, j) <= Offset(flags, k)
    {
      OffsetMono(flags, j, k);
    }
  }

  /** Bits 11 to 15 of the flags consume nothing. */
  lemma EventSizeHighBits(flags: bv16)
    ensures EventSize(flags) == EventSize(flags & 0x7FF)
  {
    assert FlagBits(flags & 0x7FF) == FlagBits(flags);
    OffsetSameBits(flags, flags & 0x7FF, FieldCount);
  }

  /** The layout depends on flag bits 0 to 10 alone. */
  lemma {:induction false} OffsetSameBits(f: bv16, g: bv16, j: nat)
    requires j <= FieldCount && FlagBits(f) == FlagBits(g)
    ensures Offset(f, j) == Offset(g, j)
  {
    if j > 0 {
      OffsetSameBits(f, g, j - 1);
    }
  }

  /** An event occupies 2 to 40 bytes. */
  lemma EventSizeRange(flags: bv16)
    ensures 2 <= EventSize(flags) <= 40
  {
    OffsetAtMost(flags, FieldCount);
  }

  /** An event is 2 bytes when no field is present and 40 when all are. */
  lemma EventSizeExtremes()
    ensures EventSize(0) == 2 && EventSize(0x7FF) == 40
  {
    assert FlagBits(0) == seq(FieldCount, _ => false);
    OffsetNone(0, FieldCount);
    assert FlagBits(0x7FF) == seq(FieldCount, _ => true);
    OffsetAll(0x7FF, FieldCount);
  }

  /** The offsets of the fields when every one is present. */
  const FullOffsets: seq<nat> := [2, 6, 8, 14, 17, 21, 23, 29, 32, 36, 38, 40]

  lemma FullOffsetsStep(j: nat)
    requires 0 < j <= FieldCount
    ensures FullOffsets[j] == FullOffsets[j - 1] + Widths[j - 1]
  {
    if j == 1 {} else if j == 2 {} else if j == 3 {} else if j == 4 {} else if j == 5 {}
    else if j == 6 {} else if j == 7 {} else if j == 8 {} else if j == 9 {} else if j == 10 {}
    else {}
  }

  lemma {:induction false} OffsetNone(flags: bv16, j: nat)
    requires j <= FieldCount && FlagBits(flags) == seq(FieldCount, _ => false)
    ensures Offset(flags, j) == 2
  {
    if j > 0 {
      OffsetNone(flags, j - 1);
    }
  }

  lemma {:induction false} OffsetAll(flags: bv16, j: nat)
    requires j <= FieldCount && FlagBits(flags) == seq(FieldCount, _ => true)
    ensures Offset(flags, j) == FullOffsets[j]
  {
    if j > 0 {
      OffsetAll(flags, j - 1);
      FullOffsetsStep(j);
    }
  }

  lemma {:induction false} OffsetAtMost(flags: bv16, j: nat)
    requires j <= FieldCount
    ensures Offset(flags, j) <= FullOffsets[j]
  {
    if j > 0 {
      OffsetAtMost(flags, j - 1);
      FullOffsetsStep(j);
    }
  }

  // ---------------------------------------------------------------------
  // The reader

  /** The read of the field of bit k at the cursor: Some(None) and no bytes
      when the bit is clear, the field's bytes when it is set, None when the
      packet runs out. The cursor is then at the offset of field k + 1. */
  method ReadField(pkt: Packet, f: bv16, k: nat, ghost s: Bytes, ghost i0: nat) returns (r: Option<Option<Bytes>>)
    requires k < FieldCount && i0 <= |pkt.data| && s == pkt.data[i0..] && pkt.readIdx == i0 + Offset(f, k) && Offset(f, k) <= |s|
    modifies pkt
    ensures pkt.data == old(pkt.data)
    ensures r.Some? <==> Offset(f, k + 1) <= |s|
    ensures r.Some? ==> pkt.readIdx == i0 + Offset(f, k + 1) && r.value == FieldOpt(s, f, k)
  {
    if !Has(f, k) {
      return Some(None);
    }
    var b := pkt.ReadN(Widths[k]);
    if b.None? {
      return None;
    }
    assert b.value == s[Offset(f, k)..Offset(f, k + 1)];
    return Some(Some(b.value));
  }

  /** gameevent::read: the flags word, then each present field in bit
      order. The event read is DecodeEvent's, and it occupies the bytes
      DecodeEvent says; None when the packet runs out first. */
  method ReadEvent(pkt: Packet) returns (r: Option<GameEvent>)
    modifies pkt
    ensures pkt.data == old(pkt.data)
    ensures var d := DecodeEvent(old(pkt.Rest()));
            (r.Some? <==> d.Some?) &&
            (r.Some? ==> r.value == d.value.0 && pkt.readIdx == old(pkt.readIdx) + d.value.1)
  {
    ghost var s := pkt.Rest();
    ghost var i0 := pkt.readIdx;
    var flags := pkt.ReadWord();
    if flags.None? {
      return None;
    }
    var f := flags.value;
    assert pkt.data[i0..i0 + 2] == s[..2];
    var F := ReadFields(pkt, f, s, i0);
    if F.None? {
      return None;
    }
    r := Some(EventOf(f, F.value));
  }

  /** The optional fields of an event with flags f, read one after the
      other in bit order (the client spells the eleven conditional reads
      out; here one loop walks the table of widths); the cursor ends after
      the last present one. */
  method ReadFields(pkt: Packet, f: bv16, ghost s: Bytes, ghost i0: nat) returns (r: Option<seq<Option<Bytes>>>)
    requires pkt.readIdx == i0 + 2 && i0 <= |pkt.data| && s == pkt.data[i0..] && 2 <= |s|
    modifies pkt
    ensures pkt.data == old(pkt.data)
    ensures r.Some? <==> EventSize(f) <= |s|
    ensures r.Some? ==> pkt.readIdx == i0 + EventSize(f) && r.value == Fields(s, f)
  {
    OffsetMonoAll(f);
    var F: seq<Option<Bytes>> := [];
    var k := 0;
    while k < FieldCount
      invariant 0 <= k <= FieldCount && |F| == k
      invariant pkt.data == old(pkt.data) && pkt.readIdx == i0 + Offset(f, k) && Offset(f, k) <= |s|
      invariant forall j :: 0 <= j < k ==> F[j] == FieldOpt(s, f, j)
    {
      var x := ReadField(pkt, f, k, s, i0);
      if x.None? {
        OffsetMono(f, k + 1, FieldCount);
        return None;
      }
      F := F + [x.value];
      k := k + 1;
    }
    assert F == Fields(s, f);
    r := Some(F);
  }

  // ---------------------------------------------------------------------
  // Entity records and the snapshot header

  /** Bit 0 of a record's head word: the record starts from a baseline and
      carries the entity's type. */
  predicate Baseline(head: bv16)
  {
    head as int % 2 == 1
  }

  /** The entity id: the head word shifted right by one. */
  function EntId(head: bv16): (r: nat)
    ensures r < 0x8000
  {
    head as int / 2
  }

  /** What entitysnapshot::read reads: the entity id and, for a baseline
      record, the type word. */
  datatype RecordHead = RecordHead(id: int, entType: Option<bv16>)

  /** entitysnapshot::read: the head word, then the type word when the
      baseline bit is set; None when the packet runs out. */
  method ReadRecordHead(pkt: Packet) returns (r: Option<RecordHead>)
    modifies pkt
    ensures pkt.data == old(pkt.data)
    ensures var s := old(pkt.Rest());
            (r.Some? <==> 2 <= |s| && (Baseline(FromLE16(s[..2])) ==> 4 <= |s|)) &&
            (r.Some? ==>
               var head := FromLE16(s[..2]);
               r.value.id == EntId(head) && (r.value.entType.Some? <==> Baseline(head)) &&
               (Baseline(head) ==> r.value.entType.value == FromLE16(s[2..4]) && pkt.readIdx == old(pkt.readIdx) + 4) &&
               (!Baseline(head) ==> pkt.readIdx == old(pkt.readIdx) + 2))
  {
    ghost var s := pkt.Rest();
    ghost var i0 := pkt.readIdx;
    var head := pkt.ReadWord();
    if head.None? {
      return None;
    }
    assert pkt.data[i0..i0 + 2] == s[..2];
    if !Baseline(head.value) {
      return Some(RecordHead(EntId(head.value), None));
    }
    var entType := pkt.ReadWord();
    if entType.None? {
      return None;
    }
    assert pkt.data[i0 + 2..i0 + 4] == s[2..4];
    return Some(RecordHead(EntId(head.value), Some(entType.value)));
  }

  /** The fields snapshot::read fills. */
  datatype SnapshotHeader = SnapshotHeader(frame: bv32, prevFrame: bv32, time1: bv32, time0: bv32, numGameEvents: bv8)

  /** The bytes of a snapshot header: four dwords (time1 before time0) and
      the event count. */
  function EncodeSnapshotHeader(h: SnapshotHeader): (r: Bytes)
    ensures |r| == 17
  {
    LE32(h.frame) + LE32(h.prevFrame) + LE32(h.time1) + LE32(h.time0) + [h.numGameEvents]
  }

  /** Distinct headers have distinct bytes, so the bytes read determine
      the header. */
  lemma EncodeSnapshotHeaderInjective(h: SnapshotHeader, g: SnapshotHeader)
    requires EncodeSnapshotHeader(h) == EncodeSnapshotHeader(g)
    ensures h == g
  {
    var a, b := EncodeSnapshotHeader(h), EncodeSnapshotHeader(g);
    LE32RoundTrip(h.frame, a[0..4]);
    LE32RoundTrip(g.frame, b[0..4]);
    LE32RoundTrip(h.prevFrame, a[4..8]);
    LE32RoundTrip(g.prevFrame, b[4..8]);
    LE32RoundTrip(h.time1, a[8..12]);
    LE32RoundTrip(g.time1, b[8..12]);
    LE32RoundTrip(h.time0, a[12..16]);
    LE32RoundTrip(g.time0, b[12..16]);
    assert a[16] == b[16];
  }

  /** snapshot::read: four dwords then the event count byte; no state-string
      sequence byte. The header read is the one whose encoding the 17 bytes
      are; None when fewer remain. */
  method ReadSnapshotHeader(pkt: Packet) returns (r: Option<SnapshotHeader>)
    modifies pkt
    ensures pkt.data == old(pkt.data)
    ensures r.Some? <==> old(pkt.CanRead(17))
    ensures r.Some? ==> old(pkt.Rest())[..17] == EncodeSnapshotHeader(r.value) && pkt.readIdx == old(pkt.readIdx) + 17
  {
    ghost var s := pkt.Rest();
    ghost var i := pkt.readIdx;
    var frame := pkt.ReadDword();
    if frame.None? { return None; }
    var prevFrame := pkt.ReadDword();
    if prevFrame.None? { return None; }
    var time1 := pkt.ReadDword();
    if time1.None? { return None; }
    var time0 := pkt.ReadDword();
    if time0.None? { return None; }
    var n := pkt.ReadByte();
    if n.None? { return None; }
    r := Some(SnapshotHeader(frame.value, prevFrame.value, time1.value, time0.value, n.value));
    HeaderBytes(pkt.data, i, r.value);
  }

  lemma HeaderBytes(d: Bytes, i: nat, h: SnapshotHeader)
    requires i + 17 <= |d|
    requires h.frame == FromLE32(d[i..i + 4]) && h.prevFrame == FromLE32(d[i + 4..i + 8])
    requires h.time1 == FromLE32(d[i + 8..i + 12]) && h.time0 == FromLE32(d[i + 12..i + 16])
    requires h.numGameEvents == d[i + 16]
    ensures d[i..][..17] == EncodeSnapshotHeader(h)
  {
    LE32RoundTrip(h.frame, d[i..i + 4]);
    LE32RoundTrip(h.prevFrame, d[i + 4..i + 8]);
    LE32RoundTrip(h.time1, d[i + 8..i + 12]);
    LE32RoundTrip(h.time0, d[i + 12..i + 16]);
    assert d[i..][..17] == d[i..i + 4] + d[i + 4..i + 8] + d[i + 8..i + 12] + d[i + 12..i + 16] + [d[i + 16]];
  }

  /** snapshot::nextentity(es, version): never yields an entity record and
      leaves es as it was. */
  function NextEntity(es: RecordHead, version: int): (r: (bool, RecordHead))
    ensures !r.0 && r.1 == es
  {
    (false, es)
  }
}
