/*
 * core::bytestream: a read cursor over a fixed byte buffer, with reads that
 * fail without moving the cursor and a big-endian variant.
 */
module ByteStream {
  import opened Common
  import opened LittleEndian

  /** s in reverse order. */
  function Reverse(s: Bytes): (r: Bytes)
    ensures |r| == |s| && forall k :: 0 <= k < |s| ==> r[k] == s[|s| - 1 - k]
  {
    seq(|s|, k requires 0 <= k < |s| => s[|s| - 1 - k])
  }

  /** The zero-terminated run of 16-bit words at the front of s (read with
      readWord), or None when no zero word fits in s. */
  function WString(s: Bytes): (r: Option<seq<bv16>>)
    decreases |s|
  {
    if |s| < 2 then None
    else if FromLE16(s[..2]) == 0 then Some([])
    else match WString(s[2..])
      case None => None
      case Some(t) => Some([FromLE16(s[..2])] + t)
  }

  function Prepend(p: seq<bv16>, o: Option<seq<bv16>>): Option<seq<bv16>>
  {
    if o.None? then None else Some(p + o.value)
  }

  lemma WStringStep(s: Bytes, p: seq<bv16>)
    requires |s| >= 2 && FromLE16(s[..2]) != 0
    ensures Prepend(p, WString(s)) == Prepend(p + [FromLE16(s[..2])], WString(s[2..]))
  {
    match WString(s[2..]) {
      case None =>
      case Some(t) => assert p + ([FromLE16(s[..2])] + t) == p + [FromLE16(s[..2])] + t;
    }
  }

  class ByteStream {
    /** mData / mDataLength: the buffer is not owned and never written. */
    const data: Bytes
    /** mReadIdx (a size_t) */
    var readIdx: nat

    constructor (s: Bytes)
      ensures data == s && readIdx == 0
    {
      data := s;
      readIdx := 0;
    }

    predicate CanRead(n: nat)
      reads this
    {
      readIdx + n <= |data|
    }

    function Rest(): Bytes
      reads this
    {
      if readIdx <= |data| then data[readIdx..] else []
    }

    /** seek(idx): no bounds check. */
    method Seek(idx: nat)
      modifies this
      ensures readIdx == idx
    {
      readIdx := idx;
    }

    /** advance(offs): adds the offset in size_t arithmetic, no bounds check. */
    method Advance(offs: int)
      modifies this
      ensures (readIdx - old(readIdx) - offs) % SizeMod == 0 && readIdx < SizeMod
      ensures 0 <= old(readIdx) + offs < SizeMod ==> readIdx == old(readIdx) + offs
    {
      readIdx := (readIdx + offs) % SizeMod;
    }

    /** eof(): nothing more can be read. */
    predicate Eof()
      reads this
      ensures Eof() <==> !CanRead(1)
    {
      readIdx >= |data|
    }

    /** read(out, len): fails without moving when fewer than len bytes remain,
        otherwise copies len bytes and advances by len. */
    method Read(len: nat) returns (r: Option<Bytes>)
      modifies this
      ensures r.Some? <==> old(CanRead(len))
      ensures r.Some? ==> r.value == data[old(readIdx)..old(readIdx) + len] && readIdx == old(readIdx) + len
      ensures r.None? ==> readIdx == old(readIdx)
    {
      if readIdx + len > |data| {
        return None;
      }
      r := Some(data[readIdx..readIdx + len]);
      readIdx := readIdx + len;
    }

    /** readBigEndian(out, len): same bound rule; out[i - 1] receives
        data[readIdx + len - i] for i = len down to 1, i.e. the bytes reversed. */
    method ReadBigEndian(out: array<bv8>, len: nat) returns (ok: bool)
      requires len <= out.Length
      modifies this, out
      ensures ok <==> old(CanRead(len))
      ensures ok ==> out[..len] == Reverse(data[old(readIdx)..old(readIdx) + len])
                     && out[len..] == old(out[len..]) && readIdx == old(readIdx) + len
      ensures !ok ==> out[..] == old(out[..]) && readIdx == old(readIdx)
    {
      if readIdx + len > |data| {
        return false;
      }
      var i := len;
      while i > 0
        invariant 0 <= i <= len && readIdx == old(readIdx)
        invariant forall k :: i <= k < len ==> out[k] == data[readIdx + len - 1 - k]
        invariant forall k :: 0 <= k < i || len <= k < out.Length ==> out[k] == old(out[k])
      {
        out[i - 1] := data[readIdx + len - i];
        i := i - 1;
      }
      readIdx := readIdx + len;
      ok := true;
    }

    method ReadByte() returns (r: Option<bv8>)
      modifies this
      ensures r.Some? <==> old(CanRead(1))
      ensures r.Some? ==> r.value == data[old(readIdx)] && readIdx == old(readIdx) + 1
      ensures r.None? ==> readIdx == old(readIdx)
    {
      var b := Read(1);
      r := if b.Some? then Some(b.value[0]) else None;
    }

    method ReadWord() returns (r: Option<bv16>)
      modifies this
      ensures r.Some? <==> old(CanRead(2))
      ensures r.Some? ==> r.value == FromLE16(data[old(readIdx)..old(readIdx) + 2]) && readIdx == old(readIdx) + 2
      ensures r.None? ==> readIdx == old(readIdx)
    {
      var b := Read(2);
      r := if b.Some? then Some(FromLE16(b.value)) else None;
    }

    method ReadDword() returns (r: Option<bv32>)
      modifies this
      ensures r.Some? <==> old(CanRead(4))
      ensures r.Some? ==> r.value == FromLE32(data[old(readIdx)..old(readIdx) + 4]) && readIdx == old(readIdx) + 4
      ensures r.None? ==> readIdx == old(readIdx)
    {
      var b := Read(4);
      r := if b.Some? then Some(FromLE32(b.value)) else None;
    }

    /** readShort(): a signed 16-bit value. */
    method ReadShort() returns (r: Option<int>)
      modifies this
      ensures r.Some? <==> old(CanRead(2))
      ensures r.Some? ==> r.value == Int16(FromLE16(data[old(readIdx)..old(readIdx) + 2])) && readIdx == old(readIdx) + 2
      ensures r.None? ==> readIdx == old(readIdx)
    {
      var b := ReadWord();
      r := if b.Some? then Some(Int16(b.value)) else None;
    }

    /** readInt(): a signed 32-bit value. */
    method ReadInt() returns (r: Option<int>)
      modifies this
      ensures r.Some? <==> old(CanRead(4))
      ensures r.Some? ==> r.value == Int32(FromLE32(data[old(readIdx)..old(readIdx) + 4])) && readIdx == old(readIdx) + 4
      ensures r.None? ==> readIdx == old(readIdx)
    {
      var b := ReadDword();
      r := if b.Some? then Some(Int32(b.value)) else None;
    }

    /** readFloat(): the raw bits of a 4-byte float. */
    method ReadFloat() returns (r: Option<Float>)
      modifies this
      ensures r.Some? <==> old(CanRead(4))
      ensures r.Some? ==> r.value == Raw(FromLE32(data[old(readIdx)..old(readIdx) + 4])) && readIdx == old(readIdx) + 4
      ensures r.None? ==> readIdx == old(readIdx)
    {
      var b := ReadDword();
      r := if b.Some? then Some(Raw(b.value)) else None;
    }

    /** readDwordBE(): a 4-byte big-endian value. */
    method ReadDwordBE() returns (r: Option<bv32>)
      modifies this
      ensures r.Some? <==> old(CanRead(4))
      ensures r.Some? ==> r.value == FromBE32(data[old(readIdx)..old(readIdx) + 4]) && readIdx == old(readIdx) + 4
      ensures r.None? ==> readIdx == old(readIdx)
    {
      var out := new bv8[4];
      var ok := ReadBigEndian(out, 4);
      if !ok {
        return None;
      }
      ghost var s := data[old(readIdx)..old(readIdx) + 4];
      assert out[..] == [s[3], s[2], s[1], s[0]];
      r := Some(FromLE32(out[..]));
    }

    /** readString(-1): characters up to the first zero byte, which is
        consumed but not returned. Without a zero byte the read fails after
        consuming every remaining byte. */
    method ReadCString() returns (r: Option<Bytes>)
      modifies this
      ensures r.Some? ==> r.value + [0] <= old(Rest()) && NoZero(r.value)
                          && readIdx == old(readIdx) + |r.value| + 1
      ensures r.None? <==> NoZero(old(Rest()))
      ensures r.None? ==> readIdx == if old(readIdx) <= |data| then |data| else old(readIdx)
    {
      ghost var rest := Rest();
      var str: Bytes := [];
      while true
        invariant old(readIdx) <= readIdx
        invariant readIdx <= |data| ==> readIdx == old(readIdx) + |str|
        invariant readIdx > |data| ==> readIdx == old(readIdx) && str == []
        invariant |str| <= |rest| && str == rest[..|str|] && NoZero(str)
        decreases |data| - readIdx
      {
        var c := ReadByte();
        if c.None? {
          assert str == rest by {
            if readIdx <= |data| { assert |str| == |rest|; }
          }
          return None;
        }
        assert rest[|str|] == c.value;
        if c.value == 0 {
          assert rest[..|str| + 1] == str + [0];
          return Some(str);
        }
        str := str + [c.value];
      }
    }

    /** readString(n) for n >= 0: n characters read one at a time; fails when
        fewer remain. */
    method ReadFixedString(n: nat) returns (r: Option<Bytes>)
      modifies this
      ensures r.Some? <==> n == 0 || old(CanRead(n))
      ensures r.Some? ==> |r.value| == n && r.value == old(Rest())[..n] && readIdx == old(readIdx) + n
      ensures r.None? ==> readIdx == Max(old(readIdx), |data|)
    {
      ghost var rest := Rest();
      var result: Bytes := [];
      var i := 0;
      while i < n
        invariant 0 <= i <= n && |result| == i
        invariant readIdx == old(readIdx) + i
        invariant i > 0 ==> readIdx <= |data|
        invariant i <= |rest| && result == rest[..i]
      {
        var c := ReadByte();
        if c.None? {
          return None;
        }
        result := result + [c.value];
        i := i + 1;
      }
      r := Some(result);
    }

    /** readWString(-1): 16-bit words up to the first zero word. */
    method ReadWCString() returns (r: Option<seq<bv16>>)
      modifies this
      ensures r == WString(old(Rest()))
      ensures r.Some? ==> readIdx == old(readIdx) + 2 * |r.value| + 2
    {
      ghost var rest := Rest();
      var str: seq<bv16> := [];
      assert rest[0..] == rest;
      assert Prepend([], WString(rest)) == WString(rest) by {
        if WString(rest).Some? { assert [] + WString(rest).value == WString(rest).value; }
      }
      while true
        invariant old(readIdx) <= readIdx
        invariant readIdx <= |data| ==> readIdx == old(readIdx) + 2 * |str|
        invariant readIdx > |data| ==> readIdx == old(readIdx) && str == []
        invariant 2 * |str| <= |rest|
        invariant WString(rest) == Prepend(str, WString(rest[2 * |str|..]))
        decreases |data| - readIdx
      {
        ghost var tail := rest[2 * |str|..];
        var c := ReadWord();
        if c.None? {
          assert |tail| < 2;
          return None;
        }
        assert tail[..2] == data[old(readIdx) + 2 * |str|..old(readIdx) + 2 * |str| + 2];
        if c.value == 0 {
          assert str + [] == str;
          return Some(str);
        }
        assert tail[2..] == rest[2 * (|str| + 1)..];
        WStringStep(tail, str);
        str := str + [c.value];
      }
    }

    /** readWString(n) for n >= 0: the string is first resized to n zero
        characters and then n words are appended, so it holds 2n characters. */
    method ReadFixedWString(n: nat) returns (r: Option<seq<bv16>>)
      modifies this
      ensures r.Some? <==> n == 0 || old(CanRead(2 * n))
      ensures r.Some? ==> |r.value| == 2 * n && readIdx == old(readIdx) + 2 * n
                          && (forall k :: 0 <= k < n ==> r.value[k] == 0)
                          && (forall k :: 0 <= k < n ==>
                                r.value[n + k] == FromLE16(old(Rest())[2 * k..2 * k + 2]))
    {
      ghost var rest := Rest();
      var result: seq<bv16> := seq(n, _ => 0);
      var i := 0;
      while i < n
        invariant 0 <= i <= n
        invariant readIdx == old(readIdx) + 2 * i
        invariant i > 0 ==> readIdx <= |data|
        invariant 2 * i <= |rest|
        invariant |result| == n + i
        invariant forall k :: 0 <= k < n ==> result[k] == 0
        invariant forall k :: 0 <= k < i ==>
                    result[n + k] == FromLE16(rest[2 * k..2 * k + 2])
      {
        var c := ReadWord();
        if c.None? {
          return None;
        }
        assert rest[2 * i..2 * i + 2] == data[readIdx - 2..readIdx];
        result := result + [c.value];
        i := i + 1;
      }
      r := Some(result);
    }
  }

  /** advance(offs) from index from lands on (from + offs) modulo 2^64;
      offs is given once as a ghost value so that callers can name it. */
  method AdvanceFrom(stream: ByteStream, ghost from: nat, ghost offsValue: int, offs: int)
    requires stream.readIdx == from && offs == offsValue
    modifies stream
    ensures stream.readIdx == (from + offsValue) % SizeMod
  {
    stream.Advance(offs);
    ModUnique(stream.readIdx, from + offsValue);
  }

  /** readDword() as the unsigned number it denotes. */
  method ReadU32(stream: ByteStream) returns (r: Option<nat>)
    modifies stream
    ensures r.Some? <==> old(stream.CanRead(4))
    ensures r.Some? ==> r.value == U32At(stream.data, old(stream.readIdx)) && stream.readIdx == old(stream.readIdx) + 4
    ensures r.None? ==> stream.readIdx == old(stream.readIdx)
  {
    var w := stream.ReadDword();
    if w.None? {
      return None;
    }
    DwordNumber(stream.data, old(stream.readIdx));
    r := Some(w.value as nat);
  }

  /** readInt(): the same four bytes as a signed 32-bit number. */
  method ReadS32(stream: ByteStream) returns (r: Option<int>)
    modifies stream
    ensures r.Some? <==> old(stream.CanRead(4))
    ensures r.Some? ==> r.value == S32At(stream.data, old(stream.readIdx)) && stream.readIdx == old(stream.readIdx) + 4
    ensures r.None? ==> stream.readIdx == old(stream.readIdx)
  {
    r := stream.ReadInt();
    if r.Some? {
      DwordNumber(stream.data, old(stream.readIdx));
    }
  }
}
