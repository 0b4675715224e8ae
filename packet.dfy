/*
 * network::packet: a growable byte buffer written at its end and read
 * through a read index. Multi-byte values are little-endian.
 */
module Packet {
  import opened Common

  /** The NUL-terminated string at the front of s, without its terminator;
      None when s holds no zero byte. */
  function CString(s: Bytes): (r: Option<Bytes>)
    ensures r.Some? ==> |r.value| < |s| && s[|r.value|] == 0 && NoZero(r.value)
                        && r.value == s[..|r.value|]
    ensures r.None? <==> NoZero(s)
  {
    if s == [] then None
    else if s[0] == 0 then Some([])
    else match CString(s[1..])
      case None => None
      case Some(t) => Some([s[0]] + t)
  }

  /** readstring(writestring(t)) == t: a string without zero bytes followed by
      its terminator is read back whatever follows it. */
  lemma {:induction false} CStringOfTerminated(t: Bytes, rest: Bytes)
    requires NoZero(t)
    ensures CString(t + [0] + rest) == Some(t)
  {
    if t != [] {
      var s := t + [0] + rest;
      assert s[0] == t[0] != 0;
      assert s[1..] == t[1..] + [0] + rest;
      CStringOfTerminated(t[1..], rest);
      assert [t[0]] + t[1..] == t;
    } else {
      assert (t + [0] + rest)[0] == 0;
    }
  }

  class Packet {
    /** mData */
    var data: Bytes
    /** mReadIdx (a size_t) */
    var readIdx: nat

    constructor ()
      ensures data == [] && readIdx == 0
    {
      data := [];
      readIdx := 0;
    }

    /** packet(string&&): the string's bytes, read from the start. */
    constructor FromBytes(s: Bytes)
      ensures data == s && readIdx == 0
    {
      data := s;
      readIdx := 0;
    }

    /** packet(packet&&): takes the buffer and the read index; the source
        keeps its read index and is left with an empty buffer. There is no
        copy constructor or copy assignment. */
    constructor Moved(other: Packet)
      modifies other
      ensures data == old(other.data) && readIdx == old(other.readIdx)
      ensures other.data == [] && other.readIdx == old(other.readIdx)
    {
      data := other.data;
      readIdx := other.readIdx;
      other.data := [];
    }

    /** operator=(packet&&) */
    method MoveAssign(other: Packet)
      requires other != this
      modifies this, other
      ensures data == old(other.data) && readIdx == old(other.readIdx)
      ensures other.data == [] && other.readIdx == old(other.readIdx)
    {
      data := other.data;
      readIdx := other.readIdx;
      other.data := [];
    }

    function Length(): nat
      reads this
    {
      |data|
    }

    /** Whether n more bytes can be read from the read index. */
    predicate CanRead(n: nat)
      reads this
    {
      readIdx + n <= |data|
    }

    /** The unread bytes (nextdata() .. end). */
    function Rest(): (r: Bytes)
      reads this
      ensures readIdx <= |data| ==> data == data[..readIdx] + r
      ensures readIdx >= |data| ==> r == []
    {
      if readIdx <= |data| then data[readIdx..] else []
    }

    /** clear() drops the bytes but keeps the read index. */
    method Clear()
      modifies this
      ensures data == [] && readIdx == old(readIdx)
    {
      data := [];
    }

    /** resize(n): truncates, or extends with zero bytes. */
    method Resize(n: nat)
      modifies this
      ensures |data| == n && readIdx == old(readIdx)
      ensures n <= old(|data|) ==> data == old(data[..n])
      ensures n > old(|data|) ==> data == old(data) + Zeros(n - old(|data|))
    {
      if n <= |data| {
        data := data[..n];
      } else {
        data := data + Zeros(n - |data|);
      }
    }

    /** seek(idx) clamps the (size_t) index to at most the length. */
    method Seek(idx: nat)
      modifies this
      ensures data == old(data)
      ensures readIdx <= |data|
      ensures idx <= |data| ==> readIdx == idx
      ensures idx > |data| ==> readIdx == |data|
    {
      readIdx := if idx > |data| then |data| else idx;
    }

    /** advance(offs): adds the offset to the size_t index, wrapping around;
        the bound is only checked by a debug assertion. */
    method Advance(offs: int)
      modifies this
      ensures data == old(data)
      ensures (readIdx - old(readIdx) - offs) % SizeMod == 0 && readIdx < SizeMod
      ensures 0 <= old(readIdx) + offs < SizeMod ==> readIdx == old(readIdx) + offs
    {
      readIdx := (readIdx + offs) % SizeMod;
    }

    /** remaining() = length() - readIdx in size_t arithmetic. */
    function Remaining(): (r: nat)
      reads this
      ensures r < SizeMod && (readIdx + r - |data|) % SizeMod == 0
      ensures readIdx <= |data| < SizeMod ==> r == |Rest()|
    {
      (|data| - readIdx) % SizeMod
    }

    /** end(): nothing more can be read. */
    predicate End()
      reads this
      ensures End() <==> !CanRead(1)
    {
      readIdx >= |data|
    }

    /** read(buf, len): fails and leaves the index alone when fewer than len
        bytes remain; otherwise copies them and advances. */
    method Read(len: nat) returns (ok: bool, buf: Bytes)
      modifies this
      ensures data == old(data)
      ensures ok <==> old(CanRead(len))
      ensures ok ==> buf == data[old(readIdx)..old(readIdx) + len] && readIdx == old(readIdx) + len
      ensures !ok ==> readIdx == old(readIdx)
    {
      if readIdx + len > |data| {
        return false, [];
      }
      buf := data[readIdx..readIdx + len];
      readIdx := readIdx + len;
      ok := true;
    }

    /** read<T>() for a T of n bytes: a failed read leaves the index where it was
        and yields no value. */
    method ReadN(n: nat) returns (r: Option<Bytes>)
      modifies this
      ensures data == old(data)
      ensures r.Some? <==> old(CanRead(n))
      ensures r.Some? ==> r.value == data[old(readIdx)..old(readIdx) + n] && readIdx == old(readIdx) + n
      ensures r.None? ==> readIdx == old(readIdx)
    {
      var ok, buf := Read(n);
      r := if ok then Some(buf) else None;
    }

    method ReadByte() returns (r: Option<bv8>)
      modifies this
      ensures data == old(data)
      ensures r.Some? <==> old(CanRead(1))
      ensures r.Some? ==> r.value == data[old(readIdx)] && readIdx == old(readIdx) + 1
      ensures r.None? ==> readIdx == old(readIdx)
    {
      var b := ReadN(1);
      r := if b.Some? then Some(b.value[0]) else None;
    }

    method ReadWord() returns (r: Option<bv16>)
      modifies this
      ensures data == old(data)
      ensures r.Some? <==> old(CanRead(2))
      ensures r.Some? ==> r.value == FromLE16(data[old(readIdx)..old(readIdx) + 2]) && readIdx == old(readIdx) + 2
      ensures r.None? ==> readIdx == old(readIdx)
    {
      var b := ReadN(2);
      r := if b.Some? then Some(FromLE16(b.value)) else None;
    }

    method ReadDword() returns (r: Option<bv32>)
      modifies this
      ensures data == old(data)
      ensures r.Some? <==> old(CanRead(4))
      ensures r.Some? ==> r.value == FromLE32(data[old(readIdx)..old(readIdx) + 4]) && readIdx == old(readIdx) + 4
      ensures r.None? ==> readIdx == old(readIdx)
    {
      var b := ReadN(4);
      r := if b.Some? then Some(FromLE32(b.value)) else None;
    }

    method ReadQword() returns (r: Option<bv64>)
      modifies this
      ensures data == old(data)
      ensures r.Some? <==> old(CanRead(8))
      ensures r.Some? ==> r.value == FromLE64(data[old(readIdx)..old(readIdx) + 8]) && readIdx == old(readIdx) + 8
      ensures r.None? ==> readIdx == old(readIdx)
    {
      var b := ReadN(8);
      r := if b.Some? then Some(FromLE64(b.value)) else None;
    }

    /** readsingle(): the four bytes are the float's raw bits. */
    method ReadSingle() returns (r: Option<Float>)
      modifies this
      ensures data == old(data)
      ensures r.Some? <==> old(CanRead(4))
      ensures r.Some? ==> r.value == Raw(FromLE32(data[old(readIdx)..old(readIdx) + 4])) && readIdx == old(readIdx) + 4
      ensures r.None? ==> readIdx == old(readIdx)
    {
      var d := ReadDword();
      r := if d.Some? then Some(Raw(d.value)) else None;
    }

    /** readstring(): characters up to the first zero byte, which is consumed
        but not returned. Without a zero byte every remaining byte is consumed
        and the read fails. */
    method ReadString() returns (r: Option<Bytes>)
      modifies this
      ensures data == old(data)
      ensures r == CString(old(Rest()))
      ensures r.Some? ==> readIdx == old(readIdx) + |r.value| + 1
      ensures r.None? ==> readIdx == if old(readIdx) <= |data| then |data| else old(readIdx)
    {
      ghost var rest := Rest();
      var str: Bytes := [];
      while true
        invariant data == old(data)
        invariant old(readIdx) <= readIdx
        invariant readIdx <= |data| ==> readIdx == old(readIdx) + |str|
        invariant readIdx > |data| ==> readIdx == old(readIdx) && str == []
        invariant |str| <= |rest| && str == rest[..|str|] && NoZero(str)
        decreases |data| - readIdx
      {
        var c := ReadByte();
        if c.None? {
          assert str == rest by {
            if readIdx <= |data| { assert |str| == |rest|; }
          }
          return None;
        }
        assert rest[|str|] == c.value;
        if c.value == 0 {
          CStringOfTerminated(str, rest[|str| + 1..]);
          assert rest == str + [0] + rest[|str| + 1..];
          return Some(str);
        }
        str := str + [c.value];
      }
    }

    /** write(data, length) appends the bytes. */
    method Write(s: Bytes)
      modifies this
      ensures data == old(data) + s && readIdx == old(readIdx)
    {
      data := data + s;
    }

    method WriteByte(b: bv8)
      modifies this
      ensures data == old(data) + [b] && readIdx == old(readIdx)
    {
      Write([b]);
    }

    method WriteWord(w: bv16)
      modifies this
      ensures data == old(data) + LE16(w) && readIdx == old(readIdx)
    {
      Write(LE16(w));
    }

    method WriteDword(d: bv32)
      modifies this
      ensures data == old(data) + LE32(d) && readIdx == old(readIdx)
    {
      Write(LE32(d));
    }

    method WriteQword(q: bv64)
      modifies this
      ensures data == old(data) + LE64(q) && readIdx == old(readIdx)
    {
      Write(LE64(q));
    }

    method WriteSingle(f: bv32)
      modifies this
      ensures data == old(data) + LE32(f) && readIdx == old(readIdx)
    {
      Write(LE32(f));
    }

    /** writestring(s): the bytes, then a zero byte. */
    method WriteString(s: Bytes)
      modifies this
      ensures data == old(data) + s + [0] && readIdx == old(readIdx)
    {
      Write(s);
      WriteByte(0);
    }
  }
}
