/*
 * Little-endian dwords in a byte buffer, as bits (what the stream's typed
 * reads return) and as the unsigned and signed numbers they denote.
 */
module LittleEndian {
  import opened Common

  /** readDword() at i. */
  function DwordAt(data: Bytes, i: nat): bv32
    requires i + 4 <= |data|
  {
    FromLE32(data[i..i + 4])
  }

  /** The same dword as a number. */
  function U32At(data: Bytes, i: nat): nat
    requires i + 4 <= |data|
  {
    data[i] as nat + 0x100 * data[i + 1] as nat + 0x1_0000 * data[i + 2] as nat + 0x100_0000 * data[i + 3] as nat
  }

  /** The same dword as a signed int. */
  function S32At(data: Bytes, i: nat): int
    requires i + 4 <= |data|
  {
    if U32At(data, i) < 0x8000_0000 then U32At(data, i) else U32At(data, i) - 0x1_0000_0000
  }

  lemma DwordNumber(data: Bytes, i: nat)
    requires i + 4 <= |data|
    ensures DwordAt(data, i) as nat == U32At(data, i)
    ensures Int32(DwordAt(data, i)) == S32At(data, i)
  {
    var w := DwordAt(data, i);
    DwordBytes(data, i);
    Signed(w, U32At(data, i));
  }

  lemma DwordBytes(data: Bytes, i: nat)
    requires i + 4 <= |data|
    ensures DwordAt(data, i) as nat == U32At(data, i)
  {
    assert data[i..i + 4] == [data[i], data[i + 1], data[i + 2], data[i + 3]];
    BytesNumber(data[i], data[i + 1], data[i + 2], data[i + 3], DwordAt(data, i));
  }

  lemma Signed(w: bv32, u: nat)
    requires w as nat == u
    ensures Int32(w) == if u < 0x8000_0000 then u else u - 0x1_0000_0000
  {
  }

  /** Four little-endian bytes as bits and as a number agree. */
  lemma BytesNumber(a: bv8, b: bv8, c: bv8, d: bv8, w: bv32)
    requires w == FromLE32([a, b, c, d])
    ensures w as nat == a as nat + 0x100 * b as nat + 0x1_0000 * c as nat + 0x100_0000 * d as nat
  {
    ByteSum32(a, b, c, d);
  }
}
