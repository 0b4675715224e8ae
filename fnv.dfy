/*
 * FNV-1a (Fowler/Noll/Vo), 32- and 64-bit, as used for the entity
 * attribute dispatch. A hash is a natural number below 2^32 or 2^64, the
 * range of the width's unsigned type; the wrap-around of the unsigned
 * multiplication is written out as a reduction modulo that bound.
 */
module Fnv {
  import opened Common

  datatype Width = W32 | W64

  /** 2^bits: one more than the largest hash of the width. */
  function Modulus(w: Width): nat
  {
    if w == W32 then 0x1_0000_0000 else 0x1_0000_0000_0000_0000
  }

  /** Offset basis and prime of each width (section 2 of the FNV draft). */
  function OffsetBasis(w: Width): (r: nat)
    ensures r < Modulus(w)
  {
    if w == W32 then 0x811c9dc5 else 0xcbf29ce484222325
  }

  function Prime(w: Width): nat
  {
    if w == W32 then 16777619 else 1099511628211
  }

  /** hash_init */
  function HashInit(w: Width): (r: nat)
    ensures r == OffsetBasis(w)
  {
    OffsetBasis(w)
  }

  /** h xor b for a byte b: only the low eight bits of h change. */
  function XorByte(h: nat, b: bv8): nat
  {
    h - h % 256 + (((h % 256) as bv8) ^ b) as nat
  }

  /** hash_byte: xor in the byte, then multiply by the prime, wrapping. */
  function HashByte(w: Width, h: nat, b: bv8): (r: nat)
    ensures r < Modulus(w)
  {
    (XorByte(h, b) * Prime(w)) % Modulus(w)
  }

  /** The hash of the bytes s continued from h: a left fold of HashByte. */
  function HashFrom(w: Width, h: nat, s: Bytes): (r: nat)
    ensures s == [] ==> r == h
    ensures s != [] ==> r < Modulus(w)
  {
    if s == [] then h else HashByte(w, HashFrom(w, h, s[..|s| - 1]), s[|s| - 1])
  }

  /** The hash of a byte string. */
  function HashBytes(w: Width, s: Bytes): (r: nat)
    ensures r < Modulus(w)
  {
    HashFrom(w, HashInit(w), s)
  }

  /** Hashing a concatenation hashes the second part from the hash of the first. */
  lemma {:induction false} HashFromAppend(w: Width, h: nat, a: Bytes, b: Bytes)
    ensures HashFrom(w, h, a + b) == HashFrom(w, HashFrom(w, h, a), b)
  {
    if b == [] {
      assert a + b == a;
    } else {
      var n := |b| - 1;
      HashFromAppend(w, h, a, b[..n]);
      assert (a + b)[..|a + b| - 1] == a + b[..n];
    }
  }

  /** Hashing one more byte is one more HashByte. */
  lemma HashFromSnoc(w: Width, h: nat, s: Bytes, b: bv8)
    ensures HashFrom(w, h, s + [b]) == HashByte(w, HashFrom(w, h, s), b)
  {
    assert (s + [b])[..|s|] == s;
  }

  /** The 32-bit FNV-1a test vectors for "" and "a". */
  lemma TestVectors32()
    ensures HashBytes(W32, []) == 0x811c9dc5 && HashBytes(W32, [0x61]) == 0xe40c292c
  {
    assert [0x61 as bv8][..0] == [];
    assert XorByte(0x811c9dc5, 0x61) == 0x811c9da4;
    assert (0x811c9da4 * 16777619) % 0x1_0000_0000 == 0xe40c292c;
  }

  /** The 64-bit FNV-1a test vectors for "" and "a". */
  lemma TestVectors64()
    ensures HashBytes(W64, []) == 0xcbf29ce484222325 && HashBytes(W64, [0x61]) == 0xaf63dc4c8601ec8c
  {
    assert [0x61 as bv8][..0] == [];
    assert XorByte(0xcbf29ce484222325, 0x61) == 0xcbf29ce484222344;
    assert (0xcbf29ce484222344 * 1099511628211) % 0x1_0000_0000_0000_0000 == 0xaf63dc4c8601ec8c;
  }

  // ---------------------------------------------------------------------
  // hash_single: a value of n bytes (n = 1, 2, 4 or 8), most significant
  // half first, recursively down to single bytes. A value is given by its
  // bytes, most significant first: shifting right by half the width and
  // masking gives the first half of them, masking alone the second half.

  predicate IsSize(n: nat)
  {
    n == 1 || n == 2 || n == 4 || n == 8
  }

  /** hash_single_internal for the value whose big-endian bytes are v. */
  function HashSingle(w: Width, h: nat, v: Bytes): (r: nat)
    requires IsSize(|v|)
    ensures r < Modulus(w)
    decreases |v|
  {
    if |v| == 1 then HashByte(w, h, v[0])
    else
      var half := |v| / 2;
      HashSingle(w, HashSingle(w, h, v[..half]), v[half..])
  }

  /** hash_single hashes the value's bytes in big-endian order. */
  lemma {:induction false} HashSingleBigEndian(w: Width, h: nat, v: Bytes)
    requires IsSize(|v|)
    ensures HashSingle(w, h, v) == HashFrom(w, h, v)
    decreases |v|
  {
    if |v| == 1 {
      assert v == [] + [v[0]];
    } else {
      var half := |v| / 2;
      HashSingleBigEndian(w, h, v[..half]);
      HashSingleBigEndian(w, HashSingle(w, h, v[..half]), v[half..]);
      HashFromAppend(w, h, v[..half], v[half..]);
      assert v[..half] + v[half..] == v;
    }
  }

  // ---------------------------------------------------------------------
  // The loops

  /** hash_runtime_data(data, sz): every byte in order. */
  method HashRuntimeData(w: Width, data: Bytes) returns (result: nat)
    ensures result == HashBytes(w, data)
  {
    result := HashInit(w);
    var i := 0;
    while i < |data|
      invariant 0 <= i <= |data| && result == HashFrom(w, HashInit(w), data[..i])
    {
      HashFromSnoc(w, HashInit(w), data[..i], data[i]);
      assert data[..i + 1] == data[..i] + [data[i]];
      result := HashByte(w, result, data[i]);
      i := i + 1;
    }
    assert data[..i] == data;
  }

  /** The characters of a NUL-terminated string: those before the first zero. */
  function UntilNul(mem: Bytes): (r: Bytes)
    requires 0 in mem
    ensures NoZero(r) && |r| < |mem| && mem[..|r|] == r && mem[|r|] == 0
  {
    if mem[0] == 0 then [] else [mem[0]] + UntilNul(mem[1..])
  }

  /** hash_runtime(str) for a char string: the characters before the
      terminating NUL, each hashed as one byte. mem holds the memory from str
      on, which must contain the terminator. */
  method HashRuntime(w: Width, mem: Bytes) returns (result: nat)
    requires 0 in mem
    ensures result == HashBytes(w, UntilNul(mem))
  {
    ghost var s := UntilNul(mem);
    result := HashInit(w);
    var i := 0;
    while mem[i] != 0
      invariant 0 <= i <= |s| && result == HashFrom(w, HashInit(w), s[..i])
      decreases |s| - i
    {
      assert i < |s|;
      HashFromSnoc(w, HashInit(w), s[..i], s[i]);
      assert s[..i + 1] == s[..i] + [s[i]];
      result := HashSingle(w, result, [mem[i]]);
      i := i + 1;
    }
    assert i == |s|;
    assert s[..i] == s;
  }

  /** hash_constexpr(str) for a char array of N elements (a string literal):
      the first N - 1 characters, leaving out the terminating NUL. */
  method HashConstexpr(w: Width, str: Bytes) returns (result: nat)
    requires |str| >= 1
    ensures result == HashBytes(w, str[..|str| - 1])
  {
    var size := |str| - 1;
    result := HashInit(w);
    var i := 0;
    while i < size
      invariant 0 <= i <= size && result == HashFrom(w, HashInit(w), str[..i])
    {
      HashFromSnoc(w, HashInit(w), str[..i], str[i]);
      assert str[..i + 1] == str[..i] + [str[i]];
      result := HashSingle(w, result, [str[i]]);
      i := i + 1;
    }
  }

  /** The FNV(...) constant of a string literal equals the run-time hash of
      the same characters, so the dispatch can compare the two. */
  lemma LiteralMatchesRuntime(w: Width, s: Bytes)
    requires NoZero(s)
    ensures var lit := s + [0];
            0 in lit && HashBytes(w, lit[..|lit| - 1]) == HashBytes(w, UntilNul(lit))
  {
    var lit := s + [0];
    assert lit[|s|] == 0;
    var u := UntilNul(lit);
    assert |u| == |s|;
    assert lit[..|lit| - 1] == s == u;
  }
}
