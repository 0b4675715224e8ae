/*
 * Values shared by every part of the client model: optional results, byte
 * strings, the little-endian integer encodings used on the wire, the bit
 * addressing used by the client's bit vectors, and an abstract float.
 */
module Common {

  datatype Option<T> = None | Some(value: T)

  /** A byte string (std::string or std::vector<uint8_t> in the client). */
  type Bytes = seq<bv8>

  /** size_t is 64 bits wide in the client's build; arithmetic on it wraps modulo this. */
  const SizeMod: int := 0x1_0000_0000_0000_0000

  /** An index in range that differs from b by a multiple of 2^64 is b
      reduced modulo 2^64. */
  lemma ModUnique(a: int, b: int)
    requires 0 <= a < SizeMod && (a - b) % SizeMod == 0
    ensures a == b % SizeMod
  {
  }

  /** Concatenation regroups; stated on an abstract element type, where
      it is cheap to prove. */
  lemma Associative<T>(a: seq<T>, b: seq<T>, c: seq<T>)
    ensures a + (b + c) == (a + b) + c
  {
  }

  /** The client's ASCII literals as bytes. */
  function Ascii(s: string): (r: Bytes)
    requires forall i :: 0 <= i < |s| ==> s[i] < 256 as char
  {
    if s == [] then [] else [s[0] as bv8] + Ascii(s[1..])
  }

  function Max(a: int, b: int): int {
    if a < b then b else a
  }

  predicate NoZero(s: Bytes) {
    forall i :: 0 <= i < |s| ==> s[i] != 0
  }

  function Zeros(n: nat): (r: Bytes)
    ensures |r| == n && forall i :: 0 <= i < n ==> r[i] == 0
  {
    seq(n, _ => 0)
  }

  // ---------------------------------------------------------------------
  // Little-endian encodings (x86 memory layout of uint16/32/64)

  function LE16(v: bv16): (r: Bytes)
  {
    [(v & 0xFF) as bv8, (v >> 8) as bv8]
  }

  function FromLE16(s: Bytes): bv16
    requires |s| == 2
  {
    (s[0] as bv16) | ((s[1] as bv16) << 8)
  }

  function LE32(v: bv32): (r: Bytes)
  {
    [(v & 0xFF) as bv8, ((v >> 8) & 0xFF) as bv8, ((v >> 16) & 0xFF) as bv8, (v >> 24) as bv8]
  }

  function FromLE32(s: Bytes): bv32
    requires |s| == 4
  {
    (s[0] as bv32) | ((s[1] as bv32) << 8) | ((s[2] as bv32) << 16) | ((s[3] as bv32) << 24)
  }

  function LE64(v: bv64): (r: Bytes)
  {
    [(v & 0xFF) as bv8, ((v >> 8) & 0xFF) as bv8, ((v >> 16) & 0xFF) as bv8, ((v >> 24) & 0xFF) as bv8,
     ((v >> 32) & 0xFF) as bv8, ((v >> 40) & 0xFF) as bv8, ((v >> 48) & 0xFF) as bv8, (v >> 56) as bv8]
  }

  function FromLE64(s: Bytes): bv64
    requires |s| == 8
  {
    (s[0] as bv64) | ((s[1] as bv64) << 8) | ((s[2] as bv64) << 16) | ((s[3] as bv64) << 24) |
    ((s[4] as bv64) << 32) | ((s[5] as bv64) << 40) | ((s[6] as bv64) << 48) | ((s[7] as bv64) << 56)
  }

  lemma LE16RoundTrip(v: bv16, s: Bytes)
    ensures |LE16(v)| == 2 && FromLE16(LE16(v)) == v
    ensures |s| == 2 ==> LE16(FromLE16(s)) == s
  {
  }

  lemma LE32RoundTrip(v: bv32, s: Bytes)
    ensures |LE32(v)| == 4 && FromLE32(LE32(v)) == v
    ensures |s| == 4 ==> LE32(FromLE32(s)) == s
  {
  }

  lemma LE64RoundTrip(v: bv64, s: Bytes)
    ensures |LE64(v)| == 8 && FromLE64(LE64(v)) == v
    ensures |s| == 8 ==> LE64(FromLE64(s)) == s
  {
  }

  /** The number a little-endian byte string denotes. */
  function LENum(s: Bytes): nat
    decreases |s|
  {
    if s == [] then 0 else s[0] as nat + 0x100 * LENum(s[1..])
  }

  lemma ByteSum16(a: bv8, b: bv8)
    ensures ((a as bv16) | ((b as bv16) << 8)) as nat == a as nat + 0x100 * b as nat
  {
  }

  lemma ByteSum32(a: bv8, b: bv8, c: bv8, d: bv8)
    ensures ((a as bv32) | ((b as bv32) << 8) | ((c as bv32) << 16) | ((d as bv32) << 24)) as nat ==
            a as nat + 0x100 * (b as nat + 0x100 * (c as nat + 0x100 * d as nat))
  {
  }

  /** A word read as a number is the number its bytes denote. */
  lemma LE16Num(s: Bytes)
    requires |s| == 2
    ensures FromLE16(s) as nat == LENum(s)
  {
    ByteSum16(s[0], s[1]);
    assert LENum(s[1..]) == s[1] as nat + 0x100 * LENum(s[2..]);
  }

  /** A dword read as a number is the number its bytes denote. */
  lemma LE32Num(s: Bytes)
    requires |s| == 4
    ensures FromLE32(s) as nat == LENum(s)
  {
    ByteSum32(s[0], s[1], s[2], s[3]);
    assert LENum(s[3..]) == s[3] as nat + 0x100 * LENum(s[4..]);
    assert LENum(s[2..]) == s[2] as nat + 0x100 * LENum(s[3..]);
    assert LENum(s[1..]) == s[1] as nat + 0x100 * LENum(s[2..]);
  }

  /** The value of a big-endian 32-bit field: the first byte is the most significant. */
  function FromBE32(s: Bytes): bv32
    requires |s| == 4
  {
    FromLE32([s[3], s[2], s[1], s[0]])
  }

  /** A signed 32-bit C++ int held as its two's-complement bits. */
  function Int32(b: bv32): int
  {
    if b as int < 0x8000_0000 then b as int else b as int - 0x1_0000_0000
  }

  /** A signed 16-bit C++ short held as its two's-complement bits. */
  function Int16(b: bv16): int
  {
    if b < 0x8000 then b as int else b as int - 0x1_0000
  }

  /** The two's-complement bits of an int (conversion to a 32-bit unsigned type). */
  function Bits32(i: int): bv32
  {
    (i % 0x1_0000_0000) as bv32
  }

  // ---------------------------------------------------------------------
  // Bits of byte strings: bit i is bit (i & 7) of byte i / 8,
  // least significant bit first.

  function Mask(k: nat): bv8
    requires k < 8
  {
    (1 as bv8) << k
  }

  predicate BitAt(s: Bytes, i: nat)
    requires i < 8 * |s|
  {
    s[i / 8] & Mask(i % 8) != 0
  }

  /** s with bit i set to v and every other bit unchanged. */
  function WithBit(s: Bytes, i: nat, v: bool): (r: Bytes)
    requires i < 8 * |s|
    ensures |r| == |s|
  {
    s[i / 8 := if v then s[i / 8] | Mask(i % 8) else s[i / 8] & !Mask(i % 8)]
  }

  lemma ByteBitUpdate(b: bv8, k: nat, j: nat, v: bool)
    requires k < 8 && j < 8
    ensures var c := if v then b | Mask(k) else b & !Mask(k);
            (c & Mask(j) != 0) == (if j == k then v else b & Mask(j) != 0)
  {
  }

  lemma WithBitAt(s: Bytes, i: nat, v: bool, j: nat)
    requires i < 8 * |s| && j < 8 * |s|
    ensures BitAt(WithBit(s, i, v), j) == if j == i then v else BitAt(s, j)
  {
    if j / 8 == i / 8 {
      ByteBitUpdate(s[i / 8], i % 8, j % 8, v);
    }
  }

  /** Two bytes with the same eight bits are equal. */
  lemma ByteFromBits(a: bv8, b: bv8)
    requires forall k :: 0 <= k < 8 ==> (a & Mask(k) != 0) == (b & Mask(k) != 0)
    ensures a == b
  {
    assert (a & Mask(0) != 0) == (b & Mask(0) != 0);
    assert (a & Mask(1) != 0) == (b & Mask(1) != 0);
    assert (a & Mask(2) != 0) == (b & Mask(2) != 0);
    assert (a & Mask(3) != 0) == (b & Mask(3) != 0);
    assert (a & Mask(4) != 0) == (b & Mask(4) != 0);
    assert (a & Mask(5) != 0) == (b & Mask(5) != 0);
    assert (a & Mask(6) != 0) == (b & Mask(6) != 0);
    assert (a & Mask(7) != 0) == (b & Mask(7) != 0);
  }

  /** Byte strings of the same length with the same bits are equal. */
  lemma {:induction false} BytesFromBits(s: Bytes, t: Bytes)
    requires |s| == |t|
    requires forall i :: 0 <= i < 8 * |s| ==> BitAt(s, i) == BitAt(t, i)
    ensures s == t
  {
    forall n | 0 <= n < |s| ensures s[n] == t[n] {
      forall k | 0 <= k < 8 ensures (s[n] & Mask(k) != 0) == (t[n] & Mask(k) != 0) {
        var i := 8 * n + k;
        assert i / 8 == n && i % 8 == k;
        assert BitAt(s, i) == BitAt(t, i);
      }
      ByteFromBits(s[n], t[n]);
    }
  }

  lemma BitAtAppend(s: Bytes, t: Bytes, i: nat)
    requires i < 8 * |s|
    ensures BitAt(s + t, i) == BitAt(s, i)
  {
  }

  lemma BitAtSuffix(s: Bytes, k: nat, i: nat)
    requires k <= |s| && i < 8 * (|s| - k)
    ensures BitAt(s[k..], i) == BitAt(s, 8 * k + i)
  {
    assert (8 * k + i) / 8 == k + i / 8;
    assert (8 * k + i) % 8 == i % 8;
  }

  lemma ZeroBits(n: nat, i: nat)
    requires i < 8 * n
    ensures !BitAt(Zeros(n), i)
  {
  }

  // ---------------------------------------------------------------------
  // Floating point is not modelled numerically: a float is either the raw
  // IEEE-754 bits read from the wire or the exact real value of a conversion
  // (the rounding to the nearest float is not modelled).

  datatype Float = Raw(bits: bv32) | Exact(value: real)

  datatype Vec3 = Vec3(x: Float, y: Float, z: Float)

  const ZeroFloat: Float := Exact(0.0)
  const ZeroVec3: Vec3 := Vec3(ZeroFloat, ZeroFloat, ZeroFloat)

  /** Negation of a float flips its sign bit. */
  function Negate(f: Float): Float
  {
    match f
    case Raw(b) => Raw(b ^ 0x8000_0000)
    case Exact(v) => Exact(-v)
  }
}
