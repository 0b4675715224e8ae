/*
 * core::bitvector: a byte vector addressed bit by bit (bit idx is bit
 * idx & 7 of byte idx / 8) together with a count of appended bits.
 */
module BitVector {
  import opened Common

  /** The byte pushed for a true bit has only bit 0 set. */
  lemma LowBitOnly(k: nat)
    requires 0 < k < 8
    ensures (1 as bv8) & Mask(k) == 0 && (0 as bv8) & Mask(k) == 0
  {
  }

  /** What append does to the bytes of a vector of count bits: at a byte
      boundary past the end a byte holding b is pushed, otherwise bit count
      is assigned. */
  function AppendBit(s: Bytes, count: nat, b: bool): (r: Bytes)
    requires count / 8 < |s| ==> count < 8 * |s|
  {
    if count / 8 >= |s| then s + [if b then 1 else 0] else WithBit(s, count, b)
  }

  /** r holds exactly the bits E, least significant bit first, with the
      unused high bits of its last byte clear. */
  predicate Packs(r: Bytes, E: seq<bool>)
  {
    |r| == (|E| + 7) / 8 && forall i :: 0 <= i < 8 * |r| ==> BitAt(r, i) == (i < |E| && E[i])
  }

  /** Appending b to a vector of count bits makes bit count equal to b and
      keeps every other bit; bits the old bytes did not have are clear. */
  lemma AppendBitAt(s: Bytes, count: nat, b: bool, j: nat)
    requires |s| == (count + 7) / 8
    requires j < 8 * |AppendBit(s, count, b)|
    ensures BitAt(AppendBit(s, count, b), j) == if j == count then b else j < 8 * |s| && BitAt(s, j)
  {
    if count / 8 >= |s| {
      if j < 8 * |s| {
        BitAtAppend(s, [if b then 1 else 0], j);
      } else if j > count {
        assert j / 8 == |s| && 0 < j % 8 < 8;
        LowBitOnly(j % 8);
      }
    } else {
      WithBitAt(s, count, b, j);
    }
  }

  /** Appending to a vector holding E gives a vector holding E + [b]. */
  lemma PacksAppend(r: Bytes, E: seq<bool>, b: bool)
    requires Packs(r, E)
    ensures Packs(AppendBit(r, |E|, b), E + [b])
  {
    var r' := AppendBit(r, |E|, b);
    forall i | 0 <= i < 8 * |r'| ensures BitAt(r', i) == (i < |E| + 1 && (E + [b])[i]) {
      AppendBitAt(r, |E|, b, i);
    }
  }

  /** Assigning bit i of a packing of T packs T with element i replaced. */
  lemma PacksSet(r: Bytes, T: seq<bool>, i: nat, v: bool)
    requires Packs(r, T) && i < |T|
    ensures Packs(WithBit(r, i, v), T[i := v])
  {
    forall j | 0 <= j < 8 * |r| ensures BitAt(WithBit(r, i, v), j) == (j < |T| && T[i := v][j]) {
      WithBitAt(r, i, v, j);
    }
  }

  /** Dropping k whole bytes of a packing drops its first 8k bits. */
  lemma PacksSuffix(r: Bytes, T: seq<bool>, k: nat)
    requires Packs(r, T) && 8 * k <= |T|
    ensures Packs(r[k..], T[8 * k..])
  {
    forall j | 0 <= j < 8 * |r[k..]| ensures BitAt(r[k..], j) == (j < |T| - 8 * k && T[8 * k + j]) {
      BitAtSuffix(r, k, j);
    }
  }

  /** Zero bytes pack all-clear bits. */
  lemma PacksZeros(n: nat)
    ensures Packs(Zeros(n), seq(8 * n, _ => false))
  {
    forall j | 0 <= j < 8 * n ensures !BitAt(Zeros(n), j) {
      ZeroBits(n, j);
    }
  }

  /** A packing is unique. */
  lemma PacksUnique(r: Bytes, r': Bytes, E: seq<bool>)
    requires Packs(r, E) && Packs(r', E)
    ensures r == r'
  {
    BytesFromBits(r, r');
  }

  class BitVector {
    /** mBs */
    var bytes: Bytes
    /** mCount */
    var count: nat

    /** The vector holds exactly the bytes its count needs: this is what the
        constructor establishes and append keeps. */
    predicate Valid()
      reads this
    {
      |bytes| == (count + 7) / 8
    }

    /** bitvector(nbits): ceil(nbits / 8) zero bytes, count = nbits. */
    constructor (nbits: nat)
      ensures Valid() && count == nbits && bytes == Zeros((nbits + 7) / 8)
    {
      count := nbits;
      bytes := if nbits > 0 then Zeros((nbits - 1) / 8 + 1) else [];
    }

    /** operator[](idx) const */
    predicate Get(idx: nat)
      reads this
      requires idx < 8 * |bytes|
    {
      BitAt(bytes, idx)
    }

    /** Assignment through the bit proxy returned by operator[](idx): the
        bytes become WithBit, so bit idx becomes v and, by WithBitAt, no
        other bit changes. */
    method Set(idx: nat, v: bool)
      requires idx < 8 * |bytes|
      modifies this
      ensures bytes == WithBit(old(bytes), idx, v) && count == old(count)
      ensures Get(idx) == v
    {
      bytes := WithBit(bytes, idx, v);
      WithBitAt(old(bytes), idx, v, idx);
    }

    /** append(b): at a byte boundary a new byte holding b is pushed,
        otherwise bit `count` is assigned; the count grows by one. On a
        valid vector this is AppendBit, whose bits AppendBitAt and
        PacksAppend describe. */
    method Append(b: bool)
      modifies this
      ensures count == old(count) + 1
      ensures old(count) / 8 >= old(|bytes|) ==> bytes == old(bytes) + [if b then 1 else 0]
      ensures old(count) / 8 < old(|bytes|) ==> bytes == WithBit(old(bytes), old(count), b)
      ensures old(Valid()) ==> Valid() && bytes == AppendBit(old(bytes), old(count), b)
    {
      if count / 8 >= |bytes| {
        bytes := bytes + [if b then 1 else 0];
      } else {
        Set(count, b);
      }
      count := count + 1;
    }

    /** bytes(): the backing bytes. */
    function Bytes(): (r: Bytes)
      reads this
      ensures |r| == |bytes| && forall i :: 0 <= i < 8 * |r| ==> (BitAt(r, i) <==> Get(i))
    {
      bytes
    }
  }
}
