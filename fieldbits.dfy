/*
 * The presence bitmap of an entity update (s2/entity.cpp). For N applicable
 * schema fields, N presence bits are sent. With cpo2 the smallest power of
 * two >= N, up to eight of them travel as one raw byte. Beyond that, the
 * bits are the leaves cpo2 .. 2*cpo2-1 of a heap-numbered binary tree
 * (node 1 is the root, node i has children 2i and 2i+1) in which every
 * internal node is the OR of its subtree. The tree is sent as a root bit
 * followed, for every set internal node in index order, by a code for its
 * children: 0 for (1,0), 10 for (0,1), 11 for (1,1).
 */
module FieldBits {
  import opened Common
  import opened Packet
  import opened BitVector
  import opened TypeRegistry

  // ---------------------------------------------------------------------
  // Rounding up to a power of two

  predicate IsPow2(p: nat)
  {
    p == 1 || (p >= 2 && p % 2 == 0 && IsPow2(p / 2))
  }

  /** The smallest power of two that is at least c and at least n. */
  function Pow2From(c: nat, n: nat): (r: nat)
    requires IsPow2(c)
    ensures IsPow2(r) && c <= r && n <= r
    ensures r == c || r / 2 < n
    decreases Max(n - c, 0)
  {
    if c >= n then c else Pow2From(2 * c, n)
  }

  /** cpo2: the smallest power of two >= n (1 when n <= 1). */
  function Pow2Ceil(n: nat): nat
  {
    Pow2From(1, n)
  }

  /** cpo2 is a power of two, covers n, and is the least such. */
  lemma Pow2CeilLeast(n: nat, q: nat)
    ensures IsPow2(Pow2Ceil(n)) && n <= Pow2Ceil(n)
    ensures IsPow2(q) && n <= q ==> Pow2Ceil(n) <= q
  {
    var p := Pow2Ceil(n);
    if IsPow2(q) && n <= q && q < p {
      Pow2Order(q, p);
    }
  }

  /** Of two powers of two, the smaller one is at most half the larger. */
  lemma {:induction false} Pow2Order(q: nat, p: nat)
    requires IsPow2(q) && IsPow2(p) && q < p
    ensures q <= p / 2
    decreases p
  {
    if q > 1 {
      Pow2Order(q / 2, p / 2);
    }
  }

  /** Doubling a power of two below n keeps the same ceiling. */
  lemma Pow2Step(c: nat, n: nat)
    requires IsPow2(c) && c < n
    ensures IsPow2(2 * c) && Pow2From(2 * c, n) == Pow2From(c, n)
  {
    assert (2 * c) / 2 == c;
  }

  /** The loop `for (cpo2 = 1; cpo2 < n; cpo2 *= 2);`. */
  method CeilPow2(n: nat) returns (cpo2: nat)
    ensures cpo2 == Pow2Ceil(n)
  {
    cpo2 := 1;
    while cpo2 < n
      invariant IsPow2(cpo2) && Pow2From(cpo2, n) == Pow2Ceil(n)
      decreases n - cpo2
    {
      Pow2Step(cpo2, n);
      cpo2 := 2 * cpo2;
    }
  }

  /** Powers of two above 8 are whole numbers of bytes of bits. */
  lemma {:induction false} Pow2Mod8(p: nat)
    requires IsPow2(p) && p > 8
    ensures p % 8 == 0 && p >= 16
    decreases p
  {
    if p / 2 > 8 {
      Pow2Mod8(p / 2);
    } else {
      assert !IsPow2(5) && !IsPow2(6) && !IsPow2(7);
    }
  }

  // ---------------------------------------------------------------------
  // The tree

  /** Node i of the tree over the leaves L: a leaf, or the OR of its children. */
  predicate Node(L: seq<bool>, i: nat)
    requires 1 <= i < 2 * |L|
    decreases 2 * |L| - i
  {
    if i >= |L| then L[i - |L|] else Node(L, 2 * i) || Node(L, 2 * i + 1)
  }

  /** j is m or one of its ancestors in heap numbering. */
  predicate Anc(j: nat, m: nat)
    decreases m
  {
    j >= 1 && m >= j && (m == j || Anc(j, m / 2))
  }

  lemma {:induction false} AncChildren(j: nat, m: nat)
    requires 1 <= j < m
    ensures Anc(j, m) <==> Anc(2 * j, m) || Anc(2 * j + 1, m)
    decreases m
  {
    if m / 2 > j {
      AncChildren(j, m / 2);
    }
  }

  lemma {:induction false} AncRoot(m: nat)
    requires m >= 1
    ensures Anc(1, m)
    decreases m
  {
    if m > 1 {
      AncRoot(m / 2);
    }
  }

  /** Two nodes on the path from m to the root, the lower one within a
      halving of the upper, are the same node. */
  lemma {:induction false} AncPath(j: nat, i: nat, m: nat)
    requires Anc(j, m) && Anc(i, m) && i / 2 < j <= i
    ensures j == i
    decreases m
  {
    if m != i && m != j {
      AncPath(j, i, m / 2);
    }
  }

  lemma AncStep(i: nat, m: nat)
    requires Anc(i, m) && i >= 2
    ensures Anc(i / 2, m)
    decreases m
  {
  }

  /** Setting leaf k sets exactly the nodes on its path to the root. */
  lemma {:induction false} NodeSetLeaf(L: seq<bool>, k: nat, j: nat)
    requires k < |L| && 1 <= j < 2 * |L|
    ensures Node(L[k := true], j) == (Node(L, j) || Anc(j, |L| + k))
    decreases 2 * |L| - j
  {
    var m := |L| + k;
    if j >= |L| {
      assert m / 2 < j;
    } else {
      NodeSetLeaf(L, k, 2 * j);
      NodeSetLeaf(L, k, 2 * j + 1);
      AncChildren(j, m);
    }
  }

  /** A set leaf sets every node on its path to the root. */
  lemma {:induction false} NodeOfLeaf(L: seq<bool>, k: nat, j: nat)
    requires k < |L| && L[k] && 1 <= j < 2 * |L| && Anc(j, |L| + k)
    ensures Node(L, j)
    decreases 2 * |L| - j
  {
    var m := |L| + k;
    if j >= |L| {
      assert m / 2 < j;
    } else {
      AncChildren(j, m);
      if Anc(2 * j, m) {
        NodeOfLeaf(L, k, 2 * j);
      } else {
        NodeOfLeaf(L, k, 2 * j + 1);
      }
    }
  }

  /** The root is set iff some leaf is. */
  lemma RootIsAny(L: seq<bool>)
    requires |L| >= 1
    ensures Node(L, 1) <==> exists k :: 0 <= k < |L| && L[k]
  {
    if Node(L, 1) {
      var k := SomeLeaf(L, 1);
    } else {
      forall k | 0 <= k < |L| ensures !L[k] {
        if L[k] {
          AncRoot(|L| + k);
          NodeOfLeaf(L, k, 1);
        }
      }
    }
  }

  /** A set node has a set leaf below it. */
  lemma {:induction false} SomeLeaf(L: seq<bool>, j: nat) returns (k: nat)
    requires 1 <= j < 2 * |L| && Node(L, j)
    ensures k < |L| && L[k]
    decreases 2 * |L| - j
  {
    if j >= |L| {
      k := j - |L|;
    } else if Node(L, 2 * j) {
      k := SomeLeaf(L, 2 * j);
    } else {
      k := SomeLeaf(L, 2 * j + 1);
    }
  }

  /** With at least 16 leaves, nodes 8..15 (the second byte of the tree's
      bits) are all clear iff the root is. */
  lemma RootByte(L: seq<bool>, tree: Bytes)
    requires |L| >= 16 && 2 * |L| <= 8 * |tree|
    requires forall j :: 1 <= j < 2 * |L| ==> BitAt(tree, j) == Node(L, j)
    ensures tree[1] == 0 <==> !Node(L, 1)
  {
    assert Node(L, 1) == (Node(L, 2) || Node(L, 3));
    assert Node(L, 2) == (Node(L, 4) || Node(L, 5));
    assert Node(L, 3) == (Node(L, 6) || Node(L, 7));
    assert Node(L, 4) == (Node(L, 8) || Node(L, 9));
    assert Node(L, 5) == (Node(L, 10) || Node(L, 11));
    assert Node(L, 6) == (Node(L, 12) || Node(L, 13));
    assert Node(L, 7) == (Node(L, 14) || Node(L, 15));
    SecondByte(tree);
  }

  /** Byte 1 is zero iff bits 8 .. 15 are all clear. */
  lemma SecondByte(tree: Bytes)
    requires |tree| >= 2
    ensures tree[1] == 0 <==> !(BitAt(tree, 8) || BitAt(tree, 9) || BitAt(tree, 10) || BitAt(tree, 11) ||
                                BitAt(tree, 12) || BitAt(tree, 13) || BitAt(tree, 14) || BitAt(tree, 15))
  {
    var b := tree[1];
    assert BitAt(tree, 8) == (b & 1 != 0) && BitAt(tree, 9) == (b & 2 != 0);
    assert BitAt(tree, 10) == (b & 4 != 0) && BitAt(tree, 11) == (b & 8 != 0);
    assert BitAt(tree, 12) == (b & 16 != 0) && BitAt(tree, 13) == (b & 32 != 0);
    assert BitAt(tree, 14) == (b & 64 != 0) && BitAt(tree, 15) == (b & 128 != 0);
  }

  /** The first p bits of bs, least significant bit of each byte first. */
  function Leaves(bs: Bytes, p: nat): (L: seq<bool>)
    requires p <= 8 * |bs|
    ensures |L| == p && forall k :: 0 <= k < p ==> L[k] == BitAt(bs, k)
  {
    seq(p, k requires 0 <= k < p && p <= 8 * |bs| => BitAt(bs, k))
  }

  /** The leaves of the first idx positions only. */
  function Upto(L: seq<bool>, idx: nat): (U: seq<bool>)
    ensures |U| == |L| && forall k :: 0 <= k < |L| ==> U[k] == (k < idx && L[k])
  {
    seq(|L|, k requires 0 <= k < |L| => k < idx && L[k])
  }

  // ---------------------------------------------------------------------
  // The code

  /** The code for the children of a set node. */
  function Code(c1: bool, c2: bool): (r: seq<bool>)
    ensures |r| <= 2 && (r == [] <==> !c1 && !c2)
  {
    if c1 && !c2 then [false]
    else if !c1 && c2 then [true, false]
    else if c1 && c2 then [true, true]
    else []
  }

  /** What node idx contributes: the code of its children when it is set. */
  function NodeCode(L: seq<bool>, idx: nat): (r: seq<bool>)
    requires 1 <= idx < |L|
    ensures r == [] <==> !Node(L, idx)
  {
    if Node(L, idx) then Code(Node(L, 2 * idx), Node(L, 2 * idx + 1)) else []
  }

  /** The codes of the set nodes idx .. |L|-1, in index order. */
  function Codes(L: seq<bool>, idx: nat): seq<bool>
    requires 1 <= idx <= |L|
    decreases |L| - idx
  {
    if idx == |L| then [] else NodeCode(L, idx) + Codes(L, idx + 1)
  }

  /** The bits bfhcomp emits for a tree with a set root. */
  function EncodeBits(L: seq<bool>): seq<bool>
    requires |L| >= 1
  {
    [true] + Codes(L, 1)
  }

  // ---------------------------------------------------------------------
  // The decoder, on bits: T holds the 2*cpo2 tree bits, I the input bits

  /** The bits of a byte string, least significant bit of each byte first. */
  function BitsOf(s: Bytes): (I: seq<bool>)
    ensures |I| == 8 * |s| && forall i :: 0 <= i < |I| ==> I[i] == BitAt(s, i)
  {
    Leaves(s, 8 * |s|)
  }

  /** Assigns the two children of node idx. */
  function Set2(T: seq<bool>, idx: nat, a: bool, b: bool): (r: seq<bool>)
    requires 2 * idx + 1 < |T|
    ensures |r| == |T| && r[2 * idx] == a && r[2 * idx + 1] == b
    ensures forall j :: 0 <= j < |T| && j != 2 * idx && j != 2 * idx + 1 ==> r[j] == T[j]
  {
    T[2 * idx := a][2 * idx + 1 := b]
  }

  /** One iteration of bfhdecomp's loop at node idx, with the tree bits T
      and the input bits I read from bit pos on: the new tree and input
      position, or None when the input runs out. A clear node gives
      children 00; a set node gives 10 on input 0, 11 on input 11 and 01
      on input 10. */
  function DecodeOne(T: seq<bool>, I: seq<bool>, pos: nat, idx: nat): (r: Option<(seq<bool>, nat)>)
    requires 2 * idx + 1 < |T|
    ensures r.Some? ==> |r.value.0| == |T| && pos <= r.value.1
    ensures r.Some? && pos <= |I| ==> r.value.1 <= |I|
    ensures r.None? ==> T[idx] && pos + 1 >= |I|
  {
    if !T[idx] then Some((Set2(T, idx, false, false), pos))
    else if pos >= |I| then None
    else if !I[pos] then Some((Set2(T, idx, true, false), pos + 1))
    else if pos + 1 >= |I| then None
    else if I[pos + 1] then Some((Set2(T, idx, true, true), pos + 2))
    else Some((Set2(T, idx, false, true), pos + 2))
  }

  /** The decoding loop of bfhdecomp from node idx on: the final tree and
      the number of input bits consumed, or None when the input runs out. */
  function DecodeFrom(p: nat, T: seq<bool>, I: seq<bool>, pos: nat, idx: nat): (r: Option<(seq<bool>, nat)>)
    requires 1 <= idx <= p && |T| == 2 * p
    ensures r.Some? ==> |r.value.0| == 2 * p && pos <= r.value.1
    ensures r.Some? && pos <= |I| ==> r.value.1 <= |I|
    decreases p - idx
  {
    if idx == p then Some((T, pos))
    else
      match DecodeOne(T, I, pos, idx)
      case None => None
      case Some((T', pos')) => DecodeFrom(p, T', I, pos', idx + 1)
  }

  /** The tree bfhdecomp starts from: only the root set. */
  function RootOnly(p: nat): (T: seq<bool>)
    ensures |T| == 2 * p && forall j :: 0 <= j < 2 * p ==> T[j] == (j == 1)
  {
    seq(2 * p, j => j == 1)
  }

  /** The presence bits bfhdecomp(n) yields, and the number of bytes it
      consumes, when the unread bytes are s; None when it reads past the end.
      With cpo2 <= 8 they are the eight bits of the first byte; otherwise the
      cpo2 leaves, all clear when the root bit is clear. */
  function DecompSpec(n: nat, s: Bytes): (r: Option<(seq<bool>, nat)>)
    ensures r.Some? ==> |r.value.0| == Max(Pow2Ceil(n), 8) && 1 <= r.value.1 <= |s|
    ensures r.None? ==> Pow2Ceil(n) > 8 || |s| == 0
  {
    var p := Pow2Ceil(n);
    if |s| == 0 then None
    else if p <= 8 then Some((BitsOf([s[0]]), 1))
    else if !BitAt(s, 0) then Some((seq(p, _ => false), 1))
    else
      match DecodeFrom(p, RootOnly(p), BitsOf(s), 1, 1)
      case None => None
      case Some((T, pos)) => Some((T[p..], (pos + 7) / 8))
  }

  /** bfhdecomp as written: a clear root bit yields the one byte {0}. */
  function DecompAsWritten(n: nat, s: Bytes): Option<(seq<bool>, nat)>
  {
    var p := Pow2Ceil(n);
    if |s| > 0 && p > 8 && !BitAt(s, 0) then Some((BitsOf([0]), 1)) else DecompSpec(n, s)
  }

  /** With more than eight fields and a clear root bit, bfhdecomp as written
      returns fewer than n bits, so the caller's lookup of presence bit n-1
      falls outside the returned bytes. */
  lemma AsWrittenTooShort(n: nat, s: Bytes)
    requires |s| > 0 && Pow2Ceil(n) > 8 && !BitAt(s, 0)
    ensures var d := DecompAsWritten(n, s);
            d.Some? && |d.value.0| == 8 < n
  {
    var p := Pow2Ceil(n);
    assert p == 1 || p / 2 < n;
    Pow2Mod8(p);
  }

  /** The smallest case: nine fields and the byte 0. */
  lemma AsWrittenNineFields()
    ensures DecompAsWritten(9, [0]) == Some((BitsOf([0]), 1))
    ensures |DecompAsWritten(9, [0]).value.0| < 9
  {
    assert Pow2Ceil(9) == 16;
    assert !BitAt([0], 0);
  }

  /** T agrees with the tree over L on the nodes 1 .. k-1. */
  predicate Decoded(L: seq<bool>, T: seq<bool>, k: nat)
    requires k <= |T| && k <= 2 * |L|
  {
    forall j {:trigger T[j]} :: 1 <= j < k ==> T[j] == Node(L, j)
  }

  /** One step of the decoder on the code of node idx assigns its children. */
  lemma DecodeStep(L: seq<bool>, T: seq<bool>, I: seq<bool>, pos: nat, idx: nat)
    requires 1 <= idx < |L| && |T| == 2 * |L|
    requires T[idx] == Node(L, idx)
    requires pos + |NodeCode(L, idx)| <= |I| && I[pos..pos + |NodeCode(L, idx)|] == NodeCode(L, idx)
    ensures DecodeOne(T, I, pos, idx)
         == Some((Set2(T, idx, Node(L, 2 * idx), Node(L, 2 * idx + 1)), pos + |NodeCode(L, idx)|))
  {
    var C := NodeCode(L, idx);
    if Node(L, idx) {
      assert I[pos] == C[0];
      if |C| == 2 {
        assert I[pos + 1] == C[1];
      }
    }
  }

  /** The decoder reproduces the tree from its codes. */
  lemma {:induction false} DecodeCodes(L: seq<bool>, T: seq<bool>, I: seq<bool>, pos: nat, idx: nat) returns (tree: seq<bool>)
    requires 1 <= idx <= |L| && |T| == 2 * |L|
    requires Decoded(L, T, 2 * idx)
    requires pos + |Codes(L, idx)| <= |I| && I[pos..pos + |Codes(L, idx)|] == Codes(L, idx)
    ensures DecodeFrom(|L|, T, I, pos, idx) == Some((tree, pos + |Codes(L, idx)|))
    ensures |tree| == 2 * |L| && Decoded(L, tree, 2 * |L|)
    decreases |L| - idx
  {
    if idx < |L| {
      var T', pos' := DecodeCodesStep(L, T, I, pos, idx);
      tree := DecodeCodes(L, T', I, pos', idx + 1);
    } else {
      assert Codes(L, idx) == [];
      tree := T;
    }
  }

  /** One node of the induction: the decoder moves on to node idx + 1 with
      the children of idx assigned and the code of idx consumed. */
  lemma DecodeCodesStep(L: seq<bool>, T: seq<bool>, I: seq<bool>, pos: nat, idx: nat) returns (T': seq<bool>, pos': nat)
    requires 1 <= idx < |L| && |T| == 2 * |L|
    requires Decoded(L, T, 2 * idx)
    requires pos + |Codes(L, idx)| <= |I| && I[pos..pos + |Codes(L, idx)|] == Codes(L, idx)
    ensures |T'| == 2 * |L| && Decoded(L, T', 2 * (idx + 1))
    ensures pos' + |Codes(L, idx + 1)| == pos + |Codes(L, idx)| <= |I|
    ensures I[pos'..pos' + |Codes(L, idx + 1)|] == Codes(L, idx + 1)
    ensures DecodeFrom(|L|, T, I, pos, idx) == DecodeFrom(|L|, T', I, pos', idx + 1)
  {
    CodesSplit(L, I, pos, idx);
    DecodeStep(L, T, I, pos, idx);
    Set2Tree(L, T, idx);
    T' := Set2(T, idx, Node(L, 2 * idx), Node(L, 2 * idx + 1));
    pos' := pos + |NodeCode(L, idx)|;
  }

  /** Assigning the children of node idx extends the decoded prefix of the tree by two nodes. */
  lemma Set2Tree(L: seq<bool>, T: seq<bool>, idx: nat)
    requires 1 <= idx < |L| && |T| == 2 * |L|
    requires Decoded(L, T, 2 * idx)
    ensures Decoded(L, Set2(T, idx, Node(L, 2 * idx), Node(L, 2 * idx + 1)), 2 * (idx + 1))
  {
    var T' := Set2(T, idx, Node(L, 2 * idx), Node(L, 2 * idx + 1));
    forall j | 1 <= j < 2 * (idx + 1) ensures T'[j] == Node(L, j) {
      if j < 2 * idx {
        assert T'[j] == T[j];
      }
    }
  }

  /** The input holding the codes from node idx on holds the code of idx,
      then the codes from idx + 1 on. */
  lemma CodesSplit(L: seq<bool>, I: seq<bool>, pos: nat, idx: nat)
    requires 1 <= idx < |L|
    requires pos + |Codes(L, idx)| <= |I| && I[pos..pos + |Codes(L, idx)|] == Codes(L, idx)
    ensures var C, rest := NodeCode(L, idx), Codes(L, idx + 1);
            pos + |C| + |rest| == pos + |Codes(L, idx)| &&
            I[pos..pos + |C|] == C && I[pos + |C|..pos + |C| + |rest|] == rest
  {
    var C, rest := NodeCode(L, idx), Codes(L, idx + 1);
    assert Codes(L, idx) == C + rest;
    assert I[pos..pos + |C|] == (C + rest)[..|C|] == C;
    assert I[pos + |C|..pos + |C| + |rest|] == (C + rest)[|C|..] == rest;
  }

  /** What bfhcomp(bs, n) returns: bs[0] alone when cpo2 <= 8, the byte 0
      when no bit is set, else the packed encoding of the tree. */
  predicate CompSpec(n: nat, bs: Bytes, r: Bytes)
    requires |bs| >= 1 && Pow2Ceil(n) <= 8 * |bs|
  {
    var p := Pow2Ceil(n);
    if p <= 8 then r == [bs[0]]
    else if !Node(Leaves(bs, p), 1) then r == [0]
    else Packs(r, EncodeBits(Leaves(bs, p)))
  }

  /** bfhdecomp inverts bfhcomp: decoding what bfhcomp produced for n fields
      from bs, followed by anything, yields the first max(cpo2, 8) bits of bs
      and consumes exactly the bytes bfhcomp produced (one byte when
      cpo2 <= 8). */
  lemma RoundTrip(n: nat, bs: Bytes, r: Bytes, rest: Bytes)
    requires |bs| >= 1 && Pow2Ceil(n) <= 8 * |bs|
    requires CompSpec(n, bs, r)
    ensures DecompSpec(n, r + rest) == Some((Leaves(bs, Max(Pow2Ceil(n), 8)), |r|))
    ensures Pow2Ceil(n) <= 8 ==> |r| == 1
  {
    var p := Pow2Ceil(n);
    var s := r + rest;
    if p <= 8 {
      assert BitsOf([bs[0]]) == Leaves(bs, 8);
    } else {
      Pow2Mod8(p);
      var L := Leaves(bs, p);
      RootIsAny(L);
      if !Node(L, 1) {
        assert s[0] == 0;
        assert seq(p, _ => false) == L;
      } else {
        DecodeEncoded(L, r, rest);
      }
    }
  }

  /** Decoding the packed encoding of a tree with a set root, followed by
      anything, rebuilds the leaves and stops within the encoding's last byte. */
  lemma DecodeEncoded(L: seq<bool>, r: Bytes, rest: Bytes)
    requires |L| >= 1 && Node(L, 1) && Packs(r, EncodeBits(L))
    ensures var I := BitsOf(r + rest);
            var d := DecodeFrom(|L|, RootOnly(|L|), I, 1, 1);
            I[0] && d.Some? && d.value.0[|L|..] == L && (d.value.1 + 7) / 8 == |r|
  {
    var p := |L|;
    var E := EncodeBits(L);
    var I := BitsOf(r + rest);
    PackedPrefix(r, rest, E);
    assert I[1..1 + |Codes(L, 1)|] == E[1..];
    var tree := DecodeCodes(L, RootOnly(p), I, 1, 1);
    TreeLeaves(L, tree);
  }

  /** The bits of a packing followed by anything start with the packed bits. */
  lemma PackedPrefix(r: Bytes, rest: Bytes, E: seq<bool>)
    requires Packs(r, E)
    ensures |E| <= 8 * |r + rest| && BitsOf(r + rest)[..|E|] == E
  {
    var I := BitsOf(r + rest);
    forall k | 0 <= k < |E| ensures I[k] == E[k] {
      BitAtAppend(r, rest, k);
    }
  }

  /** The leaves of a tree's bits are the last half. */
  lemma TreeLeaves(L: seq<bool>, T: seq<bool>)
    requires |T| == 2 * |L| && Decoded(L, T, 2 * |L|)
    ensures T[|L|..] == L
  {
    forall k | 0 <= k < |L| ensures T[|L|..][k] == L[k] {
      assert T[|L| + k] == Node(L, |L| + k);
    }
  }

  /** The presence bits, packed, are the leading bytes of bs. */
  lemma PresenceBytes(bs: Bytes, k: nat)
    requires k <= |bs|
    ensures Packs(bs[..k], Leaves(bs, 8 * k))
  {
  }

  // ---------------------------------------------------------------------
  // The methods

  /** D holds the tree over the leaves U at bits 1 .. 2|U|-1; its other
      bits are clear. */
  predicate IsTree(D: Bytes, U: seq<bool>)
    requires 1 <= |U| && 2 * |U| <= 8 * |D|
  {
    !BitAt(D, 0) &&
    (forall j {:trigger BitAt(D, j)} :: 1 <= j < 2 * |U| ==> BitAt(D, j) == Node(U, j)) &&
    (forall j :: 2 * |U| <= j < 8 * |D| ==> !BitAt(D, j))
  }

  /** Zero bytes hold the tree of clear leaves. */
  lemma ZerosTree(n: nat, U: seq<bool>)
    requires 1 <= |U| && 2 * |U| <= 8 * n && forall k :: 0 <= k < |U| ==> !U[k]
    ensures IsTree(Zeros(n), U)
  {
    forall j | 0 <= j < 8 * n ensures !BitAt(Zeros(n), j) {
      ZeroBits(n, j);
    }
    forall j {:trigger BitAt(Zeros(n), j)} | 1 <= j < 2 * |U| ensures BitAt(Zeros(n), j) == Node(U, j) {
      NoLeafNoNode(U, j);
    }
  }

  /** Setting the path of leaf k in the tree of U gives the tree of U with leaf k set. */
  lemma PathTree(D: Bytes, D': Bytes, U: seq<bool>, k: nat)
    requires 2 * |U| <= 8 * |D| && |D'| == |D| && k < |U|
    requires IsTree(D, U)
    requires forall j :: 0 <= j < 8 * |D| ==> BitAt(D', j) == (BitAt(D, j) || Anc(j, |U| + k))
    ensures IsTree(D', U[k := true])
  {
    forall j {:trigger BitAt(D', j)} | 1 <= j < 2 * |U| ensures BitAt(D', j) == Node(U[k := true], j) {
      NodeSetLeaf(U, k, j);
    }
  }

  /** Zero bytes hold the tree of the empty prefix. */
  lemma EmptyTree(n: nat, L: seq<bool>)
    requires 1 <= |L| && 2 * |L| <= 8 * n
    ensures IsTree(Zeros(n), Upto(L, 0))
  {
    ZerosTree(n, Upto(L, 0));
  }

  /** The full prefix is L. */
  lemma UptoAll(L: seq<bool>)
    ensures Upto(L, |L|) == L
  {
  }

  /** The tree of the full prefix is the tree of L. */
  lemma FullTree(D: Bytes, L: seq<bool>)
    requires 1 <= |L| && 2 * |L| <= 8 * |D| && IsTree(D, Upto(L, |L|))
    ensures IsTree(D, L)
  {
    UptoAll(L);
  }

  /** Admitting leaf idx into the prefix sets it exactly when it is set in L. */
  lemma UptoNext(L: seq<bool>, idx: nat)
    requires idx < |L|
    ensures Upto(L, idx + 1) == if L[idx] then Upto(L, idx)[idx := true] else Upto(L, idx)
  {
  }

  /** The body of bits2htree's loop for a set leaf idx: node cpo2 + idx
      and its ancestors are set, which turns the tree of U into the tree of
      U with leaf idx set. */
  method MarkLeaf(bv: BitVector, cpo2: nat, idx: nat, ghost U: seq<bool>)
    requires |U| == cpo2 && idx < cpo2 && 2 * cpo2 <= 8 * |bv.bytes|
    requires IsTree(bv.bytes, U)
    modifies bv
    ensures |bv.bytes| == old(|bv.bytes|) && IsTree(bv.bytes, U[idx := true])
  {
    var m := cpo2 + idx;
    ghost var before := bv.bytes;
    SetPath(bv, m);
    PathTree(before, bv.bytes, U, idx);
  }

  /** The outer loop of bits2htree: every set leaf idx < cpo2 of bs marks
      its path, turning the empty tree into the tree over L. */
  method MarkLeaves(bv: BitVector, bs: Bytes, cpo2: nat, ghost L: seq<bool>)
    requires 1 <= cpo2 <= 8 * |bs| && L == Leaves(bs, cpo2) && 2 * cpo2 <= 8 * |bv.bytes|
    requires IsTree(bv.bytes, Upto(L, 0))
    modifies bv
    ensures |bv.bytes| == old(|bv.bytes|) && IsTree(bv.bytes, L)
  {
    var idx := 0;
    while idx < cpo2
      invariant 0 <= idx <= cpo2 && |bv.bytes| == old(|bv.bytes|)
      invariant IsTree(bv.bytes, Upto(L, idx))
    {
      MarkNext(bv, bs, cpo2, idx, L);
      idx := idx + 1;
    }
    FullTree(bv.bytes, L);
  }

  /** One iteration of that loop: leaf idx joins the tree. */
  method MarkNext(bv: BitVector, bs: Bytes, cpo2: nat, idx: nat, ghost L: seq<bool>)
    requires idx < cpo2 <= 8 * |bs| && L == Leaves(bs, cpo2) && 2 * cpo2 <= 8 * |bv.bytes|
    requires IsTree(bv.bytes, Upto(L, idx))
    modifies bv
    ensures |bv.bytes| == old(|bv.bytes|) && IsTree(bv.bytes, Upto(L, idx + 1))
  {
    UptoNext(L, idx);
    if BitAt(bs, idx) {
      MarkLeaf(bv, cpo2, idx, Upto(L, idx));
    }
  }

  /** bits2htree(bs, n): the tree over the first cpo2 bits of bs, as the
      bytes of a bitvector of 2*cpo2 bits. */
  method Bits2HTree(bs: Bytes, nbits: nat) returns (tree: Bytes)
    requires Pow2Ceil(nbits) <= 8 * |bs|
    ensures var p := Pow2Ceil(nbits);
            |tree| == (2 * p + 7) / 8 && IsTree(tree, Leaves(bs, p))
  {
    var cpo2 := CeilPow2(nbits);
    ghost var L := Leaves(bs, cpo2);
    var bv := new BitVector(2 * cpo2);
    EmptyTree(|bv.bytes|, L);
    MarkLeaves(bv, bs, cpo2, L);
    tree := bv.Bytes();
  }

  /** The inner loop of bits2htree: `for (i = m; i >= 1; i >>= 1) bv[i] = 1;`
      sets node m and all its ancestors, and nothing else. */
  method SetPath(bv: BitVector, m: nat)
    requires m < 8 * |bv.bytes|
    modifies bv
    ensures bv.count == old(bv.count) && |bv.bytes| == old(|bv.bytes|)
    ensures forall j :: 0 <= j < 8 * |bv.bytes| ==> BitAt(bv.bytes, j) == (BitAt(old(bv.bytes), j) || Anc(j, m))
  {
    var i: nat := m;
    if m >= 1 {
      AncRoot(m);
    }
    while i >= 1
      invariant i <= m && (i == 0 || Anc(i, m))
      invariant bv.count == old(bv.count) && |bv.bytes| == old(|bv.bytes|)
      invariant forall j :: 0 <= j < 8 * |bv.bytes| ==> BitAt(bv.bytes, j) == (BitAt(old(bv.bytes), j) || (Anc(j, m) && j > i))
    {
      ghost var before := bv.bytes;
      bv.Set(i, true);
      forall j | 0 <= j < 8 * |bv.bytes|
        ensures BitAt(bv.bytes, j) == (BitAt(old(bv.bytes), j) || (Anc(j, m) && j > i / 2))
      {
        WithBitAt(before, i, true, j);
        if Anc(j, m) && i / 2 < j <= i {
          AncPath(j, i, m);
        }
      }
      if i >= 2 {
        AncStep(i, m);
      }
      i := i / 2;
    }
  }

  /** No set leaf, no set node. */
  lemma NoLeafNoNode(L: seq<bool>, j: nat)
    requires forall k :: 0 <= k < |L| ==> !L[k]
    requires 1 <= j < 2 * |L|
    ensures !Node(L, j)
  {
    if Node(L, j) {
      var k := SomeLeaf(L, j);
    }
  }

  /** The code of node idx read off the tree bits. */
  lemma TreeCode(D: Bytes, L: seq<bool>, idx: nat)
    requires 1 <= |L| && 2 * |L| <= 8 * |D| && 1 <= idx < |L|
    requires IsTree(D, L)
    ensures NodeCode(L, idx) == if BitAt(D, idx) then Code(BitAt(D, 2 * idx), BitAt(D, 2 * idx + 1)) else []
  {
    assert BitAt(D, idx) == Node(L, idx);
    assert BitAt(D, 2 * idx) == Node(L, 2 * idx);
    assert BitAt(D, 2 * idx + 1) == Node(L, 2 * idx + 1);
  }

  /** One more node's code moves from the pending codes to the emitted ones. */
  lemma CodesStep(L: seq<bool>, idx: nat, E: seq<bool>)
    requires 1 <= idx < |L|
    requires E + Codes(L, idx) == EncodeBits(L)
    ensures (E + NodeCode(L, idx)) + Codes(L, idx + 1) == EncodeBits(L)
  {
    assert Codes(L, idx) == NodeCode(L, idx) + Codes(L, idx + 1);
  }

  /** bv.append(b) on a vector holding E: it then holds E + [b]. */
  method AppendPacked(bv: BitVector, b: bool, ghost E: seq<bool>)
    requires bv.Valid() && bv.count == |E| && Packs(bv.bytes, E)
    modifies bv
    ensures bv.Valid() && bv.count == |E| + 1 && Packs(bv.bytes, E + [b])
  {
    PacksAppend(bv.bytes, E, b);
    bv.Append(b);
  }

  /** The body of bfhcomp's loop for a set node with children c1, c2:
      appends their code to bv; both children clear cannot happen. */
  method EmitChildren(bv: BitVector, c1: bool, c2: bool, ghost E: seq<bool>)
    requires bv.Valid() && bv.count == |E| && Packs(bv.bytes, E)
    requires c1 || c2
    modifies bv
    ensures bv.Valid() && bv.count == |E + Code(c1, c2)| && Packs(bv.bytes, E + Code(c1, c2))
  {
    if !c1 {
      if c2 {
        AppendPacked(bv, true, E);
        AppendPacked(bv, false, E + [true]);
        assert E + [true] + [false] == E + Code(c1, c2);
      } else {
        assert false;
      }
    } else {
      if !c2 {
        AppendPacked(bv, false, E);
      } else {
        AppendPacked(bv, true, E);
        AppendPacked(bv, true, E + [true]);
        assert E + [true] + [true] == E + Code(c1, c2);
      }
    }
  }

  /** One iteration of bfhcomp's loop: a set node idx emits the code of
      its children, read off the tree bits. */
  method EncodeNode(bv: BitVector, treebs: Bytes, idx: nat, ghost L: seq<bool>, ghost E: seq<bool>)
    requires 1 <= idx < |L| && 2 * |L| <= 8 * |treebs| && IsTree(treebs, L)
    requires bv.Valid() && bv.count == |E| && Packs(bv.bytes, E)
    modifies bv
    ensures bv.Valid() && bv.count == |E + NodeCode(L, idx)| && Packs(bv.bytes, E + NodeCode(L, idx))
  {
    TreeCode(treebs, L, idx);
    if BitAt(treebs, idx) {
      var c1 := BitAt(treebs, 2 * idx);
      var c2 := BitAt(treebs, 2 * idx + 1);
      EmitChildren(bv, c1, c2, E);
    } else {
      assert E + NodeCode(L, idx) == E;
    }
  }

  /** The encoding loop of bfhcomp: the root code followed by the code of
      every set node, packed into a bitvector. */
  method EncodeTree(treebs: Bytes, cpo2: nat, ghost L: seq<bool>) returns (result: Bytes)
    requires |L| == cpo2 >= 1 && 2 * cpo2 <= 8 * |treebs| && IsTree(treebs, L)
    ensures Packs(result, EncodeBits(L))
  {
    var bv := new BitVector(0);
    assert Packs(bv.bytes, []);
    AppendPacked(bv, true, []);
    ghost var emitted := [true];
    var idx := 1;
    while idx < cpo2
      invariant 1 <= idx <= cpo2
      invariant bv.Valid() && bv.count == |emitted| && Packs(bv.bytes, emitted)
      invariant emitted + Codes(L, idx) == EncodeBits(L)
    {
      EncodeNode(bv, treebs, idx, L, emitted);
      CodesStep(L, idx, emitted);
      emitted := emitted + NodeCode(L, idx);
      idx := idx + 1;
    }
    result := bv.Bytes();
  }

  /** bfhcomp(bs, n). */
  method BfhComp(bs: Bytes, nbits: nat) returns (result: Bytes)
    requires |bs| >= 1 && Pow2Ceil(nbits) <= 8 * |bs|
    ensures CompSpec(nbits, bs, result)
  {
    var cpo2 := CeilPow2(nbits);
    if cpo2 <= 8 {
      return [bs[0]];
    }
    Pow2Mod8(cpo2);
    ghost var L := Leaves(bs, cpo2);
    var treebs := Bits2HTree(bs, nbits);
    RootByte(L, treebs);
    if treebs[1] == 0 {
      return [0];
    }
    result := EncodeTree(treebs, cpo2, L);
  }

  // ---------------------------------------------------------------------
  // bfhdecomp

  /** Assigns the two children of node idx, as bfhdecomp's loop does. */
  method SetChildren(bv: BitVector, idx: nat, a: bool, b: bool, ghost T: seq<bool>)
    requires 2 * idx + 1 < |T| && Packs(bv.bytes, T)
    modifies bv
    ensures |bv.bytes| == old(|bv.bytes|) && Packs(bv.bytes, Set2(T, idx, a, b))
  {
    PacksSet(bv.bytes, T, 2 * idx, a);
    bv.Set(2 * idx, a);
    PacksSet(bv.bytes, T[2 * idx := a], 2 * idx + 1, b);
    bv.Set(2 * idx + 1, b);
  }

  /** Byte positions around input bit k: at a byte boundary the next bit
      starts a new byte, otherwise it is in the byte of bit k - 1. */
  lemma BitIndexArith(k: nat)
    requires k >= 1
    ensures k % 8 == 0 ==> (k + 7) / 8 == k / 8 && (k + 8) / 8 == k / 8 + 1
    ensures k % 8 != 0 ==> (k + 8) / 8 == (k + 7) / 8 && k / 8 == (k - 1) / 8
  {
  }

  /** nextinput: the input bit at position inputidx of the unread bytes s,
      which start at base; a new byte is read when inputidx is a multiple
      of eight. None when that read fails, which happens exactly when s is
      used up. */
  method NextInput(pkt: Packet, input: bv8, inputidx: nat, ghost s: Bytes, ghost base: nat)
      returns (r: Option<(bool, bv8)>)
    requires 1 <= inputidx <= 8 * |s| && base + |s| == |pkt.data| && pkt.data[base..] == s
    requires pkt.readIdx == base + (inputidx + 7) / 8 && input == s[(inputidx - 1) / 8]
    modifies pkt
    ensures pkt.data == old(pkt.data)
    ensures r.Some? <==> inputidx < 8 * |s|
    ensures r.Some? ==> r.value.0 == BitsOf(s)[inputidx] && Cursor(pkt, s, base, r.value.1, inputidx + 1)
    ensures r.None? ==> pkt.readIdx == |pkt.data|
  {
    BitIndexArith(inputidx);
    var cur := input;
    if inputidx % 8 == 0 {
      var b := pkt.ReadByte();
      if b.None? {
        return None;
      }
      cur := b.value;
    }
    return Some((cur & Mask(inputidx % 8) != 0, cur));
  }

  /** The state of nextinput's closure: input bit inputidx of the unread
      bytes s (which start at base) is next, the bytes holding the bits
      before it have been read, and input is the last byte read. */
  predicate Cursor(pkt: Packet, s: Bytes, base: nat, input: bv8, inputidx: nat)
    reads pkt
  {
    1 <= inputidx <= 8 * |s| && base + |s| == |pkt.data| && pkt.data[base..] == s &&
    pkt.readIdx == base + (inputidx + 7) / 8 && input == s[(inputidx - 1) / 8]
  }

  /** One iteration of bfhdecomp's loop at node idx: it takes the step
      DecodeOne takes, or fails where DecodeOne runs out of input, having
      then read every byte. */
  method DecodeNode(pkt: Packet, bv: BitVector, cpo2: nat, idx: nat, input: bv8, inputidx: nat,
                    ghost s: Bytes, ghost base: nat, ghost T: seq<bool>)
      returns (ok: bool, input': bv8, inputidx': nat, ghost T': seq<bool>)
    requires 1 <= idx < cpo2 && |T| == 2 * cpo2 && Packs(bv.bytes, T)
    requires Cursor(pkt, s, base, input, inputidx)
    modifies pkt, bv
    ensures pkt.data == old(pkt.data)
    ensures var d := DecodeOne(T, BitsOf(s), inputidx, idx);
            (ok <==> d.Some?) &&
            (ok ==> d.value == (T', inputidx') && Cursor(pkt, s, base, input', inputidx') && Packs(bv.bytes, T')) &&
            (!ok ==> pkt.readIdx == |pkt.data|)
  {
    var parent := bv.Get(idx);
    if !parent {
      SetChildren(bv, idx, false, false, T);
      ok, input', inputidx', T' := true, input, inputidx, Set2(T, idx, false, false);
    } else {
      ok, input', inputidx', T' := DecodeSetNode(pkt, bv, cpo2, idx, input, inputidx, s, base, T);
    }
  }

  /** The iteration for a set node: one input bit 0 gives children 10;
      input bits 1, 1 give 11 and 1, 0 give 01. */
  method DecodeSetNode(pkt: Packet, bv: BitVector, cpo2: nat, idx: nat, input: bv8, inputidx: nat,
                       ghost s: Bytes, ghost base: nat, ghost T: seq<bool>)
      returns (ok: bool, input': bv8, inputidx': nat, ghost T': seq<bool>)
    requires 1 <= idx < cpo2 && |T| == 2 * cpo2 && Packs(bv.bytes, T) && T[idx]
    requires Cursor(pkt, s, base, input, inputidx)
    modifies pkt, bv
    ensures pkt.data == old(pkt.data)
    ensures var d := DecodeOne(T, BitsOf(s), inputidx, idx);
            (ok <==> d.Some?) &&
            (ok ==> d.value == (T', inputidx') && Cursor(pkt, s, base, input', inputidx') && Packs(bv.bytes, T')) &&
            (!ok ==> pkt.readIdx == |pkt.data|)
  {
    input', inputidx', T' := input, inputidx, T;
    var i1 := NextInput(pkt, input, inputidx, s, base);
    if i1.None? {
      return false, input', inputidx', T';
    }
    if !i1.value.0 {
      SetChildren(bv, idx, true, false, T);
      return true, i1.value.1, inputidx + 1, Set2(T, idx, true, false);
    }
    ok, input', inputidx', T' := DecodeSecondBit(pkt, bv, cpo2, idx, i1.value.1, inputidx, s, base, T);
  }

  /** The rest of the iteration for a set node once input bit pos was 1:
      the second input bit picks children 11 or 01. */
  method DecodeSecondBit(pkt: Packet, bv: BitVector, cpo2: nat, idx: nat, input: bv8, pos: nat,
                         ghost s: Bytes, ghost base: nat, ghost T: seq<bool>)
      returns (ok: bool, input': bv8, inputidx': nat, ghost T': seq<bool>)
    requires 1 <= idx < cpo2 && |T| == 2 * cpo2 && Packs(bv.bytes, T) && T[idx]
    requires Cursor(pkt, s, base, input, pos + 1) && BitsOf(s)[pos]
    modifies pkt, bv
    ensures pkt.data == old(pkt.data)
    ensures var d := DecodeOne(T, BitsOf(s), pos, idx);
            (ok <==> d.Some?) &&
            (ok ==> d.value == (T', inputidx') && Cursor(pkt, s, base, input', inputidx') && Packs(bv.bytes, T')) &&
            (!ok ==> pkt.readIdx == |pkt.data|)
  {
    input', inputidx', T' := input, pos + 1, T;
    var i2 := NextInput(pkt, input, pos + 1, s, base);
    if i2.None? {
      return false, input', inputidx', T';
    }
    if i2.value.0 {
      SetChildren(bv, idx, true, true, T);
      T' := Set2(T, idx, true, true);
    } else {
      SetChildren(bv, idx, false, true, T);
      T' := Set2(T, idx, false, true);
    }
    return true, i2.value.1, pos + 2, T';
  }

  /** The decoding loop of bfhdecomp, from node 1 with the root set and one
      input byte read: it follows DecodeFrom, and fails exactly when
      DecodeFrom runs out of input. */
  method DecodeLoop(pkt: Packet, bv: BitVector, cpo2: nat, input0: bv8, ghost s: Bytes, ghost base: nat)
      returns (ok: bool, ghost T: seq<bool>, ghost pos: nat)
    requires 1 <= cpo2 && Packs(bv.bytes, RootOnly(cpo2))
    requires |s| >= 1 && Cursor(pkt, s, base, input0, 1)
    modifies pkt, bv
    ensures pkt.data == old(pkt.data)
    ensures var d := DecodeFrom(cpo2, RootOnly(cpo2), BitsOf(s), 1, 1);
            (ok <==> d.Some?) &&
            (ok ==> d.value == (T, pos) && Packs(bv.bytes, T) && pkt.readIdx == base + (pos + 7) / 8) &&
            (!ok ==> pkt.readIdx == |pkt.data|)
  {
    ghost var D := DecodeFrom(cpo2, RootOnly(cpo2), BitsOf(s), 1, 1);
    T := RootOnly(cpo2);
    var input := input0;
    var inputidx := 1;
    var idx := 1;
    while idx < cpo2
      invariant 1 <= idx <= cpo2 && Cursor(pkt, s, base, input, inputidx)
      invariant pkt.data == old(pkt.data)
      invariant |T| == 2 * cpo2 && Packs(bv.bytes, T)
      invariant DecodeFrom(cpo2, T, BitsOf(s), inputidx, idx) == D
    {
      ok, input, inputidx, T := DecodeNode(pkt, bv, cpo2, idx, input, inputidx, s, base, T);
      if !ok {
        return false, T, inputidx;
      }
      idx := idx + 1;
    }
    pos := inputidx;
    ok := true;
  }

  /** bfhdecomp(nfields, pkt), with the clear-root case corrected to return
      cpo2 / 8 zero bytes. The result packs the presence bits DecompSpec
      gives for the unread bytes, and exactly the bytes DecompSpec consumes
      are read; when the input runs out, every remaining byte is consumed
      and the result is None. */
  method BfhDecomp(nfields: nat, pkt: Packet) returns (r: Option<Bytes>)
    modifies pkt
    ensures pkt.data == old(pkt.data)
    ensures var d := DecompSpec(nfields, old(pkt.Rest()));
            (r.Some? <==> d.Some?) &&
            (d.Some? ==> Packs(r.value, d.value.0) && pkt.readIdx == old(pkt.readIdx) + d.value.1) &&
            (d.None? ==> pkt.readIdx == Max(old(pkt.readIdx), |pkt.data|))
  {
    ghost var s := pkt.Rest();
    ghost var base := pkt.readIdx;
    var cpo2 := CeilPow2(nfields);
    if cpo2 <= 8 {
      var b := pkt.ReadByte();
      if b.None? {
        return None;
      }
      return Some([b.value]);
    }
    Pow2Mod8(cpo2);
    var input := pkt.ReadByte();
    if input.None? {
      return None;
    }
    if input.value & 1 == 0 {
      PacksZeros(cpo2 / 8);
      assert seq(8 * (cpo2 / 8), _ => false) == seq(cpo2, _ => false);
      return Some(Zeros(cpo2 / 8));
    }
    assert Cursor(pkt, s, base, input.value, 1);
    r := DecompTree(pkt, cpo2, input.value, s, base);
  }

  /** The rest of bfhdecomp once the first byte has been read and its root
      bit is set: the tree is decoded into a bitvector of 2*cpo2 bits, and
      its leaf bytes are returned. */
  method DecompTree(pkt: Packet, cpo2: nat, input: bv8, ghost s: Bytes, ghost base: nat) returns (r: Option<Bytes>)
    requires cpo2 >= 16 && cpo2 % 8 == 0
    requires |s| >= 1 && Cursor(pkt, s, base, input, 1) && input & 1 != 0
    modifies pkt
    ensures pkt.data == old(pkt.data)
    ensures var d := DecodeFrom(cpo2, RootOnly(cpo2), BitsOf(s), 1, 1);
            (r.Some? <==> d.Some?) &&
            (d.Some? ==> Packs(r.value, d.value.0[cpo2..]) && pkt.readIdx == base + (d.value.1 + 7) / 8) &&
            (d.None? ==> pkt.readIdx == |pkt.data|)
  {
    var bv := new BitVector(8 * ((cpo2 - 1) / 4 + 1));
    assert 8 * ((cpo2 - 1) / 4 + 1) == 2 * cpo2;
    PacksZeros(cpo2 / 4);
    PacksSet(bv.bytes, seq(2 * cpo2, _ => false), 1, true);
    bv.Set(1, true);
    assert seq(2 * cpo2, _ => false)[1 := true] == RootOnly(cpo2);
    var ok, T, pos := DecodeLoop(pkt, bv, cpo2, input, s, base);
    if !ok {
      return None;
    }
    var bs := bv.Bytes();
    PacksSuffix(bs, T, cpo2 / 8);
    assert 8 * (cpo2 / 8) == cpo2;
    return Some(bs[cpo2 / 8..]);
  }

  // ---------------------------------------------------------------------
  // entity::decodefieldsbitarray

  /** The protocol version decodefieldsbitarray uses by default. */
  const DefaultVersion: bv32 := 27

  /** The elements of A whose flag is set, in order. */
  function Pick<T>(A: seq<T>, F: seq<bool>): (r: seq<T>)
    requires |A| <= |F|
    ensures |r| <= |A|
  {
    if |A| == 0 then [] else Pick(A[..|A| - 1], F) + (if F[|A| - 1] then [A[|A| - 1]] else [])
  }

  /** With every flag set, every element is picked. */
  lemma {:induction false} PickAll<T>(A: seq<T>, F: seq<bool>)
    requires |A| <= |F| && forall i :: 0 <= i < |A| ==> F[i]
    ensures Pick(A, F) == A
  {
    if |A| > 0 {
      PickAll(A[..|A| - 1], F);
      assert A[..|A| - 1] + [A[|A| - 1]] == A;
    }
  }

  /** With no flag set, nothing is picked. */
  lemma {:induction false} PickNone<T>(A: seq<T>, F: seq<bool>)
    requires |A| <= |F| && forall i :: 0 <= i < |A| ==> !F[i]
    ensures Pick(A, F) == []
  {
    if |A| > 0 {
      PickNone(A[..|A| - 1], F);
    }
  }

  /** Only elements of A are picked. */
  lemma {:induction false} PickIn<T>(A: seq<T>, F: seq<bool>, x: T)
    requires |A| <= |F| && x in Pick(A, F)
    ensures x in A
  {
    var n := |A| - 1;
    if x != A[n] {
      PickIn(A[..n], F, x);
      assert A[..n] <= A;
    }
  }

  /** In a list without repeats, element i is picked exactly when its flag is set. */
  lemma {:induction false} PickMember<T>(A: seq<T>, F: seq<bool>, i: nat)
    requires |A| <= |F| && i < |A| && forall j, k :: 0 <= j < k < |A| ==> A[j] != A[k]
    ensures A[i] in Pick(A, F) <==> F[i]
  {
    var n := |A| - 1;
    var P := Pick(A[..n], F);
    assert Pick(A, F) == P + (if F[n] then [A[n]] else []);
    if i < n {
      PickMember(A[..n], F, i);
      assert A[..n][i] == A[i] && A[i] != A[n];
    } else if A[n] in P {
      PickIn(A[..n], F, A[n]);
    }
  }

  /** The number of fields that take part in the given version (the first
      loop of decodefieldsbitarray). */
  method CountApplicable(vars: seq<VarInfo>, version: bv32) returns (nfields: nat)
    ensures nfields == |ApplicableVars(vars, version)|
  {
    nfields := 0;
    var i := 0;
    while i < |vars|
      invariant 0 <= i <= |vars| && nfields == |ApplicableVars(vars[..i], version)|
    {
      ApplicableSnoc(vars[..i], vars[i], version);
      assert vars[..i + 1] == vars[..i] + [vars[i]];
      if Applicable(vars[i], version) {
        nfields := nfields + 1;
      }
      i := i + 1;
    }
    assert vars[..i] == vars;
  }

  /** The second loop of decodefieldsbitarray: the applicable fields whose
      presence bit in flagbs is set, in schema order. */
  method PickFields(vars: seq<VarInfo>, version: bv32, flagbs: Bytes, ghost F: seq<bool>) returns (picked: seq<VarInfo>)
    requires Packs(flagbs, F) && |ApplicableVars(vars, version)| <= |F|
    ensures picked == Pick(ApplicableVars(vars, version), F)
  {
    picked := [];
    var bitidx := 0;
    var i := 0;
    while i < |vars|
      invariant 0 <= i <= |vars| && |ApplicableVars(vars[..i], version)| <= |ApplicableVars(vars, version)|
      invariant bitidx == |ApplicableVars(vars[..i], version)|
      invariant picked == Pick(ApplicableVars(vars[..i], version), F)
    {
      picked, bitidx := PickOne(vars, version, flagbs, F, i, picked, bitidx);
      i := i + 1;
    }
    assert vars[..i] == vars;
  }

  /** The body of that loop at field i: an applicable field takes the next
      presence bit and is kept when the bit is set. */
  method PickOne(vars: seq<VarInfo>, version: bv32, flagbs: Bytes, ghost F: seq<bool>, i: nat,
                 picked: seq<VarInfo>, bitidx: nat) returns (picked': seq<VarInfo>, bitidx': nat)
    requires Packs(flagbs, F) && |ApplicableVars(vars, version)| <= |F| && i < |vars|
    requires bitidx == |ApplicableVars(vars[..i], version)| <= |ApplicableVars(vars, version)|
    requires picked == Pick(ApplicableVars(vars[..i], version), F)
    ensures bitidx' == |ApplicableVars(vars[..i + 1], version)| <= |ApplicableVars(vars, version)|
    ensures picked' == Pick(ApplicableVars(vars[..i + 1], version), F)
  {
    PickStep(vars, i, version, F);
    picked', bitidx' := picked, bitidx;
    if Applicable(vars[i], version) {
      if BitAt(flagbs, bitidx) {
        picked' := picked + [vars[i]];
      }
      bitidx' := bitidx + 1;
    }
  }

  /** One field more: an applicable field joins the filtered list, and is
      picked exactly when its flag is set. */
  lemma PickStep(vars: seq<VarInfo>, i: nat, version: bv32, F: seq<bool>)
    requires i < |vars| && |ApplicableVars(vars, version)| <= |F|
    ensures var A, A' := ApplicableVars(vars[..i], version), ApplicableVars(vars[..i + 1], version);
            |A'| <= |ApplicableVars(vars, version)| &&
            (Applicable(vars[i], version) ==>
               (A' == A + [vars[i]] && Pick(A', F) == Pick(A, F) + (if F[|A|] then [vars[i]] else []))) &&
            (!Applicable(vars[i], version) ==> A' == A)
  {
    var A := ApplicableVars(vars[..i], version);
    ApplicableSnoc(vars[..i], vars[i], version);
    assert vars[..i + 1] == vars[..i] + [vars[i]];
    ApplicablePrefix(vars, i + 1, version);
    assert (A + [vars[i]])[..|A|] == A;
  }

  /** A prefix has no more applicable fields than the whole. */
  lemma {:induction false} ApplicablePrefix(vars: seq<VarInfo>, k: nat, version: bv32)
    requires k <= |vars|
    ensures |ApplicableVars(vars[..k], version)| <= |ApplicableVars(vars, version)|
    decreases |vars| - k
  {
    if k < |vars| {
      ApplicableSnoc(vars[..k], vars[k], version);
      assert vars[..k + 1] == vars[..k] + [vars[k]];
      ApplicablePrefix(vars, k + 1, version);
    } else {
      assert vars[..k] == vars;
    }
  }

  /** decodefieldsbitarray(pkt, version) of an entity of type ti: no
      applicable field reads nothing and yields nothing; otherwise the
      presence bits are read as DecompSpec says (one raw byte when cpo2 <= 8,
      bfhdecomp beyond), and the result is the applicable fields whose bit is
      set, in schema order, with the presence bytes. None when the packet
      runs out. */
  method DecodeFieldsBitArray(ti: TypeInfo, pkt: Packet, version: bv32) returns (r: Option<(seq<VarInfo>, Bytes)>)
    modifies pkt
    ensures pkt.data == old(pkt.data)
    ensures var A := ApplicableVars(ti.vars, version);
            var d := DecompSpec(|A|, old(pkt.Rest()));
            (|A| == 0 ==> r == Some(([], [])) && pkt.readIdx == old(pkt.readIdx)) &&
            (|A| > 0 ==> (r.Some? <==> d.Some?)) &&
            (|A| > 0 && d.Some? ==> r.value.0 == Pick(A, d.value.0) && Packs(r.value.1, d.value.0) &&
                                    pkt.readIdx == old(pkt.readIdx) + d.value.1)
  {
    ghost var A := ApplicableVars(ti.vars, version);
    var nfields := CountApplicable(ti.vars, version);
    if nfields == 0 {
      return Some(([], []));
    }
    var cpo2 := CeilPow2(nfields);
    var flagbs: Bytes;
    if cpo2 <= 8 {
      var b := pkt.ReadByte();
      if b.None? {
        return None;
      }
      flagbs := [b.value];
    } else {
      var f := BfhDecomp(nfields, pkt);
      if f.None? {
        return None;
      }
      flagbs := f.value;
    }
    ghost var F := DecompSpec(nfields, old(pkt.Rest())).value.0;
    var vars := PickFields(ti.vars, version, flagbs, F);
    return Some((vars, flagbs));
  }
}
