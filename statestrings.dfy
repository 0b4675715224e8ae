/*
 * The client's string variables: the server state strings that
 * updatestatestrings parses out of a 0xFF-separated byte stream, the
 * client's own variables (cvars) that sendcvars encodes in the same
 * format, and std::stol as StateStringsEnd uses it.
 */
module StateStrings {
  import opened Common

  /** map<string, string>: a server state string set. */
  type VarSet = map<Bytes, Bytes>

  /** The byte that ends a key and then a value. */
  const Sep: bv8 := 0xFF

  predicate NoSep(s: Bytes) {
    forall i :: 0 <= i < |s| ==> s[i] != Sep
  }

  // ---------------------------------------------------------------------
  // updatestatestrings

  /** The scanner between two bytes: whether a value is being read, the key
      and value read so far, the set being updated and the count of pairs
      committed (updatecount). */
  datatype Scan = Scan(readingVal: bool, key: Bytes, val: Bytes, vars: VarSet, count: nat)

  /** The scanner between two pairs. */
  function Boundary(vars: VarSet, count: nat): Scan {
    Scan(false, [], [], vars, count)
  }

  /** One byte: 0xFF ends the key, or commits key→value when it ends a
      value; any other byte extends the key or the value. */
  function Step(st: Scan, c: bv8): (r: Scan)
    ensures r.vars.Keys <= st.vars.Keys + {st.key}
    ensures r.count == st.count || (r.count == st.count + 1 && c == Sep && st.readingVal)
    ensures |r.key| + |r.val| <= |st.key| + |st.val| + 1
  {
    if c == Sep then
      if st.readingVal then Boundary(st.vars[st.key := st.val], st.count + 1)
      else st.(readingVal := true)
    else if st.readingVal then st.(val := st.val + [c])
    else st.(key := st.key + [c])
  }

  /** The scanner after the bytes of s. */
  function ScanFrom(st: Scan, s: Bytes): Scan
    decreases |s|
  {
    if s == [] then st else ScanFrom(Step(st, s[0]), s[1..])
  }

  /** updatestatestrings(sid, s): the set after the bytes of s. */
  function Apply(vars: VarSet, s: Bytes): VarSet {
    ScanFrom(Boundary(vars, 0), s).vars
  }

  /** Scanning a concatenation scans its parts one after the other. */
  lemma {:induction false} ScanConcat(st: Scan, a: Bytes, b: Bytes)
    ensures ScanFrom(st, a + b) == ScanFrom(ScanFrom(st, a), b)
    decreases |a|
  {
    if a == [] {
      assert a + b == b;
    } else {
      assert (a + b)[0] == a[0] && (a + b)[1..] == a[1..] + b;
      ScanConcat(Step(st, a[0]), a[1..], b);
    }
  }

  /** Bytes without a separator only extend the key (or the value). */
  lemma {:induction false} ScanPlain(st: Scan, s: Bytes)
    requires NoSep(s)
    ensures ScanFrom(st, s) == if st.readingVal then st.(val := st.val + s) else st.(key := st.key + s)
    decreases |s|
  {
    if s != [] {
      ScanPlain(Step(st, s[0]), s[1..]);
      assert [s[0]] + s[1..] == s;
    }
  }

  /** One pair k 0xFF v 0xFF read between two pairs commits k→v,
      overwriting only that key. */
  lemma CommitPair(vars: VarSet, count: nat, k: Bytes, v: Bytes)
    requires NoSep(k) && NoSep(v)
    ensures ScanFrom(Boundary(vars, count), Entry(k, v)) == Boundary(vars[k := v], count + 1)
  {
    var st := Boundary(vars, count);
    var st1 := Scan(true, k, [], vars, count);
    ReadKey(vars, count, k);
    ScanConcat(st, k + [Sep], v);
    ScanPlain(st1, v);
    assert [] + v == v;
    ScanConcat(st, k + [Sep] + v, [Sep]);
    ScanOne(st1.(val := v), Sep);
  }

  /** A key and its separator, read between two pairs. */
  lemma ReadKey(vars: VarSet, count: nat, k: Bytes)
    requires NoSep(k)
    ensures ScanFrom(Boundary(vars, count), k) == Scan(false, k, [], vars, count)
    ensures ScanFrom(Boundary(vars, count), k + [Sep]) == Scan(true, k, [], vars, count)
  {
    var st := Boundary(vars, count);
    ScanPlain(st, k);
    assert [] + k == k;
    ScanConcat(st, k, [Sep]);
    ScanOne(Scan(false, k, [], vars, count), Sep);
  }

  lemma ScanOne(st: Scan, c: bv8)
    ensures ScanFrom(st, [c]) == Step(st, c)
  {
    assert [c][1..] == [];
  }

  /** The first 0xFF ends a key and the next one commits the pair into
      the set; the rest of the stream then updates that set. */
  lemma UpdateEntry(vars: VarSet, k: Bytes, v: Bytes, rest: Bytes)
    requires NoSep(k) && NoSep(v)
    ensures Apply(vars, Entry(k, v) + rest) == Apply(vars[k := v], rest)
    ensures Apply(vars, Entry(k, v)) == vars[k := v]
  {
    CommitPair(vars, 0, k, v);
    ScanConcat(Boundary(vars, 0), Entry(k, v), rest);
    ScanCountFree(vars[k := v], 1, rest);
  }

  /** The count does not steer the scan. */
  lemma {:induction false} ScanCountFree(vars: VarSet, count: nat, s: Bytes)
    ensures ScanFrom(Boundary(vars, count), s).vars == ScanFrom(Boundary(vars, 0), s).vars
  {
    ScanCountFreeAt(Scan(false, [], [], vars, count), 0, s);
  }

  lemma {:induction false} ScanCountFreeAt(st: Scan, count: nat, s: Bytes)
    ensures ScanFrom(st, s).vars == ScanFrom(st.(count := count), s).vars
    decreases |s|
  {
    if s != [] {
      ScanCountFreeAt(Step(st, s[0]), Step(st.(count := count), s[0]).count, s[1..]);
    }
  }

  /** A trailing key with no separator, or a key and separator followed by
      an unterminated value, leaves the set as it was. */
  lemma TrailingDropped(vars: VarSet, count: nat, k: Bytes, v: Bytes)
    requires NoSep(k) && NoSep(v)
    ensures ScanFrom(Boundary(vars, count), k).vars == vars
    ensures ScanFrom(Boundary(vars, count), k + [Sep] + v).vars == vars
  {
    ReadKey(vars, count, k);
    ScanConcat(Boundary(vars, count), k + [Sep], v);
    ScanPlain(Scan(true, k, [], vars, count), v);
  }

  // ---------------------------------------------------------------------
  // The 0xFF-separated encoding sendcvars writes

  /** One pair on the wire. */
  function Entry(k: Bytes, v: Bytes): (r: Bytes)
    ensures |r| == |k| + |v| + 2
  {
    k + [Sep] + v + [Sep]
  }

  /** The pairs in order, each as key 0xFF value 0xFF. */
  function Encode(ps: seq<(Bytes, Bytes)>): (r: Bytes)
    ensures |r| >= 2 * |ps|
  {
    if ps == [] then [] else Entry(ps[0].0, ps[0].1) + Encode(ps[1..])
  }

  predicate NoSepPairs(ps: seq<(Bytes, Bytes)>) {
    forall i :: 0 <= i < |ps| ==> NoSep(ps[i].0) && NoSep(ps[i].1)
  }

  /** The set after assigning the pairs in order, later ones overwriting. */
  function Fold(vars: VarSet, ps: seq<(Bytes, Bytes)>): VarSet
    decreases |ps|
  {
    if ps == [] then vars else Fold(vars[ps[0].0 := ps[0].1], ps[1..])
  }

  /** Scanning the encoding of separator-free pairs assigns them in order
      and counts each one. */
  lemma {:induction false} ScanEncoded(vars: VarSet, count: nat, ps: seq<(Bytes, Bytes)>)
    requires NoSepPairs(ps)
    ensures ScanFrom(Boundary(vars, count), Encode(ps)) == Boundary(Fold(vars, ps), count + |ps|)
    decreases |ps|
  {
    if ps != [] {
      var k, v := ps[0].0, ps[0].1;
      ScanConcat(Boundary(vars, count), Entry(k, v), Encode(ps[1..]));
      CommitPair(vars, count, k, v);
      ScanEncoded(vars[k := v], count + 1, ps[1..]);
    }
  }

  /** Parsing an encoding gives back what its pairs assign, and counts them. */
  lemma ApplyEncoded(vars: VarSet, ps: seq<(Bytes, Bytes)>)
    requires NoSepPairs(ps)
    ensures Apply(vars, Encode(ps)) == Fold(vars, ps)
    ensures ScanFrom(Boundary(vars, 0), Encode(ps)).count == |ps|
  {
    ScanEncoded(vars, 0, ps);
  }

  // ---------------------------------------------------------------------
  // The client's variables: a std::map<string, string>, held as its
  // entries in key order

  /** std::string's operator<: byte-wise lexicographic, the bytes compared
      as unsigned char, a proper prefix first. */
  predicate Less(a: Bytes, b: Bytes)
    decreases |a|
  {
    |b| > 0 && (|a| == 0 || a[0] < b[0] || (a[0] == b[0] && Less(a[1..], b[1..])))
  }

  lemma {:induction false} LessIrreflexive(a: Bytes)
    ensures !Less(a, a)
    decreases |a|
  {
    if |a| > 0 {
      LessIrreflexive(a[1..]);
    }
  }

  lemma {:induction false} LessTransitive(a: Bytes, b: Bytes, c: Bytes)
    requires Less(a, b) && Less(b, c)
    ensures Less(a, c)
    decreases |a|
  {
    if |a| > 0 && a[0] == b[0] && b[0] == c[0] {
      LessTransitive(a[1..], b[1..], c[1..]);
    }
  }

  lemma {:induction false} LessTotal(a: Bytes, b: Bytes)
    requires a != b
    ensures Less(a, b) || Less(b, a)
    decreases |a|
  {
    if |a| > 0 && |b| > 0 && a[0] == b[0] {
      assert a == [a[0]] + a[1..] && b == [b[0]] + b[1..];
      LessTotal(a[1..], b[1..]);
    }
  }

  /** The entries in strictly increasing key order, as the map iterates. */
  predicate Sorted(ps: seq<(Bytes, Bytes)>) {
    forall i, j :: 0 <= i < j < |ps| ==> Less(ps[i].0, ps[j].0)
  }

  /** The map the entries stand for. */
  function AsMap(ps: seq<(Bytes, Bytes)>): VarSet {
    Fold(map[], ps)
  }

  /** operator[](k) = v: the entry for k gets v, in place when there is
      one, otherwise inserted at its place in key order. */
  function Put(ps: seq<(Bytes, Bytes)>, k: Bytes, v: Bytes): (r: seq<(Bytes, Bytes)>)
    ensures |r| <= |ps| + 1
  {
    if ps == [] then [(k, v)]
    else if ps[0].0 == k then [(k, v)] + ps[1..]
    else if Less(k, ps[0].0) then [(k, v)] + ps
    else [ps[0]] + Put(ps[1..], k, v)
  }

  /** A key that sorts before every entry is not assigned by them. */
  lemma {:induction false} FoldOutside(vars: VarSet, ps: seq<(Bytes, Bytes)>, k: Bytes, v: Bytes)
    requires forall i :: 0 <= i < |ps| ==> ps[i].0 != k
    ensures Fold(vars[k := v], ps) == Fold(vars, ps)[k := v]
    decreases |ps|
  {
    if ps != [] {
      assert vars[k := v][ps[0].0 := ps[0].1] == vars[ps[0].0 := ps[0].1][k := v];
      FoldOutside(vars[ps[0].0 := ps[0].1], ps[1..], k, v);
    }
  }

  /** A later assignment of a key wins over an earlier one. */
  lemma {:induction false} FoldOverwrite(vars: VarSet, ps: seq<(Bytes, Bytes)>, k: Bytes, v: Bytes)
    requires ps != [] && ps[0].0 == k
    ensures Fold(vars[k := v], ps) == Fold(vars, ps)
  {
    assert vars[k := v][k := ps[0].1] == vars[k := ps[0].1];
  }

  /** Put keeps the entries sorted and assigns exactly k. */
  lemma {:induction false} PutProps(ps: seq<(Bytes, Bytes)>, k: Bytes, v: Bytes)
    requires Sorted(ps)
    ensures Sorted(Put(ps, k, v))
    ensures forall i :: 0 <= i < |Put(ps, k, v)| ==> Put(ps, k, v)[i].0 == k || exists j :: 0 <= j < |ps| && ps[j].0 == Put(ps, k, v)[i].0
    ensures forall vars :: Fold(vars, Put(ps, k, v)) == Fold(vars, ps)[k := v]
    decreases |ps|
  {
    var r := Put(ps, k, v);
    if ps == [] {
    } else if ps[0].0 == k {
      forall vars ensures Fold(vars, r) == Fold(vars, ps)[k := v] {
        SortedTailKeys(ps);
        FoldOutside(vars[k := ps[0].1], ps[1..], k, v);
        FoldOutside(vars[k := v], ps[1..], k, v);
        assert vars[k := ps[0].1][k := v] == vars[k := v];
      }
    } else if Less(k, ps[0].0) {
      assert forall i :: 0 <= i < |ps| ==> ps[i].0 != k by {
        forall i | 0 <= i < |ps| ensures ps[i].0 != k {
          if i > 0 { LessTransitive(k, ps[0].0, ps[i].0); }
          if ps[i].0 == k { LessIrreflexive(k); }
        }
      }
      forall i, j | 0 <= i < j < |r| ensures Less(r[i].0, r[j].0) {
        if i == 0 && j > 1 { LessTransitive(k, ps[0].0, ps[j - 1].0); }
      }
      forall vars ensures Fold(vars, r) == Fold(vars, ps)[k := v] {
        FoldOutside(vars, ps, k, v);
      }
    } else {
      LessTotal(k, ps[0].0);
      var t := Put(ps[1..], k, v);
      PutProps(ps[1..], k, v);
      assert r == [ps[0]] + t;
      forall i, j | 0 <= i < j < |r| ensures Less(r[i].0, r[j].0) {
        if i == 0 {
          var kk := t[j - 1].0;
          if kk != k {
            var jj :| 0 <= jj < |ps[1..]| && ps[1..][jj].0 == kk;
            assert ps[jj + 1].0 == kk;
          }
        }
      }
      forall vars ensures Fold(vars, r) == Fold(vars, ps)[k := v] {
        assert Fold(vars, r) == Fold(vars[ps[0].0 := ps[0].1], t);
      }
    }
  }

  /** No key of a sorted list's tail equals its head's. */
  lemma SortedTailKeys(ps: seq<(Bytes, Bytes)>)
    requires Sorted(ps) && ps != []
    ensures forall i :: 0 <= i < |ps[1..]| ==> ps[1..][i].0 != ps[0].0
  {
    forall i | 0 <= i < |ps[1..]| ensures ps[1..][i].0 != ps[0].0 {
      if ps[1..][i].0 == ps[0].0 {
        assert Less(ps[0].0, ps[i + 1].0);
        LessIrreflexive(ps[0].0);
      }
    }
  }

  /** The entries of an initializer list inserted one after the other. */
  function FromList(ps: seq<(Bytes, Bytes)>): (r: seq<(Bytes, Bytes)>)
    ensures Sorted(r)
  {
    if ps == [] then [] else
      var init := FromList(ps[..|ps| - 1]);
      PutProps(init, ps[|ps| - 1].0, ps[|ps| - 1].1);
      Put(init, ps[|ps| - 1].0, ps[|ps| - 1].1)
  }

  /** A sorted list and the map it stands for agree on every key. */
  lemma {:induction false} AsMapSorted(ps: seq<(Bytes, Bytes)>, vars: VarSet)
    requires Sorted(ps)
    ensures forall i :: 0 <= i < |ps| ==> ps[i].0 in Fold(vars, ps) && Fold(vars, ps)[ps[i].0] == ps[i].1
    ensures forall k :: k !in vars && (forall i :: 0 <= i < |ps| ==> ps[i].0 != k) ==> k !in Fold(vars, ps)
    decreases |ps|
  {
    if ps != [] {
      AsMapSorted(ps[1..], vars[ps[0].0 := ps[0].1]);
      SortedTailKeys(ps);
      forall i | 0 <= i < |ps| ensures ps[i].0 in Fold(vars, ps) && Fold(vars, ps)[ps[i].0] == ps[i].1 {
        if i == 0 {
          FoldOutside(vars, ps[1..], ps[0].0, ps[0].1);
        } else {
          assert ps[1..][i - 1] == ps[i];
        }
      }
      forall k | k !in vars && (forall i :: 0 <= i < |ps| ==> ps[i].0 != k) ensures k !in Fold(vars, ps) {
        assert forall i :: 0 <= i < |ps[1..]| ==> ps[1..][i].0 == ps[i + 1].0;
      }
    }
  }

  /** The value of key k in the entries; None when there is none. */
  function Find(ps: seq<(Bytes, Bytes)>, k: Bytes): (r: Option<Bytes>)
    ensures r.Some? ==> (k, r.value) in ps
    ensures r.None? ==> forall i :: 0 <= i < |ps| ==> ps[i].0 != k
  {
    if ps == [] then None
    else if ps[0].0 == k then Some(ps[0].1)
    else Find(ps[1..], k)
  }

  /** In sorted entries Find looks k up in the map they stand for. */
  lemma {:induction false} FindInMap(ps: seq<(Bytes, Bytes)>, k: Bytes)
    requires Sorted(ps)
    ensures Find(ps, k) == if k in AsMap(ps) then Some(AsMap(ps)[k]) else None
  {
    AsMapSorted(ps, map[]);
    FindSound(ps, k);
  }

  lemma {:induction false} FindSound(ps: seq<(Bytes, Bytes)>, k: Bytes)
    ensures Find(ps, k).Some? ==> exists i :: 0 <= i < |ps| && ps[i] == (k, Find(ps, k).value)
    ensures Find(ps, k).None? ==> forall i :: 0 <= i < |ps| ==> ps[i].0 != k
    decreases |ps|
  {
    if ps != [] && ps[0].0 != k {
      FindSound(ps[1..], k);
      if Find(ps, k).Some? {
        var i :| 0 <= i < |ps[1..]| && ps[1..][i] == (k, Find(ps, k).value);
        assert ps[i + 1] == (k, Find(ps, k).value);
      } else {
        assert forall i :: 0 <= i < |ps[1..]| ==> ps[1..][i] == ps[i + 1];
      }
    }
  }

  /** The cvars sendcvars sends are what the server's parse of them gives
      back, when no key or value holds 0xFF. */
  lemma CvarsRoundTrip(ps: seq<(Bytes, Bytes)>)
    requires NoSepPairs(ps)
    ensures Apply(map[], Encode(ps)) == AsMap(ps)
  {
    ApplyEncoded(map[], ps);
  }

  // ---------------------------------------------------------------------
  // std::stol

  predicate IsSpace(c: bv8) {
    c == 0x20 || 0x09 <= c <= 0x0D
  }

  predicate IsDigit(c: bv8) {
    0x30 <= c <= 0x39
  }

  /** The number of leading decimal digits. */
  function DigitRun(s: Bytes): (n: nat)
    ensures n <= |s| && forall i :: 0 <= i < n ==> IsDigit(s[i])
    ensures n < |s| ==> !IsDigit(s[n])
  {
    if s == [] || !IsDigit(s[0]) then 0 else 1 + DigitRun(s[1..])
  }

  /** The value of a run of decimal digits. */
  function DigitsValue(s: Bytes): nat
  {
    if s == [] then 0 else DigitsValue(s[..|s| - 1]) * 10 + Max(0, s[|s| - 1] as int - 0x30)
  }

  /** '0' to '9'. */
  const DigitChars: seq<bv8> := [0x30, 0x31, 0x32, 0x33, 0x34, 0x35, 0x36, 0x37, 0x38, 0x39]

  const Minus: bv8 := 0x2D
  const Plus: bv8 := 0x2B

  /** The range of long, 32 bits wide in the client's build. */
  const LongMin: int := -0x8000_0000
  const LongMax: int := 0x7FFF_FFFF

  /** std::stol(s): leading white space, an optional sign, then at least
      one digit; what follows the digits is ignored. None stands for the
      exception thrown when there is no digit (invalid_argument) or the
      value does not fit a long (out_of_range). */
  function Stol(s: Bytes): (r: Option<int>)
    ensures r.Some? ==> LongMin <= r.value <= LongMax
    ensures (forall j :: 0 <= j < |s| ==> !IsDigit(s[j])) ==> r.None?
    decreases |s|
  {
    if s != [] && IsSpace(s[0]) then Stol(s[1..])
    else
      var neg := s != [] && s[0] == Minus;
      var body := if s != [] && (s[0] == Minus || s[0] == Plus) then s[1..] else s;
      var n := DigitRun(body);
      if n == 0 then None
      else
        var v: int := if neg then -(DigitsValue(body[..n]) as int) else DigitsValue(body[..n]);
        if LongMin <= v <= LongMax then Some(v) else None
  }

  /** The decimal digits of n, as the server writes a number. */
  function Decimal(n: nat): (r: Bytes)
    ensures |r| > 0 && forall i :: 0 <= i < |r| ==> IsDigit(r[i])
  {
    (if n < 10 then [] else Decimal(n / 10)) + [DigitChars[n % 10]]
  }

  lemma {:induction false} DecimalValue(n: nat)
    ensures DigitsValue(Decimal(n)) == n
  {
    var q, d := n / 10, n % 10;
    var init: Bytes := if n < 10 then [] else Decimal(q);
    DigitCharValue(d);
    DigitsValueSnoc(init, DigitChars[d]);
    if n >= 10 {
      DecimalValue(q);
    }
    assert n == q * 10 + d;
  }

  lemma DigitsValueSnoc(s: Bytes, c: bv8)
    ensures DigitsValue(s + [c]) == DigitsValue(s) * 10 + Max(0, c as int - 0x30)
  {
    assert (s + [c])[..|s|] == s;
  }

  lemma DigitCharValue(d: nat)
    requires d < 10
    ensures DigitChars[d] as int == d + 0x30
  {
  }

  /** stol reads back a number written in decimal, with any white space
      before it and anything after its digits that is not a digit. */
  lemma StolDecimal(n: nat, pad: Bytes, tail: Bytes)
    requires n <= LongMax
    requires forall i :: 0 <= i < |pad| ==> IsSpace(pad[i])
    requires tail == [] || !IsDigit(tail[0])
    ensures Stol(pad + (Decimal(n) + tail)) == Some(n)
  {
    StolDecimalAt(n, tail);
    StolSkipsSpace(pad, Decimal(n) + tail);
  }

  lemma StolDecimalAt(n: nat, tail: Bytes)
    requires n <= LongMax
    requires tail == [] || !IsDigit(tail[0])
    ensures Stol(Decimal(n) + tail) == Some(n)
  {
    DecimalValue(n);
    StolDigits(Decimal(n), tail);
  }

  /** A run of digits is read up to the first byte that is not one. */
  lemma StolDigits(D: Bytes, tail: Bytes)
    requires D != [] && forall i :: 0 <= i < |D| ==> IsDigit(D[i])
    requires tail == [] || !IsDigit(tail[0])
    ensures Stol(D + tail) == if DigitsValue(D) <= LongMax then Some(DigitsValue(D)) else None
  {
    var s := D + tail;
    assert s[0] == D[0];
    assert !IsSpace(s[0]) && s[0] != Minus && s[0] != Plus;
    DigitRunPrefix(D, tail);
    assert s[..|D|] == D;
  }

  lemma {:induction false} StolSkipsSpace(pad: Bytes, s: Bytes)
    requires forall i :: 0 <= i < |pad| ==> IsSpace(pad[i])
    ensures Stol(pad + s) == Stol(s)
    decreases |pad|
  {
    if pad == [] {
      assert pad + s == s;
    } else {
      assert (pad + s)[0] == pad[0] && (pad + s)[1..] == pad[1..] + s;
      assert Stol(pad + s) == Stol(pad[1..] + s);
      StolSkipsSpace(pad[1..], s);
    }
  }

  lemma {:induction false} DigitRunPrefix(d: Bytes, tail: Bytes)
    requires forall i :: 0 <= i < |d| ==> IsDigit(d[i])
    requires tail == [] || !IsDigit(tail[0])
    ensures DigitRun(d + tail) == |d|
    decreases |d|
  {
    if d != [] {
      assert (d + tail)[1..] == d[1..] + tail;
      DigitRunPrefix(d[1..], tail);
    }
  }

  /** An empty value, as operator[] inserts for a missing key, is
      invalid_argument; so is one without digits. */
  lemma StolRejects(s: Bytes)
    requires forall i :: 0 <= i < |s| ==> !IsDigit(s[i])
    ensures Stol([]) == None && Stol(s) == None
  {
    if s != [] && IsSpace(s[0]) {
      StolRejects(s[1..]);
    } else if s != [] && (s[0] == Minus || s[0] == Plus) {
      assert s[1..] == [] || !IsDigit(s[1..][0]);
    }
  }

  // ---------------------------------------------------------------------
  // The scanning loop of updatestatestrings

  /** updatestatestrings(sid, s, |s|): the set after the pairs of s, and
      updatecount, the number of pairs committed. */
  method UpdateStateStrings(vars0: VarSet, s: Bytes) returns (vars: VarSet, updateCount: nat)
    ensures vars == Apply(vars0, s) && updateCount == ScanFrom(Boundary(vars0, 0), s).count
  {
    vars := vars0;
    var readingVal := false;
    var key: Bytes, val: Bytes := [], [];
    updateCount := 0;
    var idx := 0;
    while idx < |s|
      invariant idx <= |s|
      invariant ScanFrom(Scan(readingVal, key, val, vars, updateCount), s[idx..]) == ScanFrom(Boundary(vars0, 0), s)
    {
      assert s[idx..][1..] == s[idx + 1..];
      var c := s[idx];
      if c == Sep {
        if readingVal {
          vars := vars[key := val];
          key, val := [], [];
          readingVal := false;
          updateCount := updateCount + 1;
        } else {
          readingVal := true;
        }
      } else if !readingVal {
        key := key + [c];
      } else {
        val := val + [c];
      }
      idx := idx + 1;
    }
  }

  /** sendcvars' body: every entry in key order, each as key 0xFF value 0xFF. */
  method EncodeCvars(cvars: seq<(Bytes, Bytes)>) returns (body: Bytes)
    ensures body == Encode(cvars)
  {
    body := [];
    var i := 0;
    while i < |cvars|
      invariant i <= |cvars|
      invariant body + Encode(cvars[i..]) == Encode(cvars)
    {
      assert cvars[i..][1..] == cvars[i + 1..];
      body := body + cvars[i].0 + [Sep] + cvars[i].1 + [Sep];
      i := i + 1;
    }
  }
}
