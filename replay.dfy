/*
 * s2::replay::LoadFromFile once the "replaydata" entry is out of the
 * archive: the signature, the version, the map name, three sets of state
 * strings stored as wide characters, and the snapshot records, which are
 * read past and not kept.
 */
module Replays {
  import opened Common
  import opened LittleEndian
  import opened ByteStream

  /** "S2R0" read as a little-endian dword (the literal '0R2S'). */
  const Signature: bv32 := 0x3052_3253
  const MaxVersion: nat := 27

  /** core::error (which aborts), a read past the end of the data, and a
      snapshot loop cut short by the fuel bound. */
  datatype Status = Fatal | Truncated | OutOfFuel

  datatype Outcome<T> = Fail(status: Status) | Ok(value: T)

  /** replay::VarSet */
  type VarSet = map<Bytes, Bytes>

  datatype ReplayValue = ReplayValue(mapName: seq<bv16>, state: map<int, VarSet>)

  // ---------------------------------------------------------------------
  // The format

  /** The word at i is 0xFFFF, the terminator of a key or a value: both of
      its bytes are 0xFF. */
  predicate Separates(data: Bytes, i: nat)
    requires i + 2 <= |data|
  {
    data[i] == 0xFF && data[i + 1] == 0xFF
  }

  /** The word at i is zero, which ends a set. */
  predicate EndsSet(data: Bytes, i: nat)
    requires i + 2 <= |data|
  {
    data[i] == 0 && data[i + 1] == 0
  }

  /** key += (c & 0xFF): a wide character kept as its low byte. */
  function Low(c: bv16): bv8
  {
    (c & 0xFF) as bv8
  }

  /** What readWord() returns, tested and truncated as the loops do, in
      terms of the two bytes it reads. */
  lemma WordBytes(s: Bytes)
    requires |s| == 2
    ensures FromLE16(s) == 0xFFFF <==> s[0] == 0xFF && s[1] == 0xFF
    ensures FromLE16(s) == 0 <==> s[0] == 0 && s[1] == 0
    ensures Low(FromLE16(s)) == s[0]
  {
  }

  /** Text read up to a terminator and the index after the terminator. */
  datatype Run = Run(text: Bytes, next: nat)

  /** Words from i up to a 0xFFFF word, their low bytes appended to acc. */
  function Field(data: Bytes, i: nat, acc: Bytes): (r: Option<Run>)
    ensures r.Some? ==> i + 2 <= r.value.next <= |data|
    decreases |data| - i
  {
    if i + 2 > |data| then None
    else if Separates(data, i) then Some(Run(acc, i + 2))
    else Field(data, i + 2, acc + [data[i]])
  }

  /** One turn of a state-string loop: a zero word ends the set; otherwise
      that word is the key's first character (whatever it is), the key runs
      to the next 0xFFFF and the value to the one after. */
  datatype Entry = EndOfSet(next: nat) | Pair(key: Bytes, val: Bytes, next: nat)

  function EntryAt(data: Bytes, i: nat): (r: Option<Entry>)
    ensures r.Some? ==> i + 2 <= r.value.next <= |data|
  {
    if i + 2 > |data| then None
    else if EndsSet(data, i) then Some(EndOfSet(i + 2))
    else match Field(data, i + 2, [data[i]])
      case None => None
      case Some(k) =>
        match Field(data, k.next, [])
        case None => None
        case Some(v) => Some(Pair(k.text, v.text, v.next))
  }

  /** A state-string set and the index after its zero word. */
  datatype SetRun = SetRun(vars: VarSet, next: nat)

  /** The entries from i stored into acc in order, statestrings[key] = val. */
  function StateSet(data: Bytes, i: nat, acc: VarSet): (r: Option<SetRun>)
    ensures r.Some? ==> i + 2 <= r.value.next <= |data|
    decreases |data| - i
  {
    match EntryAt(data, i)
    case None => None
    case Some(EndOfSet(j)) => Some(SetRun(acc, j))
    case Some(Pair(k, v, j)) => StateSet(data, j, acc[k := v])
  }

  datatype StateRun = StateRun(sets: map<int, VarSet>, next: nat)

  /** Sets number k to 3, each stored as mState[k]. */
  function StateSets(data: Bytes, i: nat, k: nat, acc: map<int, VarSet>): (r: Option<StateRun>)
    requires 1 <= k <= 4
    ensures r.Some? ==> i + 2 * (4 - k) <= r.value.next
    ensures r.Some? && k < 4 ==> r.value.next <= |data|
    decreases 4 - k
  {
    if k == 4 then Some(StateRun(acc, i))
    else match StateSet(data, i, map[])
      case None => None
      case Some(s) => StateSets(data, s.next, k + 1, acc[k := s.vars])
  }

  /** for (; i; i--) on an int runs i times when i >= 0, and through the
      wrap at INT_MIN otherwise: i modulo 2^32 turns. */
  function Turns(n: int): (r: nat)
    ensures r < 0x1_0000_0000
    ensures 0 <= n < 0x1_0000_0000 ==> r == n
    ensures -0x1_0000_0000 <= n < 0 ==> r == n + 0x1_0000_0000
  {
    n % 0x1_0000_0000
  }

  /** count entries of an int, a byte count n and n bytes; the index after
      them. */
  function ByteLists(data: Bytes, i: nat, count: nat): (r: Option<nat>)
    ensures r.Some? ==> i + 8 * count <= r.value
    decreases count
  {
    if count == 0 then Some(i)
    else if i + 8 > |data| then None
    else
      var n := Turns(S32At(data, i + 4));
      if i + 8 + n > |data| then None else ByteLists(data, i + 8 + n, count - 1)
  }

  /** count entries of an int and a zero-terminated wide string. */
  function WStringLists(data: Bytes, i: nat, count: nat): (r: Option<nat>)
    ensures r.Some? ==> i + 6 * count <= r.value
    decreases count
  {
    if count == 0 then Some(i)
    else if i + 4 > |data| then None
    else match WString(data[i + 4..])
      case None => None
      case Some(w) => WStringLists(data, i + 4 + 2 * |w| + 2, count - 1)
  }

  /** One snapshot record from i: the length dword, advance(snaplen) with
      the length taken as an int in size_t arithmetic, then the three
      count-prefixed lists; the index after them. */
  function SnapshotEnd(data: Bytes, i: nat): (r: Option<nat>)
  {
    if i + 4 > |data| then None
    else match CountedBytes(data, (i + 4 + S32At(data, i)) % SizeMod)
      case None => None
      case Some(k) =>
        match CountedBytes(data, k)
        case None => None
        case Some(m) => CountedWStrings(data, m)
  }

  /** A dword count, then that many byte-list entries. */
  function CountedBytes(data: Bytes, j: nat): (r: Option<nat>)
  {
    if j + 4 > |data| then None else ByteLists(data, j + 4, U32At(data, j))
  }

  /** A dword count, then that many wide-string entries. */
  function CountedWStrings(data: Bytes, j: nat): (r: Option<nat>)
  {
    if j + 4 > |data| then None else WStringLists(data, j + 4, U32At(data, j))
  }

  /** The snapshot loop from i: records until the end of the data, count
      being the number read so far; fuel bounds the number of records,
      since a negative length can send the loop back. */
  function Snapshots(data: Bytes, i: nat, fuel: nat, count: nat): (r: Outcome<nat>)
    ensures r.Fail? ==> r.status == Truncated || r.status == OutOfFuel
    ensures r.Ok? ==> r.value >= count
    decreases fuel
  {
    if i >= |data| then Ok(count)
    else if fuel == 0 then Fail(OutOfFuel)
    else match SnapshotEnd(data, i)
      case None => Fail(Truncated)
      case Some(j) => Snapshots(data, j, fuel - 1, count + 1)
  }

  /** replay::LoadFromFile on the extracted data: the signature (a wrong
      one is a core::error), the version (above 27 is a core::error), the
      map name, the three state-string sets and the snapshot records. */
  function LoadSpec(data: Bytes, fuel: nat): (r: Outcome<ReplayValue>)
    ensures r.Ok? ==> |data| >= 8 && DwordAt(data, 0) == Signature && U32At(data, 4) <= MaxVersion
  {
    if |data| < 4 then Fail(Truncated)
    else if DwordAt(data, 0) != Signature then Fail(Fatal)
    else if |data| < 8 then Fail(Truncated)
    else if U32At(data, 4) > MaxVersion then Fail(Fatal)
    else Contents(data, fuel)
  }

  /** What follows the version: the map name, the three state-string sets
      and the snapshot records. */
  function Contents(data: Bytes, fuel: nat): (r: Outcome<ReplayValue>)
    requires |data| >= 8
  {
    match WString(data[8..])
    case None => Fail(Truncated)
    case Some(name) => AfterName(data, fuel, name)
  }

  /** After the map name: the outcome of reading the sets, then the
      snapshot records. */
  function AfterName(data: Bytes, fuel: nat, name: seq<bv16>): Outcome<ReplayValue>
  {
    match StateSets(data, 8 + 2 * |name| + 2, 1, map[])
    case None => Fail(Truncated)
    case Some(st) =>
      match Snapshots(data, st.next, fuel, 0)
      case Fail(s) => Fail(s)
      case Ok(_) => Ok(ReplayValue(name, st.sets))
  }

  // ---------------------------------------------------------------------
  // What a load promises

  /** The signature check accepts exactly the data starting with the ASCII
      bytes "S2R0". */
  lemma SignatureIsS2R0(data: Bytes)
    requires |data| >= 4
    ensures DwordAt(data, 0) == Signature <==> data[..4] == [0x53, 0x32, 0x52, 0x30]
  {
    LE32RoundTrip(Signature, data[0..4]);
    assert LE32(Signature) == [0x53, 0x32, 0x52, 0x30];
    assert data[..4] == data[0..4];
  }

  /** core::error exactly when the signature is wrong or, with the right
      signature, the version is above 27; a load that
      succeeds has the zero-terminated wide string after the version as its
      map name and exactly the state-string sets 1, 2 and 3. */
  lemma LoadOutcomes(data: Bytes, fuel: nat)
    ensures LoadSpec(data, fuel) == Fail(Fatal) <==>
              |data| >= 4 && (data[..4] != [0x53, 0x32, 0x52, 0x30] || (|data| >= 8 && U32At(data, 4) > MaxVersion))
    ensures LoadSpec(data, fuel).Ok? ==>
              |data| >= 8 && U32At(data, 4) <= MaxVersion &&
              WString(data[8..]) == Some(LoadSpec(data, fuel).value.mapName) &&
              LoadSpec(data, fuel).value.state.Keys == {1, 2, 3}
  {
    if |data| >= 4 {
      SignatureIsS2R0(data);
    }
    if LoadSpec(data, fuel).Ok? {
      LoadedContents(data, fuel);
    }
  }

  /** What follows the version, when it reads: the map name is the wide
      string after the version and the sets are 1, 2 and 3. */
  lemma LoadedContents(data: Bytes, fuel: nat)
    requires |data| >= 8 && Contents(data, fuel).Ok?
    ensures WString(data[8..]) == Some(Contents(data, fuel).value.mapName)
    ensures Contents(data, fuel).value.state.Keys == {1, 2, 3}
  {
    var name := WString(data[8..]).value;
    ThreeSets(data, 8 + 2 * |name| + 2, 1, map[]);
    assert SetNumbers(1) == {1, 2, 3};
  }

  /** The set numbers from k to 3. */
  function SetNumbers(k: nat): set<int>
    decreases 4 - k
  {
    if k >= 4 then {} else {k as int} + SetNumbers(k + 1)
  }

  /** The set loop stores under the keys k to 3 and nothing else. */
  lemma {:induction false} ThreeSets(data: Bytes, i: nat, k: nat, acc: map<int, VarSet>)
    requires 1 <= k <= 4 && StateSets(data, i, k, acc).Some?
    ensures StateSets(data, i, k, acc).value.sets.Keys == acc.Keys + SetNumbers(k)
    decreases 4 - k
  {
    if k < 4 {
      var s := StateSet(data, i, map[]).value;
      ThreeSets(data, s.next, k + 1, acc[k := s.vars]);
    }
  }

  /** The k-th word from i is 0xFFFF. */
  predicate SeparatesAt(data: Bytes, i: nat, k: nat)
    requires i + 2 * k + 2 <= |data|
  {
    Separates(data, i + 2 * k)
  }

  /** The low bytes of the n words from i. */
  function LowBytes(data: Bytes, i: nat, n: nat): (r: Bytes)
    requires i + 2 * n <= |data|
    ensures |r| == n
  {
    seq(n, k requires 0 <= k < n => data[i + 2 * k])
  }

  lemma Shift(data: Bytes, i: nat, k: nat)
    requires k > 0 && i + 2 * k + 2 <= |data|
    ensures SeparatesAt(data, i + 2, k - 1) == SeparatesAt(data, i, k)
  {
    assert i + 2 + 2 * (k - 1) == i + 2 * k;
  }

  /** A key or value that is found is the low bytes of the words before
      the first 0xFFFF word, and the reader stops just after that word. */
  lemma {:induction false} FieldFound(data: Bytes, i: nat, acc: Bytes)
    requires Field(data, i, acc).Some?
    ensures var r := Field(data, i, acc).value;
            exists n: nat :: r.next == i + 2 * n + 2 && r.text == acc + LowBytes(data, i, n) &&
                             SeparatesAt(data, i, n) &&
                             forall k :: 0 <= k < n ==> !SeparatesAt(data, i, k)
    decreases |data| - i
  {
    var r := Field(data, i, acc).value;
    if Separates(data, i) {
      assert r.next == i + 2 * 0 + 2 && r.text == acc + LowBytes(data, i, 0) && SeparatesAt(data, i, 0);
    } else {
      var i2 := i + 2;
      FieldFound(data, i2, acc + [data[i]]);
      var n' :| r.next == i2 + 2 * n' + 2 && r.text == acc + [data[i]] + LowBytes(data, i2, n') &&
                 SeparatesAt(data, i2, n') &&
                 forall k :: 0 <= k < n' ==> !SeparatesAt(data, i2, k);
      var n := n' + 1;
      Shift(data, i, n);
      assert LowBytes(data, i, n) == [data[i]] + LowBytes(data, i2, n') by {
        forall k | 0 < k < n
          ensures LowBytes(data, i, n)[k] == LowBytes(data, i2, n')[k - 1]
        {
          assert i2 + 2 * (k - 1) == i + 2 * k;
        }
      }
      forall k | 0 <= k < n
        ensures !SeparatesAt(data, i, k)
      {
        if k > 0 {
          Shift(data, i, k);
        }
      }
      assert r.next == i + 2 * n + 2 && r.text == acc + LowBytes(data, i, n);
    }
  }

  /** A key or value is unterminated exactly when no 0xFFFF word fits in
      the data from its start. */
  lemma {:induction false} FieldMissing(data: Bytes, i: nat, acc: Bytes)
    ensures Field(data, i, acc).None? <==>
              forall k: nat :: i + 2 * k + 2 <= |data| ==> !SeparatesAt(data, i, k)
    decreases |data| - i
  {
    if i + 2 <= |data| && !Separates(data, i) {
      var i2 := i + 2;
      FieldMissing(data, i2, acc + [data[i]]);
      if Field(data, i, acc).None? {
        forall k: nat | i + 2 * k + 2 <= |data|
          ensures !SeparatesAt(data, i, k)
        {
          if k > 0 {
            Shift(data, i, k);
          }
        }
      } else {
        var k': nat :| i2 + 2 * k' + 2 <= |data| && SeparatesAt(data, i2, k');
        Shift(data, i, k' + 1);
      }
    } else if i + 2 <= |data| {
      assert SeparatesAt(data, i, 0);
    }
  }

  // ---------------------------------------------------------------------
  // The state strings as written

  /** A key and its value. */
  datatype KeyVal = KeyVal(key: Bytes, val: Bytes)

  /** A byte string stored as wide characters, one word per byte. */
  function Wide(t: Bytes): (r: Bytes)
    ensures |r| == 2 * |t|
  {
    if t == [] then [] else [t[0], 0] + Wide(t[1..])
  }

  const Separator: Bytes := [0xFF, 0xFF]

  /** An entry as stored: the key, 0xFFFF, the value, 0xFFFF. */
  function EncodeEntry(e: KeyVal): (r: Bytes)
    ensures |r| == 2 * |e.key| + 2 * |e.val| + 4
  {
    Wide(e.key) + Separator + Wide(e.val) + Separator
  }

  /** A set as stored: its entries, then a zero word. */
  function EncodeSet(es: seq<KeyVal>): (r: Bytes)
  {
    if es == [] then [0, 0] else EncodeEntry(es[0]) + EncodeSet(es[1..])
  }

  /** A key the reader can tell from the end of the set: not empty and
      with a nonzero first character. */
  predicate Storable(e: KeyVal)
  {
    |e.key| >= 1 && e.key[0] != 0
  }

  /** The entries stored into acc in order, later keys overwriting. */
  function Fold(acc: VarSet, es: seq<KeyVal>): VarSet
    decreases |es|
  {
    if es == [] then acc else Fold(acc[es[0].key := es[0].val], es[1..])
  }

  /** A window of data holding a + b holds a, then b. */
  lemma Window(data: Bytes, i: nat, a: Bytes, b: Bytes)
    requires i + |a| + |b| <= |data| && data[i..i + |a| + |b|] == a + b
    ensures data[i..i + |a|] == a && data[i + |a|..i + |a| + |b|] == b
  {
    assert data[i..i + |a|] == data[i..i + |a| + |b|][..|a|];
    assert data[i + |a|..i + |a| + |b|] == data[i..i + |a| + |b|][|a|..];
  }

  /** A field stored as wide characters and 0xFFFF reads back as its bytes. */
  lemma {:induction false} FieldRoundTrip(data: Bytes, i: nat, t: Bytes, acc: Bytes)
    requires i + 2 * |t| + 2 <= |data| && data[i..i + 2 * |t| + 2] == Wide(t) + Separator
    ensures Field(data, i, acc) == Some(Run(acc + t, i + 2 * |t| + 2))
    decreases |t|
  {
    if t == [] {
      assert data[i..i + 2] == Separator;
      assert data[i] == data[i..i + 2][0] && data[i + 1] == data[i..i + 2][1];
      assert Separates(data, i);
      assert acc + t == acc;
    } else {
      assert Wide(t) + Separator == [t[0], 0] + (Wide(t[1..]) + Separator);
      Window(data, i, [t[0], 0], Wide(t[1..]) + Separator);
      assert data[i] == data[i..i + 2][0] && data[i + 1] == data[i..i + 2][1];
      FieldRoundTrip(data, i + 2, t[1..], acc + [t[0]]);
      assert acc + [t[0]] + t[1..] == acc + t;
    }
  }

  /** A stored key reads back from its second word on, its first word
      being its first character. */
  lemma KeyRoundTrip(data: Bytes, i: nat, k: Bytes)
    requires |k| >= 1 && i + 2 * |k| + 2 <= |data| && data[i..i + 2 * |k| + 2] == Wide(k) + Separator
    ensures data[i] == k[0] && data[i + 1] == 0
    ensures Field(data, i + 2, [data[i]]) == Some(Run(k, i + 2 * |k| + 2))
  {
    assert Wide(k) + Separator == [k[0], 0] + (Wide(k[1..]) + Separator);
    Window(data, i, [k[0], 0], Wide(k[1..]) + Separator);
    assert data[i] == data[i..i + 2][0] && data[i + 1] == data[i..i + 2][1];
    FieldRoundTrip(data, i + 2, k[1..], [k[0]]);
    assert [k[0]] + k[1..] == k;
  }

  /** A stored entry with a storable key reads back as that key and value. */
  lemma EntryRoundTrip(data: Bytes, i: nat, e: KeyVal)
    requires Storable(e) && i + |EncodeEntry(e)| <= |data| && data[i..i + |EncodeEntry(e)|] == EncodeEntry(e)
    ensures EntryAt(data, i) == Some(Pair(e.key, e.val, i + |EncodeEntry(e)|))
  {
    var head := Wide(e.key) + Separator;
    var tail := Wide(e.val) + Separator;
    assert EncodeEntry(e) == head + tail;
    Window(data, i, head, tail);
    StoredPair(data, i, i + |head|, i + |head| + |tail|, e.key, e.val);
  }

  /** A key stored from i to j and a value from j to n read back as a pair. */
  lemma StoredPair(data: Bytes, i: nat, j: nat, n: nat, key: Bytes, val: Bytes)
    requires |key| >= 1 && key[0] != 0
    requires j == i + 2 * |key| + 2 && n == j + 2 * |val| + 2 && n <= |data|
    requires data[i..j] == Wide(key) + Separator && data[j..n] == Wide(val) + Separator
    ensures EntryAt(data, i) == Some(Pair(key, val, n))
  {
    assert data[i] != 0 && Field(data, i + 2, [data[i]]) == Some(Run(key, j)) by {
      KeyRoundTrip(data, i, key);
    }
    assert Field(data, j, []) == Some(Run(val, n)) by {
      FieldRoundTrip(data, j, val, []);
      assert [] + val == val;
    }
    PairAt(data, i, key, val, j, n);
  }

  /** A nonzero first word, a key field and a value field make a pair. */
  lemma PairAt(data: Bytes, i: nat, key: Bytes, val: Bytes, j: nat, n: nat)
    requires i + 2 <= |data| && data[i] != 0
    requires Field(data, i + 2, [data[i]]) == Some(Run(key, j)) && Field(data, j, []) == Some(Run(val, n))
    ensures EntryAt(data, i) == Some(Pair(key, val, n))
  {
  }

  /** A stored set of storable entries reads back as the entries stored in
      order into the map. */
  lemma {:induction false} SetRoundTrip(data: Bytes, i: nat, es: seq<KeyVal>, acc: VarSet)
    requires forall k :: 0 <= k < |es| ==> Storable(es[k])
    requires i + |EncodeSet(es)| <= |data| && data[i..i + |EncodeSet(es)|] == EncodeSet(es)
    ensures StateSet(data, i, acc) == Some(SetRun(Fold(acc, es), i + |EncodeSet(es)|))
    decreases |es|
  {
    if es == [] {
      assert data[i] == data[i..i + 2][0] && data[i + 1] == data[i..i + 2][1];
    } else {
      SetTail(data, i, es);
      SetRoundTrip(data, i + |EncodeEntry(es[0])|, es[1..], acc[es[0].key := es[0].val]);
      SetStep(data, i, es, acc);
    }
  }

  /** The entries after the first are stored right after it. */
  lemma SetTail(data: Bytes, i: nat, es: seq<KeyVal>)
    requires es != [] && forall k :: 0 <= k < |es| ==> Storable(es[k])
    requires i + |EncodeSet(es)| <= |data| && data[i..i + |EncodeSet(es)|] == EncodeSet(es)
    ensures var j := i + |EncodeEntry(es[0])|;
            |EncodeSet(es)| == |EncodeEntry(es[0])| + |EncodeSet(es[1..])| &&
            (forall k :: 0 <= k < |es[1..]| ==> Storable(es[1..][k])) &&
            j + |EncodeSet(es[1..])| <= |data| && data[j..j + |EncodeSet(es[1..])|] == EncodeSet(es[1..])
  {
    SetWindow(data, i, es);
    StorableTail(es);
  }

  /** The stored set splits into its first entry and the stored rest. */
  lemma SetWindow(data: Bytes, i: nat, es: seq<KeyVal>)
    requires es != []
    requires i + |EncodeSet(es)| <= |data| && data[i..i + |EncodeSet(es)|] == EncodeSet(es)
    ensures var j := i + |EncodeEntry(es[0])|;
            |EncodeSet(es)| == |EncodeEntry(es[0])| + |EncodeSet(es[1..])| &&
            j + |EncodeSet(es[1..])| <= |data| && data[j..j + |EncodeSet(es[1..])|] == EncodeSet(es[1..])
  {
    var e, rest := EncodeEntry(es[0]), EncodeSet(es[1..]);
    assert EncodeSet(es) == e + rest;
    Window(data, i, e, rest);
  }

  lemma StorableTail(es: seq<KeyVal>)
    requires es != [] && forall k :: 0 <= k < |es| ==> Storable(es[k])
    ensures forall k :: 0 <= k < |es[1..]| ==> Storable(es[1..][k])
  {
    forall k | 0 <= k < |es[1..]| ensures Storable(es[1..][k]) {
      assert es[1..][k] == es[k + 1];
    }
  }

  /** The step of SetRoundTrip: the first entry, then what the entries
      after it read back as. */
  lemma SetStep(data: Bytes, i: nat, es: seq<KeyVal>, acc: VarSet)
    requires es != [] && Storable(es[0])
    requires i + |EncodeSet(es)| <= |data| && data[i..i + |EncodeSet(es)|] == EncodeSet(es)
    requires var acc' := acc[es[0].key := es[0].val];
             StateSet(data, i + |EncodeEntry(es[0])|, acc') == Some(SetRun(Fold(acc', es[1..]), i + |EncodeSet(es)|))
    ensures StateSet(data, i, acc) == Some(SetRun(Fold(acc, es), i + |EncodeSet(es)|))
  {
    var e, rest := EncodeEntry(es[0]), EncodeSet(es[1..]);
    assert EncodeSet(es) == e + rest;
    Window(data, i, e, rest);
    EntryRoundTrip(data, i, es[0]);
  }

  /** A later duplicate overwrites an earlier one: the value under a key
      is the one of its last entry. */
  lemma {:induction false} LastWins(acc: VarSet, es: seq<KeyVal>, j: nat)
    requires j < |es| && forall l :: j < l < |es| ==> es[l].key != es[j].key
    ensures es[j].key in Fold(acc, es) && Fold(acc, es)[es[j].key] == es[j].val
    decreases |es|
  {
    if j == 0 {
      Untouched(acc[es[0].key := es[0].val], es[1..], es[0].key);
    } else {
      LastWins(acc[es[0].key := es[0].val], es[1..], j - 1);
    }
  }

  /** A key no entry names keeps what acc held for it. */
  lemma {:induction false} Untouched(acc: VarSet, es: seq<KeyVal>, key: Bytes)
    requires forall l :: 0 <= l < |es| ==> es[l].key != key
    ensures (key in Fold(acc, es) <==> key in acc) && (key in acc ==> Fold(acc, es)[key] == acc[key])
    decreases |es|
  {
    if es != [] {
      Untouched(acc[es[0].key := es[0].val], es[1..], key);
    }
  }

  // ---------------------------------------------------------------------
  // The reader

  /** s2::replay: the map name and the state-string sets. */
  class Replay {
    /** mMap */
    var mapName: seq<bv16>
    /** mState */
    var state: map<int, VarSet>

    constructor ()
      ensures mapName == [] && state == map[]
    {
      mapName := [];
      state := map[];
    }

    function Value(): ReplayValue
      reads this
    {
      ReplayValue(mapName, state)
    }
  }

  /** while ((c = fs.readWord()) != 0xFFFF) key += (c & 0xFF); */
  method ReadField(fs: ByteStream, acc: Bytes) returns (r: Option<Bytes>)
    modifies fs
    ensures var o := Field(fs.data, old(fs.readIdx), acc);
            (r.Some? <==> o.Some?) && (r.Some? ==> r.value == o.value.text && fs.readIdx == o.value.next)
  {
    ghost var data, i0 := fs.data, fs.readIdx;
    var s := acc;
    while true
      invariant Field(data, i0, acc) == Field(data, fs.readIdx, s)
      decreases |data| - fs.readIdx
    {
      var c := fs.ReadWord();
      if c.None? {
        return None;
      }
      WordBytes(data[fs.readIdx - 2..fs.readIdx]);
      if c.value == 0xFFFF {
        return Some(s);
      }
      s := s + [Low(c.value)];
    }
  }

  /** One state-string set: entries until a zero word, each stored with
      statestrings[key] = val. */
  method ReadStateSet(fs: ByteStream) returns (r: Option<VarSet>)
    modifies fs
    ensures var o := StateSet(fs.data, old(fs.readIdx), map[]);
            (r.Some? <==> o.Some?) && (r.Some? ==> r.value == o.value.vars && fs.readIdx == o.value.next)
  {
    ghost var data, i0 := fs.data, fs.readIdx;
    var statestrings: VarSet := map[];
    while true
      invariant StateSet(data, i0, map[]) == StateSet(data, fs.readIdx, statestrings)
      decreases |data| - fs.readIdx
    {
      var c := fs.ReadWord();
      if c.None? {
        return None;
      }
      WordBytes(data[fs.readIdx - 2..fs.readIdx]);
      if c.value == 0 {
        return Some(statestrings);
      }
      var key := ReadField(fs, [Low(c.value)]);
      if key.None? {
        return None;
      }
      var val := ReadField(fs, []);
      if val.None? {
        return None;
      }
      statestrings := statestrings[key.value := val.value];
    }
  }

  /** for (; i; i--) fs.readByte(); */
  method SkipBytes(fs: ByteStream, n: nat) returns (ok: bool)
    requires fs.readIdx <= |fs.data|
    modifies fs
    ensures ok <==> old(fs.readIdx) + n <= |fs.data|
    ensures ok ==> fs.readIdx == old(fs.readIdx) + n
  {
    var left := n;
    while left > 0
      invariant fs.readIdx + left == old(fs.readIdx) + n && fs.readIdx <= |fs.data|
    {
      var b := fs.ReadByte();
      if b.None? {
        return false;
      }
      left := left - 1;
    }
    ok := true;
  }

  /** count entries of readInt(), readInt() as a byte count, and that
      many readByte() calls. */
  method ReadByteLists(fs: ByteStream, count: nat) returns (ok: bool)
    requires fs.readIdx <= |fs.data|
    modifies fs
    ensures var o := ByteLists(fs.data, old(fs.readIdx), count);
            (ok <==> o.Some?) && (ok ==> fs.readIdx == o.value)
  {
    ghost var data, i0 := fs.data, fs.readIdx;
    var c := count;
    while c > 0
      invariant fs.readIdx <= |data|
      invariant ByteLists(data, i0, count) == ByteLists(data, fs.readIdx, c)
    {
      var more := ReadByteEntry(fs);
      if !more {
        return false;
      }
      c := c - 1;
    }
    ok := true;
  }

  /** One entry of a byte list: readInt(), readInt() as a byte count, and
      that many readByte() calls. */
  method ReadByteEntry(fs: ByteStream) returns (ok: bool)
    requires fs.readIdx <= |fs.data|
    modifies fs
    ensures var i := old(fs.readIdx);
            (ok <==> i + 8 <= |fs.data| && i + 8 + Turns(S32At(fs.data, i + 4)) <= |fs.data|) &&
            (ok ==> fs.readIdx == i + 8 + Turns(S32At(fs.data, i + 4)))
  {
    var t := ReadS32(fs);
    if t.None? {
      return false;
    }
    var n := ReadS32(fs);
    if n.None? {
      return false;
    }
    ok := SkipBytes(fs, Turns(n.value));
  }

  /** count entries of readInt() and readWString(). */
  method ReadWStringLists(fs: ByteStream, count: nat) returns (ok: bool)
    requires fs.readIdx <= |fs.data|
    modifies fs
    ensures var o := WStringLists(fs.data, old(fs.readIdx), count);
            (ok <==> o.Some?) && (ok ==> fs.readIdx == o.value)
  {
    ghost var data, i0 := fs.data, fs.readIdx;
    var c := count;
    while c > 0
      invariant fs.readIdx <= |data|
      invariant WStringLists(data, i0, count) == WStringLists(data, fs.readIdx, c)
    {
      var more := ReadWStringEntry(fs);
      if !more {
        return false;
      }
      c := c - 1;
    }
    ok := true;
  }

  /** One entry of a wide-string list: readInt(), then readWString(). */
  method ReadWStringEntry(fs: ByteStream) returns (ok: bool)
    requires fs.readIdx <= |fs.data|
    modifies fs
    ensures var i := old(fs.readIdx);
            (ok <==> i + 4 <= |fs.data| && WString(fs.data[i + 4..]).Some?) &&
            (ok ==> fs.readIdx == i + 4 + 2 * |WString(fs.data[i + 4..]).value| + 2 && fs.readIdx <= |fs.data|)
  {
    ghost var i := fs.readIdx;
    var t := ReadS32(fs);
    if t.None? {
      return false;
    }
    assert fs.Rest() == fs.data[i + 4..];
    var w := fs.ReadWCString();
    if w.None? {
      return false;
    }
    WStringFits(fs.data[i + 4..], w.value);
    ok := true;
  }

  /** One snapshot record: snaplen, advance(snaplen), and the three lists. */
  method ReadSnapshot(fs: ByteStream) returns (ok: bool)
    modifies fs
    ensures var o := SnapshotEnd(fs.data, old(fs.readIdx));
            (ok <==> o.Some?) && (ok ==> fs.readIdx == o.value)
  {
    ghost var i := fs.readIdx;
    var snaplen := ReadS32(fs);
    if snaplen.None? {
      return false;
    }
    AdvanceFrom(fs, i + 4, S32At(fs.data, i), snaplen.value);
    ok := ReadCountedBytes(fs);
    if !ok {
      return;
    }
    ok := ReadCountedBytes(fs);
    if !ok {
      return;
    }
    ok := ReadCountedWStrings(fs);
  }

  /** readDword() as a count, then that many byte-list entries. */
  method ReadCountedBytes(fs: ByteStream) returns (ok: bool)
    modifies fs
    ensures var o := CountedBytes(fs.data, old(fs.readIdx));
            (ok <==> o.Some?) && (ok ==> fs.readIdx == o.value)
  {
    var count := ReadU32(fs);
    if count.None? {
      return false;
    }
    ok := ReadByteLists(fs, count.value);
  }

  /** readDword() as a count, then that many wide-string entries. */
  method ReadCountedWStrings(fs: ByteStream) returns (ok: bool)
    modifies fs
    ensures var o := CountedWStrings(fs.data, old(fs.readIdx));
            (ok <==> o.Some?) && (ok ==> fs.readIdx == o.value)
  {
    var count := ReadU32(fs);
    if count.None? {
      return false;
    }
    ok := ReadWStringLists(fs, count.value);
  }

  /** while (!fs.eof()) one snapshot record; the number of records read. */
  method ReadSnapshots(fs: ByteStream, fuel: nat) returns (r: Outcome<nat>)
    modifies fs
    ensures r == Snapshots(fs.data, old(fs.readIdx), fuel, 0)
  {
    ghost var data := fs.data;
    ghost var whole := Snapshots(data, fs.readIdx, fuel, 0);
    var snapshotCount: nat := 0;
    var f := fuel;
    while !fs.Eof()
      invariant whole == Snapshots(data, fs.readIdx, f, snapshotCount)
      decreases f
    {
      if f == 0 {
        return Fail(OutOfFuel);
      }
      var ok;
      ok, f, snapshotCount := ReadNextSnapshot(fs, data, f, snapshotCount, whole);
      if !ok {
        return Fail(Truncated);
      }
    }
    r := Ok(snapshotCount);
  }

  /** A zero-terminated wide string fits in the bytes it is read from. */
  lemma {:induction false} WStringFits(s: Bytes, w: seq<bv16>)
    requires WString(s) == Some(w)
    ensures 2 * |w| + 2 <= |s|
    decreases |s|
  {
    if FromLE16(s[..2]) != 0 {
      WStringFits(s[2..], w[1..]);
    }
  }

  /** One turn of the snapshot loop: a record that cannot be read ends
      the loop as Truncated, otherwise the loop goes on after it with one
      more record counted and one unit of fuel spent. */
  method ReadNextSnapshot(fs: ByteStream, ghost data: Bytes, f: nat, count: nat, ghost whole: Outcome<nat>)
    returns (ok: bool, f': nat, count': nat)
    requires data == fs.data && fs.readIdx < |data| && f > 0 && whole == Snapshots(data, fs.readIdx, f, count)
    modifies fs
    ensures f' == f - 1 && count' == count + 1
    ensures !ok ==> whole == Fail(Truncated)
    ensures ok ==> whole == Snapshots(data, fs.readIdx, f', count')
  {
    ghost var e := SnapshotEnd(data, fs.readIdx);
    SnapshotsStep(data, fs.readIdx, f, count, whole, e);
    ok := ReadSnapshot(fs);
    f', count' := f - 1, count + 1;
  }

  lemma SnapshotsStep(data: Bytes, i: nat, f: nat, count: nat, whole: Outcome<nat>, e: Option<nat>)
    requires i < |data| && f > 0 && whole == Snapshots(data, i, f, count) && e == SnapshotEnd(data, i)
    ensures e.None? ==> whole == Fail(Truncated)
    ensures e.Some? ==> whole == Snapshots(data, e.value, f - 1, count + 1)
  {
  }

  /** The three state-string sets, the i-th stored as mState[i]. */
  method ReadStateSets(fs: ByteStream) returns (r: Option<map<int, VarSet>>)
    modifies fs
    ensures var o := StateSets(fs.data, old(fs.readIdx), 1, map[]);
            (r.Some? <==> o.Some?) && (r.Some? ==> r.value == o.value.sets && fs.readIdx == o.value.next)
  {
    ghost var data, start := fs.data, fs.readIdx;
    var state: map<int, VarSet> := map[];
    var i := 1;
    while i < 4
      invariant 1 <= i <= 4
      invariant StateSets(data, start, 1, map[]) == StateSets(data, fs.readIdx, i, state)
    {
      var statestrings := ReadStateSet(fs);
      if statestrings.None? {
        return None;
      }
      state := state[i := statestrings.value];
      i := i + 1;
    }
    r := Some(state);
  }

  /** replay::LoadFromFile from the extracted "replaydata" bytes. */
  method LoadFromData(data: Bytes, fuel: nat) returns (r: Outcome<Replay>)
    ensures r.Fail? ==> LoadSpec(data, fuel) == Fail(r.status)
    ensures r.Ok? ==> fresh(r.value) && LoadSpec(data, fuel) == Ok(r.value.Value())
  {
    var fs := new ByteStream(data);
    var sig := fs.ReadDword();
    if sig.None? {
      return Fail(Truncated);
    }
    if sig.value != Signature {
      assert LoadSpec(data, fuel) == Fail(Fatal);
      return Fail(Fatal);
    }
    var version := ReadU32(fs);
    if version.None? {
      return Fail(Truncated);
    }
    if version.value > MaxVersion {
      assert LoadSpec(data, fuel) == Fail(Fatal);
      return Fail(Fatal);
    }
    var out := new Replay();
    var read := ReadContents(fs, out, fuel);
    if read.Fail? {
      return Fail(read.status);
    }
    r := Ok(out);
  }

  /** Once the map name is read, the sets and the snapshot records decide
      the contents. */
  lemma ContentsAfterName(data: Bytes, fuel: nat, name: seq<bv16>)
    requires |data| >= 8 && WString(data[8..]) == Some(name)
    ensures Contents(data, fuel) == AfterName(data, fuel, name)
  {
  }

  /** The map name into mMap, the sets into mState, then the snapshot
      records. */
  method ReadContents(fs: ByteStream, out: Replay, fuel: nat) returns (r: Outcome<()>)
    requires fs.readIdx == 8 <= |fs.data|
    modifies fs, out
    ensures r.Fail? ==> Contents(fs.data, fuel) == Fail(r.status)
    ensures r.Ok? ==> Contents(fs.data, fuel) == Ok(out.Value())
  {
    ghost var data := fs.data;
    var ok := ReadNameAndSets(fs, out);
    if !ok {
      return Fail(Truncated);
    }
    ghost var name := WString(data[8..]).value;
    ContentsAfterName(data, fuel, name);
    var snapshots := ReadSnapshots(fs, fuel);
    if snapshots.Fail? {
      return Fail(snapshots.status);
    }
    r := Ok(());
  }

  /** The map name into mMap and the sets into mState; ok says whether
      both could be read. */
  method ReadNameAndSets(fs: ByteStream, out: Replay) returns (ok: bool)
    requires fs.readIdx == 8 <= |fs.data|
    modifies fs, out
    ensures var name := WString(fs.data[8..]);
            (ok <==> name.Some? && StateSets(fs.data, 8 + 2 * |name.value| + 2, 1, map[]).Some?) &&
            (ok ==> var st := StateSets(fs.data, 8 + 2 * |name.value| + 2, 1, map[]).value;
                    out.Value() == ReplayValue(name.value, st.sets) && fs.readIdx == st.next)
  {
    ghost var data := fs.data;
    assert fs.Rest() == data[8..];
    var name := fs.ReadWCString();
    if name.None? {
      return false;
    }
    ghost var sets := StateSets(data, fs.readIdx, 1, map[]);
    assert sets == StateSets(data, 8 + 2 * |name.value| + 2, 1, map[]);
    out.mapName := name.value;
    var state := ReadStateSets(fs);
    if state.None? {
      return false;
    }
    out.state := state.value;
    ok := true;
  }
}
