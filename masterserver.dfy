/*
 * s2::masterserver: the tokenizer and parser for the master server's
 * PHP-serialize()-style responses, and the validation login() applies to
 * the parsed reply. The HTTP request is a parameter (the response text).
 */
module MasterServer {
  import opened Common

  // ---------------------------------------------------------------------
  // Tokens

  /** ':' and ';' end the pending token and emit it. */
  predicate EndsToken(c: char)
  {
    c == ';' || c == ':'
  }

  /** '{' and '}' are tokens of their own. */
  predicate IsBrace(c: char)
  {
    c == '{' || c == '}'
  }

  predicate Splits(c: char)
  {
    EndsToken(c) || IsBrace(c)
  }

  predicate NoSplit(t: string)
  {
    forall k :: 0 <= k < |t| ==> !Splits(t[k])
  }

  /** What a splitting character c emits when t is pending. */
  function Emit(t: string, c: char): string
  {
    if IsBrace(c) then [c] else t
  }

  /** The index of the first splitting character, or |s| when none. */
  function FirstSplit(s: string): (p: nat)
    ensures p <= |s| && (p < |s| ==> Splits(s[p]))
    decreases |s|
  {
    if s == [] then 0 else if Splits(s[0]) then 0 else 1 + FirstSplit(s[1..])
  }

  /** The tokens of s: each splitting character emits what it ends (or
      itself, for a brace); text after the last one is dropped. */
  function Pieces(s: string): (r: seq<string>)
    ensures forall k :: 0 <= k < |r| ==> NoSplit(r[k]) || (|r[k]| == 1 && IsBrace(r[k][0]))
    decreases |s|
  {
    var p := FirstSplit(s);
    FirstSplitPlain(s);
    if p == |s| then [] else [Emit(s[..p], s[p])] + Pieces(s[p + 1..])
  }

  lemma {:induction false} FirstSplitAfter(t: string, s: string)
    requires NoSplit(t)
    ensures FirstSplit(t + s) == |t| + FirstSplit(s)
    decreases |t|
  {
    if t != [] {
      assert (t + s)[1..] == t[1..] + s;
      FirstSplitAfter(t[1..], s);
    } else {
      assert t + s == s;
    }
  }

  /** Plain text t followed by a splitting character emits one token, and
      the rest is tokenized afresh. */
  lemma PiecesStep(t: string, s: string)
    requires NoSplit(t) && |s| > 0 && Splits(s[0])
    ensures Pieces(t + s) == [Emit(t, s[0])] + Pieces(s[1..])
  {
    FirstSplitAfter(t, s);
    assert (t + s)[..|t|] == t;
    assert (t + s)[|t| + 1..] == s[1..];
  }

  /** Plain text emits nothing. */
  lemma PiecesPlain(t: string)
    requires NoSplit(t)
    ensures Pieces(t) == []
  {
    FirstSplitAfter(t, []);
    assert t + [] == t;
  }

  /** A splitting character at idx emits one token. */
  lemma TokenEnds(data: string, idx: nat, token: string)
    requires NoSplit(token) && idx < |data| && Splits(data[idx])
    ensures Pieces(token + data[idx..]) == [Emit(token, data[idx])] + Pieces(data[idx + 1..])
  {
    PiecesStep(token, data[idx..]);
    assert data[idx..][1..] == data[idx + 1..];
  }

  /** Any other character extends the pending token. */
  lemma TokenGrows(data: string, idx: nat, token: string)
    requires NoSplit(token) && idx < |data| && !Splits(data[idx])
    ensures NoSplit(token + [data[idx]])
    ensures token + data[idx..] == (token + [data[idx]]) + data[idx + 1..]
  {
    assert data[idx..] == [data[idx]] + data[idx + 1..];
  }

  /** The tokenizer loop from position i on, with token pending and acc
      already emitted. */
  function TokensFrom(data: string, i: nat, token: string, acc: seq<string>): seq<string>
    requires i <= |data|
    decreases |data| - i
  {
    if i == |data| then acc
    else if EndsToken(data[i]) then TokensFrom(data, i + 1, "", acc + [token])
    else if IsBrace(data[i]) then TokensFrom(data, i + 1, "", acc + [[data[i]]])
    else TokensFrom(data, i + 1, token + [data[i]], acc)
  }

  /** The loop emits exactly the pieces of what is left. */
  lemma {:induction false} TokensFromPieces(data: string, i: nat, token: string, acc: seq<string>)
    requires i <= |data| && NoSplit(token)
    ensures TokensFrom(data, i, token, acc) == acc + Pieces(token + data[i..])
    decreases |data| - i
  {
    if i == |data| {
      PiecesPlain(token);
      assert token + data[i..] == token;
      assert acc + [] == acc;
    } else if Splits(data[i]) {
      var e := Emit(token, data[i]);
      TokenEnds(data, i, token);
      assert "" + data[i + 1..] == data[i + 1..];
      TokensFromPieces(data, i + 1, "", acc + [e]);
      Associative(acc, [e], Pieces(data[i + 1..]));
    } else {
      TokenGrows(data, i, token);
      TokensFromPieces(data, i + 1, token + [data[i]], acc);
    }
  }

  /** The tokenizer loop: tokens.push_back at each splitting character,
      with the pending text or the brace itself. */
  method Tokenize(data: string) returns (tokens: seq<string>)
    ensures tokens == Pieces(data)
  {
    tokens := [];
    var token := "";
    var idx := 0;
    while idx < |data|
      invariant idx <= |data|
      invariant TokensFrom(data, idx, token, tokens) == TokensFrom(data, 0, "", [])
    {
      var c := data[idx];
      if c == ';' || c == ':' {
        tokens := tokens + [token];
        token := "";
      } else if c == '{' || c == '}' {
        tokens := tokens + [[c]];
        token := "";
      } else {
        token := token + [c];
      }
      idx := idx + 1;
    }
    TokensFromPieces(data, 0, "", []);
    assert "" + data[0..] == data;
    assert [] + Pieces(data) == Pieces(data);
  }

  /** The number of splitting characters in s. */
  function SplitCount(s: string): nat
    decreases |s|
  {
    if s == [] then 0 else (if Splits(s[0]) then 1 else 0) + SplitCount(s[1..])
  }

  lemma {:induction false} SplitCountAppend(t: string, s: string)
    ensures SplitCount(t + s) == SplitCount(t) + SplitCount(s)
    ensures NoSplit(t) ==> SplitCount(t) == 0
    decreases |t|
  {
    if t == [] {
      assert t + s == s;
    } else {
      assert (t + s)[1..] == t[1..] + s;
      SplitCountAppend(t[1..], s);
    }
  }

  /** Every splitting character emits exactly one token, empty or not. */
  lemma {:induction false} TokenCount(s: string)
    ensures |Pieces(s)| == SplitCount(s)
    decreases |s|
  {
    var p := FirstSplit(s);
    var t := s[..p];
    assert NoSplit(t) by {
      FirstSplitPlain(s);
    }
    assert s == t + s[p..];
    SplitCountAppend(t, s[p..]);
    if p == |s| {
      PiecesPlain(s);
    } else {
      PiecesStep(t, s[p..]);
      assert s[p..][1..] == s[p + 1..];
      TokenCount(s[p + 1..]);
    }
  }

  lemma {:induction false} FirstSplitPlain(s: string)
    ensures NoSplit(s[..FirstSplit(s)])
    decreases |s|
  {
    if s != [] && !Splits(s[0]) {
      FirstSplitPlain(s[1..]);
      assert s[..FirstSplit(s)] == [s[0]] + s[1..][..FirstSplit(s[1..])];
    }
  }

  /** Text after the last splitting character is never emitted. */
  lemma {:induction false} TrailingTextDropped(s: string, t: string)
    requires NoSplit(t)
    ensures Pieces(s + t) == Pieces(s)
    decreases |s|
  {
    var p := FirstSplit(s);
    FirstSplitPlain(s);
    if p == |s| {
      PiecesPlain(s);
      assert s[..p] == s;
      assert NoSplit(s + t);
      PiecesPlain(s + t);
    } else {
      var u := s[..p];
      assert s == u + s[p..];
      Associative(u, s[p..], t);
      PiecesStep(u, s[p..]);
      PiecesStep(u, s[p..] + t);
      assert (s[p..] + t)[1..] == s[p + 1..] + t;
      assert s[p..][1..] == s[p + 1..];
      TrailingTextDropped(s[p + 1..], t);
    }
  }

  /** Tokens joined with ';'. */
  function Join(ts: seq<string>): string
  {
    if ts == [] then "" else ts[0] + ";" + Join(ts[1..])
  }

  /** Tokens without splitting characters survive a join and a tokenize. */
  lemma {:induction false} JoinRoundTrip(ts: seq<string>)
    requires forall k :: 0 <= k < |ts| ==> NoSplit(ts[k])
    ensures Pieces(Join(ts)) == ts
    decreases |ts|
  {
    if ts == [] {
      PiecesPlain("");
    } else {
      var rest := ";" + Join(ts[1..]);
      assert Join(ts) == ts[0] + rest;
      PiecesStep(ts[0], rest);
      assert rest[1..] == Join(ts[1..]);
      JoinRoundTrip(ts[1..]);
    }
  }

  // ---------------------------------------------------------------------
  // std::stoi

  predicate IsSpace(c: char)
  {
    c == ' ' || c == '\t' || c == '\n' || c == '\r' || c as int == 11 || c as int == 12
  }

  predicate IsDigit(c: char)
  {
    '0' as int <= c as int <= '9' as int
  }

  function SkipSpace(s: string): string
    decreases |s|
  {
    if s != [] && IsSpace(s[0]) then SkipSpace(s[1..]) else s
  }

  /** The length of the run of digits at the front of s. */
  function DigitRun(s: string): (n: nat)
    ensures n <= |s|
    decreases |s|
  {
    if s != [] && IsDigit(s[0]) then 1 + DigitRun(s[1..]) else 0
  }

  function DigitValue(c: char): nat
  {
    if IsDigit(c) then c as int - '0' as int else 0
  }

  /** The decimal number the digits of s denote. */
  function DigitsValue(s: string): nat
    decreases |s|
  {
    if s == [] then 0 else DigitsValue(s[..|s| - 1]) * 10 + DigitValue(s[|s| - 1])
  }

  const IntMin: int := -0x8000_0000
  const IntMax: int := 0x7FFF_FFFF

  /** std::stoi: leading white space, an optional sign and at least one
      digit; trailing text is ignored. No digits, or a value outside int,
      throws (None). */
  function Stoi(s: string): (r: Option<int>)
    ensures r.Some? ==> IntMin <= r.value <= IntMax
    ensures SkipSpace(s) == [] ==> r.None?
    ensures r.Some? && r.value < 0 ==> SkipSpace(s)[0] == '-'
  {
    var t := SkipSpace(s);
    var signed := |t| > 0 && (t[0] == '-' || t[0] == '+');
    var u := if signed then t[1..] else t;
    var d := DigitRun(u);
    if d == 0 then None
    else
      var v: int := DigitsValue(u[..d]);
      var x: int := if signed && t[0] == '-' then -v else v;
      if IntMin <= x <= IntMax then Some(x) else None
  }

  function Digit(n: nat): char
    requires n < 10
  {
    ('0' as int + n) as char
  }

  /** n in decimal, as the server writes counts and lengths. */
  function Decimal(n: nat): (s: string)
    ensures |s| >= 1 && forall k :: 0 <= k < |s| ==> IsDigit(s[k])
  {
    if n < 10 then [Digit(n)] else Decimal(n / 10) + [Digit(n % 10)]
  }

  lemma {:induction false} DecimalValue(n: nat)
    ensures DigitsValue(Decimal(n)) == n
  {
    if n >= 10 {
      DecimalValue(n / 10);
      var s := Decimal(n);
      assert s[..|s| - 1] == Decimal(n / 10);
    }
  }

  lemma {:induction false} DigitRunAll(s: string)
    requires forall k :: 0 <= k < |s| ==> IsDigit(s[k])
    ensures DigitRun(s) == |s|
    decreases |s|
  {
    if s != [] {
      DigitRunAll(s[1..]);
    }
  }

  /** stoi reads back any int-sized count written in decimal. */
  lemma StoiDecimal(n: nat)
    requires n <= IntMax
    ensures Stoi(Decimal(n)) == Some(n)
  {
    var s := Decimal(n);
    assert SkipSpace(s) == s;
    DigitRunAll(s);
    assert s[..|s|] == s;
    DecimalValue(n);
  }

  // ---------------------------------------------------------------------
  // Nodes and the parser

  /** masterserver::node by its type; an array keeps its declared count. */
  datatype Node =
    | NoneNode
    | Integer(val: int)
    | Array(elems: seq<Node>, cnt: int)
    | Str(str: string)
    | StringMap(m: map<string, string>)

  /** node.s.str: empty for every node that is not a string. */
  function StrOf(n: Node): string
  {
    if n.Str? then n.str else ""
  }

  /** An assert that fails, an exception (std::stoi, a negative reserve),
      or an access the language leaves undefined (front() of an empty
      deque or string). */
  datatype Status = AssertFails | Throws | Undefined

  datatype Outcome<T> = Fail(status: Status) | Ok(value: T)

  /** An open array: the elements read so far and the declared count. */
  datatype Frame = Frame(elems: seq<Node>, cnt: int)

  /** The '}' loop: pairs popped from the back, m[key.s.str] = val.s.str. */
  function PairsFrom(arr: seq<Node>, m: map<string, string>): (r: map<string, string>)
    ensures m.Keys <= r.Keys
    ensures |arr| >= 2 && |arr| % 2 == 0 ==> StrOf(arr[0]) in r && r[StrOf(arr[0])] == StrOf(arr[1])
    decreases |arr|
  {
    if |arr| < 2 then m
    else PairsFrom(arr[..|arr| - 2], m[StrOf(arr[|arr| - 2]) := StrOf(arr[|arr| - 1])])
  }

  /** The value of the first pair whose key is k, reading from the front. */
  function Lookup(arr: seq<Node>, k: string): Option<string>
    decreases |arr|
  {
    if |arr| < 2 then None
    else if StrOf(arr[0]) == k then Some(StrOf(arr[1]))
    else Lookup(arr[2..], k)
  }

  /** Lookup over arr split before its last pair. */
  lemma {:induction false} LookupLast(arr: seq<Node>, k: string)
    requires |arr| >= 2 && |arr| % 2 == 0
    ensures var front := arr[..|arr| - 2];
            Lookup(arr, k) == if Lookup(front, k).Some? then Lookup(front, k)
                              else if StrOf(arr[|arr| - 2]) == k then Some(StrOf(arr[|arr| - 1])) else None
    decreases |arr|
  {
    if |arr| > 2 {
      assert arr[2..][..|arr| - 4] == arr[..|arr| - 2][2..];
      LookupLast(arr[2..], k);
    }
  }

  /** Popping pairs from the back makes the first pair of a key win. */
  lemma {:induction false} PairsFromLookup(arr: seq<Node>, m: map<string, string>, k: string)
    requires |arr| % 2 == 0
    ensures k in PairsFrom(arr, m) <==> Lookup(arr, k).Some? || k in m
    ensures k in PairsFrom(arr, m) ==>
              PairsFrom(arr, m)[k] == if Lookup(arr, k).Some? then Lookup(arr, k).value else m[k]
    decreases |arr|
  {
    if |arr| >= 2 {
      var front := arr[..|arr| - 2];
      LookupLast(arr, k);
      PairsFromLookup(front, m[StrOf(arr[|arr| - 2]) := StrOf(arr[|arr| - 1])], k);
    }
  }

  /** The string map an array of 2 * cnt elements turns into. */
  function PairsMap(arr: seq<Node>): map<string, string>
  {
    PairsFrom(arr, map[])
  }

  /** A key is in the converted map exactly when some pair names it, and
      its value is that of the first such pair. */
  lemma FirstPairWins(arr: seq<Node>, k: string)
    requires |arr| % 2 == 0
    ensures k in PairsMap(arr) <==> Lookup(arr, k).Some?
    ensures k in PairsMap(arr) ==> PairsMap(arr)[k] == Lookup(arr, k).value
  {
    PairsFromLookup(arr, map[], k);
  }

  /** FirstPairWins for every key at once. */
  lemma FirstPairsWin(arr: seq<Node>)
    requires |arr| % 2 == 0
    ensures forall k :: k in PairsMap(arr) <==> Lookup(arr, k).Some?
    ensures forall k :: k in PairsMap(arr) ==> PairsMap(arr)[k] == Lookup(arr, k).value
  {
    forall k ensures k in PairsMap(arr) <==> Lookup(arr, k).Some? {
      FirstPairWins(arr, k);
    }
    forall k | k in PairsMap(arr) ensures PairsMap(arr)[k] == Lookup(arr, k).value {
      FirstPairWins(arr, k);
    }
  }

  /** while (!arr.empty()) { val = back; pop; key = back; pop;
      m[key.s.str] = val.s.str; } */
  method ConvertPairs(arr: seq<Node>) returns (m: map<string, string>)
    requires |arr| % 2 == 0
    ensures m == PairsMap(arr)
  {
    var a := arr;
    m := map[];
    while a != []
      invariant |a| % 2 == 0 && PairsFrom(a, m) == PairsMap(arr)
      decreases |a|
    {
      ghost var before := a;
      var val := a[|a| - 1];
      a := a[..|a| - 1];
      var key := a[|a| - 1];
      a := a[..|a| - 1];
      assert key == before[|before| - 2] && a == before[..|before| - 2];
      m := m[StrOf(key) := StrOf(val)];
    }
  }

  /** What '}' makes of the current array: a string map when it has pairs
      and its first two elements are strings, otherwise the array itself. */
  function Close(f: Frame): (r: Node)
    ensures r.Array? ==> r == Array(f.elems, f.cnt)
    ensures r.StringMap? && |f.elems| % 2 == 0 ==>
              forall k :: k in r.m <==> Lookup(f.elems, k).Some?
    ensures r.StringMap? && |f.elems| % 2 == 0 ==>
              forall k :: k in r.m ==> r.m[k] == Lookup(f.elems, k).value
  {
    if f.cnt > 0 && |f.elems| >= 2 && f.elems[0].Str? && f.elems[1].Str? then
      if |f.elems| % 2 == 0 then FirstPairsWin(f.elems); StringMap(PairsMap(f.elems))
      else StringMap(PairsMap(f.elems))
    else Array(f.elems, f.cnt)
  }

  /** A finished node appended to the current array. */
  function Append(stack: seq<Frame>, n: Node): (r: seq<Frame>)
    requires |stack| >= 1
    ensures |r| == |stack| && r[0].cnt == stack[0].cnt
  {
    var top := stack[|stack| - 1];
    stack[..|stack| - 1] + [Frame(top.elems + [n], top.cnt)]
  }

  /** The tree as it stands when the tokens run out: every open array sits,
      as it is, at the end of its parent. */
  function Collapse(stack: seq<Frame>): (r: Node)
    requires |stack| >= 1
    ensures r.Array? && r.cnt == stack[0].cnt
    decreases |stack|
  {
    var top := stack[|stack| - 1];
    if |stack| == 1 then Array(top.elems, top.cnt)
    else Collapse(Append(stack[..|stack| - 1], Array(top.elems, top.cnt)))
  }

  /** The string token of an 's' entry: quoted, with the quotes stripped
      (substr(1, length - 2), so a lone quote gives the empty string), and
      of the declared length. */
  function Unquote(tok: string, n: int): (r: Outcome<string>)
    ensures tok == [] <==> r == Fail(Undefined)
    ensures r.Ok? ==> |r.value| == n && (tok == Quote(r.value) || (tok == "\"" && r.value == ""))
  {
    if tok == [] then Fail(Undefined)
    else if tok[0] != '"' || tok[|tok| - 1] != '"' then Fail(AssertFails)
    else
      var inner := if |tok| == 1 then "" else tok[1..|tok| - 1];
      if |inner| != n then Fail(AssertFails) else Ok(inner)
  }

  /** The parser loop over the token deque: stack holds the open arrays
      from the root to the current one, typ the pending type token. */
  function Run(tokens: seq<string>, stack: seq<Frame>, typ: string): (r: Outcome<Node>)
    requires |stack| >= 1
    ensures r.Ok? ==> (r.value.Array? && r.value.cnt == stack[0].cnt) || r.value.StringMap?
    decreases |tokens|
  {
    if tokens == [] then Ok(Collapse(stack))
    else
      var tok, rest := tokens[0], tokens[1..];
      if typ == "" then
        if tok == "}" then
          var f := stack[|stack| - 1];
          if |f.elems| != 2 * f.cnt then Fail(AssertFails)
          else if |stack| == 1 then Ok(Close(f))
          else Run(rest, Append(stack[..|stack| - 1], Close(f)), "")
        else Run(rest, stack, tok)
      else if typ[0] == 'a' then
        match Stoi(tok)
        case None => Fail(Throws)
        case Some(n) =>
          if n < 0 then Fail(Throws)
          else if rest == [] then Fail(Undefined)
          else if rest[0] != "{" then Fail(AssertFails)
          else Run(rest[1..], stack + [Frame([], n)], "")
      else if typ[0] == 'i' then
        match Stoi(tok)
        case None => Fail(Throws)
        case Some(v) => Run(rest, Append(stack, Integer(v)), "")
      else if typ[0] == 's' then
        match Stoi(tok)
        case None => Fail(Throws)
        case Some(n) =>
          if rest == [] then Fail(Undefined)
          else match Unquote(rest[0], n)
            case Fail(s) => Fail(s)
            case Ok(str) => Run(rest[1..], Append(stack, Str(str)), "")
      else Run(rest, Append(stack, NoneNode), "")
  }

  /** parse_ms_response on data; rootCount stands for the root's count,
      which the source never initialises. */
  function ParseSpec(data: string, rootCount: int): (r: Outcome<Node>)
    ensures r.Ok? ==> (r.value.Array? && r.value.cnt == rootCount) || r.value.StringMap?
  {
    Run(Pieces(data), [Frame([], rootCount)], "")
  }

  /** parse_ms_response: tokenize, then the parser loop. */
  method ParseResponse(data: string, rootCount: int) returns (r: Outcome<Node>)
    ensures r == ParseSpec(data, rootCount)
  {
    var tokens := Tokenize(data);
    var stack := [Frame([], rootCount)];
    var typ := "";
    while tokens != []
      invariant |stack| >= 1
      invariant Run(tokens, stack, typ) == ParseSpec(data, rootCount)
      decreases |tokens|
    {
      var token := tokens[0];
      tokens := tokens[1..];
      if typ == "" {
        typ := token;
        if typ == "}" {
          var current := stack[|stack| - 1];
          if |current.elems| != 2 * current.cnt {
            return Fail(AssertFails);
          }
          var closed := Array(current.elems, current.cnt);
          if current.cnt > 0 && current.elems[0].Str? && current.elems[1].Str? {
            var m := ConvertPairs(current.elems);
            closed := StringMap(m);
          }
          if |stack| == 1 {
            return Ok(closed);
          }
          stack := Append(stack[..|stack| - 1], closed);
          typ := "";
        }
      } else {
        var value := token;
        if typ[0] == 'a' {
          var n := Stoi(value);
          if n.None? || n.value < 0 {
            return Fail(Throws);
          }
          if tokens == [] {
            return Fail(Undefined);
          }
          if tokens[0] != "{" {
            return Fail(AssertFails);
          }
          tokens := tokens[1..];
          stack := stack + [Frame([], n.value)];
        } else if typ[0] == 'i' {
          var v := Stoi(value);
          if v.None? {
            return Fail(Throws);
          }
          stack := Append(stack, Integer(v.value));
        } else if typ[0] == 's' {
          var slen := Stoi(value);
          if slen.None? {
            return Fail(Throws);
          }
          if tokens == [] {
            return Fail(Undefined);
          }
          var s := Unquote(tokens[0], slen.value);
          if s.Fail? {
            return Fail(s.status);
          }
          stack := Append(stack, Str(s.value));
          tokens := tokens[1..];
        } else {
          stack := Append(stack, NoneNode);
        }
        typ := "";
      }
    }
    r := Ok(Collapse(stack));
  }

  // ---------------------------------------------------------------------
  // What a serialized string map parses to

  /** The quoted form of a string token. */
  function Quote(s: string): string
  {
    "\"" + s + "\""
  }

  /** A key and its value. */
  datatype Pair = Pair(key: string, val: string)

  /** The tokens of s:<len>:"key";s:<len>:"val"; for each pair. */
  function PairTokens(ps: seq<Pair>): seq<string>
    requires forall j :: 0 <= j < |ps| ==> |ps[j].key| <= IntMax && |ps[j].val| <= IntMax
  {
    if ps == [] then [] else PairHead(ps[0]) + PairTokens(ps[1..])
  }

  /** s:<len>:"key";s:<len>:"val"; for one pair. */
  function PairHead(p: Pair): seq<string>
    requires |p.key| <= IntMax && |p.val| <= IntMax
  {
    StringTokens(p.key) + StringTokens(p.val)
  }

  /** s:<len>:"text"; */
  function StringTokens(str: string): seq<string>
    requires |str| <= IntMax
  {
    ["s", Decimal(|str|), Quote(str)]
  }

  /** The elements an array of those pairs holds. */
  function PairNodes(ps: seq<Pair>): (r: seq<Node>)
    ensures |r| == 2 * |ps|
  {
    if ps == [] then [] else [Str(ps[0].key), Str(ps[0].val)] + PairNodes(ps[1..])
  }

  predicate Short(ps: seq<Pair>)
  {
    forall j :: 0 <= j < |ps| ==> |ps[j].key| <= IntMax && |ps[j].val| <= IntMax
  }

  lemma UnquoteQuote(s: string)
    ensures Unquote(Quote(s), |s|) == Ok(s)
  {
    var q := Quote(s);
    assert q[0] == '"' && q[|q| - 1] == '"';
    assert q[1..|q| - 1] == s;
  }

  /** s:<len>:"text"; appends the string node to the current array. */
  lemma StringEntry(str: string, ts: seq<string>, stack: seq<Frame>)
    requires |stack| >= 1 && |str| <= IntMax
    ensures Run(StringTokens(str) + ts, stack, "") == Run(ts, Append(stack, Str(str)), "")
  {
    var u := StringTokens(str) + ts;
    StoiDecimal(|str|);
    UnquoteQuote(str);
    assert u[1..][1..][1..] == ts;
  }

  /** One pair's tokens append its key and its value. */
  lemma PairEntry(p: Pair, ts: seq<string>, stack: seq<Frame>)
    requires |stack| >= 1 && |p.key| <= IntMax && |p.val| <= IntMax
    ensures Run(PairHead(p) + ts, stack, "") == Run(ts, Append(Append(stack, Str(p.key)), Str(p.val)), "")
  {
    var v := StringTokens(p.val);
    Associative(StringTokens(p.key), v, ts);
    StringEntry(p.key, v + ts, stack);
    StringEntry(p.val, ts, Append(stack, Str(p.key)));
  }

  /** Reading the pairs' tokens appends their string nodes to the current
      array. */
  lemma {:induction false} PairsParse(ps: seq<Pair>, rest: seq<string>, stack: seq<Frame>)
    requires |stack| >= 1 && Short(ps)
    ensures var top := stack[|stack| - 1];
            Run(PairTokens(ps) + rest, stack, "") ==
            Run(rest, stack[..|stack| - 1] + [Frame(top.elems + PairNodes(ps), top.cnt)], "")
    decreases |ps|
  {
    var top := stack[|stack| - 1];
    if ps == [] {
      assert PairTokens(ps) + rest == rest;
      assert top.elems + PairNodes(ps) == top.elems;
      assert stack[..|stack| - 1] + [top] == stack;
    } else {
      var p := ps[0];
      Associative(PairHead(p), PairTokens(ps[1..]), rest);
      PairEntry(p, PairTokens(ps[1..]) + rest, stack);
      var s2 := Append(Append(stack, Str(p.key)), Str(p.val));
      PairsParse(ps[1..], rest, s2);
      assert s2[..|s2| - 1] == stack[..|stack| - 1];
      Associative(top.elems, [Str(p.key), Str(p.val)], PairNodes(ps[1..]));
      assert top.elems + [Str(p.key)] + [Str(p.val)] == top.elems + [Str(p.key), Str(p.val)];
    }
  }

  /** The tokens of a serialized array of string pairs. */
  function MapTokens(ps: seq<Pair>): seq<string>
    requires Short(ps) && |ps| <= IntMax
  {
    ["a", Decimal(|ps|), "{"] + PairTokens(ps) + ["}"]
  }

  /** An 'a' entry of count n opens an empty array of that count. */
  lemma OpenArray(n: nat, inner: seq<string>, stack: seq<Frame>)
    requires |stack| >= 1 && n <= IntMax
    ensures Run(["a", Decimal(n), "{"] + inner, stack, "") == Run(inner, stack + [Frame([], n)], "")
  {
    StoiDecimal(n);
    var toks := ["a", Decimal(n), "{"] + inner;
    assert toks[1..] == [Decimal(n), "{"] + inner;
    assert toks[1..][1..] == ["{"] + inner;
    assert (["{"] + inner)[1..] == inner;
  }

  /** A serialized array of string pairs parses, inside any open array, to
      a string map appended to that array. */
  lemma MapParse(ps: seq<Pair>, rest: seq<string>, stack: seq<Frame>)
    requires |stack| >= 1 && Short(ps) && |ps| <= IntMax
    ensures Run(MapTokens(ps) + rest, stack, "") == Run(rest, Append(stack, Close(Frame(PairNodes(ps), |ps|))), "")
  {
    var inner := PairTokens(ps) + (["}"] + rest);
    assert MapTokens(ps) + rest == ["a", Decimal(|ps|), "{"] + inner;
    var open := stack + [Frame([], |ps|)];
    OpenArray(|ps|, inner, stack);
    PairsParse(ps, ["}"] + rest, open);
    assert open[..|open| - 1] == stack;
    assert [] + PairNodes(ps) == PairNodes(ps);
  }

  /** A reply made of one serialized array of string pairs parses to a
      root holding the map of those pairs, the first pair of a key
      winning. */
  lemma ReplyParse(ps: seq<Pair>, rootCount: int, k: string)
    requires Short(ps) && 1 <= |ps| <= IntMax
    ensures Run(MapTokens(ps), [Frame([], rootCount)], "").Ok?
    ensures var root := Run(MapTokens(ps), [Frame([], rootCount)], "").value;
            root.Array? && |root.elems| == 1 && root.elems[0].StringMap? &&
            (k in root.elems[0].m <==> Lookup(PairNodes(ps), k).Some?) &&
            (k in root.elems[0].m ==> root.elems[0].m[k] == Lookup(PairNodes(ps), k).value)
  {
    MapParse(ps, [], [Frame([], rootCount)]);
    assert MapTokens(ps) + [] == MapTokens(ps);
    FirstPairWins(PairNodes(ps), k);
  }

  // ---------------------------------------------------------------------
  // login

  /** ms_login_info */
  datatype LoginInfo = LoginInfo(success: bool, nickname: string, cookie: string, accountid: int)

  /** m[key] on a std::map: the empty string when the key is missing. */
  function Get(m: map<string, string>, key: string): string
  {
    if key in m then m[key] else ""
  }

  /** The checks login() makes of the parsed reply: the first element must
      be a string map with a non-empty "cookie"; account_id goes through
      std::stoi, which throws when it is not a number. */
  function LoginSpec(root: Node): (r: Outcome<LoginInfo>)
    ensures r.Fail? ==> r.status == Throws
    ensures r.Ok? && r.value.success ==> r.value.cookie != ""
  {
    var elems := if root.Array? then root.elems else [];
    if |elems| < 1 || !elems[0].StringMap? then Ok(LoginInfo(false, "", "", 0))
    else
      var m := elems[0].m;
      if "cookie" !in m || |m["cookie"]| < 1 then Ok(LoginInfo(false, "", "", 0))
      else match Stoi(Get(m, "account_id"))
        case None => Fail(Throws)
        case Some(id) => Ok(LoginInfo(true, Get(m, "nickname"), m["cookie"], id))
  }

  /** A login succeeds exactly when the first element is a string map with
      a non-empty cookie and a numeric account id, and then reports that
      cookie and id. */
  lemma LoginSucceeds(root: Node)
    ensures LoginSpec(root).Ok? && LoginSpec(root).value.success <==>
              root.Array? && |root.elems| >= 1 && root.elems[0].StringMap? &&
              "cookie" in root.elems[0].m && root.elems[0].m["cookie"] != "" &&
              Stoi(Get(root.elems[0].m, "account_id")).Some?
    ensures LoginSpec(root).Ok? && LoginSpec(root).value.success ==>
              LoginSpec(root).value.cookie == root.elems[0].m["cookie"] &&
              Some(LoginSpec(root).value.accountid) == Stoi(Get(root.elems[0].m, "account_id"))
    ensures LoginSpec(root).Ok? && !LoginSpec(root).value.success ==> LoginSpec(root).value == LoginInfo(false, "", "", 0)
  {
  }

  /** masterserver::login on the server's response text. */
  method Login(response: string, rootCount: int) returns (r: Outcome<LoginInfo>)
    ensures var p := ParseSpec(response, rootCount);
            (p.Fail? ==> r == Fail(p.status)) && (p.Ok? ==> r == LoginSpec(p.value))
  {
    var logindata := ParseResponse(response, rootCount);
    if logindata.Fail? {
      return Fail(logindata.status);
    }
    var root := logindata.value;
    var elems := if root.Array? then root.elems else [];
    if |elems| < 1 || !elems[0].StringMap? {
      return Ok(LoginInfo(false, "", "", 0));
    }
    var m := elems[0].m;
    if "cookie" !in m || |m["cookie"]| < 1 {
      return Ok(LoginInfo(false, "", "", 0));
    }
    var id := Stoi(Get(m, "account_id"));
    if id.None? {
      return Fail(Throws);
    }
    r := Ok(LoginInfo(true, Get(m, "nickname"), m["cookie"], id.value));
  }
}
