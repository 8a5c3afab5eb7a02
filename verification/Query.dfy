/**
 URL queries: percent-encoding, parsing and the canonical encoding with sorted
 keys. Strings are byte strings; characters beyond a byte never occur and are
 left alone.
 */
module Query {
  import opened Options
  import opened Strings

  type Values = map<string, seq<string>>

  datatype Pair = Pair(key: string, value: string)

  // --- Percent-encoding ---

  predicate Unreserved(c: char) {
    'a' <= c <= 'z' || 'A' <= c <= 'Z' || '0' <= c <= '9' || c == '-' || c == '_' || c == '.' || c == '~'
  }

  function HexDigit(n: nat): char
    requires n < 16
  {
    if n < 10 then ('0' as int + n) as char else ('A' as int + (n - 10)) as char
  }

  function HexValue(c: char): Option<nat> {
    if '0' <= c <= '9' then Some(c as int - '0' as int)
    else if 'A' <= c <= 'F' then Some(c as int - 'A' as int + 10)
    else if 'a' <= c <= 'f' then Some(c as int - 'a' as int + 10)
    else None
  }

  lemma HexValueOfDigit(n: nat)
    requires n < 16
    ensures HexValue(HexDigit(n)) == Some(n)
  {
  }

  function EscapeChar(c: char): string {
    if Unreserved(c) || c as int >= 256 then [c]
    else if c == ' ' then "+"
    else ['%', HexDigit(c as int / 16), HexDigit(c as int % 16)]
  }

  function QueryEscape(s: string): string {
    if s == "" then "" else EscapeChar(s[0]) + QueryEscape(s[1..])
  }

  function QueryUnescape(s: string): Option<string>
    decreases |s|
  {
    if s == "" then Some("")
    else if s[0] == '%' then
      if |s| < 3 || HexValue(s[1]).None? || HexValue(s[2]).None? then None
      else
        var rest := QueryUnescape(s[3..]);
        if rest.None? then None
        else Some([(16 * HexValue(s[1]).value + HexValue(s[2]).value) as char] + rest.value)
    else
      var rest := QueryUnescape(s[1..]);
      if rest.None? then None else Some([if s[0] == '+' then ' ' else s[0]] + rest.value)
  }

  lemma UnescapeStep(c: char, rest: string)
    ensures QueryUnescape(EscapeChar(c) + rest)
         == if QueryUnescape(rest).None? then None else Some([c] + QueryUnescape(rest).value)
  {
    var s := EscapeChar(c) + rest;
    if |EscapeChar(c)| == 3 {
      HexValueOfDigit(c as int / 16);
      HexValueOfDigit(c as int % 16);
      assert s[3..] == rest;
    } else {
      assert s[1..] == rest;
    }
  }

  lemma {:induction false} UnescapeOfEscape(s: string)
    ensures QueryUnescape(QueryEscape(s)) == Some(s)
  {
    if s != "" {
      UnescapeOfEscape(s[1..]);
      UnescapeStep(s[0], QueryEscape(s[1..]));
      assert s == [s[0]] + s[1..];
    }
  }

  /** A space becomes a plus sign; any other reserved byte two capital hexadecimal digits after a percent sign. */
  lemma EscapeReserved(c: char)
    requires !Unreserved(c) && c as int < 256
    ensures c == ' ' ==> QueryEscape([c]) == "+"
    ensures c != ' ' ==>
              QueryEscape([c]) == ['%', "0123456789ABCDEF"[c as int / 16], "0123456789ABCDEF"[c as int % 16]]
  {
    assert QueryEscape([c]) == EscapeChar(c) + QueryEscape([c][1..]) == EscapeChar(c);
    HexDigits(c as int / 16);
    HexDigits(c as int % 16);
  }

  lemma HexDigits(n: nat)
    requires n < 16
    ensures HexDigit(n) == "0123456789ABCDEF"[n]
  {
  }

  /** Characters with a meaning in queries never survive escaping. */
  predicate Structural(c: char) {
    c == '&' || c == ';' || c == '='
  }

  lemma {:induction false} EscapedIsPlain(s: string)
    ensures forall c :: c in QueryEscape(s) ==> !Structural(c)
  {
    if s != "" {
      EscapedIsPlain(s[1..]);
      assert forall c :: c in EscapeChar(s[0]) ==> !Structural(c);
    }
  }

  // --- Parsing ---

  function IndexSeparator(q: string): (i: int)
    ensures -1 <= i < |q|
    ensures i == -1 ==> '&' !in q && ';' !in q
    ensures i != -1 ==> (q[i] == '&' || q[i] == ';') && '&' !in q[..i] && ';' !in q[..i]
  {
    if q == "" then -1
    else if q[0] == '&' || q[0] == ';' then 0
    else
      var i := IndexSeparator(q[1..]);
      if i == -1 then -1 else i + 1
  }

  /** A malformed or empty segment is skipped. */
  function ParseSegment(seg: string): seq<Pair> {
    if seg == "" then []
    else
      var i := IndexByte(seg, '=');
      var key := QueryUnescape(if i == -1 then seg else seg[..i]);
      var value := QueryUnescape(if i == -1 then "" else seg[i + 1..]);
      if key.None? || value.None? then [] else [Pair(key.value, value.value)]
  }

  function ParsePairs(q: string): seq<Pair>
    decreases |q|
  {
    if q == "" then []
    else
      var i := IndexSeparator(q);
      if i == -1 then ParseSegment(q) else ParseSegment(q[..i]) + ParsePairs(q[i + 1..])
  }

  function ValuesAt(m: Values, key: string): seq<string> {
    if key in m then m[key] else []
  }

  function Collect(ps: seq<Pair>): Values {
    if ps == [] then map[]
    else
      var m, p := Collect(ps[..|ps| - 1]), ps[|ps| - 1];
      m[p.key := ValuesAt(m, p.key) + [p.value]]
  }

  function ParseQuery(q: string): Values {
    Collect(ParsePairs(q))
  }

  // --- Encoding ---

  function EncodePair(p: Pair): string {
    QueryEscape(p.key) + "=" + QueryEscape(p.value)
  }

  function EncodePairs(ps: seq<Pair>): string {
    if ps == [] then ""
    else if |ps| == 1 then EncodePair(ps[0])
    else EncodePair(ps[0]) + "&" + EncodePairs(ps[1..])
  }

  function PairsFor(key: string, values: seq<string>): seq<Pair> {
    seq(|values|, i requires 0 <= i < |values| => Pair(key, values[i]))
  }

  function PairsOf(m: Values, keys: seq<string>): seq<Pair> {
    if keys == [] then [] else PairsFor(keys[0], ValuesAt(m, keys[0])) + PairsOf(m, keys[1..])
  }

  /** The canonical query: keys in order, each with all its values. */
  ghost function EncodeQuery(m: Values): string {
    EncodePairs(PairsOf(m, SortedOf(m.Keys)))
  }

  method Encode(m: Values) returns (q: string)
    ensures q == EncodeQuery(m)
  {
    var keys := Sorted(m.Keys);
    SortedUnique(keys, SortedOf(m.Keys));
    q := EncodePairs(PairsOf(m, keys));
  }

  // --- Round trip ---

  lemma CutAtEquals(k: string, v: string)
    requires '=' !in k
    ensures var seg := k + "=" + v;
            IndexByte(seg, '=') == |k| && seg[..|k|] == k && seg[|k| + 1..] == v
  {
    var seg := k + "=" + v;
    assert seg[|k|] == '=' && seg[..|k|] == k && seg[|k| + 1..] == v;
    IndexUnique(seg, '=', |k|);
  }

  lemma PlainSegment(k: string, v: string)
    requires forall c :: c in k || c in v ==> !Structural(c)
    ensures '&' !in k + "=" + v && ';' !in k + "=" + v
  {
  }

  lemma ParseEncodedPair(p: Pair)
    ensures ParseSegment(EncodePair(p)) == [p]
    ensures '&' !in EncodePair(p) && ';' !in EncodePair(p) && EncodePair(p) != ""
  {
    var k, v := QueryEscape(p.key), QueryEscape(p.value);
    EscapedIsPlain(p.key);
    EscapedIsPlain(p.value);
    CutAtEquals(k, v);
    PlainSegment(k, v);
    UnescapeOfEscape(p.key);
    UnescapeOfEscape(p.value);
  }

  lemma SeparatorUnique(q: string, i: nat)
    requires i < |q| && (q[i] == '&' || q[i] == ';') && '&' !in q[..i] && ';' !in q[..i]
    ensures IndexSeparator(q) == i
  {
    var first := IndexSeparator(q);
    assert forall k :: 0 <= k < i ==> q[k] == q[..i][k];
    assert forall k :: 0 <= k < first ==> q[k] == q[..first][k];
  }

  /** A segment without separators in front of the rest; an ampersand and a semicolon both separate. */
  lemma ParseFirstSegment(seg: string, separator: char, rest: string)
    requires '&' !in seg && ';' !in seg && (separator == '&' || separator == ';')
    ensures ParsePairs(seg + [separator] + rest) == ParseSegment(seg) + ParsePairs(rest)
  {
    var q := seg + [separator] + rest;
    assert q[|seg|] == separator && q[..|seg|] == seg && q[|seg| + 1..] == rest;
    SeparatorUnique(q, |seg|);
  }

  /** A key without an equals sign has the empty value. */
  lemma ParseBareKey(key: string)
    requires key != ""
    ensures ParseSegment(QueryEscape(key)) == [Pair(key, "")]
  {
    EscapedIsPlain(key);
    UnescapeOfEscape(key);
    assert QueryEscape(key) == EscapeChar(key[0]) + QueryEscape(key[1..]);
  }

  lemma {:induction false} ParseEncodedPairs(ps: seq<Pair>)
    ensures ParsePairs(EncodePairs(ps)) == ps
  {
    if ps != [] {
      ParseEncodedPair(ps[0]);
      if |ps| == 1 {
        assert ps == [ps[0]];
      } else {
        ParseEncodedPairs(ps[1..]);
        ParseFirstSegment(EncodePair(ps[0]), '&', EncodePairs(ps[1..]));
        assert ps == [ps[0]] + ps[1..];
      }
    }
  }

  /** The values of one key, in order. */
  function ValuesIn(ps: seq<Pair>, key: string): seq<string> {
    if ps == [] then []
    else ValuesIn(ps[..|ps| - 1], key) + if ps[|ps| - 1].key == key then [ps[|ps| - 1].value] else []
  }

  lemma {:induction false} CollectLookup(ps: seq<Pair>, key: string)
    ensures Lookup(Collect(ps), key) == if ValuesIn(ps, key) == [] then None else Some(ValuesIn(ps, key))
  {
    if ps != [] {
      var init, p := ps[..|ps| - 1], ps[|ps| - 1];
      CollectLookup(init, key);
      assert ValuesAt(Collect(init), key) == ValuesIn(init, key);
      assert ValuesIn(ps, key) == ValuesIn(init, key) + if p.key == key then [p.value] else [];
      assert ValuesIn(init, key) + [] == ValuesIn(init, key);
    }
  }

  lemma {:induction false} ValuesInConcat(a: seq<Pair>, b: seq<Pair>, key: string)
    ensures ValuesIn(a + b, key) == ValuesIn(a, key) + ValuesIn(b, key)
  {
    if b == [] {
      assert a + b == a;
    } else {
      ValuesInConcat(a, b[..|b| - 1], key);
      assert (a + b)[..|a + b| - 1] == a + b[..|b| - 1];
    }
  }

  lemma {:induction false} ValuesInPairsFor(key: string, values: seq<string>, k: string)
    ensures ValuesIn(PairsFor(key, values), k) == if k == key then values else []
  {
    if values != [] {
      var init := values[..|values| - 1];
      ValuesInPairsFor(key, init, k);
      assert PairsFor(key, values)[..|values| - 1] == PairsFor(key, init);
      assert values == init + [values[|values| - 1]];
    }
  }

  lemma {:induction false} ValuesInPairsOf(m: Values, keys: seq<string>, k: string)
    requires StrictlySorted(keys)
    ensures ValuesIn(PairsOf(m, keys), k) == if k in keys then ValuesAt(m, k) else []
  {
    if keys != [] {
      var rest := keys[1..];
      ValuesInPairsOf(m, rest, k);
      ValuesInPairsFor(keys[0], ValuesAt(m, keys[0]), k);
      ValuesInConcat(PairsFor(keys[0], ValuesAt(m, keys[0])), PairsOf(m, rest), k);
      if k == keys[0] && k in rest {
        var i :| 0 <= i < |rest| && rest[i] == k;
        assert Less(keys[0], keys[i + 1]);
        LessTrichotomy(keys[0], keys[i + 1]);
      }
    }
  }

  predicate NoEmptyValues(m: Values) {
    forall k :: k in m ==> m[k] != []
  }

  /** Parsing the canonical query gives back every parameter and its values. */
  lemma ParseOfEncode(m: Values)
    requires NoEmptyValues(m)
    ensures ParseQuery(EncodeQuery(m)) == m
  {
    var keys := SortedOf(m.Keys);
    ParseEncodedPairs(PairsOf(m, keys));
    forall k
      ensures Lookup(ParseQuery(EncodeQuery(m)), k) == Lookup(m, k)
    {
      CollectLookup(PairsOf(m, keys), k);
      ValuesInPairsOf(m, keys, k);
    }
    SameLookups(ParseQuery(EncodeQuery(m)), m);
  }

  lemma {:induction false} CollectedValuesNotEmpty(ps: seq<Pair>)
    ensures NoEmptyValues(Collect(ps))
  {
    if ps != [] {
      CollectedValuesNotEmpty(ps[..|ps| - 1]);
    }
  }

  // --- Queries that differ at their end only ---

  predicate AllUnreserved(d: string) {
    forall c :: c in d ==> Unreserved(c)
  }

  lemma {:induction false} EscapeConcat(a: string, b: string)
    ensures QueryEscape(a + b) == QueryEscape(a) + QueryEscape(b)
  {
    if a == "" {
      assert a + b == b;
    } else {
      EscapeConcat(a[1..], b);
      assert (a + b)[0] == a[0] && (a + b)[1..] == a[1..] + b;
      Regroup(EscapeChar(a[0]), QueryEscape(a[1..]), QueryEscape(b));
    }
  }

  lemma Regroup(a: string, b: string, c: string)
    ensures a + (b + c) == (a + b) + c
  {
  }

  lemma {:induction false} EscapeUnreserved(d: string)
    requires AllUnreserved(d)
    ensures QueryEscape(d) == d
  {
    if d != "" {
      EscapeUnreserved(d[1..]);
      assert d == [d[0]] + d[1..];
    }
  }

  /** The last value with something appended. */
  function ExtendLast(ps: seq<Pair>, d: string): seq<Pair>
    requires ps != []
  {
    var n := |ps| - 1;
    ps[..n] + [Pair(ps[n].key, ps[n].value + d)]
  }

  lemma EncodeExtendedPair(p: Pair, d: string)
    requires AllUnreserved(d)
    ensures EncodePair(Pair(p.key, p.value + d)) == EncodePair(p) + d
  {
    EscapeConcat(p.value, d);
    EscapeUnreserved(d);
    Regroup(QueryEscape(p.key) + "=", QueryEscape(p.value), d);
  }

  lemma {:induction false} EncodeExtended(ps: seq<Pair>, d: string)
    requires ps != [] && AllUnreserved(d)
    ensures EncodePairs(ExtendLast(ps, d)) == EncodePairs(ps) + d
    decreases |ps|
  {
    var extended := ExtendLast(ps, d);
    if |ps| == 1 {
      EncodeExtendedPair(ps[0], d);
    } else {
      EncodeExtended(ps[1..], d);
      assert extended[0] == ps[0] && extended[1..] == ExtendLast(ps[1..], d);
      Regroup(EncodePair(ps[0]) + "&", EncodePairs(ps[1..]), d);
    }
  }

  /** So a canonical query that is another one with such an end has the same pairs up to the last value. */
  lemma ExtendedPairs(ps: seq<Pair>, ps': seq<Pair>, d: string)
    requires ps != [] && AllUnreserved(d) && EncodePairs(ps') == EncodePairs(ps) + d
    ensures ps' == ExtendLast(ps, d)
  {
    EncodeExtended(ps, d);
    ParseEncodedPairs(ps');
    ParseEncodedPairs(ExtendLast(ps, d));
  }

  lemma ExtendedValues(ps: seq<Pair>, d: string, key: string)
    requires ps != []
    ensures var n := |ps| - 1;
            && ValuesIn(ps, key) == ValuesIn(ps[..n], key) + (if ps[n].key == key then [ps[n].value] else [])
            && ValuesIn(ExtendLast(ps, d), key) ==
                 ValuesIn(ps[..n], key) + (if ps[n].key == key then [ps[n].value + d] else [])
  {
    var n := |ps| - 1;
    assert ExtendLast(ps, d)[..n] == ps[..n];
  }
}
