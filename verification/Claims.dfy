/** Flattening nested identity claims to one level of dotted keys. */
module Claims {
  import opened Options
  import opened Strings

  /** A map's entries are listed in the order in which it happens to be iterated. */
  datatype Claim = Scalar(value: string) | List(items: seq<Claim>) | Map(entries: seq<Entry>)

  datatype Entry = Entry(key: string, value: Claim)

  type Flattened = map<string, seq<Claim>>

  /** Lists are kept and scalars wrapped. */
  function Wrap(c: Claim): seq<Claim> {
    if c.List? then c.items else [c]
  }

  /** `s` is the key, a dot and something more. */
  predicate Under(key: string, s: string) {
    |s| > |key| && s[..|key|] == key && s[|key|] == '.'
  }

  // --- What the code computes, key by key: later entries overwrite earlier ones ---

  function FlatAt(entries: seq<Entry>, s: string): Option<seq<Claim>>
    decreases entries, 0
  {
    if entries == [] then None
    else
      var last := EntryAt(entries[|entries| - 1], s);
      if last.Some? then last else FlatAt(entries[..|entries| - 1], s)
  }

  function EntryAt(e: Entry, s: string): Option<seq<Claim>>
    decreases e, 0
  {
    if e.value.Map? then
      if Under(e.key, s) then FlatAt(e.value.entries, s[|e.key| + 1..]) else None
    else if s == e.key then Some(Wrap(e.value))
    else None
  }

  method Flatten(entries: seq<Entry>) returns (flattened: Flattened)
    ensures forall s :: Lookup(flattened, s) == FlatAt(entries, s)
    decreases entries
  {
    flattened := map[];
    for i := 0 to |entries|
      invariant forall s :: Lookup(flattened, s) == FlatAt(entries[..i], s)
    {
      ghost var before := flattened;
      var k, v := entries[i].key, entries[i].value;
      match v {
        case Map(subClaims) =>
          var sub := Flatten(subClaims);
          flattened := CopyPrefixed(flattened, k, sub);
        case List(items) =>
          flattened := flattened[k := items];
        case Scalar(_) =>
          flattened := flattened[k := [v]];
      }
      forall s
        ensures Lookup(flattened, s) == FlatAt(entries[..i + 1], s)
      {
        assert Lookup(before, s) == FlatAt(entries[..i], s);
        assert entries[..i + 1][..i] == entries[..i] && entries[..i + 1][i] == entries[i];
        assert Lookup(flattened, s) ==
               if EntryAt(entries[i], s).Some? then EntryAt(entries[i], s) else Lookup(before, s);
      }
    }
    assert entries[..|entries|] == entries;
  }

  function CopiedAt(into: Flattened, key: string, sub: Flattened, s: string): Option<seq<Claim>> {
    if Under(key, s) && s[|key| + 1..] in sub then Some(sub[s[|key| + 1..]]) else Lookup(into, s)
  }

  method CopyPrefixed(into: Flattened, key: string, sub: Flattened) returns (out: Flattened)
    ensures forall s :: Lookup(out, s) == CopiedAt(into, key, sub, s)
  {
    out := into;
    var todo := sub.Keys;
    while todo != {}
      invariant todo <= sub.Keys
      invariant forall s :: Lookup(out, s) == CopiedAt(into, key, sub - todo, s)
      decreases todo
    {
      var sk :| sk in todo;
      ghost var before, left := out, todo;
      out := out[key + "." + sk := sub[sk]];
      todo := todo - {sk};
      DottedKey(key, sk);
      forall s
        ensures Lookup(out, s) == CopiedAt(into, key, sub - todo, s)
      {
        assert Lookup(before, s) == CopiedAt(into, key, sub - left, s);
        assert s == key + "." + sk <==> Under(key, s) && s[|key| + 1..] == sk;
      }
    }
    assert sub - todo == sub;
  }

  lemma DottedKey(key: string, sk: string)
    ensures Under(key, key + "." + sk) && (key + "." + sk)[|key| + 1..] == sk
    ensures forall s :: Under(key, s) && s[|key| + 1..] == sk ==> s == key + "." + sk
  {
    forall s | Under(key, s) && s[|key| + 1..] == sk
      ensures s == key + "." + sk
    {
      assert s == s[..|key|] + [s[|key|]] + s[|key| + 1..];
    }
  }

  // --- Paths into the claims ---

  function Dotted(path: seq<string>): string
    requires path != []
  {
    if |path| == 1 then path[0] else path[0] + "." + Dotted(path[1..])
  }

  /** What comes before and after the first dot. */
  function FirstPart(s: string): string
    requires '.' in s
  {
    s[..IndexByte(s, '.')]
  }

  function RestPart(s: string): string
    requires '.' in s
  {
    s[IndexByte(s, '.') + 1..]
  }

  function SplitDots(s: string): (path: seq<string>)
    ensures path != []
    decreases |s|
  {
    if '.' in s then [FirstPart(s)] + SplitDots(RestPart(s)) else [s]
  }

  predicate DotFree(path: seq<string>) {
    forall i :: 0 <= i < |path| ==> '.' !in path[i]
  }

  lemma CutAtDot(s: string)
    requires '.' in s
    ensures s == FirstPart(s) + "." + RestPart(s) && '.' !in FirstPart(s)
  {
    var i := IndexByte(s, '.');
    assert s == s[..i] + [s[i]] + s[i + 1..];
  }

  lemma TailOfCons(first: string, rest: seq<string>)
    ensures ([first] + rest)[0] == first && ([first] + rest)[1..] == rest
  {
  }

  lemma DottedCons(first: string, rest: seq<string>)
    requires rest != []
    ensures Dotted([first] + rest) == first + "." + Dotted(rest)
  {
    TailOfCons(first, rest);
  }

  lemma {:induction false} DottedOfSplit(s: string)
    ensures DotFree(SplitDots(s)) && Dotted(SplitDots(s)) == s
    decreases |s|
  {
    if '.' in s {
      DottedOfSplit(RestPart(s));
      DottedCons(FirstPart(s), SplitDots(RestPart(s)));
      CutAtDot(s);
    }
  }

  lemma FirstDot(first: string, rest: string)
    requires '.' !in first
    ensures var s := first + "." + rest; '.' in s && FirstPart(s) == first && RestPart(s) == rest
  {
    var s := first + "." + rest;
    assert s[|first|] == '.' && s[..|first|] == first && s[|first| + 1..] == rest;
    IndexUnique(s, '.', |first|);
  }

  /** Distinct dot-free paths have distinct dotted keys. */
  lemma {:induction false} SplitOfDotted(path: seq<string>)
    requires path != [] && DotFree(path)
    ensures SplitDots(Dotted(path)) == path
  {
    var rest := path[1..];
    assert path == [path[0]] + rest;
    if rest != [] {
      SplitOfDotted(rest);
      DottedCons(path[0], rest);
      FirstDot(path[0], Dotted(rest));
    }
  }

  function ValueOf(entries: seq<Entry>, key: string): Option<Claim> {
    if entries == [] then None
    else if entries[|entries| - 1].key == key then Some(entries[|entries| - 1].value)
    else ValueOf(entries[..|entries| - 1], key)
  }

  /** The value at a path, if it is not itself a map. */
  function LeafAt(entries: seq<Entry>, path: seq<string>): Option<Claim>
    requires path != []
    decreases path
  {
    var v := ValueOf(entries, path[0]);
    if v.None? then None
    else if |path| == 1 then if v.value.Map? then None else v
    else if v.value.Map? then LeafAt(v.value.entries, path[1..]) else None
  }

  /** Map keys are distinct and free of dots, at every depth. */
  predicate WellKeyed(entries: seq<Entry>) {
    && (forall i, j :: 0 <= i < j < |entries| ==> entries[i].key != entries[j].key)
    && (forall i :: 0 <= i < |entries| ==> '.' !in entries[i].key)
    && (forall i :: 0 <= i < |entries| && entries[i].value.Map? ==> WellKeyed(entries[i].value.entries))
  }

  /** Map keys are distinct at every depth, as they are in a map. */
  predicate DistinctKeys(entries: seq<Entry>) {
    && (forall i, j :: 0 <= i < j < |entries| ==> entries[i].key != entries[j].key)
    && (forall i :: 0 <= i < |entries| && entries[i].value.Map? ==> DistinctKeys(entries[i].value.entries))
  }

  lemma {:induction false} WellKeyedIsDistinct(entries: seq<Entry>)
    requires WellKeyed(entries)
    ensures DistinctKeys(entries)
  {
    forall i | 0 <= i < |entries| && entries[i].value.Map?
      ensures DistinctKeys(entries[i].value.entries)
    {
      WellKeyedIsDistinct(entries[i].value.entries);
    }
  }

  function WrapOption(c: Option<Claim>): Option<seq<Claim>> {
    if c.Some? then Some(Wrap(c.value)) else None
  }

  lemma {:induction false} ValueOfMember(entries: seq<Entry>, key: string)
    ensures ValueOf(entries, key).Some? ==> Entry(key, ValueOf(entries, key).value) in entries
    ensures ValueOf(entries, key).None? ==> forall i :: 0 <= i < |entries| ==> entries[i].key != key
  {
    if entries != [] {
      ValueOfMember(entries[..|entries| - 1], key);
      assert entries[|entries| - 1] in entries;
    }
  }

  /** A dot-free key is above a string exactly when it is its first component and there are more. */
  lemma UnderIsFirst(key: string, s: string)
    requires '.' !in key
    ensures Under(key, s) <==> '.' in s && FirstPart(s) == key
    ensures Under(key, s) ==> RestPart(s) == s[|key| + 1..]
  {
    if Under(key, s) {
      IndexUnique(s, '.', |key|);
    }
  }

  /** With a dot-free key, an entry answers only for strings whose first component is the key. */
  lemma EntryAtFirst(e: Entry, s: string)
    requires '.' !in e.key
    ensures var path := SplitDots(s);
            EntryAt(e, s) ==
              if path[0] != e.key then None
              else if e.value.Map? then
                if |path| == 1 then None else FlatAt(e.value.entries, Dotted(path[1..]))
              else if |path| == 1 then Some(Wrap(e.value)) else None
  {
    UnderIsFirst(e.key, s);
    if '.' in s {
      TailOfCons(FirstPart(s), SplitDots(RestPart(s)));
      DottedOfSplit(RestPart(s));
    }
  }

  lemma {:induction false} FlatAtFirst(entries: seq<Entry>, s: string)
    requires WellKeyed(entries)
    ensures var path := SplitDots(s);
            var v := ValueOf(entries, path[0]);
            FlatAt(entries, s) ==
              if v.None? then None
              else if v.value.Map? then
                if |path| == 1 then None else FlatAt(v.value.entries, Dotted(path[1..]))
              else if |path| == 1 then Some(Wrap(v.value)) else None
  {
    if entries != [] {
      var init, last := entries[..|entries| - 1], entries[|entries| - 1];
      FlatAtFirst(init, s);
      EntryAtFirst(last, s);
      ValueOfMember(init, last.key);
    }
  }

  /**
   Main result: the flattened claims have exactly one entry per path to a value that
   is not a map, keyed by the dotted path, whatever the iteration order.
   */
  lemma {:induction false} FlatAtIsLeaf(entries: seq<Entry>, s: string)
    requires WellKeyed(entries)
    ensures FlatAt(entries, s) == WrapOption(LeafAt(entries, SplitDots(s)))
    decreases |s|
  {
    var path := SplitDots(s);
    var v := ValueOf(entries, path[0]);
    FlatAtFirst(entries, s);
    if v.Some? && v.value.Map? && |path| > 1 {
      ValueOfMember(entries, path[0]);
      TailOfCons(FirstPart(s), SplitDots(RestPart(s)));
      DottedOfSplit(RestPart(s));
      FlatAtIsLeaf(v.value.entries, RestPart(s));
    }
  }

  /** Under its dotted path a list is kept as it is, and a scalar becomes a list of one. */
  lemma LeafIsKept(entries: seq<Entry>, path: seq<string>, flattened: Flattened)
    requires WellKeyed(entries) && path != [] && DotFree(path)
    requires forall s :: Lookup(flattened, s) == FlatAt(entries, s)
    ensures match LeafAt(entries, path)
            case Some(List(items)) => Lookup(flattened, Dotted(path)) == Some(items)
            case Some(Scalar(v)) => Lookup(flattened, Dotted(path)) == Some([Scalar(v)])
            case _ => Dotted(path) !in flattened
  {
    SplitOfDotted(path);
    FlatAtIsLeaf(entries, Dotted(path));
    assert Lookup(flattened, Dotted(path)) == FlatAt(entries, Dotted(path));
    LeafIsNoMap(entries, path);
  }

  lemma {:induction false} LeafIsNoMap(entries: seq<Entry>, path: seq<string>)
    requires path != []
    ensures LeafAt(entries, path).Some? ==> !LeafAt(entries, path).value.Map?
    decreases path
  {
    var v := ValueOf(entries, path[0]);
    if |path| > 1 && v.Some? && v.value.Map? {
      LeafIsNoMap(v.value.entries, path[1..]);
    }
  }

  // --- Iteration order ---

  /** `p` and `q` rearrange `n` places and undo each other. */
  predicate Inverse(p: seq<nat>, q: seq<nat>, n: nat) {
    && |p| == |q| == n
    && (forall i :: 0 <= i < n ==> p[i] < n && q[p[i]] == i)
    && (forall i :: 0 <= i < n ==> q[i] < n && p[q[i]] == i)
  }

  /** The same claims, with the entries of every map, at every depth, iterated in any order. */
  ghost predicate Reordered(a: seq<Entry>, b: seq<Entry>) {
    |a| == |b| && exists p, q :: Inverse(p, q, |a|) && ReorderedBy(a, b, p)
  }

  ghost predicate ReorderedBy(a: seq<Entry>, b: seq<Entry>, p: seq<nat>)
    requires |a| == |b| == |p| && forall i :: 0 <= i < |p| ==> p[i] < |b|
  {
    forall i :: 0 <= i < |a| ==> a[i].key == b[p[i]].key && SameClaim(a[i].value, b[p[i]].value)
  }

  /** Lists are passed on as they are; only maps are iterated. */
  ghost predicate SameClaim(x: Claim, y: Claim) {
    if x.Map? && y.Map? then Reordered(x.entries, y.entries) else x == y
  }

  /** The entry of `a` that stands at place `j` of `b`. */
  lemma EntryBefore(a: seq<Entry>, b: seq<Entry>, p: seq<nat>, q: seq<nat>, j: nat)
    requires |a| == |b| && Inverse(p, q, |a|) && ReorderedBy(a, b, p) && j < |b|
    ensures q[j] < |a| && a[q[j]].key == b[j].key && SameClaim(a[q[j]].value, b[j].value)
  {
    assert p[q[j]] == j;
  }

  /** Places of equal keys are equal. */
  lemma DistinctAfter(a: seq<Entry>, b: seq<Entry>, p: seq<nat>, q: seq<nat>, i: nat, j: nat)
    requires |a| == |b| && Inverse(p, q, |a|) && ReorderedBy(a, b, p) && i < |b| && j < |b| && b[i].key == b[j].key
    requires forall x, y :: 0 <= x < y < |a| ==> a[x].key != a[y].key
    ensures i == j
  {
    EntryBefore(a, b, p, q, i);
    EntryBefore(a, b, p, q, j);
    assert p[q[i]] == i && p[q[j]] == j;
  }

  lemma {:induction false} ReorderedDistinct(a: seq<Entry>, b: seq<Entry>)
    requires DistinctKeys(a) && Reordered(a, b)
    ensures DistinctKeys(b)
    decreases a
  {
    var p, q :| Inverse(p, q, |a|) && ReorderedBy(a, b, p);
    forall j | 0 <= j < |b| && b[j].value.Map?
      ensures DistinctKeys(b[j].value.entries)
    {
      EntryBefore(a, b, p, q, j);
      ReorderedDistinct(a[q[j]].value.entries, b[j].value.entries);
    }
    forall i, j | 0 <= i < j < |b|
      ensures b[i].key != b[j].key
    {
      if b[i].key == b[j].key {
        DistinctAfter(a, b, p, q, i, j);
      }
    }
  }

  /** Distinct keys make the value of an entry the value of its key. */
  lemma ValueOfEntry(entries: seq<Entry>, i: nat)
    requires DistinctKeys(entries) && i < |entries|
    ensures ValueOf(entries, entries[i].key) == Some(entries[i].value)
  {
    ValueOfMember(entries, entries[i].key);
  }

  /** A value found under a key is found, up to order, under the same key afterwards. */
  lemma ValueAfter(a: seq<Entry>, b: seq<Entry>, p: seq<nat>, i: nat)
    requires |a| == |b| == |p| && (forall i :: 0 <= i < |p| ==> p[i] < |b|) && ReorderedBy(a, b, p)
    requires DistinctKeys(b) && i < |a|
    ensures var y := ValueOf(b, a[i].key); y.Some? && SameClaim(a[i].value, y.value)
  {
    ValueOfEntry(b, p[i]);
  }

  lemma KeyBefore(a: seq<Entry>, b: seq<Entry>, key: string)
    requires Reordered(a, b) && ValueOf(b, key).Some?
    ensures ValueOf(a, key).Some?
  {
    var p, q :| Inverse(p, q, |a|) && ReorderedBy(a, b, p);
    ValueOfMember(b, key);
    var j :| 0 <= j < |b| && b[j] == Entry(key, ValueOf(b, key).value);
    EntryBefore(a, b, p, q, j);
    ValueOfMember(a, key);
  }

  lemma ReorderedValue(a: seq<Entry>, b: seq<Entry>, key: string)
    requires DistinctKeys(a) && Reordered(a, b)
    ensures var x, y := ValueOf(a, key), ValueOf(b, key);
            (x.None? && y.None?) || (x.Some? && y.Some? && SameClaim(x.value, y.value))
  {
    if ValueOf(b, key).Some? {
      KeyBefore(a, b, key);
    }
    if ValueOf(a, key).Some? {
      ReorderedDistinct(a, b);
      ValueOfMember(a, key);
      var i :| 0 <= i < |a| && a[i] == Entry(key, ValueOf(a, key).value);
      var p, q :| Inverse(p, q, |a|) && ReorderedBy(a, b, p);
      ValueAfter(a, b, p, i);
    }
  }

  /** Order decides nothing about what is at a path. */
  lemma {:induction false} ReorderedLeaf(a: seq<Entry>, b: seq<Entry>, path: seq<string>)
    requires DistinctKeys(a) && Reordered(a, b) && path != []
    ensures LeafAt(a, path) == LeafAt(b, path)
    decreases path
  {
    ReorderedValue(a, b, path[0]);
    ValueOfMember(a, path[0]);
    var x, y := ValueOf(a, path[0]), ValueOf(b, path[0]);
    if |path| > 1 && x.Some? && x.value.Map? && y.value.Map? {
      ReorderedLeaf(x.value.entries, y.value.entries, path[1..]);
    }
  }

  // --- Leaves and entries, whatever the keys look like ---

  lemma DistinctInit(entries: seq<Entry>)
    requires DistinctKeys(entries) && entries != []
    ensures DistinctKeys(entries[..|entries| - 1])
  {
  }

  /** Every entry of the flattened claims comes from a leaf. */
  lemma {:induction false} FlatHasLeaf(entries: seq<Entry>, s: string) returns (path: seq<string>)
    requires DistinctKeys(entries) && FlatAt(entries, s).Some?
    ensures path != [] && Dotted(path) == s && LeafAt(entries, path).Some?
    ensures FlatAt(entries, s) == Some(Wrap(LeafAt(entries, path).value))
    decreases entries
  {
    var n := |entries| - 1;
    var e := entries[n];
    if EntryAt(e, s).None? {
      DistinctInit(entries);
      path := FlatHasLeaf(entries[..n], s);
      ValueOfMember(entries[..n], path[0]);
    } else if e.value.Map? {
      var rest := FlatHasLeaf(e.value.entries, s[|e.key| + 1..]);
      path := [e.key] + rest;
      DottedCons(e.key, rest);
      DottedKey(e.key, Dotted(rest));
      TailOfCons(e.key, rest);
    } else {
      path := [s];
    }
  }

  lemma {:induction false} EntryAnswers(entries: seq<Entry>, i: nat, s: string)
    requires i < |entries| && EntryAt(entries[i], s).Some?
    ensures FlatAt(entries, s).Some?
    decreases |entries|
  {
    if i < |entries| - 1 {
      EntryAnswers(entries[..|entries| - 1], i, s);
    }
  }

  /** Every leaf has an entry under its dotted path, though another leaf may have written it. */
  lemma {:induction false} LeafHasFlat(entries: seq<Entry>, path: seq<string>)
    requires path != [] && LeafAt(entries, path).Some?
    ensures FlatAt(entries, Dotted(path)).Some?
    decreases path
  {
    ValueOfMember(entries, path[0]);
    var v := ValueOf(entries, path[0]).value;
    var i :| 0 <= i < |entries| && entries[i] == Entry(path[0], v);
    if |path| > 1 {
      LeafHasFlat(v.entries, path[1..]);
      DottedKey(path[0], Dotted(path[1..]));
    }
    EntryAnswers(entries, i, Dotted(path));
  }

  lemma {:induction false} ReorderedSelf(a: seq<Entry>)
    ensures Reordered(a, a)
    decreases a
  {
    var p := seq(|a|, i requires 0 <= i < |a| => i);
    forall i | 0 <= i < |a|
      ensures SameClaim(a[i].value, a[i].value)
    {
      if a[i].value.Map? {
        ReorderedSelf(a[i].value.entries);
      }
    }
    assert Inverse(p, p, |a|) && ReorderedBy(a, a, p);
  }

  /** One entry moved to the end, its own map reordered too. */
  function MovedLast(entries: seq<Entry>, i: nat, e: Entry): seq<Entry>
    requires i < |entries|
  {
    entries[..i] + entries[i + 1..] + [e]
  }

  lemma SameSelf(x: Claim)
    ensures SameClaim(x, x)
  {
    if x.Map? {
      ReorderedSelf(x.entries);
    }
  }

  /** Where each place goes when place `i` moves to the end, and where each comes from. */
  function Going(n: nat, i: nat): (p: seq<nat>)
    requires i < n
    ensures |p| == n && forall j :: 0 <= j < n ==> p[j] == if j < i then j else if j == i then n - 1 else j - 1
  {
    seq(n, j requires 0 <= j < n => if j < i then j else if j == i then n - 1 else j - 1)
  }

  function Coming(n: nat, i: nat): (q: seq<nat>)
    requires i < n
    ensures |q| == n && forall j :: 0 <= j < n ==> q[j] == if j < i then j else if j == n - 1 then i else j + 1
  {
    seq(n, j requires 0 <= j < n => if j < i then j else if j == n - 1 then i else j + 1)
  }

  lemma MovedAt(entries: seq<Entry>, i: nat, e: Entry, j: nat)
    requires i < |entries| && j < |entries|
    ensures MovedLast(entries, i, e)[Going(|entries|, i)[j]] == if j == i then e else entries[j]
  {
  }

  lemma MovedReorders(entries: seq<Entry>, i: nat, e: Entry)
    requires i < |entries| && e.key == entries[i].key && SameClaim(entries[i].value, e.value)
    ensures Reordered(entries, MovedLast(entries, i, e))
  {
    var b, p := MovedLast(entries, i, e), Going(|entries|, i);
    forall j | 0 <= j < |entries|
      ensures entries[j].key == b[p[j]].key && SameClaim(entries[j].value, b[p[j]].value)
    {
      MovedAt(entries, i, e, j);
      SameSelf(entries[j].value);
    }
    assert Inverse(p, Coming(|entries|, i), |entries|);
  }

  /** Any leaf can be made to win: iterate it last at every depth. */
  lemma {:induction false} LeafCanWin(entries: seq<Entry>, path: seq<string>) returns (b: seq<Entry>)
    requires path != [] && LeafAt(entries, path).Some?
    ensures Reordered(entries, b)
    ensures FlatAt(b, Dotted(path)) == Some(Wrap(LeafAt(entries, path).value))
    decreases path
  {
    ValueOfMember(entries, path[0]);
    var v := ValueOf(entries, path[0]).value;
    var i :| 0 <= i < |entries| && entries[i] == Entry(path[0], v);
    var e := entries[i];
    if |path| > 1 {
      var sub := LeafCanWin(v.entries, path[1..]);
      e := Entry(path[0], Map(sub));
      DottedKey(path[0], Dotted(path[1..]));
    } else {
      SameSelf(v);
    }
    MovedReorders(entries, i, e);
    b := MovedLast(entries, i, e);
    assert b[|b| - 1] == e;
  }

  /** Leaves that share a dotted key have the same value. */
  ghost predicate Unambiguous(a: seq<Entry>) {
    forall p, q :: p != [] && q != [] && LeafAt(a, p).Some? && LeafAt(a, q).Some? && Dotted(p) == Dotted(q) ==>
      Wrap(LeafAt(a, p).value) == Wrap(LeafAt(a, q).value)
  }

  lemma UnambiguousOrder(a: seq<Entry>, b: seq<Entry>, s: string)
    requires DistinctKeys(a) && Reordered(a, b) && Unambiguous(a)
    ensures FlatAt(b, s) == FlatAt(a, s)
  {
    ReorderedDistinct(a, b);
    if FlatAt(b, s).Some? {
      var q := FlatHasLeaf(b, s);
      ReorderedLeaf(a, b, q);
      LeafHasFlat(a, q);
      var p := FlatHasLeaf(a, s);
    } else if FlatAt(a, s).Some? {
      var p := FlatHasLeaf(a, s);
      ReorderedLeaf(a, b, p);
      LeafHasFlat(b, p);
    }
  }

  /** Every iteration order gives the same entries. */
  ghost predicate OrderFree(a: seq<Entry>) {
    forall b, s :: Reordered(a, b) ==> FlatAt(b, s) == FlatAt(a, s)
  }

  lemma OrderFreeLeaves(a: seq<Entry>, p: seq<string>, q: seq<string>)
    requires OrderFree(a) && p != [] && q != []
    requires LeafAt(a, p).Some? && LeafAt(a, q).Some? && Dotted(p) == Dotted(q)
    ensures Wrap(LeafAt(a, p).value) == Wrap(LeafAt(a, q).value)
  {
    var s := Dotted(p);
    var bp := LeafCanWin(a, p);
    var bq := LeafCanWin(a, q);
    assert FlatAt(bp, s) == FlatAt(a, s) == FlatAt(bq, s);
  }

  /**
   Main result on order, exact for all claims: every iteration order gives the same
   entries if and only if leaves that share a dotted key have the same value.
   */
  lemma OrderMattersExactly(a: seq<Entry>)
    requires DistinctKeys(a)
    ensures OrderFree(a) <==> Unambiguous(a)
  {
    if Unambiguous(a) {
      forall b, s | Reordered(a, b)
        ensures FlatAt(b, s) == FlatAt(a, s)
      {
        UnambiguousOrder(a, b, s);
      }
    }
    if OrderFree(a) {
      forall p, q | p != [] && q != [] && LeafAt(a, p).Some? && LeafAt(a, q).Some? && Dotted(p) == Dotted(q)
        ensures Wrap(LeafAt(a, p).value) == Wrap(LeafAt(a, q).value)
      {
        OrderFreeLeaves(a, p, q);
      }
    }
  }

  lemma {:induction false} LeafPathDotFree(entries: seq<Entry>, path: seq<string>)
    requires WellKeyed(entries) && path != [] && LeafAt(entries, path).Some?
    ensures DotFree(path)
    decreases path
  {
    ValueOfMember(entries, path[0]);
    if |path| > 1 {
      LeafPathDotFree(ValueOf(entries, path[0]).value.entries, path[1..]);
      assert forall i :: 1 <= i < |path| ==> path[i] == path[1..][i - 1];
    }
  }

  /** Dot-free keys leave nothing ambiguous: no two paths share a dotted key. */
  lemma DotFreeIsUnambiguous(a: seq<Entry>)
    requires WellKeyed(a)
    ensures Unambiguous(a)
  {
    forall p, q | p != [] && q != [] && LeafAt(a, p).Some? && LeafAt(a, q).Some? && Dotted(p) == Dotted(q)
      ensures p == q
    {
      LeafPathDotFree(a, p);
      LeafPathDotFree(a, q);
      SplitOfDotted(p);
      SplitOfDotted(q);
    }
  }

  /** So dot-free claims flatten to the same map in every order. */
  lemma OrderDoesNotMatter(a: seq<Entry>, b: seq<Entry>, flatA: Flattened, flatB: Flattened)
    requires WellKeyed(a) && Reordered(a, b)
    requires forall s :: Lookup(flatA, s) == FlatAt(a, s)
    requires forall s :: Lookup(flatB, s) == FlatAt(b, s)
    ensures flatA == flatB
  {
    WellKeyedIsDistinct(a);
    DotFreeIsUnambiguous(a);
    forall s
      ensures Lookup(flatA, s) == Lookup(flatB, s)
    {
      UnambiguousOrder(a, b, s);
    }
    SameLookups(flatA, flatB);
  }

  lemma SwapReorders(x: Entry, y: Entry)
    ensures Reordered([x, y], [y, x])
  {
    if x.value.Map? {
      ReorderedSelf(x.value.entries);
    }
    if y.value.Map? {
      ReorderedSelf(y.value.entries);
    }
    assert Inverse([1, 0], [1, 0], 2) && ReorderedBy([x, y], [y, x], [1, 0]);
  }

  /** With a dot in a key two paths share an entry, and the iteration order decides. */
  lemma DotsCollide()
    ensures var x, y := Entry("a.b", Scalar("1")), Entry("a", Map([Entry("b", Scalar("2"))]));
            && Reordered([x, y], [y, x])
            && FlatAt([x, y], "a.b") == Some([Scalar("2")]) && FlatAt([y, x], "a.b") == Some([Scalar("1")])
  {
    SwapReorders(Entry("a.b", Scalar("1")), Entry("a", Map([Entry("b", Scalar("2"))])));
    var inner := [Entry("b", Scalar("2"))];
    assert "a.b"[..1] == "a" && "a.b"[2..] == "b";
    assert FlatAt(inner, "b") == Some([Scalar("2")]);
  }
}
