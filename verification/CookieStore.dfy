/** Session cookies split over several cookies when they are too long for one. */
module CookieStore {
  import opened Options
  import opened Decimal

  const CANARY: char := '%'
  const MAX_CHUNK_SIZE: nat := 3800
  const MAX_NUM_CHUNKS: nat := 5

  /** The browser's cookies by name. */
  type Jar = map<string, string>

  /** A value to save; `overhead` is the rest of the serialized cookie. */
  datatype Save = Save(value: string, overhead: nat)

  // --- Chunks ---

  function Chunks(s: string, size: nat): seq<string>
    requires size > 0
  {
    if s == "" then []
    else if |s| < size then [s]
    else [s[..size]] + Chunks(s[size..], size)
  }

  function Join(parts: seq<string>): string {
    if parts == [] then "" else parts[0] + Join(parts[1..])
  }

  method Chunk(s: string, size: nat) returns (ss: seq<string>)
    requires size > 0
    ensures ss == Chunks(s, size)
  {
    ss := [];
    var rest, size' := s, size;
    while |rest| > 0
      invariant size' == size || rest == ""
      invariant ss + Chunks(rest, size) == Chunks(s, size)
      decreases |rest|
    {
      if |rest| < size' {
        size' := |rest|;
      }
      assert rest[|rest|..] == "" && rest[..|rest|] == rest;
      ss, rest := ss + [rest[..size']], rest[size'..];
    }
  }

  lemma JoinCons(first: string, rest: seq<string>)
    ensures Join([first] + rest) == first + Join(rest)
  {
    assert ([first] + rest)[1..] == rest;
  }

  /** Chunks lose nothing. */
  lemma {:induction false} ChunksJoin(s: string, size: nat)
    requires size > 0
    ensures Join(Chunks(s, size)) == s
  {
    if |s| >= size {
      ChunksJoin(s[size..], size);
      JoinCons(s[..size], Chunks(s[size..], size));
      assert s == s[..size] + s[size..];
    } else if s != "" {
      JoinCons(s, []);
      assert [s] + [] == [s];
    }
  }

  /** Chunks are not empty, and only the last may be short. */
  lemma {:induction false} ChunkSizes(s: string, size: nat)
    requires size > 0
    ensures forall c :: c in Chunks(s, size) ==> 0 < |c| <= size
    ensures forall i :: 0 <= i < |Chunks(s, size)| - 1 ==> |Chunks(s, size)[i]| == size
    ensures s != "" ==> Chunks(s, size) != []
  {
    if |s| >= size {
      ChunkSizes(s[size..], size);
      assert Chunks(s, size)[1..] == Chunks(s[size..], size);
    }
  }

  /** The number of chunks is the length over the size, rounded up. */
  lemma {:induction false} ChunkCount(s: string, size: nat)
    requires size > 0
    ensures (|Chunks(s, size)| - 1) * size < |s| <= |Chunks(s, size)| * size || s == ""
  {
    if |s| >= size {
      ChunkCount(s[size..], size);
      var k := |Chunks(s[size..], size)|;
      assert |Chunks(s, size)| == k + 1;
      OneMore(k, size);
      OneMore(k - 1, size);
    }
  }

  lemma OneMore(k: int, size: int)
    ensures (k + 1) * size == k * size + size
  {
  }

  lemma Associative(a: string, b: string, c: string)
    ensures a + (b + c) == (a + b) + c
  {
  }

  lemma {:induction false} JoinConcat(a: seq<string>, b: seq<string>)
    ensures Join(a + b) == Join(a) + Join(b)
  {
    if a == [] {
      assert a + b == b;
    } else {
      var rest := a[1..];
      JoinConcat(rest, b);
      JoinCons(a[0], rest + b);
      assert a + b == [a[0]] + (rest + b);
      Associative(a[0], Join(rest), Join(b));
    }
  }

  // --- Saving and loading ---

  function PartName(name: string, i: nat): string {
    name + "_" + Digits(i)
  }

  predicate Chunked(s: Save) {
    s.overhead + |s.value| > MAX_CHUNK_SIZE
  }

  function StoreParts(jar: Jar, name: string, parts: seq<string>): Jar {
    if parts == [] then jar
    else
      var i := |parts| - 1;
      var before := StoreParts(jar, name, parts[..i]);
      if i == 0 then before[name := [CANARY] + parts[0]] else before[PartName(name, i) := parts[i]]
  }

  function SetCookie(jar: Jar, name: string, s: Save): Jar {
    if Chunked(s) then StoreParts(jar, name, Chunks(s.value, MAX_CHUNK_SIZE)) else jar[name := s.value]
  }

  method SetCookies(jar: Jar, name: string, s: Save) returns (jar': Jar)
    ensures jar' == SetCookie(jar, name, s)
  {
    if s.overhead + |s.value| <= MAX_CHUNK_SIZE {
      return jar[name := s.value];
    }
    jar' := jar;
    var parts := Chunk(s.value, MAX_CHUNK_SIZE);
    for i := 0 to |parts|
      invariant jar' == StoreParts(jar, name, parts[..i])
    {
      assert parts[..i + 1][..i] == parts[..i];
      if i == 0 {
        jar' := jar'[name := [CANARY] + parts[i]];
      } else {
        jar' := jar'[PartName(name, i) := parts[i]];
      }
    }
    assert parts[..|parts|] == parts;
  }

  /** The values of consecutive part cookies from `i` on, up to the limit. */
  function LoadParts(jar: Jar, name: string, i: nat): string
    decreases MAX_NUM_CHUNKS + 1 - i
  {
    if i > MAX_NUM_CHUNKS || PartName(name, i) !in jar then ""
    else jar[PartName(name, i)] + LoadParts(jar, name, i + 1)
  }

  function Loaded(jar: Jar, name: string): Option<string> {
    if name !in jar then None
    else
      var v := jar[name];
      if v == "" || v[0] != CANARY then Some(v) else Some(v[1..] + LoadParts(jar, name, 1))
  }

  method LoadChunkedCookie(jar: Jar, name: string) returns (value: Option<string>)
    ensures value == Loaded(jar, name)
  {
    if name !in jar {
      return None;
    }
    var data := jar[name];
    if |data| == 0 {
      return Some("");
    }
    if data[0] != CANARY {
      return Some(data);
    }
    var b, i := data[1..], 1;
    while i <= MAX_NUM_CHUNKS
      invariant 1 <= i <= MAX_NUM_CHUNKS + 1
      invariant b + LoadParts(jar, name, i) == data[1..] + LoadParts(jar, name, 1)
      decreases MAX_NUM_CHUNKS + 1 - i
    {
      if PartName(name, i) !in jar {
        break;
      }
      b := b + jar[PartName(name, i)];
      i := i + 1;
    }
    assert LoadParts(jar, name, i) == "" && b + "" == b;
    value := Some(b);
  }

  // --- Cookie names ---

  lemma PartNamesDiffer(name: string, i: nat, j: nat)
    ensures PartName(name, i) != name
    ensures PartName(name, i) == PartName(name, j) ==> i == j
  {
    assert |PartName(name, i)| > |name|;
    ParseDigitsOfDigits(i);
    ParseDigitsOfDigits(j);
    assert PartName(name, i)[|name| + 1..] == Digits(i);
    assert PartName(name, j)[|name| + 1..] == Digits(j);
  }

  /** The first part cookies are named after their one-digit numbers. */
  lemma FirstPartNames(name: string)
    ensures PartName(name, 1) == name + "_1" && PartName(name, 5) == name + "_5"
  {
    assert Digits(1) == "1" && Digits(5) == "5";
    assert name + "_" + "1" == name + "_1" && name + "_" + "5" == name + "_5";
  }

  /** What storing parts leaves in the jar. */
  lemma {:induction false} StorePartsLookup(jar: Jar, name: string, parts: seq<string>, i: nat)
    requires i >= 1
    ensures Lookup(StoreParts(jar, name, parts), PartName(name, i))
         == if i < |parts| then Some(parts[i]) else Lookup(jar, PartName(name, i))
    ensures Lookup(StoreParts(jar, name, parts), name)
         == if parts != [] then Some([CANARY] + parts[0]) else Lookup(jar, name)
  {
    if parts != [] {
      var last := |parts| - 1;
      StorePartsLookup(jar, name, parts[..last], i);
      PartNamesDiffer(name, i, last);
      PartNamesDiffer(name, last, i);
    }
  }

  /** Whether a save writes to a cookie: the first one, or one of its parts. */
  predicate Writes(name: string, s: Save, cookie: string) {
    if Chunked(s) then WritesParts(name, |Chunks(s.value, MAX_CHUNK_SIZE)|, cookie) else cookie == name
  }

  predicate WritesParts(name: string, n: nat, cookie: string) {
    (n > 0 && cookie == name) || exists i :: 1 <= i < n && cookie == PartName(name, i)
  }

  lemma {:induction false} StorePartsFrame(jar: Jar, name: string, parts: seq<string>, cookie: string)
    requires !WritesParts(name, |parts|, cookie)
    ensures Lookup(StoreParts(jar, name, parts), cookie) == Lookup(jar, cookie)
  {
    if parts != [] {
      var last := |parts| - 1;
      assert last >= 1 ==> cookie != PartName(name, last);
      StorePartsFrame(jar, name, parts[..last], cookie);
    }
  }

  /** A save leaves every other cookie as it was. */
  lemma SaveFrame(jar: Jar, name: string, s: Save, cookie: string)
    requires !Writes(name, s, cookie)
    ensures Lookup(SetCookie(jar, name, s), cookie) == Lookup(jar, cookie)
  {
    if Chunked(s) {
      StorePartsFrame(jar, name, Chunks(s.value, MAX_CHUNK_SIZE), cookie);
    }
  }

  /**
   Every cookie a save writes fits: one that is written whole with everything that
   goes with it, the parts without, the first with its canary byte.
   */
  lemma WrittenCookiesFit(jar: Jar, name: string, s: Save, cookie: string)
    requires Writes(name, s, cookie)
    ensures var jar' := SetCookie(jar, name, s);
            && cookie in jar'
            && (s.overhead + |s.value| <= 3800 ==> cookie == name && jar'[cookie] == s.value)
            && (s.overhead + |s.value| > 3800 ==> 0 < |jar'[cookie]| <= if cookie == name then 3801 else 3800)
            && (s.overhead + |s.value| > 3800 && cookie == name ==> jar'[cookie][0] == '%')
  {
    if Chunked(s) {
      var parts := Chunks(s.value, MAX_CHUNK_SIZE);
      ChunkSizes(s.value, MAX_CHUNK_SIZE);
      if cookie == name {
        StorePartsLookup(jar, name, parts, 1);
        assert parts[0] in parts;
      } else {
        var i :| 1 <= i < |parts| && cookie == PartName(name, i);
        StorePartsLookup(jar, name, parts, i);
        assert parts[i] in parts;
      }
    }
  }

  // --- Every sequence of saves ---

  function PartCount(s: Save): nat {
    if Chunked(s) then |Chunks(s.value, MAX_CHUNK_SIZE)| else 0
  }

  function JarAfter(name: string, saves: seq<Save>): Jar {
    if saves == [] then map[] else SetCookie(JarAfter(name, saves[..|saves| - 1]), name, saves[|saves| - 1])
  }

  function MostParts(saves: seq<Save>): nat {
    if saves == [] then 0
    else
      var before, last := MostParts(saves[..|saves| - 1]), PartCount(saves[|saves| - 1]);
      if before < last then last else before
  }

  /** Part cookies never go away: the jar holds as many as the longest save so far left. */
  lemma {:induction false} PartsInJar(name: string, saves: seq<Save>, i: nat)
    requires i >= 1
    ensures PartName(name, i) in JarAfter(name, saves) <==> i < MostParts(saves)
    ensures PartName(name, i) in JarAfter(name, saves) ==> JarAfter(name, saves)[PartName(name, i)] != ""
  {
    if saves != [] {
      var init, last := saves[..|saves| - 1], saves[|saves| - 1];
      PartsInJar(name, init, i);
      PartNamesDiffer(name, i, i);
      if Chunked(last) {
        StorePartsLookup(JarAfter(name, init), name, Chunks(last.value, MAX_CHUNK_SIZE), i);
        ChunkSizes(last.value, MAX_CHUNK_SIZE);
      }
    }
  }

  /** Loading reads the stored parts up to the limit, then whatever an older save left behind. */
  lemma {:induction false} LoadPartsJoin(jar: Jar, name: string, parts: seq<string>, i: nat)
    requires 1 <= i <= |parts| && i <= MAX_NUM_CHUNKS + 1
    requires forall j :: i <= j < |parts| ==> Lookup(jar, PartName(name, j)) == Some(parts[j])
    ensures |parts| <= MAX_NUM_CHUNKS + 1 ==> LoadParts(jar, name, i) == Join(parts[i..]) + LoadParts(jar, name, |parts|)
    ensures |parts| > MAX_NUM_CHUNKS + 1 ==> LoadParts(jar, name, i) == Join(parts[i..MAX_NUM_CHUNKS + 1])
    decreases MAX_NUM_CHUNKS + 1 - i
  {
    if i < |parts| && i <= MAX_NUM_CHUNKS {
      LoadPartsJoin(jar, name, parts, i + 1);
      assert Lookup(jar, PartName(name, i)) == Some(parts[i]);
      if |parts| > MAX_NUM_CHUNKS + 1 {
        JoinCons(parts[i], parts[i + 1..MAX_NUM_CHUNKS + 1]);
        assert parts[i..MAX_NUM_CHUNKS + 1] == [parts[i]] + parts[i + 1..MAX_NUM_CHUNKS + 1];
      } else {
        JoinCons(parts[i], parts[i + 1..]);
        assert parts[i..] == [parts[i]] + parts[i + 1..];
      }
    }
  }

  lemma {:induction false} JoinNonEmpty(parts: seq<string>)
    requires parts != [] && parts[0] != ""
    ensures Join(parts) != ""
  {
  }

  /** What loading returns after a chunked save, complete or not. */
  lemma LoadedAfterChunkedSave(name: string, saves: seq<Save>)
    requires saves != []
    requires var last := saves[|saves| - 1]; Chunked(last) && last.value != ""
    ensures var parts, jar := Chunks(saves[|saves| - 1].value, MAX_CHUNK_SIZE), JarAfter(name, saves);
            && parts != []
            && Loaded(jar, name) == Some(parts[0] +
                 if |parts| <= MAX_NUM_CHUNKS + 1 then Join(parts[1..]) + LoadParts(jar, name, |parts|)
                 else Join(parts[1..MAX_NUM_CHUNKS + 1]))
  {
    var last, before := saves[|saves| - 1], JarAfter(name, saves[..|saves| - 1]);
    var parts, jar := Chunks(last.value, MAX_CHUNK_SIZE), JarAfter(name, saves);
    ChunkSizes(last.value, MAX_CHUNK_SIZE);
    forall j | 1 <= j < |parts|
      ensures Lookup(jar, PartName(name, j)) == Some(parts[j])
    {
      StorePartsLookup(before, name, parts, j);
    }
    StorePartsLookup(before, name, parts, 1);
    assert jar[name][1..] == parts[0];
    LoadPartsJoin(jar, name, parts, 1);
  }

  /** Nothing is left behind the last part, or it is out of reach. */
  lemma LeftoverParts(name: string, saves: seq<Save>)
    requires saves != []
    requires var last := saves[|saves| - 1]; Chunked(last) && last.value != ""
    ensures var k := PartCount(saves[|saves| - 1]);
            k <= MAX_NUM_CHUNKS + 1 ==>
              (LoadParts(JarAfter(name, saves), name, k) == ""
               <==> k == MAX_NUM_CHUNKS + 1 || MostParts(saves[..|saves| - 1]) <= k)
  {
    ChunkSizes(saves[|saves| - 1].value, MAX_CHUNK_SIZE);
    PartsInJar(name, saves, PartCount(saves[|saves| - 1]));
  }

  /**
   Main result for a chunked save: loading returns it exactly when it has at most
   six chunks and no earlier save left a part behind its last one.
   */
  lemma ChunkedSaveLoads(name: string, saves: seq<Save>)
    requires saves != []
    requires var last := saves[|saves| - 1]; Chunked(last) && last.value != ""
    ensures var last, earlier := saves[|saves| - 1], saves[..|saves| - 1];
            var k := PartCount(last);
            Loaded(JarAfter(name, saves), name) == Some(last.value)
            <==> k <= 6 && (k == 6 || MostParts(earlier) <= k)
  {
    var last := saves[|saves| - 1];
    var parts := Chunks(last.value, MAX_CHUNK_SIZE);
    ChunksJoin(last.value, MAX_CHUNK_SIZE);
    ChunkSizes(last.value, MAX_CHUNK_SIZE);
    LoadedAfterChunkedSave(name, saves);
    assert last.value == parts[0] + Join(parts[1..]);
    if |parts| <= MAX_NUM_CHUNKS + 1 {
      LeftoverParts(name, saves);
      AppendNothing(parts[0], Join(parts[1..]), LoadParts(JarAfter(name, saves), name, |parts|));
    } else {
      TruncatedLoad(parts);
    }
  }

  lemma AppendNothing(a: string, b: string, c: string)
    ensures a + (b + c) == a + b <==> c == ""
  {
    assert c == "" ==> b + c == b;
  }

  lemma TruncatedLoad(parts: seq<string>)
    requires |parts| > MAX_NUM_CHUNKS + 1 && forall c :: c in parts ==> c != ""
    ensures |Join(parts[1..MAX_NUM_CHUNKS + 1])| < |Join(parts[1..])|
  {
    var n := MAX_NUM_CHUNKS + 1;
    JoinConcat(parts[1..n], parts[n..]);
    assert parts[1..] == parts[1..n] + parts[n..];
    assert parts[n..][0] == parts[n] && parts[n] in parts;
    JoinNonEmpty(parts[n..]);
  }

  /** Every save that fits loads again: the last value wins, whatever was saved before. */
  lemma LastSaveLoads(name: string, saves: seq<Save>)
    requires saves != [] && saves[|saves| - 1].value != ""
    requires var last := saves[|saves| - 1];
             if Chunked(last) then
               PartCount(last) <= 6
               && forall i :: 0 <= i < |saves| ==> PartCount(saves[i]) <= PartCount(last)
             else last.value[0] != CANARY
    ensures Loaded(JarAfter(name, saves), name) == Some(saves[|saves| - 1].value)
  {
    if Chunked(saves[|saves| - 1]) {
      MostPartsBound(saves[..|saves| - 1], PartCount(saves[|saves| - 1]));
      ChunkedSaveLoads(name, saves);
    }
  }

  lemma {:induction false} MostPartsBound(saves: seq<Save>, k: nat)
    requires forall i :: 0 <= i < |saves| ==> PartCount(saves[i]) <= k
    ensures MostParts(saves) <= k
  {
    if saves != [] {
      MostPartsBound(saves[..|saves| - 1], k);
    }
  }

  /** What loading returns after an unchunked save: a leading canary drags old parts in. */
  lemma LoadedAfterPlainSave(name: string, saves: seq<Save>)
    requires saves != []
    requires var last := saves[|saves| - 1]; !Chunked(last) && last.value != ""
    ensures var value, before := saves[|saves| - 1].value, JarAfter(name, saves[..|saves| - 1]);
            Loaded(JarAfter(name, saves), name)
            == Some(if value[0] != CANARY then value else value[1..] + LoadParts(before, name, 1))
  {
    var value, before := saves[|saves| - 1].value, JarAfter(name, saves[..|saves| - 1]);
    PlainSaveKeepsParts(before, name, value, 1);
  }

  lemma {:induction false} PlainSaveKeepsParts(jar: Jar, name: string, value: string, i: nat)
    requires i >= 1
    ensures LoadParts(jar[name := value], name, i) == LoadParts(jar, name, i)
    decreases MAX_NUM_CHUNKS + 1 - i
  {
    PartNamesDiffer(name, i, i);
    if i <= MAX_NUM_CHUNKS {
      PlainSaveKeepsParts(jar, name, value, i + 1);
    }
  }

  predicate OnlyCanaries(s: string) {
    forall i :: 0 <= i < |s| ==> s[i] == CANARY
  }

  lemma {:induction false} ShiftedIsConstant(w: string, p: string, i: nat)
    requires w + p == [CANARY] + w && i < |w|
    ensures w[i] == CANARY
  {
    assert (w + p)[i] == w[i] && ([CANARY] + w)[i] == if i == 0 then CANARY else w[i - 1];
    if i > 0 {
      ShiftedIsConstant(w, p, i - 1);
    }
  }

  /** A string that loses its first canary and gains `p` at the end is unchanged only if it is all canaries. */
  lemma ShiftedExactly(w: string, p: string)
    ensures w + p == [CANARY] + w <==> p == [CANARY] && OnlyCanaries(w)
  {
    if w + p == [CANARY] + w {
      assert |p| == 1 && (w + p)[|w|] == p[0];
      assert ([CANARY] + w)[|w|] == if |w| == 0 then CANARY else w[|w| - 1];
      forall i | 0 <= i < |w|
        ensures w[i] == CANARY
      {
        ShiftedIsConstant(w, p, i);
      }
    }
    if p == [CANARY] && OnlyCanaries(w) {
      assert forall i :: 0 <= i <= |w| ==> (w + p)[i] == CANARY == ([CANARY] + w)[i];
    }
  }

  lemma SingleChar(a: string, b: string, c: char)
    requires a != ""
    ensures a + b == [c] <==> a == [c] && b == ""
  {
    if a + b == [c] {
      assert |a| + |b| == 1 && (a + b)[0] == a[0];
    }
  }

  /** The old parts are a single canary when the longest earlier save had two chunks and the second is that. */
  lemma OldPartsAreCanary(name: string, saves: seq<Save>)
    ensures LoadParts(JarAfter(name, saves), name, 1) == [CANARY] <==>
              MostParts(saves) == 2 && Lookup(JarAfter(name, saves), PartName(name, 1)) == Some([CANARY])
  {
    var jar := JarAfter(name, saves);
    PartsInJar(name, saves, 1);
    PartsInJar(name, saves, 2);
    var rest := LoadParts(jar, name, 2);
    assert rest == "" <==> PartName(name, 2) !in jar;
    if PartName(name, 1) in jar {
      assert LoadParts(jar, name, 1) == jar[PartName(name, 1)] + rest;
      SingleChar(jar[PartName(name, 1)], rest, CANARY);
    }
  }

  /**
   Main result for an unchunked save, after every history: loading returns it exactly
   when it does not start with the canary byte, or consists of nothing else and the
   longest earlier save left exactly one part that is that byte.
   */
  lemma PlainSaveLoads(name: string, saves: seq<Save>)
    requires saves != []
    requires var last := saves[|saves| - 1]; !Chunked(last) && last.value != ""
    ensures var value, earlier := saves[|saves| - 1].value, saves[..|saves| - 1];
            Loaded(JarAfter(name, saves), name) == Some(value) <==>
              || value[0] != CANARY
              || (&& OnlyCanaries(value) && MostParts(earlier) == 2
                  && Lookup(JarAfter(name, earlier), PartName(name, 1)) == Some([CANARY]))
  {
    var value, earlier := saves[|saves| - 1].value, saves[..|saves| - 1];
    var w := value[1..];
    LoadedAfterPlainSave(name, saves);
    OldPartsAreCanary(name, earlier);
    ShiftedExactly(w, LoadParts(JarAfter(name, earlier), name, 1));
    assert value == [value[0]] + w;
  }
}
