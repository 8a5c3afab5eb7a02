/** Searching strings for a byte, the byte-wise string order, and sorting by it. */
module Strings {

  // --- Searching ---

  function IndexByte(s: string, c: char): (i: int)
    ensures -1 <= i < |s|
    ensures i == -1 <==> c !in s
    ensures i != -1 ==> s[i] == c && c !in s[..i]
  {
    if s == [] then -1
    else if s[0] == c then 0
    else
      var i := IndexByte(s[1..], c);
      if i == -1 then -1 else i + 1
  }

  function LastIndexByte(s: string, c: char): (i: int)
    ensures -1 <= i < |s|
    ensures i == -1 <==> c !in s
    ensures i != -1 ==> s[i] == c && c !in s[i + 1..]
  {
    if s == [] then -1
    else if s[|s| - 1] == c then |s| - 1
    else LastIndexByte(s[..|s| - 1], c)
  }

  lemma IndexUnique(s: string, c: char, i: nat)
    requires i < |s| && s[i] == c && c !in s[..i]
    ensures IndexByte(s, c) == i
  {
    var first := IndexByte(s, c);
    assert forall k :: 0 <= k < i ==> s[k] == s[..i][k];
    assert forall k :: 0 <= k < first ==> s[k] == s[..first][k];
  }

  lemma LastIndexUnique(s: string, c: char, i: nat)
    requires i < |s| && s[i] == c && c !in s[i + 1..]
    ensures LastIndexByte(s, c) == i
  {
    var last := LastIndexByte(s, c);
    assert forall k :: i < k < |s| ==> s[k] == s[i + 1..][k - i - 1];
    assert forall k :: last < k < |s| ==> s[k] == s[last + 1..][k - last - 1];
  }

  // --- Order ---

  predicate Less(a: string, b: string) {
    b != [] && (a == [] || a[0] < b[0] || (a[0] == b[0] && Less(a[1..], b[1..])))
  }

  lemma {:induction false} LessTrichotomy(a: string, b: string)
    ensures Less(a, b) || a == b || Less(b, a)
    ensures !(Less(a, b) && Less(b, a)) && (a == b ==> !Less(a, b))
  {
    if a != [] && b != [] && a[0] == b[0] {
      LessTrichotomy(a[1..], b[1..]);
      assert a == [a[0]] + a[1..] && b == [b[0]] + b[1..];
    }
  }

  lemma {:induction false} LessTransitive(a: string, b: string, c: string)
    requires Less(a, b) && Less(b, c)
    ensures Less(a, c)
  {
    if a != [] && a[0] == b[0] && b[0] == c[0] {
      LessTransitive(a[1..], b[1..], c[1..]);
    }
  }

  /** The order is by bytes: at the first difference, or a proper prefix first. */
  predicate DiffersAt(a: string, b: string, i: nat) {
    i <= |a| && i < |b| && a[..i] == b[..i] && (i == |a| || a[i] < b[i])
  }

  lemma {:induction false} LessIsBytewise(a: string, b: string)
    ensures Less(a, b) <==> exists i: nat :: DiffersAt(a, b, i)
  {
    if b != [] && (a == [] || a[0] < b[0]) {
      assert DiffersAt(a, b, 0);
    } else if a != [] && b != [] && a[0] == b[0] {
      LessIsBytewise(a[1..], b[1..]);
      if Less(a[1..], b[1..]) {
        var i: nat :| DiffersAt(a[1..], b[1..], i);
        assert a[..i + 1] == [a[0]] + a[1..][..i] && b[..i + 1] == [b[0]] + b[1..][..i];
        assert DiffersAt(a, b, i + 1);
      }
      if i: nat :| DiffersAt(a, b, i) {
        assert i > 0;
        assert a[1..][..i - 1] == a[..i][1..] && b[1..][..i - 1] == b[..i][1..];
        assert DiffersAt(a[1..], b[1..], i - 1);
      }
    }
  }

  /** Strictly increasing, hence without duplicates. */
  predicate StrictlySorted(s: seq<string>) {
    forall i, j :: 0 <= i < j < |s| ==> Less(s[i], s[j])
  }

  method Least(values: set<string>) returns (least: string)
    requires values != {}
    ensures least in values
    ensures forall v :: v in values && v != least ==> Less(least, v)
  {
    least :| least in values;
    var todo := values - {least};
    while todo != {}
      invariant todo <= values && least in values && least !in todo
      invariant forall v :: v in values - todo && v != least ==> Less(least, v)
      decreases todo
    {
      var v :| v in todo;
      LessTrichotomy(v, least);
      if Less(v, least) {
        forall w | w in values - todo && w != least
          ensures Less(v, w)
        {
          LessTransitive(v, least, w);
        }
        least := v;
      }
      todo := todo - {v};
    }
  }

  method Sorted(values: set<string>) returns (s: seq<string>)
    ensures StrictlySorted(s)
    ensures forall v :: v in s <==> v in values
  {
    s := [];
    var todo := values;
    while todo != {}
      invariant todo <= values
      invariant forall v :: v in s <==> v in values - todo
      invariant forall v, w :: v in s && w in todo ==> Less(v, w)
      invariant StrictlySorted(s)
      decreases todo
    {
      var v := Least(todo);
      s := s + [v];
      todo := todo - {v};
    }
  }

  /** There is only one strictly sorted list of a given set. */
  lemma {:induction false} SortedUnique(s: seq<string>, t: seq<string>)
    requires StrictlySorted(s) && StrictlySorted(t)
    requires forall v :: v in s <==> v in t
    ensures s == t
  {
    assert t != [] ==> t[0] in s;
    if s != [] {
      assert s[0] in t;
      LessTrichotomy(s[0], t[0]);
      assert s[0] == t[0];
      forall v
        ensures v in s[1..] <==> v in t[1..]
      {
        LessTrichotomy(s[0], s[0]);
        assert v in s <==> v == s[0] || v in s[1..];
        assert v in t <==> v == t[0] || v in t[1..];
      }
      SortedUnique(s[1..], t[1..]);
      assert s == [s[0]] + s[1..] && t == [t[0]] + t[1..];
    }
  }

  ghost predicate IsLeast(values: set<string>, least: string) {
    least in values && forall v :: v in values && v != least ==> Less(least, v)
  }

  lemma {:induction false} LeastExists(values: set<string>)
    requires values != {}
    ensures exists least :: IsLeast(values, least)
    decreases values
  {
    var v :| v in values;
    var rest := values - {v};
    assert forall x :: x in values ==> x == v || x in rest;
    if rest == {} {
      assert IsLeast(values, v);
    } else {
      LeastExists(rest);
      var w :| IsLeast(rest, w);
      LessTrichotomy(v, w);
      if Less(v, w) {
        forall x | x in values && x != v
          ensures Less(v, x)
        {
          if x != w {
            LessTransitive(v, w, x);
          }
        }
        assert IsLeast(values, v);
      } else {
        assert IsLeast(values, w);
      }
    }
  }

  /** The sorted list of a set. */
  ghost function SortedOf(values: set<string>): (s: seq<string>)
    ensures StrictlySorted(s)
    ensures forall v :: v in s <==> v in values
    decreases values
  {
    if values == {} then []
    else
      LeastExists(values);
      var least :| IsLeast(values, least);
      [least] + SortedOf(values - {least})
  }
}
