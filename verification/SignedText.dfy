/**
 The text that is authenticated determines the URL, although a URL and the date
 behind it are not set apart: a signature is good for one URL only.
 */
module SignedText {
  import opened Options
  import opened Strings
  import opened Decimal
  import opened Query
  import opened Times
  import opened SignedUrl

  /** The dates that the parameters carry. */
  ghost predicate Carries(m: Values, issued: int, expiry: int) {
    NoEmptyValues(m) && ParseInt(First(m, ISSUED)) == Some(issued) && ParseInt(First(m, EXPIRY)) == Some(expiry)
  }

  // --- Taking the text apart ---

  lemma LastSpace(a: string, b: string, p: string, q: string)
    requires ' ' !in p && ' ' !in q && a + " " + p == b + " " + q
    ensures a == b && p == q
  {
    var s, t := a + " " + p, b + " " + q;
    assert s[|a|] == ' ' && s[|a| + 1..] == p && t[|b|] == ' ' && t[|b| + 1..] == q;
    LastIndexUnique(s, ' ', |a|);
    LastIndexUnique(t, ' ', |b|);
    assert a == s[..|a|] && b == t[..|b|];
  }

  lemma FirstQuestionMark(a: string, b: string, p: string, q: string)
    requires '?' !in a && '?' !in b && a + "?" + p == b + "?" + q
    ensures a == b && p == q
  {
    var s, t := a + "?" + p, b + "?" + q;
    assert s[|a|] == '?' && s[..|a|] == a && t[|b|] == '?' && t[..|b|] == b;
    IndexUnique(s, '?', |a|);
    IndexUnique(t, '?', |b|);
    assert p == s[|a| + 1..] && q == t[|b| + 1..];
  }

  lemma DateHasNoSpace(d: Option<int>)
    ensures ' ' !in DateString(d) && DateString(d) != ""
  {
    if d.Some? {
      FormatShape(d.value);
    }
  }

  lemma TextParts(u: string, i: Option<int>, e: Option<int>, u': string, i': Option<int>, e': Option<int>)
    requires u + Dates(i, e) == u' + Dates(i', e')
    ensures u + DateString(i) == u' + DateString(i') && DateString(e) == DateString(e')
  {
    DateHasNoSpace(e);
    DateHasNoSpace(e');
    Regroup3(u, DateString(i), DateString(e));
    Regroup3(u', DateString(i'), DateString(e'));
    LastSpace(u + DateString(i), u' + DateString(i'), DateString(e), DateString(e'));
  }

  lemma Regroup3(a: string, b: string, c: string)
    ensures a + (b + " " + c) == (a + b) + " " + c
  {
  }

  /** Two ways to cut a string in two: the longer head has some of the other's tail. */
  lemma TwoCuts(a: string, b: string, p: string, q: string) returns (d: string)
    requires a + p == b + q && |a| <= |b|
    ensures b == a + d && p == d + q
  {
    var s := a + p;
    d := b[|a|..];
    assert a == s[..|a|] && b == s[..|b|] && b == b[..|a|] + d;
    assert p == s[|a|..] && q == s[|b|..] && p == p[..|d|] + p[|d|..];
    assert p[..|d|] == s[|a|..|b|] == d;
  }

  // --- The date cannot lend its digits to the URL ---

  lemma PairsOfNotEmpty(m: Values)
    requires First(m, ISSUED) != ""
    ensures ValuesIn(PairsOf(m, SortedOf(m.Keys)), ISSUED) == m[ISSUED] != []
  {
    ValuesInPairsOf(m, SortedOf(m.Keys), ISSUED);
  }

  lemma SameFirst(m: Values, m': Values, d: string)
    requires NoEmptyValues(m) && NoEmptyValues(m') && First(m, ISSUED) != "" && First(m', ISSUED) != ""
    requires AllUnreserved(d) && EncodeQuery(m') == EncodeQuery(m) + d
    ensures First(m', ISSUED) == First(m, ISSUED) || First(m', ISSUED) == First(m, ISSUED) + d
  {
    var ps, ps' := PairsOf(m, SortedOf(m.Keys)), PairsOf(m', SortedOf(m'.Keys));
    PairsOfNotEmpty(m);
    PairsOfNotEmpty(m');
    ExtendedPairs(ps, ps', d);
    ExtendedValues(ps, d, ISSUED);
  }

  lemma NothingLent(m: Values, m': Values, i: int, e: int, i': int, e': int, d: string)
    requires Carries(m, i, e) && Carries(m', i', e')
    requires EncodeQuery(m') == EncodeQuery(m) + d && Format(i) == d + Format(i')
    ensures d == ""
  {
    FormatShape(i);
    assert forall c :: c in d ==> c in Format(i);
    SameFirst(m, m', d);
    if First(m', ISSUED) == First(m, ISSUED) {
      assert |Format(i)| == |d| + |Format(i')|;
    } else {
      NoShift(First(m, ISSUED), d);
    }
  }

  lemma CanonicalString(base: string, m: Values)
    requires First(m, ISSUED) != ""
    ensures EncodeQuery(m) != "" && URLString(Canonical(base, m)) == base + "?" + EncodeQuery(m)
  {
    var ps := PairsOf(m, SortedOf(m.Keys));
    PairsOfNotEmpty(m);
    ParseEncodedPairs(ps);
  }

  lemma HeadIsNotShorter(base: string, m: Values, i: int, e: int, base': string, m': Values, i': int, e': int)
    requires '?' !in base && '?' !in base' && Carries(m, i, e) && Carries(m', i', e')
    requires URLString(Canonical(base, m)) + Format(i) == URLString(Canonical(base', m')) + Format(i')
    requires |URLString(Canonical(base, m))| <= |URLString(Canonical(base', m'))|
    ensures base == base' && EncodeQuery(m) == EncodeQuery(m')
  {
    CanonicalString(base, m);
    CanonicalString(base', m');
    var d := TwoCuts(URLString(Canonical(base, m)), URLString(Canonical(base', m')), Format(i), Format(i'));
    Regroup(base + "?", EncodeQuery(m), d);
    FirstQuestionMark(base', base, EncodeQuery(m'), EncodeQuery(m) + d);
    NothingLent(m, m', i, e, i', e', d);
    assert EncodeQuery(m) + "" == EncodeQuery(m);
  }

  /** Main lemma: URLs that carry their dates are authenticated by different texts. */
  lemma TextIsUnique(base: string, m: Values, i: int, e: int, base': string, m': Values, i': int, e': int)
    requires '?' !in base && '?' !in base' && Carries(m, i, e) && Carries(m', i', e')
    requires SignedData(Canonical(base, m), Some(i), Some(e)) == SignedData(Canonical(base', m'), Some(i'), Some(e'))
    ensures base == base' && m == m'
  {
    var u, u' := URLString(Canonical(base, m)), URLString(Canonical(base', m'));
    TextParts(u, Some(i), Some(e), u', Some(i'), Some(e'));
    if |u| <= |u'| {
      HeadIsNotShorter(base, m, i, e, base', m', i', e');
    } else {
      HeadIsNotShorter(base', m', i', e', base, m, i, e);
    }
    ParseOfEncode(m);
    ParseOfEncode(m');
  }

  // --- What a signature is good for ---

  /** No date at all ends differently from a number. */
  lemma NilIsNoDate(u: string, i: Option<int>, e: Option<int>, u': string, i': int, e': int)
    requires u + Dates(i, e) == u' + Dates(Some(i'), Some(e'))
    ensures i.Some? && e.Some?
  {
    TextParts(u, i, e, u', Some(i'), Some(e'));
    FormatShape(i');
    FormatShape(e');
    var s, f := u + DateString(i), Format(i');
    assert s[|s| - 1] == f[|f| - 1] && s[|s| - 1] == DateString(i)[|DateString(i)| - 1];
    assert DateString(e)[|DateString(e)| - 1] == Format(e')[|Format(e')| - 1];
    assert "<nil>"[4] == '>';
  }

  ghost predicate Injective(c: Crypto, key: string) {
    forall a, b :: c.hmac(key, a) == c.hmac(key, b) ==> a == b
  }

  lemma DatedCarries(m: Values, now: Time)
    requires NoEmptyValues(m) && Representable(now) && NumericDate(now).Some? && NumericDate(now + LIFETIME).Some?
    ensures Carries(Dated(m, now), NumericDate(now).value, NumericDate(now + LIFETIME).value)
  {
    NamesDiffer();
    ParseDate(NumericDate(now));
    ParseDate(NumericDate(now + LIFETIME));
  }

  /** What validation finds when it accepts. */
  lemma AcceptedText(c: Crypto, base: string, m: Values, key: string, later: Time, sig: string)
    requires NoEmptyValues(m) && c.decode(First(m, SIGNATURE)) == Some(sig) && Checked(c, base, m, key, later) == Valid
    ensures var unsigned := m - {SIGNATURE};
            var i, e := ParseInt(First(unsigned, ISSUED)), ParseInt(First(unsigned, EXPIRY));
            && i.Some? && e.Some? && Carries(unsigned, i.value, e.value)
            && i.value * SECOND - LEEWAY <= later <= e.value * SECOND + LEEWAY
            && sig == c.hmac(key, SignedData(Canonical(base, unsigned), i, e))
  {
  }

  /** A URL accepted with the signature of another is that other URL, signed. */
  lemma AcceptedIsSigned(c: Crypto, u: URL, key: string, now: Time, later: Time, base: string, m: Values)
    requires Decodes(c) && Injective(c, key) && '?' !in u.base && '?' !in base && Representable(now)
    requires NoEmptyValues(m) && Checked(c, base, m, key, later) == Valid
    requires First(m, SIGNATURE) == Signature(c, u.base, Dated(ParseQuery(u.rawQuery), now), key, now)
    ensures base == u.base && m - {SIGNATURE} == Dated(ParseQuery(u.rawQuery), now)
    ensures WindowVerdict(now, later) == Valid
  {
    var dated, unsigned := Dated(ParseQuery(u.rawQuery), now), m - {SIGNATURE};
    var i, e := NumericDate(now), NumericDate(now + LIFETIME);
    AcceptedText(c, base, m, key, later, c.hmac(key, SignedData(Canonical(u.base, dated), i, e)));
    var i', e' := ParseInt(First(unsigned, ISSUED)).value, ParseInt(First(unsigned, EXPIRY)).value;
    assert SignedData(Canonical(u.base, dated), i, e) == SignedData(Canonical(base, unsigned), Some(i'), Some(e'));
    NilIsNoDate(URLString(Canonical(u.base, dated)), i, e, URLString(Canonical(base, unsigned)), i', e');
    CollectedValuesNotEmpty(ParsePairs(u.rawQuery));
    DatedCarries(ParseQuery(u.rawQuery), now);
    TextIsUnique(u.base, dated, i.value, e.value, base, unsigned, i', e');
  }

  /** The signed parameters under their signature are accepted in the window. */
  lemma SignedIsAccepted(c: Crypto, u: URL, key: string, now: Time, later: Time, m: Values)
    requires Decodes(c) && Representable(now) && WindowVerdict(now, later) == Valid
    requires First(m, SIGNATURE) == Signature(c, u.base, Dated(ParseQuery(u.rawQuery), now), key, now)
    requires m - {SIGNATURE} == Dated(ParseQuery(u.rawQuery), now)
    ensures Checked(c, u.base, m, key, later) == Valid
  {
    var i, e := NumericDate(now), NumericDate(now + LIFETIME);
    CollectedValuesNotEmpty(ParsePairs(u.rawQuery));
    DatedCarries(ParseQuery(u.rawQuery), now);
    var text := SignedData(Canonical(u.base, m - {SIGNATURE}), i, e);
    assert c.decode(First(m, SIGNATURE)) == Some(c.hmac(key, text));
    VerdictInOrder(c, u.base, m, key, later, c.hmac(key, text), i, e);
  }

  /**
   Main result: if authentication codes do not collide, a URL that carries the
   signature made for `u` is accepted exactly when its base and its other parameters
   are those that were signed and the time is in the window.
   */
  lemma ValidatesExactly(c: Crypto, u: URL, key: string, now: Time, later: Time, v: URL)
    requires Decodes(c) && Injective(c, key) && '?' !in u.base && '?' !in v.base && Representable(now)
    requires First(ParseQuery(v.rawQuery), SIGNATURE)
          == Signature(c, u.base, Dated(ParseQuery(u.rawQuery), now), key, now)
    ensures Validated(c, v, key, later) == Valid <==>
              && v.base == u.base
              && ParseQuery(v.rawQuery) - {SIGNATURE} == Dated(ParseQuery(u.rawQuery), now)
              && now != ZERO_TIME && now + LIFETIME != ZERO_TIME
              && now / SECOND * SECOND - 60 * SECOND <= later <= now / SECOND * SECOND + 360 * SECOND
  {
    var m := ParseQuery(v.rawQuery);
    CollectedValuesNotEmpty(ParsePairs(v.rawQuery));
    WindowIsSixMinutesAround(now, later);
    if Validated(c, v, key, later) == Valid {
      AcceptedIsSigned(c, u, key, now, later, v.base, m);
    }
    if v.base == u.base && m - {SIGNATURE} == Dated(ParseQuery(u.rawQuery), now) && WindowVerdict(now, later) == Valid {
      SignedIsAccepted(c, u, key, now, later, m);
    }
  }

  lemma SignedQuery(c: Crypto, u: URL, key: string, now: Time)
    ensures var dated := Dated(ParseQuery(u.rawQuery), now);
            ParseQuery(Signed(c, u, key, now).rawQuery) == dated[SIGNATURE := [Signature(c, u.base, dated, key, now)]]
  {
    var dated := Dated(ParseQuery(u.rawQuery), now);
    CollectedValuesNotEmpty(ParsePairs(u.rawQuery));
    ParseOfEncode(dated[SIGNATURE := [Signature(c, u.base, dated, key, now)]]);
  }

  /** In particular, a signed query is refused under any other scheme, host or path. */
  lemma OtherBaseIsRefused(c: Crypto, u: URL, key: string, now: Time, later: Time, base: string)
    requires Decodes(c) && Injective(c, key) && '?' !in u.base && '?' !in base && Representable(now) && base != u.base
    ensures Validated(c, URL(base, Signed(c, u, key, now).rawQuery), key, later) != Valid
  {
    var v := URL(base, Signed(c, u, key, now).rawQuery);
    SignedQuery(c, u, key, now);
    assert First(ParseQuery(v.rawQuery), SIGNATURE) == Signature(c, u.base, Dated(ParseQuery(u.rawQuery), now), key, now);
    ValidatesExactly(c, u, key, now, later, v);
  }
}
