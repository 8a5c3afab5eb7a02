/** URLs signed with a shared key and valid for a few minutes. */
module SignedUrl {
  import opened Options
  import opened Strings
  import opened Decimal
  import opened Query
  import opened Times

  /** Times count from the Unix epoch. */
  const LEEWAY: Time := 60 * SECOND
  const LIFETIME: Time := 300 * SECOND
  const ZERO_TIME: Time := -62_135_596_800 * SECOND

  const ISSUED := "pomerium_issued"
  const EXPIRY := "pomerium_expiry"
  const SIGNATURE := "pomerium_signature"

  /** Everything before the query, and the raw query. */
  datatype URL = URL(base: string, rawQuery: string)

  /** The message authentication code and the base64 alphabet are left uninterpreted. */
  datatype Crypto = Crypto(hmac: (string, string) -> string, encode: string -> string, decode: string -> Option<string>)

  datatype Verdict = Valid | MalformedSignature | MalformedDate | Expired | IssuedInTheFuture | HmacFailed

  ghost predicate Decodes(c: Crypto) {
    forall x :: c.decode(c.encode(x)) == Some(x)
  }

  function URLString(u: URL): string {
    if u.rawQuery == "" then u.base else u.base + "?" + u.rawQuery
  }

  function ParseURL(s: string): URL {
    var i := IndexByte(s, '?');
    if i == -1 then URL(s, "") else URL(s[..i], s[i + 1..])
  }

  lemma ParseOfURLString(u: URL)
    requires '?' !in u.base
    ensures ParseURL(URLString(u)) == u
  {
    if u.rawQuery != "" {
      var s := URLString(u);
      assert s[|u.base|] == '?' && s[..|u.base|] == u.base && s[|u.base| + 1..] == u.rawQuery;
      IndexUnique(s, '?', |u.base|);
    }
  }

  /** Whole seconds; the zero time has no date. */
  function NumericDate(t: Time): Option<int> {
    if t == ZERO_TIME then None else Some(t / SECOND)
  }

  function DateString(d: Option<int>): string {
    if d.None? then "<nil>" else Format(d.value)
  }

  /** What is authenticated: two dates are set apart by a space, a string and a date are not. */
  function SignedData(u: URL, issued: Option<int>, expiry: Option<int>): string {
    URLString(u) + Dates(issued, expiry)
  }

  function Dates(issued: Option<int>, expiry: Option<int>): string {
    DateString(issued) + " " + DateString(expiry)
  }

  function First(m: Values, key: string): string {
    if key in m && m[key] != [] then m[key][0] else ""
  }

  function Dated(m: Values, now: Time): Values {
    m[ISSUED := [DateString(NumericDate(now))]][EXPIRY := [DateString(NumericDate(now + LIFETIME))]]
  }

  ghost function Canonical(base: string, m: Values): URL {
    URL(base, EncodeQuery(m))
  }

  ghost function Signature(c: Crypto, base: string, m: Values, key: string, now: Time): string {
    c.encode(c.hmac(key, SignedData(Canonical(base, m), NumericDate(now), NumericDate(now + LIFETIME))))
  }

  ghost function Signed(c: Crypto, u: URL, key: string, now: Time): URL {
    var dated := Dated(ParseQuery(u.rawQuery), now);
    Canonical(u.base, dated[SIGNATURE := [Signature(c, u.base, dated, key, now)]])
  }

  ghost function Checked(c: Crypto, base: string, m: Values, key: string, now: Time): Verdict {
    var sig := c.decode(First(m, SIGNATURE));
    var unsigned := m - {SIGNATURE};
    var issued, expiry := ParseInt(First(unsigned, ISSUED)), ParseInt(First(unsigned, EXPIRY));
    if sig.None? then MalformedSignature
    else if issued.None? || expiry.None? then MalformedDate
    else if expiry.value * SECOND < now - LEEWAY then Expired
    else if now + LEEWAY < issued.value * SECOND then IssuedInTheFuture
    else if c.hmac(key, SignedData(Canonical(base, unsigned), issued, expiry)) == sig.value then Valid
    else HmacFailed
  }

  ghost function Validated(c: Crypto, u: URL, key: string, now: Time): Verdict {
    Checked(c, u.base, ParseQuery(u.rawQuery), key, now)
  }

  class SignedURL {
    var uri: URL
    const key: string
    var signed: bool

    constructor (key: string, uri: URL)
      ensures this.key == key && this.uri == uri && !signed
    {
      this.key, this.uri, signed := key, uri, false;
    }

    method Sign(c: Crypto, now: Time) returns (u: URL)
      modifies this
      ensures u == uri == Signed(c, old(uri), key, now) && signed
    {
      var issued, expiry := NumericDate(now), NumericDate(now + LIFETIME);
      var params := ParseQuery(uri.rawQuery);
      params := params[ISSUED := [DateString(issued)]];
      params := params[EXPIRY := [DateString(expiry)]];
      var query := Encode(params);
      uri := uri.(rawQuery := query);
      params := params[SIGNATURE := [c.encode(c.hmac(key, SignedData(uri, issued, expiry)))]];
      query := Encode(params);
      uri := uri.(rawQuery := query);
      signed := true;
      u := uri;
    }

    /** Signs on first use. */
    method ToString(c: Crypto, now: Time) returns (s: string)
      modifies this
      ensures signed && s == URLString(uri)
      ensures uri == if old(signed) then old(uri) else Signed(c, old(uri), key, now)
    {
      if !signed {
        var _ := Sign(c, now);
      }
      s := URLString(uri);
    }

    method Validate(c: Crypto, now: Time) returns (v: Verdict)
      modifies this
      ensures v == Validated(c, old(uri), key, now)
      ensures signed == old(signed)
      ensures uri == if v.MalformedSignature? then old(uri)
                     else Canonical(old(uri).base, ParseQuery(old(uri).rawQuery) - {SIGNATURE})
    {
      var params := ParseQuery(uri.rawQuery);
      var sig := c.decode(First(params, SIGNATURE));
      if sig.None? {
        return MalformedSignature;
      }
      params := params - {SIGNATURE};
      var query := Encode(params);
      uri := uri.(rawQuery := query);
      var issued := ParseInt(First(params, ISSUED));
      if issued.None? {
        return MalformedDate;
      }
      var expiry := ParseInt(First(params, EXPIRY));
      if expiry.None? {
        return MalformedDate;
      }
      if now - LEEWAY > expiry.value * SECOND {
        return Expired;
      }
      if now + LEEWAY < issued.value * SECOND {
        return IssuedInTheFuture;
      }
      if c.hmac(key, SignedData(uri, issued, expiry)) != sig.value {
        return HmacFailed;
      }
      v := Valid;
    }
  }

  // --- Signing and validating ---

  /** The instants whose seconds fit 64 bits, with room for the expiry. */
  predicate Representable(now: Time) {
    MIN_INT64 <= now / SECOND && (now + LIFETIME) / SECOND <= MAX_INT64
  }

  lemma NamesDiffer()
    ensures ISSUED != EXPIRY && EXPIRY != SIGNATURE && SIGNATURE != ISSUED
  {
    assert ISSUED[9] == 'i' && EXPIRY[9] == 'e' && SIGNATURE[9] == 's';
  }

  lemma NilIsNoNumber()
    ensures ParseInt("<nil>") == None
  {
    assert !IsDigit('>');
  }

  lemma ParseDate(d: Option<int>)
    requires d.Some? ==> MIN_INT64 <= d.value <= MAX_INT64
    ensures ParseInt(DateString(d)) == d
  {
    if d.Some? {
      ParseIntOfFormat(d.value);
    } else {
      NilIsNoNumber();
    }
  }

  /** Parsing the signed string gives back the base and every parameter. */
  lemma CanonicalParses(base: string, m: Values)
    requires '?' !in base && NoEmptyValues(m)
    ensures ParseURL(URLString(Canonical(base, m))).base == base
    ensures ParseQuery(ParseURL(URLString(Canonical(base, m))).rawQuery) == m
  {
    ParseOfEncode(m);
    ParseOfURLString(Canonical(base, m));
  }

  lemma SignedParses(c: Crypto, u: URL, key: string, now: Time, later: Time)
    requires '?' !in u.base
    ensures var dated := Dated(ParseQuery(u.rawQuery), now);
            Validated(c, ParseURL(URLString(Signed(c, u, key, now))), key, later)
            == Checked(c, u.base, dated[SIGNATURE := [Signature(c, u.base, dated, key, now)]], key, later)
  {
    var dated := Dated(ParseQuery(u.rawQuery), now);
    CollectedValuesNotEmpty(ParsePairs(u.rawQuery));
    CanonicalParses(u.base, dated[SIGNATURE := [Signature(c, u.base, dated, key, now)]]);
  }

  /** What validation decides before it compares authentication codes. */
  function WindowVerdict(now: Time, later: Time): Verdict {
    var issued, expiry := NumericDate(now), NumericDate(now + LIFETIME);
    if issued.None? || expiry.None? then MalformedDate
    else if expiry.value * SECOND + LEEWAY < later then Expired
    else if later < issued.value * SECOND - LEEWAY then IssuedInTheFuture
    else Valid
  }

  lemma DatedLookups(m: Values, now: Time, sig: string)
    ensures var signed := Dated(m, now)[SIGNATURE := [sig]];
            && First(signed, SIGNATURE) == sig
            && signed - {SIGNATURE} == Dated(m, now) - {SIGNATURE}
            && First(signed - {SIGNATURE}, ISSUED) == DateString(NumericDate(now))
            && First(signed - {SIGNATURE}, EXPIRY) == DateString(NumericDate(now + LIFETIME))
  {
    NamesDiffer();
  }

  /** The two texts that are authenticated: when signing, and when validating. */
  ghost function SentData(base: string, m: Values, now: Time): string {
    SignedData(Canonical(base, Dated(m, now)), NumericDate(now), NumericDate(now + LIFETIME))
  }

  ghost function CheckedData(base: string, m: Values, now: Time): string {
    SignedData(Canonical(base, Dated(m, now) - {SIGNATURE}), NumericDate(now), NumericDate(now + LIFETIME))
  }

  /** What is looked at, in order, once the signature parameter decodes: dates, window, authentication code. */
  lemma VerdictInOrder(c: Crypto, base: string, m: Values, key: string, now: Time, sig: string, i: Option<int>, e: Option<int>)
    requires c.decode(First(m, SIGNATURE)) == Some(sig)
    requires ParseInt(First(m - {SIGNATURE}, ISSUED)) == i && ParseInt(First(m - {SIGNATURE}, EXPIRY)) == e
    ensures Checked(c, base, m, key, now)
         == if i.None? || e.None? then MalformedDate
            else if e.value * SECOND + 60 * SECOND < now then Expired
            else if now < i.value * SECOND - 60 * SECOND then IssuedInTheFuture
            else if c.hmac(key, SignedData(Canonical(base, m - {SIGNATURE}), i, e)) == sig then Valid
            else HmacFailed
  {
  }

  lemma CheckedSigned(c: Crypto, base: string, m: Values, key: string, now: Time, later: Time)
    requires Decodes(c) && Representable(now)
    ensures Checked(c, base, Dated(m, now)[SIGNATURE := [Signature(c, base, Dated(m, now), key, now)]], key, later)
         == if WindowVerdict(now, later) != Valid then WindowVerdict(now, later)
            else if c.hmac(key, CheckedData(base, m, now)) == c.hmac(key, SentData(base, m, now)) then Valid
            else HmacFailed
  {
    var sig := Signature(c, base, Dated(m, now), key, now);
    var signed := Dated(m, now)[SIGNATURE := [sig]];
    DatedLookups(m, now, sig);
    ParseDate(NumericDate(now));
    ParseDate(NumericDate(now + LIFETIME));
    assert c.decode(sig) == Some(c.hmac(key, SentData(base, m, now)));
    VerdictInOrder(c, base, signed, key, later, c.hmac(key, SentData(base, m, now)), NumericDate(now), NumericDate(now + LIFETIME));
  }

  lemma WindowIsSixMinutesAround(now: Time, later: Time)
    ensures WindowVerdict(now, later) == Valid <==>
              && now != ZERO_TIME && now + LIFETIME != ZERO_TIME
              && now / SECOND * SECOND - LEEWAY <= later <= now / SECOND * SECOND + LIFETIME + LEEWAY
  {
    assert (now + LIFETIME) / SECOND == now / SECOND + 300;
  }

  /**
   Main result: a URL that had no signature parameter validates exactly from one
   minute before its issue time to one minute after its expiry.
   */
  lemma SignedURLValidates(c: Crypto, u: URL, key: string, now: Time, later: Time)
    requires Decodes(c) && '?' !in u.base && Representable(now)
    requires SIGNATURE !in ParseQuery(u.rawQuery)
    ensures Validated(c, ParseURL(URLString(Signed(c, u, key, now))), key, later) == WindowVerdict(now, later)
    ensures Validated(c, ParseURL(URLString(Signed(c, u, key, now))), key, later) == Valid <==>
              && now != ZERO_TIME && now + LIFETIME != ZERO_TIME
              && now / SECOND * SECOND - LEEWAY <= later <= now / SECOND * SECOND + LIFETIME + LEEWAY
  {
    var m := ParseQuery(u.rawQuery);
    SignedParses(c, u, key, now, later);
    CheckedSigned(c, u.base, m, key, now, later);
    WindowIsSixMinutesAround(now, later);
    UnsignedDated(m, now);
  }

  lemma UnsignedDated(m: Values, now: Time)
    ensures SIGNATURE !in m <==> Dated(m, now) - {SIGNATURE} == Dated(m, now)
  {
    NamesDiffer();
    assert SIGNATURE in Dated(m, now) <==> SIGNATURE in m;
  }

  /** The condition is needed: a URL that already carried a signature parameter never validates. */
  lemma StaleSignatureFails(c: Crypto, u: URL, key: string, now: Time, later: Time)
    requires Decodes(c) && '?' !in u.base && Representable(now)
    requires SIGNATURE in ParseQuery(u.rawQuery)
    requires forall a, b :: c.hmac(key, a) == c.hmac(key, b) ==> a == b
    ensures Validated(c, ParseURL(URLString(Signed(c, u, key, now))), key, later) != Valid
  {
    var m := ParseQuery(u.rawQuery);
    SignedParses(c, u, key, now, later);
    CheckedSigned(c, u.base, m, key, now, later);
    CollectedValuesNotEmpty(ParsePairs(u.rawQuery));
    DataDiffers(u.base, m, now);
  }

  lemma CanonicalInjective(base: string, m: Values, m': Values)
    requires '?' !in base && NoEmptyValues(m) && NoEmptyValues(m')
    ensures URLString(Canonical(base, m)) == URLString(Canonical(base, m')) ==> m == m'
  {
    CanonicalParses(base, m);
    CanonicalParses(base, m');
  }

  lemma DataDiffers(base: string, m: Values, now: Time)
    requires '?' !in base && NoEmptyValues(m) && SIGNATURE in m
    ensures CheckedData(base, m, now) != SentData(base, m, now)
  {
    var sent, checked := Dated(m, now), Dated(m, now) - {SIGNATURE};
    UnsignedDated(m, now);
    CanonicalInjective(base, sent, checked);
    SameSuffix(URLString(Canonical(base, checked)), URLString(Canonical(base, sent)),
               Dates(NumericDate(now), NumericDate(now + LIFETIME)));
  }

  lemma SameSuffix(a: string, b: string, suffix: string)
    ensures a + suffix == b + suffix ==> a == b
  {
    assert a == (a + suffix)[..|a|] && b == (b + suffix)[..|b|];
  }
}
