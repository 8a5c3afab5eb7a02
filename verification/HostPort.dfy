/** Hosts with optional ports, as the URL helpers and the standard library split them. */
module HostPort {
  import opened Options
  import opened Strings

  datatype URL = URL(scheme: string, host: string)

  /** Host and port; `None` for a missing port, too many colons or stray brackets. */
  function SplitHostPort(s: string): Option<(string, string)> {
    var i := LastIndexByte(s, ':');
    if i < 0 then None
    else if s[0] == '[' then
      var end := IndexByte(s, ']');
      if end < 0 || end + 1 != i || '[' in s[1..] || ']' in s[end + 1..] then None
      else Some((s[1..end], s[i + 1..]))
    else if ':' in s[..i] || '[' in s || ']' in s then None
    else Some((s[..i], s[i + 1..]))
  }

  predicate ValidOptionalPort(port: string) {
    port == "" || (port[0] == ':' && forall c :: c in port[1..] ==> '0' <= c <= '9')
  }

  function Hostname(host: string): string {
    var colon := LastIndexByte(host, ':');
    var h := if colon != -1 && ValidOptionalPort(host[colon..]) then host[..colon] else host;
    if |h| >= 2 && h[0] == '[' && h[|h| - 1] == ']' then h[1..|h| - 1] else h
  }

  function InBrackets(h: string): string {
    "[" + h + "]"
  }

  function JoinHostPort(host: string, port: string): string {
    (if ':' in host then InBrackets(host) else host) + ":" + port
  }

  function StripPort(hostport: string): string {
    var colon := IndexByte(hostport, ':');
    if colon == -1 then hostport
    else
      var i := IndexByte(hostport, ']');
      if i != -1 then
        var h := hostport[..i];
        if |h| >= 1 && h[0] == '[' then h[1..] else h
      else hostport[..colon]
  }

  predicate IsTCP(u: URL) {
    u.scheme == "tcp+http" || u.scheme == "tcp+https"
  }

  function DefaultPort(u: URL): string {
    if u.scheme == "http" then "80" else "443"
  }

  function GetDomainsForURL(u: URL): (domains: seq<string>)
    ensures domains != []
  {
    if IsTCP(u) then [u.host]
    else
      var split := SplitHostPort(u.host);
      if split.Some? && split.value.1 != DefaultPort(u) then [u.host]
      else [Hostname(u.host), JoinHostPort(Hostname(u.host), DefaultPort(u))]
  }

  function HostAndPort(host: string, defaultPort: string): (string, string) {
    var split := SplitHostPort(host);
    if split.Some? then split.value else (host, defaultPort)
  }

  predicate HostMatchesDomain(u: URL, domain: string) {
    HostAndPort(u.host, DefaultPort(u)) == HostAndPort(domain, DefaultPort(u))
  }

  // --- Hosts that are not IPv6 literals ---

  predicate NoBrackets(s: string) {
    '[' !in s && ']' !in s
  }

  /** The first colon, if any, is also the last. */
  predicate AtMostOneColon(s: string) {
    IndexByte(s, ':') == LastIndexByte(s, ':')
  }

  predicate Plain(s: string) {
    NoBrackets(s) && AtMostOneColon(s)
  }

  lemma SplitOfPlain(s: string)
    requires Plain(s)
    ensures ':' !in s ==> SplitHostPort(s) == None && Hostname(s) == s
    ensures ':' in s ==>
              exists h, p :: ':' !in h && ':' !in p && s == h + ":" + p && SplitHostPort(s) == Some((h, p))
  {
    var i := LastIndexByte(s, ':');
    if ':' in s {
      var h, p := s[..i], s[i + 1..];
      assert s == h + ":" + p;
      assert SplitHostPort(s) == Some((h, p));
    }
  }

  lemma IndexOfJoined(h: string, p: string)
    requires ':' !in h && ':' !in p
    ensures IndexByte(h + ":" + p, ':') == |h| == LastIndexByte(h + ":" + p, ':')
  {
    var s := h + ":" + p;
    assert s[|h|] == ':' && s[..|h|] == h && s[|h| + 1..] == p;
    IndexUnique(s, ':', |h|);
    LastIndexUnique(s, ':', |h|);
  }

  lemma SplitOfJoined(h: string, p: string)
    requires ':' !in h && ':' !in p && NoBrackets(h) && NoBrackets(p)
    ensures Plain(h + ":" + p) && SplitHostPort(h + ":" + p) == Some((h, p))
    ensures (forall c :: c in p ==> '0' <= c <= '9') ==> Hostname(h + ":" + p) == h
  {
    var s := h + ":" + p;
    IndexOfJoined(h, p);
    assert s[..|h|] == h && s[|h| + 1..] == p;
    assert s[|h|..][1..] == p;
  }

  lemma DefaultPortIsPlain(u: URL)
    ensures ':' !in DefaultPort(u) && NoBrackets(DefaultPort(u))
    ensures forall c :: c in DefaultPort(u) ==> '0' <= c <= '9'
  {
  }

  /** The domains of a plain URL: its host alone, or with and without the default port. */
  lemma DomainsOfPlain(u: URL)
    requires Plain(u.host)
    ensures forall d :: d in GetDomainsForURL(u) ==> Plain(d)
    ensures !IsTCP(u) && ':' !in u.host ==> GetDomainsForURL(u) == [u.host, u.host + ":" + DefaultPort(u)]
    ensures !IsTCP(u) && ':' in u.host ==>
              exists h, p :: && ':' !in h && ':' !in p && u.host == h + ":" + p && SplitHostPort(u.host) == Some((h, p))
                             && GetDomainsForURL(u) == if p == DefaultPort(u) then [h, u.host] else [u.host]
  {
    SplitOfPlain(u.host);
    DefaultPortIsPlain(u);
    if ':' !in u.host {
      SplitOfJoined(u.host, DefaultPort(u));
    } else {
      var h, p :| ':' !in h && ':' !in p && u.host == h + ":" + p && SplitHostPort(u.host) == Some((h, p));
      assert NoBrackets(h) by {
        assert forall c :: c in h ==> c in u.host;
      }
      assert NoBrackets(p) by {
        assert forall c :: c in p ==> c in u.host;
      }
      SplitOfJoined(h, p);
      SplitOfJoined(h, DefaultPort(u));
    }
  }

  /** The same spelled out by scheme: only http uses port 80, and TCP URLs keep their host. */
  lemma DomainsByScheme(scheme: string, host: string)
    requires Plain(host) && ':' !in host
    ensures GetDomainsForURL(URL(scheme, host)) ==
              if scheme == "tcp+http" || scheme == "tcp+https" then [host]
              else [host, host + if scheme == "http" then ":80" else ":443"]
  {
    DomainsOfPlain(URL(scheme, host));
    assert host + ":" + "80" == host + ":80" && host + ":" + "443" == host + ":443";
  }

  lemma SpelledOutDomains(u: URL, h: string)
    requires !IsTCP(u) && NoBrackets(h) && ':' !in h && u.host == h + ":" + DefaultPort(u)
    ensures GetDomainsForURL(u) == [h, u.host]
  {
    DefaultPortIsPlain(u);
    SplitOfJoined(h, DefaultPort(u));
  }

  /** Every domain of a URL is matched by the URL itself, so its virtual host gets its route. */
  lemma DomainsMatchTheirURL(u: URL, d: string)
    requires Plain(u.host) && d in GetDomainsForURL(u)
    ensures HostMatchesDomain(u, d)
  {
    if !IsTCP(u) {
      DomainsOfPlain(u);
      SplitOfPlain(u.host);
      DefaultPortIsPlain(u);
      if ':' !in u.host {
        SplitOfJoined(u.host, DefaultPort(u));
      } else {
        var h, p :| && ':' !in h && ':' !in p && u.host == h + ":" + p && SplitHostPort(u.host) == Some((h, p))
                    && GetDomainsForURL(u) == if p == DefaultPort(u) then [h, u.host] else [u.host];
        assert SplitHostPort(h) == None;
      }
    }
  }

  // --- TLS names ---

  /** The server name used for a domain. */
  function TLSName(domain: string): string {
    var split := SplitHostPort(domain);
    if split.Some? then split.value.0 else domain
  }

  /** A domain without any port, or one whose port can be split off. */
  predicate Splits(domain: string) {
    ':' !in domain || SplitHostPort(domain).Some?
  }

  /** The two ways of dropping a port agree exactly on domains that split. */
  lemma StripPortIsTLSName(domain: string)
    ensures StripPort(domain) == TLSName(domain) <==> Splits(domain)
    ensures !Splits(domain) ==> TLSName(domain) == domain && |StripPort(domain)| < |domain|
  {
  }

  /** A port other than the default one is spelled out. */
  predicate OwnPort(u: URL) {
    var split := SplitHostPort(u.host);
    split.Some? && split.value.1 != DefaultPort(u)
  }

  /** A name inside a second pair of brackets. */
  predicate Bracketed(h: string) {
    h != "" && h[0] == '[' && '[' !in h[1..] && IndexByte(h, ']') == |h| - 1 && ':' !in h
  }

  /**
   On its default port, a URL keeps its name when its hostname has at most one colon
   and no stray brackets; an IPv6 literal has more colons. With its own port it
   always does, and a TCP URL does when its host splits.
   */
  predicate KeepsName(u: URL) {
    if IsTCP(u) then Splits(u.host)
    else OwnPort(u) || Plain(Hostname(u.host)) || Bracketed(Hostname(u.host))
  }

  lemma LastColon(a: string, p: string)
    requires ':' !in p
    ensures LastIndexByte(a + ":" + p, ':') == |a|
  {
    var s := a + ":" + p;
    assert s[|a|] == ':' && s[|a| + 1..] == p;
    LastIndexUnique(s, ':', |a|);
  }

  /** Characters before a suffix. */
  lemma Contained(a: string, b: string, c: char)
    ensures c in a + b <==> c in a || c in b
  {
  }

  lemma FirstInLeft(a: string, b: string, c: char)
    requires c in a
    ensures IndexByte(a + b, c) == IndexByte(a, c)
  {
    var k := IndexByte(a, c);
    assert (a + b)[..k] == a[..k] && (a + b)[k] == a[k];
    IndexUnique(a + b, c, k);
  }

  lemma FirstInRight(a: string, b: string, c: char)
    requires c !in a && b != "" && b[0] == c
    ensures IndexByte(a + b, c) == |a|
  {
    assert (a + b)[..|a|] == a && (a + b)[|a|] == c;
    IndexUnique(a + b, c, |a|);
  }

  lemma ClosingOfJoined(a: string, rest: string)
    requires NoBrackets(rest)
    ensures IndexByte(a + rest, ']') == IndexByte(a, ']')
  {
    if ']' in a {
      FirstInLeft(a, rest, ']');
    } else {
      Contained(a, rest, ']');
    }
  }

  lemma OpeningOfJoined(a: string, rest: string)
    requires a != "" && NoBrackets(rest)
    ensures '[' in (a + rest)[1..] <==> '[' in a[1..]
  {
    assert (a + rest)[1..] == a[1..] + rest;
    Contained(a[1..], rest, '[');
  }

  /** A port adds no brackets to a host. */
  lemma BracketsOfJoined(a: string, p: string, s: string)
    requires a != "" && NoBrackets(p) && s == a + ":" + p
    ensures IndexByte(s, ']') == IndexByte(a, ']')
    ensures '[' in s[1..] <==> '[' in a[1..]
    ensures s[0] == a[0] && ']' !in s[|a|..]
  {
    var rest := ":" + p;
    assert s == a + rest && s[|a|..] == rest;
    assert NoBrackets(rest);
    ClosingOfJoined(a, rest);
    OpeningOfJoined(a, rest);
  }

  /** A string that starts with a bracket splits when the bracket closes right before the port. */
  lemma SplitWhenClosed(s: string, n: nat)
    requires 0 < n < |s| && LastIndexByte(s, ':') == n && s[0] == '[' && ']' !in s[n..]
    ensures SplitHostPort(s).Some? <==> IndexByte(s, ']') == n - 1 && '[' !in s[1..]
  {
  }

  lemma SplitOfOpened(a: string, p: string, s: string)
    requires a != "" && a[0] == '[' && ':' !in p && NoBrackets(p) && s == a + ":" + p
    ensures SplitHostPort(s).Some? <==> IndexByte(a, ']') == |a| - 1 && '[' !in a[1..]
  {
    LastColon(a, p);
    BracketsOfJoined(a, p, s);
    SplitWhenClosed(s, |a|);
  }

  lemma SplitWhenUnopened(s: string, n: nat)
    requires n < |s| && LastIndexByte(s, ':') == n && s[0] != '[' && ':' !in s[..n]
    ensures SplitHostPort(s).Some? <==> NoBrackets(s)
  {
  }

  lemma SplitOfUnopened(a: string, p: string, s: string)
    requires (a == "" || a[0] != '[') && ':' !in a && ':' !in p && NoBrackets(p) && s == a + ":" + p
    ensures SplitHostPort(s).Some? <==> NoBrackets(a)
  {
    var rest := ":" + p;
    LastColon(a, p);
    assert s[..|a|] == a && s == a + rest && s[0] != '[' && NoBrackets(rest);
    Contained(a, rest, '[');
    Contained(a, rest, ']');
    SplitWhenUnopened(s, |a|);
  }

  lemma BracketsAround(h: string)
    ensures IndexByte(InBrackets(h), ']') == |h| + 1 <==> ']' !in h
    ensures '[' in InBrackets(h)[1..] <==> '[' in h
  {
    var a := InBrackets(h);
    assert a[1..] == h + "]";
    if ']' in h {
      FirstInLeft("[" + h, "]", ']');
      assert IndexByte("[" + h, ']') < |h| + 1;
    } else {
      FirstInRight("[" + h, "]", ']');
    }
    Contained(h, "]", '[');
  }

  lemma SplitOfBracketed(h: string, p: string)
    requires ':' !in p && NoBrackets(p)
    ensures SplitHostPort(InBrackets(h) + ":" + p).Some? <==> NoBrackets(h)
  {
    BracketsAround(h);
    SplitOfOpened(InBrackets(h), p, InBrackets(h) + ":" + p);
  }

  lemma SplitOfNoColon(h: string, p: string)
    requires ':' !in h && ':' !in p && NoBrackets(p)
    ensures SplitHostPort(h + ":" + p).Some? <==> NoBrackets(h) || Bracketed(h)
  {
    if h != "" && h[0] == '[' {
      SplitOfOpened(h, p, h + ":" + p);
    } else {
      SplitOfUnopened(h, p, h + ":" + p);
    }
  }

  lemma JoinedSplits(h: string, p: string)
    requires ':' !in p && NoBrackets(p)
    ensures Splits(JoinHostPort(h, p)) <==> NoBrackets(h) || Bracketed(h)
  {
    if ':' in h {
      SplitOfBracketed(h, p);
      LastColon(InBrackets(h), p);
    } else {
      SplitOfNoColon(h, p);
      LastColon(h, p);
    }
  }

  lemma HostnameSplits(h: string, p: string)
    requires ':' !in p && NoBrackets(p)
    ensures Splits(h) && Splits(JoinHostPort(h, p)) <==> Plain(h) || Bracketed(h)
  {
    JoinedSplits(h, p);
    if ':' in h && NoBrackets(h) {
      PlainSplits(h);
    }
  }

  lemma PlainSplits(h: string)
    requires NoBrackets(h) && ':' in h
    ensures SplitHostPort(h).Some? <==> AtMostOneColon(h)
  {
    var first, last := IndexByte(h, ':'), LastIndexByte(h, ':');
    if first != last {
      assert first < last;
      assert h[..last][first] == ':';
    }
  }

  /** The condition is exact: all domains of the URL split if and only if it keeps its name. */
  lemma KeepsNameExactly(u: URL)
    ensures (forall d :: d in GetDomainsForURL(u) ==> Splits(d)) <==> KeepsName(u)
  {
    var domains := GetDomainsForURL(u);
    assert domains[0] in domains;
    if !IsTCP(u) && !OwnPort(u) {
      DefaultPortIsPlain(u);
      HostnameSplits(Hostname(u.host), DefaultPort(u));
      assert domains[1] in domains;
    }
  }

  // --- IPv6 literals ---

  /** Has no brackets of its own and at least two colons. */
  predicate IPv6Literal(h: string) {
    NoBrackets(h) && !AtMostOneColon(h)
  }

  /** The last colon of a bracketed literal is inside the brackets, which close last. */
  lemma ColonInBrackets(h: string)
    requires NoBrackets(h) && ':' in h
    ensures var host := InBrackets(h);
            0 < LastIndexByte(host, ':') < |h| + 1 && IndexByte(host, ']') == |h| + 1
  {
    var host := InBrackets(h);
    assert host == ("[" + h) + "]";
    assert host[..|h| + 1] == "[" + h;
    IndexUnique(host, ']', |h| + 1);
    var k :| 0 <= k < |h| && h[k] == ':';
    assert host[k + 1] == ':';
  }

  lemma InvalidPort(port: string, c: char)
    requires |port| >= 2 && port[|port| - 1] == c && !('0' <= c <= '9')
    ensures !ValidOptionalPort(port)
  {
    assert port[1..][|port| - 2] == c;
    assert c in port[1..];
  }

  lemma NoPortInBrackets(h: string)
    requires NoBrackets(h) && ':' in h
    ensures SplitHostPort(InBrackets(h)) == None
    ensures Hostname(InBrackets(h)) == h
  {
    var host, colon := InBrackets(h), LastIndexByte(InBrackets(h), ':');
    ColonInBrackets(h);
    InvalidPort(host[colon..], ']');
    assert host[1..|host| - 1] == h;
  }

  lemma SplitInBrackets(h: string, p: string)
    requires NoBrackets(h) && NoBrackets(p) && ':' !in p
    ensures SplitHostPort(InBrackets(h) + ":" + p) == Some((h, p))
  {
    var a, s := InBrackets(h), InBrackets(h) + ":" + p;
    SplitOfBracketed(h, p);
    LastColon(a, p);
    BracketsAround(h);
    BracketsOfJoined(a, p, s);
    assert s[|a| + 1..] == p && s[1..|h| + 1] == h && s[0] == '[';
  }

  /** An IPv6 source on the default port has two domains that are named alike but stripped differently. */
  lemma IPv6Domains(u: URL, h: string)
    requires !IsTCP(u) && IPv6Literal(h) && u.host == InBrackets(h)
    ensures GetDomainsForURL(u) == [h, JoinHostPort(h, DefaultPort(u))]
    ensures TLSName(h) == h && |StripPort(h)| < |h|
    ensures TLSName(JoinHostPort(h, DefaultPort(u))) == h == StripPort(JoinHostPort(h, DefaultPort(u)))
    ensures !KeepsName(u)
  {
    NoPortInBrackets(h);
    DefaultPortIsPlain(u);
    PlainSplits(h);
    StripPortIsTLSName(h);
    SplitInBrackets(h, DefaultPort(u));
    StripPortIsTLSName(JoinHostPort(h, DefaultPort(u)));
  }

  // --- Which URLs match their own domains ---

  lemma SplitIsShorter(s: string)
    ensures SplitHostPort(s).Some? ==> |SplitHostPort(s).value.0| < |s|
  {
  }

  lemma HostnameIsNotLonger(host: string)
    ensures |Hostname(host)| <= |host|
  {
  }

  predicate AllDigits(p: string) {
    forall c :: c in p ==> '0' <= c <= '9'
  }

  lemma CutAtPort(s: string, colon: nat)
    requires LastIndexByte(s, ':') == colon && AllDigits(s[colon + 1..])
    ensures Hostname(s) == (var h := s[..colon]; if |h| >= 2 && h[0] == '[' && h[|h| - 1] == ']' then h[1..|h| - 1] else h)
  {
    assert s[colon..][1..] == s[colon + 1..];
    assert ValidOptionalPort(s[colon..]);
  }

  lemma SliceOfPrefix(s: string, a: nat, b: nat, c: nat)
    requires a <= b <= c <= |s|
    ensures s[..c][a..b] == s[a..b]
  {
  }

  /** A host that splits with a numeric port has the split host as its hostname. */
  lemma HostnameOfSplit(s: string)
    requires SplitHostPort(s).Some? && AllDigits(SplitHostPort(s).value.1)
    ensures Hostname(s) == SplitHostPort(s).value.0
  {
    var colon := LastIndexByte(s, ':');
    CutAtPort(s, colon);
    if s[0] == '[' {
      assert IndexByte(s, ']') == colon - 1 && colon >= 2;
      SliceOfPrefix(s, 1, colon - 1, colon);
      assert s[..colon][colon - 1] == ']';
    } else if colon > 0 {
      assert s[..colon][0] == s[0];
    }
  }

  lemma SplitHasNoBrackets(s: string)
    requires SplitHostPort(s).Some?
    ensures NoBrackets(SplitHostPort(s).value.0)
  {
    var h := SplitHostPort(s).value.0;
    if s[0] == '[' {
      var end := IndexByte(s, ']');
      assert forall k :: 0 <= k < |h| ==> h[k] == s[1..][k] && h[k] == s[..end][k + 1];
    } else {
      assert forall c :: c in h ==> c in s;
    }
  }

  /** Joining and splitting a host without brackets of its own. */
  lemma SplitOfJoin(h: string, p: string)
    requires NoBrackets(h) && NoBrackets(p) && ':' !in p
    ensures SplitHostPort(JoinHostPort(h, p)) == Some((h, p))
  {
    if ':' in h {
      SplitInBrackets(h, p);
    } else {
      SplitOfJoined(h, p);
    }
  }

  /**
   With its port spelled out, a URL matches its domains unless its hostname splits
   again; without, when its host is its hostname and has no brackets.
   */
  predicate MatchesAll(u: URL) {
    || IsTCP(u) || OwnPort(u)
    || (if SplitHostPort(u.host).Some? then SplitHostPort(Hostname(u.host)).None?
        else Hostname(u.host) == u.host && NoBrackets(u.host))
  }

  lemma SpelledOutMatches(u: URL)
    requires !IsTCP(u) && !OwnPort(u) && SplitHostPort(u.host).Some?
    ensures HostMatchesDomain(u, Hostname(u.host)) <==> SplitHostPort(Hostname(u.host)).None?
    ensures HostMatchesDomain(u, JoinHostPort(Hostname(u.host), DefaultPort(u)))
  {
    DefaultPortIsPlain(u);
    HostnameOfSplit(u.host);
    SplitHasNoBrackets(u.host);
    SplitIsShorter(Hostname(u.host));
    SplitOfJoin(Hostname(u.host), DefaultPort(u));
  }

  lemma UnsplitMatches(u: URL)
    requires !IsTCP(u) && SplitHostPort(u.host).None?
    ensures HostMatchesDomain(u, Hostname(u.host)) <==> Hostname(u.host) == u.host
  {
    SplitIsShorter(Hostname(u.host));
    HostnameIsNotLonger(u.host);
  }

  lemma BracketedIsStripped(h: string)
    requires Bracketed(h)
    ensures Hostname(h) != h
  {
  }

  lemma UnsplitJoinMatches(u: URL)
    requires !IsTCP(u) && SplitHostPort(u.host).None? && Hostname(u.host) == u.host
    ensures HostMatchesDomain(u, JoinHostPort(u.host, DefaultPort(u))) <==> NoBrackets(u.host)
  {
    var joined := JoinHostPort(u.host, DefaultPort(u));
    DefaultPortIsPlain(u);
    if NoBrackets(u.host) {
      SplitOfJoin(u.host, DefaultPort(u));
    } else {
      JoinedSplits(u.host, DefaultPort(u));
      if Bracketed(u.host) {
        BracketedIsStripped(u.host);
      }
      assert |joined| > |u.host|;
    }
  }

  /** The condition is exact, for every URL. */
  lemma MatchesAllExactly(u: URL)
    ensures (forall d :: d in GetDomainsForURL(u) ==> HostMatchesDomain(u, d)) <==> MatchesAll(u)
  {
    var domains := GetDomainsForURL(u);
    if !IsTCP(u) && !OwnPort(u) {
      var h := Hostname(u.host);
      assert domains == [h, JoinHostPort(h, DefaultPort(u))];
      assert domains[0] in domains && domains[1] in domains;
      if SplitHostPort(u.host).Some? {
        SpelledOutMatches(u);
      } else {
        UnsplitMatches(u);
        if h == u.host {
          UnsplitJoinMatches(u);
        }
      }
    }
  }

  /** A host that does not split is not matched by a join of another host. */
  lemma OtherJoinMisses(u: URL, h: string)
    requires SplitHostPort(u.host).None? && NoBrackets(h) && h != u.host
    ensures !HostMatchesDomain(u, JoinHostPort(h, DefaultPort(u)))
  {
    DefaultPortIsPlain(u);
    SplitOfJoin(h, DefaultPort(u));
  }

  /** An IPv6 source on the default port, not spelled out, matches none of its domains. */
  lemma IPv6MatchesNothing(u: URL, h: string, d: string)
    requires !IsTCP(u) && IPv6Literal(h) && u.host == InBrackets(h) && d in GetDomainsForURL(u)
    ensures !HostMatchesDomain(u, d)
  {
    NoPortInBrackets(h);
    assert |u.host| > |h|;
    assert GetDomainsForURL(u) == [h, JoinHostPort(h, DefaultPort(u))];
    if d == h {
      UnsplitMatches(u);
    } else {
      OtherJoinMisses(u, h);
    }
  }

  /** A URL without IPv6 literal always does. */
  lemma PlainMatchesAll(u: URL)
    requires Plain(u.host)
    ensures MatchesAll(u)
  {
    forall d | d in GetDomainsForURL(u)
      ensures HostMatchesDomain(u, d)
    {
      DomainsMatchTheirURL(u, d);
    }
    MatchesAllExactly(u);
  }
}
