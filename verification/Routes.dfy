/**
 Policies compiled to SNI chains, virtual hosts and routes, and the authorizer
 that matches the same requests again.
 */
module Routes {
  import opened Options
  import opened Strings
  import opened HostPort

  datatype Policy = Policy(source: URL, prefix: string, path: string, regex: string)

  datatype RouteMatch = ConnectMatch | RegexMatch(regex: string) | PathMatch(path: string) | PrefixMatch(prefix: string)

  /** A policy route remembers the index of its policy. */
  datatype Route = Route(policy: nat, matcher: RouteMatch)

  datatype Request = Request(scheme: string, host: string, rawPath: string)

  /** What the two regular-expression engines decide; no result below depends on it. */
  datatype Engines = Engines(envoy: (string, string) -> bool, authorizer: (string, URL, string) -> bool)

  /** The request path without its query. */
  function PathOf(rawPath: string): string {
    var i := IndexByte(rawPath, '?');
    if i == -1 then rawPath else rawPath[..i]
  }

  /** What a path is without its query. */
  lemma PathWithoutQuery(path: string, query: string)
    requires '?' !in path
    ensures PathOf(path) == path && PathOf(path + "?" + query) == path
  {
    var raw := path + "?" + query;
    assert raw[|path|] == '?' && raw[..|path|] == path;
    IndexUnique(raw, '?', |path|);
  }

  // --- The proxy's side ---

  function MkRouteMatch(p: Policy): RouteMatch {
    if IsTCP(p.source) then ConnectMatch
    else if p.regex != "" then RegexMatch(p.regex)
    else if p.path != "" then PathMatch(p.path)
    else if p.prefix != "" then PrefixMatch(p.prefix)
    else PrefixMatch("/")
  }

  predicate RouteMatches(e: Engines, m: RouteMatch, path: string) {
    match m
    case ConnectMatch => false
    case RegexMatch(regex) => e.envoy(regex, path)
    case PathMatch(p) => path == p
    case PrefixMatch(p) => p <= path
  }

  function PolicyRoutes(policies: seq<Policy>, domain: string): seq<Route> {
    if policies == [] then []
    else
      var n := |policies| - 1;
      PolicyRoutes(policies[..n], domain)
        + if HostMatchesDomain(policies[n].source, domain) then [Route(n, MkRouteMatch(policies[n]))] else []
  }

  lemma PolicyRoutesSnoc(policies: seq<Policy>, i: nat, domain: string)
    requires i < |policies|
    ensures PolicyRoutes(policies[..i + 1], domain)
         == PolicyRoutes(policies[..i], domain)
          + if HostMatchesDomain(policies[i].source, domain) then [Route(i, MkRouteMatch(policies[i]))] else []
  {
    assert policies[..i + 1][..i] == policies[..i];
  }

  method BuildPolicyRoutes(policies: seq<Policy>, domain: string) returns (routes: seq<Route>)
    ensures routes == PolicyRoutes(policies, domain)
  {
    routes := [];
    for i := 0 to |policies|
      invariant routes == PolicyRoutes(policies[..i], domain)
    {
      PolicyRoutesSnoc(policies, i, domain);
      var matches := HostMatchesDomain(policies[i].source, domain);
      if matches {
        routes := routes + [Route(i, MkRouteMatch(policies[i]))];
      }
    }
    assert policies[..|policies|] == policies;
  }

  /** The policy of the first route that matches. */
  function FirstRoute(e: Engines, routes: seq<Route>, path: string): Option<nat> {
    if routes == [] then None
    else if RouteMatches(e, routes[0].matcher, path) then Some(routes[0].policy)
    else FirstRoute(e, routes[1..], path)
  }

  // --- The authorizer's side ---

  function CheckRequestURL(r: Request): URL {
    URL(r.scheme, GetDomainsForURL(URL(r.scheme, r.host))[0])
  }

  predicate PolicyMatches(e: Engines, p: Policy, u: URL, path: string) {
    && p.source.host == u.host
    && (p.prefix != "" ==> p.prefix <= path)
    && (p.path != "" ==> path == p.path)
    && (p.regex != "" ==> e.authorizer(p.regex, u, path))
  }

  /** The index of the first policy that matches the request. */
  method GetMatchingPolicy(e: Engines, policies: seq<Policy>, r: Request) returns (found: Option<nat>)
    ensures found == MatchingPolicy(e, policies, CheckRequestURL(r), PathOf(r.rawPath))
  {
    var u, path := CheckRequestURL(r), PathOf(r.rawPath);
    for i := 0 to |policies|
      invariant forall j :: 0 <= j < i ==> !PolicyMatches(e, policies[j], u, path)
    {
      if PolicyMatches(e, policies[i], u, path) {
        FirstPolicyAt(e, policies, u, path, i);
        return Some(i);
      }
    }
    NoPolicyMatches(e, policies, u, path);
    found := None;
  }

  /** Searching from the end: an earlier match wins over a later one. */
  function MatchingPolicy(e: Engines, policies: seq<Policy>, u: URL, path: string): Option<nat> {
    if policies == [] then None
    else
      var n := |policies| - 1;
      var earlier := MatchingPolicy(e, policies[..n], u, path);
      if earlier.Some? then earlier
      else if PolicyMatches(e, policies[n], u, path) then Some(n)
      else None
  }

  lemma {:induction false} NoPolicyMatches(e: Engines, policies: seq<Policy>, u: URL, path: string)
    requires forall j :: 0 <= j < |policies| ==> !PolicyMatches(e, policies[j], u, path)
    ensures MatchingPolicy(e, policies, u, path) == None
  {
    if policies != [] {
      NoPolicyMatches(e, policies[..|policies| - 1], u, path);
    }
  }

  lemma {:induction false} FirstPolicyAt(e: Engines, policies: seq<Policy>, u: URL, path: string, i: nat)
    requires i < |policies| && PolicyMatches(e, policies[i], u, path)
    requires forall j :: 0 <= j < i ==> !PolicyMatches(e, policies[j], u, path)
    ensures MatchingPolicy(e, policies, u, path) == Some(i)
    decreases |policies|
  {
    var n := |policies| - 1;
    if i == n {
      NoPolicyMatches(e, policies[..n], u, path);
    } else {
      FirstPolicyAt(e, policies[..n], u, path, i);
    }
  }

  /** The index of the first match, and none exactly when nothing matches. */
  lemma {:induction false} MatchingPolicyIsFirst(e: Engines, policies: seq<Policy>, u: URL, path: string)
    ensures match MatchingPolicy(e, policies, u, path)
            case Some(i) =>
              i < |policies| && PolicyMatches(e, policies[i], u, path)
              && forall j :: 0 <= j < i ==> !PolicyMatches(e, policies[j], u, path)
            case None => forall j :: 0 <= j < |policies| ==> !PolicyMatches(e, policies[j], u, path)
  {
    if policies != [] {
      MatchingPolicyIsFirst(e, policies[..|policies| - 1], u, path);
    }
  }

  /** A policy for the host whose prefix begins the path and whose path it is, as far as they are given. */
  predicate IsFor(p: Policy, host: string, path: string) {
    p.source.host == host && (p.prefix == "" || p.prefix <= path) && (p.path == "" || p.path == path)
  }

  /**
   What the authorizer selects for a request without a port: the first policy for its
   host and path, whatever its query.
   */
  lemma SelectedPolicy(e: Engines, policies: seq<Policy>, r: Request, path: string, query: string)
    requires r.scheme == "https" && Plain(r.host) && ':' !in r.host && '?' !in path
    requires r.rawPath == path || r.rawPath == path + "?" + query
    requires forall i :: 0 <= i < |policies| ==> policies[i].regex == ""
    ensures match MatchingPolicy(e, policies, CheckRequestURL(r), PathOf(r.rawPath))
            case Some(i) =>
              i < |policies| && IsFor(policies[i], r.host, path)
              && forall j :: 0 <= j < i ==> !IsFor(policies[j], r.host, path)
            case None => forall j :: 0 <= j < |policies| ==> !IsFor(policies[j], r.host, path)
  {
    PathWithoutQuery(path, query);
    DomainsOfPlain(URL("https", r.host));
    MatchingPolicyIsFirst(e, policies, CheckRequestURL(r), path);
  }

  /** The default port does not matter to the authorizer. */
  lemma DefaultPortIsDropped(host: string, rawPath: string)
    requires Plain(host) && ':' !in host
    ensures CheckRequestURL(Request("https", host + ":443", rawPath)) == URL("https", host)
         == CheckRequestURL(Request("https", host, rawPath))
  {
    assert host + ":443" == host + ":" + DefaultPort(URL("https", host));
    SpelledOutDomains(URL("https", host + ":443"), host);
    DomainsByScheme("https", host);
  }

  // --- Agreement ---

  /** The proxy gives the policy's route this request. */
  predicate ProxyMatches(e: Engines, p: Policy, r: Request) {
    HostMatchesDomain(p.source, r.host) && RouteMatches(e, MkRouteMatch(p), PathOf(r.rawPath))
  }

  predicate AuthorizerMatches(e: Engines, p: Policy, r: Request) {
    PolicyMatches(e, p, CheckRequestURL(r), PathOf(r.rawPath))
  }

  predicate IsRequest(r: Request) {
    r.scheme == "https" && Plain(r.host) && r.rawPath != "" && r.rawPath[0] == '/'
  }

  predicate PlainHttps(p: Policy) {
    p.source.scheme == "https" && Plain(p.source.host) && p.regex == ""
  }

  /** The port 443 is spelled out in the source. */
  predicate ExplicitDefaultPort(p: Policy) {
    var split := SplitHostPort(p.source.host);
    split.Some? && split.value.1 == "443"
  }

  predicate PathsCompatible(p: Policy) {
    p.prefix == "" || p.path == "" || p.prefix <= p.path
  }

  lemma HostsAgree(source: URL, host: string)
    requires source.scheme == "https" && Plain(source.host) && Plain(host)
    requires !(SplitHostPort(source.host).Some? && SplitHostPort(source.host).value.1 == "443")
    ensures HostMatchesDomain(source, host) <==> source.host == GetDomainsForURL(URL("https", host))[0]
  {
    SplitOfPlain(source.host);
    SplitOfPlain(host);
    DomainsOfPlain(URL("https", host));
  }

  lemma PolicyAgrees(e: Engines, p: Policy, r: Request)
    requires PlainHttps(p) && !ExplicitDefaultPort(p) && PathsCompatible(p) && IsRequest(r)
    ensures ProxyMatches(e, p, r) <==> AuthorizerMatches(e, p, r)
  {
    HostsAgree(p.source, r.host);
    PathStartsWithSlash(r.rawPath);
    assert CheckRequestURL(r).host == GetDomainsForURL(URL("https", r.host))[0];
    PathsAgree(e, p, PathOf(r.rawPath));
  }

  lemma PathsAgree(e: Engines, p: Policy, path: string)
    requires PlainHttps(p) && PathsCompatible(p) && "/" <= path
    ensures RouteMatches(e, MkRouteMatch(p), path) <==> (p.prefix != "" ==> p.prefix <= path) && (p.path != "" ==> path == p.path)
  {
  }

  lemma PathStartsWithSlash(rawPath: string)
    requires rawPath != "" && rawPath[0] == '/'
    ensures "/" <= PathOf(rawPath)
  {
    var i := IndexByte(rawPath, '?');
    assert i != 0;
  }

  /** A path that a request can have. */
  predicate RequestPath(path: string) {
    path != "" && path[0] == '/' && '?' !in path
  }

  /** A request that the proxy sends to the policy's route. */
  function SampleRequest(p: Policy): Request {
    Request("https", p.source.host, if p.path != "" then p.path else if p.prefix != "" then p.prefix else "/")
  }

  /**
   Exactly when the two sides agree on all requests: no spelled-out default port,
   and a path that has the prefix if both are given.
   */
  lemma PolicyAgreesExactly(e: Engines, p: Policy)
    requires PlainHttps(p)
    requires (p.path != "" ==> RequestPath(p.path)) && (p.prefix != "" ==> RequestPath(p.prefix))
    ensures (forall r :: IsRequest(r) ==> (ProxyMatches(e, p, r) <==> AuthorizerMatches(e, p, r)))
       <==> !ExplicitDefaultPort(p) && PathsCompatible(p)
  {
    if !ExplicitDefaultPort(p) && PathsCompatible(p) {
      forall r | IsRequest(r)
        ensures ProxyMatches(e, p, r) <==> AuthorizerMatches(e, p, r)
      {
        PolicyAgrees(e, p, r);
      }
    } else {
      var r := SampleRequest(p);
      assert IsRequest(r) && PathOf(r.rawPath) == r.rawPath;
      assert ProxyMatches(e, p, r);
      if ExplicitDefaultPort(p) {
        SplitOfPlain(p.source.host);
        DomainsOfPlain(p.source);
      }
      assert !AuthorizerMatches(e, p, r);
    }
  }

  lemma {:induction false} FirstRouteSnoc(e: Engines, routes: seq<Route>, last: Route, path: string)
    ensures FirstRoute(e, routes + [last], path)
         == if FirstRoute(e, routes, path).Some? then FirstRoute(e, routes, path)
            else if RouteMatches(e, last.matcher, path) then Some(last.policy) else None
  {
    if routes == [] {
      assert routes + [last] == [last];
    } else {
      FirstRouteSnoc(e, routes[1..], last, path);
      assert (routes + [last])[1..] == routes[1..] + [last];
    }
  }

  predicate GoodPolicies(policies: seq<Policy>) {
    forall i :: 0 <= i < |policies| ==>
      PlainHttps(policies[i]) && !ExplicitDefaultPort(policies[i]) && PathsCompatible(policies[i])
  }

  /** The first matching route of a virtual host and the first matching policy are the same. */
  lemma {:induction false} RoutesAgree(e: Engines, policies: seq<Policy>, r: Request)
    requires GoodPolicies(policies) && IsRequest(r)
    ensures FirstRoute(e, PolicyRoutes(policies, r.host), PathOf(r.rawPath))
         == MatchingPolicy(e, policies, CheckRequestURL(r), PathOf(r.rawPath))
  {
    if policies != [] {
      var n := |policies| - 1;
      RoutesAgree(e, policies[..n], r);
      PolicyAgrees(e, policies[n], r);
      var routes := PolicyRoutes(policies[..n], r.host);
      if HostMatchesDomain(policies[n].source, r.host) {
        FirstRouteSnoc(e, routes, Route(n, MkRouteMatch(policies[n])), PathOf(r.rawPath));
      } else {
        assert PolicyRoutes(policies, r.host) == routes;
      }
    }
  }

  // --- Chains and virtual hosts ---

  datatype Configuration = Configuration(
    addr: string,
    grpcAddr: string,
    isAuthenticate: bool,
    isAuthorize: bool,
    isDataBroker: bool,
    isProxy: bool,
    authenticateURL: URL,
    authorizeURLs: seq<URL>,
    dataBrokerURLs: seq<URL>,
    forwardAuthURL: Option<URL>,
    policies: seq<Policy>)

  /** All URLs whose domains are served on an address. */
  function ServedURLs(c: Configuration, addr: string): seq<URL> {
    ServedIf(c.isAuthenticate && addr == c.addr, [c.authenticateURL])
    + ServedIf(c.isAuthorize && addr == c.grpcAddr, c.authorizeURLs)
    + ServedIf(c.isDataBroker && addr == c.grpcAddr, c.dataBrokerURLs)
    + ServedIf(c.isProxy && addr == c.addr, ProxiedURLs(c))
  }

  function ServedIf(served: bool, urls: seq<URL>): seq<URL> {
    if served then urls else []
  }

  function ProxiedURLs(c: Configuration): seq<URL> {
    seq(|c.policies|, i requires 0 <= i < |c.policies| => c.policies[i].source)
    + if c.forwardAuthURL.Some? then [c.forwardAuthURL.value] else []
  }

  /** Exactly which URLs are served on an address. */
  lemma ServedExactly(c: Configuration, addr: string, u: URL)
    ensures u in ServedURLs(c, addr) <==>
              || (addr == c.addr && c.isAuthenticate && u == c.authenticateURL)
              || (addr == c.grpcAddr && c.isAuthorize && u in c.authorizeURLs)
              || (addr == c.grpcAddr && c.isDataBroker && u in c.dataBrokerURLs)
              || (addr == c.addr && c.isProxy && (c.forwardAuthURL == Some(u) || exists p :: p in c.policies && p.source == u))
  {
    var sources := seq(|c.policies|, i requires 0 <= i < |c.policies| => c.policies[i].source);
    assert u in sources <==> exists p :: p in c.policies && p.source == u by {
      if p :| p in c.policies && p.source == u {
        var i :| 0 <= i < |c.policies| && c.policies[i] == p;
        assert sources[i] == u;
      }
    }
  }

  /** The domains of every proxied policy are served. */
  lemma PolicyDomainsAreServed(c: Configuration, i: nat, d: string)
    requires c.isProxy && i < |c.policies| && d in GetDomainsForURL(c.policies[i].source)
    ensures d in DomainsOf(ServedURLs(c, c.addr))
  {
    var proxied, all := ProxiedURLs(c), ServedURLs(c, c.addr);
    DomainsOfMember(proxied, i, d);
    DomainsOfConcat(all[..|all| - |proxied|], proxied);
    assert all == all[..|all| - |proxied|] + proxied;
  }

  function DomainsOf(urls: seq<URL>): set<string> {
    if urls == [] then {}
    else DomainsOf(urls[..|urls| - 1]) + Elements(GetDomainsForURL(urls[|urls| - 1]))
  }

  function Elements(s: seq<string>): set<string> {
    set x | x in s
  }

  /** So are those of the forward-auth URL. */
  lemma ForwardAuthIsServed(c: Configuration, d: string)
    requires c.isProxy && c.forwardAuthURL.Some? && d in GetDomainsForURL(c.forwardAuthURL.value)
    ensures d in DomainsOf(ServedURLs(c, c.addr))
  {
    var all := ServedURLs(c, c.addr);
    ServedExactly(c, c.addr, c.forwardAuthURL.value);
    var i :| 0 <= i < |all| && all[i] == c.forwardAuthURL.value;
    DomainsOfMember(all, i, d);
  }

  lemma {:induction false} DomainsOfConcat(a: seq<URL>, b: seq<URL>)
    ensures DomainsOf(a + b) == DomainsOf(a) + DomainsOf(b)
  {
    if b == [] {
      assert a + b == a;
    } else {
      var init, last := b[..|b| - 1], Elements(GetDomainsForURL(b[|b| - 1]));
      DomainsOfConcat(a, init);
      assert (a + b)[..|a + b| - 1] == a + init && (a + b)[|a + b| - 1] == b[|b| - 1];
      assert DomainsOf(a + b) == DomainsOf(a + init) + last;
    }
  }

  lemma {:induction false} DomainsOfMember(urls: seq<URL>, i: nat, d: string)
    requires i < |urls| && d in GetDomainsForURL(urls[i])
    ensures d in DomainsOf(urls)
    decreases |urls|
  {
    if i < |urls| - 1 {
      DomainsOfMember(urls[..|urls| - 1], i, d);
    }
  }

  method AddDomains(found: set<string>, served: bool, urls: seq<URL>) returns (domains: set<string>)
    ensures domains == found + DomainsOf(ServedIf(served, urls))
  {
    domains := found;
    if served {
      for i := 0 to |urls|
        invariant domains == found + DomainsOf(urls[..i])
      {
        assert urls[..i + 1][..i] == urls[..i];
        var hosts := GetDomainsForURL(urls[i]);
        domains := domains + Elements(hosts);
      }
      assert urls[..|urls|] == urls;
    }
  }

  lemma ServedDomains(c: Configuration, addr: string)
    ensures DomainsOf(ServedURLs(c, addr))
         == DomainsOf(ServedIf(c.isAuthenticate && addr == c.addr, [c.authenticateURL]))
          + DomainsOf(ServedIf(c.isAuthorize && addr == c.grpcAddr, c.authorizeURLs))
          + DomainsOf(ServedIf(c.isDataBroker && addr == c.grpcAddr, c.dataBrokerURLs))
          + DomainsOf(ServedIf(c.isProxy && addr == c.addr, ProxiedURLs(c)))
  {
    var a := ServedIf(c.isAuthenticate && addr == c.addr, [c.authenticateURL]);
    var b := ServedIf(c.isAuthorize && addr == c.grpcAddr, c.authorizeURLs);
    var d := ServedIf(c.isDataBroker && addr == c.grpcAddr, c.dataBrokerURLs);
    var e := ServedIf(c.isProxy && addr == c.addr, ProxiedURLs(c));
    DomainsOfConcat(a, b);
    DomainsOfConcat(a + b, d);
    DomainsOfConcat(a + b + d, e);
  }

  method GetAllRouteableDomains(c: Configuration, addr: string) returns (domains: seq<string>)
    ensures StrictlySorted(domains)
    ensures forall d :: d in domains <==> d in DomainsOf(ServedURLs(c, addr))
  {
    var found := AddDomains({}, c.isAuthenticate && addr == c.addr, [c.authenticateURL]);
    found := AddDomains(found, c.isAuthorize && addr == c.grpcAddr, c.authorizeURLs);
    found := AddDomains(found, c.isDataBroker && addr == c.grpcAddr, c.dataBrokerURLs);
    found := AddDomains(found, c.isProxy && addr == c.addr, ProxiedURLs(c));
    ServedDomains(c, addr);
    domains := Sorted(found);
  }

  method GetAllTLSDomains(all: seq<string>) returns (names: seq<string>)
    ensures StrictlySorted(names)
    ensures forall t :: t in names <==> exists d :: d in all && TLSName(d) == t
  {
    names := Sorted(set d | d in all :: TLSName(d));
  }

  function DomainsForTLS(all: seq<string>, name: string): seq<string> {
    if all == [] then []
    else
      var d := all[|all| - 1];
      DomainsForTLS(all[..|all| - 1], name) + if StripPort(d) == name then [d] else []
  }

  lemma {:induction false} DomainsForTLSMember(all: seq<string>, name: string, d: string)
    ensures d in DomainsForTLS(all, name) <==> d in all && StripPort(d) == name
  {
    if all != [] {
      DomainsForTLSMember(all[..|all| - 1], name, d);
    }
  }

  /** A filter chain; the name "*" takes every server name that no other chain takes. */
  datatype Chain = Chain(name: string, domains: seq<string>)

  method BuildFilterChains(all: seq<string>) returns (chains: seq<Chain>, names: seq<string>)
    ensures StrictlySorted(names)
    ensures forall t :: t in names <==> exists d :: d in all && TLSName(d) == t
    ensures |chains| == |names| + 1 && chains[|names|] == Chain("*", all)
    ensures forall i :: 0 <= i < |names| ==> chains[i] == Chain(names[i], DomainsForTLS(all, names[i]))
  {
    names := GetAllTLSDomains(all);
    chains := [];
    for i := 0 to |names|
      invariant |chains| == i
      invariant forall j :: 0 <= j < i ==> chains[j] == Chain(names[j], DomainsForTLS(all, names[j]))
    {
      var routeable := GetRouteableDomainsForTLSDomain(all, names[i]);
      chains := chains + [Chain(names[i], routeable)];
    }
    chains := chains + [Chain("*", all)];
  }

  method GetRouteableDomainsForTLSDomain(all: seq<string>, name: string) returns (filtered: seq<string>)
    ensures filtered == DomainsForTLS(all, name)
  {
    filtered := [];
    for i := 0 to |all|
      invariant filtered == DomainsForTLS(all[..i], name)
    {
      assert all[..i + 1][..i] == all[..i];
      if StripPort(all[i]) == name {
        filtered := filtered + [all[i]];
      }
    }
    assert all[..|all|] == all;
  }

  /** Every domain is in exactly one named chain, and no named chain is empty. */
  ghost predicate Partitioned(all: seq<string>, names: seq<string>) {
    && (forall d :: d in all ==> exists i :: 0 <= i < |names| && d in DomainsForTLS(all, names[i]))
    && (forall d, i, j ::
          (0 <= i < |names| && 0 <= j < |names|
           && d in DomainsForTLS(all, names[i]) && d in DomainsForTLS(all, names[j])) ==> i == j)
    && (forall i :: 0 <= i < |names| ==> DomainsForTLS(all, names[i]) != [])
  }

  /** What the chain names are computed to be. */
  ghost predicate NamesOf(all: seq<string>, names: seq<string>) {
    StrictlySorted(names) && forall t :: t in names <==> exists d :: d in all && TLSName(d) == t
  }

  /** Every domain is in the chain of its own server name and in no other named chain. */
  ghost predicate InOwnChain(all: seq<string>, names: seq<string>, d: string) {
    forall i :: 0 <= i < |names| ==> (d in DomainsForTLS(all, names[i]) <==> names[i] == TLSName(d))
  }

  lemma NameIndex(all: seq<string>, names: seq<string>, d: string) returns (i: nat)
    requires NamesOf(all, names) && d in all
    ensures i < |names| && names[i] == TLSName(d)
  {
    assert TLSName(d) in names;
    i :| 0 <= i < |names| && names[i] == TLSName(d);
  }

  /** A domain is in its own chain exactly when its port can be split off, or it has none. */
  lemma InOwnChainExactly(all: seq<string>, names: seq<string>, d: string)
    requires NamesOf(all, names) && d in all
    ensures InOwnChain(all, names, d) <==> Splits(d)
  {
    var i := NameIndex(all, names, d);
    StripPortIsTLSName(d);
    DomainsForTLSMember(all, names[i], d);
    if Splits(d) {
      forall j | 0 <= j < |names|
        ensures d in DomainsForTLS(all, names[j]) <==> names[j] == TLSName(d)
      {
        DomainsForTLSMember(all, names[j], d);
      }
    }
  }

  lemma OwnChainsPartition(all: seq<string>, names: seq<string>)
    requires NamesOf(all, names)
    requires forall d :: d in all ==> InOwnChain(all, names, d)
    ensures Partitioned(all, names)
  {
    forall d | d in all
      ensures exists i :: 0 <= i < |names| && d in DomainsForTLS(all, names[i])
    {
      var i := NameIndex(all, names, d);
      assert d in DomainsForTLS(all, names[i]);
    }
    forall i | 0 <= i < |names|
      ensures DomainsForTLS(all, names[i]) != []
    {
      assert names[i] in names;
      var d :| d in all && TLSName(d) == names[i];
      assert InOwnChain(all, names, d);
    }
    NamedChainsDisjoint(all, names);
  }

  lemma NamedChainsDisjoint(all: seq<string>, names: seq<string>)
    requires StrictlySorted(names)
    ensures forall d, i, j ::
              (0 <= i < |names| && 0 <= j < |names|
               && d in DomainsForTLS(all, names[i]) && d in DomainsForTLS(all, names[j])) ==> i == j
  {
    forall d, i, j | 0 <= i < |names| && 0 <= j < |names|
                     && d in DomainsForTLS(all, names[i]) && d in DomainsForTLS(all, names[j])
      ensures i == j
    {
      DomainsForTLSMember(all, names[i], d);
      DomainsForTLSMember(all, names[j], d);
      LessTrichotomy(names[i], names[j]);
    }
  }

  lemma {:induction false} DomainsOfOwner(urls: seq<URL>, d: string) returns (u: URL)
    requires d in DomainsOf(urls)
    ensures u in urls && d in GetDomainsForURL(u)
  {
    var n := |urls| - 1;
    if d in GetDomainsForURL(urls[n]) {
      u := urls[n];
    } else {
      u := DomainsOfOwner(urls[..n], d);
    }
  }

  /**
   Main result on chains, for every configuration: each served domain is in exactly
   the chain of its own server name if and only if every served URL keeps its name,
   and then the named chains partition the domains.
   */
  lemma ChainsPartitionExactly(c: Configuration, addr: string, all: seq<string>, names: seq<string>)
    requires forall d :: d in all <==> d in DomainsOf(ServedURLs(c, addr))
    requires NamesOf(all, names)
    ensures (forall d :: d in all ==> InOwnChain(all, names, d)) <==> forall u :: u in ServedURLs(c, addr) ==> KeepsName(u)
    ensures (forall u :: u in ServedURLs(c, addr) ==> KeepsName(u)) ==> Partitioned(all, names)
  {
    var urls := ServedURLs(c, addr);
    forall d | d in all
      ensures InOwnChain(all, names, d) <==> Splits(d)
    {
      InOwnChainExactly(all, names, d);
    }
    if forall u :: u in urls ==> KeepsName(u) {
      forall d | d in all
        ensures Splits(d)
      {
        var u := DomainsOfOwner(urls, d);
        KeepsNameExactly(u);
      }
      OwnChainsPartition(all, names);
    } else {
      var i :| 0 <= i < |urls| && !KeepsName(urls[i]);
      KeepsNameExactly(urls[i]);
      var d :| d in GetDomainsForURL(urls[i]) && !Splits(d);
      DomainsOfMember(urls, i, d);
      assert d in all;
    }
  }

  predicate SomeStripped(all: seq<string>, t: string) {
    exists d :: d in all && StripPort(d) == t
  }

  /**
   For any list of domains: the chains partition them exactly when the names that
   stripping ports gives are the names of the chains.
   */
  lemma PartitionedExactly(all: seq<string>, names: seq<string>)
    requires StrictlySorted(names)
    ensures Partitioned(all, names) <==>
              (forall d :: d in all ==> StripPort(d) in names) && forall t :: t in names ==> SomeStripped(all, t)
  {
    if Partitioned(all, names) {
      forall d | d in all
        ensures StripPort(d) in names
      {
        var i :| 0 <= i < |names| && d in DomainsForTLS(all, names[i]);
        DomainsForTLSMember(all, names[i], d);
      }
      forall t | t in names
        ensures SomeStripped(all, t)
      {
        DomainsForTLSMember(all, t, DomainsForTLS(all, t)[0]);
      }
    }
    if (forall d :: d in all ==> StripPort(d) in names) && forall t :: t in names ==> SomeStripped(all, t) {
      SameNamesPartition(all, names);
    }
  }

  lemma SameNamesPartition(all: seq<string>, names: seq<string>)
    requires StrictlySorted(names)
    requires forall d :: d in all ==> StripPort(d) in names
    requires forall t :: t in names ==> SomeStripped(all, t)
    ensures Partitioned(all, names)
  {
    forall d | d in all
      ensures exists i :: 0 <= i < |names| && d in DomainsForTLS(all, names[i])
    {
      var i :| 0 <= i < |names| && names[i] == StripPort(d);
      DomainsForTLSMember(all, names[i], d);
    }
    forall i | 0 <= i < |names|
      ensures DomainsForTLS(all, names[i]) != []
    {
      assert SomeStripped(all, names[i]);
      var d :| d in all && StripPort(d) == names[i];
      DomainsForTLSMember(all, names[i], d);
    }
    NamedChainsDisjoint(all, names);
  }

  /** Without IPv6 literals, the chains of every configuration partition its domains. */
  lemma ServedChainsPartition(c: Configuration, addr: string, all: seq<string>, names: seq<string>)
    requires forall u :: u in ServedURLs(c, addr) ==> Plain(u.host)
    requires forall d :: d in all <==> d in DomainsOf(ServedURLs(c, addr))
    requires NamesOf(all, names)
    ensures Partitioned(all, names) && forall d :: d in all ==> InOwnChain(all, names, d)
  {
    forall u | u in ServedURLs(c, addr)
      ensures KeepsName(u)
    {
      PlainKeepsName(u);
    }
    ChainsPartitionExactly(c, addr, all, names);
  }

  lemma PlainKeepsName(u: URL)
    requires Plain(u.host)
    ensures KeepsName(u)
  {
    DomainsOfPlain(u);
    forall d | d in GetDomainsForURL(u)
      ensures Splits(d)
    {
      SplitOfPlain(d);
    }
    KeepsNameExactly(u);
  }

  /**
   Every served IPv6 source on the default port: its domain without port is not in
   the chain of its server name, which holds the domain with port, and it is in no
   named chain at all unless its first group is itself a served name.
   */
  lemma IPv6IsNotInItsChain(c: Configuration, addr: string, all: seq<string>, names: seq<string>, u: URL, h: string)
    requires forall d :: d in all <==> d in DomainsOf(ServedURLs(c, addr))
    requires NamesOf(all, names)
    requires u in ServedURLs(c, addr) && !IsTCP(u) && IPv6Literal(h) && u.host == InBrackets(h)
    ensures h in all && JoinHostPort(h, DefaultPort(u)) in DomainsForTLS(all, h) && h !in DomainsForTLS(all, h)
    ensures Partitioned(all, names) ==> StripPort(h) in names
  {
    var joined := JoinHostPort(h, DefaultPort(u));
    var urls := ServedURLs(c, addr);
    var i :| 0 <= i < |urls| && urls[i] == u;
    IPv6Domains(u, h);
    DomainsOfMember(urls, i, h);
    DomainsOfMember(urls, i, joined);
    DomainsForTLSMember(all, h, h);
    DomainsForTLSMember(all, h, joined);
    PartitionedExactly(all, names);
  }

  lemma DomainsOfOne(u: URL, d: string)
    requires d in DomainsOf([u])
    ensures d in GetDomainsForURL(u)
  {
    assert [u][..0] == [];
  }

  lemma DomainOfIPv6(u: URL, h: string, d: string)
    requires !IsTCP(u) && IPv6Literal(h) && u.host == InBrackets(h) && d in DomainsOf([u])
    ensures d == h || d == JoinHostPort(h, DefaultPort(u))
  {
    DomainsOfOne(u, d);
    assert d in [h, JoinHostPort(h, DefaultPort(u))] by {
      IPv6Domains(u, h);
    }
  }

  lemma DomainsOfOneIPv6(u: URL, h: string, all: seq<string>)
    requires !IsTCP(u) && IPv6Literal(h) && u.host == InBrackets(h)
    requires forall d :: d in all ==> d in DomainsOf([u])
    ensures forall d :: d in all ==> d == h || d == JoinHostPort(h, DefaultPort(u))
  {
    forall d | d in all
      ensures d == h || d == JoinHostPort(h, DefaultPort(u))
    {
      DomainOfIPv6(u, h, d);
    }
  }

  lemma OnlyName(all: seq<string>, names: seq<string>, d: string, e: string, t: string)
    requires NamesOf(all, names) && TLSName(d) == t == TLSName(e)
    requires forall x :: x in all ==> x == d || x == e
    ensures forall x :: x in names ==> x == t
  {
  }

  /** Alone in its configuration, such a source breaks the partition. */
  lemma IPv6ChainsDoNotPartition(c: Configuration, addr: string, all: seq<string>, names: seq<string>, u: URL, h: string)
    requires forall d :: d in all <==> d in DomainsOf(ServedURLs(c, addr))
    requires NamesOf(all, names)
    requires ServedURLs(c, addr) == [u] && !IsTCP(u) && IPv6Literal(h) && u.host == InBrackets(h)
    ensures !Partitioned(all, names)
  {
    IPv6IsNotInItsChain(c, addr, all, names, u, h);
    DomainsOfOneIPv6(u, h, all);
    assert TLSName(h) == h == TLSName(JoinHostPort(h, DefaultPort(u))) && StripPort(h) != h by {
      IPv6Domains(u, h);
    }
    OnlyName(all, names, h, JoinHostPort(h, DefaultPort(u)), h);
  }

  /** A proxy with a single policy serves just its source. */
  lemma OnePolicyServes(c: Configuration, p: Policy)
    requires c.isProxy && !c.isAuthenticate && !c.isAuthorize && !c.isDataBroker
    requires c.policies == [p] && c.forwardAuthURL.None?
    ensures ServedURLs(c, c.addr) == [p.source]
  {
  }

  lemma StrippedHasNoColon(h: string)
    requires IPv6Literal(h)
    ensures ':' !in StripPort(h)
  {
  }

  lemma BorrowedNames(u: URL, h: string)
    requires !IsTCP(u) && IPv6Literal(h) && u.host == InBrackets(h)
    ensures var joined, g := JoinHostPort(h, DefaultPort(u)), StripPort(h);
            && TLSName(h) == h == TLSName(joined) == StripPort(joined) && TLSName(g) == g == StripPort(g) && !Splits(h)
  {
    IPv6Domains(u, h);
    StrippedHasNoColon(h);
    StripPortIsTLSName(h);
    StripPortIsTLSName(StripPort(h));
  }

  lemma IPv6DomainStrays(u: URL, h: string, d: string)
    requires !IsTCP(u) && IPv6Literal(h) && u.host == InBrackets(h) && d in GetDomainsForURL(u)
    ensures d == h || StripPort(d) == TLSName(d)
  {
    IPv6Domains(u, h);
    assert d in [h, JoinHostPort(h, DefaultPort(u))];
  }

  lemma KeptDomain(u: URL, d: string)
    requires KeepsName(u) && d in GetDomainsForURL(u)
    ensures StripPort(d) == TLSName(d)
  {
    KeepsNameExactly(u);
    StripPortIsTLSName(d);
  }

  /** Every domain of the configuration keeps its name, except the bare literal. */
  lemma OnlyLiteralStrays(c: Configuration, addr: string, all: seq<string>, u: URL, h: string, d: string)
    requires forall x :: x in all <==> x in DomainsOf(ServedURLs(c, addr))
    requires !IsTCP(u) && IPv6Literal(h) && u.host == InBrackets(h)
    requires forall x :: x in ServedURLs(c, addr) ==> x == u || KeepsName(x)
    requires d in all
    ensures d == h || StripPort(d) == TLSName(d)
  {
    var x := DomainsOfOwner(ServedURLs(c, addr), d);
    if x == u {
      IPv6DomainStrays(u, h, d);
    } else {
      KeptDomain(x, d);
    }
  }

  lemma InSomeChain(all: seq<string>, names: seq<string>, h: string, d: string)
    requires NamesOf(all, names) && d in all && (d == h || StripPort(d) == TLSName(d)) && StripPort(h) in names
    ensures exists i :: 0 <= i < |names| && d in DomainsForTLS(all, names[i])
  {
    var i: nat;
    if d == h {
      i :| 0 <= i < |names| && names[i] == StripPort(h);
    } else {
      i := NameIndex(all, names, d);
    }
    DomainsForTLSMember(all, names[i], d);
  }

  lemma ChainNotEmpty(all: seq<string>, names: seq<string>, h: string, joined: string, i: nat)
    requires NamesOf(all, names) && joined in all && TLSName(h) == h == StripPort(joined) && i < |names|
    requires forall d :: d in all ==> d == h || StripPort(d) == TLSName(d)
    ensures DomainsForTLS(all, names[i]) != []
  {
    assert names[i] in names;
    var d :| d in all && TLSName(d) == names[i];
    DomainsForTLSMember(all, names[i], if d == h then joined else d);
  }

  lemma BorrowedPartition(all: seq<string>, names: seq<string>, h: string, joined: string)
    requires NamesOf(all, names) && h in all && joined in all
    requires TLSName(h) == h == StripPort(joined)
    requires forall d :: d in all ==> d == h || StripPort(d) == TLSName(d)
    requires StripPort(h) in names
    ensures Partitioned(all, names)
  {
    forall d | d in all
      ensures exists i :: 0 <= i < |names| && d in DomainsForTLS(all, names[i])
    {
      InSomeChain(all, names, h, d);
    }
    forall i | 0 <= i < |names|
      ensures DomainsForTLS(all, names[i]) != []
    {
      ChainNotEmpty(all, names, h, joined, i);
    }
    NamedChainsDisjoint(all, names);
  }

  /**
   When an IPv6 source on the default port is the only served URL that does not keep
   its name, the chains still partition the domains exactly if the first group of the
   literal is itself a served name; the bare literal is then in that other chain.
   */
  lemma IPv6PartitionExactly(c: Configuration, addr: string, all: seq<string>, names: seq<string>, u: URL, h: string)
    requires forall d :: d in all <==> d in DomainsOf(ServedURLs(c, addr))
    requires NamesOf(all, names)
    requires u in ServedURLs(c, addr) && !IsTCP(u) && IPv6Literal(h) && u.host == InBrackets(h)
    requires forall x :: x in ServedURLs(c, addr) ==> x == u || KeepsName(x)
    ensures Partitioned(all, names) <==> StripPort(h) in names
    ensures !InOwnChain(all, names, h)
  {
    var joined := JoinHostPort(h, DefaultPort(u));
    IPv6IsNotInItsChain(c, addr, all, names, u, h);
    DomainsForTLSMember(all, h, joined);
    BorrowedNames(u, h);
    InOwnChainExactly(all, names, h);
    if StripPort(h) in names {
      forall d | d in all
        ensures d == h || StripPort(d) == TLSName(d)
      {
        OnlyLiteralStrays(c, addr, all, u, h, d);
      }
      BorrowedPartition(all, names, h, joined);
    }
  }

  /** A proxy with two policies serves just their sources. */
  lemma TwoPoliciesServe(c: Configuration, p: Policy, q: Policy)
    requires c.isProxy && !c.isAuthenticate && !c.isAuthorize && !c.isDataBroker
    requires c.policies == [p, q] && c.forwardAuthURL.None?
    ensures ServedURLs(c, c.addr) == [p.source, q.source]
  {
  }

  lemma StrippedIsPlain(h: string)
    requires IPv6Literal(h)
    ensures Plain(StripPort(h))
  {
    StrippedHasNoColon(h);
    assert forall x :: x in StripPort(h) ==> x in h;
  }

  lemma PlainNameServed(v: URL)
    requires !IsTCP(v) && ':' !in v.host && Plain(v.host)
    ensures v.host in GetDomainsForURL(v) && TLSName(v.host) == v.host && KeepsName(v)
  {
    DomainsOfPlain(v);
    PlainKeepsName(v);
  }

  /** Two policies, one for the literal and one for its first group: a partition with a domain in the wrong chain. */
  lemma BorrowedName(c: Configuration, p: Policy, q: Policy, all: seq<string>, names: seq<string>, h: string)
    requires c.isProxy && !c.isAuthenticate && !c.isAuthorize && !c.isDataBroker
    requires c.policies == [p, q] && c.forwardAuthURL.None?
    requires IPv6Literal(h) && p.source == URL("https", InBrackets(h)) && q.source == URL("https", StripPort(h))
    requires forall d :: d in all <==> d in DomainsOf(ServedURLs(c, c.addr))
    requires NamesOf(all, names)
    ensures Partitioned(all, names) && !InOwnChain(all, names, h)
  {
    var urls := ServedURLs(c, c.addr);
    TwoPoliciesServe(c, p, q);
    StrippedHasNoColon(h);
    StrippedIsPlain(h);
    PlainNameServed(q.source);
    assert urls[0] == p.source && urls[1] == q.source;
    DomainsOfMember(urls, 1, StripPort(h));
    assert TLSName(StripPort(h)) in names;
    IPv6PartitionExactly(c, c.addr, all, names, p.source, h);
  }

  lemma LoopbackIsIPv6()
    ensures IPv6Literal("::1") && InBrackets("::1") == "[::1]"
  {
    LastIndexUnique("::1", ':', 1);
  }

  /** For instance a proxy whose only policy is for the loopback address. */
  lemma LoopbackChainsDoNotPartition(c: Configuration, p: Policy, all: seq<string>, names: seq<string>)
    requires c.isProxy && !c.isAuthenticate && !c.isAuthorize && !c.isDataBroker
    requires c.policies == [p] && c.forwardAuthURL.None? && p.source == URL("https", "[::1]")
    requires forall d :: d in all <==> d in DomainsOf(ServedURLs(c, c.addr))
    requires NamesOf(all, names)
    ensures !Partitioned(all, names)
  {
    LoopbackIsIPv6();
    OnePolicyServes(c, p);
    IPv6ChainsDoNotPartition(c, c.addr, all, names, p.source, "::1");
  }

  predicate Increasing(routes: seq<Route>, bound: nat) {
    && (forall a :: 0 <= a < |routes| ==> routes[a].policy < bound)
    && (forall a, b :: 0 <= a < b < |routes| ==> routes[a].policy < routes[b].policy)
  }

  /** Routes keep the configuration order. */
  lemma {:induction false} RoutesInOrder(policies: seq<Policy>, domain: string)
    ensures Increasing(PolicyRoutes(policies, domain), |policies|)
  {
    if policies != [] {
      var n := |policies| - 1;
      var earlier := PolicyRoutes(policies[..n], domain);
      RoutesInOrder(policies[..n], domain);
      assert Increasing(earlier + [Route(n, MkRouteMatch(policies[n]))], n + 1);
      assert earlier + [] == earlier;
    }
  }

  /** Every route belongs to a policy whose source matches the domain. */
  lemma {:induction false} RouteBelongs(policies: seq<Policy>, domain: string, r: Route)
    requires r in PolicyRoutes(policies, domain)
    ensures r.policy < |policies|
    ensures r.matcher == MkRouteMatch(policies[r.policy]) && HostMatchesDomain(policies[r.policy].source, domain)
  {
    var n := |policies| - 1;
    if r in PolicyRoutes(policies[..n], domain) {
      RouteBelongs(policies[..n], domain, r);
    }
  }

  lemma {:induction false} PolicyIsListed(policies: seq<Policy>, i: nat, domain: string)
    requires i < |policies| && HostMatchesDomain(policies[i].source, domain)
    ensures Route(i, MkRouteMatch(policies[i])) in PolicyRoutes(policies, domain)
    decreases |policies|
  {
    var n := |policies| - 1;
    if i < n {
      assert policies[..n][i] == policies[i];
      PolicyIsListed(policies[..n], i, domain);
    }
  }

  /** A policy has its route in exactly the virtual hosts that its source matches. */
  lemma PolicyInVirtualHost(policies: seq<Policy>, i: nat, domain: string)
    requires i < |policies|
    ensures Route(i, MkRouteMatch(policies[i])) in PolicyRoutes(policies, domain)
       <==> HostMatchesDomain(policies[i].source, domain)
  {
    var r := Route(i, MkRouteMatch(policies[i]));
    if r in PolicyRoutes(policies, domain) {
      RouteBelongs(policies, domain, r);
    }
    if HostMatchesDomain(policies[i].source, domain) {
      PolicyIsListed(policies, i, domain);
    }
  }

  /** It has one in each virtual host named by its source if and only if the source matches all its domains. */
  lemma PolicyInItsVirtualHosts(policies: seq<Policy>, i: nat)
    requires i < |policies|
    ensures (forall d :: d in GetDomainsForURL(policies[i].source) ==>
               Route(i, MkRouteMatch(policies[i])) in PolicyRoutes(policies, d))
       <==> MatchesAll(policies[i].source)
  {
    MatchesAllExactly(policies[i].source);
    forall d
      ensures Route(i, MkRouteMatch(policies[i])) in PolicyRoutes(policies, d) <==> HostMatchesDomain(policies[i].source, d)
    {
      PolicyInVirtualHost(policies, i, d);
    }
  }

  /** An IPv6 source on the default port has no route in any of its virtual hosts. */
  lemma IPv6PolicyHasNoRoute(policies: seq<Policy>, i: nat, h: string, d: string)
    requires i < |policies| && !IsTCP(policies[i].source) && IPv6Literal(h) && policies[i].source.host == InBrackets(h)
    requires d in GetDomainsForURL(policies[i].source)
    ensures forall r :: r in PolicyRoutes(policies, d) ==> r.policy != i
  {
    forall r | r in PolicyRoutes(policies, d)
      ensures r.policy != i
    {
      RouteBelongs(policies, d, r);
      IPv6MatchesNothing(policies[i].source, h, d);
    }
  }

  /**
   The policy whose route the proxy uses: the chain is chosen by server name, the
   virtual host by host, and the proxy's own routes come first.
   */
  function ProxyPolicy(e: Engines, c: Configuration, all: seq<string>, names: seq<string>, own: string -> seq<RouteMatch>,
                       serverName: string, r: Request): Option<nat>
  {
    var domains := if serverName in names then DomainsForTLS(all, serverName) else all;
    if r.host !in domains || !c.isProxy then None
    else if exists m :: m in own(r.host) && RouteMatches(e, m, PathOf(r.rawPath)) then None
    else FirstRoute(e, PolicyRoutes(c.policies, r.host), PathOf(r.rawPath))
  }

  /** Main result: a request that reaches a policy route is authorized against the same policy. */
  lemma ProxyAndAuthorizerAgree(e: Engines, c: Configuration, all: seq<string>, names: seq<string>,
                                own: string -> seq<RouteMatch>, serverName: string, r: Request)
    requires GoodPolicies(c.policies) && IsRequest(r)
    requires ProxyPolicy(e, c, all, names, own, serverName, r).Some?
    ensures MatchingPolicy(e, c.policies, CheckRequestURL(r), PathOf(r.rawPath))
         == ProxyPolicy(e, c, all, names, own, serverName, r)
  {
    RoutesAgree(e, c.policies, r);
  }

  /** Conversely, an authorized policy is the one routed to, for server names that belong to the host. */
  lemma AuthorizedPolicyIsRouted(e: Engines, c: Configuration, all: seq<string>, names: seq<string>,
                                 own: string -> seq<RouteMatch>, serverName: string, r: Request)
    requires GoodPolicies(c.policies) && IsRequest(r) && c.isProxy
    requires forall d :: d in all <==> d in DomainsOf(ServedURLs(c, c.addr))
    requires serverName == TLSName(r.host) || serverName !in names
    requires !exists m :: m in own(r.host) && RouteMatches(e, m, PathOf(r.rawPath))
    ensures ProxyPolicy(e, c, all, names, own, serverName, r)
         == MatchingPolicy(e, c.policies, CheckRequestURL(r), PathOf(r.rawPath))
  {
    RoutesAgree(e, c.policies, r);
    SplitOfPlain(r.host);
    StripPortIsTLSName(r.host);
    DomainsForTLSMember(all, serverName, r.host);
    if FirstRoute(e, PolicyRoutes(c.policies, r.host), PathOf(r.rawPath)).Some? {
      RoutedHostIsServed(e, c, r);
    }
  }

  lemma RoutedHostIsServed(e: Engines, c: Configuration, r: Request)
    requires GoodPolicies(c.policies) && IsRequest(r) && c.isProxy
    requires FirstRoute(e, PolicyRoutes(c.policies, r.host), PathOf(r.rawPath)).Some?
    ensures r.host in DomainsOf(ServedURLs(c, c.addr))
  {
    var routes := PolicyRoutes(c.policies, r.host);
    var i := FirstRouteIsListed(e, routes, PathOf(r.rawPath));
    var n := routes[i].policy;
    RouteBelongs(c.policies, r.host, routes[i]);
    MatchedHostIsRouteable(c.policies[n].source, r.host);
    PolicyDomainsAreServed(c, n, r.host);
  }

  lemma {:induction false} FirstRouteIsListed(e: Engines, routes: seq<Route>, path: string) returns (i: nat)
    requires FirstRoute(e, routes, path).Some?
    ensures i < |routes| && routes[i].policy == FirstRoute(e, routes, path).value
  {
    if RouteMatches(e, routes[0].matcher, path) {
      i := 0;
    } else {
      i := FirstRouteIsListed(e, routes[1..], path);
      i := i + 1;
    }
  }

  /** A plain https source is served under every host that it matches. */
  lemma MatchedHostIsRouteable(source: URL, host: string)
    requires source.scheme == "https" && Plain(source.host) && Plain(host) && HostMatchesDomain(source, host)
    ensures host in GetDomainsForURL(source)
  {
    SplitOfPlain(source.host);
    SplitOfPlain(host);
    DomainsOfPlain(source);
  }
}
