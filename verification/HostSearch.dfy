/** Envoy's search for the virtual host of a request, over all hosts of a side, and what the request gets there. */
module HostSearch {
  import opened Wrappers
  import opened Model
  import opened Sorting
  import opened RouteMatch
  import opened VirtualHost
  import opened HostRouting
  import opened RouteConfig
  import opened Routing
  import opened Redirects
  import MatchKey
  import Merging
  import RouteActions
  import Strings

  // ---------- Envoy's search ----------

  // How long the wildcard domain is that matches the authority; 0 if it does not. The star stands for one character or more.
  function SuffixLength(domain: string, authority: string): nat {
    if |domain| > 1 && domain[0] == '*' && |authority| >= |domain| && Strings.HasSuffix(authority, domain[1..]) then |domain| else 0
  }

  // A domain with a star in front is never taken for one with a star at the end.
  function PrefixLength(domain: string, authority: string): nat {
    if domain != "" && domain[0] != '*' && domain[|domain| - 1] == '*' && |authority| >= |domain|
       && Strings.HasPrefix(authority, domain[..|domain| - 1])
    then |domain| else 0
  }

  function Max(a: nat, b: nat): nat {
    if a < b then b else a
  }

  function Longest(domains: seq<string>, authority: string, length: (string, string) -> nat): nat {
    if domains == [] then 0 else Max(length(domains[0], authority), Longest(domains[1..], authority, length))
  }

  function ByLength(authority: string, length: (string, string) -> nat): VirtualHost -> nat {
    (vh: VirtualHost) => Longest(vh.domains, authority, length)
  }

  // The virtual host with the longest match, if there is any.
  function LongestHost(hosts: seq<VirtualHost>, measure: VirtualHost -> nat): Option<VirtualHost> {
    if hosts == [] then None
    else
      var rest := LongestHost(hosts[1..], measure);
      if measure(hosts[0]) > (if rest.Some? then measure(rest.value) else 0) then Some(hosts[0]) else rest
  }

  // The very domain, else the longest with a star in front, else the longest with a star at the end, else "*".
  ghost function Search(hosts: seq<VirtualHost>, authority: string): Option<VirtualHost> {
    var exact := HostByDomain(hosts, authority);
    var suffix := LongestHost(hosts, ByLength(authority, SuffixLength));
    var prefix := LongestHost(hosts, ByLength(authority, PrefixLength));
    if exact.Some? then exact else if suffix.Some? then suffix else if prefix.Some? then prefix else HostByDomain(hosts, "*")
  }

  // ---------- how well a host name stands for an authority ----------

  // The name with any port, or a name that itself ends in a star.
  function PortLength(host: string, authority: string): nat {
    if host == "*" then 0 else Max(PrefixLength(host, authority), PrefixLength(AnyPort(host), authority))
  }

  // Itself above a wildcard, the longer the better, above itself with a port, above "*"; 0 if not at all.
  function Rank(host: string, authority: string): (nat, nat) {
    if host == authority then (4, 0)
    else if SuffixLength(host, authority) > 0 then (3, |host|)
    else if PortLength(host, authority) > 0 then (2, PortLength(host, authority))
    else if host == "*" then (1, 0)
    else (0, 0)
  }

  predicate Above(a: (nat, nat), b: (nat, nat)) {
    a.0 > b.0 || (a.0 == b.0 && a.1 > b.1)
  }

  predicate Reaches(host: string, authority: string) {
    Rank(host, authority).0 > 0
  }

  lemma NoSuffixWithPort(host: string, authority: string)
    requires Literal(authority)
    ensures SuffixLength(AnyPort(host), authority) == 0
  {
    var port, n := AnyPort(host), |authority|;
    if n >= |port| {
      assert authority[n - 1] != '*' && port[1..][|port| - 2] == '*';
      assert authority[n - |port| + 1..][|port| - 2] == authority[n - 1];
    }
  }

  lemma LongestOfTwo(a: string, b: string, authority: string, length: (string, string) -> nat)
    ensures Longest([a], authority, length) == length(a, authority)
    ensures Longest([a, b], authority, length) == Max(length(a, authority), length(b, authority))
  {
    assert [a][1..] == [] && [a, b][1..] == [b] && [b][1..] == [];
    assert Longest([b], authority, length) == length(b, authority);
  }

  // What the search sees of a virtual host is the rank of its name.
  lemma DomainsMeasured(host: string, authority: string)
    requires Literal(authority)
    ensures authority in Domains(host) <==> host == authority
    ensures "*" in Domains(host) <==> host == "*"
    ensures Longest(Domains(host), authority, SuffixLength) == SuffixLength(host, authority)
    ensures Longest(Domains(host), authority, PrefixLength) == PortLength(host, authority)
  {
    var port := AnyPort(host);
    assert port[|port| - 1] == '*' && |port| > 1;
    NoSuffixWithPort(host, authority);
    LongestOfTwo(host, port, authority, SuffixLength);
    LongestOfTwo(host, port, authority, PrefixLength);
    if host != "*" {
      assert Domains(host) == [host, port] && host in Domains(host);
    }
  }

  // ---------- the search finds the most specific host ----------

  lemma {:induction false} LongestFound(hosts: seq<VirtualHost>, measure: VirtualHost -> nat)
    ensures var found := LongestHost(hosts, measure);
      if found.None? then forall vh | vh in hosts :: measure(vh) == 0
      else found.value in hosts && measure(found.value) > 0 && forall vh | vh in hosts :: measure(vh) <= measure(found.value)
  {
    if hosts != [] {
      LongestFound(hosts[1..], measure);
      assert hosts == [hosts[0]] + hosts[1..];
    }
  }

  ghost predicate Plain(hosts: seq<VirtualHost>) {
    forall vh | vh in hosts :: vh.domains == Domains(vh.name)
  }

  // Of the virtual hosts whose names stand for the authority, none is above the one found.
  ghost predicate Found(hosts: seq<VirtualHost>, authority: string, found: Option<VirtualHost>) {
    if found.None? then forall vh | vh in hosts :: !Reaches(vh.name, authority)
    else found.value in hosts && Reaches(found.value.name, authority)
         && forall vh | vh in hosts :: !Above(Rank(vh.name, authority), Rank(found.value.name, authority))
  }

  // A virtual host found by measure is the longest of those with a positive one.
  ghost predicate Tops(hosts: seq<VirtualHost>, found: Option<VirtualHost>, measure: string -> nat) {
    if found.None? then forall vh | vh in hosts :: measure(vh.name) == 0
    else found.value in hosts && measure(found.value.name) > 0 && forall vh | vh in hosts :: measure(vh.name) <= measure(found.value.name)
  }

  ghost predicate Names(hosts: seq<VirtualHost>, found: Option<VirtualHost>, name: string) {
    if found.None? then forall vh | vh in hosts :: vh.name != name else found.value in hosts && found.value.name == name
  }

  function SuffixOf(authority: string): string -> nat {
    host => SuffixLength(host, authority)
  }

  function PortOf(authority: string): string -> nat {
    host => PortLength(host, authority)
  }

  lemma SuffixTops(hosts: seq<VirtualHost>, authority: string)
    requires Plain(hosts) && Literal(authority)
    ensures Tops(hosts, LongestHost(hosts, ByLength(authority, SuffixLength)), SuffixOf(authority))
  {
    LongestFound(hosts, ByLength(authority, SuffixLength));
    forall vh | vh in hosts ensures ByLength(authority, SuffixLength)(vh) == SuffixLength(vh.name, authority) {
      DomainsMeasured(vh.name, authority);
    }
  }

  lemma PortTops(hosts: seq<VirtualHost>, authority: string)
    requires Plain(hosts) && Literal(authority)
    ensures Tops(hosts, LongestHost(hosts, ByLength(authority, PrefixLength)), PortOf(authority))
  {
    LongestFound(hosts, ByLength(authority, PrefixLength));
    forall vh | vh in hosts ensures ByLength(authority, PrefixLength)(vh) == PortLength(vh.name, authority) {
      DomainsMeasured(vh.name, authority);
    }
  }

  lemma DomainNames(hosts: seq<VirtualHost>, authority: string, domain: string)
    requires Plain(hosts) && Literal(authority) && domain in [authority, "*"]
    ensures Names(hosts, HostByDomain(hosts, domain), domain)
  {
    FirstMatchExists(hosts, HasDomain(domain));
    FirstMatchHolds(hosts, HasDomain(domain));
    forall vh | vh in hosts ensures HasDomain(domain)(vh) <==> vh.name == domain {
      DomainsMeasured(vh.name, authority);
    }
  }

  lemma RanksDecide(
    hosts: seq<VirtualHost>, authority: string,
    exact: Option<VirtualHost>, suffix: Option<VirtualHost>, prefix: Option<VirtualHost>, any: Option<VirtualHost>)
    requires Literal(authority) && Names(hosts, exact, authority) && Names(hosts, any, "*")
    requires Tops(hosts, suffix, SuffixOf(authority)) && Tops(hosts, prefix, PortOf(authority))
    ensures Found(hosts, authority, if exact.Some? then exact else if suffix.Some? then suffix else if prefix.Some? then prefix else any)
  {
  }

  // The search finds, among all the names that stand for the authority, one that none is above.
  lemma SearchFinds(hosts: seq<VirtualHost>, authority: string)
    requires Plain(hosts) && Literal(authority)
    ensures Found(hosts, authority, Search(hosts, authority))
  {
    DomainNames(hosts, authority, authority);
    DomainNames(hosts, authority, "*");
    SuffixTops(hosts, authority);
    PortTops(hosts, authority);
    RanksDecide(
      hosts, authority, HostByDomain(hosts, authority), LongestHost(hosts, ByLength(authority, SuffixLength)),
      LongestHost(hosts, ByLength(authority, PrefixLength)), HostByDomain(hosts, "*"));
  }

  lemma {:induction false} FirstMatchHolds<T>(s: seq<T>, p: T -> bool)
    ensures FirstMatch(s, p).Some? ==> p(FirstMatch(s, p).value)
  {
    if s != [] {
      FirstMatchHolds(s[1..], p);
    }
  }

  // ---------- what a request gets ----------

  function HostsIn(config: Option<RouteConfiguration>): seq<VirtualHost> {
    if config.Some? then config.value.virtualHosts else []
  }

  // The configuration of the side has a virtual host of this name.
  ghost predicate On(http: seq<HTTPListener>, secure: bool, enforceHTTPS: bool, host: string) {
    HostsFor(Entries(http), secure) != [] && OnSide(Entries(http), secure, enforceHTTPS, host)
  }

  ghost predicate RedirectedOn(http: seq<HTTPListener>, secure: bool, enforceHTTPS: bool, host: string) {
    !secure && enforceHTTPS && host in HostsFor(Entries(http), true)
  }

  // The routes of the host are such that the configuration can tell them apart and answer them.
  ghost predicate Fit(http: seq<HTTPListener>, secure: bool, enforceHTTPS: bool, host: string) {
    if RedirectedOn(http, secure, enforceHTTPS, host) then
      var routes := RoutesFor(Entries(http), host, true);
      MatchKey.KeysExact(routes) && forall r | r in routes :: MatchKey.OneKind(r)
    else Servable(RoutesFor(Entries(http), host, secure))
  }

  // What the model asks for at a host: nothing for an authority that its wildcard does not accept, a redirect where HTTPS
  // is enforced, the answer of the best route otherwise.
  ghost predicate Due(
    http: seq<HTTPListener>, secure: bool, enforceHTTPS: bool, suffix: bool, host: string, req: Request, answer: Option<Action>)
  {
    if !AuthorityAccepted(host, suffix, req) then answer.None?
    else if RedirectedOn(http, secure, enforceHTTPS, host) then
      answer == if SomeSwappedAsks(RoutesFor(Entries(http), host, true), req) then Some(HttpsRedirect) else None
    else RouteActions.Answer(RoutesFor(Entries(http), host, secure), req, if http == [] then 0 else http[0].port, answer)
  }

  lemma NotAccepted(r: HTTPRoute, host: string, suffix: bool, req: Request)
    requires !AuthorityAccepted(host, suffix, req)
    ensures !Accepts(MatchOf(r, host, suffix), req) && !Accepts(SwappedMatchOf(r, host, suffix), req)
  {
    var m :| m in AuthorityMatchers(host, suffix) && !HeaderAccepts(m, req);
    assert m in MatchOf(r, host, suffix).headers && m in SwappedMatchOf(r, host, suffix).headers;
  }

  lemma RoutesRefused(routes: seq<HTTPRoute>, host: string, suffix: bool, port: nat, req: Request)
    requires !AuthorityAccepted(host, suffix, req) && forall r | r in routes :: Answerable(r)
    ensures Routed(HostRoutes(routes, host, suffix, port), req) == None
  {
    var emit := RouteEmitter(host, suffix, port);
    var entries := Merging.Emitted(routes, MatchKey.Key, Backendless, emit, |routes|);
    SortMember(Map(Present, entries), RouteLess);
    MapMembers(Present, entries);
    NoNilRoute(routes, MatchKey.Key, host, suffix, port);
    forall e | e in entries ensures !AcceptedBy(req)(Present(e)) {
      Merging.EmittedOrigin(routes, MatchKey.Key, Backendless, emit, |routes|, e);
      var i: nat :| i < |routes| && e == emit(Merging.GroupAt(routes, MatchKey.Key, i));
      NotAccepted(Merging.GroupAt(routes, MatchKey.Key, i)[0], host, suffix, req);
    }
    FirstMatchExists(HostRoutes(routes, host, suffix, port), AcceptedBy(req));
  }

  lemma RedirectsRefused(routes: seq<HTTPRoute>, host: string, suffix: bool, req: Request)
    requires !AuthorityAccepted(host, suffix, req)
    ensures Routed(RedirectRoutes(routes, host, suffix), req) == None
  {
    var emit := RedirectEmitter(host, suffix);
    var entries := Merging.Emitted(routes, MatchKey.Key, Never, emit, |routes|);
    SortMember(entries, RouteLess);
    forall e | e in entries ensures !AcceptedBy(req)(e) {
      Merging.EmittedOrigin(routes, MatchKey.Key, Never, emit, |routes|, e);
      var i: nat :| i < |routes| && e == emit(Merging.GroupAt(routes, MatchKey.Key, i));
      HeadOfGroup(routes, i);
      NotAccepted(Merging.GroupAt(routes, MatchKey.Key, i)[0], host, suffix, req);
    }
    FirstMatchExists(RedirectRoutes(routes, host, suffix), AcceptedBy(req));
  }

  lemma HostAnswers(http: seq<HTTPListener>, secure: bool, enforceHTTPS: bool, suffix: bool, vh: VirtualHost, req: Request)
    requires vh in HostsIn(Configuration(http, secure, enforceHTTPS, suffix)) && WellFormed(req)
    requires Fit(http, secure, enforceHTTPS, vh.name)
    ensures On(http, secure, enforceHTTPS, vh.name) && vh.domains == Domains(vh.name)
    ensures Due(http, secure, enforceHTTPS, suffix, vh.name, req, Routed(vh.routes, req))
  {
    var entries, host, port := Entries(http), vh.name, FirstPort(http);
    SelectedHosts(entries, secure, enforceHTTPS);
    HostsOnSide(entries, secure, enforceHTTPS, suffix, port, vh);
    if RedirectedOn(http, secure, enforceHTTPS, host) {
      assert vh.routes == RedirectRoutes(RoutesFor(entries, host, true), host, suffix);
      if AuthorityAccepted(host, suffix, req) {
        RedirectsExactly(RoutesFor(entries, host, true), host, suffix, req);
      } else {
        RedirectsRefused(RoutesFor(entries, host, true), host, suffix, req);
      }
    } else {
      assert vh.routes == HostRoutes(RoutesFor(entries, host, secure), host, suffix, port);
      if AuthorityAccepted(host, suffix, req) {
        HostRoutesAsExpected(RoutesFor(entries, host, secure), host, suffix, port, req);
        RouteActions.ExpectedServes(RoutesFor(entries, host, secure), req, port);
      } else {
        RoutesRefused(RoutesFor(entries, host, secure), host, suffix, port, req);
      }
    }
  }

  lemma HostsAre(http: seq<HTTPListener>, secure: bool, enforceHTTPS: bool, suffix: bool, host: string)
    ensures (exists vh :: vh in HostsIn(Configuration(http, secure, enforceHTTPS, suffix)) && vh.name == host)
       <==> On(http, secure, enforceHTTPS, host)
  {
    var hosts := HostsIn(Configuration(http, secure, enforceHTTPS, suffix));
    OneVirtualHostPerName(http, secure, enforceHTTPS, suffix);
    MapMembers(NameOf, hosts);
    if On(http, secure, enforceHTTPS, host) {
      assert host in Map(NameOf, hosts);
    }
    if vh :| vh in hosts && vh.name == host {
      assert NameOf(vh) in Map(NameOf, hosts);
    }
  }

  lemma HostsArePlain(http: seq<HTTPListener>, secure: bool, enforceHTTPS: bool, suffix: bool)
    ensures Plain(HostsIn(Configuration(http, secure, enforceHTTPS, suffix)))
  {
    forall vh | vh in HostsIn(Configuration(http, secure, enforceHTTPS, suffix)) ensures vh.domains == Domains(vh.name) {
      HostsOnSide(Entries(http), secure, enforceHTTPS, suffix, FirstPort(http), vh);
    }
  }

  // Of the hosts of the side that stand for the authority, none is above this one.
  ghost predicate MostSpecific(http: seq<HTTPListener>, secure: bool, enforceHTTPS: bool, host: string, authority: string) {
    && On(http, secure, enforceHTTPS, host) && Reaches(host, authority)
    && forall h | On(http, secure, enforceHTTPS, h) :: !Above(Rank(h, authority), Rank(host, authority))
  }

  // The request gets what is due at the most specific host that stands for its authority, or finds no host if none does.
  ghost predicate Answered(http: seq<HTTPListener>, secure: bool, enforceHTTPS: bool, suffix: bool, found: Option<VirtualHost>, req: Request) {
    if found.None? then forall h | On(http, secure, enforceHTTPS, h) :: !Reaches(h, req.authority)
    else
      && MostSpecific(http, secure, enforceHTTPS, found.value.name, req.authority)
      && Due(http, secure, enforceHTTPS, suffix, found.value.name, req, Routed(found.value.routes, req))
  }

  // So for every request, to a host by name, by wildcard, with a port or to none.
  lemma RequestAnswered(http: seq<HTTPListener>, secure: bool, enforceHTTPS: bool, suffix: bool, req: Request)
    requires WellFormed(req) && Literal(req.authority)
    requires forall h | On(http, secure, enforceHTTPS, h) && Reaches(h, req.authority) :: Fit(http, secure, enforceHTTPS, h)
    ensures Answered(http, secure, enforceHTTPS, suffix, Search(HostsIn(Configuration(http, secure, enforceHTTPS, suffix)), req.authority), req)
  {
    var hosts := HostsIn(Configuration(http, secure, enforceHTTPS, suffix));
    var found := Search(hosts, req.authority);
    HostsArePlain(http, secure, enforceHTTPS, suffix);
    SearchFinds(hosts, req.authority);
    forall h | On(http, secure, enforceHTTPS, h) ensures exists vh :: vh in hosts && vh.name == h {
      HostsAre(http, secure, enforceHTTPS, suffix, h);
    }
    if found.Some? {
      HostsAre(http, secure, enforceHTTPS, suffix, found.value.name);
      HostAnswers(http, secure, enforceHTTPS, suffix, found.value, req);
    }
  }

  // ---------- names that the API server admits ----------

  // A domain name without a colon, whose only star is a first label of its own; or "*".
  ghost predicate Admitted(host: string) {
    host == "*" || (host != "" && ':' !in host && '*' !in host[1..] && (host[0] == '*' ==> |host| > 1 && host[1] == '.'))
  }

  // Among those, one at most is the most specific.
  lemma MostSpecificUnique(a: string, b: string, authority: string)
    requires Literal(authority) && Admitted(a) && Admitted(b)
    requires Reaches(a, authority) && Rank(a, authority) == Rank(b, authority)
    ensures a == b
  {
    if SuffixLength(a, authority) > 0 && a != authority && b != authority {
      assert a == "*" + authority[|authority| - |a| + 1..] && b == "*" + authority[|authority| - |b| + 1..];
    } else if Rank(a, authority).0 == 2 {
      NamedWithPort(a, authority);
      NamedWithPort(b, authority);
    }
  }

  lemma NamedWithPort(host: string, authority: string)
    requires Literal(authority) && Admitted(host) && PortLength(host, authority) > 0
    ensures PortLength(host, authority) == |host| + 2 && |authority| >= |host| + 2 && host == authority[..|host|] && authority[|host|] == ':'
  {
    assert AnyPort(host) == host + ":*";
    assert AnyPort(host)[..|host| + 1] == host + ":";
    assert host == "*" || |host| == 1 || host[|host| - 1] == host[1..][|host| - 2];
    assert authority[..|host| + 1] == host + ":" && authority[..|host| + 1][..|host|] == authority[..|host|];
  }

  // An address with colons stands for itself, in brackets, with any port.
  lemma BracketsReached(host: string, port: string)
    requires ':' in host && port != ""
    ensures Reaches(host, "[" + host + "]:" + port)
  {
    var authority, domain := "[" + host + "]:" + port, AnyPort(host);
    assert domain == "[" + host + "]:" + "*" && domain[..|domain| - 1] == "[" + host + "]:";
    assert authority[..|domain| - 1] == domain[..|domain| - 1];
    assert PrefixLength(domain, authority) > 0;
  }

  // A host that stands for a name is meant to stand for it with a port too. It does if and only if it is no wildcard, or "*":
  // the domain made of a wildcard and any port begins with a star, so that its last star stands for itself.
  lemma PortReachesIff(host: string, name: string, port: string)
    requires Admitted(host) && Reaches(host, name) && Literal(name) && ':' !in name
    requires Literal(port) && ':' !in port && '.' !in port && port != ""
    ensures Reaches(host, name + ":" + port) <==> host == name || host == "*"
  {
    var authority := name + ":" + port;
    assert authority[|name|] == ':';
    if host == name {
      assert AnyPort(host) == host + ":*" && AnyPort(host)[..|host| + 1] == host + ":";
      assert authority[..|host| + 1] == host + ":";
      assert host != "*" ==> PrefixLength(AnyPort(host), authority) > 0;
    } else if host != "*" {
      PlainReach(host, name);
      WildcardPort(host, name, port);
    }
  }

  lemma PlainReach(host: string, name: string)
    requires Admitted(host) && Reaches(host, name) && Literal(name) && ':' !in name && host != name && host != "*"
    ensures SuffixLength(host, name) > 0
  {
    if PortLength(host, name) > 0 {
      NamedWithPort(host, name);
    }
  }

  lemma WildcardPort(host: string, name: string, port: string)
    requires Admitted(host) && SuffixLength(host, name) > 0
    requires Literal(port) && ':' !in port && '.' !in port && port != "" && Literal(name)
    ensures !Reaches(host, name + ":" + port)
  {
    var authority, rest := name + ":" + port, host[1..];
    var n := |authority|;
    if n >= |rest| {
      var k := n - |rest|;
      if k <= |name| {
        assert authority[k..][|name| - k] == ':';
      } else {
        assert authority[k..][0] == port[k - |name| - 1];
      }
    }
  }
}
