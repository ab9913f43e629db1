/** End to end: the route configurations route requests as the model's routes ask. */
module Routing {
  import opened Wrappers
  import opened Model
  import opened Sorting
  import opened RouteMatch
  import opened VirtualHost
  import opened HostRouting
  import opened RouteConfig
  import Strings
  import MatchKey

  // ---------- names ----------

  lemma HostNames(entries: seq<Entry>, secure: bool, enforceHTTPS: bool, suffix: bool, listenerPort: nat)
    ensures Map(NameOf, VirtualHosts(entries, secure, enforceHTTPS, suffix, listenerPort))
         == RedirectedHosts(entries, secure, enforceHTTPS) + ServedHosts(entries, secure, enforceHTTPS)
  {
    var redirect, serve := VirtualHostOn(entries, true, true, suffix, listenerPort), VirtualHostOn(entries, secure, false, suffix, listenerPort);
    var redirected, served := RedirectedHosts(entries, secure, enforceHTTPS), ServedHosts(entries, secure, enforceHTTPS);
    MapConcat(NameOf, Map(redirect, redirected), Map(serve, served));
    MapInverse(redirect, NameOf, redirected);
    MapInverse(serve, NameOf, served);
  }

  ghost predicate OnSide(entries: seq<Entry>, secure: bool, enforceHTTPS: bool, h: string) {
    h in HostsFor(entries, secure) || (!secure && enforceHTTPS && h in HostsFor(entries, true))
  }

  lemma SelectedHosts(entries: seq<Entry>, secure: bool, enforceHTTPS: bool)
    ensures Distinct(RedirectedHosts(entries, secure, enforceHTTPS)) && Distinct(ServedHosts(entries, secure, enforceHTTPS))
    ensures forall h :: h in RedirectedHosts(entries, secure, enforceHTTPS) <==> !secure && enforceHTTPS && h in HostsFor(entries, true)
    ensures forall h :: h in ServedHosts(entries, secure, enforceHTTPS)
                   <==> h in HostsFor(entries, secure) && h !in RedirectedHosts(entries, secure, enforceHTTPS)
  {
    var redirected, unique := RedirectedHosts(entries, secure, enforceHTTPS), Unique(HostsFor(entries, secure));
    UniqueContents(HostsFor(entries, true));
    UniqueContents(HostsFor(entries, secure));
    FilterDistinct(unique, NotIn(redirected));
    FilterMember(unique, NotIn(redirected));
    assert forall h :: NotIn(redirected)(h) <==> h !in redirected;
  }

  // Virtual hosts are listed by strictly ascending name: one for each host of the side, plus the hosts that
  // enforced HTTPS redirects.
  lemma SortedHostNames(entries: seq<Entry>, secure: bool, enforceHTTPS: bool, suffix: bool, listenerPort: nat)
    ensures var names := Map(NameOf, StableSort(VirtualHosts(entries, secure, enforceHTTPS, suffix, listenerPort), ByName));
      StrictlyAscending(names, Strings.Less) && forall h :: h in names <==> OnSide(entries, secure, enforceHTTPS, h)
  {
    var hosts := VirtualHosts(entries, secure, enforceHTTPS, suffix, listenerPort);
    var names := RedirectedHosts(entries, secure, enforceHTTPS) + ServedHosts(entries, secure, enforceHTTPS);
    HostNames(entries, secure, enforceHTTPS, suffix, listenerPort);
    SelectedHosts(entries, secure, enforceHTTPS);
    DistinctConcat(RedirectedHosts(entries, secure, enforceHTTPS), ServedHosts(entries, secure, enforceHTTPS));
    StringOrder();
    SortDistinct(NameOf, hosts, ByName, Strings.Less);
    SortByKey(NameOf, hosts, ByName, Strings.Less);
    SortMember(names, Strings.Less);
  }

  // The insecure configuration is there whenever there is a listener; no configuration names a virtual host twice.
  lemma OneVirtualHostPerName(http: seq<HTTPListener>, secure: bool, enforceHTTPS: bool, suffix: bool)
    ensures !secure && http != [] ==> Configuration(http, secure, enforceHTTPS, suffix).Some?
    ensures var c := Configuration(http, secure, enforceHTTPS, suffix);
      c.Some? ==>
        && c.value.name == (if secure then "listener-secure" else "listener-insecure")
        && StrictlyAscending(Map(NameOf, c.value.virtualHosts), Strings.Less)
        && (HostsFor(Entries(http), secure) != [] ==>
             forall h :: h in Map(NameOf, c.value.virtualHosts) <==> OnSide(Entries(http), secure, enforceHTTPS, h))
  {
    SortedHostNames(Entries(http), secure, enforceHTTPS, suffix, FirstPort(http));
  }

  // ---------- finding a host ----------

  ghost function HasDomain(authority: string): VirtualHost -> bool {
    (vh: VirtualHost) => authority in vh.domains
  }

  // Envoy looks for a virtual host with this very domain before it tries wildcards.
  ghost function HostByDomain(hosts: seq<VirtualHost>, authority: string): Option<VirtualHost> {
    FirstMatch(hosts, HasDomain(authority))
  }

  // A host name that stands for itself: no wildcard.
  ghost predicate Literal(host: string) {
    '*' !in host
  }

  lemma {:induction false} UniqueByName(hosts: seq<VirtualHost>, vh: VirtualHost, authority: string)
    requires vh in hosts && Literal(authority) && vh.name == authority && vh.name in vh.domains
    requires forall x | x in hosts :: x.domains == Domains(x.name) && (x.name == vh.name ==> x == vh)
    ensures HostByDomain(hosts, authority) == Some(vh)
  {
    var first := hosts[0];
    assert first in hosts;
    assert forall d | d in Domains(first.name) :: d == first.name || '*' in d;
    if HasDomain(authority)(first) {
      assert first.name == authority;
    } else {
      UniqueByName(hosts[1..], vh, authority);
    }
  }

  lemma HostsOnSide(entries: seq<Entry>, secure: bool, enforceHTTPS: bool, suffix: bool, listenerPort: nat, vh: VirtualHost)
    ensures vh in StableSort(VirtualHosts(entries, secure, enforceHTTPS, suffix, listenerPort), ByName) <==>
        || (vh.name in RedirectedHosts(entries, secure, enforceHTTPS) && vh == VirtualHostOn(entries, true, true, suffix, listenerPort)(vh.name))
        || (vh.name in ServedHosts(entries, secure, enforceHTTPS) && vh == VirtualHostOn(entries, secure, false, suffix, listenerPort)(vh.name))
  {
    SortMember(VirtualHosts(entries, secure, enforceHTTPS, suffix, listenerPort), ByName);
    HostMembers(VirtualHostOn(entries, true, true, suffix, listenerPort), RedirectedHosts(entries, secure, enforceHTTPS), vh);
    HostMembers(VirtualHostOn(entries, secure, false, suffix, listenerPort), ServedHosts(entries, secure, enforceHTTPS), vh);
  }

  lemma HostMembers(build: string -> VirtualHost, names: seq<string>, vh: VirtualHost)
    requires forall h :: build(h).name == h
    ensures vh in Map(build, names) <==> vh.name in names && vh == build(vh.name)
  {
    MapMembers(build, names);
  }

  // The virtual host Envoy finds for a literal host of the side.
  lemma HostFound(entries: seq<Entry>, secure: bool, enforceHTTPS: bool, suffix: bool, listenerPort: nat, vh: VirtualHost)
    requires Literal(vh.name) && vh in StableSort(VirtualHosts(entries, secure, enforceHTTPS, suffix, listenerPort), ByName)
    ensures HostByDomain(StableSort(VirtualHosts(entries, secure, enforceHTTPS, suffix, listenerPort), ByName), vh.name) == Some(vh)
  {
    var hosts := StableSort(VirtualHosts(entries, secure, enforceHTTPS, suffix, listenerPort), ByName);
    SelectedHosts(entries, secure, enforceHTTPS);
    HostsOnSide(entries, secure, enforceHTTPS, suffix, listenerPort, vh);
    forall x | x in hosts ensures x.domains == Domains(x.name) && (x.name == vh.name ==> x == vh) {
      HostsOnSide(entries, secure, enforceHTTPS, suffix, listenerPort, x);
    }
    UniqueByName(hosts, vh, vh.name);
  }

  // ---------- the theorems ----------

  // A request to a literal host that is served on this side and not redirected gets the answer the model asks
  // for: of all routes of that host that match, the best; with all backends of the routes that share its match.
  lemma RoutingPreserved(http: seq<HTTPListener>, secure: bool, enforceHTTPS: bool, suffix: bool, req: Request)
    requires Servable(RoutesFor(Entries(http), req.authority, secure))
    requires WellFormed(req) && Literal(req.authority)
    requires req.authority in HostsFor(Entries(http), secure)
    requires secure || !enforceHTTPS || req.authority !in HostsFor(Entries(http), true)
    ensures var vh := HostByDomain(Configuration(http, secure, enforceHTTPS, suffix).value.virtualHosts, req.authority);
      vh.Some? && Routed(vh.value.routes, req) == Expected(RoutesFor(Entries(http), req.authority, secure), req, FirstPort(http))
  {
    var entries, host, port := Entries(http), req.authority, FirstPort(http);
    var vh := VirtualHostOn(entries, secure, false, suffix, port)(host);
    SelectedHosts(entries, secure, enforceHTTPS);
    HostsOnSide(entries, secure, enforceHTTPS, suffix, port, vh);
    HostFound(entries, secure, enforceHTTPS, suffix, port, vh);
    HostRoutesAsExpected(RoutesFor(entries, host, secure), host, suffix, port, req);
  }

  // The keys are exact if no text holds a bar that a tag follows.
  lemma CleanRoutingPreserved(http: seq<HTTPListener>, secure: bool, enforceHTTPS: bool, suffix: bool, req: Request)
    requires forall r | r in RoutesFor(Entries(http), req.authority, secure) :: MatchKey.Clean(r) && Answerable(r)
    requires WellFormed(req) && Literal(req.authority)
    requires req.authority in HostsFor(Entries(http), secure)
    requires secure || !enforceHTTPS || req.authority !in HostsFor(Entries(http), true)
    ensures var vh := HostByDomain(Configuration(http, secure, enforceHTTPS, suffix).value.virtualHosts, req.authority);
      vh.Some? && Routed(vh.value.routes, req) == Expected(RoutesFor(Entries(http), req.authority, secure), req, FirstPort(http))
  {
    var routes := RoutesFor(Entries(http), req.authority, secure);
    MatchKey.CleanKeysExact(routes);
    forall r | r in routes ensures MatchKey.OneKind(r) {
      MatchKey.CleanIsOneKind(r);
    }
    RoutingPreserved(http, secure, enforceHTTPS, suffix, req);
  }

  lemma RouteOfListener(http: seq<HTTPListener>, host: string, secure: bool, r: HTTPRoute)
    requires r in RoutesFor(Entries(http), host, secure)
    ensures exists l :: l in http && r in l.routes
  {
    RoutesForOrigin(Entries(http), host, secure, r);
    EntryOrigin(http, Entry(secure, host, r));
  }
}
