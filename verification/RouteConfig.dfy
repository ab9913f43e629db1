/** From listeners to route configurations: indexing routes by host and security, building the virtual hosts. */
module RouteConfig {
  import opened Wrappers
  import opened Model
  import opened Sorting
  import opened Merging
  import opened VirtualHost
  import Strings

  // ---------- what is served ----------

  // A route served on a host, with or without TLS.
  datatype Entry = Entry(secure: bool, host: string, route: HTTPRoute)

  function HostsOf(l: HTTPListener, r: HTTPRoute): seq<string> {
    if r.hostnames == [] then [l.hostname] else r.hostnames
  }

  function EntryAt(secure: bool, r: HTTPRoute): string -> Entry {
    host => Entry(secure, host, r)
  }

  function RouteEntries(l: HTTPListener): HTTPRoute -> seq<Entry> {
    r => Map(EntryAt(l.tls.Some?, r), HostsOf(l, r))
  }

  function ListenerEntries(l: HTTPListener): seq<Entry> {
    FlatMap(RouteEntries(l), l.routes)
  }

  function Entries(http: seq<HTTPListener>): seq<Entry> {
    FlatMap(ListenerEntries, http)
  }

  function SecureOf(e: Entry): bool { e.secure }
  function HostOf(e: Entry): string { e.host }
  function PlaceOf(e: Entry): (string, bool) { (e.host, e.secure) }
  function RouteOf(e: Entry): HTTPRoute { e.route }

  // The hosts with a route on this side, one mention for each route.
  function HostsFor(entries: seq<Entry>, secure: bool): seq<string> {
    Map(HostOf, WithKey(entries, SecureOf, secure))
  }

  // The routes of a host on this side, in the order of the listeners.
  function RoutesFor(entries: seq<Entry>, host: string, secure: bool): seq<HTTPRoute> {
    Map(RouteOf, WithKey(entries, PlaceOf, (host, secure)))
  }

  // ---------- the index the code builds ----------

  datatype Index = Index(hosts: map<bool, seq<string>>, routes: map<string, map<bool, seq<HTTPRoute>>>)

  ghost predicate HostsIndexed(hosts: map<bool, seq<string>>, seen: seq<Entry>) {
    forall secure :: (secure in hosts <==> HostsFor(seen, secure) != []) && (secure in hosts ==> hosts[secure] == HostsFor(seen, secure))
  }

  ghost predicate RoutesIndexed(routes: map<string, map<bool, seq<HTTPRoute>>>, seen: seq<Entry>) {
    forall host, secure ::
      if host in routes && secure in routes[host] then RoutesFor(seen, host, secure) != [] && routes[host][secure] == RoutesFor(seen, host, secure)
      else RoutesFor(seen, host, secure) == []
  }

  lemma HostsForSnoc(seen: seq<Entry>, e: Entry, secure: bool)
    ensures HostsFor(seen + [e], secure) == HostsFor(seen, secure) + (if e.secure == secure then [e.host] else [])
  {
    var all := seen + [e];
    assert all[..|seen|] == seen && all[..|seen| + 1] == all;
    WithKeySnoc(all, SecureOf, |seen|, secure);
  }

  lemma RoutesForSnoc(seen: seq<Entry>, e: Entry, host: string, secure: bool)
    ensures RoutesFor(seen + [e], host, secure)
         == RoutesFor(seen, host, secure) + (if e.host == host && e.secure == secure then [e.route] else [])
  {
    var all := seen + [e];
    assert all[..|seen|] == seen && all[..|seen| + 1] == all;
    WithKeySnoc(all, PlaceOf, |seen|, (host, secure));
  }

  method AddHost(hosts: map<bool, seq<string>>, e: Entry, ghost seen: seq<Entry>) returns (next: map<bool, seq<string>>)
    requires HostsIndexed(hosts, seen)
    ensures HostsIndexed(next, seen + [e])
  {
    next := hosts[e.secure := (if e.secure in hosts then hosts[e.secure] else []) + [e.host]];
    forall secure ensures (secure in next <==> HostsFor(seen + [e], secure) != [])
                       && (secure in next ==> next[secure] == HostsFor(seen + [e], secure)) {
      HostsForSnoc(seen, e, secure);
    }
  }

  method AddRoute(routes: map<string, map<bool, seq<HTTPRoute>>>, e: Entry, ghost seen: seq<Entry>)
    returns (next: map<string, map<bool, seq<HTTPRoute>>>)
    requires RoutesIndexed(routes, seen)
    ensures RoutesIndexed(next, seen + [e])
  {
    next := routes;
    if e.host !in next {
      next := next[e.host := map[]];
    }
    var sides := next[e.host];
    var updated := (if e.secure in sides then sides[e.secure] else []) + [e.route];
    assert updated == RoutesFor(seen, e.host, e.secure) + [e.route];
    next := next[e.host := sides[e.secure := updated]];
    forall host, secure
      ensures if host in next && secure in next[host]
              then RoutesFor(seen + [e], host, secure) != [] && next[host][secure] == RoutesFor(seen + [e], host, secure)
              else RoutesFor(seen + [e], host, secure) == []
    {
      RoutesForSnoc(seen, e, host, secure);
      if host != e.host || secure != e.secure {
        assert RoutesFor(seen + [e], host, secure) == RoutesFor(seen, host, secure);
      }
    }
  }

  method AddEntry(index: Index, e: Entry, ghost seen: seq<Entry>) returns (next: Index)
    requires HostsIndexed(index.hosts, seen) && RoutesIndexed(index.routes, seen)
    ensures HostsIndexed(next.hosts, seen + [e]) && RoutesIndexed(next.routes, seen + [e])
  {
    var hosts := AddHost(index.hosts, e, seen);
    var routes := AddRoute(index.routes, e, seen);
    next := Index(hosts, routes);
  }

  // The first loop of getEnvoyHTTPRouteConfiguration.
  method BuildIndex(http: seq<HTTPListener>) returns (index: Index)
    ensures HostsIndexed(index.hosts, Entries(http)) && RoutesIndexed(index.routes, Entries(http))
  {
    index := Index(map[], map[]);
    for i := 0 to |http|
      invariant HostsIndexed(index.hosts, Entries(http[..i])) && RoutesIndexed(index.routes, Entries(http[..i]))
    {
      index := IndexListener(index, http[i], Entries(http[..i]));
      FlatMapSnoc(ListenerEntries, http, i);
    }
    assert http[..|http|] == http;
  }

  method IndexListener(before: Index, l: HTTPListener, ghost seen: seq<Entry>) returns (index: Index)
    requires HostsIndexed(before.hosts, seen) && RoutesIndexed(before.routes, seen)
    ensures HostsIndexed(index.hosts, seen + ListenerEntries(l)) && RoutesIndexed(index.routes, seen + ListenerEntries(l))
  {
    index := before;
    ghost var done := seen;
    assert seen + FlatMap(RouteEntries(l), l.routes[..0]) == seen;
    for j := 0 to |l.routes|
      invariant done == seen + FlatMap(RouteEntries(l), l.routes[..j])
      invariant HostsIndexed(index.hosts, done) && RoutesIndexed(index.routes, done)
    {
      index := IndexRoute(index, l, l.routes[j], done);
      EntriesAfter(seen, RouteEntries(l), l.routes, j);
      done := done + RouteEntries(l)(l.routes[j]);
    }
    assert l.routes[..|l.routes|] == l.routes;
  }

  lemma EntriesAfter<T>(before: seq<Entry>, f: T -> seq<Entry>, s: seq<T>, i: nat)
    requires i < |s|
    ensures before + FlatMap(f, s[..i]) + f(s[i]) == before + FlatMap(f, s[..i + 1])
  {
    FlatMapSnoc(f, s, i);
  }

  method IndexRoute(before: Index, l: HTTPListener, r: HTTPRoute, ghost seen: seq<Entry>) returns (index: Index)
    requires HostsIndexed(before.hosts, seen) && RoutesIndexed(before.routes, seen)
    ensures HostsIndexed(index.hosts, seen + RouteEntries(l)(r)) && RoutesIndexed(index.routes, seen + RouteEntries(l)(r))
  {
    index := before;
    ghost var added := RouteEntries(l)(r);
    if |r.hostnames| == 0 {
      index := AddEntry(index, Entry(l.tls.Some?, l.hostname, r), seen);
      assert added == [Entry(l.tls.Some?, l.hostname, r)];
      return;
    }
    assert seen + added[..0] == seen;
    for k := 0 to |r.hostnames|
      invariant HostsIndexed(index.hosts, seen + added[..k]) && RoutesIndexed(index.routes, seen + added[..k])
    {
      index := AddEntry(index, Entry(l.tls.Some?, r.hostnames[k], r), seen + added[..k]);
      assert seen + added[..k] + [added[k]] == seen + added[..k + 1];
    }
    assert added[..|r.hostnames|] == added;
  }

  // ---------- the configurations ----------

  datatype RouteConfiguration = RouteConfiguration(name: string, virtualHosts: seq<VirtualHost>)

  function SideName(secure: bool): string {
    if secure then "listener-secure" else "listener-insecure"
  }

  function NameOf(vh: VirtualHost): string { vh.name }

  predicate ByName(a: VirtualHost, b: VirtualHost) {
    Strings.Less(a.name, b.name)
  }

  function FirstPort(http: seq<HTTPListener>): nat {
    if http == [] then 0 else http[0].port
  }

  function VirtualHostOn(entries: seq<Entry>, secure: bool, httpsRedirect: bool, suffix: bool, listenerPort: nat): string -> VirtualHost {
    h => HostFor(RoutesFor(entries, h, secure), h, httpsRedirect, suffix, listenerPort)
  }

  // On the insecure side, enforced HTTPS turns every host with a secure route into a redirect.
  function RedirectedHosts(entries: seq<Entry>, secure: bool, enforceHTTPS: bool): seq<string> {
    if !secure && enforceHTTPS then Unique(HostsFor(entries, true)) else []
  }

  function NotIn(hosts: seq<string>): string -> bool {
    h => h !in hosts
  }

  function ServedHosts(entries: seq<Entry>, secure: bool, enforceHTTPS: bool): seq<string> {
    Filter(Unique(HostsFor(entries, secure)), NotIn(RedirectedHosts(entries, secure, enforceHTTPS)))
  }

  function VirtualHosts(entries: seq<Entry>, secure: bool, enforceHTTPS: bool, suffix: bool, listenerPort: nat): seq<VirtualHost> {
    Map(VirtualHostOn(entries, true, true, suffix, listenerPort), RedirectedHosts(entries, secure, enforceHTTPS))
    + Map(VirtualHostOn(entries, secure, false, suffix, listenerPort), ServedHosts(entries, secure, enforceHTTPS))
  }

  // The route configuration of one side. A side without routes has none, except that the insecure one is
  // always there when there is any listener.
  function Configuration(http: seq<HTTPListener>, secure: bool, enforceHTTPS: bool, suffix: bool): Option<RouteConfiguration> {
    var entries := Entries(http);
    if HostsFor(entries, secure) != [] then
      Some(RouteConfiguration(SideName(secure), StableSort(VirtualHosts(entries, secure, enforceHTTPS, suffix, FirstPort(http)), ByName)))
    else if !secure && http != [] then Some(RouteConfiguration(SideName(false), []))
    else None
  }

  function AsSeq<T>(o: Option<T>): seq<T> {
    if o.Some? then [o.value] else []
  }

  ghost predicate AllAnswerable(http: seq<HTTPListener>) {
    forall l, r | l in http && r in l.routes :: Answerable(r)
  }

  lemma EntryOrigin(http: seq<HTTPListener>, e: Entry)
    requires e in Entries(http)
    ensures exists l :: l in http && e.route in l.routes
  {
    FlatMapMember(ListenerEntries, http, e);
    var l :| l in http && e in ListenerEntries(l);
    FlatMapMember(RouteEntries(l), l.routes, e);
    var r :| r in l.routes && e in RouteEntries(l)(r);
    assert e.route == r;
  }

  lemma RoutesForOrigin(entries: seq<Entry>, host: string, secure: bool, r: HTTPRoute)
    requires r in RoutesFor(entries, host, secure)
    ensures Entry(secure, host, r) in entries
  {
    var group := WithKey(entries, PlaceOf, (host, secure));
    var i :| 0 <= i < |group| && group[i].route == r;
    WithKeyMember(entries, PlaceOf, (host, secure));
    assert group[i] in group;
  }

  ghost predicate EntriesAnswerable(entries: seq<Entry>) {
    forall e | e in entries :: Answerable(e.route)
  }

  // One side's virtual hosts, before they are sorted.
  method BuildVirtualHosts(index: Index, secure: bool, enforceHTTPS: bool, suffix: bool, listenerPort: nat, ghost entries: seq<Entry>)
    returns (hosts: seq<VirtualHost>)
    requires HostsIndexed(index.hosts, entries) && RoutesIndexed(index.routes, entries)
    requires secure in index.hosts && EntriesAnswerable(entries)
    ensures hosts == VirtualHosts(entries, secure, enforceHTTPS, suffix, listenerPort)
  {
    var redirected, others := SelectHosts(index.hosts, secure, enforceHTTPS, entries);
    var redirects := BuildHosts(index.routes, redirected, true, true, suffix, listenerPort, entries);
    var served := BuildHosts(index.routes, others, secure, false, suffix, listenerPort, entries);
    hosts := redirects + served;
  }

  method SelectHosts(index: map<bool, seq<string>>, secure: bool, enforceHTTPS: bool, ghost entries: seq<Entry>)
    returns (redirected: seq<string>, others: seq<string>)
    requires HostsIndexed(index, entries) && secure in index
    ensures redirected == RedirectedHosts(entries, secure, enforceHTTPS)
    ensures others == ServedHosts(entries, secure, enforceHTTPS)
  {
    redirected := [];
    if !secure && enforceHTTPS {
      redirected := Unique(if true in index then index[true] else []);
    }
    others := Filter(Unique(index[secure]), NotIn(redirected));
  }

  method BuildHosts(
    index: map<string, map<bool, seq<HTTPRoute>>>, names: seq<string>, secure: bool, httpsRedirect: bool, suffix: bool, listenerPort: nat,
    ghost entries: seq<Entry>)
    returns (hosts: seq<VirtualHost>)
    requires RoutesIndexed(index, entries) && EntriesAnswerable(entries)
    ensures hosts == Map(VirtualHostOn(entries, secure, httpsRedirect, suffix, listenerPort), names)
  {
    ghost var build := VirtualHostOn(entries, secure, httpsRedirect, suffix, listenerPort);
    hosts := [];
    for i := 0 to |names|
      invariant |hosts| == i && forall j | 0 <= j < i :: hosts[j] == build(names[j])
    {
      var vh := BuildHost(index, names[i], secure, httpsRedirect, suffix, listenerPort, entries);
      hosts := hosts + [vh];
    }
  }

  method BuildHost(
    index: map<string, map<bool, seq<HTTPRoute>>>, h: string, secure: bool, httpsRedirect: bool, suffix: bool, listenerPort: nat,
    ghost entries: seq<Entry>)
    returns (vh: VirtualHost)
    requires RoutesIndexed(index, entries) && EntriesAnswerable(entries)
    ensures vh == VirtualHostOn(entries, secure, httpsRedirect, suffix, listenerPort)(h)
  {
    var routes := LookUp(index, h, secure, entries);
    forall r | r in routes ensures Answerable(r) {
      RoutesForOrigin(entries, h, secure, r);
    }
    vh := NewVirtualHost(routes, h, httpsRedirect, suffix, listenerPort);
  }

  method LookUp(index: map<string, map<bool, seq<HTTPRoute>>>, h: string, secure: bool, ghost entries: seq<Entry>)
    returns (routes: seq<HTTPRoute>)
    requires RoutesIndexed(index, entries)
    ensures routes == RoutesFor(entries, h, secure)
  {
    routes := if h in index && secure in index[h] then index[h][secure] else [];
  }

  // getEnvoyHTTPRouteConfiguration
  method GetRouteConfigurations(http: seq<HTTPListener>, enforceHTTPS: bool, suffix: bool) returns (res: seq<RouteConfiguration>)
    requires AllAnswerable(http)
    ensures res == AsSeq(Configuration(http, false, enforceHTTPS, suffix)) + AsSeq(Configuration(http, true, enforceHTTPS, suffix))
  {
    var index := BuildIndex(http);
    var insecure := GetRouteConfiguration(http, index, false, enforceHTTPS, suffix);
    var secure := GetRouteConfiguration(http, index, true, enforceHTTPS, suffix);
    res := AsSeq(insecure) + AsSeq(secure);
  }

  method GetRouteConfiguration(http: seq<HTTPListener>, index: Index, secure: bool, enforceHTTPS: bool, suffix: bool)
    returns (res: Option<RouteConfiguration>)
    requires HostsIndexed(index.hosts, Entries(http)) && RoutesIndexed(index.routes, Entries(http)) && AllAnswerable(http)
    ensures res == Configuration(http, secure, enforceHTTPS, suffix)
  {
    res := None;
    if secure !in index.hosts {
      if !secure && |http| > 0 {
        res := Some(RouteConfiguration("listener-insecure", []));
      }
    } else {
      forall e | e in Entries(http) ensures Answerable(e.route) {
        EntryOrigin(http, e);
      }
      var hosts := BuildVirtualHosts(index, secure, enforceHTTPS, suffix, http[0].port, Entries(http));
      res := Some(RouteConfiguration(SideName(secure), StableSort(hosts, ByName)));
    }
  }
}
