/** When plain HTTP is answered with a redirect to HTTPS. */
module Redirects {
  import opened Wrappers
  import opened Model
  import opened Sorting
  import opened RouteMatch
  import opened Merging
  import opened VirtualHost
  import opened HostRouting
  import opened RouteConfig
  import opened Routing
  import MatchKey

  lemma AllRedirects(routes: seq<HTTPRoute>, host: string, suffix: bool)
    ensures forall route | route in RedirectRoutes(routes, host, suffix) :: route.action.HttpsRedirect?
  {
    var emitted := Emitted(routes, MatchKey.Key, Never, RedirectEmitter(host, suffix), |routes|);
    SortContents(emitted, RouteLess);
    forall route | route in RedirectRoutes(routes, host, suffix) ensures route.action.HttpsRedirect? {
      assert route in multiset(emitted);
      EmittedOrigin(routes, MatchKey.Key, Never, RedirectEmitter(host, suffix), |routes|, route);
    }
  }

  lemma NoRedirects(routes: seq<HTTPRoute>, host: string, suffix: bool, listenerPort: nat)
    ensures forall route | route in HostRoutes(routes, host, suffix, listenerPort) :: !route.action.HttpsRedirect?
  {
    var emit := RouteEmitter(host, suffix, listenerPort);
    var entries := Emitted(routes, MatchKey.Key, Backendless, emit, |routes|);
    SortMember(Map(Present, entries), RouteLess);
    MapMembers(Present, entries);
    forall e | e in entries ensures !Present(e).action.HttpsRedirect? {
      EmittedOrigin(routes, MatchKey.Key, Backendless, emit, |routes|, e);
      var i: nat :| i < |routes| && e == emit(GroupAt(routes, MatchKey.Key, i));
      GroupNotRedirected(GroupAt(routes, MatchKey.Key, i), host, suffix, listenerPort);
    }
  }

  lemma GroupNotRedirected(group: seq<HTTPRoute>, host: string, suffix: bool, listenerPort: nat)
    ensures !Present(RouteEmitter(host, suffix, listenerPort)(group)).action.HttpsRedirect?
  {
    assert RouteEmitter(host, suffix, listenerPort)(group) == GroupRoute(group, host, suffix, listenerPort);
  }

  lemma SomeRedirect(routes: seq<HTTPRoute>, host: string, suffix: bool)
    requires routes != []
    ensures RedirectRoutes(routes, host, suffix) != []
  {
    var emit := RedirectEmitter(host, suffix);
    EmittedCovers(routes, MatchKey.Key, Never, emit, |routes|, 0);
    SortMember(Emitted(routes, MatchKey.Key, Never, emit, |routes|), RouteLess);
    assert emit(GroupAt(routes, MatchKey.Key, 0)) in RedirectRoutes(routes, host, suffix);
  }

  lemma {:induction false} HostHasRoutes(entries: seq<Entry>, host: string, secure: bool)
    ensures host in HostsFor(entries, secure) <==> RoutesFor(entries, host, secure) != []
  {
    if entries != [] {
      var front, last := entries[..|entries| - 1], entries[|entries| - 1];
      assert entries == front + [last];
      HostHasRoutes(front, host, secure);
      HostsForSnoc(front, last, secure);
      RoutesForSnoc(front, last, host, secure);
    }
  }

  // With enforced HTTPS and any insecure route at all, a host with a secure route has one virtual host for plain HTTP,
  // of redirects only, whatever insecure routes it has; Envoy finds it if the host is literal. Without an insecure
  // route anywhere, there is no virtual host at all.
  lemma HTTPSEnforced(http: seq<HTTPListener>, suffix: bool, host: string)
    requires host in HostsFor(Entries(http), true)
    ensures var c := Configuration(http, false, true, suffix);
      && c.Some?
      && (HostsFor(Entries(http), false) != [] ==>
          && host in Map(NameOf, c.value.virtualHosts) && StrictlyAscending(Map(NameOf, c.value.virtualHosts), Strings.Less)
          && (forall vh | vh in c.value.virtualHosts && vh.name == host :: vh.routes != [] && OnlyRedirects(vh))
          && (Literal(host) ==> var vh := HostByDomain(c.value.virtualHosts, host); vh.Some? && vh.value in c.value.virtualHosts && vh.value.name == host))
      && (HostsFor(Entries(http), false) == [] ==> c.value.virtualHosts == [])
  {
    var entries, port := Entries(http), FirstPort(http);
    if HostsFor(entries, false) != [] {
      var vh := VirtualHostOn(entries, true, true, suffix, port)(host);
      var hosts := StableSort(VirtualHosts(entries, false, true, suffix, port), ByName);
      SelectedHosts(entries, false, true);
      SortedHostNames(entries, false, true, suffix, port);
      HostsOnSide(entries, false, true, suffix, port, vh);
      AllRedirects(RoutesFor(entries, host, true), host, suffix);
      HostHasRoutes(entries, host, true);
      SomeRedirect(RoutesFor(entries, host, true), host, suffix);
      forall x | x in hosts && x.name == host ensures x == vh {
        HostsOnSide(entries, false, true, suffix, port, x);
      }
      MapMembers(NameOf, hosts);
      assert NameOf(vh) in Map(NameOf, hosts);
      if Literal(host) {
        HostFound(entries, false, true, suffix, port, vh);
      }
    }
  }

  ghost predicate OnlyRedirects(vh: VirtualHost) {
    forall route | route in vh.routes :: route.action.HttpsRedirect?
  }

  ghost predicate NoRedirect(vh: VirtualHost) {
    forall route | route in vh.routes :: !route.action.HttpsRedirect?
  }

  // A virtual host redirects to HTTPS exactly if the translator enforces it, on the insecure side, and the host has a
  // secure route; nothing else in the model makes it so.
  lemma RedirectedIff(http: seq<HTTPListener>, secure: bool, enforceHTTPS: bool, suffix: bool, vh: VirtualHost)
    requires var c := Configuration(http, secure, enforceHTTPS, suffix); c.Some? && vh in c.value.virtualHosts
    ensures if !secure && enforceHTTPS && vh.name in HostsFor(Entries(http), true) then vh.routes != [] && OnlyRedirects(vh)
            else NoRedirect(vh)
  {
    var entries, port := Entries(http), FirstPort(http);
    SelectedHosts(entries, secure, enforceHTTPS);
    HostsOnSide(entries, secure, enforceHTTPS, suffix, port, vh);
    if vh.name in RedirectedHosts(entries, secure, enforceHTTPS) {
      var routes := RoutesFor(entries, vh.name, true);
      AllRedirects(routes, vh.name, suffix);
      HostHasRoutes(entries, vh.name, true);
      SomeRedirect(routes, vh.name, suffix);
    } else {
      NoRedirects(RoutesFor(entries, vh.name, secure), vh.name, suffix, port);
    }
  }

  // ---------- which requests are redirected ----------

  // The route with its header and query matchers exchanged, as the code builds the redirect.
  function Swapped(r: HTTPRoute): HTTPRoute {
    r.(headersMatch := r.queryParamsMatch, queryParamsMatch := r.headersMatch)
  }

  ghost predicate SomeSwappedAsks(routes: seq<HTTPRoute>, req: Request) {
    exists r :: r in routes && Asked(Swapped(r), req)
  }

  lemma RedirectAccepts(group: seq<HTTPRoute>, host: string, suffix: bool, req: Request)
    requires group != [] && MatchKey.OneKind(group[0]) && WellFormed(req) && AuthorityAccepted(host, suffix, req)
    ensures AcceptedBy(req)(RedirectEmitter(host, suffix)(group)) <==> Asked(Swapped(group[0]), req)
  {
    MatchAgrees(Swapped(group[0]), host, suffix, req);
    assert SwappedMatchOf(group[0], host, suffix) == MatchOf(Swapped(group[0]), host, suffix);
  }

  lemma {:induction false} FirstMatchExists<T(!new)>(s: seq<T>, p: T -> bool)
    ensures FirstMatch(s, p).Some? <==> exists x :: x in s && p(x)
    ensures FirstMatch(s, p).Some? ==> FirstMatch(s, p).value in s
  {
    if s != [] {
      FirstMatchExists(s[1..], p);
    }
  }

  // A redirected host answers exactly the requests that one of its secure routes would ask for if its header and query
  // matchers were exchanged, all with the redirect.
  lemma RedirectsExactly(routes: seq<HTTPRoute>, host: string, suffix: bool, req: Request)
    requires MatchKey.KeysExact(routes) && forall r | r in routes :: MatchKey.OneKind(r)
    requires WellFormed(req) && AuthorityAccepted(host, suffix, req)
    ensures Routed(RedirectRoutes(routes, host, suffix), req) == if SomeSwappedAsks(routes, req) then Some(HttpsRedirect) else None
  {
    var emit, p := RedirectEmitter(host, suffix), AcceptedBy(req);
    var emitted := Emitted(routes, MatchKey.Key, Never, emit, |routes|);
    SortMember(emitted, RouteLess);
    FirstMatchExists(RedirectRoutes(routes, host, suffix), p);
    AllRedirects(routes, host, suffix);
    forall e | e in emitted && p(e) ensures SomeSwappedAsks(routes, req) {
      EmittedOrigin(routes, MatchKey.Key, Never, emit, |routes|, e);
      var i: nat :| i < |routes| && e == emit(GroupAt(routes, MatchKey.Key, i));
      HeadOfGroup(routes, i);
      RedirectAccepts(GroupAt(routes, MatchKey.Key, i), host, suffix, req);
    }
    forall r | r in routes && Asked(Swapped(r), req) ensures exists e :: e in emitted && p(e) {
      var i :| 0 <= i < |routes| && routes[i] == r;
      HeadOfGroup(routes, i);
      var group := GroupAt(routes, MatchKey.Key, i);
      SameMatchAskedAlike(Swapped(group[0]), Swapped(r), req);
      RedirectAccepts(group, host, suffix, req);
      EmittedCovers(routes, MatchKey.Key, Never, emit, |routes|, i);
      assert emit(group) in emitted && p(emit(group));
    }
  }

  lemma LoneRedirect(r: HTTPRoute, host: string, suffix: bool, req: Request)
    requires MatchKey.OneKind(r) && WellFormed(req) && Literal(host) && !Asked(Swapped(r), req)
    ensures Routed(RedirectRoutes([r], host, suffix), req) == None
  {
    assert AuthorityMatchers(host, suffix) == [];
    RedirectsExactly([r], host, suffix, req);
  }

  const HEADER_ROUTE := MatchKey.MatchOnly(None, NO_MATCH, [MatchKey.Exactly("x", "1")], [])
  const HEADER_REQUEST := Request("GET", "h", "/", _ => Some("1"), _ => None, (_, _) => false)

  lemma HeaderAskedFor()
    ensures WellFormed(HEADER_REQUEST) && Asked(HEADER_ROUTE, HEADER_REQUEST) && !Asked(Swapped(HEADER_ROUTE), HEADER_REQUEST)
  {
    assert HEADER_REQUEST.Header("x") == Some("1");
    assert MatchKey.Exactly("x", "1") in Swapped(HEADER_ROUTE).queryParamsMatch && HEADER_REQUEST.query("x") == None;
  }

  // A route for a header, a request with that header, and no redirect.
  lemma RedirectMissed(suffix: bool)
    ensures WellFormed(HEADER_REQUEST) && Asked(HEADER_ROUTE, HEADER_REQUEST)
    ensures Routed(RedirectRoutes([HEADER_ROUTE], "h", suffix), HEADER_REQUEST) == None
  {
    HeaderAskedFor();
    LoneRedirect(HEADER_ROUTE, "h", suffix, HEADER_REQUEST);
  }

  lemma HeadOfGroup(routes: seq<HTTPRoute>, i: nat)
    requires i < |routes|
    ensures var group := GroupAt(routes, MatchKey.Key, i);
      group != [] && group[0] in routes && (MatchKey.KeysExact(routes) ==> MatchKey.SameMatch(group[0], routes[i]))
  {
    var group := GroupAt(routes, MatchKey.Key, i);
    WithKeyMember(routes, MatchKey.Key, MatchKey.Key(routes[i]));
    assert group[0] in group && routes[i] in routes;
  }

  // ---------- the listener's flag ----------

  function Unflagged(l: HTTPListener): HTTPListener {
    l.(forceHTTPSRedirect := false)
  }

  // The flag by which a listener asks for the redirect is read by nothing: setting it changes no configuration.
  lemma FlagIgnored(a: seq<HTTPListener>, b: seq<HTTPListener>, secure: bool, enforceHTTPS: bool, suffix: bool)
    requires Map(Unflagged, a) == Map(Unflagged, b)
    ensures Configuration(a, secure, enforceHTTPS, suffix) == Configuration(b, secure, enforceHTTPS, suffix)
  {
    assert |a| == |Map(Unflagged, a)| == |Map(Unflagged, b)| == |b|;
    forall i | 0 <= i < |a| ensures Unflagged(a[i]) == Unflagged(b[i]) {
      assert Map(Unflagged, a)[i] == Map(Unflagged, b)[i];
    }
    SameEntries(a, b);
  }

  lemma {:induction false} SameEntries(a: seq<HTTPListener>, b: seq<HTTPListener>)
    requires |a| == |b| && forall i | 0 <= i < |a| :: Unflagged(a[i]) == Unflagged(b[i])
    ensures Entries(a) == Entries(b)
  {
    if a != [] {
      var n := |a| - 1;
      SameEntries(a[..n], b[..n]);
      assert ListenerEntries(a[n]) == ListenerEntries(b[n]) by { SameListenerEntries(a[n], b[n]); }
    }
  }

  lemma SameListenerEntries(l: HTTPListener, m: HTTPListener)
    requires Unflagged(l) == Unflagged(m)
    ensures ListenerEntries(l) == ListenerEntries(m)
  {
    SameFlatMap(RouteEntries(l), RouteEntries(m), l.routes);
  }
}
