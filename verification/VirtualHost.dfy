/** One virtual host: merging routes by match key, emitting Envoy routes, sorting them. */
module VirtualHost {
  import opened Wrappers
  import opened Model
  import opened Sorting
  import opened RouteMatch
  import opened RouteOrder
  import opened Merging
  import MatchKey

  // ---------- Envoy actions ----------

  datatype ClusterWeight = ClusterWeight(name: string, weight: nat)

  datatype Target = Cluster(name: string) | WeightedClusters(clusters: seq<ClusterWeight>)

  datatype RedirectAction = RedirectAction(
    scheme: Option<string>, host: Option<string>, port: int, statusCode: Option<int>, path: Option<StringMatch>)

  datatype Action =
    | Forward(target: Target, rewrite: Option<RewriteFilter>, mirrors: seq<string>, timeout: Option<int>)
    | Redirect(redirect: RedirectAction)
    | HttpsRedirect
    | Respond(status: int, body: string)

  datatype Route = Route(condition: RouteMatch, action: Action)

  datatype VirtualHost = VirtualHost(name: string, domains: seq<string>, routes: seq<Route>)

  // uint32(int32)
  function Uint32(w: int): nat {
    w % 0x1_0000_0000
  }

  function WeightOf(b: Backend): ClusterWeight {
    ClusterWeight(ClusterName(b), Uint32(if b.weight.Some? then b.weight.value else 1))
  }

  function MirrorClusters(mirrors: seq<RequestMirror>): seq<string> {
    if mirrors == [] then []
    else (if mirrors[0].backend.Some? then [ClusterName(mirrors[0].backend.value)] else []) + MirrorClusters(mirrors[1..])
  }

  // The shorter of the two timeouts that are set.
  function ActionTimeout(t: Timeout): Option<int> {
    if t.request.Some? && (t.backend.None? || t.request.value < t.backend.value) then t.request else t.backend
  }

  function RouteAction(r: HTTPRoute, backends: seq<Backend>): Action {
    Forward(
      if |backends| == 1 then Cluster(ClusterName(backends[0])) else WeightedClusters(Map(WeightOf, backends)),
      r.rewrite, MirrorClusters(r.requestMirrors), ActionTimeout(r.timeout))
  }

  function RouteRedirect(f: RedirectFilter, listenerPort: nat): Action {
    Redirect(RedirectAction(
      f.scheme, f.hostname,
      if f.port.Some? then Uint32(f.port.value)
      else if f.scheme.None? then listenerPort
      else if f.scheme.value == "https" then 443
      else if f.scheme.value == "http" then 80
      else 0,
      f.statusCode, f.path))
  }

  function AllBackends(group: seq<HTTPRoute>): seq<Backend> {
    if group == [] then [] else group[0].backends + AllBackends(group[1..])
  }

  // No backend anywhere in the group and no redirect: it can only answer directly.
  predicate Backendless(group: seq<HTTPRoute>) {
    group != [] && AllBackends(group) == [] && group[0].requestRedirect.None?
  }

  // What requests that reach a merged group of routes get. None is the nil route of a group that has no backend,
  // no redirect and no direct response.
  function GroupAction(group: seq<HTTPRoute>, listenerPort: nat): Option<Action> {
    if group == [] then None
    else
      var head := group[0];
      if Backendless(group) then
        if head.directResponse.Some? then Some(Respond(head.directResponse.value.statusCode, head.directResponse.value.body)) else None
      else if head.requestRedirect.Some? then Some(RouteRedirect(head.requestRedirect.value, listenerPort))
      else Some(RouteAction(head, AllBackends(group)))
  }

  function GroupRoute(group: seq<HTTPRoute>, host: string, suffix: bool, listenerPort: nat): Option<Route> {
    var action := GroupAction(group, listenerPort);
    if action.None? then None else Some(Route(MatchOf(group[0], host, suffix), action.value))
  }

  function RouteEmitter(host: string, suffix: bool, listenerPort: nat): seq<HTTPRoute> -> Option<Route> {
    group => GroupRoute(group, host, suffix, listenerPort)
  }

  function RedirectEmitter(host: string, suffix: bool): seq<HTTPRoute> -> Route {
    group => Route(if group == [] then SwappedMatchOf(MatchKey.MatchOnly(None, NO_MATCH, [], []), host, suffix)
                   else SwappedMatchOf(group[0], host, suffix), HttpsRedirect)
  }

  // ---------- emitting routes ----------
  // The match key is a parameter: nothing in the merging depends on how a match is printed.

  // envoyHTTPRoutes: a backendless group stays in the map and is emitted again.
  method EnvoyHTTPRoutes(routes: seq<HTTPRoute>, key: HTTPRoute -> string, host: string, suffix: bool, listenerPort: nat)
    returns (res: seq<Option<Route>>)
    ensures res == Emitted(routes, key, Backendless, RouteEmitter(host, suffix, listenerPort), |routes|)
  {
    res := EmitGroups(routes, key, Backendless, RouteEmitter(host, suffix, listenerPort));
  }

  predicate Never(group: seq<HTTPRoute>) {
    false
  }

  // envoyHTTPSRoutes: one redirect for each group, with header and query matchers exchanged.
  method EnvoyHTTPSRoutes(routes: seq<HTTPRoute>, key: HTTPRoute -> string, host: string, suffix: bool)
    returns (res: seq<Route>)
    ensures res == Emitted(routes, key, Never, RedirectEmitter(host, suffix), |routes|)
  {
    res := EmitGroups(routes, key, Never, RedirectEmitter(host, suffix));
  }

  // ---------- no nil routes ----------

  // The route can be answered: it forwards, redirects or responds.
  predicate Answerable(r: HTTPRoute) {
    r.backends != [] || r.requestRedirect.Some? || r.directResponse.Some?
  }

  lemma {:induction false} BackendsOfGroup(group: seq<HTTPRoute>)
    ensures forall r | r in group :: AllBackends(group) == [] ==> r.backends == []
    ensures forall b | b in AllBackends(group) :: exists r :: r in group && b in r.backends
  {
    if group != [] {
      BackendsOfGroup(group[1..]);
      assert group == [group[0]] + group[1..];
      forall b | b in AllBackends(group) ensures exists r :: r in group && b in r.backends {
        if b in group[0].backends {
          assert group[0] in group;
        } else {
          var r :| r in group[1..] && b in r.backends;
          assert r in group;
        }
      }
    }
  }

  lemma AnswerableGroup(group: seq<HTTPRoute>, listenerPort: nat)
    requires group != [] && Answerable(group[0])
    ensures GroupAction(group, listenerPort).Some?
  {
    BackendsOfGroup(group);
    assert group[0] in group;
  }

  // If every route is answerable no nil route is emitted, however routes are grouped.
  lemma NoNilRoute(routes: seq<HTTPRoute>, key: HTTPRoute -> string, host: string, suffix: bool, listenerPort: nat)
    requires forall r | r in routes :: Answerable(r)
    ensures forall e | e in Emitted(routes, key, Backendless, RouteEmitter(host, suffix, listenerPort), |routes|) :: e.Some?
  {
    forall e | e in Emitted(routes, key, Backendless, RouteEmitter(host, suffix, listenerPort), |routes|) ensures e.Some? {
      EmittedOrigin(routes, key, Backendless, RouteEmitter(host, suffix, listenerPort), |routes|, e);
      var i: nat :| i < |routes| && e == RouteEmitter(host, suffix, listenerPort)(GroupAt(routes, key, i));
      var group := GroupAt(routes, key, i);
      WithKeyMember(routes, key, key(routes[i]));
      assert group[0] in group;
      AnswerableGroup(group, listenerPort);
    }
  }

  // ---------- the virtual host ----------

  predicate RouteLess(a: Route, b: Route) {
    Less(a.condition, b.condition)
  }

  // The placeholder for a nil route, over which the sort would panic.
  const NIL_ROUTE := Route(RouteMatch(Prefix("/"), [], []), Respond(0, ""))

  function Present(e: Option<Route>): Route {
    if e.Some? then e.value else NIL_ROUTE
  }

  // net.JoinHostPort(host, "*")
  function AnyPort(host: string): string {
    if ':' in host then "[" + host + "]:*" else host + ":*"
  }

  function Domains(host: string): seq<string> {
    if host == "*" then ["*"] else [host, AnyPort(host)]
  }

  function HostRoutes(routes: seq<HTTPRoute>, host: string, suffix: bool, listenerPort: nat): seq<Route> {
    StableSort(Map(Present, Emitted(routes, MatchKey.Key, Backendless, RouteEmitter(host, suffix, listenerPort), |routes|)), RouteLess)
  }

  function RedirectRoutes(routes: seq<HTTPRoute>, host: string, suffix: bool): seq<Route> {
    StableSort(Emitted(routes, MatchKey.Key, Never, RedirectEmitter(host, suffix), |routes|), RouteLess)
  }

  function HostFor(routes: seq<HTTPRoute>, host: string, httpsRedirect: bool, suffix: bool, listenerPort: nat): (vh: VirtualHost)
    ensures vh.name == host && vh.name in vh.domains
  {
    VirtualHost(host, Domains(host),
      if httpsRedirect then RedirectRoutes(routes, host, suffix) else HostRoutes(routes, host, suffix, listenerPort))
  }

  // NewVirtualHost, for the one host name it is always given.
  method NewVirtualHost(routes: seq<HTTPRoute>, host: string, httpsRedirect: bool, suffix: bool, listenerPort: nat)
    returns (vh: VirtualHost)
    requires !httpsRedirect ==> forall r | r in routes :: Answerable(r)
    ensures vh == HostFor(routes, host, httpsRedirect, suffix, listenerPort)
  {
    var envoyRoutes;
    if httpsRedirect {
      envoyRoutes := EnvoyHTTPSRoutes(routes, MatchKey.Key, host, suffix);
    } else {
      var entries := EnvoyHTTPRoutes(routes, MatchKey.Key, host, suffix, listenerPort);
      NoNilRoute(routes, MatchKey.Key, host, suffix, listenerPort);
      envoyRoutes := Map(Present, entries);
    }
    envoyRoutes := StableSort(envoyRoutes, RouteLess);
    var domains := if host == "*" then ["*"] else [host, AnyPort(host)];
    vh := VirtualHost(domains[0], domains, envoyRoutes);
  }
}
