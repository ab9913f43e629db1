/** Referential integrity: every cluster that a route, mirror, filter chain or TCP listener names is defined, once. */
module References {
  import opened Wrappers
  import opened Model
  import opened Sorting
  import opened Merging
  import opened VirtualHost
  import opened RouteConfig
  import opened Clusters
  import opened Routing
  import Redirects
  import Passthrough
  import MatchKey

  // ---------- TCP listeners ----------

  datatype TCPProxy = TCPProxy(port: nat, cluster: string)

  // The first backend of the first route that has any.
  function TCPCluster(routes: seq<TCPRoute>): string {
    if routes == [] then ""
    else if routes[0].backends == [] then TCPCluster(routes[1..])
    else if routes[0].backends[0].port.Some? then ClusterName(routes[0].backends[0])
    else ""
  }

  function TCPProxies(tcp: seq<TCPListener>): seq<TCPProxy> {
    FlatMap((l: TCPListener) => if TCPCluster(l.routes) == "" then [] else [TCPProxy(l.port, TCPCluster(l.routes))], tcp)
  }

  // getTCPRouteListeners
  method GetTCPRouteListeners(tcp: seq<TCPListener>) returns (res: seq<TCPProxy>)
    ensures res == TCPProxies(tcp)
  {
    ghost var f := (l: TCPListener) => if TCPCluster(l.routes) == "" then [] else [TCPProxy(l.port, TCPCluster(l.routes))];
    res := [];
    for i := 0 to |tcp|
      invariant res == FlatMap(f, tcp[..i])
    {
      var cluster := PickCluster(tcp[i].routes);
      FlatMapSnoc(f, tcp, i);
      if cluster == "" {
        continue;
      }
      res := res + [TCPProxy(tcp[i].port, cluster)];
    }
    assert tcp[..|tcp|] == tcp;
  }

  method PickCluster(routes: seq<TCPRoute>) returns (cluster: string)
    ensures cluster == TCPCluster(routes)
  {
    cluster := "";
    for j := 0 to |routes|
      invariant cluster == "" && TCPCluster(routes) == TCPCluster(routes[j..])
    {
      assert routes[j..][1..] == routes[j + 1..];
      if |routes[j].backends| == 0 {
        continue;
      }
      var backend := routes[j].backends[0];
      if backend.port.Some? {
        cluster := ClusterName(backend);
      }
      break;
    }
  }

  // ---------- what is referenced ----------

  ghost function TargetNames(t: Target): seq<string> {
    match t
    case Cluster(name) => [name]
    case WeightedClusters(clusters) => Map((w: ClusterWeight) => w.name, clusters)
  }

  ghost function Named(a: Action): seq<string> {
    if a.Forward? then TargetNames(a.target) + a.mirrors else []
  }

  ghost predicate RouteNames(m: Model, secure: bool, enforceHTTPS: bool, suffix: bool, c: string) {
    var config := Configuration(m.http, secure, enforceHTTPS, suffix);
    config.Some? && exists vh, route :: vh in config.value.virtualHosts && route in vh.routes && c in Named(route.action)
  }

  ghost predicate ChainNames(m: Model, c: string) {
    exists chain :: chain in Passthrough.Chains(Passthrough.Uses(m.tls)) && chain.cluster == c
  }

  ghost predicate ListenerNames(m: Model, c: string) {
    exists proxy :: proxy in TCPProxies(m.tcp) && proxy.cluster == c
  }

  ghost predicate Referenced(m: Model, enforceHTTPS: bool, suffix: bool, c: string) {
    || RouteNames(m, false, enforceHTTPS, suffix, c)
    || RouteNames(m, true, enforceHTTPS, suffix, c)
    || ChainNames(m, c)
    || ListenerNames(m, c)
  }

  ghost function HTTPTargets(m: Model): set<ServicePort> {
    Targets(HTTPBackends(m))
  }

  ghost function OtherTargets(m: Model): set<ServicePort> {
    Targets(TLSBackends(m)) + Targets(TCPBackends(m))
  }

  ghost predicate PortsPresent(m: Model) {
    forall b | b in HTTPBackends(m) + TLSBackends(m) + TCPBackends(m) :: b.port.Some?
  }

  // ---------- routes ----------

  lemma WeightNames(backends: seq<Backend>)
    ensures Map((w: ClusterWeight) => w.name, Map(WeightOf, backends)) == Map(ClusterName, backends)
  {
  }

  lemma {:induction false} MirrorNames(mirrors: seq<RequestMirror>)
    ensures MirrorClusters(mirrors) == Map(ClusterName, MirrorBackends(mirrors))
  {
    if mirrors != [] {
      MirrorNames(mirrors[1..]);
      if mirrors[0].backend.Some? {
        MapConcat(ClusterName, [mirrors[0].backend.value], MirrorBackends(mirrors[1..]));
        assert Map(ClusterName, [mirrors[0].backend.value]) == [ClusterName(mirrors[0].backend.value)];
      }
    }
  }

  // A forwarding group names the clusters of its backends in order, then those of the first route's mirrors.
  lemma GroupNames(group: seq<HTTPRoute>, listenerPort: nat)
    requires group != []
    ensures var action := GroupAction(group, listenerPort);
      action.Some? && action.value.Forward? ==>
        Named(action.value) == Map(ClusterName, AllBackends(group)) + Map(ClusterName, MirrorBackends(group[0].requestMirrors))
  {
    var backends := AllBackends(group);
    WeightNames(backends);
    MirrorNames(group[0].requestMirrors);
    if |backends| == 1 {
      assert Map(ClusterName, backends) == [ClusterName(backends[0])];
    }
  }

  lemma GroupOrigin(group: seq<HTTPRoute>, listenerPort: nat, c: string)
    requires group != [] && GroupAction(group, listenerPort).Some? && c in Named(GroupAction(group, listenerPort).value)
    ensures exists r, b :: r in group && b in RouteBackends(r) && ClusterName(b) == c
  {
    GroupNames(group, listenerPort);
    MapMembers(ClusterName, AllBackends(group));
    MapMembers(ClusterName, MirrorBackends(group[0].requestMirrors));
    if c in Map(ClusterName, AllBackends(group)) {
      var b :| b in AllBackends(group) && ClusterName(b) == c;
      BackendsOfGroup(group);
      var r :| r in group && b in r.backends;
      assert r in group && b in RouteBackends(r);
    } else {
      var b :| b in MirrorBackends(group[0].requestMirrors) && ClusterName(b) == c;
      assert group[0] in group && b in RouteBackends(group[0]);
    }
  }

  lemma EntryNames(routes: seq<HTTPRoute>, key: HTTPRoute -> string, host: string, suffix: bool, listenerPort: nat, e: Option<Route>, c: string)
    requires e in Emitted(routes, key, Backendless, RouteEmitter(host, suffix, listenerPort), |routes|)
    requires e.Some? && c in Named(e.value.action)
    ensures exists r, b :: r in routes && b in RouteBackends(r) && ClusterName(b) == c
  {
    var emit := RouteEmitter(host, suffix, listenerPort);
    EmittedOrigin(routes, key, Backendless, emit, |routes|, e);
    var i: nat :| i < |routes| && e == emit(GroupAt(routes, key, i));
    var group := GroupAt(routes, key, i);
    GroupRouteAction(group, host, suffix, listenerPort);
    GroupOrigin(group, listenerPort, c);
    WithKeyMember(routes, key, key(routes[i]));
  }

  lemma GroupRouteAction(group: seq<HTTPRoute>, host: string, suffix: bool, listenerPort: nat)
    ensures var e := RouteEmitter(host, suffix, listenerPort)(group);
      e.Some? ==> GroupAction(group, listenerPort) == Some(e.value.action)
  {
  }

  lemma HostRouteOrigin(routes: seq<HTTPRoute>, host: string, suffix: bool, listenerPort: nat, route: Route, c: string)
    requires route in HostRoutes(routes, host, suffix, listenerPort) && c in Named(route.action)
    ensures exists r, b :: r in routes && b in RouteBackends(r) && ClusterName(b) == c
  {
    var emitted := Emitted(routes, MatchKey.Key, Backendless, RouteEmitter(host, suffix, listenerPort), |routes|);
    SortMember(Map(Present, emitted), RouteLess);
    MapMembers(Present, emitted);
    var e :| e in emitted && Present(e) == route;
    EntryNames(routes, MatchKey.Key, host, suffix, listenerPort, e, c);
  }

  lemma SideOrigin(entries: seq<Entry>, secure: bool, enforceHTTPS: bool, suffix: bool, listenerPort: nat, vh: VirtualHost, route: Route, c: string)
    requires vh in StableSort(VirtualHosts(entries, secure, enforceHTTPS, suffix, listenerPort), ByName)
    requires route in vh.routes && c in Named(route.action)
    ensures exists e, b :: e in entries && b in RouteBackends(e.route) && ClusterName(b) == c
  {
    HostsOnSide(entries, secure, enforceHTTPS, suffix, listenerPort, vh);
    Redirects.AllRedirects(RoutesFor(entries, vh.name, true), vh.name, suffix);
    var routes := RoutesFor(entries, vh.name, secure);
    HostRouteOrigin(routes, vh.name, suffix, listenerPort, route, c);
    var r, b :| r in routes && b in RouteBackends(r) && ClusterName(b) == c;
    RoutesForOrigin(entries, vh.name, secure, r);
    assert Entry(secure, vh.name, r) in entries;
  }

  lemma BackendInModel(m: Model, r: HTTPRoute, b: Backend)
    requires (exists l :: l in m.http && r in l.routes) && b in RouteBackends(r)
    ensures b in HTTPBackends(m)
  {
    var f := (l: HTTPListener) => FlatMap(RouteBackends, l.routes);
    var l :| l in m.http && r in l.routes;
    FlatMapMember(RouteBackends, l.routes, b);
    assert b in f(l);
    FlatMapMember(f, m.http, b);
  }

  lemma RouteNamesDefined(m: Model, secure: bool, enforceHTTPS: bool, suffix: bool, c: string)
    requires RouteNames(m, secure, enforceHTTPS, suffix, c)
    ensures exists b :: b in HTTPBackends(m) && ClusterName(b) == c
  {
    var hosts := Configuration(m.http, secure, enforceHTTPS, suffix).value.virtualHosts;
    var vh, route :| vh in hosts && route in vh.routes && c in Named(route.action);
    var entries := Entries(m.http);
    SideOrigin(entries, secure, enforceHTTPS, suffix, FirstPort(m.http), vh, route, c);
    var e, b :| e in entries && b in RouteBackends(e.route) && ClusterName(b) == c;
    EntryOrigin(m.http, e);
    BackendInModel(m, e.route, b);
  }

  // ---------- filter chains and TCP listeners ----------

  lemma ChainNamesDefined(m: Model, c: string)
    requires ChainNames(m, c)
    ensures exists b :: b in TLSBackends(m) && ClusterName(b) == c
  {
    var u := ChainUse(Passthrough.Uses(m.tls), c);
    UseBackend(m, u);
  }

  lemma ChainUse(uses: seq<Passthrough.Use>, c: string) returns (u: Passthrough.Use)
    requires exists chain :: chain in Passthrough.Chains(uses) && chain.cluster == c
    ensures u in uses && u.cluster == c
  {
    var clusters := Map(Passthrough.ClusterOf, uses);
    SortedUniqueContents(clusters);
    MapMembers(Passthrough.ChainFor(uses), SortedUnique(clusters));
    assert c in clusters;
    MapMembers(Passthrough.ClusterOf, uses);
    u :| u in uses && u.cluster == c;
  }

  lemma UseBackend(m: Model, u: Passthrough.Use)
    requires u in Passthrough.Uses(m.tls)
    ensures exists b :: b in TLSBackends(m) && ClusterName(b) == u.cluster
  {
    FlatMapMember(Passthrough.ListenerUses, m.tls, u);
    var l :| l in m.tls && u in Passthrough.ListenerUses(l);
    FlatMapMember(Passthrough.RouteUses(l.name), l.routes, u);
    var r :| r in l.routes && u in Passthrough.RouteUses(l.name)(r);
    var i :| 0 <= i < |r.backends| && u == Passthrough.RouteUses(l.name)(r)[i];
    var b := r.backends[i];
    var f := (r: TLSRoute) => r.backends;
    var g := (l: TLSListener) => FlatMap((r: TLSRoute) => r.backends, l.routes);
    assert b in f(r);
    FlatMapMember(f, l.routes, b);
    assert b in g(l);
    FlatMapMember(g, m.tls, b);
  }

  lemma {:induction false} TCPClusterOrigin(routes: seq<TCPRoute>)
    requires TCPCluster(routes) != ""
    ensures exists r, b :: r in routes && b in r.backends && ClusterName(b) == TCPCluster(routes)
  {
    if routes[0].backends == [] {
      TCPClusterOrigin(routes[1..]);
      var r, b :| r in routes[1..] && b in r.backends && ClusterName(b) == TCPCluster(routes[1..]);
      assert r in routes;
    } else {
      assert routes[0] in routes && routes[0].backends[0] in routes[0].backends;
    }
  }

  lemma ListenerNamesDefined(m: Model, c: string)
    requires ListenerNames(m, c)
    ensures exists b :: b in TCPBackends(m) && ClusterName(b) == c
  {
    var p := (l: TCPListener) => if TCPCluster(l.routes) == "" then [] else [TCPProxy(l.port, TCPCluster(l.routes))];
    var proxy :| proxy in TCPProxies(m.tcp) && proxy.cluster == c;
    FlatMapMember(p, m.tcp, proxy);
    var l :| l in m.tcp && proxy in p(l);
    TCPClusterOrigin(l.routes);
    var r, b :| r in l.routes && b in r.backends && ClusterName(b) == TCPCluster(l.routes);
    var f := (r: TCPRoute) => r.backends;
    var g := (l: TCPListener) => FlatMap((r: TCPRoute) => r.backends, l.routes);
    assert b in f(r);
    FlatMapMember(f, l.routes, b);
    assert b in g(l);
    FlatMapMember(g, m.tcp, b);
  }

  // ---------- the theorem ----------

  lemma TargetNamed(backends: seq<Backend>, b: Backend)
    requires b in backends && b.port.Some?
    ensures TargetOf(b) in Targets(backends) && ClusterNameOf(TargetOf(b)) == ClusterName(b)
  {
  }

  ghost predicate DefinedOnce(clusters: seq<Clusters.Cluster>, c: string) {
    exists i :: 0 <= i < |clusters| && clusters[i].name == c && (forall j | 0 <= j < |clusters| && clusters[j].name == c :: j == i)
  }

  lemma DefinedByTarget(clusters: seq<Clusters.Cluster>, http: set<ServicePort>, tcp: set<ServicePort>, t: ServicePort)
    requires ClustersListed(clusters, http, tcp) && t in http + tcp
    ensures ClusterNameOf(t) in Map(ClusterLabel, clusters)
    ensures NamesApart(http) ==> DefinedOnce(clusters, ClusterNameOf(t))
  {
    var names := Map(ClusterLabel, clusters);
    assert HasName(http + tcp, ClusterNameOf(t));
    var i :| 0 <= i < |names| && names[i] == ClusterNameOf(t);
    if NamesApart(http) {
      forall j | 0 <= j < |clusters| && clusters[j].name == ClusterNameOf(t) ensures j == i {
        assert names[i] == names[j];
      }
    }
  }

  lemma ReferenceOfTarget(m: Model, enforceHTTPS: bool, suffix: bool, c: string)
    requires PortsPresent(m) && Referenced(m, enforceHTTPS, suffix, c)
    ensures exists t :: t in HTTPTargets(m) + OtherTargets(m) && ClusterNameOf(t) == c
  {
    var backends: seq<Backend>;
    if RouteNames(m, false, enforceHTTPS, suffix, c) {
      RouteNamesDefined(m, false, enforceHTTPS, suffix, c);
      backends := HTTPBackends(m);
    } else if RouteNames(m, true, enforceHTTPS, suffix, c) {
      RouteNamesDefined(m, true, enforceHTTPS, suffix, c);
      backends := HTTPBackends(m);
    } else if ChainNames(m, c) {
      ChainNamesDefined(m, c);
      backends := TLSBackends(m);
    } else {
      ListenerNamesDefined(m, c);
      backends := TCPBackends(m);
    }
    var b :| b in backends && ClusterName(b) == c;
    TargetNamed(backends, b);
  }

  // Whatever a route action, weighted cluster, mirror, passthrough chain or TCP listener names is defined by a cluster, and
  // by exactly one unless two HTTP targets share a name.
  lemma EveryReferenceDefined(m: Model, enforceHTTPS: bool, suffix: bool, clusters: seq<Clusters.Cluster>, c: string)
    requires PortsPresent(m) && ClustersListed(clusters, HTTPTargets(m), OtherTargets(m))
    requires Referenced(m, enforceHTTPS, suffix, c)
    ensures c in Map(ClusterLabel, clusters)
    ensures NamesApart(HTTPTargets(m)) ==> DefinedOnce(clusters, c)
  {
    ReferenceOfTarget(m, enforceHTTPS, suffix, c);
    var t :| t in HTTPTargets(m) + OtherTargets(m) && ClusterNameOf(t) == c;
    DefinedByTarget(clusters, HTTPTargets(m), OtherTargets(m), t);
  }

  // The service name of the cluster reads as the backend's namespace, service and port.
  ghost predicate LeadsTo(c: Clusters.Cluster, b: Backend) {
    var t := ReadService(c.serviceName);
    t.namespace == b.namespace && t.name == b.name && b.port.Some? &&
    if b.port.value.port != 0 then Strings.IsNumber(t.port) && Strings.Number(t.port) == b.port.value.port else t.port == b.port.value.name
  }

  // One cluster goes by the name that routes use for the backend, and it leads to the backend's service.
  ghost predicate ReachedBy(clusters: seq<Clusters.Cluster>, b: Backend) {
    DefinedOnce(clusters, ClusterName(b)) && forall c | c in clusters && c.name == ClusterName(b) :: LeadsTo(c, b)
  }

  // Namespaces hold neither slash nor colon, and ports no colon, as the API server admits them.
  ghost predicate Plain(b: Backend) {
    '/' !in b.namespace && ':' !in b.namespace && ':' !in PortText(b)
  }

  ghost predicate AllPlain(m: Model) {
    forall b | b in HTTPBackends(m) + TLSBackends(m) + TCPBackends(m) :: Plain(b)
  }

  lemma BackendOfTarget(m: Model, t: ServicePort)
    requires t in HTTPTargets(m) + OtherTargets(m)
    ensures exists b :: b in HTTPBackends(m) + TLSBackends(m) + TCPBackends(m) && b.port.Some? && TargetOf(b) == t
  {
    var all := HTTPBackends(m) + TLSBackends(m) + TCPBackends(m);
    if t in HTTPTargets(m) {
      var b :| b in HTTPBackends(m) && b.port.Some? && TargetOf(b) == t;
      assert b in all;
    } else if t in Targets(TLSBackends(m)) {
      var b :| b in TLSBackends(m) && b.port.Some? && TargetOf(b) == t;
      assert b in all;
    } else {
      var b :| b in TCPBackends(m) && b.port.Some? && TargetOf(b) == t;
      assert b in all;
    }
  }

  lemma TargetsPlain(m: Model, t: ServicePort)
    requires AllPlain(m) && t in HTTPTargets(m) + OtherTargets(m)
    ensures '/' !in t.namespace && ':' !in t.namespace && ':' !in t.port
  {
    BackendOfTarget(m, t);
    var b :| b in HTTPBackends(m) + TLSBackends(m) + TCPBackends(m) && b.port.Some? && TargetOf(b) == t;
    assert Plain(b);
  }

  lemma DefiningTarget(m: Model, clusters: seq<Clusters.Cluster>, c: Clusters.Cluster, t: ServicePort)
    requires AllPlain(m) && ClustersListed(clusters, HTTPTargets(m), OtherTargets(m)) && c in clusters
    requires t in HTTPTargets(m) + OtherTargets(m) && c.name == ClusterNameOf(t)
    ensures ReadService(c.serviceName) == t
  {
    var http, other := HTTPTargets(m), OtherTargets(m);
    assert Defines(c, c.name, http, other);
    var u :| u in (if c.http then http else other) && ClusterNameOf(u) == c.name && c.serviceName == ServiceNameOf(u);
    TargetsPlain(m, t);
    TargetsPlain(m, u);
    ClusterNamesInjective(t, u);
    ServiceNameReads(u);
  }

  lemma ModelBackendIsTarget(m: Model, b: Backend)
    requires b in HTTPBackends(m) + TLSBackends(m) + TCPBackends(m) && b.port.Some?
    ensures TargetOf(b) in HTTPTargets(m) + OtherTargets(m)
  {
    if b in HTTPBackends(m) {
      TargetNamed(HTTPBackends(m), b);
    } else if b in TLSBackends(m) {
      TargetNamed(TLSBackends(m), b);
    } else {
      TargetNamed(TCPBackends(m), b);
    }
  }

  // For every backend of the model, the cluster that a route names for it is defined, once, and leads to its service.
  lemma EveryBackendReached(m: Model, clusters: seq<Clusters.Cluster>, b: Backend)
    requires AllPlain(m) && ClustersListed(clusters, HTTPTargets(m), OtherTargets(m))
    requires b in HTTPBackends(m) + TLSBackends(m) + TCPBackends(m) && b.port.Some?
    ensures ReachedBy(clusters, b)
  {
    var t := TargetOf(b);
    ModelBackendIsTarget(m, b);
    forall x | x in HTTPTargets(m) ensures ':' !in x.namespace && ':' !in x.port {
      TargetsPlain(m, x);
    }
    NoColonApart(HTTPTargets(m));
    DefinedByTarget(clusters, HTTPTargets(m), OtherTargets(m), t);
    forall c | c in clusters && c.name == ClusterName(b) ensures LeadsTo(c, b) {
      DefiningTarget(m, clusters, c, t);
      PortReads(b);
    }
  }

  lemma ReferenceOfBackend(m: Model, enforceHTTPS: bool, suffix: bool, c: string)
    requires PortsPresent(m) && Referenced(m, enforceHTTPS, suffix, c)
    ensures exists b :: b in HTTPBackends(m) + TLSBackends(m) + TCPBackends(m) && b.port.Some? && ClusterName(b) == c
  {
    ReferenceOfTarget(m, enforceHTTPS, suffix, c);
    var t :| t in HTTPTargets(m) + OtherTargets(m) && ClusterNameOf(t) == c;
    BackendOfTarget(m, t);
  }

  // So whatever is named anywhere leads to the service of a backend of the model that goes by that name.
  lemma EveryReferenceReached(m: Model, enforceHTTPS: bool, suffix: bool, clusters: seq<Clusters.Cluster>, c: string)
    requires PortsPresent(m) && AllPlain(m) && ClustersListed(clusters, HTTPTargets(m), OtherTargets(m))
    requires Referenced(m, enforceHTTPS, suffix, c)
    ensures exists b :: b in HTTPBackends(m) + TLSBackends(m) + TCPBackends(m) && ClusterName(b) == c && ReachedBy(clusters, b)
  {
    ReferenceOfBackend(m, enforceHTTPS, suffix, c);
    var b :| b in HTTPBackends(m) + TLSBackends(m) + TCPBackends(m) && b.port.Some? && ClusterName(b) == c;
    EveryBackendReached(m, clusters, b);
  }

  // The clusters are exactly those of the backend services' ports.
  lemma ClustersMatchServices(m: Model, clusters: seq<Clusters.Cluster>, services: seq<BackendService>, name: string)
    requires ClustersListed(clusters, HTTPTargets(m), OtherTargets(m))
    requires ServiceList(services, Targets(HTTPBackends(m)) + Targets(TLSBackends(m)) + Targets(TCPBackends(m)))
    ensures (exists c :: c in clusters && c.name == name)
       <==> (exists s, port :: s in services && port in s.ports && name == ClusterNameOf(ServicePort(s.namespace, s.name, port)))
  {
    var targets := Targets(HTTPBackends(m)) + Targets(TLSBackends(m)) + Targets(TCPBackends(m));
    assert HTTPTargets(m) + OtherTargets(m) == targets;
    NamesAreTargets(clusters, HTTPTargets(m), OtherTargets(m), name);
    PortsAreTargets(services, targets, name);
  }

  lemma NamesAreTargets(clusters: seq<Clusters.Cluster>, http: set<ServicePort>, tcp: set<ServicePort>, name: string)
    requires ClustersListed(clusters, http, tcp)
    ensures (exists c :: c in clusters && c.name == name) <==> (exists t :: t in http + tcp && name == ClusterNameOf(t))
  {
    var names := Map(ClusterLabel, clusters);
    MapMembers(ClusterLabel, clusters);
    assert name in names <==> HasName(http + tcp, name);
    if name in names {
      var i :| 0 <= i < |names| && names[i] == name;
      assert clusters[i] in clusters && clusters[i].name == name;
    }
    if c :| c in clusters && c.name == name {
      assert ClusterLabel(c) in names;
    }
  }

  lemma PortsAreTargets(services: seq<BackendService>, targets: set<ServicePort>, name: string)
    requires ServiceList(services, targets)
    ensures (exists t :: t in targets && name == ClusterNameOf(t))
       <==> (exists s, port :: s in services && port in s.ports && name == ClusterNameOf(ServicePort(s.namespace, s.name, port)))
  {
    if exists t :: t in targets && name == ClusterNameOf(t) {
      var t :| t in targets && name == ClusterNameOf(t);
      var s :| s in services && InService(s, t);
      assert t == ServicePort(s.namespace, s.name, t.port) && t.port in s.ports;
    }
    if exists s, port :: s in services && port in s.ports && name == ClusterNameOf(ServicePort(s.namespace, s.name, port)) {
      var s, port :| s in services && port in s.ports && name == ClusterNameOf(ServicePort(s.namespace, s.name, port));
      ServicePortsAre(services, targets, s, port);
    }
  }
}
