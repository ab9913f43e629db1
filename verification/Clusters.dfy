/** Backend services and Envoy clusters: collected through nested maps, listed in a fixed order. */
module Clusters {
  import opened Model
  import opened Sorting
  import Strings

  datatype ServicePort = ServicePort(namespace: string, name: string, port: string)

  function TargetOf(b: Backend): ServicePort {
    ServicePort(b.namespace, b.name, PortText(b))
  }

  function ClusterNameOf(t: ServicePort): string {
    t.namespace + ":" + t.name + ":" + t.port
  }

  function ServiceNameOf(t: ServicePort): string {
    t.namespace + "/" + t.name + ":" + t.port
  }

  // A service name as its readers take it apart: the namespace before the first slash, the port after the last colon.
  function ReadService(s: string): ServicePort {
    var (namespace, rest) := Strings.CutFirst(s, '/');
    var (name, port) := Strings.CutLast(rest, ':');
    ServicePort(namespace, name, port)
  }

  lemma ServiceNameReads(t: ServicePort)
    requires '/' !in t.namespace && ':' !in t.port
    ensures ReadService(ServiceNameOf(t)) == t
  {
    var rest := t.name + [':'] + t.port;
    assert ServiceNameOf(t) == t.namespace + ['/'] + rest;
    Strings.CutFirstAt(t.namespace, '/', rest);
    Strings.CutLastAt(t.name, ':', t.port);
  }

  // The port is the number, read back, where one is given, and the name otherwise.
  lemma PortReads(b: Backend)
    requires b.port.Some?
    ensures var port := b.port.value;
      if port.port != 0 then Strings.IsNumber(PortText(b)) && Strings.Number(PortText(b)) == port.port else PortText(b) == port.name
  {
    Strings.ItoaReads(b.port.value.port);
  }

  // ---------- the backends of a model ----------

  function MirrorBackends(mirrors: seq<RequestMirror>): seq<Backend> {
    if mirrors == [] then []
    else (if mirrors[0].backend.Some? then [mirrors[0].backend.value] else []) + MirrorBackends(mirrors[1..])
  }

  function RouteBackends(r: HTTPRoute): seq<Backend> {
    r.backends + MirrorBackends(r.requestMirrors)
  }

  function HTTPBackends(m: Model): seq<Backend> {
    FlatMap((l: HTTPListener) => FlatMap(RouteBackends, l.routes), m.http)
  }

  function TLSBackends(m: Model): seq<Backend> {
    FlatMap((l: TLSListener) => FlatMap((r: TLSRoute) => r.backends, l.routes), m.tls)
  }

  function TCPBackends(m: Model): seq<Backend> {
    FlatMap((l: TCPListener) => FlatMap((r: TCPRoute) => r.backends, l.routes), m.tcp)
  }

  // What a list of backends points at; a backend without a port points at nothing.
  ghost function Targets(backends: seq<Backend>): set<ServicePort> {
    set b | b in backends && b.port.Some? :: TargetOf(b)
  }

  // ---------- the nested map ----------

  type PortMap = map<string, map<string, seq<string>>>

  ghost predicate Holds(ports: PortMap, t: ServicePort) {
    t.namespace in ports && t.name in ports[t.namespace] && t.port in ports[t.namespace][t.name]
  }

  ghost predicate Collected(ports: PortMap, targets: set<ServicePort>) {
    && (forall t :: Holds(ports, t) <==> t in targets)
    && (forall ns, name | ns in ports && name in ports[ns] :: ports[ns][name] != [] && StrictlyAscending(ports[ns][name], Strings.Less))
  }

  // The infra package's slices.SortedUniqs.
  function SortedUnique(s: seq<string>): seq<string> {
    StableSort(Unique(s), Strings.Less)
  }

  lemma SortedUniqueContents(s: seq<string>)
    ensures StrictlyAscending(SortedUnique(s), Strings.Less)
    ensures forall x :: x in SortedUnique(s) <==> x in s
  {
    UniqueContents(s);
    SortMember(Unique(s), Strings.Less);
    StringOrder();
    SortAscending(Unique(s), Strings.Less);
    SortKeepsDistinct(Unique(s), Strings.Less);
  }

  // One step of mergeBackendsInNamespaceNamePortMap.
  method AddBackend(ports: PortMap, b: Backend, ghost targets: set<ServicePort>) returns (next: PortMap)
    requires Collected(ports, targets) && b.port.Some?
    ensures Collected(next, targets + {TargetOf(b)})
  {
    next := ports;
    if b.namespace !in next {
      next := next[b.namespace := map[]];
    }
    var names := next[b.namespace];
    var old_ := if b.name in names then names[b.name] else [];
    var list := SortedUnique(old_ + [PortText(b)]);
    SortedUniqueContents(old_ + [PortText(b)]);
    assert PortText(b) in list;
    next := next[b.namespace := names[b.name := list]];
    forall t ensures Holds(next, t) <==> t in targets + {TargetOf(b)} {
      assert Holds(ports, t) <==> t in targets;
    }
  }

  method MergeBackends(ports: PortMap, backends: seq<Backend>, ghost targets: set<ServicePort>) returns (next: PortMap)
    requires Collected(ports, targets)
    ensures Collected(next, targets + Targets(backends))
  {
    next := ports;
    assert targets + Targets(backends[..0]) == targets;
    for i := 0 to |backends|
      invariant Collected(next, targets + Targets(backends[..i]))
    {
      assert backends[..i + 1] == backends[..i] + [backends[i]];
      if backends[i].port.Some? {
        next := AddBackend(next, backends[i], targets + Targets(backends[..i]));
        assert targets + Targets(backends[..i]) + {TargetOf(backends[i])} == targets + Targets(backends[..i + 1]);
      } else {
        assert Targets(backends[..i]) == Targets(backends[..i + 1]);
      }
    }
    assert backends[..|backends|] == backends;
  }

  // Walks the nested map: every target once, in an order that is not specified.
  method ListTargets(ports: PortMap, ghost targets: set<ServicePort>) returns (list: seq<ServicePort>)
    requires Collected(ports, targets)
    ensures Distinct(list)
    ensures forall t :: t in list <==> t in targets
  {
    list := [];
    var spaces := ports.Keys;
    while spaces != {}
      invariant spaces <= ports.Keys && Distinct(list)
      invariant forall t :: t in list <==> Holds(ports, t) && t.namespace !in spaces
    {
      var ns :| ns in spaces;
      var part := ListNames(ns, ports[ns], ports, targets);
      DistinctConcat(list, part);
      list := list + part;
      spaces := spaces - {ns};
    }
  }

  method ListNames(ns: string, names: map<string, seq<string>>, ghost ports: PortMap, ghost targets: set<ServicePort>)
    returns (list: seq<ServicePort>)
    requires Collected(ports, targets) && ns in ports && names == ports[ns]
    ensures Distinct(list)
    ensures forall t :: t in list <==> Holds(ports, t) && t.namespace == ns
  {
    list := [];
    var left := names.Keys;
    while left != {}
      invariant left <= names.Keys && Distinct(list)
      invariant forall t :: t in list <==> Holds(ports, t) && t.namespace == ns && t.name !in left
    {
      var name :| name in left;
      var part := ListPorts(ns, name, names[name]);
      DistinctConcat(list, part);
      list := list + part;
      left := left - {name};
    }
  }

  method ListPorts(ns: string, name: string, ports: seq<string>) returns (list: seq<ServicePort>)
    requires StrictlyAscending(ports, Strings.Less)
    ensures Distinct(list)
    ensures forall t :: t in list <==> t.namespace == ns && t.name == name && t.port in ports
  {
    StringOrder();
    list := [];
    for i := 0 to |ports|
      invariant |list| == i && forall j | 0 <= j < i :: list[j] == ServicePort(ns, name, ports[j])
    {
      list := list + [ServicePort(ns, name, ports[i])];
    }
    forall t ensures t in list <==> t.namespace == ns && t.name == name && t.port in ports {
      if t.namespace == ns && t.name == name && t.port in ports {
        var j :| 0 <= j < |ports| && ports[j] == t.port;
        assert list[j] == t;
      }
    }
  }

  // ---------- collecting from the model ----------

  lemma TargetsConcat(a: seq<Backend>, b: seq<Backend>)
    ensures Targets(a + b) == Targets(a) + Targets(b)
  {
  }

  // getNamespaceNamePortsMapForHTTP: for each route its backends, then its mirrors one at a time.
  method CollectHTTP(ports: PortMap, m: Model, ghost targets: set<ServicePort>) returns (next: PortMap)
    requires Collected(ports, targets)
    ensures Collected(next, targets + Targets(HTTPBackends(m)))
  {
    ghost var all := (l: HTTPListener) => FlatMap(RouteBackends, l.routes);
    next := ports;
    assert targets + Targets(FlatMap(all, m.http[..0])) == targets;
    for i := 0 to |m.http|
      invariant Collected(next, targets + Targets(FlatMap(all, m.http[..i])))
    {
      next := CollectRoutes(next, m.http[i].routes, targets + Targets(FlatMap(all, m.http[..i])));
      TargetsNext(targets, all, m.http, i);
    }
    assert m.http[..|m.http|] == m.http;
  }

  method CollectRoutes(ports: PortMap, routes: seq<HTTPRoute>, ghost targets: set<ServicePort>) returns (next: PortMap)
    requires Collected(ports, targets)
    ensures Collected(next, targets + Targets(FlatMap(RouteBackends, routes)))
  {
    next := ports;
    assert targets + Targets(FlatMap(RouteBackends, routes[..0])) == targets;
    for j := 0 to |routes|
      invariant Collected(next, targets + Targets(FlatMap(RouteBackends, routes[..j])))
    {
      var r := routes[j];
      ghost var before := targets + Targets(FlatMap(RouteBackends, routes[..j]));
      next := MergeBackends(next, r.backends, before);
      next := CollectMirrors(next, r.requestMirrors, before + Targets(r.backends));
      TargetsConcat(r.backends, MirrorBackends(r.requestMirrors));
      TargetsNext(targets, RouteBackends, routes, j);
      assert before + Targets(r.backends) + Targets(MirrorBackends(r.requestMirrors)) == before + Targets(RouteBackends(r));
    }
    assert routes[..|routes|] == routes;
  }

  lemma TargetsNext<T>(targets: set<ServicePort>, f: T -> seq<Backend>, s: seq<T>, i: nat)
    requires i < |s|
    ensures targets + Targets(FlatMap(f, s[..i])) + Targets(f(s[i])) == targets + Targets(FlatMap(f, s[..i + 1]))
  {
    FlatMapSnoc(f, s, i);
    TargetsConcat(FlatMap(f, s[..i]), f(s[i]));
  }

  method CollectMirrors(ports: PortMap, mirrors: seq<RequestMirror>, ghost targets: set<ServicePort>) returns (next: PortMap)
    requires Collected(ports, targets)
    ensures Collected(next, targets + Targets(MirrorBackends(mirrors)))
  {
    next := ports;
    var i := 0;
    ghost var done := targets;
    while i < |mirrors|
      invariant 0 <= i <= |mirrors| && Collected(next, done)
      invariant done + Targets(MirrorBackends(mirrors[i..])) == targets + Targets(MirrorBackends(mirrors))
    {
      ghost var rest := MirrorBackends(mirrors[i + 1..]);
      assert mirrors[i..][1..] == mirrors[i + 1..];
      if mirrors[i].backend.Some? {
        var one := [mirrors[i].backend.value];
        next := MergeBackends(next, one, done);
        TargetsConcat(one, rest);
        done := done + Targets(one);
      } else {
        assert [] + rest == rest;
      }
      i := i + 1;
    }
    assert Targets(MirrorBackends(mirrors[i..])) == {};
    assert done == targets + Targets(MirrorBackends(mirrors));
  }

  // getNamespaceNamePortsMapForTLS
  method CollectTLS(ports: PortMap, m: Model, ghost targets: set<ServicePort>) returns (next: PortMap)
    requires Collected(ports, targets)
    ensures Collected(next, targets + Targets(TLSBackends(m)))
  {
    next := ports;
    var lists := FlatMap((l: TLSListener) => l.routes, m.tls);
    FlatMapNested((l: TLSListener) => l.routes, (r: TLSRoute) => r.backends,
                  (l: TLSListener) => FlatMap((r: TLSRoute) => r.backends, l.routes), m.tls);
    next := CollectBackends(next, (r: TLSRoute) => r.backends, lists, targets);
  }

  // getNamespaceNamePortsMapForTCP
  method CollectTCP(ports: PortMap, m: Model, ghost targets: set<ServicePort>) returns (next: PortMap)
    requires Collected(ports, targets)
    ensures Collected(next, targets + Targets(TCPBackends(m)))
  {
    next := ports;
    var lists := FlatMap((l: TCPListener) => l.routes, m.tcp);
    FlatMapNested((l: TCPListener) => l.routes, (r: TCPRoute) => r.backends,
                  (l: TCPListener) => FlatMap((r: TCPRoute) => r.backends, l.routes), m.tcp);
    next := CollectBackends(next, (r: TCPRoute) => r.backends, lists, targets);
  }

  method CollectBackends<R>(ports: PortMap, backendsOf: R -> seq<Backend>, routes: seq<R>, ghost targets: set<ServicePort>)
    returns (next: PortMap)
    requires Collected(ports, targets)
    ensures Collected(next, targets + Targets(FlatMap(backendsOf, routes)))
  {
    next := ports;
    assert targets + Targets(FlatMap(backendsOf, routes[..0])) == targets;
    for j := 0 to |routes|
      invariant Collected(next, targets + Targets(FlatMap(backendsOf, routes[..j])))
    {
      next := MergeBackends(next, backendsOf(routes[j]), targets + Targets(FlatMap(backendsOf, routes[..j])));
      FlatMapSnoc(backendsOf, routes, j);
      TargetsConcat(FlatMap(backendsOf, routes[..j]), backendsOf(routes[j]));
      assert targets + Targets(FlatMap(backendsOf, routes[..j])) + Targets(backendsOf(routes[j]))
          == targets + Targets(FlatMap(backendsOf, routes[..j + 1]));
    }
    assert routes[..|routes|] == routes;
  }

  lemma {:induction false} FlatMapNested<S(!new), T, U>(f: S -> seq<T>, g: T -> seq<U>, h: S -> seq<U>, s: seq<S>)
    requires forall x :: h(x) == FlatMap(g, f(x))
    ensures FlatMap(g, FlatMap(f, s)) == FlatMap(h, s)
  {
    if s != [] {
      FlatMapNested(f, g, h, s[..|s| - 1]);
      FlatMapConcat(g, FlatMap(f, s[..|s| - 1]), f(s[|s| - 1]));
    }
  }

  // ---------- backend services ----------

  datatype BackendService = BackendService(name: string, namespace: string, ports: seq<string>)

  function FirstOr(s: seq<string>): string {
    if s == [] then "" else s[0]
  }

  predicate ServiceLess(a: BackendService, b: BackendService) {
    if a.namespace != b.namespace then Strings.Less(a.namespace, b.namespace)
    else if a.name != b.name then Strings.Less(a.name, b.name)
    else Strings.Less(FirstOr(a.ports), FirstOr(b.ports))
  }

  lemma ServiceOrder()
    ensures StrictWeakOrder(ServiceLess)
  {
    StringOrder();
    forall x, y, z | ServiceLess(x, z) ensures ServiceLess(x, y) || ServiceLess(y, z) {
      assert x.namespace != z.namespace ==> Strings.Less(x.namespace, y.namespace) || Strings.Less(y.namespace, z.namespace);
    }
  }

  // Services are in order of namespace and then name.
  lemma ServicesInOrder(list: seq<BackendService>, targets: set<ServicePort>, i: nat, j: nat)
    requires ServiceList(list, targets) && i < j < |list|
    ensures Strings.Less(list[i].namespace, list[j].namespace)
         || (list[i].namespace == list[j].namespace && Strings.Less(list[i].name, list[j].name))
  {
  }

  ghost predicate InService(s: BackendService, t: ServicePort) {
    s.namespace == t.namespace && s.name == t.name && t.port in s.ports
  }

  // One service for each namespace and name that is pointed at, in their order, each with exactly its ports, sorted.
  ghost predicate ServiceList(list: seq<BackendService>, targets: set<ServicePort>) {
    && (forall i, j | 0 <= i < j < |list| :: ServiceLess(list[i], list[j]) && (list[i].namespace, list[i].name) != (list[j].namespace, list[j].name))
    && (forall s | s in list :: s.ports != [] && StrictlyAscending(s.ports, Strings.Less))
    && (forall t :: t in targets <==> exists s :: s in list && InService(s, t))
  }

  ghost predicate DistinctServices(list: seq<BackendService>) {
    forall i, j | 0 <= i < j < |list| :: (list[i].namespace, list[i].name) != (list[j].namespace, list[j].name)
  }

  ghost predicate Lists(list: seq<BackendService>, ports: PortMap, spaces: set<string>) {
    && DistinctServices(list)
    && (forall s :: s in list <==> s.namespace in spaces && s.namespace in ports && s.name in ports[s.namespace] && s.ports == ports[s.namespace][s.name])
  }

  method ListServices(ports: PortMap) returns (list: seq<BackendService>)
    ensures Lists(list, ports, ports.Keys)
  {
    list := [];
    var left := ports.Keys;
    while left != {}
      invariant left <= ports.Keys && Lists(list, ports, ports.Keys - left)
    {
      var ns :| ns in left;
      var part := ListServicesIn(ns, ports[ns]);
      assert forall i, j | 0 <= i < |list| && 0 <= j < |part| :: list[i].namespace != part[j].namespace by {
        forall i, j | 0 <= i < |list| && 0 <= j < |part| ensures list[i].namespace != part[j].namespace {
          assert list[i] in list && part[j] in part;
        }
      }
      list := list + part;
      left := left - {ns};
    }
    assert ports.Keys - left == ports.Keys;
  }

  method ListServicesIn(ns: string, names: map<string, seq<string>>) returns (list: seq<BackendService>)
    ensures DistinctServices(list)
    ensures forall s :: s in list <==> s.namespace == ns && s.name in names && s.ports == names[s.name]
  {
    list := [];
    var left := names.Keys;
    while left != {}
      invariant left <= names.Keys && DistinctServices(list)
      invariant forall s :: s in list <==> s.namespace == ns && s.name in names && s.name !in left && s.ports == names[s.name]
    {
      var name :| name in left;
      assert forall i | 0 <= i < |list| :: list[i] in list;
      list := list + [BackendService(name, ns, names[name])];
      left := left - {name};
    }
  }

  // getBackendServices
  method GetBackendServices(m: Model) returns (res: seq<BackendService>)
    ensures ServiceList(res, Targets(HTTPBackends(m)) + Targets(TLSBackends(m)) + Targets(TCPBackends(m)))
  {
    var ports := CollectHTTP(map[], m, {});
    ports := CollectTLS(ports, m, {} + Targets(HTTPBackends(m)));
    ports := CollectTCP(ports, m, {} + Targets(HTTPBackends(m)) + Targets(TLSBackends(m)));
    ghost var targets := Targets(HTTPBackends(m)) + Targets(TLSBackends(m)) + Targets(TCPBackends(m));
    assert {} + Targets(HTTPBackends(m)) + Targets(TLSBackends(m)) + Targets(TCPBackends(m)) == targets;
    var list := ListServices(ports);
    res := StableSort(list, ServiceLess);
    SortedServices(ports, list, targets);
  }

  lemma {:induction false} SortKeepsServicesDistinct(list: seq<BackendService>)
    requires DistinctServices(list)
    ensures DistinctServices(StableSort(list, ServiceLess))
  {
    var sorted := StableSort(list, ServiceLess);
    assert Distinct(list);
    SortKeepsDistinct(list, ServiceLess);
    SortMember(list, ServiceLess);
    forall i, j | 0 <= i < j < |sorted| ensures (sorted[i].namespace, sorted[i].name) != (sorted[j].namespace, sorted[j].name) {
      assert sorted[i] in sorted && sorted[j] in sorted && sorted[i] != sorted[j];
      var a :| 0 <= a < |list| && list[a] == sorted[i];
      var b :| 0 <= b < |list| && list[b] == sorted[j];
      assert a < b || b < a;
    }
  }

  lemma SortedServices(ports: PortMap, list: seq<BackendService>, targets: set<ServicePort>)
    requires Collected(ports, targets) && Lists(list, ports, ports.Keys)
    ensures ServiceList(StableSort(list, ServiceLess), targets)
  {
    var sorted := StableSort(list, ServiceLess);
    SortKeepsServicesDistinct(list);
    SortMember(list, ServiceLess);
    ServiceOrder();
    SortAscending(list, ServiceLess);
    StringOrder();
    forall t ensures t in targets <==> exists s :: s in sorted && InService(s, t) {
      assert Holds(ports, t) <==> t in targets;
      if Holds(ports, t) {
        var s := BackendService(t.name, t.namespace, ports[t.namespace][t.name]);
        assert s in sorted && InService(s, t);
      }
    }
  }

  lemma ServicePortsAre(list: seq<BackendService>, targets: set<ServicePort>, s: BackendService, port: string)
    requires ServiceList(list, targets) && s in list
    ensures port in s.ports <==> ServicePort(s.namespace, s.name, port) in targets
  {
    var t := ServicePort(s.namespace, s.name, port);
    if port in s.ports {
      assert InService(s, t);
    }
    if t in targets {
      var other :| other in list && InService(other, t);
      var i :| 0 <= i < |list| && list[i] == s;
      var j :| 0 <= j < |list| && list[j] == other;
      assert i == j;
    }
  }

  lemma ServiceInOther(a: seq<BackendService>, b: seq<BackendService>, targets: set<ServicePort>, s: BackendService)
    requires ServiceList(a, targets) && ServiceList(b, targets) && s in a
    ensures s in b
  {
    var t := ServicePort(s.namespace, s.name, s.ports[0]);
    assert s.ports[0] in s.ports && InService(s, t);
    assert t in targets;
    var other :| other in b && InService(other, t);
    forall port ensures port in s.ports <==> port in other.ports {
      ServicePortsAre(a, targets, s, port);
      ServicePortsAre(b, targets, other, port);
    }
    StringOrder();
    StrictlyAscendingUnique(s.ports, other.ports, Strings.Less);
  }

  // The targets alone determine the list, so the order in which the maps are walked does not matter.
  lemma ServiceListUnique(a: seq<BackendService>, b: seq<BackendService>, targets: set<ServicePort>)
    requires ServiceList(a, targets) && ServiceList(b, targets)
    ensures a == b
  {
    forall s ensures s in a <==> s in b {
      if s in a { ServiceInOther(a, b, targets, s); }
      if s in b { ServiceInOther(b, a, targets, s); }
    }
    ServiceOrder();
    StrictlyAscendingUnique(a, b, ServiceLess);
  }

  // ---------- clusters ----------

  // http tells an HTTP cluster (with idle timeout and outlier detection) from a plain TCP one.
  datatype Cluster = Cluster(name: string, serviceName: string, http: bool)

  function ClusterLabel(c: Cluster): string { c.name }

  // Neither namespaces nor ports hold a colon; the name of a service may.
  ghost predicate NoColon(targets: set<ServicePort>) {
    forall t | t in targets :: ':' !in t.namespace && ':' !in t.port
  }

  // A cluster name determines its target if it has no colons but those around the service's name.
  lemma ClusterNamesInjective(a: ServicePort, b: ServicePort)
    requires ':' !in a.namespace && ':' !in a.port && ':' !in b.namespace && ':' !in b.port
    requires ClusterNameOf(a) == ClusterNameOf(b)
    ensures a == b
  {
    var x, y := a.name + ":" + a.port, b.name + ":" + b.port;
    assert ClusterNameOf(a) == a.namespace + ":" + x && ClusterNameOf(b) == b.namespace + ":" + y;
    Strings.CutUnique(a.namespace, x, b.namespace, y, ':');
    Strings.LastCutUnique(a.name, a.port, b.name, b.port, ':');
  }

  // With a colon in a namespace, or in a port, it need not.
  lemma ClusterNamesCollide()
    ensures ClusterNameOf(ServicePort("a", "b:c", "d")) == ClusterNameOf(ServicePort("a:b", "c", "d"))
    ensures ClusterNameOf(ServicePort("a", "b:c", "d")) == ClusterNameOf(ServicePort("a", "b", "c:d"))
  {
  }

  ghost predicate HasName(targets: set<ServicePort>, n: string) {
    exists t :: t in targets && ClusterNameOf(t) == n
  }

  // No two of the targets share a cluster name.
  ghost predicate NamesApart(targets: set<ServicePort>) {
    forall a, b | a in targets && b in targets && ClusterNameOf(a) == ClusterNameOf(b) :: a == b
  }

  // The cluster of a name is one of the targets of that name, an HTTP one where there is one.
  ghost predicate Defines(c: Cluster, n: string, http: set<ServicePort>, tcp: set<ServicePort>) {
    && c.name == n && (c.http <==> HasName(http, n))
    && exists t :: t in (if c.http then http else tcp) && ClusterNameOf(t) == n && c.serviceName == ServiceNameOf(t)
  }

  // In order of name, all names that the targets have, each with one definition, and none twice if and only if no two
  // HTTP targets share a name.
  ghost predicate ClustersListed(list: seq<Cluster>, http: set<ServicePort>, tcp: set<ServicePort>) {
    && Ascending(Map(ClusterLabel, list), Strings.Less)
    && (forall n :: n in Map(ClusterLabel, list) <==> HasName(http + tcp, n))
    && (forall c | c in list :: Defines(c, c.name, http, tcp))
    && (forall a, b | a in list && b in list && a.name == b.name :: a == b)
    && (Distinct(Map(ClusterLabel, list)) <==> NamesApart(http))
  }

  // The clusters of HTTP targets and of other targets: one per target, in order of name, HTTP where any HTTP route
  // points at it.
  ghost predicate ClusterList(list: seq<Cluster>, http: set<ServicePort>, tcp: set<ServicePort>) {
    && StrictlyAscending(Map(ClusterLabel, list), Strings.Less)
    && (forall c | c in list :: exists t :: t in http + tcp && c == Cluster(ClusterNameOf(t), ServiceNameOf(t), t in http))
    && (forall t | t in http + tcp :: Cluster(ClusterNameOf(t), ServiceNameOf(t), t in http) in list)
  }

  lemma NoColonApart(targets: set<ServicePort>)
    requires NoColon(targets)
    ensures NamesApart(targets)
  {
    forall a, b | a in targets && b in targets && ClusterNameOf(a) == ClusterNameOf(b) ensures a == b {
      ClusterNamesInjective(a, b);
    }
  }

  lemma TargetOfCluster(c: Cluster, http: set<ServicePort>, tcp: set<ServicePort>)
    requires NamesApart(http + tcp) && Defines(c, c.name, http, tcp)
    ensures exists t :: t in http + tcp && c == Cluster(ClusterNameOf(t), ServiceNameOf(t), t in http)
  {
    var t :| t in (if c.http then http else tcp) && ClusterNameOf(t) == c.name && c.serviceName == ServiceNameOf(t);
    assert t in http + tcp && (t in http <==> c.http);
  }

  // Where names keep the targets apart, there is one cluster for each target.
  lemma ClustersExact(list: seq<Cluster>, http: set<ServicePort>, tcp: set<ServicePort>)
    requires ClustersListed(list, http, tcp) && NamesApart(http + tcp)
    ensures ClusterList(list, http, tcp)
  {
    var names := Map(ClusterLabel, list);
    assert NamesApart(http);
    StringOrder();
    assert StrictlyAscending(names, Strings.Less);
    forall c | c in list ensures exists t :: t in http + tcp && c == Cluster(ClusterNameOf(t), ServiceNameOf(t), t in http) {
      TargetOfCluster(c, http, tcp);
    }
    forall t | t in http + tcp ensures Cluster(ClusterNameOf(t), ServiceNameOf(t), t in http) in list {
      assert HasName(http + tcp, ClusterNameOf(t));
      var i :| 0 <= i < |names| && names[i] == ClusterNameOf(t);
      TargetOfCluster(list[i], http, tcp);
      assert list[i] in list;
    }
  }

  // The map and the list of names that getClusters fills.
  ghost predicate Filled(clusters: map<string, Cluster>, names: seq<string>, http: set<ServicePort>, tcp: set<ServicePort>) {
    && (forall n :: n in names <==> n in clusters)
    && (forall n :: n in clusters <==> HasName(http + tcp, n))
    && (forall n | n in clusters :: Defines(clusters[n], n, http, tcp))
    && (Distinct(names) <==> NamesApart(http))
  }

  lemma HasNameAdded(targets: set<ServicePort>, t: ServicePort, n: string)
    ensures HasName(targets + {t}, n) <==> HasName(targets, n) || ClusterNameOf(t) == n
  {
    if HasName(targets, n) {
      var u :| u in targets && ClusterNameOf(u) == n;
      assert u in targets + {t};
    }
    assert t in targets + {t};
  }

  lemma ApartAdded(targets: set<ServicePort>, t: ServicePort)
    requires t !in targets
    ensures NamesApart(targets + {t}) <==> NamesApart(targets) && !HasName(targets, ClusterNameOf(t))
  {
    assert t in targets + {t};
    if HasName(targets, ClusterNameOf(t)) {
      var u :| u in targets && ClusterNameOf(u) == ClusterNameOf(t);
      assert u in targets + {t};
    }
    if !NamesApart(targets) {
      var a, b :| a in targets && b in targets && ClusterNameOf(a) == ClusterNameOf(b) && a != b;
      assert a in targets + {t} && b in targets + {t};
    }
  }

  lemma DistinctAdded(names: seq<string>, n: string)
    ensures Distinct(names + [n]) <==> Distinct(names) && n !in names
  {
    var all := names + [n];
    if Distinct(all) {
      forall i, j | 0 <= i < j < |names| ensures names[i] != names[j] {
        assert all[i] != all[j];
      }
      forall i | 0 <= i < |names| ensures names[i] != n {
        assert all[i] != all[|names|];
      }
    }
  }

  lemma FilledHTTP(clusters: map<string, Cluster>, names: seq<string>, t: ServicePort, http: set<ServicePort>)
    requires Filled(clusters, names, http, {}) && t !in http
    ensures var name := ClusterNameOf(t);
      Filled(clusters[name := Cluster(name, ServiceNameOf(t), true)], names + [name], http + {t}, {})
  {
    var name := ClusterNameOf(t);
    var next := clusters[name := Cluster(name, ServiceNameOf(t), true)];
    ApartAdded(http, t);
    DistinctAdded(names, name);
    assert http + {} == http && http + {t} + {} == http + {t} && t in http + {t};
    forall n ensures HasName(http + {t}, n) <==> HasName(http, n) || name == n {
      HasNameAdded(http, t, n);
    }
    forall n | n in next && n != name ensures Defines(next[n], n, http + {t}, {}) {
      assert HasName(http, n);
      var u :| u in http && ClusterNameOf(u) == n && clusters[n].serviceName == ServiceNameOf(u);
      assert u in http + {t};
    }
  }

  lemma FilledTCP(clusters: map<string, Cluster>, names: seq<string>, t: ServicePort, http: set<ServicePort>, tcp: set<ServicePort>)
    requires Filled(clusters, names, http, tcp)
    ensures var name := ClusterNameOf(t);
      if name in clusters then Filled(clusters, names, http, tcp + {t})
      else Filled(clusters[name := Cluster(name, ServiceNameOf(t), false)], names + [name], http, tcp + {t})
  {
    var name := ClusterNameOf(t);
    var next := if name in clusters then clusters else clusters[name := Cluster(name, ServiceNameOf(t), false)];
    DistinctAdded(names, name);
    assert http + (tcp + {t}) == http + tcp + {t} && t in tcp + {t};
    forall n ensures HasName(http + tcp + {t}, n) <==> HasName(http + tcp, n) || name == n {
      HasNameAdded(http + tcp, t, n);
    }
    forall n | n in next ensures Defines(next[n], n, http, tcp + {t}) {
      if n in clusters {
        DefinesMore(clusters[n], n, http, tcp, t);
      } else {
        NotHTTP(n, http, tcp);
      }
    }
  }

  lemma DefinesMore(c: Cluster, n: string, http: set<ServicePort>, tcp: set<ServicePort>, t: ServicePort)
    requires Defines(c, n, http, tcp)
    ensures Defines(c, n, http, tcp + {t})
  {
    var u :| u in (if c.http then http else tcp) && ClusterNameOf(u) == n && c.serviceName == ServiceNameOf(u);
    assert u in tcp ==> u in tcp + {t};
  }

  lemma NotHTTP(n: string, http: set<ServicePort>, tcp: set<ServicePort>)
    requires !HasName(http + tcp, n)
    ensures !HasName(http, n)
  {
    forall u | u in http ensures ClusterNameOf(u) != n {
      assert u in http + tcp;
    }
  }

  ghost function Elements(list: seq<ServicePort>): set<ServicePort> {
    set t | t in list
  }

  lemma ElementsSnoc(list: seq<ServicePort>, i: nat)
    requires i < |list|
    ensures Elements(list[..i + 1]) == Elements(list[..i]) + {list[i]}
  {
    assert list[..i + 1] == list[..i] + [list[i]];
  }

  method AddHTTPClusters(list: seq<ServicePort>) returns (clusters: map<string, Cluster>, names: seq<string>)
    requires Distinct(list)
    ensures Filled(clusters, names, Elements(list), {})
  {
    clusters, names := map[], [];
    for i := 0 to |list|
      invariant Filled(clusters, names, Elements(list[..i]), {})
    {
      var t := list[i];
      ElementsSnoc(list, i);
      FilledHTTP(clusters, names, t, Elements(list[..i]));
      var name := ClusterNameOf(t);
      names := names + [name];
      clusters := clusters[name := Cluster(name, ServiceNameOf(t), true)];
    }
    assert list[..|list|] == list;
  }

  method AddTCPClusters(clusters: map<string, Cluster>, names: seq<string>, list: seq<ServicePort>, ghost http: set<ServicePort>, ghost tcp: set<ServicePort>)
    returns (clusters': map<string, Cluster>, names': seq<string>)
    requires Filled(clusters, names, http, tcp)
    ensures Filled(clusters', names', http, tcp + Elements(list))
  {
    clusters', names' := clusters, names;
    assert tcp + Elements(list[..0]) == tcp;
    for i := 0 to |list|
      invariant Filled(clusters', names', http, tcp + Elements(list[..i]))
    {
      var t := list[i];
      ElementsSnoc(list, i);
      assert tcp + Elements(list[..i + 1]) == tcp + Elements(list[..i]) + {t};
      FilledTCP(clusters', names', t, http, tcp + Elements(list[..i]));
      var name := ClusterNameOf(t);
      if name !in clusters' {
        names' := names' + [name];
        clusters' := clusters'[name := Cluster(name, ServiceNameOf(t), false)];
      }
    }
    assert list[..|list|] == list;
  }

  lemma SortedClusters(
    clusters: map<string, Cluster>, names: seq<string>, sorted: seq<string>, http: set<ServicePort>, tcp: set<ServicePort>, list: seq<Cluster>)
    requires Filled(clusters, names, http, tcp)
    requires sorted == StableSort(names, Strings.Less) && |list| == |sorted|
    requires forall i | 0 <= i < |sorted| :: sorted[i] in clusters && list[i] == clusters[sorted[i]]
    ensures ClustersListed(list, http, tcp)
  {
    SortedNames(clusters, names, http, tcp);
    assert Map(ClusterLabel, list) == sorted by {
      forall i | 0 <= i < |sorted| ensures list[i].name == sorted[i] {
        assert Defines(clusters[sorted[i]], sorted[i], http, tcp);
      }
    }
    forall c | c in list ensures Defines(c, c.name, http, tcp) && c.name in clusters && c == clusters[c.name] {
      var i :| 0 <= i < |list| && list[i] == c;
      assert Defines(clusters[sorted[i]], sorted[i], http, tcp);
    }
  }

  lemma SortedNames(clusters: map<string, Cluster>, names: seq<string>, http: set<ServicePort>, tcp: set<ServicePort>)
    requires Filled(clusters, names, http, tcp)
    ensures Ascending(StableSort(names, Strings.Less), Strings.Less)
    ensures Distinct(StableSort(names, Strings.Less)) <==> Distinct(names)
    ensures forall n :: n in StableSort(names, Strings.Less) <==> n in clusters
  {
    SortMember(names, Strings.Less);
    SortDistinctIff(names);
    StringOrder();
    SortAscending(names, Strings.Less);
  }

  lemma SortDistinctIff(names: seq<string>)
    ensures Distinct(StableSort(names, Strings.Less)) <==> Distinct(names)
  {
    SortContents(names, Strings.Less);
    DistinctByCount(names);
    DistinctByCount(StableSort(names, Strings.Less));
  }

  lemma {:induction false} DistinctByCount(names: seq<string>)
    ensures Distinct(names) <==> forall n | n in multiset(names) :: multiset(names)[n] == 1
  {
    if names != [] {
      var front, last := names[..|names| - 1], names[|names| - 1];
      assert names == front + [last];
      DistinctByCount(front);
      DistinctAdded(front, last);
      var all, some := multiset(names), multiset(front);
      assert all == some + multiset{last};
      assert last in front <==> some[last] > 0;
      if forall n | n in all :: all[n] == 1 {
        assert all[last] == 1;
        forall n | n in some ensures some[n] == 1 {
          assert n in all;
        }
      }
      if Distinct(names) {
        forall n | n in all ensures all[n] == 1 {
          assert n == last || n in some;
        }
      }
    }
  }

  // getClusters
  method GetClusters(m: Model) returns (res: seq<Cluster>)
    ensures ClustersListed(res, Targets(HTTPBackends(m)), Targets(TLSBackends(m)) + Targets(TCPBackends(m)))
  {
    ghost var http, tls, tcp := Targets(HTTPBackends(m)), Targets(TLSBackends(m)), Targets(TCPBackends(m));
    var httpPorts := CollectHTTP(map[], m, {});
    var tlsPorts := CollectTLS(map[], m, {});
    var tcpPorts := CollectTCP(map[], m, {});
    assert {} + http == http && {} + tls == tls && {} + tcp == tcp;
    var httpList := ListTargets(httpPorts, http);
    var tlsList := ListTargets(tlsPorts, tls);
    var tcpList := ListTargets(tcpPorts, tcp);
    assert Elements(httpList) == http && Elements(tlsList) == tls && Elements(tcpList) == tcp;
    var clusters, names := AddHTTPClusters(httpList);
    clusters, names := AddTCPClusters(clusters, names, tlsList, http, {});
    assert {} + tls == tls;
    clusters, names := AddTCPClusters(clusters, names, tcpList, http, tls);
    res := PickInOrder(clusters, names, http, tls + tcp);
  }

  method PickInOrder(clusters: map<string, Cluster>, names: seq<string>, ghost http: set<ServicePort>, ghost tcp: set<ServicePort>)
    returns (res: seq<Cluster>)
    requires Filled(clusters, names, http, tcp)
    ensures ClustersListed(res, http, tcp)
  {
    var sorted := StableSort(names, Strings.Less);
    SortedNames(clusters, names, http, tcp);
    res := Pick(clusters, sorted);
    SortedClusters(clusters, names, sorted, http, tcp, res);
  }

  method Pick(clusters: map<string, Cluster>, names: seq<string>) returns (res: seq<Cluster>)
    requires forall n | n in names :: n in clusters
    ensures |res| == |names| && forall i | 0 <= i < |names| :: names[i] in clusters && res[i] == clusters[names[i]]
  {
    res := [];
    for i := 0 to |names|
      invariant |res| == i && forall j | 0 <= j < i :: names[j] in clusters && res[j] == clusters[names[j]]
    {
      assert names[i] in names;
      res := res + [clusters[names[i]]];
    }
  }

  // The targets alone determine the clusters.
  lemma ClusterListUnique(a: seq<Cluster>, b: seq<Cluster>, http: set<ServicePort>, tcp: set<ServicePort>)
    requires ClusterList(a, http, tcp) && ClusterList(b, http, tcp)
    ensures a == b
  {
    StringOrder();
    ClustersAscend(a);
    ClustersAscend(b);
    forall c ensures c in a <==> c in b {
    }
    assert StrictWeakOrder(ClusterLess);
    StrictlyAscendingUnique(a, b, ClusterLess);
  }

  predicate ClusterLess(a: Cluster, b: Cluster) {
    Strings.Less(a.name, b.name)
  }

  lemma ClustersAscend(list: seq<Cluster>)
    requires StrictlyAscending(Map(ClusterLabel, list), Strings.Less)
    ensures StrictlyAscending(list, ClusterLess)
  {
    forall i, j | 0 <= i < j < |list| ensures ClusterLess(list[i], list[j]) {
      assert Strings.Less(Map(ClusterLabel, list)[i], Map(ClusterLabel, list)[j]);
    }
  }
}
