/** Ingesting TLSRoutes for a listener. */
module TLSIngestion {
  import opened Wrappers
  import opened Model
  import opened Sorting
  import opened GatewayObjects
  import opened Passthrough
  import ComputeHosts

  // The cluster a rule's backends are checked against: the services that exist, and whether a reference from a
  // namespace is allowed (same namespace or granted).
  datatype Cluster = Cluster(services: seq<NamespacedName>, allowed: (string, BackendRef) -> bool)

  // A backend reference a rule may use: allowed, a core Service, with a port, and existing.
  predicate Usable(ref: BackendRef, namespace: string, cluster: Cluster) {
    && cluster.allowed(namespace, ref)
    && (ref.kind.None? || ref.kind.value == "Service")
    && (ref.group.None? || ref.group.value == "")
    && ref.port.Some?
    && NamespacedName(NamespaceOr(ref.namespace, namespace), ref.name) in cluster.services
  }

  function ModelBackend(ref: BackendRef, namespace: string): Backend {
    Backend(ref.name, NamespaceOr(ref.namespace, namespace),
            if ref.port.Some? then Some(BackendPort(ref.port.value, "")) else None, ref.weight)
  }

  function UsedBackends(namespace: string, cluster: Cluster): BackendRef -> seq<Backend> {
    ref => if Usable(ref, namespace, cluster) then [ModelBackend(ref, namespace)] else []
  }

  function RuleBackends(refs: seq<BackendRef>, namespace: string, cluster: Cluster): seq<Backend> {
    FlatMap(UsedBackends(namespace, cluster), refs)
  }

  method ServiceExists(name: string, namespace: string, services: seq<NamespacedName>) returns (found: bool)
    ensures found <==> NamespacedName(namespace, name) in services
  {
    for i := 0 to |services|
      invariant NamespacedName(namespace, name) !in services[..i]
    {
      if services[i].name == name && services[i].namespace == namespace {
        return true;
      }
    }
    return false;
  }

  method CollectBackends(refs: seq<BackendRef>, namespace: string, cluster: Cluster) returns (backends: seq<Backend>)
    ensures backends == RuleBackends(refs, namespace, cluster)
  {
    backends := [];
    for i := 0 to |refs|
      invariant backends == RuleBackends(refs[..i], namespace, cluster)
    {
      var ref := refs[i];
      FlatMapSnoc(UsedBackends(namespace, cluster), refs, i);
      if !cluster.allowed(namespace, ref) {
        continue;
      }
      if (ref.kind.Some? && ref.kind.value != "Service") || (ref.group.Some? && ref.group.value != "") {
        continue;
      }
      if ref.port.None? {
        continue;
      }
      var found := ServiceExists(ref.name, NamespaceOr(ref.namespace, namespace), cluster.services);
      if !found {
        continue;
      }
      backends := backends + [ModelBackend(ref, namespace)];
    }
    assert refs[..|refs|] == refs;
  }

  // ---------- TLS routes ----------

  predicate Attached(refs: seq<ParentReference>, listener: Listener) {
    exists ref :: ref in refs && (ref.sectionName.None? || ref.sectionName.value == listener.name)
  }

  function ListenerName(l: Listener): string {
    if l.hostname.Some? then l.hostname.value else ""
  }

  // None when route and listener share no host; a lone "*" is left out.
  function MatchedHosts(hostnames: seq<string>, l: Listener): Option<seq<string>> {
    var hosts := ComputeHosts.HostsFor(hostnames, ListenerName(l));
    if hosts == [] then None else if hosts == ["*"] then Some([]) else Some(hosts)
  }

  function RuleEntry(hosts: seq<string>, namespace: string, cluster: Cluster): seq<BackendRef> -> TLSRoute {
    refs => TLSRoute(hosts, RuleBackends(refs, namespace, cluster))
  }

  // One entry for each rule of a route that is attached to the listener and shares a host with it.
  function RouteEntries(l: Listener, cluster: Cluster): TLSRouteObject -> seq<TLSRoute> {
    (r: TLSRouteObject) =>
      var hosts := MatchedHosts(r.hostnames, l);
      if Attached(r.parentRefs, l) && hosts.Some? then Map(RuleEntry(hosts.value, r.namespace, cluster), r.rules) else []
  }

  function Linear(l: Listener, input: seq<TLSRouteObject>, cluster: Cluster): seq<TLSRoute> {
    FlatMap(RouteEntries(l, cluster), input)
  }

  method IsAttached(refs: seq<ParentReference>, l: Listener) returns (attached: bool)
    ensures attached == Attached(refs, l)
  {
    attached := false;
    for i := 0 to |refs|
      invariant attached == Attached(refs[..i], l)
    {
      assert refs[..i + 1] == refs[..i] + [refs[i]];
      if refs[i].sectionName.None? || refs[i].sectionName.value == l.name {
        attached := true;
      }
    }
    assert refs[..|refs|] == refs;
  }

  method Hosts(r: TLSRouteObject, l: Listener) returns (hosts: Option<seq<string>>)
    ensures hosts == if Attached(r.parentRefs, l) then MatchedHosts(r.hostnames, l) else None
  {
    var attached := IsAttached(r.parentRefs, l);
    if !attached {
      return None;
    }
    var matched := ComputeHosts.Compute(r.hostnames, l.hostname);
    if |matched| == 0 {
      return None;
    }
    if |matched| == 1 && matched[0] == "*" {
      return Some([]);
    }
    return Some(matched);
  }

  lemma FlatMapAfter<T, U>(before: seq<U>, f: T -> seq<U>, s: seq<T>, i: nat)
    requires i < |s|
    ensures before + FlatMap(f, s[..i]) + f(s[i]) == before + FlatMap(f, s[..i + 1])
  {
    FlatMapSnoc(f, s, i);
  }

  lemma AppendAfter<T>(a: seq<T>, b: seq<T>, x: T)
    ensures a + b + [x] == a + (b + [x])
  {
  }

  lemma RepeatNext<T>(s: seq<T>, n: nat)
    ensures Repeat(s, n + 1) == Repeat(s, n) + s
  {
  }

  // The inner two loops of toTLSRoutes: they walk the whole input again.
  method AppendAll(l: Listener, input: seq<TLSRouteObject>, cluster: Cluster, before: seq<TLSRoute>) returns (routes: seq<TLSRoute>)
    ensures routes == before + Linear(l, input, cluster)
  {
    ghost var entries := RouteEntries(l, cluster);
    routes := before;
    for i := 0 to |input|
      invariant routes == before + FlatMap(entries, input[..i])
    {
      routes := AppendRoute(l, input[i], cluster, routes);
      FlatMapAfter(before, entries, input, i);
    }
    assert input[..|input|] == input;
  }

  method AppendRoute(l: Listener, r: TLSRouteObject, cluster: Cluster, before: seq<TLSRoute>) returns (routes: seq<TLSRoute>)
    ensures routes == before + RouteEntries(l, cluster)(r)
  {
    routes := before;
    var hosts := Hosts(r, l);
    if hosts.Some? {
      routes := AppendRules(r, hosts.value, cluster, routes);
    }
  }

  method AppendRules(r: TLSRouteObject, hosts: seq<string>, cluster: Cluster, before: seq<TLSRoute>) returns (routes: seq<TLSRoute>)
    ensures routes == before + Map(RuleEntry(hosts, r.namespace, cluster), r.rules)
  {
    ghost var added := Map(RuleEntry(hosts, r.namespace, cluster), r.rules);
    routes := before;
    for j := 0 to |r.rules|
      invariant routes == before + added[..j]
    {
      var backends := CollectBackends(r.rules[j], r.namespace, cluster);
      TakeSnoc(added, j);
      AppendAfter(before, added[..j], TLSRoute(hosts, backends));
      routes := routes + [TLSRoute(hosts, backends)];
    }
    assert added[..|r.rules|] == added;
  }

  // toTLSRoutes: for every rule of every attached route it appends the entries of all rules of all attached routes.
  method ToTLSRoutes(l: Listener, input: seq<TLSRouteObject>, cluster: Cluster) returns (routes: seq<TLSRoute>)
    ensures routes == Repeat(Linear(l, input, cluster), |Linear(l, input, cluster)|)
  {
    ghost var entries, linear := RouteEntries(l, cluster), Linear(l, input, cluster);
    ghost var total := 0;
    routes := [];
    assert input[..0] == [] && Count(entries, []) == 0 && Repeat(linear, 0) == [];
    for i := 0 to |input|
      invariant total == Count(entries, input[..i]) && routes == Repeat(linear, total)
    {
      var copies := CountRules(l, input[i], cluster);
      routes := AppendCopies(l, input, cluster, routes, copies, total);
      CountNext(entries, input, i);
      total := total + copies;
    }
    assert input[..|input|] == input;
  }

  function Count<T, U>(f: T -> seq<U>, s: seq<T>): nat {
    |FlatMap(f, s)|
  }

  lemma CountNext<T, U>(f: T -> seq<U>, s: seq<T>, i: nat)
    requires i < |s|
    ensures Count(f, s[..i + 1]) == Count(f, s[..i]) + |f(s[i])|
  {
    FlatMapSnoc(f, s, i);
  }

  method AppendCopies(l: Listener, input: seq<TLSRouteObject>, cluster: Cluster, start: seq<TLSRoute>, n: nat, ghost before: nat)
    returns (routes: seq<TLSRoute>)
    requires start == Repeat(Linear(l, input, cluster), before)
    ensures routes == Repeat(Linear(l, input, cluster), before + n)
  {
    routes := start;
    for j := 0 to n
      invariant routes == Repeat(Linear(l, input, cluster), before + j)
    {
      routes := AppendAll(l, input, cluster, routes);
      RepeatNext(Linear(l, input, cluster), before + j);
    }
  }

  // The outer loop's work on one route: for each rule it collects backends that nobody reads.
  method CountRules(l: Listener, r: TLSRouteObject, cluster: Cluster) returns (n: nat)
    ensures n == |RouteEntries(l, cluster)(r)|
  {
    n := 0;
    var hosts := Hosts(r, l);
    if hosts.Some? {
      for j := 0 to |r.rules|
        invariant n == j
      {
        var unused := CollectBackends(r.rules[j], r.namespace, cluster);
        n := n + 1;
      }
    }
  }

  // ---------- what becomes of the repetition ----------

  function LinearListener(input: seq<TLSRouteObject>, cluster: Cluster): Listener -> TLSListener {
    (l: Listener) => TLSListener(l.name, Linear(l, input, cluster))
  }

  function IngestedListener(input: seq<TLSRouteObject>, cluster: Cluster): Listener -> TLSListener {
    (l: Listener) => TLSListener(l.name, Repeat(Linear(l, input, cluster), |Linear(l, input, cluster)|))
  }

  // The repetition is harmless: the filter chains are those of the entries taken once.
  lemma IngestedChains(listeners: seq<Listener>, input: seq<TLSRouteObject>, cluster: Cluster)
    ensures Chains(Uses(Map(IngestedListener(input, cluster), listeners))) == Chains(Uses(Map(LinearListener(input, cluster), listeners)))
  {
    var linear := Map(LinearListener(input, cluster), listeners);
    assert Map(IngestedListener(input, cluster), listeners) == Squared(linear);
    SquaredChains(linear);
  }
}
