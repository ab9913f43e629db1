/** Ingesting an Ingress with TLS passthrough. */
module IngressPassthrough {
  import opened Model
  import opened Sorting
  import opened Passthrough
  import opened IngressIngestion
  import Merging
  import Clusters
  import Strings

  // The one route of a path "/"; other paths are skipped. The route does not carry the host.
  function PassthroughRoutes(ing: IngressObject): IngressPath -> seq<TLSRoute> {
    (p: IngressPath) => if p.path == "/" then [TLSRoute([], [ToBackend(p.backend, ing.source.namespace)])] else []
  }

  function RuleRoutes(ing: IngressObject, host: string): IngressRule -> seq<TLSRoute> {
    (rule: IngressRule) => if rule.host == host then FlatMap(PassthroughRoutes(ing), Paths(rule)) else []
  }

  function TLSRoutesFor(ing: IngressObject, rules: seq<IngressRule>, host: string): seq<TLSRoute> {
    if host == "" then [] else FlatMap(RuleRoutes(ing, host), rules)
  }

  function TLSListenerFor(ing: IngressObject, rules: seq<IngressRule>, host: string): TLSListener {
    TLSListener("ing-" + ing.source.name + "-" + ing.source.namespace + "-" + host, TLSRoutesFor(ing, rules, host))
  }

  // The hosts with at least one route have a listener.
  ghost predicate TLSFilled(m: map<string, TLSListener>, ing: IngressObject, rules: seq<IngressRule>) {
    && (forall h :: h in m <==> TLSRoutesFor(ing, rules, h) != [])
    && (forall h | h in m :: m[h] == TLSListenerFor(ing, rules, h))
  }

  lemma TLSRoutesSnoc(ing: IngressObject, rules: seq<IngressRule>, rule: IngressRule, h: string)
    ensures TLSRoutesFor(ing, rules + [rule], h)
         == TLSRoutesFor(ing, rules, h) + if h != "" && rule.host == h then FlatMap(PassthroughRoutes(ing), Paths(rule)) else []
  {
    assert (rules + [rule])[..|rules|] == rules && (rules + [rule])[..|rules| + 1] == rules + [rule];
    FlatMapSnoc(RuleRoutes(ing, h), rules + [rule], |rules|);
  }

  lemma TLSFilledSame(m: map<string, TLSListener>, ing: IngressObject, rules: seq<IngressRule>, rule: IngressRule)
    requires TLSFilled(m, ing, rules)
    requires rule.host == "" || FlatMap(PassthroughRoutes(ing), Paths(rule)) == []
    ensures TLSFilled(m, ing, rules + [rule])
  {
    forall h ensures TLSRoutesFor(ing, rules + [rule], h) == TLSRoutesFor(ing, rules, h) {
      TLSRoutesSnoc(ing, rules, rule, h);
    }
  }

  lemma TLSFilledNext(m: map<string, TLSListener>, ing: IngressObject, rules: seq<IngressRule>, rule: IngressRule)
    requires TLSFilled(m, ing, rules) && rule.host != "" && TLSRoutesFor(ing, rules + [rule], rule.host) != []
    ensures TLSFilled(m[rule.host := TLSListenerFor(ing, rules + [rule], rule.host)], ing, rules + [rule])
  {
    var all := rules + [rule];
    var next := m[rule.host := TLSListenerFor(ing, all, rule.host)];
    forall h
      ensures h in next <==> TLSRoutesFor(ing, all, h) != []
      ensures h in next ==> next[h] == TLSListenerFor(ing, all, h)
    {
      if h != rule.host {
        TLSRoutesSnoc(ing, rules, rule, h);
        assert TLSListenerFor(ing, all, h) == TLSListenerFor(ing, rules, h);
      }
    }
  }

  method CollectRoutes(ing: IngressObject, before: seq<TLSRoute>, paths: seq<IngressPath>) returns (routes: seq<TLSRoute>)
    ensures routes == before + FlatMap(PassthroughRoutes(ing), paths)
  {
    routes := before;
    for i := 0 to |paths|
      invariant routes == before + FlatMap(PassthroughRoutes(ing), paths[..i])
    {
      FlatMapSnoc(PassthroughRoutes(ing), paths, i);
      if paths[i].path == "/" {
        routes := routes + [TLSRoute([], [ToBackend(paths[i].backend, ing.source.namespace)])];
      }
    }
    assert paths[..|paths|] == paths;
  }

  method TLSListeners(ing: IngressObject) returns (m: map<string, TLSListener>)
    ensures TLSFilled(m, ing, ing.rules)
  {
    m := map[];
    for i := 0 to |ing.rules|
      invariant TLSFilled(m, ing, ing.rules[..i])
    {
      var rule := ing.rules[i];
      assert ing.rules[..i + 1] == ing.rules[..i] + [rule];
      m := AddRule(ing, m, rule, ing.rules[..i]);
    }
    assert ing.rules[..|ing.rules|] == ing.rules;
  }

  method AddRule(ing: IngressObject, m: map<string, TLSListener>, rule: IngressRule, ghost rules: seq<IngressRule>)
    returns (next: map<string, TLSListener>)
    requires TLSFilled(m, ing, rules)
    ensures TLSFilled(next, ing, rules + [rule])
  {
    if rule.host == "" || rule.http.None? {
      TLSFilledSame(m, ing, rules, rule);
      return m;
    }
    TLSRoutesSnoc(ing, rules, rule, rule.host);
    var before := if rule.host in m then m[rule.host].routes else [];
    var routes := CollectRoutes(ing, before, rule.http.value);
    if |routes| == 0 {
      TLSFilledSame(m, ing, rules, rule);
      return m;
    }
    TLSFilledNext(m, ing, rules, rule);
    next := m[rule.host := TLSListener("ing-" + ing.source.name + "-" + ing.source.namespace + "-" + rule.host, routes)];
  }

  method IngestPassthrough(ing: IngressObject) returns (listeners: seq<TLSListener>, hosts: seq<string>)
    ensures StrictlyAscending(hosts, Strings.Less) && |listeners| == |hosts|
    ensures forall h :: h in hosts <==> TLSRoutesFor(ing, ing.rules, h) != []
    ensures forall i | 0 <= i < |hosts| :: listeners[i] == TLSListenerFor(ing, ing.rules, hosts[i])
  {
    var m := TLSListeners(ing);
    listeners, hosts := AppendValuesInKeyOrder(m, []);
    assert listeners[0..] == listeners;
    forall i | 0 <= i < |hosts| ensures listeners[i] == TLSListenerFor(ing, ing.rules, hosts[i]) {
      assert hosts[i] in hosts;
    }
  }

  // ---------- the listing as a function ----------

  function HostOf(rule: IngressRule): string { rule.host }

  function HasTLSRoutes(ing: IngressObject): string -> bool {
    h => TLSRoutesFor(ing, ing.rules, h) != []
  }

  function TLSHosts(ing: IngressObject): seq<string> {
    Clusters.SortedUnique(Filter(Map(HostOf, ing.rules), HasTLSRoutes(ing)))
  }

  function TLSListenerAt(ing: IngressObject): string -> TLSListener {
    h => TLSListenerFor(ing, ing.rules, h)
  }

  function TLSListenersOf(ing: IngressObject): seq<TLSListener> {
    Map(TLSListenerAt(ing), TLSHosts(ing))
  }

  // Some rule names the host and has a path "/".
  ghost predicate PassesThrough(ing: IngressObject, host: string) {
    host != "" && exists rule, p :: rule in ing.rules && rule.host == host && p in Paths(rule) && p.path == "/"
  }

  lemma TLSRoutesIff(ing: IngressObject, host: string)
    ensures TLSRoutesFor(ing, ing.rules, host) != [] <==> PassesThrough(ing, host)
  {
    var routes := TLSRoutesFor(ing, ing.rules, host);
    if routes != [] {
      FlatMapMember(RuleRoutes(ing, host), ing.rules, routes[0]);
      var rule :| rule in ing.rules && routes[0] in RuleRoutes(ing, host)(rule);
      FlatMapMember(PassthroughRoutes(ing), Paths(rule), routes[0]);
    }
    if PassesThrough(ing, host) {
      var rule, p :| rule in ing.rules && rule.host == host && p in Paths(rule) && p.path == "/";
      var r := TLSRoute([], [ToBackend(p.backend, ing.source.namespace)]);
      assert r in PassthroughRoutes(ing)(p);
      FlatMapMember(PassthroughRoutes(ing), Paths(rule), r);
      FlatMapMember(RuleRoutes(ing, host), ing.rules, r);
    }
  }

  lemma TLSHostsAre(ing: IngressObject)
    ensures StrictlyAscending(TLSHosts(ing), Strings.Less)
    ensures forall h :: h in TLSHosts(ing) <==> TLSRoutesFor(ing, ing.rules, h) != []
  {
    var all := Map(HostOf, ing.rules);
    Clusters.SortedUniqueContents(Filter(all, HasTLSRoutes(ing)));
    FilterMember(all, HasTLSRoutes(ing));
    MapMembers(HostOf, ing.rules);
    forall h | TLSRoutesFor(ing, ing.rules, h) != [] ensures h in all {
      TLSRoutesIff(ing, h);
    }
  }

  method Ingest(ing: IngressObject) returns (listeners: seq<TLSListener>)
    ensures listeners == TLSListenersOf(ing)
  {
    var hosts;
    listeners, hosts := IngestPassthrough(ing);
    TLSHostsAre(ing);
    StringOrder();
    StrictlyAscendingUnique(hosts, TLSHosts(ing), Strings.Less);
  }

  lemma NoHostnames(ing: IngressObject, host: string)
    ensures forall r | r in TLSRoutesFor(ing, ing.rules, host) :: r.hostnames == []
  {
    forall r | r in TLSRoutesFor(ing, ing.rules, host) ensures r.hostnames == [] {
      FlatMapMember(RuleRoutes(ing, host), ing.rules, r);
      var rule :| rule in ing.rules && r in RuleRoutes(ing, host)(rule);
      NoPathHostnames(ing, Paths(rule), r);
    }
  }

  lemma NoPathHostnames(ing: IngressObject, paths: seq<IngressPath>, r: TLSRoute)
    requires r in FlatMap(PassthroughRoutes(ing), paths)
    ensures r.hostnames == []
  {
    FlatMapMember(PassthroughRoutes(ing), paths, r);
  }

  lemma UsesWithoutHostnames(tls: seq<TLSListener>)
    requires forall l, r | l in tls && r in l.routes :: r.hostnames == []
    ensures forall u | u in Uses(tls) :: u.hostnames == []
  {
    forall u | u in Uses(tls) ensures u.hostnames == [] {
      FlatMapMember(ListenerUses, tls, u);
      var l :| l in tls && u in ListenerUses(l);
      FlatMapMember(RouteUses(l.name), l.routes, u);
    }
  }

  lemma {:induction false} NothingToServe(uses: seq<Use>)
    requires forall u | u in uses :: u.hostnames == []
    ensures BackendOf(uses).hostnames == []
  {
    if uses != [] {
      var front, last := uses[..|uses| - 1], uses[|uses| - 1];
      assert uses == front + [last] && last in uses;
      NothingToServe(front);
      BackendOfSnoc(front, last);
    }
  }

  // Whatever hosts an Ingress names, its passthrough chains match every TLS connection.
  lemma ChainsIgnoreHosts(ing: IngressObject, tls: seq<TLSListener>, hosts: seq<string>, chain: FilterChain)
    requires |tls| == |hosts| && forall i | 0 <= i < |hosts| :: tls[i] == TLSListenerFor(ing, ing.rules, hosts[i])
    requires chain in Chains(Uses(tls))
    ensures chain.serverNames == []
  {
    forall l, r | l in tls && r in l.routes ensures r.hostnames == [] {
      var i :| 0 <= i < |tls| && tls[i] == l;
      NoHostnames(ing, hosts[i]);
    }
    UsesWithoutHostnames(tls);
    var uses := Uses(tls);
    MapMembers(ChainFor(uses), Clusters.SortedUnique(Map(ClusterOf, uses)));
    var c :| ChainFor(uses)(c) == chain;
    Merging.WithKeyMember(uses, ClusterOf, c);
    NothingToServe(Merging.WithKey(uses, ClusterOf, c));
  }
}
