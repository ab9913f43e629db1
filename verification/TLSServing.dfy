/** From the TLSRoutes attached to a Gateway's listeners to the backends of connections. */
module TLSServing {
  import opened Model
  import opened Sorting
  import opened Wrappers
  import opened GatewayObjects
  import opened Hostnames
  import opened Passthrough
  import opened TLSIngestion
  import opened ChainSearch
  import GatewayAnswers

  // A reference of a rule that can be used leads to the cluster.
  ghost predicate Reaches(obj: TLSRouteObject, cluster: TLSIngestion.Cluster, c: string) {
    exists rule, ref :: rule in obj.rules && ref in rule && Usable(ref, obj.namespace, cluster) && GatewayAnswers.ClusterAt(ref, obj.namespace) == c
  }

  // The route is attached to the listener, shares these hosts with it, and sends their connections to the cluster.
  ghost predicate SendsTo(obj: TLSRouteObject, l: Listener, cluster: TLSIngestion.Cluster, hosts: seq<string>, c: string) {
    Attached(obj.parentRefs, l) && MatchedHosts(obj.hostnames, l) == Some(hosts) && Reaches(obj, cluster, c)
  }

  lemma BackendOfRule(refs: seq<BackendRef>, namespace: string, cluster: TLSIngestion.Cluster, c: string)
    ensures (exists b :: b in RuleBackends(refs, namespace, cluster) && ClusterName(b) == c)
       <==> exists ref :: ref in refs && Usable(ref, namespace, cluster) && GatewayAnswers.ClusterAt(ref, namespace) == c
  {
    if b :| b in RuleBackends(refs, namespace, cluster) && ClusterName(b) == c {
      FlatMapMember(UsedBackends(namespace, cluster), refs, b);
      var ref :| ref in refs && b in UsedBackends(namespace, cluster)(ref);
      GatewayAnswers.ShareAgrees(ref, namespace);
    }
    if ref :| ref in refs && Usable(ref, namespace, cluster) && GatewayAnswers.ClusterAt(ref, namespace) == c {
      var b := ModelBackend(ref, namespace);
      GatewayAnswers.ShareAgrees(ref, namespace);
      assert b in UsedBackends(namespace, cluster)(ref);
      FlatMapMember(UsedBackends(namespace, cluster), refs, b);
    }
  }

  // A route entry with these hosts and a backend in the cluster.
  ghost predicate HasEntry(routes: seq<TLSRoute>, hosts: seq<string>, c: string) {
    exists r, b :: r in routes && r.hostnames == hosts && b in r.backends && ClusterName(b) == c
  }

  lemma EntrySends(obj: TLSRouteObject, cluster: TLSIngestion.Cluster, hosts: seq<string>, c: string)
    requires HasEntry(Map(RuleEntry(hosts, obj.namespace, cluster), obj.rules), hosts, c)
    ensures Reaches(obj, cluster, c)
  {
    var entries := Map(RuleEntry(hosts, obj.namespace, cluster), obj.rules);
    var r, b :| r in entries && r.hostnames == hosts && b in r.backends && ClusterName(b) == c;
    var i :| 0 <= i < |entries| && entries[i] == r;
    BackendOfRule(obj.rules[i], obj.namespace, cluster, c);
    var ref :| ref in obj.rules[i] && Usable(ref, obj.namespace, cluster) && GatewayAnswers.ClusterAt(ref, obj.namespace) == c;
    assert obj.rules[i] in obj.rules;
  }

  lemma SendsEntry(obj: TLSRouteObject, cluster: TLSIngestion.Cluster, hosts: seq<string>, c: string)
    requires Reaches(obj, cluster, c)
    ensures HasEntry(Map(RuleEntry(hosts, obj.namespace, cluster), obj.rules), hosts, c)
  {
    var entries := Map(RuleEntry(hosts, obj.namespace, cluster), obj.rules);
    var rule, ref :| rule in obj.rules && ref in rule && Usable(ref, obj.namespace, cluster) && GatewayAnswers.ClusterAt(ref, obj.namespace) == c;
    BackendOfRule(rule, obj.namespace, cluster, c);
    var b :| b in RuleBackends(rule, obj.namespace, cluster) && ClusterName(b) == c;
    var i :| 0 <= i < |obj.rules| && obj.rules[i] == rule;
    assert entries[i] in entries && entries[i].hostnames == hosts && b in entries[i].backends;
  }

  lemma EntriesHaveHosts(obj: TLSRouteObject, cluster: TLSIngestion.Cluster, shared: seq<string>, hosts: seq<string>, c: string)
    requires HasEntry(Map(RuleEntry(shared, obj.namespace, cluster), obj.rules), hosts, c)
    ensures shared == hosts
  {
    var entries := Map(RuleEntry(shared, obj.namespace, cluster), obj.rules);
    var r, b :| r in entries && r.hostnames == hosts && b in r.backends && ClusterName(b) == c;
    var i :| 0 <= i < |entries| && entries[i] == r;
  }

  lemma EntryOfObject(obj: TLSRouteObject, l: Listener, cluster: TLSIngestion.Cluster, hosts: seq<string>, c: string)
    ensures HasEntry(TLSIngestion.RouteEntries(l, cluster)(obj), hosts, c) <==> SendsTo(obj, l, cluster, hosts, c)
  {
    var shared := MatchedHosts(obj.hostnames, l);
    if Attached(obj.parentRefs, l) && shared.Some? {
      assert TLSIngestion.RouteEntries(l, cluster)(obj) == Map(RuleEntry(shared.value, obj.namespace, cluster), obj.rules);
      if HasEntry(TLSIngestion.RouteEntries(l, cluster)(obj), hosts, c) {
        EntriesHaveHosts(obj, cluster, shared.value, hosts, c);
        EntrySends(obj, cluster, hosts, c);
      }
      if SendsTo(obj, l, cluster, hosts, c) {
        SendsEntry(obj, cluster, hosts, c);
      }
    }
  }

  lemma EntryOfListener(l: Listener, input: seq<TLSRouteObject>, cluster: TLSIngestion.Cluster, hosts: seq<string>, c: string)
    ensures HasEntry(Linear(l, input, cluster), hosts, c) <==> exists obj :: obj in input && SendsTo(obj, l, cluster, hosts, c)
  {
    var routes := Linear(l, input, cluster);
    if r, b :| r in routes && r.hostnames == hosts && b in r.backends && ClusterName(b) == c {
      FlatMapMember(TLSIngestion.RouteEntries(l, cluster), input, r);
      var obj :| obj in input && r in TLSIngestion.RouteEntries(l, cluster)(obj);
      assert HasEntry(TLSIngestion.RouteEntries(l, cluster)(obj), hosts, c);
      EntryOfObject(obj, l, cluster, hosts, c);
    }
    if obj :| obj in input && SendsTo(obj, l, cluster, hosts, c) {
      EntryOfObject(obj, l, cluster, hosts, c);
      var entries := TLSIngestion.RouteEntries(l, cluster)(obj);
      var r, b :| r in entries && r.hostnames == hosts && b in r.backends && ClusterName(b) == c;
      FlatMapMember(TLSIngestion.RouteEntries(l, cluster), input, r);
    }
  }

  ghost function LinearUses(listeners: seq<Listener>, input: seq<TLSRouteObject>, cluster: TLSIngestion.Cluster): seq<Use> {
    Uses(Map(LinearListener(input, cluster), listeners))
  }

  ghost predicate SentBy(listeners: seq<Listener>, input: seq<TLSRouteObject>, cluster: TLSIngestion.Cluster, u: Use) {
    exists l, obj :: l in listeners && obj in input && l.name == u.listener && SendsTo(obj, l, cluster, u.hostnames, u.cluster)
  }

  // Connections are claimed for just the hosts and clusters that an attached route sends to each other.
  lemma ClaimedIff(listeners: seq<Listener>, input: seq<TLSRouteObject>, cluster: TLSIngestion.Cluster, u: Use)
    ensures u in LinearUses(listeners, input, cluster) <==> SentBy(listeners, input, cluster, u)
  {
    var tls := Map(LinearListener(input, cluster), listeners);
    UsedByRoute(tls, u);
    MapMembers(LinearListener(input, cluster), listeners);
    if m, r, b :| m in tls && r in m.routes && b in r.backends && u == Use(ClusterName(b), r.hostnames, m.name) {
      var l :| l in listeners && m == LinearListener(input, cluster)(l);
      assert HasEntry(Linear(l, input, cluster), u.hostnames, u.cluster);
      EntryOfListener(l, input, cluster, u.hostnames, u.cluster);
    }
    if l, obj :| l in listeners && obj in input && l.name == u.listener && SendsTo(obj, l, cluster, u.hostnames, u.cluster) {
      EntryOfListener(l, input, cluster, u.hostnames, u.cluster);
      var r, b :| r in Linear(l, input, cluster) && r.hostnames == u.hostnames && b in r.backends && ClusterName(b) == u.cluster;
      assert LinearListener(input, cluster)(l) in tls;
    }
  }

  // The chains take every connection as the routes say.
  ghost predicate Serve(chains: seq<FilterChain>, uses: seq<Use>) {
    Admitted(uses) && forall h | Concrete(h) :: Taken(uses, h, Choose(chains, h))
  }

  lemma AllTaken(uses: seq<Use>, chains: seq<FilterChain>)
    requires chains == Chains(uses) && Admitted(uses) && forall c :: !Mixed(uses, c)
    ensures Serve(chains, uses)
  {
    forall h | Concrete(h) ensures Taken(uses, h, Choose(chains, h)) {
      ConnectionTaken(uses, h);
    }
  }

  lemma SameChains(listeners: seq<Listener>, input: seq<TLSRouteObject>, cluster: TLSIngestion.Cluster, uses: seq<Use>, chains: seq<FilterChain>)
    requires uses == LinearUses(listeners, input, cluster) && chains == Chains(Uses(Map(IngestedListener(input, cluster), listeners)))
    ensures chains == Chains(uses)
  {
    IngestedChains(listeners, input, cluster);
  }

  ghost predicate ChainsOf(listeners: seq<Listener>, input: seq<TLSRouteObject>, cluster: TLSIngestion.Cluster, chains: seq<FilterChain>) {
    chains == Chains(Uses(Map(IngestedListener(input, cluster), listeners)))
  }

  // Every connection to a Gateway goes where the attached routes that name the most specific host for it send it.
  lemma ConnectionsServed(
    listeners: seq<Listener>, input: seq<TLSRouteObject>, cluster: TLSIngestion.Cluster, uses: seq<Use>, chains: seq<FilterChain>)
    requires uses == LinearUses(listeners, input, cluster) && ChainsOf(listeners, input, cluster, chains)
    requires Admitted(uses) && forall c :: !Mixed(uses, c)
    ensures Serve(chains, uses)
  {
    SameChains(listeners, input, cluster, uses, chains);
    AllTaken(uses, chains);
  }
}
