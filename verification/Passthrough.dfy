/** TLS passthrough: from TLS routes to filter chains, one chain for each backend. */
module Passthrough {
  import opened Wrappers
  import opened Model
  import opened Sorting
  import opened Merging
  import Strings
  import Clusters

  // One mention of a backend by a route of a listener.
  datatype Use = Use(cluster: string, hostnames: seq<string>, listener: string)

  function ClusterOf(u: Use): string { u.cluster }
  function HostnamesOf(u: Use): seq<string> { u.hostnames }

  function RouteUses(listener: string): TLSRoute -> seq<Use> {
    (r: TLSRoute) => Map(b => Use(ClusterName(b), r.hostnames, listener), r.backends)
  }

  function ListenerUses(l: TLSListener): seq<Use> {
    FlatMap(RouteUses(l.name), l.routes)
  }

  function Uses(tls: seq<TLSListener>): seq<Use> {
    FlatMap(ListenerUses, tls)
  }

  datatype PassthroughBackend = PassthroughBackend(hostnames: seq<string>, statPrefix: string)

  // The prefix of the last mention that has a hostname.
  function LastPrefix(uses: seq<Use>): string {
    if uses == [] then ""
    else
      var u := uses[|uses| - 1];
      if u.hostnames != [] then u.listener + ":" + u.hostnames[0] else LastPrefix(uses[..|uses| - 1])
  }

  function BackendOf(uses: seq<Use>): PassthroughBackend {
    PassthroughBackend(FlatMap(HostnamesOf, uses), LastPrefix(uses))
  }

  ghost predicate Indexed(backends: map<string, PassthroughBackend>, uses: seq<Use>) {
    forall c :: (c in backends <==> WithKey(uses, ClusterOf, c) != [])
             && (c in backends ==> backends[c] == BackendOf(WithKey(uses, ClusterOf, c)))
  }

  lemma BackendOfSnoc(uses: seq<Use>, u: Use)
    ensures BackendOf(uses + [u]) == PassthroughBackend(
      BackendOf(uses).hostnames + u.hostnames,
      if u.hostnames != [] then u.listener + ":" + u.hostnames[0] else BackendOf(uses).statPrefix)
  {
    assert (uses + [u])[..|uses|] == uses;
  }

  method AddUse(backends: map<string, PassthroughBackend>, u: Use, ghost seen: seq<Use>) returns (next: map<string, PassthroughBackend>)
    requires Indexed(backends, seen)
    ensures Indexed(next, seen + [u])
  {
    var entry := if u.cluster in backends then backends[u.cluster] else PassthroughBackend([], "");
    entry := entry.(hostnames := entry.hostnames + u.hostnames);
    if |u.hostnames| > 0 {
      entry := entry.(statPrefix := u.listener + ":" + u.hostnames[0]);
    }
    next := backends[u.cluster := entry];
    forall c ensures (c in next <==> WithKey(seen + [u], ClusterOf, c) != [])
                  && (c in next ==> next[c] == BackendOf(WithKey(seen + [u], ClusterOf, c))) {
      var all := seen + [u];
      assert all[..|seen|] == seen && all[..|seen| + 1] == all;
      WithKeySnoc(all, ClusterOf, |seen|, c);
      BackendOfSnoc(WithKey(seen, ClusterOf, c), u);
    }
  }

  // tlsPassthroughBackendsToHostnames
  method BackendsToHostnames(tls: seq<TLSListener>) returns (backends: map<string, PassthroughBackend>)
    ensures Indexed(backends, Uses(tls))
  {
    backends := map[];
    for i := 0 to |tls|
      invariant Indexed(backends, Uses(tls[..i]))
    {
      backends := AddListener(backends, tls[i], Uses(tls[..i]));
      FlatMapSnoc(ListenerUses, tls, i);
    }
    assert tls[..|tls|] == tls;
  }

  method AddListener(before: map<string, PassthroughBackend>, l: TLSListener, ghost seen: seq<Use>)
    returns (backends: map<string, PassthroughBackend>)
    requires Indexed(before, seen)
    ensures Indexed(backends, seen + ListenerUses(l))
  {
    backends := before;
    ghost var uses := RouteUses(l.name);
    assert seen + FlatMap(uses, l.routes[..0]) == seen;
    for j := 0 to |l.routes|
      invariant Indexed(backends, seen + FlatMap(uses, l.routes[..j]))
    {
      backends := AddRoute(backends, l.name, l.routes[j], seen + FlatMap(uses, l.routes[..j]));
      FlatMapSnoc(uses, l.routes, j);
      assert seen + FlatMap(uses, l.routes[..j]) + uses(l.routes[j]) == seen + FlatMap(uses, l.routes[..j + 1]);
    }
    assert l.routes[..|l.routes|] == l.routes;
  }

  method AddRoute(before: map<string, PassthroughBackend>, listener: string, r: TLSRoute, ghost seen: seq<Use>)
    returns (backends: map<string, PassthroughBackend>)
    requires Indexed(before, seen)
    ensures Indexed(backends, seen + RouteUses(listener)(r))
  {
    backends := before;
    ghost var added := RouteUses(listener)(r);
    assert seen + added[..0] == seen;
    for k := 0 to |r.backends|
      invariant Indexed(backends, seen + added[..k])
    {
      backends := AddUse(backends, Use(ClusterName(r.backends[k]), r.hostnames, listener), seen + added[..k]);
      assert seen + added[..k] + [added[k]] == seen + added[..k + 1];
    }
    assert added[..|r.backends|] == added;
  }

  // ---------- filter chains ----------

  datatype FilterChain = FilterChain(serverNames: seq<string>, statPrefix: string, cluster: string)

  // toFilterChainMatch: Envoy has no "*" server name; no names at all match every TLS connection.
  function ServerNames(hostnames: seq<string>): seq<string> {
    var names := Clusters.SortedUnique(hostnames);
    if |names| > 1 || (|names| == 1 && names[0] != "*") then names else []
  }

  function ChainOf(cluster: string, b: PassthroughBackend): FilterChain {
    FilterChain(ServerNames(b.hostnames), if b.statPrefix == "" then cluster else b.statPrefix, cluster)
  }

  function ChainFor(uses: seq<Use>): string -> FilterChain {
    c => ChainOf(c, BackendOf(WithKey(uses, ClusterOf, c)))
  }

  // One chain for each backend mentioned, in order of cluster name.
  function Chains(uses: seq<Use>): seq<FilterChain> {
    Map(ChainFor(uses), Clusters.SortedUnique(Map(ClusterOf, uses)))
  }

  // tlsPassthroughFilterChains, over the map's keys in sorted order.
  method PassthroughFilterChains(backends: map<string, PassthroughBackend>, ghost uses: seq<Use>) returns (chains: seq<FilterChain>)
    requires Indexed(backends, uses)
    ensures chains == Chains(uses)
  {
    var keys := SortedKeys(backends);
    KeysAre(backends, uses, keys);
    EntriesAre(backends, uses);
    chains := ChainsInOrder(backends, keys, ChainFor(uses));
  }

  lemma EntriesAre(backends: map<string, PassthroughBackend>, uses: seq<Use>)
    requires Indexed(backends, uses)
    ensures forall k | k in backends :: ChainOf(k, backends[k]) == ChainFor(uses)(k)
  {
  }

  method ChainsInOrder(backends: map<string, PassthroughBackend>, keys: seq<string>, ghost build: string -> FilterChain)
    returns (chains: seq<FilterChain>)
    requires forall k | k in keys :: k in backends
    requires forall k | k in backends :: ChainOf(k, backends[k]) == build(k)
    ensures chains == Map(build, keys)
  {
    chains := [];
    for i := 0 to |keys|
      invariant |chains| == i && forall j | 0 <= j < i :: chains[j] == build(keys[j])
    {
      assert keys[i] in keys;
      var chain := NewChain(keys[i], backends[keys[i]]);
      chains := chains + [chain];
    }
  }

  method NewChain(cluster: string, b: PassthroughBackend) returns (chain: FilterChain)
    ensures chain == ChainOf(cluster, b)
  {
    var statPrefix := b.statPrefix;
    if statPrefix == "" {
      statPrefix := cluster;
    }
    chain := FilterChain(ServerNames(b.hostnames), statPrefix, cluster);
  }

  lemma KeysAre(backends: map<string, PassthroughBackend>, uses: seq<Use>, keys: seq<string>)
    requires Indexed(backends, uses)
    requires StrictlyAscending(keys, Strings.Less) && forall k :: k in keys <==> k in backends
    ensures keys == Clusters.SortedUnique(Map(ClusterOf, uses))
  {
    var clusters := Map(ClusterOf, uses);
    Clusters.SortedUniqueContents(clusters);
    forall k ensures k in keys <==> k in Clusters.SortedUnique(clusters) {
      WithKeyMember(uses, ClusterOf, k);
      MapMembers(ClusterOf, uses);
      if k in backends {
        var u := WithKey(uses, ClusterOf, k)[0];
        assert u in WithKey(uses, ClusterOf, k);
      }
      if k in clusters {
        var u :| u in uses && ClusterOf(u) == k;
        assert u in WithKey(uses, ClusterOf, k);
      }
    }
    StringOrder();
    StrictlyAscendingUnique(keys, Clusters.SortedUnique(clusters), Strings.Less);
  }

  // ---------- what the chains depend on ----------

  // All a chain takes from the mentions of its backend.
  datatype Summary = Summary(used: bool, hosts: set<string>, prefix: Option<string>)

  function Combine(a: Summary, b: Summary): Summary {
    Summary(a.used || b.used, a.hosts + b.hosts, if b.prefix.Some? then b.prefix else a.prefix)
  }

  const NOTHING := Summary(false, {}, None)

  ghost function HostSet(hostnames: seq<string>): set<string> {
    set h | h in hostnames
  }

  ghost function SummaryOf(u: Use, c: string): Summary {
    if u.cluster != c then NOTHING
    else Summary(true, HostSet(u.hostnames), if u.hostnames == [] then None else Some(u.listener + ":" + u.hostnames[0]))
  }

  ghost function Summarize(uses: seq<Use>, c: string): Summary {
    if uses == [] then NOTHING else Combine(Summarize(uses[..|uses| - 1], c), SummaryOf(uses[|uses| - 1], c))
  }

  lemma {:induction false} SummarizeConcat(a: seq<Use>, b: seq<Use>, c: string)
    ensures Summarize(a + b, c) == Combine(Summarize(a, c), Summarize(b, c))
  {
    if b == [] {
      assert a + b == a;
    } else {
      assert (a + b)[..|a + b| - 1] == a + b[..|b| - 1];
      SummarizeConcat(a, b[..|b| - 1], c);
    }
  }

  // The map entry of a backend says what the summary says.
  lemma {:induction false} SummaryOfBackend(uses: seq<Use>, c: string)
    ensures var s, mine := Summarize(uses, c), WithKey(uses, ClusterOf, c);
      && (s.used <==> mine != [])
      && s.hosts == HostSet(BackendOf(mine).hostnames)
      && BackendOf(mine).statPrefix == (if s.prefix.Some? then s.prefix.value else "")
      && (s.prefix.Some? ==> s.prefix.value != "")
  {
    if uses != [] {
      SummaryOfBackend(uses[..|uses| - 1], c);
      var u, front := uses[|uses| - 1], WithKey(uses[..|uses| - 1], ClusterOf, c);
      if u.cluster == c {
        assert (front + [u])[..|front|] == front;
        assert FlatMap(HostnamesOf, front + [u]) == FlatMap(HostnamesOf, front) + u.hostnames;
      }
    }
  }

  lemma SortedUniqueOfSet(a: seq<string>, b: seq<string>)
    requires forall x :: x in a <==> x in b
    ensures Clusters.SortedUnique(a) == Clusters.SortedUnique(b)
  {
    Clusters.SortedUniqueContents(a);
    Clusters.SortedUniqueContents(b);
    StringOrder();
    StrictlyAscendingUnique(Clusters.SortedUnique(a), Clusters.SortedUnique(b), Strings.Less);
  }

  lemma ClusterUsed(uses: seq<Use>, c: string)
    ensures c in Map(ClusterOf, uses) <==> Summarize(uses, c).used
  {
    SummaryOfBackend(uses, c);
    WithKeyMember(uses, ClusterOf, c);
    MapMembers(ClusterOf, uses);
    if c in Map(ClusterOf, uses) {
      var u :| u in uses && ClusterOf(u) == c;
      assert u in WithKey(uses, ClusterOf, c);
    }
    if WithKey(uses, ClusterOf, c) != [] {
      assert WithKey(uses, ClusterOf, c)[0] in WithKey(uses, ClusterOf, c);
    }
  }

  // Mentions with equal summaries give equal chains.
  lemma ChainsBySummary(a: seq<Use>, b: seq<Use>)
    requires forall c :: Summarize(a, c) == Summarize(b, c)
    ensures Chains(a) == Chains(b)
  {
    forall c ensures c in Map(ClusterOf, a) <==> c in Map(ClusterOf, b) {
      ClusterUsed(a, c);
      ClusterUsed(b, c);
    }
    SortedUniqueOfSet(Map(ClusterOf, a), Map(ClusterOf, b));
    forall c ensures ChainFor(a)(c) == ChainFor(b)(c) {
      SameChain(a, b, c);
    }
    SameMap(ChainFor(a), ChainFor(b), Clusters.SortedUnique(Map(ClusterOf, a)));
  }

  lemma SameMap<T(!new), U>(f: T -> U, g: T -> U, s: seq<T>)
    requires forall x :: f(x) == g(x)
    ensures Map(f, s) == Map(g, s)
  {
  }

  lemma SameChain(a: seq<Use>, b: seq<Use>, c: string)
    requires Summarize(a, c) == Summarize(b, c)
    ensures ChainFor(a)(c) == ChainFor(b)(c)
  {
    SummaryOfBackend(a, c);
    SummaryOfBackend(b, c);
    var x, y := BackendOf(WithKey(a, ClusterOf, c)), BackendOf(WithKey(b, ClusterOf, c));
    SameHostnames(x.hostnames, y.hostnames);
    assert ServerNames(x.hostnames) == ServerNames(y.hostnames);
  }

  lemma SameHostnames(a: seq<string>, b: seq<string>)
    requires HostSet(a) == HostSet(b)
    ensures Clusters.SortedUnique(a) == Clusters.SortedUnique(b)
  {
    assert forall h :: h in a <==> h in HostSet(a);
    assert forall h :: h in b <==> h in HostSet(b);
    SortedUniqueOfSet(a, b);
  }

  // ---------- repeated routes ----------

  function Repeat<T>(s: seq<T>, n: nat): seq<T> {
    if n == 0 then [] else Repeat(s, n - 1) + s
  }

  lemma {:induction false} RepeatedUses(listener: string, routes: seq<TLSRoute>, n: nat, c: string)
    requires n > 0
    ensures Summarize(FlatMap(RouteUses(listener), Repeat(routes, n)), c) == Summarize(FlatMap(RouteUses(listener), routes), c)
  {
    if n == 1 {
      assert Repeat(routes, 1) == Repeat(routes, 0) + routes == routes;
    } else {
      RepeatedUses(listener, routes, n - 1, c);
      FlatMapConcat(RouteUses(listener), Repeat(routes, n - 1), routes);
      SummarizeConcat(FlatMap(RouteUses(listener), Repeat(routes, n - 1)), FlatMap(RouteUses(listener), routes), c);
    }
  }

  // Each listener's routes over and over, as many times as it has routes.
  function Squared(tls: seq<TLSListener>): seq<TLSListener> {
    Map((l: TLSListener) => TLSListener(l.name, Repeat(l.routes, |l.routes|)), tls)
  }

  lemma {:induction false} SquaredSummary(tls: seq<TLSListener>, c: string)
    ensures Summarize(Uses(Squared(tls)), c) == Summarize(Uses(tls), c)
  {
    if tls != [] {
      var front, l := tls[..|tls| - 1], tls[|tls| - 1];
      var l' := TLSListener(l.name, Repeat(l.routes, |l.routes|));
      SquaredSummary(front, c);
      assert Squared(tls)[..|tls| - 1] == Squared(front) && Squared(tls)[|tls| - 1] == l';
      SummarizeConcat(Uses(Squared(front)), ListenerUses(l'), c);
      SummarizeConcat(Uses(front), ListenerUses(l), c);
      if l.routes != [] {
        RepeatedUses(l.name, l.routes, |l.routes|, c);
      }
    }
  }

  // Repeating every listener's routes leaves the filter chains as they are.
  lemma SquaredChains(tls: seq<TLSListener>)
    ensures Chains(Uses(Squared(tls))) == Chains(Uses(tls))
  {
    forall c ensures Summarize(Uses(Squared(tls)), c) == Summarize(Uses(tls), c) {
      SquaredSummary(tls, c);
    }
    ChainsBySummary(Uses(Squared(tls)), Uses(tls));
  }
}
