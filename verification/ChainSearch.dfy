/** Which passthrough chain takes a TLS connection, by Envoy's choice of a filter chain, and what the routes say to it. */
module ChainSearch {
  import opened Wrappers
  import opened Model
  import opened Sorting
  import opened Strings
  import opened Hostnames
  import opened Passthrough
  import Clusters
  import Merging

  // ---------- what the routes name ----------

  ghost predicate Used(uses: seq<Use>, c: string) {
    exists u :: u in uses && u.cluster == c
  }

  // Some route to the cluster names the host.
  ghost predicate Names(uses: seq<Use>, c: string, p: string) {
    exists u :: u in uses && u.cluster == c && p in u.hostnames
  }

  // No route to the cluster names a host other than "*".
  ghost predicate Bare(uses: seq<Use>, c: string) {
    forall p | Names(uses, c, p) :: p == "*"
  }

  // Routes to the cluster name "*" beside another host.
  ghost predicate Mixed(uses: seq<Use>, c: string) {
    Names(uses, c, "*") && !Bare(uses, c)
  }

  ghost predicate Admitted(uses: seq<Use>) {
    forall c, p | Names(uses, c, p) :: Pattern(p) && p != ""
  }

  lemma UsedByRoute(tls: seq<TLSListener>, u: Use)
    ensures u in Uses(tls)
       <==> exists l, r, b :: l in tls && r in l.routes && b in r.backends && u == Use(ClusterName(b), r.hostnames, l.name)
  {
    FlatMapMember(ListenerUses, tls, u);
    forall l | l in tls
      ensures u in ListenerUses(l) <==> exists r, b :: r in l.routes && b in r.backends && u == Use(ClusterName(b), r.hostnames, l.name)
    {
      FlatMapMember(RouteUses(l.name), l.routes, u);
      forall r | r in l.routes
        ensures u in RouteUses(l.name)(r) <==> exists b :: b in r.backends && u == Use(ClusterName(b), r.hostnames, l.name)
      {
        MapMembers(b => Use(ClusterName(b), r.hostnames, l.name), r.backends);
      }
    }
  }

  // ---------- what the chains have of it ----------

  lemma {:induction false} HostnamesOfUses(uses: seq<Use>, c: string, p: string)
    ensures p in BackendOf(Merging.WithKey(uses, ClusterOf, c)).hostnames <==> Names(uses, c, p)
  {
    var mine := Merging.WithKey(uses, ClusterOf, c);
    FlatMapMember(HostnamesOf, mine, p);
    Merging.WithKeyMember(uses, ClusterOf, c);
    if u :| u in uses && u.cluster == c && p in u.hostnames {
      assert u in mine && p in HostnamesOf(u);
    }
  }

  lemma ServerNamesHave(hostnames: seq<string>, p: string)
    ensures p in ServerNames(hostnames) <==> p in hostnames && exists q :: q in hostnames && q != "*"
  {
    var names := Clusters.SortedUnique(hostnames);
    Clusters.SortedUniqueContents(hostnames);
    if |names| > 1 {
      StringOrder();
      assert names[0] in names && names[1] in names && names[0] != names[1];
    } else if |names| == 1 {
      assert names == [names[0]] && forall q | q in hostnames :: q == names[0];
    }
  }

  // The chain of a cluster has the hosts that its routes name, or none where they name no host but "*".
  lemma ChainNames(uses: seq<Use>, c: string, p: string)
    ensures p in ChainFor(uses)(c).serverNames <==> Names(uses, c, p) && !Bare(uses, c)
  {
    var hostnames := BackendOf(Merging.WithKey(uses, ClusterOf, c)).hostnames;
    forall q ensures q in hostnames <==> Names(uses, c, q) {
      HostnamesOfUses(uses, c, q);
    }
    ServerNamesHave(hostnames, p);
  }

  lemma ChainBare(uses: seq<Use>, c: string)
    ensures ChainFor(uses)(c).serverNames == [] <==> Bare(uses, c)
  {
    var names := ChainFor(uses)(c).serverNames;
    if names != [] {
      ChainNames(uses, c, names[0]);
    }
    if !Bare(uses, c) {
      var p :| Names(uses, c, p) && p != "*";
      ChainNames(uses, c, p);
    }
  }

  // One chain for each cluster that is used, and no other.
  lemma ChainsAre(uses: seq<Use>, chain: FilterChain)
    ensures chain in Chains(uses) <==> Used(uses, chain.cluster) && chain == ChainFor(uses)(chain.cluster)
  {
    var keys := Clusters.SortedUnique(Map(ClusterOf, uses));
    Clusters.SortedUniqueContents(Map(ClusterOf, uses));
    MapMembers(ClusterOf, uses);
    MapMembers(ChainFor(uses), keys);
    assert forall c :: ChainFor(uses)(c).cluster == c;
    if chain in Chains(uses) {
      var c :| c in keys && ChainFor(uses)(c) == chain;
      var u :| u in uses && ClusterOf(u) == c;
    }
    if Used(uses, chain.cluster) {
      var u :| u in uses && u.cluster == chain.cluster;
      assert ClusterOf(u) in Map(ClusterOf, uses);
    }
  }

  // ---------- which names a chain accepts ----------

  // A server name with a star in front is for all names below it.
  ghost predicate NameAccepts(name: string, h: string) {
    h == name || (HasPrefix(name, "*.") && |h| >= |name| && HasSuffix(h, name[1..]))
  }

  ghost predicate ChainAccepts(chain: FilterChain, h: string) {
    chain.serverNames == [] || exists n :: n in chain.serverNames && NameAccepts(n, h)
  }

  lemma NameMatches(p: string, h: string)
    requires Pattern(p) && p != "" && p != "*" && Concrete(h)
    ensures NameAccepts(p, h) <==> Matches(p, h)
  {
    if Wildcard(p) {
      WildcardTail(p);
      WildcardMatchAgrees(h, p);
      ConcreteNotEmpty(h);
      assert p[1..] == TrimPrefix(p, "*");
    } else {
      ConcreteNotEmpty(p);
      assert !HasPrefix(p, "*.") by { assert p[0] != '*'; }
    }
  }

  // The chain of a cluster accepts a name if and only if a route to it names a pattern for it, or none names a host.
  lemma ChainAcceptsIff(uses: seq<Use>, chain: FilterChain, h: string)
    requires Admitted(uses) && chain in Chains(uses) && !Mixed(uses, chain.cluster) && Concrete(h)
    ensures ChainAccepts(chain, h)
       <==> Bare(uses, chain.cluster) || exists p :: Names(uses, chain.cluster, p) && Matches(p, h)
  {
    var c := chain.cluster;
    ChainsAre(uses, chain);
    ChainBare(uses, c);
    forall p ensures p in chain.serverNames <==> Names(uses, c, p) && !Bare(uses, c) {
      ChainNames(uses, c, p);
    }
    if !Bare(uses, c) {
      forall p | Names(uses, c, p) ensures p in chain.serverNames && (NameAccepts(p, h) <==> Matches(p, h)) {
        NameMatches(p, h);
      }
    }
  }

  // Envoy refuses a chain that has "*" for a server name: exactly if routes to its cluster name "*" beside another host.
  lemma StarListedIff(uses: seq<Use>, chain: FilterChain)
    requires chain in Chains(uses)
    ensures "*" in chain.serverNames <==> Mixed(uses, chain.cluster)
  {
    ChainsAre(uses, chain);
    ChainNames(uses, chain.cluster, "*");
  }

  // ---------- Envoy's choice ----------

  function ListsName(n: string): FilterChain -> bool {
    (chain: FilterChain) => n in chain.serverNames
  }

  predicate Nameless(chain: FilterChain) {
    chain.serverNames == []
  }

  // Cut at one dot after the other, so that the longest wildcard comes first.
  function WildcardChain(chains: seq<FilterChain>, h: string, i: nat): Option<FilterChain>
    decreases |h| - i
  {
    if i >= |h| then None
    else
      var found := FirstMatch(chains, ListsName("*" + h[i..]));
      if h[i] == '.' && found.Some? then found else WildcardChain(chains, h, i + 1)
  }

  // The very name, else the longest wildcard, else the chain without names.
  function Choose(chains: seq<FilterChain>, h: string): Option<FilterChain> {
    var exact := FirstMatch(chains, ListsName(h));
    var wildcard := WildcardChain(chains, h, 1);
    if exact.Some? then exact else if wildcard.Some? then wildcard else FirstMatch(chains, Nameless)
  }

  lemma {:induction false} Found<T(!new)>(s: seq<T>, p: T -> bool)
    ensures FirstMatch(s, p).Some? <==> exists x :: x in s && p(x)
    ensures FirstMatch(s, p).Some? ==> FirstMatch(s, p).value in s && p(FirstMatch(s, p).value)
  {
    if s != [] {
      Found(s[1..], p);
    }
  }

  // Some chain lists the wildcard of h that begins at its i-th character.
  ghost predicate Listed(chains: seq<FilterChain>, h: string, i: nat) {
    i < |h| && h[i] == '.' && exists chain :: chain in chains && "*" + h[i..] in chain.serverNames
  }

  lemma {:induction false} WildcardFound(chains: seq<FilterChain>, h: string, i: nat)
    ensures var found := WildcardChain(chains, h, i);
      if found.None? then forall j: nat | i <= j :: !Listed(chains, h, j)
      else exists j: nat :: i <= j && Listed(chains, h, j) && found.value in chains && "*" + h[j..] in found.value.serverNames
             && forall k: nat | i <= k < j :: !Listed(chains, h, k)
    decreases |h| - i
  {
    if i < |h| {
      Found(chains, ListsName("*" + h[i..]));
      WildcardFound(chains, h, i + 1);
    }
  }

  // The wildcards that accept a name are those that begin at one of its dots, but the first character.
  lemma WildcardAt(n: string, h: string)
    requires NameAccepts(n, h) && h != n
    ensures var j := |h| - |n| + 1; 1 <= j < |h| && h[j] == '.' && n == "*" + h[j..]
  {
    var j := |h| - |n| + 1;
    assert h[j..] == n[1..] && n[1] == '.';
    assert n == "*" + n[1..] by { assert n[..2] == "*."; assert n[0] == '*'; }
  }

  lemma AcceptedIsListed(chains: seq<FilterChain>, chain: FilterChain, n: string, h: string)
    requires chain in chains && n in chain.serverNames && NameAccepts(n, h) && n != h
    ensures |h| - |n| + 1 >= 1 && Listed(chains, h, |h| - |n| + 1)
  {
    WildcardAt(n, h);
  }

  lemma AtAccepts(h: string, j: nat)
    requires 1 <= j < |h| && h[j] == '.'
    ensures NameAccepts("*" + h[j..], h)
  {
    var n := "*" + h[j..];
    assert n[1..] == h[j..] && n[..2] == "*.";
  }

  // q is more specific for h than p: the name itself, or a longer wildcard.
  predicate MoreSpecific(q: string, p: string, h: string) {
    p != h && (q == h || |q| > |p|)
  }

  // What is chosen: a chain with the most specific of all the server names that accept h, or a nameless one where none
  // does, or nothing.
  ghost predicate Chosen(chains: seq<FilterChain>, h: string, found: Option<FilterChain>) {
    if exists chain, n :: chain in chains && n in chain.serverNames && NameAccepts(n, h) then
      && found.Some? && found.value in chains
      && exists n :: n in found.value.serverNames && NameAccepts(n, h) && NoneMoreSpecific(chains, n, h)
    else if exists chain :: chain in chains && Nameless(chain) then found.Some? && found.value in chains && Nameless(found.value)
    else found.None?
  }

  ghost predicate NoneMoreSpecific(chains: seq<FilterChain>, n: string, h: string) {
    forall chain, q | chain in chains && q in chain.serverNames && NameAccepts(q, h) :: !MoreSpecific(q, n, h)
  }

  lemma ExactChosen(chains: seq<FilterChain>, h: string, chain: FilterChain)
    requires chain in chains && h in chain.serverNames
    ensures Chosen(chains, h, Some(chain))
  {
    assert NameAccepts(h, h) && NoneMoreSpecific(chains, h, h);
  }

  lemma WildcardChosen(chains: seq<FilterChain>, h: string, j: nat, chain: FilterChain)
    requires 1 <= j && Listed(chains, h, j) && chain in chains && "*" + h[j..] in chain.serverNames
    requires forall k: nat | 1 <= k < j :: !Listed(chains, h, k)
    requires forall x | x in chains :: h !in x.serverNames
    ensures Chosen(chains, h, Some(chain))
  {
    var n := "*" + h[j..];
    AtAccepts(h, j);
    forall x, q | x in chains && q in x.serverNames && NameAccepts(q, h) ensures !MoreSpecific(q, n, h) {
      WildcardAt(q, h);
      assert Listed(chains, h, |h| - |q| + 1);
    }
    assert NoneMoreSpecific(chains, n, h);
  }

  lemma NamelessChosen(chains: seq<FilterChain>, h: string)
    requires (forall x | x in chains :: h !in x.serverNames) && forall j: nat | 1 <= j :: !Listed(chains, h, j)
    ensures Chosen(chains, h, FirstMatch(chains, Nameless))
  {
    Found(chains, Nameless);
    forall x, q | x in chains && q in x.serverNames ensures !NameAccepts(q, h) {
      if NameAccepts(q, h) {
        AcceptedIsListed(chains, x, q, h);
      }
    }
  }

  lemma ChoiceIsMostSpecific(chains: seq<FilterChain>, h: string)
    ensures Chosen(chains, h, Choose(chains, h))
  {
    Found(chains, ListsName(h));
    WildcardFound(chains, h, 1);
    var exact, wildcard := FirstMatch(chains, ListsName(h)), WildcardChain(chains, h, 1);
    if exact.Some? {
      ExactChosen(chains, h, exact.value);
    } else if wildcard.Some? {
      var j: nat :| 1 <= j && Listed(chains, h, j) && wildcard.value in chains && "*" + h[j..] in wildcard.value.serverNames
        && forall k: nat | 1 <= k < j :: !Listed(chains, h, k);
      WildcardChosen(chains, h, j, wildcard.value);
    } else {
      NamelessChosen(chains, h);
    }
  }

  // ---------- the choice, in terms of the routes ----------

  // Some route names the host, and it is more than "*".
  ghost predicate NamedFor(uses: seq<Use>, c: string, p: string, h: string)
    requires Admitted(uses)
  {
    Names(uses, c, p) && p != "*" && Matches(p, h)
  }

  ghost predicate NoneNamedFor(uses: seq<Use>, h: string)
    requires Admitted(uses)
  {
    forall c, p :: !NamedFor(uses, c, p, h)
  }

  // A connection for h goes to a cluster one of whose routes names the most specific host for it; if no route names a
  // host for it, to a cluster whose routes name no host at all; and if there is none, nowhere.
  ghost predicate Taken(uses: seq<Use>, h: string, found: Option<FilterChain>)
    requires Admitted(uses)
  {
    if !NoneNamedFor(uses, h) then
      found.Some? && exists p :: NamedFor(uses, found.value.cluster, p, h) && MostSpecificNamed(uses, p, h)
    else if exists c :: Used(uses, c) && Bare(uses, c) then found.Some? && Used(uses, found.value.cluster) && Bare(uses, found.value.cluster)
    else found.None?
  }

  ghost predicate MostSpecificNamed(uses: seq<Use>, p: string, h: string)
    requires Admitted(uses)
  {
    forall c, q | NamedFor(uses, c, q, h) :: !MoreSpecific(q, p, h)
  }

  lemma ListedIsNamed(uses: seq<Use>, chain: FilterChain, n: string, h: string)
    requires Admitted(uses) && Concrete(h) && chain in Chains(uses) && !Mixed(uses, chain.cluster)
    ensures n in chain.serverNames && NameAccepts(n, h) <==> NamedFor(uses, chain.cluster, n, h)
  {
    ChainsAre(uses, chain);
    ChainNames(uses, chain.cluster, n);
    if Names(uses, chain.cluster, n) && n != "*" {
      NameMatches(n, h);
    }
  }

  lemma NamedIsListed(uses: seq<Use>, c: string, p: string, h: string) returns (chain: FilterChain)
    requires Admitted(uses) && Concrete(h) && !Mixed(uses, c) && NamedFor(uses, c, p, h)
    ensures chain in Chains(uses) && chain.cluster == c && p in chain.serverNames && NameAccepts(p, h)
  {
    chain := ChainFor(uses)(c);
    ChainsAre(uses, chain);
    ListedIsNamed(uses, chain, p, h);
  }

  lemma NamedTaken(uses: seq<Use>, h: string, found: Option<FilterChain>, c: string, p: string)
    requires Admitted(uses) && Concrete(h) && (forall d :: !Mixed(uses, d)) && NamedFor(uses, c, p, h)
    requires Chosen(Chains(uses), h, found)
    ensures found.Some? && exists n :: NamedFor(uses, found.value.cluster, n, h) && MostSpecificNamed(uses, n, h)
  {
    var chain := NamedIsListed(uses, c, p, h);
    var n :| n in found.value.serverNames && NameAccepts(n, h) && NoneMoreSpecific(Chains(uses), n, h);
    ListedIsNamed(uses, found.value, n, h);
    forall d, q | NamedFor(uses, d, q, h) ensures !MoreSpecific(q, n, h) {
      var other := NamedIsListed(uses, d, q, h);
    }
  }

  lemma BareTaken(uses: seq<Use>, h: string, found: Option<FilterChain>)
    requires Admitted(uses) && Concrete(h) && (forall d :: !Mixed(uses, d)) && NoneNamedFor(uses, h)
    requires Chosen(Chains(uses), h, found)
    ensures Taken(uses, h, found)
  {
    forall chain, n | chain in Chains(uses) && n in chain.serverNames ensures !NameAccepts(n, h) {
      ListedIsNamed(uses, chain, n, h);
    }
    NamelessAreBare(uses);
  }

  lemma ConnectionTaken(uses: seq<Use>, h: string)
    requires Admitted(uses) && Concrete(h) && forall c :: !Mixed(uses, c)
    ensures Taken(uses, h, Choose(Chains(uses), h))
  {
    ChoiceIsMostSpecific(Chains(uses), h);
    if !NoneNamedFor(uses, h) {
      var c, p :| NamedFor(uses, c, p, h);
      NamedTaken(uses, h, Choose(Chains(uses), h), c, p);
    } else {
      BareTaken(uses, h, Choose(Chains(uses), h));
    }
  }

  lemma NamelessAreBare(uses: seq<Use>)
    ensures forall chain | chain in Chains(uses) :: Used(uses, chain.cluster) && (Nameless(chain) <==> Bare(uses, chain.cluster))
    ensures (exists chain :: chain in Chains(uses) && Nameless(chain)) <==> exists c :: Used(uses, c) && Bare(uses, c)
  {
    forall chain | chain in Chains(uses) ensures Used(uses, chain.cluster) && (Nameless(chain) <==> Bare(uses, chain.cluster)) {
      ChainsAre(uses, chain);
      ChainBare(uses, chain.cluster);
    }
    if c :| Used(uses, c) && Bare(uses, c) {
      var chain := ChainFor(uses)(c);
      ChainsAre(uses, chain);
      ChainBare(uses, c);
    }
  }

  // ---------- two chains for one name ----------

  // Envoy refuses two chains that share a server name, or that have none.
  ghost predicate Clash(chains: seq<FilterChain>) {
    exists a, b :: a in chains && b in chains && a != b && Share(a, b)
  }

  ghost predicate Share(a: FilterChain, b: FilterChain) {
    (Nameless(a) && Nameless(b)) || exists n :: n in a.serverNames && n in b.serverNames
  }

  // The clusters are claimed alike.
  ghost predicate Alike(uses: seq<Use>, c: string, d: string) {
    || (Bare(uses, c) && Bare(uses, d))
    || (!Bare(uses, c) && !Bare(uses, d) && exists p :: Names(uses, c, p) && Names(uses, d, p))
  }

  // A chain's names are those its routes name, if they name any host.
  ghost predicate Claims(chain: FilterChain, uses: seq<Use>, c: string) {
    (Nameless(chain) <==> Bare(uses, c)) && forall p :: p in chain.serverNames <==> Names(uses, c, p) && !Bare(uses, c)
  }

  lemma ChainClaims(uses: seq<Use>, c: string)
    ensures Claims(ChainFor(uses)(c), uses, c)
  {
    ChainBare(uses, c);
    forall p ensures p in ChainFor(uses)(c).serverNames <==> Names(uses, c, p) && !Bare(uses, c) {
      ChainNames(uses, c, p);
    }
  }

  lemma ClaimsShare(a: FilterChain, b: FilterChain, uses: seq<Use>, c: string, d: string)
    requires Claims(a, uses, c) && Claims(b, uses, d)
    ensures Share(a, b) <==> Alike(uses, c, d)
  {
    if p :| !Bare(uses, c) && !Bare(uses, d) && Names(uses, c, p) && Names(uses, d, p) {
      assert p in a.serverNames && p in b.serverNames;
    }
    if n :| n in a.serverNames && n in b.serverNames {
      assert Names(uses, c, n) && Names(uses, d, n);
    }
  }

  lemma ShareIff(uses: seq<Use>, c: string, d: string)
    ensures Share(ChainFor(uses)(c), ChainFor(uses)(d)) <==> Alike(uses, c, d)
  {
    ChainClaims(uses, c);
    ChainClaims(uses, d);
    ClaimsShare(ChainFor(uses)(c), ChainFor(uses)(d), uses, c, d);
  }

  // Two chains clash if and only if routes to two clusters name the same host, or none at all.
  lemma ClashIff(uses: seq<Use>)
    ensures Clash(Chains(uses)) <==> exists c, d :: Used(uses, c) && Used(uses, d) && c != d && Alike(uses, c, d)
  {
    if a, b :| a in Chains(uses) && b in Chains(uses) && a != b && Share(a, b) {
      ChainsAre(uses, a);
      ChainsAre(uses, b);
      ShareIff(uses, a.cluster, b.cluster);
    }
    if c, d :| Used(uses, c) && Used(uses, d) && c != d && Alike(uses, c, d) {
      var a, b := ChainFor(uses)(c), ChainFor(uses)(d);
      ChainsAre(uses, a);
      ChainsAre(uses, b);
      ShareIff(uses, c, d);
    }
  }

  // So a route with a host and backends in two clusters always makes a clash.
  lemma TwoBackendsClash(tls: seq<TLSListener>, l: TLSListener, r: TLSRoute, a: Backend, b: Backend, p: string)
    requires l in tls && r in l.routes && a in r.backends && b in r.backends && ClusterName(a) != ClusterName(b)
    requires p in r.hostnames && p != "*"
    ensures Clash(Chains(Uses(tls)))
  {
    var uses := Uses(tls);
    var u, v := Use(ClusterName(a), r.hostnames, l.name), Use(ClusterName(b), r.hostnames, l.name);
    UsedByRoute(tls, u);
    UsedByRoute(tls, v);
    assert Names(uses, ClusterName(a), p) && Names(uses, ClusterName(b), p);
    assert Used(uses, ClusterName(a)) && Used(uses, ClusterName(b)) && Alike(uses, ClusterName(a), ClusterName(b));
    ClashIff(uses);
  }

  // ---------- a route without hosts ----------

  function LongestName(names: seq<string>): nat {
    if names == [] then 0 else var rest := LongestName(names[1..]); if |names[0]| > rest then |names[0]| else rest
  }

  lemma {:induction false} NamesShorter(names: seq<string>)
    ensures forall n | n in names :: |n| <= LongestName(names)
  {
    if names != [] {
      NamesShorter(names[1..]);
      assert names == [names[0]] + names[1..];
    }
  }

  // A name of one label that no server name accepts.
  lemma Outsider(names: seq<string>) returns (h: string)
    ensures Concrete(h) && forall n | n in names :: !NameAccepts(n, h)
  {
    h := seq(LongestName(names) + 1, _ => 'a');
    NamesShorter(names);
    assert h[0] == 'a';
    SplitWithoutSeparator(h, '.');
    forall n | n in names ensures !NameAccepts(n, h) {
      if HasPrefix(n, "*.") && |h| >= |n| && HasSuffix(h, n[1..]) {
        WildcardAt(n, h);
      }
    }
  }

  // A route without hosts is meant for every connection. Its cluster's chain takes them all if and only if no other route
  // to the cluster names a host.
  lemma TakesAllIff(uses: seq<Use>, chain: FilterChain)
    requires chain in Chains(uses)
    ensures (forall h | Concrete(h) :: ChainAccepts(chain, h)) <==> Bare(uses, chain.cluster)
  {
    ChainsAre(uses, chain);
    ChainBare(uses, chain.cluster);
    if chain.serverNames != [] {
      var h := Outsider(chain.serverNames);
    }
  }

  lemma LoneName(c: string, listener: string)
    ensures var uses := [Use(c, [], listener), Use(c, ["a"], listener)];
      && (forall d, p :: Names(uses, d, p) <==> d == c && p == "a") && (forall d | Used(uses, d) :: d == c)
  {
    var uses := [Use(c, [], listener), Use(c, ["a"], listener)];
    assert uses[1] in uses && "a" in uses[1].hostnames && uses[0].hostnames == [];
    assert forall u | u in uses :: u == uses[0] || u == uses[1];
  }

  // Only this cluster is used, and "a" is all that is named for it.
  ghost predicate Only(uses: seq<Use>, c: string) {
    (forall d, p :: Names(uses, d, p) <==> d == c && p == "a") && forall d | Used(uses, d) :: d == c
  }

  lemma OnlyAdmitted(uses: seq<Use>, c: string)
    requires Only(uses, c)
    ensures Admitted(uses) && (forall d :: !Mixed(uses, d)) && !Bare(uses, c)
  {
    assert "a"[0] == 'a' && "*"[0] == '*';
    SplitWithoutSeparator("a", '.');
    assert Names(uses, c, "a") && "a" != "*";
    forall d ensures !Mixed(uses, d) {
      assert !Names(uses, d, "*");
    }
  }

  lemma OnlyNamed(uses: seq<Use>, c: string, h: string)
    requires Only(uses, c) && h in ["a", "b"]
    ensures Choose(Chains(uses), h).Some? <==> h == "a"
  {
    OnlyAdmitted(uses, c);
    assert "a"[0] == 'a' && "b"[0] == 'b';
    SplitWithoutSeparator(h, '.');
    ConnectionTaken(uses, h);
    OnlyTaken(uses, c, h, Choose(Chains(uses), h));
  }

  lemma OnlyTaken(uses: seq<Use>, c: string, h: string, found: Option<FilterChain>)
    requires Only(uses, c) && Admitted(uses) && !Bare(uses, c) && Taken(uses, h, found)
    ensures found.Some? <==> h == "a"
  {
    assert NamedFor(uses, c, "a", h) <==> h == "a" by {
      assert Names(uses, c, "a") && "a"[0] == 'a' && "*"[0] == '*';
    }
    forall d, p | NamedFor(uses, d, p, h) ensures h == "a" {
      assert Names(uses, d, p);
    }
  }

  // One route without hosts and one for a name, to the same backend: connections for other names are lost.
  lemma HostlessLost(c: string, listener: string)
    ensures var uses := [Use(c, [], listener), Use(c, ["a"], listener)];
      Choose(Chains(uses), "a").Some? && Choose(Chains(uses), "b") == None
  {
    LoneName(c, listener);
    OnlyNamed([Use(c, [], listener), Use(c, ["a"], listener)], c, "a");
    OnlyNamed([Use(c, [], listener), Use(c, ["a"], listener)], c, "b");
    assert "a"[0] != "b"[0];
  }

  // ---------- statistics ----------

  // The last route to the cluster that names a host gives the prefix, with its listener and its first host.
  ghost predicate LastNaming(uses: seq<Use>, c: string, i: nat) {
    i < |uses| && uses[i].cluster == c && uses[i].hostnames != [] && forall j | i < j < |uses| && uses[j].cluster == c :: uses[j].hostnames == []
  }

  ghost predicate SomeNaming(uses: seq<Use>, c: string) {
    exists u :: u in uses && u.cluster == c && u.hostnames != []
  }

  ghost predicate Prefixed(uses: seq<Use>, c: string, prefix: string) {
    exists i: nat :: LastNaming(uses, c, i) && prefix == uses[i].listener + ":" + uses[i].hostnames[0]
  }

  lemma {:induction false} PrefixOf(uses: seq<Use>, c: string)
    ensures var prefix := LastPrefix(Merging.WithKey(uses, ClusterOf, c));
      if SomeNaming(uses, c) then Prefixed(uses, c, prefix) && prefix != "" else prefix == ""
  {
    if uses != [] {
      var n := |uses| - 1;
      var front, last := uses[..n], uses[n];
      PrefixOf(front, c);
      assert uses == front + [last];
      var mine := Merging.WithKey(front, ClusterOf, c);
      if last.cluster == c {
        assert Merging.WithKey(uses, ClusterOf, c) == mine + [last] && (mine + [last])[..|mine|] == mine;
      } else {
        assert Merging.WithKey(uses, ClusterOf, c) == mine;
      }
      if last.cluster == c && last.hostnames != [] {
        assert LastNaming(uses, c, n) && last in uses;
      } else if SomeNaming(front, c) {
        var i: nat :| LastNaming(front, c, i) && LastPrefix(mine) == front[i].listener + ":" + front[i].hostnames[0];
        assert LastNaming(uses, c, i) && front[i] in uses;
      }
    }
  }

  // Without such a route it is the cluster.
  lemma StatPrefixIs(uses: seq<Use>, chain: FilterChain)
    requires chain in Chains(uses)
    ensures if SomeNaming(uses, chain.cluster) then Prefixed(uses, chain.cluster, chain.statPrefix) else chain.statPrefix == chain.cluster
  {
    ChainsAre(uses, chain);
    PrefixOf(uses, chain.cluster);
  }
}
