/** What an Ingress offers at a host, path by path, and what its routes make of it. */
module IngressPaths {
  import opened Wrappers
  import opened Model
  import opened Sorting
  import opened RouteMatch
  import opened RouteOrder
  import opened VirtualHost
  import opened IngressIngestion
  import opened IngressServing
  import HostRouting
  import HostSearch
  import MatchKey
  import RouteActions
  import Strings

  // ---------- the meaning of a path ----------

  // A path that says nothing is for every request.
  predicate SaysNothing(p: IngressPath) {
    p.path == "" || p.kind !in ["Exact", "Prefix", "ImplementationSpecific"]
  }

  // Exact paths are equal, prefixes lead element by element, and other paths are expressions for the whole path.
  ghost predicate PathHolds(p: IngressPath, req: Request) {
    || SaysNothing(p)
    || (p.kind == "Exact" && req.path == p.path)
    || (p.kind == "Prefix" && ElementPrefix(p.path, req.path))
    || (p.kind == "ImplementationSpecific" && req.fullMatch(p.path, req.path))
  }

  // One path of a rule, or the default backend where there is none.
  datatype Offer = Offer(path: Option<IngressPath>, backend: IngressBackend, namespace: string, timeout: Timeout)

  ghost predicate Holds(o: Offer, req: Request) {
    o.path.Some? ==> PathHolds(o.path.value, req)
  }

  predicate ForAll(o: Offer) {
    o.path.None? || SaysNothing(o.path.value)
  }

  // An exact path comes before an expression, and that before a prefix; the longer first, without a trailing slash.
  function Rank(o: Offer): (nat, nat) {
    if ForAll(o) then (1, 1)
    else
      var p := o.path.value;
      if p.kind == "Exact" then (3, |p.path|)
      else if p.kind == "ImplementationSpecific" then (2, |p.path|)
      else (1, if p.path == "/" then 1 else |Strings.TrimSuffix(p.path, "/")|)
  }

  predicate SamePath(a: Offer, b: Offer) {
    if ForAll(a) || ForAll(b) then ForAll(a) && ForAll(b) else a.path.value.kind == b.path.value.kind && a.path.value.path == b.path.value.path
  }

  // The cluster of the service, in the namespace of the Ingress, at its port number or else at its port's name.
  function ClusterFor(o: Offer): string {
    o.namespace + ":" + o.backend.service + ":" + if o.backend.portNumber != 0 then Strings.Itoa(o.backend.portNumber) else o.backend.portName
  }

  // ---------- what is offered ----------

  predicate RuleFor(rule: IngressRule, host: string) {
    host != "" && (rule.host == host || (rule.host == "" && host == "*"))
  }

  function PathsAt(host: string): IngressRule -> seq<IngressPath> {
    (rule: IngressRule) => if RuleFor(rule, host) && rule.http.Some? then rule.http.value else []
  }

  function PathOffer(namespace: string, timeout: Timeout): IngressPath -> Offer {
    (p: IngressPath) => Offer(Some(p), p.backend, namespace, timeout)
  }

  // The default backend, for "*", and then every path of the host's rules, in order.
  function OffersAt(ing: IngressObject, host: string): seq<Offer> {
    (if host == "*" && ing.defaultBackend.Some? then [Offer(None, ing.defaultBackend.value, ing.source.namespace, ing.timeout)] else [])
    + Map(PathOffer(ing.source.namespace, ing.timeout), FlatMap(PathsAt(host), ing.rules))
  }

  predicate ListedForTLS(ing: IngressObject, host: string) {
    exists i | 0 <= i < |ing.tls| :: host in ing.tls[i].hosts
  }

  // Without TLS a host has its own offers.
  function OwnOffers(ing: IngressObject, host: string, secure: bool): seq<Offer> {
    if secure then [] else OffersAt(ing, host)
  }

  // With TLS it has those of "*" where there is such a host, and else its own, on the secure side if it has a secret and
  // in the clear if not.
  function TLSOffers(ing: IngressObject, host: string, secure: bool): seq<Offer> {
    if ListedForTLS(ing, host) && secure == !Secretless(ing, host) then OffersAt(ing, BaseHost(ing, host)) else []
  }

  function SideOffers(ing: IngressObject, host: string, secure: bool): seq<Offer> {
    OwnOffers(ing, host, secure) + TLSOffers(ing, host, secure)
  }

  // ---------- the routes are the offers ----------

  function RouteOf(o: Offer): HTTPRoute {
    HTTPRoute(
      [], if o.path.Some? then ToPathMatch(o.path.value) else NO_MATCH, [], [], None,
      [ToBackend(o.backend, o.namespace)], None, None, None, [], o.timeout)
  }

  // A route asks for just the requests that its path holds of.
  lemma OfferAsked(o: Offer, req: Request)
    ensures Asked(RouteOf(o), req) <==> Holds(o, req)
  {
  }

  lemma OffersRanked(a: Offer, b: Offer)
    ensures Outranks(RouteOf(a), RouteOf(b)) <==> HostSearch.Above(Rank(a), Rank(b))
  {
  }

  lemma OffersMatch(a: Offer, b: Offer)
    ensures MatchKey.SameMatch(RouteOf(a), RouteOf(b)) <==> SamePath(a, b)
  {
  }

  lemma OfferCluster(o: Offer)
    ensures ClusterName(ToBackend(o.backend, o.namespace)) == ClusterFor(o)
  {
  }

  lemma PathsAgree(ing: IngressObject, host: string)
    ensures FlatMap(PathsAt(host), ing.rules) == FlatMap(PathsFor(host), ing.rules)
  {
    SameFlatMap(PathsAt(host), PathsFor(host), ing.rules);
  }

  lemma MapMap<T, U, V>(f: T -> U, g: U -> V, h: T -> V, s: seq<T>)
    requires forall x | x in s :: g(f(x)) == h(x)
    ensures Map(g, Map(f, s)) == Map(h, s)
  {
  }

  lemma HostRoutesOffered(ing: IngressObject, host: string)
    ensures IngressIngestion.HostRoutes(ing, ing.rules, host) == Map(RouteOf, OffersAt(ing, host))
  {
    var paths := FlatMap(PathsFor(host), ing.rules);
    var offer := PathOffer(ing.source.namespace, ing.timeout);
    PathsAgree(ing, host);
    MapMap(offer, RouteOf, PathRoute(ing), paths);
    if host == "*" && ing.defaultBackend.Some? {
      var first := Offer(None, ing.defaultBackend.value, ing.source.namespace, ing.timeout);
      MapConcat(RouteOf, [first], Map(offer, paths));
      assert Map(RouteOf, [first]) == [RouteOf(first)];
      assert DefaultRoutes(ing, host) == [RouteOf(first)];
    } else {
      assert OffersAt(ing, host) == Map(offer, paths) && IngressIngestion.HostRoutes(ing, ing.rules, host) == Map(PathRoute(ing), paths);
    }
  }

  lemma NotServedNoRoutes(ing: IngressObject, host: string)
    requires !Served(ing, ing.rules, host)
    ensures IngressIngestion.HostRoutes(ing, ing.rules, host) == []
  {
    NoneOf(PathsFor(host), ing.rules);
  }

  lemma ListedIsMentioned(ing: IngressObject, host: string)
    ensures ListedForTLS(ing, host) <==> Mentioned(Mentions(ing), host)
  {
    MentionedBySection(ing, ing.tls, host);
    LastSectionIff(ing.tls, host);
  }

  lemma OwnRoutes(ing: IngressObject, host: string, secure: bool)
    ensures (if !secure && Served(ing, ing.rules, host) then IngressIngestion.HostRoutes(ing, ing.rules, host) else [])
         == Map(RouteOf, OwnOffers(ing, host, secure))
  {
    HostRoutesOffered(ing, host);
    if !Served(ing, ing.rules, host) {
      NotServedNoRoutes(ing, host);
    }
  }

  lemma TLSRoutes(ing: IngressObject, host: string, secure: bool)
    ensures (if Secured(ing, Mentions(ing), host) && SecureAt(ing)(host).tls.Some? == secure
             then IngressIngestion.HostRoutes(ing, ing.rules, BaseHost(ing, host)) else [])
         == Map(RouteOf, TLSOffers(ing, host, secure))
  {
    HostRoutesOffered(ing, BaseHost(ing, host));
    ListedIsMentioned(ing, host);
    if ListedForTLS(ing, host) {
      TLSMissingIff(ing, host);
      if !Star(ing) && !Served(ing, ing.rules, host) {
        NotServedNoRoutes(ing, host);
      }
    }
  }

  // The routes of a side of a host are those of its offers, in order.
  lemma ServesOffers(ing: IngressObject, host: string, secure: bool)
    ensures Serves(ing, host, secure) == Map(RouteOf, SideOffers(ing, host, secure))
  {
    OwnRoutes(ing, host, secure);
    TLSRoutes(ing, host, secure);
    MapConcat(RouteOf, OwnOffers(ing, host, secure), TLSOffers(ing, host, secure));
  }

  // ---------- what a request gets ----------

  ghost function HoldsOf(req: Request): Offer -> bool {
    o => Holds(o, req)
  }

  function SamePathAs(o: Offer): Offer -> bool {
    x => SamePath(x, o)
  }

  // Of the offers that hold of the request, none is above this one, and it is above those before it.
  ghost predicate Wins(holding: seq<Offer>, k: nat) {
    && k < |holding| && (forall o | o in holding :: !HostSearch.Above(Rank(o), Rank(holding[k])))
    && (forall j | 0 <= j < k :: HostSearch.Above(Rank(holding[k]), Rank(holding[j])))
  }

  // Forwarding to the services of these offers, to each the same.
  ghost predicate Forwards(action: Action, offers: seq<Offer>)
    requires offers != []
  {
    && action.Forward? && action.rewrite.None? && action.mirrors == [] && RouteActions.Least(action.timeout, offers[0].timeout)
    && if |offers| == 1 then action.target == Cluster(ClusterFor(offers[0]))
       else
         && action.target.WeightedClusters? && |action.target.clusters| == |offers|
         && forall i | 0 <= i < |offers| :: action.target.clusters[i] == ClusterWeight(ClusterFor(offers[i]), 1)
  }

  ghost predicate WinnerForwards(offers: seq<Offer>, o: Offer, action: Action) {
    Filter(offers, SamePathAs(o)) != [] && Forwards(action, Filter(offers, SamePathAs(o)))
  }

  // Nothing if no path holds of the request; else the services of the best path that does.
  ghost predicate Answer(offers: seq<Offer>, req: Request, answer: Option<Action>) {
    var holding := Filter(offers, HoldsOf(req));
    if holding == [] then answer.None?
    else answer.Some? && exists k: nat :: Wins(holding, k) && WinnerForwards(offers, holding[k], answer.value)
  }

  lemma {:induction false} FilterMap<T, U>(f: T -> U, s: seq<T>, p: U -> bool, q: T -> bool)
    requires forall x | x in s :: p(f(x)) == q(x)
    ensures Filter(Map(f, s), p) == Map(f, Filter(s, q))
  {
    if s != [] {
      assert Map(f, s)[1..] == Map(f, s[1..]);
      FilterMap(f, s[1..], p, q);
      if q(s[0]) {
        assert Map(f, [s[0]] + Filter(s[1..], q)) == [f(s[0])] + Map(f, Filter(s[1..], q));
      }
    }
  }

  lemma {:induction false} OneEach<T, U, V>(g: T -> U, f: U -> seq<V>, h: T -> V, s: seq<T>)
    requires forall x | x in s :: f(g(x)) == [h(x)]
    ensures FlatMap(f, Map(g, s)) == Map(h, s)
  {
    if s != [] {
      var front, last := s[..|s| - 1], s[|s| - 1];
      assert s == front + [last] && last in s;
      OneEach(g, f, h, front);
      MapSnoc(g, front, last);
      MapSnoc(h, front, last);
      assert Map(g, s)[..|front|] == Map(g, front);
    }
  }

  function BackendFor(o: Offer): Backend {
    ToBackend(o.backend, o.namespace)
  }

  lemma GroupForwards(offers: seq<Offer>, port: nat, action: Action)
    requires offers != [] && RouteActions.Serves(action, Map(RouteOf, offers), port)
    ensures Forwards(action, offers)
  {
    var group := Map(RouteOf, offers);
    var backends := FlatMap(RouteActions.BackendsOf, group);
    OneEach(RouteOf, RouteActions.BackendsOf, BackendFor, offers);
    assert group[0] == RouteOf(offers[0]) && FlatMap(RouteActions.MirrorCluster, []) == [];
    forall i | 0 <= i < |offers| ensures ClusterName(backends[i]) == ClusterFor(offers[i]) && RouteActions.Wanted(backends[i]) == 1 {
      OfferCluster(offers[i]);
    }
  }

  lemma WinnerAgrees(offers: seq<Offer>, o: Offer, port: nat, action: Action)
    requires RouteActions.WinnerServes(Map(RouteOf, offers), RouteOf(o), port, action)
    ensures WinnerForwards(offers, o, action)
  {
    forall x | x in offers ensures HostRouting.SameAs(RouteOf(o))(RouteOf(x)) == SamePathAs(o)(x) {
      OffersMatch(x, o);
    }
    FilterMap(RouteOf, offers, HostRouting.SameAs(RouteOf(o)), SamePathAs(o));
    GroupForwards(Filter(offers, SamePathAs(o)), port, action);
  }

  lemma WinsAgrees(holding: seq<Offer>, k: nat)
    requires RouteActions.Wins(Map(RouteOf, holding), k)
    ensures Wins(holding, k)
  {
    var routes := Map(RouteOf, holding);
    forall o | o in holding ensures !HostSearch.Above(Rank(o), Rank(holding[k])) {
      var i :| 0 <= i < |holding| && holding[i] == o;
      assert routes[i] in routes;
      OffersRanked(o, holding[k]);
    }
    forall j | 0 <= j < k ensures HostSearch.Above(Rank(holding[k]), Rank(holding[j])) {
      assert Outranks(routes[k], routes[j]);
      OffersRanked(holding[k], holding[j]);
    }
  }

  // What the routes answer is what the offers say.
  lemma OffersAnswer(offers: seq<Offer>, req: Request, port: nat, answer: Option<Action>)
    requires RouteActions.Answer(Map(RouteOf, offers), req, port, answer)
    ensures Answer(offers, req, answer)
  {
    var routes, holding := Map(RouteOf, offers), Filter(offers, HoldsOf(req));
    forall x | x in offers ensures HostRouting.AskedBy(req)(RouteOf(x)) == HoldsOf(req)(x) {
      OfferAsked(x, req);
    }
    FilterMap(RouteOf, offers, HostRouting.AskedBy(req), HoldsOf(req));
    var asked := Filter(routes, HostRouting.AskedBy(req));
    assert asked == Map(RouteOf, holding);
    if holding != [] {
      var k: nat :| RouteActions.Wins(asked, k) && RouteActions.WinnerServes(routes, asked[k], port, answer.value);
      WinsAgrees(holding, k);
      WinnerAgrees(offers, holding[k], port, answer.value);
    }
  }
}
