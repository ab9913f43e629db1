/** What the routes attached to a Gateway offer at a host, match by match, and what ingestion makes of it. */
module GatewayOffers {
  import opened Wrappers
  import opened Model
  import opened Sorting
  import opened GatewayObjects
  import opened RouteMatch
  import opened RouteConfig
  import opened TLSIngestion
  import opened HTTPIngestion
  import GRPCMatching
  import HTTPMatching
  import IngressServing
  import Merging

  // ---------- what a match asks ----------

  datatype PathAsk = AnyPath | Exactly(text: string) | Under(text: string) | Expression(text: string)

  datatype Ask = Ask(path: PathAsk, headers: seq<TypedPair>, queries: seq<TypedPair>)

  const EVERYTHING := Ask(AnyPath, [], [])

  function HTTPAsk(m: HTTPMatch): Ask {
    var path :=
      if m.path.None? then AnyPath
      else if m.path.value.kind == "Exact" then Exactly(m.path.value.value)
      else if m.path.value.kind == "PathPrefix" then Under(m.path.value.value)
      else Expression(m.path.value.value);
    Ask(path, m.headers, m.queryParams)
  }

  // The path of a method, or of a service where no method is given; without a service, any.
  function GRPCAsk(m: GRPCMatch): Ask {
    var path :=
      if m.method_.None? || m.method_.value.service.None? then AnyPath
      else
        var service := m.method_.value.service.value;
        var text := if m.method_.value.method_.None? then "/" + service else "/" + service + "/" + m.method_.value.method_.value;
        if m.method_.value.kind == "Exact" then Exactly(text) else Expression(text);
    Ask(path, m.headers, [])
  }

  ghost predicate PathHolds(p: PathAsk, req: Request) {
    match p
    case AnyPath => true
    case Exactly(text) => req.path == text
    case Under(text) => ElementPrefix(text, req.path)
    case Expression(text) => req.fullMatch(text, req.path)
  }

  ghost predicate AskHolds(a: Ask, req: Request) {
    && PathHolds(a.path, req)
    && (forall t | t in a.headers :: HTTPMatching.PairHolds(t, req.Header(t.name), req))
    && (forall t | t in a.queries :: HTTPMatching.PairHolds(t, req.query(t.name), req))
  }

  // Asks of the matches that the API server admits.
  ghost predicate AskAdmitted(a: Ask) {
    (a.path.AnyPath? || a.path.text != "") && HTTPMatching.PairsAdmitted(a.headers) && HTTPMatching.PairsAdmitted(a.queries)
  }

  lemma MatchesAdmitted()
    ensures forall m | HTTPMatching.Admitted(m) :: AskAdmitted(HTTPAsk(m))
    ensures forall m | GRPCMatching.Admitted(m) :: AskAdmitted(GRPCAsk(m))
  {
    assert HTTPMatching.PairsAdmitted([]);
  }

  // An ask is what its match means: all of an HTTP match but its method, and of a GRPC match what is left of it.
  lemma HTTPAskHolds(m: HTTPMatch, req: Request)
    requires HTTPMatching.Admitted(m)
    ensures AskHolds(HTTPAsk(m), req) <==> HTTPMatching.RestHolds(m, req)
  {
  }

  lemma GRPCAskHolds(m: GRPCMatch, req: Request)
    requires GRPCMatching.Admitted(m)
    ensures AskHolds(GRPCAsk(m), req) <==> GRPCMatching.PathWanted(m, req) && GRPCMatching.HeadersHold(m, req)
  {
    if m.method_.Some? && m.method_.value.service.Some? {
      var service := m.method_.value.service.value;
      assert "/" + service + "" == "/" + service;
      if m.method_.value.method_.Some? {
        assert "/" + service + ("/" + m.method_.value.method_.value) == "/" + service + "/" + m.method_.value.method_.value;
      }
    }
  }

  // ---------- what is offered ----------

  // A rule's backends and filters, for what one of its matches asks; with the hosts, namespace and port of its route and
  // listener. Redirects and rewrites are HTTPRoutes' alone.
  datatype Offer = Offer(
    ask: Ask, refs: seq<BackendRef>, filters: seq<RuleFilter>, http: bool, hosts: seq<string>, namespace: string, port: nat)

  // As often as the host is listed.
  function Times<T>(x: T, hosts: seq<string>, host: string): seq<T> {
    if hosts == [] then [] else (if hosts[0] == host then [x] else []) + Times(x, hosts[1..], host)
  }

  function Asks<M>(read: M -> Ask, rule: Rule<M>): seq<Ask> {
    if rule.matches == [] then [EVERYTHING] else Map(read, rule.matches)
  }

  // The hosts under which the route is found; one that shares all of the listener's goes by the listener's name.
  function Listed(l: Listener, hosts: seq<string>): seq<string> {
    if hosts == [] then [HostnameOf(l)] else hosts
  }

  function OfferOf<M>(http: bool, rule: Rule<M>, hosts: seq<string>, namespace: string, l: Listener): Ask -> Offer {
    a => Offer(a, rule.backendRefs, rule.filters, http, hosts, namespace, l.port)
  }

  function AskOffers<M>(http: bool, rule: Rule<M>, hosts: seq<string>, namespace: string, l: Listener, host: string): Ask -> seq<Offer> {
    a => Times(OfferOf(http, rule, hosts, namespace, l)(a), Listed(l, hosts), host)
  }

  function RuleOffers<M>(http: bool, read: M -> Ask, hosts: seq<string>, namespace: string, l: Listener, host: string): Rule<M> -> seq<Offer> {
    (rule: Rule<M>) => FlatMap(AskOffers(http, rule, hosts, namespace, l, host), Asks(read, rule))
  }

  // An attached route that shares hosts with the listener offers its rules, match by match.
  function ObjectOffers<M>(shape: Shape<M>, read: M -> Ask, l: Listener, host: string): RouteObject<M> -> seq<Offer> {
    (obj: RouteObject<M>) =>
      var hosts := MatchedHosts(obj.hostnames, l);
      if shape.attached(obj) && hosts.Some? then FlatMap(RuleOffers(shape.http, read, hosts.value, obj.namespace, l, host), obj.rules) else []
  }

  // On one side of a listener: first the HTTPRoutes, then the GRPCRoutes.
  function ListenerOffers(o: Objects, host: string, secure: bool): ListenerContext -> seq<Offer> {
    (x: ListenerContext) =>
      if CarriesHTTP(x) && o.tls(x.listener).Some? == secure then
        FlatMap(ObjectOffers(HTTPShape(x.listener, SourceOf(o, x)), HTTPAsk, x.listener, host), o.http)
        + FlatMap(ObjectOffers(GRPCShape(x.listener), GRPCAsk, x.listener, host), o.grpc)
      else []
  }

  function Offers(contexts: seq<ListenerContext>, o: Objects, host: string, secure: bool): seq<Offer> {
    FlatMap(ListenerOffers(o, host, secure), contexts)
  }

  // ---------- the routes are the offers ----------

  function PathOf(p: PathAsk): StringMatch {
    match p
    case AnyPath => NO_MATCH
    case Exactly(text) => StringMatch("", text, "")
    case Under(text) => StringMatch(text, "", "")
    case Expression(text) => StringMatch("", "", text)
  }

  function Filled(route: HTTPRoute, a: Ask): HTTPRoute {
    route.(pathMatch := PathOf(a.path), headersMatch := Map(HTTPMatching.KeyValue, a.headers), queryParamsMatch := Map(HTTPMatching.KeyValue, a.queries))
  }

  function BaseOf(x: Offer, cluster: Cluster): HTTPRoute {
    WithFilters(Bare(x.hosts, RuleBackends(x.refs, x.namespace, cluster)), x.filters, x.http, x.namespace, x.port)
  }

  function RouteFor(cluster: Cluster): Offer -> HTTPRoute {
    (x: Offer) => Filled(BaseOf(x, cluster), x.ask)
  }

  lemma {:induction false} OneEach<T, U>(f: T -> seq<U>, h: T -> U, s: seq<T>)
    requires forall x | x in s :: f(x) == [h(x)]
    ensures FlatMap(f, s) == Map(h, s)
  {
    if s != [] {
      var front, last := s[..|s| - 1], s[|s| - 1];
      assert s == front + [last] && last in s;
      OneEach(f, h, front);
      MapSnoc(h, front, last);
    }
  }

  lemma PairsFilled(pairs: seq<TypedPair>)
    requires HTTPMatching.PairsAdmitted(pairs)
    ensures FlatMap(ToKeyValue, pairs) == Map(HTTPMatching.KeyValue, pairs)
  {
    forall t | t in pairs ensures ToKeyValue(t) == [HTTPMatching.KeyValue(t)] {}
    OneEach(ToKeyValue, HTTPMatching.KeyValue, pairs);
  }

  // The shape fills in a match as its ask says.
  ghost predicate Reads<M(!new)>(shape: Shape<M>, read: M -> Ask, m: M) {
    forall route: HTTPRoute | route.queryParamsMatch == [] :: shape.fill(route)(m) == Filled(route, read(m))
  }

  lemma HTTPPathRead(m: HTTPMatch)
    requires HTTPMatching.Admitted(m)
    ensures (if m.path.Some? then ToStringMatch(m.path.value) else NO_MATCH) == PathOf(HTTPAsk(m).path)
  {
  }

  lemma HTTPReads(l: Listener, source: Resource, m: HTTPMatch)
    requires HTTPMatching.Admitted(m)
    ensures Reads(HTTPShape(l, source), HTTPAsk, m)
  {
    HTTPPathRead(m);
    PairsFilled(m.headers);
    PairsFilled(m.queryParams);
  }

  lemma GRPCPathRead(m: GRPCMatch)
    requires GRPCMatching.Admitted(m)
    ensures ToGRPCPath(m.method_) == PathOf(GRPCAsk(m).path)
  {
    if m.method_.Some? && m.method_.value.service.Some? {
      var service := m.method_.value.service.value;
      assert "/" + service + "" == "/" + service;
      if m.method_.value.method_.Some? {
        assert "/" + service + ("/" + m.method_.value.method_.value) == "/" + service + "/" + m.method_.value.method_.value;
      }
    }
  }

  lemma GRPCReads(l: Listener, m: GRPCMatch)
    requires GRPCMatching.Admitted(m)
    ensures Reads(GRPCShape(l), GRPCAsk, m)
  {
    PairsFilled(m.headers);
    GRPCPathRead(m);
  }

  ghost predicate RuleReads<M(!new)>(shape: Shape<M>, read: M -> Ask, rule: Rule<M>) {
    forall m | m in rule.matches :: Reads(shape, read, m)
  }

  function OfferedRoute<M>(shape: Shape<M>, rule: Rule<M>, hosts: seq<string>, namespace: string, l: Listener, cluster: Cluster): Ask -> HTTPRoute {
    a => RouteFor(cluster)(OfferOf(shape.http, rule, hosts, namespace, l)(a))
  }

  lemma OfferedIs<M>(
    shape: Shape<M>, rule: Rule<M>, hosts: seq<string>, namespace: string, l: Listener, cluster: Cluster, route: HTTPRoute)
    requires route == WithFilters(Bare(hosts, RuleBackends(rule.backendRefs, namespace, cluster)), rule.filters, shape.http, namespace, l.port)
    ensures forall a :: OfferedRoute(shape, rule, hosts, namespace, l, cluster)(a) == Filled(route, a)
    ensures Filled(route, EVERYTHING) == route && route.queryParamsMatch == [] && route.hostnames == hosts
  {
    assert Map(HTTPMatching.KeyValue, []) == [];
    assert route.pathMatch == NO_MATCH && route.headersMatch == [] && route.queryParamsMatch == [];
    forall a ensures OfferedRoute(shape, rule, hosts, namespace, l, cluster)(a) == Filled(route, a) {
      var x := OfferOf(shape.http, rule, hosts, namespace, l)(a);
      assert BaseOf(x, cluster) == route && RouteFor(cluster)(x) == Filled(route, a);
    }
  }

  lemma RuleFilled<M(!new)>(
    shape: Shape<M>, read: M -> Ask, rule: Rule<M>, hosts: seq<string>, namespace: string, l: Listener, cluster: Cluster)
    requires RuleReads(shape, read, rule)
    ensures RuleRoutes(shape, rule, hosts, namespace, l, cluster)
         == Map(OfferedRoute(shape, rule, hosts, namespace, l, cluster), Asks(read, rule))
  {
    var route := WithFilters(Bare(hosts, RuleBackends(rule.backendRefs, namespace, cluster)), rule.filters, shape.http, namespace, l.port);
    var f := OfferedRoute(shape, rule, hosts, namespace, l, cluster);
    OfferedIs(shape, rule, hosts, namespace, l, cluster, route);
    if rule.matches == [] {
      assert Map(f, [EVERYTHING]) == [f(EVERYTHING)];
    } else {
      forall m | m in rule.matches ensures shape.fill(route)(m) == f(read(m)) {
        assert Reads(shape, read, m);
      }
      assert forall i | 0 <= i < |rule.matches| :: shape.fill(route)(rule.matches[i]) == f(read(rule.matches[i]));
    }
  }

  // ---------- routes by host ----------

  function At(l: HTTPListener, host: string): HTTPRoute -> seq<HTTPRoute> {
    r => Times(r, HostsOf(l, r), host)
  }

  lemma OneEntry(e: Entry, host: string, secure: bool)
    ensures RoutesFor([e], host, secure) == if e.host == host && e.secure == secure then [e.route] else []
  {
    assert [e] == [] + [e] && RoutesFor([], host, secure) == [];
    RoutesForSnoc([], e, host, secure);
  }

  lemma {:induction false} EntriesAt(secure: bool, side: bool, r: HTTPRoute, hosts: seq<string>, host: string)
    ensures RoutesFor(Map(EntryAt(side, r), hosts), host, secure) == if side == secure then Times(r, hosts, host) else []
  {
    if hosts == [] {
      assert Map(EntryAt(side, r), hosts) == [] && RoutesFor([], host, secure) == [];
    } else {
      var first, rest := EntryAt(side, r)(hosts[0]), Map(EntryAt(side, r), hosts[1..]);
      EntriesAt(secure, side, r, hosts[1..], host);
      IngressServing.RoutesForConcat([first], rest, host, secure);
      OneEntry(first, host, secure);
      assert Map(EntryAt(side, r), hosts) == [first] + rest;
    }
  }

  lemma {:induction false} RoutesAt(l: HTTPListener, routes: seq<HTTPRoute>, host: string, secure: bool)
    ensures RoutesFor(FlatMap(RouteConfig.RouteEntries(l), routes), host, secure)
         == if l.tls.Some? == secure then FlatMap(At(l, host), routes) else []
  {
    if routes != [] {
      var front, last := routes[..|routes| - 1], routes[|routes| - 1];
      RoutesAt(l, front, host, secure);
      IngressServing.RoutesForConcat(FlatMap(RouteConfig.RouteEntries(l), front), RouteConfig.RouteEntries(l)(last), host, secure);
      EntriesAt(secure, l.tls.Some?, last, HostsOf(l, last), host);
    }
  }

  // Two levels at once: what is at the host of all that f gives, and what g makes of all that k gives.
  lemma {:induction false} Through<S, T, U, V>(f: S -> seq<T>, place: T -> seq<U>, k: S -> seq<V>, g: V -> U, s: seq<S>)
    requires forall x | x in s :: FlatMap(place, f(x)) == Map(g, k(x))
    ensures FlatMap(place, FlatMap(f, s)) == Map(g, FlatMap(k, s))
  {
    if s != [] {
      var front, last := s[..|s| - 1], s[|s| - 1];
      assert s == front + [last] && last in s;
      Through(f, place, k, g, front);
      FlatMapConcat(place, FlatMap(f, front), f(last));
      MapConcat(g, FlatMap(k, front), k(last));
    }
  }

  lemma {:induction false} ThroughMap<S, T, U, V>(f: S -> T, place: T -> seq<U>, k: S -> seq<V>, g: V -> U, s: seq<S>)
    requires forall x | x in s :: place(f(x)) == Map(g, k(x))
    ensures FlatMap(place, Map(f, s)) == Map(g, FlatMap(k, s))
  {
    if s != [] {
      var front, last := s[..|s| - 1], s[|s| - 1];
      assert s == front + [last] && last in s;
      ThroughMap(f, place, k, g, front);
      MapSnoc(f, front, last);
      assert Map(f, s)[..|front|] == Map(f, front);
      MapConcat(g, FlatMap(k, front), k(last));
    }
  }

  lemma {:induction false} MapTimes<T, U>(g: T -> U, x: T, hosts: seq<string>, host: string)
    ensures Map(g, Times(x, hosts, host)) == Times(g(x), hosts, host)
  {
    if hosts != [] {
      MapTimes(g, x, hosts[1..], host);
      if hosts[0] == host {
        MapConcat(g, [x], Times(x, hosts[1..], host));
        assert Map(g, [x]) == [g(x)];
      } else {
        assert Times(x, hosts, host) == Times(x, hosts[1..], host);
        assert Times(g(x), hosts, host) == Times(g(x), hosts[1..], host);
      }
    }
  }

  lemma RuleAt<M(!new)>(
    shape: Shape<M>, read: M -> Ask, rule: Rule<M>, hosts: seq<string>, namespace: string, l: Listener, cluster: Cluster, m: HTTPListener, host: string)
    requires RuleReads(shape, read, rule) && m.hostname == HostnameOf(l)
    ensures FlatMap(At(m, host), RuleRoutes(shape, rule, hosts, namespace, l, cluster))
         == Map(RouteFor(cluster), RuleOffers(shape.http, read, hosts, namespace, l, host)(rule))
  {
    var f, k := OfferedRoute(shape, rule, hosts, namespace, l, cluster), AskOffers(shape.http, rule, hosts, namespace, l, host);
    RuleFilled(shape, read, rule, hosts, namespace, l, cluster);
    OfferedIs(
      shape, rule, hosts, namespace, l, cluster,
      WithFilters(Bare(hosts, RuleBackends(rule.backendRefs, namespace, cluster)), rule.filters, shape.http, namespace, l.port));
    forall a | a in Asks(read, rule) ensures At(m, host)(f(a)) == Map(RouteFor(cluster), k(a)) {
      assert f(a).hostnames == hosts && f(a) == RouteFor(cluster)(OfferOf(shape.http, rule, hosts, namespace, l)(a));
      MapTimes(RouteFor(cluster), OfferOf(shape.http, rule, hosts, namespace, l)(a), Listed(l, hosts), host);
    }
    ThroughMap(f, At(m, host), k, RouteFor(cluster), Asks(read, rule));
  }

  ghost predicate ObjectReads<M(!new)>(shape: Shape<M>, read: M -> Ask, obj: RouteObject<M>) {
    forall rule | rule in obj.rules :: RuleReads(shape, read, rule)
  }

  lemma ObjectAt<M(!new)>(shape: Shape<M>, read: M -> Ask, obj: RouteObject<M>, l: Listener, cluster: Cluster, m: HTTPListener, host: string)
    requires ObjectReads(shape, read, obj) && m.hostname == HostnameOf(l)
    ensures FlatMap(At(m, host), ObjectRoutes(shape, l, cluster)(obj)) == Map(RouteFor(cluster), ObjectOffers(shape, read, l, host)(obj))
  {
    var hosts := MatchedHosts(obj.hostnames, l);
    if shape.attached(obj) && hosts.Some? {
      var f, k := RulesOf(shape, hosts.value, obj.namespace, l, cluster), RuleOffers(shape.http, read, hosts.value, obj.namespace, l, host);
      forall rule | rule in obj.rules ensures FlatMap(At(m, host), f(rule)) == Map(RouteFor(cluster), k(rule)) {
        RuleAt(shape, read, rule, hosts.value, obj.namespace, l, cluster, m, host);
      }
      Through(f, At(m, host), k, RouteFor(cluster), obj.rules);
    }
  }

  lemma InputAt<M(!new)>(
    shape: Shape<M>, read: M -> Ask, input: seq<RouteObject<M>>, l: Listener, cluster: Cluster, m: HTTPListener, host: string)
    requires (forall obj | obj in input :: ObjectReads(shape, read, obj)) && m.hostname == HostnameOf(l)
    ensures FlatMap(At(m, host), Routes(shape, l, input, cluster)) == Map(RouteFor(cluster), FlatMap(ObjectOffers(shape, read, l, host), input))
  {
    forall obj | obj in input
      ensures FlatMap(At(m, host), ObjectRoutes(shape, l, cluster)(obj)) == Map(RouteFor(cluster), ObjectOffers(shape, read, l, host)(obj))
    {
      ObjectAt(shape, read, obj, l, cluster, m, host);
    }
    Through(ObjectRoutes(shape, l, cluster), At(m, host), ObjectOffers(shape, read, l, host), RouteFor(cluster), input);
  }

  // ---------- the routes of a host ----------

  // Every match is one that the API server admits.
  ghost predicate AllAdmitted(o: Objects) {
    && (forall obj, rule, m | obj in o.http && rule in obj.rules && m in rule.matches :: HTTPMatching.Admitted(m))
    && (forall obj, rule, m | obj in o.grpc && rule in obj.rules && m in rule.matches :: GRPCMatching.Admitted(m))
  }

  lemma AllRead(o: Objects, l: Listener, source: Resource)
    requires AllAdmitted(o)
    ensures forall obj | obj in o.http :: ObjectReads(HTTPShape(l, source), HTTPAsk, obj)
    ensures forall obj | obj in o.grpc :: ObjectReads(GRPCShape(l), GRPCAsk, obj)
  {
    forall obj, rule, m | obj in o.http && rule in obj.rules && m in rule.matches ensures Reads(HTTPShape(l, source), HTTPAsk, m) {
      HTTPReads(l, source, m);
    }
    forall obj, rule, m | obj in o.grpc && rule in obj.rules && m in rule.matches ensures Reads(GRPCShape(l), GRPCAsk, m) {
      GRPCReads(l, m);
    }
  }

  lemma ListenerOffered(o: Objects, x: ListenerContext, host: string, secure: bool)
    requires AllAdmitted(o) && CarriesHTTP(x)
    ensures RoutesFor(ListenerEntries(Ingested(o)(x)), host, secure) == Map(RouteFor(o.cluster), ListenerOffers(o, host, secure)(x))
  {
    var l, source, m := x.listener, SourceOf(o, x), Ingested(o)(x);
    var a, b := Routes(HTTPShape(l, source), l, o.http, o.cluster), Routes(GRPCShape(l), l, o.grpc, o.cluster);
    RoutesAt(m, m.routes, host, secure);
    if m.tls.Some? == secure {
      AllRead(o, l, source);
      FlatMapConcat(At(m, host), a, b);
      InputAt(HTTPShape(l, source), HTTPAsk, o.http, l, o.cluster, m, host);
      InputAt(GRPCShape(l), GRPCAsk, o.grpc, l, o.cluster, m, host);
      MapConcat(
        RouteFor(o.cluster), FlatMap(ObjectOffers(HTTPShape(l, source), HTTPAsk, l, host), o.http),
        FlatMap(ObjectOffers(GRPCShape(l), GRPCAsk, l, host), o.grpc));
    }
  }

  // The routes of a host on a side are those of its offers, in order.
  lemma {:induction false} RoutesOffered(contexts: seq<ListenerContext>, o: Objects, host: string, secure: bool)
    requires AllAdmitted(o)
    ensures RoutesFor(Entries(Models(o, contexts)), host, secure) == Map(RouteFor(o.cluster), Offers(contexts, o, host, secure))
  {
    if contexts != [] {
      var front, x := contexts[..|contexts| - 1], contexts[|contexts| - 1];
      assert contexts == front + [x];
      RoutesOffered(front, o, host, secure);
      Merging.FilterSnoc(front, x, CarriesHTTP);
      var before := Models(o, front);
      assert Offers(contexts, o, host, secure) == Offers(front, o, host, secure) + ListenerOffers(o, host, secure)(x);
      if CarriesHTTP(x) {
        MapSnoc(Ingested(o), Filter(front, CarriesHTTP), x);
        FlatMapLast(ListenerEntries, before, Ingested(o)(x));
        IngressServing.RoutesForConcat(Entries(before), ListenerEntries(Ingested(o)(x)), host, secure);
        ListenerOffered(o, x, host, secure);
      } else {
        assert Models(o, contexts) == before && ListenerOffers(o, host, secure)(x) == [];
      }
      MapConcat(RouteFor(o.cluster), Offers(front, o, host, secure), ListenerOffers(o, host, secure)(x));
    }
  }
}
