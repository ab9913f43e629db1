/** From the routes attached to a Gateway's listeners to the answers of the configuration. */
module GatewayServing {
  import opened Model
  import opened Sorting
  import opened GatewayObjects
  import opened Hostnames
  import ComputeHosts
  import TLSIngestion
  import opened HTTPIngestion
  import opened RouteConfig
  import HostSearch
  import MatchKey
  import Merging
  import Redirects
  import Routing
  import RouteMatch
  import VirtualHost

  // ---------- which routes a host has ----------

  // A route object serves the host on the listener by one of its rules: it is attached, and the hosts it shares with the
  // listener include this one; sharing them all means the listener's own.
  ghost predicate ServesBy<M(!new)>(shape: Shape<M>, l: Listener, cluster: TLSIngestion.Cluster, host: string, obj: RouteObject<M>, r: HTTPRoute) {
    var hosts := TLSIngestion.MatchedHosts(obj.hostnames, l);
    && shape.attached(obj) && hosts.Some?
    && (if hosts.value == [] then host == HostnameOf(l) else host in hosts.value)
    && exists rule :: rule in obj.rules && r in RuleRoutes(shape, rule, hosts.value, obj.namespace, l, cluster)
  }

  ghost predicate KeepsHosts<M(!new)>(fill: HTTPRoute -> M -> HTTPRoute) {
    forall route, m :: fill(route)(m).hostnames == route.hostnames
  }

  lemma RuleHosts<M(!new)>(shape: Shape<M>, rule: Rule<M>, hosts: seq<string>, namespace: string, l: Listener, cluster: TLSIngestion.Cluster, r: HTTPRoute)
    requires KeepsHosts(shape.fill) && r in RuleRoutes(shape, rule, hosts, namespace, l, cluster)
    ensures r.hostnames == hosts
  {
  }

  // The hosts of a route on a listener.
  function HostsOn(l: Listener, r: HTTPRoute): seq<string> {
    if r.hostnames == [] then [HostnameOf(l)] else r.hostnames
  }

  lemma ServedByIff<M(!new)>(shape: Shape<M>, l: Listener, input: seq<RouteObject<M>>, cluster: TLSIngestion.Cluster, host: string, r: HTTPRoute)
    requires KeepsHosts(shape.fill)
    ensures r in Routes(shape, l, input, cluster) && host in HostsOn(l, r)
       <==> exists obj :: obj in input && ServesBy(shape, l, cluster, host, obj, r)
  {
    FlatMapMember(ObjectRoutes(shape, l, cluster), input, r);
    forall obj | obj in input
      ensures r in ObjectRoutes(shape, l, cluster)(obj) && host in HostsOn(l, r) <==> ServesBy(shape, l, cluster, host, obj, r)
    {
      ObjectServes(shape, l, cluster, host, obj, r);
    }
  }

  lemma ObjectServes<M(!new)>(shape: Shape<M>, l: Listener, cluster: TLSIngestion.Cluster, host: string, obj: RouteObject<M>, r: HTTPRoute)
    requires KeepsHosts(shape.fill)
    ensures r in ObjectRoutes(shape, l, cluster)(obj) && host in HostsOn(l, r) <==> ServesBy(shape, l, cluster, host, obj, r)
  {
    var hosts := TLSIngestion.MatchedHosts(obj.hostnames, l);
    if shape.attached(obj) && hosts.Some? {
      var rules := RulesOf(shape, hosts.value, obj.namespace, l, cluster);
      FlatMapMember(rules, obj.rules, r);
      forall rule | rule in obj.rules && r in rules(rule) ensures r.hostnames == hosts.value {
        RuleHosts(shape, rule, hosts.value, obj.namespace, l, cluster, r);
      }
    }
  }

  // An attached object without hostnames and with a rule is served on the listener's own host.
  lemma HostlessServed<M(!new)>(shape: Shape<M>, l: Listener, cluster: TLSIngestion.Cluster, obj: RouteObject<M>, rule: Rule<M>)
    requires shape.attached(obj) && obj.hostnames == [] && rule in obj.rules
    ensures exists r :: ServesBy(shape, l, cluster, HostnameOf(l), obj, r)
  {
    var hosts := TLSIngestion.MatchedHosts([], l);
    assert hosts.Some? && (hosts.value == [] || hosts.value == [HostnameOf(l)]);
    var routes := RuleRoutes(shape, rule, hosts.value, obj.namespace, l, cluster);
    assert routes != [] && routes[0] in routes;
    assert ServesBy(shape, l, cluster, HostnameOf(l), obj, routes[0]);
  }

  // The hosts in terms of the concrete ones that their patterns stand for.
  ghost predicate Patterned<M>(l: Listener, obj: RouteObject<M>) {
    Pattern(TLSIngestion.ListenerName(l)) && forall p | p in obj.hostnames :: ComputeHosts.RoutePattern(p)
  }

  // The listener and the route object are both for the host.
  ghost predicate Shared<M>(l: Listener, obj: RouteObject<M>, h: string)
    requires Patterned(l, obj)
  {
    Matches(TLSIngestion.ListenerName(l), h) && ComputeHosts.RouteMatches(obj.hostnames, h)
  }

  lemma HostsOfMatched<M>(l: Listener, obj: RouteObject<M>, host: string)
    requires Patterned(l, obj)
    ensures var hosts := TLSIngestion.MatchedHosts(obj.hostnames, l);
      var all := ComputeHosts.HostsFor(obj.hostnames, TLSIngestion.ListenerName(l));
      && (hosts.Some? <==> all != [])
      && (hosts.Some? && hosts.value == [] ==> all == ["*"])
      && (hosts.Some? && hosts.value != [] ==> hosts.value == all)
  {
  }

  // A route object is served only on hosts that it shares with the listener.
  lemma ServedIsShared<M(!new)>(
    shape: Shape<M>, l: Listener, cluster: TLSIngestion.Cluster, obj: RouteObject<M>, host: string, r: HTTPRoute, h: string)
    requires ServesBy(shape, l, cluster, host, obj, r) && Patterned(l, obj)
    requires Concrete(h) && Pattern(host) && Matches(host, h)
    ensures Shared(l, obj, h)
  {
    var all := ComputeHosts.HostsFor(obj.hostnames, TLSIngestion.ListenerName(l));
    HostsOfMatched(l, obj, host);
    if all == ["*"] {
      assert "*" in all && Pattern("*") && Matches("*", h);
    }
    assert ComputeHosts.InSome(all, h);
    ComputeHosts.NothingAdded(obj.hostnames, TLSIngestion.ListenerName(l), h);
  }

  // And on all of them, unless one of its hostnames is a wildcard wider than the listener's.
  lemma SharedIsServed<M(!new)>(shape: Shape<M>, l: Listener, cluster: TLSIngestion.Cluster, obj: RouteObject<M>, rule: Rule<M>, h: string)
    requires shape.attached(obj) && rule in obj.rules && Patterned(l, obj) && Concrete(h) && Shared(l, obj, h)
    requires (forall p | p in obj.hostnames :: !ComputeHosts.Lost(TLSIngestion.ListenerName(l), p)) || TLSIngestion.ListenerName(l) in obj.hostnames
    ensures exists host, r :: ServesBy(shape, l, cluster, host, obj, r) && Pattern(host) && Matches(host, h)
  {
    var all := ComputeHosts.HostsFor(obj.hostnames, TLSIngestion.ListenerName(l));
    ComputeHosts.CompleteIff(obj.hostnames, TLSIngestion.ListenerName(l));
    assert ComputeHosts.InSome(all, h);
    var k :| k in all && Pattern(k) && Matches(k, h);
    HostsOfMatched(l, obj, k);
    var hosts := TLSIngestion.MatchedHosts(obj.hostnames, l);
    var routes := RuleRoutes(shape, rule, hosts.value, obj.namespace, l, cluster);
    assert routes != [] && routes[0] in routes;
    var host := if hosts.value == [] then HostnameOf(l) else k;
    assert ServesBy(shape, l, cluster, host, obj, routes[0]);
  }

  lemma EntryOfListener(l: HTTPListener, host: string, secure: bool, r: HTTPRoute)
    ensures Entry(secure, host, r) in ListenerEntries(l)
       <==> l.tls.Some? == secure && r in l.routes && host in HostsOf(l, r)
  {
    var e := Entry(secure, host, r);
    FlatMapMember(RouteEntries(l), l.routes, e);
    forall x ensures e in RouteEntries(l)(x) <==> x == r && l.tls.Some? == secure && host in HostsOf(l, r) {
      MapMembers(EntryAt(l.tls.Some?, x), HostsOf(l, x));
    }
  }

  // The listener has the route for the host on this side by one of the attached HTTPRoutes or GRPCRoutes.
  ghost predicate ServesOn(x: ListenerContext, o: Objects, host: string, secure: bool, r: HTTPRoute) {
    var l := x.listener;
    && CarriesHTTP(x) && o.tls(l).Some? == secure
    && (|| (exists obj :: obj in o.http && ServesBy(HTTPShape(l, SourceOf(o, x)), l, o.cluster, host, obj, r))
        || (exists obj :: obj in o.grpc && ServesBy(GRPCShape(l), l, o.cluster, host, obj, r)))
  }

  lemma ListenerServes(x: ListenerContext, o: Objects, host: string, secure: bool, r: HTTPRoute)
    ensures CarriesHTTP(x) && Entry(secure, host, r) in ListenerEntries(Ingested(o)(x)) <==> ServesOn(x, o, host, secure, r)
  {
    var l := x.listener;
    EntryOfListener(Ingested(o)(x), host, secure, r);
    ServedByIff(HTTPShape(l, SourceOf(o, x)), l, o.http, o.cluster, host, r);
    ServedByIff(GRPCShape(l), l, o.grpc, o.cluster, host, r);
  }

  // The routes of a host on a side are exactly those that the attached routes give it on the listeners of that side.
  lemma GatewayRoutes(contexts: seq<ListenerContext>, o: Objects, host: string, secure: bool, r: HTTPRoute)
    ensures r in RoutesFor(Entries(Models(o, contexts)), host, secure)
       <==> exists x :: x in contexts && ServesOn(x, o, host, secure, r)
  {
    var models, carrying := Models(o, contexts), Filter(contexts, CarriesHTTP);
    RoutesForIff(Entries(models), host, secure, r);
    FlatMapMember(ListenerEntries, models, Entry(secure, host, r));
    MapMembers(Ingested(o), carrying);
    FilterMember(contexts, CarriesHTTP);
    forall x | x in contexts
      ensures CarriesHTTP(x) && Entry(secure, host, r) in ListenerEntries(Ingested(o)(x)) <==> ServesOn(x, o, host, secure, r)
    {
      ListenerServes(x, o, host, secure, r);
    }
  }

  lemma RoutesForIff(entries: seq<Entry>, host: string, secure: bool, r: HTTPRoute)
    ensures r in RoutesFor(entries, host, secure) <==> Entry(secure, host, r) in entries
  {
    Merging.WithKeyMember(entries, PlaceOf, (host, secure));
    MapMembers(RouteOf, Merging.WithKey(entries, PlaceOf, (host, secure)));
    if Entry(secure, host, r) in entries {
      assert RouteOf(Entry(secure, host, r)) == r;
    }
  }

  // ---------- what the configuration answers ----------

  ghost predicate Served(contexts: seq<ListenerContext>, o: Objects, host: string, secure: bool) {
    exists x, r :: x in contexts && ServesOn(x, o, host, secure, r)
  }

  lemma ServedHost(contexts: seq<ListenerContext>, o: Objects, host: string, secure: bool)
    ensures host in HostsFor(Entries(Models(o, contexts)), secure) <==> Served(contexts, o, host, secure)
  {
    var entries := Entries(Models(o, contexts));
    Redirects.HostHasRoutes(entries, host, secure);
    var routes := RoutesFor(entries, host, secure);
    if routes != [] {
      GatewayRoutes(contexts, o, host, secure, routes[0]);
    }
    forall x, r | x in contexts && ServesOn(x, o, host, secure, r) ensures routes != [] {
      GatewayRoutes(contexts, o, host, secure, r);
    }
  }

  // The hosts of a side: those that it serves and, where HTTPS is enforced, those that are served securely.
  lemma GatewayHosts(contexts: seq<ListenerContext>, o: Objects, secure: bool, enforceHTTPS: bool, host: string)
    ensures HostSearch.On(Models(o, contexts), secure, enforceHTTPS, host)
       <==> (exists h :: Served(contexts, o, h, secure))
            && (Served(contexts, o, host, secure) || (!secure && enforceHTTPS && Served(contexts, o, host, true)))
  {
    var hosts := HostsFor(Entries(Models(o, contexts)), secure);
    ServedHost(contexts, o, host, secure);
    ServedHost(contexts, o, host, true);
    if hosts != [] {
      ServedHost(contexts, o, hosts[0], secure);
    }
    forall h | Served(contexts, o, h, secure) ensures hosts != [] {
      ServedHost(contexts, o, h, secure);
    }
  }

  // The routes that decide what a host of the side answers.
  ghost function Deciding(http: seq<HTTPListener>, secure: bool, enforceHTTPS: bool, host: string): seq<HTTPRoute> {
    RoutesFor(Entries(http), host, secure || HostSearch.RedirectedOn(http, secure, enforceHTTPS, host))
  }

  lemma GatewayFit(contexts: seq<ListenerContext>, o: Objects, models: seq<HTTPListener>, secure: bool, enforceHTTPS: bool, host: string)
    requires models == Models(o, contexts) && MatchKey.KeysExact(Deciding(models, secure, enforceHTTPS, host))
    ensures HostSearch.Fit(models, secure, enforceHTTPS, host)
  {
    AllIngestedReady(contexts, o);
    var side := secure || HostSearch.RedirectedOn(models, secure, enforceHTTPS, host);
    forall r | r in RoutesFor(Entries(models), host, side) ensures MatchKey.OneKind(r) && VirtualHost.Answerable(r) {
      Routing.RouteOfListener(models, host, side, r);
      assert Ready(r, o.cluster);
    }
  }

  // Every request gets what is due at the most specific host of the Gateway that stands for its authority, where different
  // matches of that host's routes have different keys.
  lemma GatewayAnswers(
    contexts: seq<ListenerContext>, o: Objects, models: seq<HTTPListener>, secure: bool, enforceHTTPS: bool, suffix: bool, req: RouteMatch.Request)
    requires models == Models(o, contexts)
    requires RouteMatch.WellFormed(req) && Routing.Literal(req.authority)
    requires forall h | HostSearch.On(models, secure, enforceHTTPS, h) && HostSearch.Reaches(h, req.authority) ::
      MatchKey.KeysExact(Deciding(models, secure, enforceHTTPS, h))
    ensures HostSearch.Answered(models, secure, enforceHTTPS, suffix,
              HostSearch.Search(HostSearch.HostsIn(Configuration(models, secure, enforceHTTPS, suffix)), req.authority), req)
  {
    forall h | HostSearch.On(models, secure, enforceHTTPS, h) && HostSearch.Reaches(h, req.authority)
      ensures HostSearch.Fit(models, secure, enforceHTTPS, h)
    {
      GatewayFit(contexts, o, models, secure, enforceHTTPS, h);
    }
    HostSearch.RequestAnswered(models, secure, enforceHTTPS, suffix, req);
  }
}
