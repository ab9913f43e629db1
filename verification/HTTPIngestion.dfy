/** Ingesting HTTPRoutes and GRPCRoutes for a listener, and what the translator may then rely on. */
module HTTPIngestion {
  import opened Wrappers
  import opened Model
  import opened Sorting
  import opened GatewayObjects
  import opened VirtualHost
  import opened TLSIngestion
  import ComputeHosts
  import RouteConfig
  import MatchKey
  import Merging
  import Strings

  // ---------- the objects; types of matches are given, as the API server defaults them ----------

  datatype Typed = Typed(kind: string, value: string)
  datatype TypedPair = TypedPair(kind: string, name: string, value: string)

  datatype HTTPMatch = HTTPMatch(path: Option<Typed>, headers: seq<TypedPair>, queryParams: seq<TypedPair>, method_: Option<string>)

  datatype GRPCMethod = GRPCMethod(kind: string, service: Option<string>, method_: Option<string>)
  datatype GRPCMatch = GRPCMatch(method_: Option<GRPCMethod>, headers: seq<TypedPair>)

  datatype PathModifier = FullPath(value: string) | PrefixMatch(value: string)

  datatype RedirectSpec = RedirectSpec(
    scheme: Option<string>, hostname: Option<string>, path: Option<PathModifier>, port: Option<int>, statusCode: Option<int>)

  datatype RewriteSpec = RewriteSpec(hostname: Option<string>, path: Option<PathModifier>)

  datatype RuleFilter = RedirectTo(redirect: RedirectSpec) | RewriteTo(rewrite: RewriteSpec) | MirrorTo(ref: BackendRef) | HeaderModifier

  datatype Rule<M> = Rule(matches: seq<M>, backendRefs: seq<BackendRef>, filters: seq<RuleFilter>)

  datatype RouteObject<M> = RouteObject(
    namespace: string, parentRefs: seq<ParentReference>, hostnames: seq<string>, rules: seq<Rule<M>>)

  // ---------- matches ----------

  function ToStringMatch(t: Typed): StringMatch {
    match t.kind
    case "Exact" => StringMatch("", t.value, "")
    case "PathPrefix" => StringMatch(t.value, "", "")
    case "RegularExpression" => StringMatch("", "", t.value)
    case _ => NO_MATCH
  }

  function ToKeyValue(t: TypedPair): seq<KeyValueMatch> {
    match t.kind
    case "Exact" => [KeyValueMatch(t.name, StringMatch("", t.value, ""))]
    case "RegularExpression" => [KeyValueMatch(t.name, StringMatch("", "", t.value))]
    case _ => []
  }

  function ToGRPCPath(m: Option<GRPCMethod>): StringMatch {
    if m.None? || m.value.service.None? then NO_MATCH
    else
      var path := "/" + m.value.service.value + if m.value.method_.Some? then "/" + m.value.method_.value else "";
      match m.value.kind
      case "Exact" => StringMatch("", path, "")
      case "RegularExpression" => StringMatch("", "", path)
      case _ => NO_MATCH
  }

  // A match of an HTTPRoute; its method is left behind.
  function WithHTTPMatch(route: HTTPRoute): HTTPMatch -> HTTPRoute {
    (m: HTTPMatch) => route.(
      pathMatch := if m.path.Some? then ToStringMatch(m.path.value) else NO_MATCH,
      headersMatch := FlatMap(ToKeyValue, m.headers),
      queryParamsMatch := FlatMap(ToKeyValue, m.queryParams))
  }

  function WithGRPCMatch(route: HTTPRoute): GRPCMatch -> HTTPRoute {
    (m: GRPCMatch) => route.(pathMatch := ToGRPCPath(m.method_), headersMatch := FlatMap(ToKeyValue, m.headers))
  }

  // ---------- filters ----------

  function ToRedirect(r: RedirectSpec, listenerPort: nat): RedirectFilter {
    RedirectFilter(r.scheme, r.hostname,
      if r.path.None? then None
      else if r.path.value.FullPath? then Some(StringMatch("", r.path.value.value, ""))
      else Some(StringMatch(r.path.value.value, "", "")),
      if r.port.Some? then r.port else if r.scheme.None? then Some(listenerPort) else None,
      r.statusCode)
  }

  function ToRewrite(r: RewriteSpec): RewriteFilter {
    RewriteFilter(r.hostname,
      if r.path.None? then None
      else if r.path.value.FullPath? then Some(StringMatch("", r.path.value.value, ""))
      else Some(StringMatch(Strings.TrimSuffix(r.path.value.value, "/"), "", "")))
  }

  function ToMirror(ref: BackendRef, namespace: string): RequestMirror {
    RequestMirror(Some(ModelBackend(ref, namespace).(weight := None)))
  }

  // The switch over filter types; GRPCRoutes have no redirect and no rewrite.
  function WithFilter(route: HTTPRoute, f: RuleFilter, http: bool, namespace: string, listenerPort: nat): HTTPRoute {
    match f
    case RedirectTo(r) => if http then route.(requestRedirect := Some(ToRedirect(r, listenerPort))) else route
    case RewriteTo(r) => if http then route.(rewrite := Some(ToRewrite(r))) else route
    case MirrorTo(ref) => route.(requestMirrors := route.requestMirrors + [ToMirror(ref, namespace)])
    case HeaderModifier => route
  }

  predicate IsRedirect(f: RuleFilter) { f.RedirectTo? }
  predicate IsRewrite(f: RuleFilter) { f.RewriteTo? }
  predicate IsMirror(f: RuleFilter) { f.MirrorTo? }

  function LastRedirect(filters: seq<RuleFilter>, listenerPort: nat): Option<RedirectFilter> {
    var some := Filter(filters, IsRedirect);
    if some == [] || !some[|some| - 1].RedirectTo? then None else Some(ToRedirect(some[|some| - 1].redirect, listenerPort))
  }

  function LastRewrite(filters: seq<RuleFilter>): Option<RewriteFilter> {
    var some := Filter(filters, IsRewrite);
    if some == [] || !some[|some| - 1].RewriteTo? then None else Some(ToRewrite(some[|some| - 1].rewrite))
  }

  function MirrorsOf(filters: seq<RuleFilter>, namespace: string): seq<RequestMirror> {
    Map(MirrorAt(namespace), Filter(filters, IsMirror))
  }

  function MirrorAt(namespace: string): RuleFilter -> RequestMirror {
    (f: RuleFilter) => if f.MirrorTo? then ToMirror(f.ref, namespace) else RequestMirror(None)
  }

  function Override<T>(new_: Option<T>, old_: Option<T>): Option<T> {
    if new_.Some? then new_ else old_
  }

  // All filters of a rule: the last redirect and the last rewrite count, and every mirror, in order.
  function WithFilters(route: HTTPRoute, filters: seq<RuleFilter>, http: bool, namespace: string, listenerPort: nat): HTTPRoute {
    route.(
      requestRedirect := if http then Override(LastRedirect(filters, listenerPort), route.requestRedirect) else route.requestRedirect,
      rewrite := if http then Override(LastRewrite(filters), route.rewrite) else route.rewrite,
      requestMirrors := route.requestMirrors + MirrorsOf(filters, namespace))
  }

  lemma FiltersSnoc(route: HTTPRoute, filters: seq<RuleFilter>, f: RuleFilter, http: bool, namespace: string, listenerPort: nat)
    ensures WithFilters(route, filters + [f], http, namespace, listenerPort)
         == WithFilter(WithFilters(route, filters, http, namespace, listenerPort), f, http, namespace, listenerPort)
  {
    Merging.FilterSnoc(filters, f, IsRedirect);
    Merging.FilterSnoc(filters, f, IsRewrite);
    Merging.FilterSnoc(filters, f, IsMirror);
    if f.MirrorTo? {
      MapSnoc(MirrorAt(namespace), Filter(filters, IsMirror), f);
    }
  }

  // ---------- routes ----------

  // The rule's route before its matches are filled in.
  function Bare(hosts: seq<string>, backends: seq<Backend>): HTTPRoute {
    HTTPRoute(hosts, NO_MATCH, [], [], None, backends, if backends == [] then Some(DirectResponse(500, "")) else None,
              None, None, [], Timeout(None, None))
  }

  datatype Shape<!M> = Shape(http: bool, attached: RouteObject<M> -> bool, fill: HTTPRoute -> M -> HTTPRoute)

  function RuleRoutes<M>(shape: Shape<M>, rule: Rule<M>, hosts: seq<string>, namespace: string, l: Listener, cluster: Cluster): seq<HTTPRoute> {
    var route := WithFilters(Bare(hosts, RuleBackends(rule.backendRefs, namespace, cluster)), rule.filters, shape.http, namespace, l.port);
    if rule.matches == [] then [route] else Map(shape.fill(route), rule.matches)
  }

  function RulesOf<M>(shape: Shape<M>, hosts: seq<string>, namespace: string, l: Listener, cluster: Cluster): Rule<M> -> seq<HTTPRoute> {
    (rule: Rule<M>) => RuleRoutes(shape, rule, hosts, namespace, l, cluster)
  }

  function ObjectRoutes<M>(shape: Shape<M>, l: Listener, cluster: Cluster): RouteObject<M> -> seq<HTTPRoute> {
    (r: RouteObject<M>) =>
      var hosts := MatchedHosts(r.hostnames, l);
      if shape.attached(r) && hosts.Some? then FlatMap(RulesOf(shape, hosts.value, r.namespace, l, cluster), r.rules) else []
  }

  function Routes<M>(shape: Shape<M>, l: Listener, input: seq<RouteObject<M>>, cluster: Cluster): seq<HTTPRoute> {
    FlatMap(ObjectRoutes(shape, l, cluster), input)
  }

  // A ListenerSet's listener is referenced by name and namespace, a Gateway's by the section only.
  predicate HTTPAttached(r: RouteObject<HTTPMatch>, l: Listener, source: Resource) {
    exists ref :: ref in r.parentRefs && RefersTo(ref, r.namespace, l, source)
  }

  predicate RefersTo(ref: ParentReference, namespace: string, l: Listener, source: Resource) {
    && (ref.sectionName.None? || ref.sectionName.value == l.name)
    && if source.kind == "Gateway" then IsGateway(ref) || (ref.kind.None? && ref.group.None?)
       else IsListenerSet(ref) && NamespaceOr(ref.namespace, namespace) == source.namespace && ref.name == source.name
  }

  function HTTPShape(l: Listener, source: Resource): Shape<HTTPMatch> {
    Shape(true, r => HTTPAttached(r, l, source), WithHTTPMatch)
  }

  function GRPCShape(l: Listener): Shape<GRPCMatch> {
    Shape(false, (r: RouteObject<GRPCMatch>) => Attached(r.parentRefs, l), WithGRPCMatch)
  }

  // ---------- what the translator relies on ----------

  // Answered with an error exactly if it has no backend; backends have ports and exist; matches are of one kind.
  ghost predicate Ready(r: HTTPRoute, cluster: Cluster) {
    && (r.directResponse.Some? <==> r.backends == [])
    && (r.directResponse.Some? ==> r.directResponse.value == DirectResponse(500, ""))
    && (forall b | b in r.backends :: b.port.Some? && NamespacedName(b.namespace, b.name) in cluster.services)
    && MatchKey.OneKind(r)
    && r.verb.None?
  }

  lemma BackendsReady(refs: seq<BackendRef>, namespace: string, cluster: Cluster)
    ensures forall b | b in RuleBackends(refs, namespace, cluster) :: b.port.Some? && NamespacedName(b.namespace, b.name) in cluster.services
  {
    forall b | b in RuleBackends(refs, namespace, cluster) ensures b.port.Some? && NamespacedName(b.namespace, b.name) in cluster.services {
      FlatMapMember(UsedBackends(namespace, cluster), refs, b);
      var ref :| ref in refs && b in UsedBackends(namespace, cluster)(ref);
      assert Usable(ref, namespace, cluster) && b == ModelBackend(ref, namespace);
    }
  }

  lemma PairsSingleKind(pairs: seq<TypedPair>)
    ensures forall kv | kv in FlatMap(ToKeyValue, pairs) :: MatchKey.SingleKind(kv.value)
  {
    forall kv | kv in FlatMap(ToKeyValue, pairs) ensures MatchKey.SingleKind(kv.value) {
      FlatMapMember(ToKeyValue, pairs, kv);
    }
  }

  // Filling in a match keeps a route ready.
  ghost predicate FillsReady<M(!new)>(fill: HTTPRoute -> M -> HTTPRoute, cluster: Cluster) {
    forall route, m | Ready(route, cluster) :: Ready(fill(route)(m), cluster)
  }

  lemma HTTPFillsReady(cluster: Cluster)
    ensures FillsReady(WithHTTPMatch, cluster)
  {
    forall route, m: HTTPMatch | Ready(route, cluster) ensures Ready(WithHTTPMatch(route)(m), cluster) {
      PairsSingleKind(m.headers);
      PairsSingleKind(m.queryParams);
    }
  }

  lemma GRPCFillsReady(cluster: Cluster)
    ensures FillsReady(WithGRPCMatch, cluster)
  {
    forall route, m: GRPCMatch | Ready(route, cluster) ensures Ready(WithGRPCMatch(route)(m), cluster) {
      PairsSingleKind(m.headers);
    }
  }

  lemma RuleReady<M(!new)>(shape: Shape<M>, rule: Rule<M>, hosts: seq<string>, namespace: string, l: Listener, cluster: Cluster)
    requires FillsReady(shape.fill, cluster)
    ensures forall r | r in RuleRoutes(shape, rule, hosts, namespace, l, cluster) :: Ready(r, cluster)
  {
    var backends := RuleBackends(rule.backendRefs, namespace, cluster);
    BackendsReady(rule.backendRefs, namespace, cluster);
    assert Ready(WithFilters(Bare(hosts, backends), rule.filters, shape.http, namespace, l.port), cluster);
  }

  // Every ingested route is ready for the translator.
  lemma RoutesReady<M(!new)>(shape: Shape<M>, l: Listener, input: seq<RouteObject<M>>, cluster: Cluster)
    requires FillsReady(shape.fill, cluster)
    ensures forall r | r in Routes(shape, l, input, cluster) :: Ready(r, cluster)
  {
    forall r | r in Routes(shape, l, input, cluster) ensures Ready(r, cluster) {
      FlatMapMember(ObjectRoutes(shape, l, cluster), input, r);
      var o :| o in input && r in ObjectRoutes(shape, l, cluster)(o);
      var hosts := MatchedHosts(o.hostnames, l).value;
      var rules := RulesOf(shape, hosts, o.namespace, l, cluster);
      FlatMapMember(rules, o.rules, r);
      var rule :| rule in o.rules && r in rules(rule);
      RuleReady(shape, rule, hosts, o.namespace, l, cluster);
    }
  }

  function Methodless(m: HTTPMatch): HTTPMatch {
    m.(method_ := None)
  }

  function MethodlessRule(rule: Rule<HTTPMatch>): Rule<HTTPMatch> {
    rule.(matches := Map(Methodless, rule.matches))
  }

  function MethodlessObject(r: RouteObject<HTTPMatch>): RouteObject<HTTPMatch> {
    r.(rules := Map(MethodlessRule, r.rules))
  }

  lemma MapThrough<T, U>(f: T -> U, g: T -> T, s: seq<T>)
    requires forall x | x in s :: f(g(x)) == f(x)
    ensures Map(f, Map(g, s)) == Map(f, s)
  {
  }

  lemma FlatMapLast<T, U>(f: T -> seq<U>, s: seq<T>, x: T)
    ensures FlatMap(f, s + [x]) == FlatMap(f, s) + f(x)
  {
    assert (s + [x])[..|s|] == s;
  }

  lemma {:induction false} FlatMapThrough<T, U>(f: T -> seq<U>, g: T -> T, s: seq<T>)
    requires forall x | x in s :: f(g(x)) == f(x)
    ensures FlatMap(f, Map(g, s)) == FlatMap(f, s)
  {
    if s != [] {
      var front, last := s[..|s| - 1], s[|s| - 1];
      assert s == front + [last] && last in s;
      FlatMapThrough(f, g, front);
      MapSnoc(g, front, last);
      FlatMapLast(f, Map(g, front), g(last));
    }
  }

  lemma MethodlessRuleRoutes(shape: Shape<HTTPMatch>, rule: Rule<HTTPMatch>, hosts: seq<string>, namespace: string, l: Listener, cluster: Cluster)
    requires shape.fill == WithHTTPMatch
    ensures RuleRoutes(shape, MethodlessRule(rule), hosts, namespace, l, cluster) == RuleRoutes(shape, rule, hosts, namespace, l, cluster)
  {
    var route := WithFilters(Bare(hosts, RuleBackends(rule.backendRefs, namespace, cluster)), rule.filters, shape.http, namespace, l.port);
    MapThrough(WithHTTPMatch(route), Methodless, rule.matches);
  }

  // Whatever methods the matches ask for, the routes are the same: they match every method.
  lemma MethodsForgotten(l: Listener, source: Resource, input: seq<RouteObject<HTTPMatch>>, cluster: Cluster)
    ensures Routes(HTTPShape(l, source), l, Map(MethodlessObject, input), cluster) == Routes(HTTPShape(l, source), l, input, cluster)
  {
    var shape := HTTPShape(l, source);
    forall r | r in input ensures ObjectRoutes(shape, l, cluster)(MethodlessObject(r)) == ObjectRoutes(shape, l, cluster)(r) {
      var hosts := MatchedHosts(r.hostnames, l);
      if hosts.Some? {
        var rules := RulesOf(shape, hosts.value, r.namespace, l, cluster);
        forall rule | rule in r.rules ensures rules(MethodlessRule(rule)) == rules(rule) {
          MethodlessRuleRoutes(shape, rule, hosts.value, r.namespace, l, cluster);
        }
        FlatMapThrough(rules, MethodlessRule, r.rules);
      }
      assert HTTPAttached(MethodlessObject(r), l, source) == HTTPAttached(r, l, source);
    }
    FlatMapThrough(ObjectRoutes(shape, l, cluster), MethodlessObject, input);
  }

  // A mirror keeps whatever port its reference has, also none.
  lemma MirrorPorts(route: HTTPRoute, filters: seq<RuleFilter>, http: bool, namespace: string, listenerPort: nat)
    requires route.requestMirrors == []
    ensures (forall m | m in WithFilters(route, filters, http, namespace, listenerPort).requestMirrors :: m.backend.Some? && m.backend.value.port.Some?)
       <==> forall f | f in filters && f.MirrorTo? :: f.ref.port.Some?
  {
    var mirrors := Filter(filters, IsMirror);
    FilterMember(filters, IsMirror);
    MapMembers(MirrorAt(namespace), mirrors);
    forall f | f in filters && f.MirrorTo? ensures MirrorAt(namespace)(f) in MirrorsOf(filters, namespace) {
      assert f in mirrors;
    }
  }

  // ---------- the code ----------

  method ApplyFilters(route: HTTPRoute, filters: seq<RuleFilter>, http: bool, namespace: string, listenerPort: nat) returns (r: HTTPRoute)
    ensures r == WithFilters(route, filters, http, namespace, listenerPort)
  {
    r := route;
    assert route.requestMirrors + [] == route.requestMirrors;
    for i := 0 to |filters|
      invariant r == WithFilters(route, filters[..i], http, namespace, listenerPort)
    {
      TakeSnoc(filters, i);
      FiltersSnoc(route, filters[..i], filters[i], http, namespace, listenerPort);
      r := WithFilter(r, filters[i], http, namespace, listenerPort);
    }
    assert filters[..|filters|] == filters;
  }

  method IngestRule<M>(shape: Shape<M>, rule: Rule<M>, hosts: seq<string>, namespace: string, l: Listener, cluster: Cluster)
    returns (routes: seq<HTTPRoute>)
    ensures routes == RuleRoutes(shape, rule, hosts, namespace, l, cluster)
  {
    var backends := CollectBackends(rule.backendRefs, namespace, cluster);
    var route := ApplyFilters(Bare(hosts, backends), rule.filters, shape.http, namespace, l.port);
    routes := FillMatches(shape.fill(route), route, rule.matches);
  }

  method FillMatches<M>(fill: M -> HTTPRoute, route: HTTPRoute, matches: seq<M>) returns (routes: seq<HTTPRoute>)
    ensures routes == if matches == [] then [route] else Map(fill, matches)
  {
    routes := [];
    if |matches| == 0 {
      routes := [route];
    }
    for i := 0 to |matches|
      invariant matches != [] ==> routes == Map(fill, matches[..i])
      invariant matches == [] ==> routes == [route]
    {
      assert matches[..i + 1] == matches[..i] + [matches[i]];
      MapSnoc(fill, matches[..i], matches[i]);
      routes := routes + [fill(matches[i])];
    }
    assert matches[..|matches|] == matches;
  }

  method IngestRules<M>(shape: Shape<M>, rules: seq<Rule<M>>, hosts: seq<string>, namespace: string, l: Listener, cluster: Cluster)
    returns (routes: seq<HTTPRoute>)
    ensures routes == FlatMap(RulesOf(shape, hosts, namespace, l, cluster), rules)
  {
    routes := [];
    for i := 0 to |rules|
      invariant routes == FlatMap(RulesOf(shape, hosts, namespace, l, cluster), rules[..i])
    {
      FlatMapSnoc(RulesOf(shape, hosts, namespace, l, cluster), rules, i);
      var more := IngestRule(shape, rules[i], hosts, namespace, l, cluster);
      routes := routes + more;
    }
    assert rules[..|rules|] == rules;
  }

  method IngestObject<M>(shape: Shape<M>, r: RouteObject<M>, attached: bool, l: Listener, cluster: Cluster) returns (routes: seq<HTTPRoute>)
    requires attached == shape.attached(r)
    ensures routes == ObjectRoutes(shape, l, cluster)(r)
  {
    if !attached {
      return [];
    }
    var matched := ComputeHosts.Compute(r.hostnames, l.hostname);
    if |matched| == 0 {
      return [];
    }
    if |matched| == 1 && matched[0] == "*" {
      matched := [];
    }
    routes := IngestRules(shape, r.rules, matched, r.namespace, l, cluster);
  }

  method IsHTTPAttached(r: RouteObject<HTTPMatch>, l: Listener, source: Resource) returns (attached: bool)
    ensures attached == HTTPAttached(r, l, source)
  {
    attached := false;
    for i := 0 to |r.parentRefs|
      invariant !attached && forall j | 0 <= j < i :: !RefersTo(r.parentRefs[j], r.namespace, l, source)
    {
      var ref := r.parentRefs[i];
      if ref.sectionName.Some? && ref.sectionName.value != l.name {
        continue;
      }
      if source.kind == "Gateway" {
        attached := IsGateway(ref) || (ref.kind.None? && ref.group.None?);
      } else if IsListenerSet(ref) {
        attached := NamespaceOr(ref.namespace, r.namespace) == source.namespace && ref.name == source.name;
      }
      if attached {
        assert ref in r.parentRefs && RefersTo(ref, r.namespace, l, source);
        return;
      }
    }
  }

  method ToHTTPRoutes(l: Listener, source: Resource, input: seq<RouteObject<HTTPMatch>>, cluster: Cluster) returns (routes: seq<HTTPRoute>)
    ensures routes == Routes(HTTPShape(l, source), l, input, cluster)
    ensures forall r | r in routes :: Ready(r, cluster)
  {
    var shape := HTTPShape(l, source);
    routes := [];
    for i := 0 to |input|
      invariant routes == Routes(shape, l, input[..i], cluster)
    {
      FlatMapSnoc(ObjectRoutes(shape, l, cluster), input, i);
      var attached := IsHTTPAttached(input[i], l, source);
      var more := IngestObject(shape, input[i], attached, l, cluster);
      routes := routes + more;
    }
    assert input[..|input|] == input;
    HTTPFillsReady(cluster);
    RoutesReady(shape, l, input, cluster);
  }

  method ToGRPCRoutes(l: Listener, input: seq<RouteObject<GRPCMatch>>, cluster: Cluster) returns (routes: seq<HTTPRoute>)
    ensures routes == Routes(GRPCShape(l), l, input, cluster)
    ensures forall r | r in routes :: Ready(r, cluster)
  {
    var shape := GRPCShape(l);
    routes := [];
    for i := 0 to |input|
      invariant routes == Routes(shape, l, input[..i], cluster)
    {
      FlatMapSnoc(ObjectRoutes(shape, l, cluster), input, i);
      var attached := IsAttached(input[i].parentRefs, l);
      var more := IngestObject(shape, input[i], attached, l, cluster);
      routes := routes + more;
    }
    assert input[..|input|] == input;
    GRPCFillsReady(cluster);
    RoutesReady(shape, l, input, cluster);
  }

  // A listener with its protocol, and with the ListenerSet it is from, whose name is empty for the Gateway's own.
  datatype ListenerContext = ListenerContext(listener: Listener, protocol: string, source: Resource)

  // The objects a Gateway's listeners are filled from.
  datatype Objects = Objects(
    gateway: Resource, http: seq<RouteObject<HTTPMatch>>, grpc: seq<RouteObject<GRPCMatch>>, cluster: Cluster, tls: Listener -> Option<seq<TLSSecret>>)

  function SourceOf(o: Objects, x: ListenerContext): Resource {
    if x.source.name != "" then x.source else o.gateway
  }

  predicate CarriesHTTP(x: ListenerContext) {
    x.protocol in ["HTTP", "HTTPS", "TLS"]
  }

  function HostnameOf(l: Listener): string {
    if l.hostname.Some? then l.hostname.value else "*"
  }

  // The model listener: its own name, source, port, host and TLS, and the HTTP routes, then the GRPC routes.
  function Ingested(o: Objects): ListenerContext -> HTTPListener {
    (x: ListenerContext) =>
      var l, source := x.listener, SourceOf(o, x);
      HTTPListener(
        l.name, [source], l.port, HostnameOf(l), o.tls(l),
        Routes(HTTPShape(l, source), l, o.http, o.cluster) + Routes(GRPCShape(l), l, o.grpc, o.cluster), None, false)
  }

  // The listeners of a Gateway and its ListenerSets that carry HTTP, in order.
  function Models(o: Objects, contexts: seq<ListenerContext>): seq<HTTPListener> {
    Map(Ingested(o), Filter(contexts, CarriesHTTP))
  }

  lemma IngestedReady(x: ListenerContext, o: Objects)
    ensures forall r | r in Ingested(o)(x).routes :: Ready(r, o.cluster)
  {
    HTTPFillsReady(o.cluster);
    GRPCFillsReady(o.cluster);
    RoutesReady(HTTPShape(x.listener, SourceOf(o, x)), x.listener, o.http, o.cluster);
    RoutesReady(GRPCShape(x.listener), x.listener, o.grpc, o.cluster);
  }

  method IngestListener(x: ListenerContext, o: Objects) returns (m: HTTPListener)
    ensures m == Ingested(o)(x)
  {
    var l, source := x.listener, o.gateway;
    if x.source.name != "" {
      source := x.source;
    }
    var routes := ToHTTPRoutes(l, source, o.http, o.cluster);
    var more := ToGRPCRoutes(l, o.grpc, o.cluster);
    m := HTTPListener(l.name, [source], l.port, if l.hostname.Some? then l.hostname.value else "*", o.tls(l), routes + more, None, false);
  }

  // Every route of every listener is one the translator can answer and match.
  lemma AllIngestedReady(contexts: seq<ListenerContext>, o: Objects)
    ensures RouteConfig.AllAnswerable(Models(o, contexts))
    ensures forall m, r | m in Models(o, contexts) && r in m.routes :: Ready(r, o.cluster)
  {
    MapMembers(Ingested(o), Filter(contexts, CarriesHTTP));
    forall m | m in Models(o, contexts) ensures forall r | r in m.routes :: Ready(r, o.cluster) && Answerable(r) {
      var x :| m == Ingested(o)(x);
      IngestedReady(x, o);
    }
  }

  method IngestListeners(contexts: seq<ListenerContext>, o: Objects) returns (models: seq<HTTPListener>)
    ensures models == Models(o, contexts)
  {
    models := [];
    for i := 0 to |contexts|
      invariant models == Models(o, contexts[..i])
    {
      TakeSnoc(contexts, i);
      Merging.FilterSnoc(contexts[..i], contexts[i], CarriesHTTP);
      if contexts[i].protocol != "HTTP" && contexts[i].protocol != "HTTPS" && contexts[i].protocol != "TLS" {
        continue;
      }
      var m := IngestListener(contexts[i], o);
      MapSnoc(Ingested(o), Filter(contexts[..i], CarriesHTTP), contexts[i]);
      models := models + [m];
    }
    assert contexts[..|contexts|] == contexts;
  }

  // From Gateway API objects to route configurations: nothing ingested makes the translator meet a nil route.
  method Translate(contexts: seq<ListenerContext>, o: Objects, enforceHTTPS: bool, suffix: bool)
    returns (models: seq<HTTPListener>, res: seq<RouteConfig.RouteConfiguration>)
    ensures models == Models(o, contexts)
    ensures res == RouteConfig.AsSeq(RouteConfig.Configuration(models, false, enforceHTTPS, suffix))
                 + RouteConfig.AsSeq(RouteConfig.Configuration(models, true, enforceHTTPS, suffix))
  {
    models := IngestListeners(contexts, o);
    AllIngestedReady(contexts, o);
    res := RouteConfig.GetRouteConfigurations(models, enforceHTTPS, suffix);
  }
}
