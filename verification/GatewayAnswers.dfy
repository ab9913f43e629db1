/** What the configuration of a Gateway answers, in terms of the matches, backends and filters of the attached routes. */
module GatewayAnswers {
  import opened Wrappers
  import opened Model
  import opened Sorting
  import opened GatewayObjects
  import opened RouteMatch
  import opened RouteOrder
  import opened VirtualHost
  import opened TLSIngestion
  import opened HTTPIngestion
  import opened GatewayOffers
  import GatewayServing
  import HTTPMatching
  import HostRouting
  import HostSearch
  import IngressPaths
  import MatchKey
  import Merging
  import Redirects
  import RouteActions
  import RouteConfig
  import Routing
  import Strings

  // ---------- which offer comes first ----------

  // An exact path, then an expression, then a prefix, the longer first and without a trailing slash; then more headers,
  // then more query parameters. Any path counts as the prefix "/".
  function Rank(a: Ask): (nat, nat, nat, nat) {
    (PathRank(a.path).0, PathRank(a.path).1, |a.headers|, |a.queries|)
  }

  function PathRank(p: PathAsk): (nat, nat) {
    match p
    case AnyPath => (1, 1)
    case Exactly(text) => (3, |text|)
    case Expression(text) => (2, |text|)
    case Under(text) => (1, if |text| > 1 && text[|text| - 1] == '/' then |text| - 1 else |text|)
  }

  predicate Above(a: (nat, nat, nat, nat), b: (nat, nat, nat, nat)) {
    || a.0 > b.0 || (a.0 == b.0 && a.1 > b.1) || (a.0 == b.0 && a.1 == b.1 && a.2 > b.2)
    || (a.0 == b.0 && a.1 == b.1 && a.2 == b.2 && a.3 > b.3)
  }

  lemma UnderRank(text: string)
    requires text != ""
    ensures PrefixRank(PathOf(Under(text))) == if |text| > 1 && text[|text| - 1] == '/' then |text| - 1 else |text|
  {
    assert Strings.HasSuffix(text, "/") <==> text[|text| - 1] == '/' by {
      assert text[|text| - 1..] == [text[|text| - 1]];
    }
    if |text| == 1 {
      assert text == [text[0]];
    }
  }

  lemma PathRanked(p: PathAsk)
    requires p.AnyPath? || p.text != ""
    ensures var (m, rank) := (PathOf(p), PathRank(p));
      && |m.exact| == (if rank.0 == 3 then rank.1 else 0) && |m.regex| == (if rank.0 == 2 then rank.1 else 0)
      && PrefixRank(m) == (if rank.0 == 1 then rank.1 else 0) && rank.1 > 0 && 1 <= rank.0 <= 3
  {
    if p.Under? {
      UnderRank(p.text);
    }
  }

  lemma OffersRanked(x: Offer, y: Offer, cluster: Cluster)
    requires AskAdmitted(x.ask) && AskAdmitted(y.ask)
    ensures Outranks(RouteFor(cluster)(x), RouteFor(cluster)(y)) <==> Above(Rank(x.ask), Rank(y.ask))
  {
    var (p, q) := (RouteFor(cluster)(x), RouteFor(cluster)(y));
    PathRanked(x.ask.path);
    PathRanked(y.ask.path);
    assert p.pathMatch == PathOf(x.ask.path) && q.pathMatch == PathOf(y.ask.path);
    assert HeaderRank(p) == |x.ask.headers| && HeaderRank(q) == |y.ask.headers|;
    assert |p.queryParamsMatch| == |x.ask.queries| && |q.queryParamsMatch| == |y.ask.queries|;
  }

  // ---------- which offers go together ----------

  ghost predicate SameMembers(a: seq<TypedPair>, b: seq<TypedPair>) {
    forall t :: t in a <==> t in b
  }

  ghost predicate SameAsk(a: Ask, b: Ask) {
    a.path == b.path && SameMembers(a.headers, b.headers) && SameMembers(a.queries, b.queries)
  }

  ghost predicate Has(pairs: seq<TypedPair>, kv: KeyValueMatch) {
    exists t :: t in pairs && HTTPMatching.KeyValue(t) == kv
  }

  lemma HasFront(pairs: seq<TypedPair>, kv: KeyValueMatch)
    requires pairs != [] && HTTPMatching.PairsAdmitted(pairs)
    ensures HTTPMatching.PairsAdmitted(pairs[1..])
    ensures Has(pairs, kv) <==> HTTPMatching.KeyValue(pairs[0]) == kv || Has(pairs[1..], kv)
    ensures HTTPMatching.KeyValue(pairs[0]) == kv ==> !Has(pairs[1..], kv)
  {
    var rest := pairs[1..];
    assert pairs == [pairs[0]] + rest && forall i | 0 <= i < |rest| :: rest[i] == pairs[i + 1];
    assert forall t | t in rest :: t.name != pairs[0].name;
  }

  lemma {:induction false} Counted(pairs: seq<TypedPair>, kv: KeyValueMatch)
    requires HTTPMatching.PairsAdmitted(pairs)
    ensures multiset(Map(HTTPMatching.KeyValue, pairs))[kv] == if Has(pairs, kv) then 1 else 0
  {
    if pairs != [] {
      HasFront(pairs, kv);
      Counted(pairs[1..], kv);
      assert Map(HTTPMatching.KeyValue, pairs) == [HTTPMatching.KeyValue(pairs[0])] + Map(HTTPMatching.KeyValue, pairs[1..]);
    }
  }

  lemma PairsWithin(a: seq<TypedPair>, b: seq<TypedPair>)
    requires HTTPMatching.PairsAdmitted(a) && HTTPMatching.PairsAdmitted(b) && forall kv | Has(a, kv) :: Has(b, kv)
    ensures forall t | t in a :: t in b
  {
    forall t | t in a ensures t in b {
      assert Has(a, HTTPMatching.KeyValue(t));
      var u :| u in b && HTTPMatching.KeyValue(u) == HTTPMatching.KeyValue(t);
      assert t.kind in {"Exact", "RegularExpression"} && u.kind in {"Exact", "RegularExpression"};
      assert u == t;
    }
  }

  lemma SameHas(a: seq<TypedPair>, b: seq<TypedPair>)
    requires HTTPMatching.PairsAdmitted(a) && HTTPMatching.PairsAdmitted(b)
    ensures (forall kv :: Has(a, kv) <==> Has(b, kv)) <==> SameMembers(a, b)
  {
    if forall kv :: Has(a, kv) <==> Has(b, kv) {
      PairsWithin(a, b);
      PairsWithin(b, a);
    } else {
      var kv :| Has(a, kv) != Has(b, kv);
      var t :| (t in a || t in b) && HTTPMatching.KeyValue(t) == kv;
    }
  }

  lemma PairsSame(a: seq<TypedPair>, b: seq<TypedPair>)
    requires HTTPMatching.PairsAdmitted(a) && HTTPMatching.PairsAdmitted(b)
    ensures multiset(Map(HTTPMatching.KeyValue, a)) == multiset(Map(HTTPMatching.KeyValue, b)) <==> SameMembers(a, b)
  {
    var (p, q) := (multiset(Map(HTTPMatching.KeyValue, a)), multiset(Map(HTTPMatching.KeyValue, b)));
    SameHas(a, b);
    forall kv ensures p[kv] == q[kv] <==> (Has(a, kv) <==> Has(b, kv)) {
      Counted(a, kv);
      Counted(b, kv);
    }
  }

  lemma PathsSame(p: PathAsk, q: PathAsk)
    requires (p.AnyPath? || p.text != "") && (q.AnyPath? || q.text != "")
    ensures PathOf(p) == PathOf(q) <==> p == q
  {
  }

  lemma FilledMatch(r: HTTPRoute, q: HTTPRoute, a: Ask, b: Ask)
    requires AskAdmitted(a) && AskAdmitted(b) && r.verb == q.verb
    ensures MatchKey.SameMatch(Filled(r, a), Filled(q, b)) <==> SameAsk(a, b)
  {
    PathsSame(a.path, b.path);
    PairsSame(a.headers, b.headers);
    PairsSame(a.queries, b.queries);
  }

  lemma OffersMatch(x: Offer, y: Offer, cluster: Cluster)
    requires AskAdmitted(x.ask) && AskAdmitted(y.ask)
    ensures MatchKey.SameMatch(RouteFor(cluster)(x), RouteFor(cluster)(y)) <==> SameAsk(x.ask, y.ask)
  {
    FilledMatch(BaseOf(x, cluster), BaseOf(y, cluster), x.ask, y.ask);
  }

  // ---------- which requests an offer is for ----------

  lemma PathFilled(p: PathAsk, req: Request)
    requires p.AnyPath? || p.text != ""
    ensures PathAsked(PathOf(p), req) <==> PathHolds(p, req)
  {
  }

  lemma HeadersFilled(pairs: seq<TypedPair>, req: Request)
    requires HTTPMatching.PairsAdmitted(pairs)
    ensures (forall kv | kv in Map(HTTPMatching.KeyValue, pairs) :: HeaderAsked(kv, req))
       <==> forall t | t in pairs :: HTTPMatching.PairHolds(t, req.Header(t.name), req)
  {
    PairsFilled(pairs);
    HTTPMatching.HeadersIngested(pairs, req);
  }

  lemma QueriesFilled(pairs: seq<TypedPair>, req: Request)
    requires HTTPMatching.PairsAdmitted(pairs)
    ensures (forall kv | kv in Map(HTTPMatching.KeyValue, pairs) :: QueryAsked(kv, req))
       <==> forall t | t in pairs :: HTTPMatching.PairHolds(t, req.query(t.name), req)
  {
    PairsFilled(pairs);
    HTTPMatching.QueriesIngested(pairs, req);
  }

  lemma FilledAsked(route: HTTPRoute, a: Ask, req: Request)
    requires AskAdmitted(a) && route.verb.None?
    ensures Asked(Filled(route, a), req) <==> AskHolds(a, req)
  {
    PathFilled(a.path, req);
    HeadersFilled(a.headers, req);
    QueriesFilled(a.queries, req);
  }

  lemma OfferAsked(x: Offer, cluster: Cluster, req: Request)
    requires AskAdmitted(x.ask)
    ensures Asked(RouteFor(cluster)(x), req) <==> AskHolds(x.ask, req)
  {
    FilledAsked(BaseOf(x, cluster), x.ask, req);
  }

  // The ask that the redirect to HTTPS is for: with headers and query parameters exchanged.
  function Exchanged(a: Ask): Ask {
    Ask(a.path, a.queries, a.headers)
  }

  lemma ExchangedAsked(x: Offer, cluster: Cluster, req: Request)
    requires AskAdmitted(x.ask)
    ensures Asked(Redirects.Swapped(RouteFor(cluster)(x)), req) <==> AskHolds(Exchanged(x.ask), req)
  {
    assert Redirects.Swapped(RouteFor(cluster)(x)) == Filled(BaseOf(x, cluster), Exchanged(x.ask));
    FilledAsked(BaseOf(x, cluster), Exchanged(x.ask), req);
  }

  // ---------- what an offer gives ----------

  // The cluster of the service that a reference names, at its port.
  function ClusterAt(ref: BackendRef, namespace: string): string {
    (if ref.namespace.Some? then ref.namespace.value else namespace) + ":" + ref.name + ":"
    + if ref.port.Some? && ref.port.value != 0 then Strings.Itoa(ref.port.value) else ""
  }

  function ShareOf(namespace: string): BackendRef -> ClusterWeight {
    ref => ClusterWeight(
      ClusterAt(ref, namespace),
      if ref.weight.None? then 1 else if ref.weight.value >= 0 then ref.weight.value else ref.weight.value + 0x1_0000_0000)
  }

  function Uses(namespace: string, cluster: Cluster): BackendRef -> bool {
    ref => Usable(ref, namespace, cluster)
  }

  // One share for each reference that can be used, in order.
  function Shares(cluster: Cluster): Offer -> seq<ClusterWeight> {
    (x: Offer) => Map(ShareOf(x.namespace), Filter(x.refs, Uses(x.namespace, cluster)))
  }

  // The last filter of a kind.
  ghost predicate Last(filters: seq<RuleFilter>, kind: RuleFilter -> bool, k: nat) {
    k < |filters| && kind(filters[k]) && forall j | k < j < |filters| :: !kind(filters[j])
  }

  ghost predicate PathSays(path: Option<StringMatch>, p: Option<PathModifier>) {
    if p.None? then path.None?
    else path == Some(if p.value.FullPath? then StringMatch("", p.value.value, "") else StringMatch(p.value.value, "", ""))
  }

  // The port of a redirect: the one given, else the scheme's, and else that of the route's own listener.
  ghost predicate RedirectSays(action: RedirectAction, r: RedirectSpec, port: nat) {
    && action.scheme == r.scheme && action.host == r.hostname && action.statusCode == r.statusCode && PathSays(action.path, r.path)
    && (r.port.Some? && 0 <= r.port.value < 0x1_0000 ==> action.port == r.port.value)
    && (r.port.None? && r.scheme.None? && port < 0x1_0000 ==> action.port == port)
    && (r.port.None? && r.scheme == Some("https") ==> action.port == 443)
    && (r.port.None? && r.scheme == Some("http") ==> action.port == 80)
  }

  // A rewritten prefix has no slash at its end.
  ghost predicate RewriteSays(rewrite: RewriteFilter, r: RewriteSpec) {
    && rewrite.hostName == r.hostname
    && if r.path.Some? && r.path.value.PrefixMatch? then
         exists prefix :: rewrite.path == Some(StringMatch(prefix, "", "")) && Unslashed(r.path.value.value, prefix)
       else PathSays(rewrite.path, r.path)
  }

  ghost predicate Unslashed(text: string, bare: string) {
    if text != "" && text[|text| - 1] == '/' then text == bare + "/" else text == bare
  }

  ghost predicate Redirecting(x: Offer) {
    x.http && exists f :: f in x.filters && f.RedirectTo?
  }

  ghost predicate RedirectedBy(x: Offer, k: nat, action: RedirectAction) {
    Last(x.filters, IsRedirect, k) && RedirectSays(action, x.filters[k].redirect, x.port)
  }

  ghost predicate RewrittenBy(x: Offer, k: nat, rewrite: RewriteFilter) {
    Last(x.filters, IsRewrite, k) && RewriteSays(rewrite, x.filters[k].rewrite)
  }

  ghost predicate Rewritten(x: Offer, rewrite: Option<RewriteFilter>) {
    if x.http && exists f :: f in x.filters && f.RewriteTo? then rewrite.Some? && exists k: nat :: RewrittenBy(x, k, rewrite.value)
    else rewrite.None?
  }

  function MirrorOf(namespace: string): RuleFilter -> string {
    (f: RuleFilter) => if f.MirrorTo? then ClusterAt(f.ref, namespace) else ""
  }

  // The first offer's redirect, if it has one; else the backends of all, with the first one's rewrite and mirrors; and an
  // error if there is no backend.
  ghost predicate Gives(action: Action, offers: seq<Offer>, cluster: Cluster)
    requires offers != []
  {
    var head, shares := offers[0], FlatMap(Shares(cluster), offers);
    if Redirecting(head) then action.Redirect? && exists k: nat :: RedirectedBy(head, k, action.redirect)
    else if shares == [] then action == Respond(500, "")
    else
      && action.Forward? && action.timeout.None? && Rewritten(head, action.rewrite)
      && action.target == (if |shares| == 1 then Target.Cluster(shares[0].name) else WeightedClusters(shares))
      && action.mirrors == Map(MirrorOf(head.namespace), Filter(head.filters, IsMirror))
  }

  // ---------- the routes give it ----------

  function ShareFor(b: Backend): ClusterWeight {
    ClusterWeight(ClusterName(b), RouteActions.Wanted(b))
  }

  lemma ShareAgrees(ref: BackendRef, namespace: string)
    ensures ShareFor(ModelBackend(ref, namespace)) == ShareOf(namespace)(ref)
    ensures ClusterName(ModelBackend(ref, namespace)) == ClusterAt(ref, namespace)
  {
  }

  lemma {:induction false} RuleShares(refs: seq<BackendRef>, namespace: string, cluster: Cluster)
    ensures Map(ShareFor, RuleBackends(refs, namespace, cluster)) == Map(ShareOf(namespace), Filter(refs, Uses(namespace, cluster)))
  {
    if refs != [] {
      var front, last := refs[..|refs| - 1], refs[|refs| - 1];
      assert refs == front + [last];
      RuleShares(front, namespace, cluster);
      Merging.FilterSnoc(front, last, Uses(namespace, cluster));
      if Usable(last, namespace, cluster) {
        ShareAgrees(last, namespace);
        MapSnoc(ShareFor, RuleBackends(front, namespace, cluster), ModelBackend(last, namespace));
        MapSnoc(ShareOf(namespace), Filter(front, Uses(namespace, cluster)), last);
      } else {
        assert RuleBackends(refs, namespace, cluster) == RuleBackends(front, namespace, cluster);
      }
    }
  }

  lemma {:induction false} MapThroughFlat<S, T, U, V>(g: S -> T, f: T -> seq<U>, h: U -> V, k: S -> seq<V>, s: seq<S>)
    requires forall x | x in s :: Map(h, f(g(x))) == k(x)
    ensures Map(h, FlatMap(f, Map(g, s))) == FlatMap(k, s)
  {
    if s != [] {
      var front, last := s[..|s| - 1], s[|s| - 1];
      assert s == front + [last] && last in s;
      MapThroughFlat(g, f, h, k, front);
      MapSnoc(g, front, last);
      assert Map(g, s)[..|front|] == Map(g, front);
      MapConcat(h, FlatMap(f, Map(g, front)), f(g(last)));
    }
  }

  lemma GroupShares(offers: seq<Offer>, cluster: Cluster)
    ensures Map(ShareFor, FlatMap(RouteActions.BackendsOf, Map(RouteFor(cluster), offers))) == FlatMap(Shares(cluster), offers)
  {
    forall x | x in offers ensures Map(ShareFor, RouteActions.BackendsOf(RouteFor(cluster)(x))) == Shares(cluster)(x) {
      RuleShares(x.refs, x.namespace, cluster);
    }
    MapThroughFlat(RouteFor(cluster), RouteActions.BackendsOf, ShareFor, Shares(cluster), offers);
  }

  lemma {:induction false} LastFiltered(filters: seq<RuleFilter>, kind: RuleFilter -> bool)
    ensures Filter(filters, kind) != [] <==> exists f :: f in filters && kind(f)
    ensures Filter(filters, kind) != [] ==>
      exists k: nat :: Last(filters, kind, k) && filters[k] == Filter(filters, kind)[|Filter(filters, kind)| - 1]
  {
    if filters != [] {
      var front, last := filters[..|filters| - 1], filters[|filters| - 1];
      assert filters == front + [last] && last in filters;
      LastFiltered(front, kind);
      Merging.FilterSnoc(front, last, kind);
      if kind(last) {
        assert Last(filters, kind, |front|);
      } else if Filter(front, kind) != [] {
        var k: nat :| Last(front, kind, k) && front[k] == Filter(front, kind)[|Filter(front, kind)| - 1];
        assert Last(filters, kind, k) && filters[k] == front[k];
      }
    }
  }

  lemma RedirectAgrees(x: Offer, cluster: Cluster, action: RedirectAction, port: nat)
    requires Redirecting(x) <==> RouteFor(cluster)(x).requestRedirect.Some?
    requires var f := RouteFor(cluster)(x).requestRedirect; f.Some? && RouteActions.RedirectsTo(action, f.value, port)
    ensures exists k: nat :: RedirectedBy(x, k, action)
  {
    LastFiltered(x.filters, IsRedirect);
    var k: nat :| Last(x.filters, IsRedirect, k) && x.filters[k] == Filter(x.filters, IsRedirect)[|Filter(x.filters, IsRedirect)| - 1];
    assert RouteFor(cluster)(x).requestRedirect == Some(ToRedirect(x.filters[k].redirect, x.port));
    assert RedirectedBy(x, k, action);
  }

  lemma RedirectingIff(x: Offer, cluster: Cluster)
    ensures Redirecting(x) <==> RouteFor(cluster)(x).requestRedirect.Some?
  {
    LastFiltered(x.filters, IsRedirect);
  }

  lemma RewriteIs(x: Offer, cluster: Cluster)
    ensures RouteFor(cluster)(x).rewrite == if x.http then LastRewrite(x.filters) else None
  {
  }

  lemma RewriteAgrees(x: Offer, cluster: Cluster)
    ensures Rewritten(x, RouteFor(cluster)(x).rewrite)
  {
    RewriteIs(x, cluster);
    LastRewriteSays(x, LastRewrite(x.filters));
  }

  lemma LastRewriteSays(x: Offer, last: Option<RewriteFilter>)
    requires last == LastRewrite(x.filters)
    ensures Rewritten(x, if x.http then last else None)
  {
    var some := Filter(x.filters, IsRewrite);
    LastFiltered(x.filters, IsRewrite);
    if some != [] {
      var k: nat :| Last(x.filters, IsRewrite, k) && x.filters[k] == some[|some| - 1];
      RewriteRight(x.filters[k].rewrite);
      assert RewrittenBy(x, k, last.value);
    }
  }

  lemma RewriteRight(r: RewriteSpec)
    ensures RewriteSays(ToRewrite(r), r)
  {
    if r.path.Some? && r.path.value.PrefixMatch? {
      var text := r.path.value.value;
      var bare := Strings.TrimSuffix(text, "/");
      if text != "" {
        assert text[|text| - 1..] == [text[|text| - 1]];
      }
      assert Unslashed(text, bare);
    }
  }

  lemma MirrorsAgree(x: Offer, cluster: Cluster)
    ensures FlatMap(RouteActions.MirrorCluster, RouteFor(cluster)(x).requestMirrors) == Map(MirrorOf(x.namespace), Filter(x.filters, IsMirror))
  {
    var mirrors := Filter(x.filters, IsMirror);
    FilterMember(x.filters, IsMirror);
    forall f | f in mirrors ensures RouteActions.MirrorCluster(MirrorAt(x.namespace)(f)) == [MirrorOf(x.namespace)(f)] {
      ShareAgrees(f.ref, x.namespace);
    }
    assert RouteFor(cluster)(x).requestMirrors == MirrorsOf(x.filters, x.namespace);
    IngressPaths.OneEach(MirrorAt(x.namespace), RouteActions.MirrorCluster, MirrorOf(x.namespace), mirrors);
  }

  lemma GroupGives(offers: seq<Offer>, cluster: Cluster, port: nat, action: Action)
    requires offers != [] && RouteActions.Serves(action, Map(RouteFor(cluster), offers), port)
    ensures Gives(action, offers, cluster)
  {
    var head, group := offers[0], Map(RouteFor(cluster), offers);
    var backends, shares := FlatMap(RouteActions.BackendsOf, group), FlatMap(Shares(cluster), offers);
    GroupShares(offers, cluster);
    RedirectingIff(head, cluster);
    if Redirecting(head) {
      RedirectAgrees(head, cluster, action.redirect, port);
    } else if shares != [] {
      RewriteAgrees(head, cluster);
      MirrorsAgree(head, cluster);
      TargetAgrees(action.target, backends, shares);
    } else {
      assert group[0].backends == [];
    }
  }

  lemma TargetAgrees(target: Target, backends: seq<Backend>, shares: seq<ClusterWeight>)
    requires RouteActions.Splits(target, backends) && shares == Map(ShareFor, backends)
    ensures target == if |shares| == 1 then Target.Cluster(shares[0].name) else WeightedClusters(shares)
  {
    if |backends| != 1 {
      assert target.clusters == shares;
    }
  }

  // ---------- what a request gets ----------

  ghost function HoldsOf(req: Request): Offer -> bool {
    (x: Offer) => AskHolds(x.ask, req)
  }

  ghost function AskingLike(x: Offer): Offer -> bool {
    (y: Offer) => SameAsk(y.ask, x.ask)
  }

  // Of the offers that hold of the request, none is above this one, and it is above those before it.
  ghost predicate Wins(holding: seq<Offer>, k: nat) {
    && k < |holding| && (forall x | x in holding :: !Above(Rank(x.ask), Rank(holding[k].ask)))
    && (forall j | 0 <= j < k :: Above(Rank(holding[k].ask), Rank(holding[j].ask)))
  }

  ghost predicate WinnerGives(offers: seq<Offer>, x: Offer, cluster: Cluster, action: Action) {
    Filter(offers, AskingLike(x)) != [] && Gives(action, Filter(offers, AskingLike(x)), cluster)
  }

  // Nothing if no offer holds of the request; else what the offers with the best ask that does give together.
  ghost predicate Answer(offers: seq<Offer>, req: Request, cluster: Cluster, answer: Option<Action>) {
    var holding := Filter(offers, HoldsOf(req));
    if holding == [] then answer.None?
    else answer.Some? && exists k: nat :: Wins(holding, k) && WinnerGives(offers, holding[k], cluster, answer.value)
  }

  ghost predicate OffersAdmitted(offers: seq<Offer>) {
    forall x | x in offers :: AskAdmitted(x.ask)
  }

  lemma WinnerAgrees(offers: seq<Offer>, x: Offer, cluster: Cluster, port: nat, action: Action)
    requires OffersAdmitted(offers) && x in offers
    requires RouteActions.WinnerServes(Map(RouteFor(cluster), offers), RouteFor(cluster)(x), port, action)
    ensures WinnerGives(offers, x, cluster, action)
  {
    var r := RouteFor(cluster)(x);
    forall y | y in offers ensures HostRouting.SameAs(r)(RouteFor(cluster)(y)) == AskingLike(x)(y) {
      OffersMatch(y, x, cluster);
    }
    IngressPaths.FilterMap(RouteFor(cluster), offers, HostRouting.SameAs(r), AskingLike(x));
    GroupGives(Filter(offers, AskingLike(x)), cluster, port, action);
  }

  lemma WinsAgrees(holding: seq<Offer>, cluster: Cluster, k: nat)
    requires OffersAdmitted(holding) && RouteActions.Wins(Map(RouteFor(cluster), holding), k)
    ensures Wins(holding, k)
  {
    var routes := Map(RouteFor(cluster), holding);
    assert holding[k] in holding;
    forall x | x in holding ensures !Above(Rank(x.ask), Rank(holding[k].ask)) {
      var i :| 0 <= i < |holding| && holding[i] == x;
      assert routes[i] in routes;
      OffersRanked(x, holding[k], cluster);
    }
    forall j | 0 <= j < k ensures Above(Rank(holding[k].ask), Rank(holding[j].ask)) {
      assert Outranks(routes[k], routes[j]) && holding[j] in holding;
      OffersRanked(holding[k], holding[j], cluster);
    }
  }

  // What the routes answer is what the offers say.
  lemma OffersAnswer(offers: seq<Offer>, req: Request, cluster: Cluster, port: nat, answer: Option<Action>)
    requires OffersAdmitted(offers) && RouteActions.Answer(Map(RouteFor(cluster), offers), req, port, answer)
    ensures Answer(offers, req, cluster, answer)
  {
    var routes, holding := Map(RouteFor(cluster), offers), Filter(offers, HoldsOf(req));
    forall x | x in offers ensures HostRouting.AskedBy(req)(RouteFor(cluster)(x)) == HoldsOf(req)(x) {
      OfferAsked(x, cluster, req);
    }
    IngressPaths.FilterMap(RouteFor(cluster), offers, HostRouting.AskedBy(req), HoldsOf(req));
    var asked := Filter(routes, HostRouting.AskedBy(req));
    assert asked == Map(RouteFor(cluster), holding);
    if holding != [] {
      var k: nat :| RouteActions.Wins(asked, k) && RouteActions.WinnerServes(routes, asked[k], port, answer.value);
      FilterMember(offers, HoldsOf(req));
      assert holding[k] in holding;
      WinsAgrees(holding, cluster, k);
      WinnerAgrees(offers, holding[k], cluster, port, answer.value);
    }
  }

  // ---------- at the hosts of a Gateway ----------

  // A host of the side: one that has offers there or, where HTTPS is enforced, on the secure side; if the side has any.
  ghost predicate Host(contexts: seq<ListenerContext>, o: Objects, secure: bool, enforceHTTPS: bool, host: string) {
    && (exists h :: Offers(contexts, o, h, secure) != [])
    && (Offers(contexts, o, host, secure) != [] || (!secure && enforceHTTPS && Offers(contexts, o, host, true) != []))
  }

  // None of the hosts that stand for the authority is above this one.
  ghost predicate MostSpecific(
    contexts: seq<ListenerContext>, o: Objects, secure: bool, enforceHTTPS: bool, host: string, authority: string)
  {
    && Host(contexts, o, secure, enforceHTTPS, host) && HostSearch.Reaches(host, authority)
    && forall h | Host(contexts, o, secure, enforceHTTPS, h) ::
         !HostSearch.Above(HostSearch.Rank(h, authority), HostSearch.Rank(host, authority))
  }

  // Nothing for an authority that the host's wildcard does not accept; a redirect for what the secure offers ask, headers
  // and query parameters exchanged, where HTTPS is enforced; else what the offers say.
  ghost predicate Due(
    contexts: seq<ListenerContext>, o: Objects, secure: bool, enforceHTTPS: bool, suffix: bool, host: string, req: Request, answer: Option<Action>)
  {
    if !AuthorityAccepted(host, suffix, req) then answer.None?
    else if !secure && enforceHTTPS && Offers(contexts, o, host, true) != [] then
      answer == if SomeExchanged(Offers(contexts, o, host, true), req) then Some(HttpsRedirect) else None
    else Answer(Offers(contexts, o, host, secure), req, o.cluster, answer)
  }

  ghost predicate SomeExchanged(offers: seq<Offer>, req: Request) {
    exists x :: x in offers && AskHolds(Exchanged(x.ask), req)
  }

  ghost predicate Answered(
    contexts: seq<ListenerContext>, o: Objects, secure: bool, enforceHTTPS: bool, suffix: bool, found: Option<VirtualHost>, req: Request)
  {
    if found.None? then forall h | Host(contexts, o, secure, enforceHTTPS, h) :: !HostSearch.Reaches(h, req.authority)
    else
      && MostSpecific(contexts, o, secure, enforceHTTPS, found.value.name, req.authority)
      && Due(contexts, o, secure, enforceHTTPS, suffix, found.value.name, req, HostRouting.Routed(found.value.routes, req))
  }

  // The offers that decide what a host of the side answers.
  ghost function Deciding(contexts: seq<ListenerContext>, o: Objects, secure: bool, enforceHTTPS: bool, host: string): seq<Offer> {
    Offers(contexts, o, host, secure || (enforceHTTPS && Offers(contexts, o, host, true) != []))
  }

  lemma HostOffered(contexts: seq<ListenerContext>, o: Objects, host: string, secure: bool)
    requires AllAdmitted(o)
    ensures host in RouteConfig.HostsFor(RouteConfig.Entries(Models(o, contexts)), secure) <==> Offers(contexts, o, host, secure) != []
  {
    Redirects.HostHasRoutes(RouteConfig.Entries(Models(o, contexts)), host, secure);
    RoutesOffered(contexts, o, host, secure);
  }

  lemma HostsAre(contexts: seq<ListenerContext>, o: Objects, secure: bool, enforceHTTPS: bool, host: string)
    requires AllAdmitted(o)
    ensures HostSearch.On(Models(o, contexts), secure, enforceHTTPS, host) <==> Host(contexts, o, secure, enforceHTTPS, host)
  {
    var hosts := RouteConfig.HostsFor(RouteConfig.Entries(Models(o, contexts)), secure);
    HostOffered(contexts, o, host, secure);
    HostOffered(contexts, o, host, true);
    if hosts != [] {
      HostOffered(contexts, o, hosts[0], secure);
    }
    forall h | Offers(contexts, o, h, secure) != [] ensures hosts != [] {
      HostOffered(contexts, o, h, secure);
    }
  }

  lemma ObjectAdmitted<M(!new)>(shape: Shape<M>, read: M -> Ask, l: Listener, host: string, obj: RouteObject<M>, x: Offer)
    requires x in ObjectOffers(shape, read, l, host)(obj)
    requires forall rule, m | rule in obj.rules && m in rule.matches :: AskAdmitted(read(m))
    ensures AskAdmitted(x.ask)
  {
    var hosts := MatchedHosts(obj.hostnames, l).value;
    FlatMapMember(RuleOffers(shape.http, read, hosts, obj.namespace, l, host), obj.rules, x);
    var rule :| rule in obj.rules && x in RuleOffers(shape.http, read, hosts, obj.namespace, l, host)(rule);
    FlatMapMember(AskOffers(shape.http, rule, hosts, obj.namespace, l, host), Asks(read, rule), x);
    var a :| a in Asks(read, rule) && x in AskOffers(shape.http, rule, hosts, obj.namespace, l, host)(a);
    TimesMember(OfferOf(shape.http, rule, hosts, obj.namespace, l)(a), Listed(l, hosts), host, x);
    if rule.matches != [] {
      MapMembers(read, rule.matches);
    }
  }

  lemma {:induction false} TimesMember<T>(x: T, hosts: seq<string>, host: string, y: T)
    requires y in Times(x, hosts, host)
    ensures y == x
  {
    if hosts != [] && y in Times(x, hosts[1..], host) {
      TimesMember(x, hosts[1..], host, y);
    }
  }

  lemma AllOffersAdmitted(contexts: seq<ListenerContext>, o: Objects, host: string, secure: bool)
    requires AllAdmitted(o)
    ensures OffersAdmitted(Offers(contexts, o, host, secure))
  {
    forall x | x in Offers(contexts, o, host, secure) ensures AskAdmitted(x.ask) {
      FlatMapMember(ListenerOffers(o, host, secure), contexts, x);
      var c :| c in contexts && x in ListenerOffers(o, host, secure)(c);
      ListenerAdmitted(c, o, host, secure, x);
    }
  }

  lemma InputAdmitted<M(!new)>(shape: Shape<M>, read: M -> Ask, l: Listener, host: string, input: seq<RouteObject<M>>, x: Offer)
    requires x in FlatMap(ObjectOffers(shape, read, l, host), input)
    requires forall obj, rule, m | obj in input && rule in obj.rules && m in rule.matches :: AskAdmitted(read(m))
    ensures AskAdmitted(x.ask)
  {
    FlatMapMember(ObjectOffers(shape, read, l, host), input, x);
    var obj :| obj in input && x in ObjectOffers(shape, read, l, host)(obj);
    ObjectAdmitted(shape, read, l, host, obj, x);
  }

  lemma ListenerAdmitted(c: ListenerContext, o: Objects, host: string, secure: bool, x: Offer)
    requires AllAdmitted(o) && x in ListenerOffers(o, host, secure)(c)
    ensures AskAdmitted(x.ask)
  {
    var l := c.listener;
    var http := FlatMap(ObjectOffers(HTTPShape(l, SourceOf(o, c)), HTTPAsk, l, host), o.http);
    var grpc := FlatMap(ObjectOffers(GRPCShape(l), GRPCAsk, l, host), o.grpc);
    assert ListenerOffers(o, host, secure)(c) == http + grpc;
    MatchesAdmitted();
    if x in http {
      InputAdmitted(HTTPShape(l, SourceOf(o, c)), HTTPAsk, l, host, o.http, x);
    } else {
      InputAdmitted(GRPCShape(l), GRPCAsk, l, host, o.grpc, x);
    }
  }

  lemma DueAgrees(
    contexts: seq<ListenerContext>, o: Objects, secure: bool, enforceHTTPS: bool, suffix: bool, host: string, req: Request, answer: Option<Action>)
    requires AllAdmitted(o) && HostSearch.Due(Models(o, contexts), secure, enforceHTTPS, suffix, host, req, answer)
    ensures Due(contexts, o, secure, enforceHTTPS, suffix, host, req, answer)
  {
    HostOffered(contexts, o, host, true);
    RoutesOffered(contexts, o, host, true);
    RoutesOffered(contexts, o, host, secure);
    AllOffersAdmitted(contexts, o, host, secure);
    if AuthorityAccepted(host, suffix, req) {
      if !secure && enforceHTTPS && Offers(contexts, o, host, true) != [] {
        AllOffersAdmitted(contexts, o, host, true);
        SwappedOffers(Offers(contexts, o, host, true), o.cluster, req);
      } else {
        OffersAnswer(Offers(contexts, o, host, secure), req, o.cluster, RouteConfig.FirstPort(Models(o, contexts)), answer);
      }
    }
  }

  lemma SwappedOffers(offers: seq<Offer>, cluster: Cluster, req: Request)
    requires OffersAdmitted(offers)
    ensures Redirects.SomeSwappedAsks(Map(RouteFor(cluster), offers), req) <==> SomeExchanged(offers, req)
  {
    var routes := Map(RouteFor(cluster), offers);
    if r :| r in routes && Asked(Redirects.Swapped(r), req) {
      var i :| 0 <= i < |routes| && routes[i] == r;
      assert offers[i] in offers;
      ExchangedAsked(offers[i], cluster, req);
    }
    forall x | x in offers && AskHolds(Exchanged(x.ask), req) ensures Redirects.SomeSwappedAsks(routes, req) {
      var i :| 0 <= i < |offers| && offers[i] == x;
      ExchangedAsked(x, cluster, req);
      assert routes[i] in routes && routes[i] == RouteFor(cluster)(x);
    }
  }

  // Every request gets what is due at the most specific host of the Gateway that stands for its authority, where different
  // asks of that host's offers have different keys.
  lemma GatewayAnswered(
    contexts: seq<ListenerContext>, o: Objects, secure: bool, enforceHTTPS: bool, suffix: bool, req: Request)
    requires AllAdmitted(o) && WellFormed(req) && Routing.Literal(req.authority)
    requires forall h | Host(contexts, o, secure, enforceHTTPS, h) && HostSearch.Reaches(h, req.authority) ::
      MatchKey.KeysExact(Map(RouteFor(o.cluster), Deciding(contexts, o, secure, enforceHTTPS, h)))
    ensures Answered(contexts, o, secure, enforceHTTPS, suffix,
              HostSearch.Search(HostSearch.HostsIn(RouteConfig.Configuration(Models(o, contexts), secure, enforceHTTPS, suffix)), req.authority), req)
  {
    var models := Models(o, contexts);
    forall h ensures HostSearch.On(models, secure, enforceHTTPS, h) <==> Host(contexts, o, secure, enforceHTTPS, h) {
      HostsAre(contexts, o, secure, enforceHTTPS, h);
    }
    forall h | HostSearch.On(models, secure, enforceHTTPS, h) && HostSearch.Reaches(h, req.authority)
      ensures MatchKey.KeysExact(GatewayServing.Deciding(models, secure, enforceHTTPS, h))
    {
      HostOffered(contexts, o, h, true);
      RoutesOffered(contexts, o, h, true);
      RoutesOffered(contexts, o, h, secure);
    }
    GatewayServing.GatewayAnswers(contexts, o, models, secure, enforceHTTPS, suffix, req);
    var found := HostSearch.Search(HostSearch.HostsIn(RouteConfig.Configuration(models, secure, enforceHTTPS, suffix)), req.authority);
    if found.Some? {
      DueAgrees(contexts, o, secure, enforceHTTPS, suffix, found.value.name, req, HostRouting.Routed(found.value.routes, req));
    }
  }
}
