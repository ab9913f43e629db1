/** What a request gets, down to weights, ports and timeouts, in terms of the routes that ask for it. */
module RouteActions {
  import opened Wrappers
  import opened Model
  import opened Sorting
  import opened RouteMatch
  import opened RouteOrder
  import opened VirtualHost
  import opened HostRouting

  // ---------- the meaning of an action ----------

  function BackendsOf(r: HTTPRoute): seq<Backend> { r.backends }

  // Weights are signed numbers in the objects and unsigned ones in Envoy.
  function Wanted(b: Backend): nat {
    if b.weight.None? then 1 else if b.weight.value >= 0 then b.weight.value else b.weight.value + 0x1_0000_0000
  }

  // What a cluster is given, over all entries of its name.
  function Given(clusters: seq<ClusterWeight>, c: string): nat {
    if clusters == [] then 0 else Given(clusters[1..], c) + if clusters[0].name == c then clusters[0].weight else 0
  }

  // And what the backends of its name ask for.
  function AskedFor(backends: seq<Backend>, c: string): nat {
    if backends == [] then 0 else AskedFor(backends[1..], c) + if ClusterName(backends[0]) == c then Wanted(backends[0]) else 0
  }

  // One backend takes all; several have one entry each, in order, with their weights.
  ghost predicate Splits(target: Target, backends: seq<Backend>) {
    if |backends| == 1 then target == Cluster(ClusterName(backends[0]))
    else
      && target.WeightedClusters? && |target.clusters| == |backends|
      && (forall i | 0 <= i < |backends| :: target.clusters[i].name == ClusterName(backends[i]) && target.clusters[i].weight == Wanted(backends[i]))
      && (forall c :: Given(target.clusters, c) == AskedFor(backends, c))
  }

  // The least of the timeouts that are set, if any is.
  ghost predicate Least(timeout: Option<int>, t: Timeout) {
    && (timeout.None? <==> t.request.None? && t.backend.None?)
    && (timeout.Some? ==> timeout == t.request || timeout == t.backend)
    && (timeout.Some? && t.request.Some? ==> timeout.value <= t.request.value)
    && (timeout.Some? && t.backend.Some? ==> timeout.value <= t.backend.value)
  }

  function MirrorCluster(m: RequestMirror): seq<string> {
    if m.backend.Some? then [ClusterName(m.backend.value)] else []
  }

  // The port of a redirect: the one given, else that of the scheme, else the listener's.
  ghost predicate RedirectsTo(action: RedirectAction, f: RedirectFilter, listenerPort: nat) {
    && action.scheme == f.scheme && action.host == f.hostname && action.statusCode == f.statusCode && action.path == f.path
    && (f.port.Some? && 0 <= f.port.value < 0x1_0000 ==> action.port == f.port.value)
    && (f.port.None? && f.scheme.None? ==> action.port == listenerPort)
    && (f.port.None? && f.scheme == Some("https") ==> action.port == 443)
    && (f.port.None? && f.scheme == Some("http") ==> action.port == 80)
    && (f.port.None? && f.scheme.Some? && f.scheme.value !in ["http", "https"] ==> action.port == 0)
  }

  // The routes of one match answer with the redirect of the first, else with the backends of all, else with the direct
  // response of the first.
  ghost predicate Serves(action: Action, group: seq<HTTPRoute>, listenerPort: nat)
    requires group != []
  {
    var head, backends := group[0], FlatMap(BackendsOf, group);
    if head.requestRedirect.Some? then action.Redirect? && RedirectsTo(action.redirect, head.requestRedirect.value, listenerPort)
    else if backends != [] then
      && action.Forward? && Splits(action.target, backends)
      && action.rewrite == head.rewrite && action.mirrors == FlatMap(MirrorCluster, head.requestMirrors)
      && Least(action.timeout, head.timeout)
    else
      && head.directResponse.Some?
      && action == Respond(head.directResponse.value.statusCode, head.directResponse.value.body)
  }

  // ---------- the code's actions have it ----------

  lemma {:induction false} WeightsGiven(clusters: seq<ClusterWeight>, backends: seq<Backend>, c: string)
    requires |clusters| == |backends|
    requires forall i | 0 <= i < |backends| :: clusters[i].name == ClusterName(backends[i]) && clusters[i].weight == Wanted(backends[i])
    ensures Given(clusters, c) == AskedFor(backends, c)
  {
    if backends != [] {
      assert forall i | 0 <= i < |backends[1..]| :: clusters[1..][i] == clusters[i + 1] && backends[1..][i] == backends[i + 1];
      WeightsGiven(clusters[1..], backends[1..], c);
    }
  }

  lemma WeightWanted(b: Backend)
    ensures WeightOf(b) == ClusterWeight(ClusterName(b), Wanted(b))
  {
  }

  lemma TargetSplits(r: HTTPRoute, backends: seq<Backend>)
    ensures Splits(RouteAction(r, backends).target, backends)
  {
    if |backends| != 1 {
      var clusters := Map(WeightOf, backends);
      forall i | 0 <= i < |backends| ensures clusters[i].name == ClusterName(backends[i]) && clusters[i].weight == Wanted(backends[i]) {
        WeightWanted(backends[i]);
      }
      forall c ensures Given(clusters, c) == AskedFor(backends, c) {
        WeightsGiven(clusters, backends, c);
      }
    }
  }

  lemma {:induction false} FlatMapFront<T, U>(f: T -> seq<U>, s: seq<T>)
    requires s != []
    ensures FlatMap(f, s) == f(s[0]) + FlatMap(f, s[1..])
  {
    assert s == [s[0]] + s[1..];
    FlatMapConcat(f, [s[0]], s[1..]);
    assert [s[0]][..0] == [] && FlatMap(f, [s[0]]) == f(s[0]);
  }

  lemma {:induction false} BackendsInOrder(group: seq<HTTPRoute>)
    ensures AllBackends(group) == FlatMap(BackendsOf, group)
  {
    if group != [] {
      BackendsInOrder(group[1..]);
      FlatMapFront(BackendsOf, group);
    }
  }

  lemma {:induction false} MirrorsInOrder(mirrors: seq<RequestMirror>)
    ensures MirrorClusters(mirrors) == FlatMap(MirrorCluster, mirrors)
  {
    if mirrors != [] {
      MirrorsInOrder(mirrors[1..]);
      FlatMapFront(MirrorCluster, mirrors);
    }
  }

  lemma GroupServes(group: seq<HTTPRoute>, listenerPort: nat)
    requires group != [] && Answerable(group[0])
    ensures var action := GroupAction(group, listenerPort); action.Some? && Serves(action.value, group, listenerPort)
  {
    var head, backends := group[0], FlatMap(BackendsOf, group);
    AnswerableGroup(group, listenerPort);
    BackendsInOrder(group);
    MirrorsInOrder(head.requestMirrors);
    TargetSplits(head, backends);
  }

  // ---------- what a request gets ----------

  // Of the routes that ask for the request, none outranks this one, and it outranks those before it.
  ghost predicate Wins(asked: seq<HTTPRoute>, k: nat) {
    && k < |asked| && (forall r | r in asked :: !Outranks(r, asked[k])) && (forall j | 0 <= j < k :: Outranks(asked[k], asked[j]))
  }

  // Nothing if no route asks for the request; else what the routes with the match of the winning one serve.
  ghost predicate Answer(routes: seq<HTTPRoute>, req: Request, listenerPort: nat, answer: Option<Action>) {
    var asked := Filter(routes, AskedBy(req));
    if asked == [] then answer.None?
    else answer.Some? && exists k: nat :: Wins(asked, k) && WinnerServes(routes, asked[k], listenerPort, answer.value)
  }

  ghost predicate WinnerServes(routes: seq<HTTPRoute>, r: HTTPRoute, listenerPort: nat, action: Action) {
    Group(routes, r) != [] && Serves(action, Group(routes, r), listenerPort)
  }

  lemma BestIsWinner(asked: seq<HTTPRoute>) returns (k: nat)
    requires asked != []
    ensures Wins(asked, k) && asked[k] == Best(asked, Outranks)
  {
    OutranksIsStrictWeak();
    k := BestWins(asked, Outranks);
  }

  lemma ExpectedServes(routes: seq<HTTPRoute>, req: Request, listenerPort: nat)
    requires forall r | r in routes :: Answerable(r)
    ensures Answer(routes, req, listenerPort, Expected(routes, req, listenerPort))
  {
    var asked := Filter(routes, AskedBy(req));
    if asked != [] {
      var k := BestIsWinner(asked);
      FilterMember(routes, AskedBy(req));
      assert asked[k] in asked;
      GroupHead(routes, asked[k]);
      GroupServes(Group(routes, asked[k]), listenerPort);
    }
  }
}
