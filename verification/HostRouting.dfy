/** A virtual host routes every request as the model says: to the merged group of the best matching route. */
module HostRouting {
  import opened Wrappers
  import opened Model
  import opened Sorting
  import opened RouteMatch
  import opened RouteOrder
  import opened Merging
  import opened VirtualHost
  import MatchKey

  // ---------- the specification, in terms of model routes only ----------

  ghost function AskedBy(req: Request): HTTPRoute -> bool {
    r => Asked(r, req)
  }

  ghost function SameAs(r: HTTPRoute): HTTPRoute -> bool {
    x => MatchKey.SameMatch(x, r)
  }

  // All routes with the match of r, in the order of the list. A method is part of the match as it is written.
  ghost function Group(routes: seq<HTTPRoute>, r: HTTPRoute): seq<HTTPRoute> {
    Filter(routes, SameAs(r))
  }

  // Of the routes that ask for the request, the best one by rank; it is served with its whole group.
  ghost function Expected(routes: seq<HTTPRoute>, req: Request, listenerPort: nat): Option<Action> {
    var asked := Filter(routes, AskedBy(req));
    if asked == [] then None else GroupAction(Group(routes, Best(asked, Outranks)), listenerPort)
  }

  // ---------- what Envoy does ----------

  ghost function AcceptedBy(req: Request): Route -> bool {
    (route: Route) => Accepts(route.condition, req)
  }

  ghost function Routed(routes: seq<Route>, req: Request): Option<Action> {
    var hit := FirstMatch(routes, AcceptedBy(req));
    if hit.None? then None else Some(hit.value.action)
  }

  // ---------- agreement ----------

  // Matches are of one kind, different matches have different keys, and every route can be answered.
  ghost predicate Servable(routes: seq<HTTPRoute>) {
    MatchKey.KeysExact(routes) && forall r | r in routes :: MatchKey.OneKind(r) && Answerable(r)
  }

  lemma {:induction false} WithKeyIsFilter<T(!new), K(!new)>(s: seq<T>, key: T -> K, k: K, keep: T -> bool)
    requires forall x | x in s :: (key(x) == k) == keep(x)
    ensures WithKey(s, key, k) == Filter(s, keep)
  {
    if s != [] {
      var front, last := s[..|s| - 1], s[|s| - 1];
      assert s == front + [last] && last in s;
      WithKeyIsFilter(front, key, k, keep);
      FilterSnoc(front, last, keep);
    }
  }

  lemma GroupByKey(routes: seq<HTTPRoute>, r: HTTPRoute)
    requires MatchKey.KeysExact(routes) && r in routes
    ensures WithKey(routes, MatchKey.Key, MatchKey.Key(r)) == Group(routes, r)
  {
    forall x | x in routes ensures (MatchKey.Key(x) == MatchKey.Key(r)) == SameAs(r)(x) {
      if MatchKey.SameMatch(x, r) {
        MatchKey.KeyCanonical(x, r);
      }
    }
    WithKeyIsFilter(routes, MatchKey.Key, MatchKey.Key(r), SameAs(r));
  }

  lemma SameMatchAskedAlike(a: HTTPRoute, b: HTTPRoute, req: Request)
    requires MatchKey.SameMatch(a, b)
    ensures Asked(a, req) <==> Asked(b, req)
  {
    assert forall kv :: kv in a.headersMatch <==> kv in multiset(a.headersMatch);
    assert forall kv :: kv in b.headersMatch <==> kv in multiset(b.headersMatch);
    assert forall kv :: kv in a.queryParamsMatch <==> kv in multiset(a.queryParamsMatch);
    assert forall kv :: kv in b.queryParamsMatch <==> kv in multiset(b.queryParamsMatch);
  }

  lemma SameMatchRankedAlike(a: HTTPRoute, b: HTTPRoute)
    requires MatchKey.SameMatch(a, b)
    ensures a.pathMatch == b.pathMatch && HeaderRank(a) == HeaderRank(b) && |a.queryParamsMatch| == |b.queryParamsMatch|
  {
    assert |multiset(a.headersMatch)| == |multiset(b.headersMatch)|;
    assert |multiset(a.queryParamsMatch)| == |multiset(b.queryParamsMatch)|;
  }

  ghost function PresentEmitter(host: string, suffix: bool, listenerPort: nat): seq<HTTPRoute> -> Route {
    group => Present(RouteEmitter(host, suffix, listenerPort)(group))
  }

  lemma GroupHead(routes: seq<HTTPRoute>, r: HTTPRoute)
    requires r in routes
    ensures Group(routes, r) != [] && Group(routes, r)[0] in routes && MatchKey.SameMatch(Group(routes, r)[0], r)
  {
    FilterMember(routes, SameAs(r));
    assert SameAs(r)(r) && r in Group(routes, r);
    assert Group(routes, r)[0] in Group(routes, r);
    assert SameAs(r)(Group(routes, r)[0]);
  }

  lemma EmittedEntry(group: seq<HTTPRoute>, host: string, suffix: bool, listenerPort: nat)
    requires group != [] && Answerable(group[0])
    ensures var entry := PresentEmitter(host, suffix, listenerPort)(group);
      entry.condition == MatchOf(group[0], host, suffix) && Some(entry.action) == GroupAction(group, listenerPort)
  {
    AnswerableGroup(group, listenerPort);
    var route := RouteEmitter(host, suffix, listenerPort)(group);
    assert route == GroupRoute(group, host, suffix, listenerPort);
    assert PresentEmitter(host, suffix, listenerPort)(group) == Present(route);
  }

  // The entry of a route accepts and ranks as the route does.
  lemma EntryOf(routes: seq<HTTPRoute>, r: HTTPRoute, host: string, suffix: bool, listenerPort: nat) returns (head: HTTPRoute)
    requires Servable(routes) && r in routes
    ensures head in routes && MatchKey.SameMatch(head, r)
    ensures var entry := EntryAt(routes, MatchKey.Key, PresentEmitter(host, suffix, listenerPort), r);
      && entry.condition == MatchOf(head, host, suffix)
      && Some(entry.action) == GroupAction(Group(routes, r), listenerPort)
  {
    GroupByKey(routes, r);
    GroupHead(routes, r);
    head := Group(routes, r)[0];
    EmittedEntry(Group(routes, r), host, suffix, listenerPort);
  }

  lemma EntriesAreFaithful(routes: seq<HTTPRoute>, host: string, suffix: bool, listenerPort: nat, req: Request)
    requires Servable(routes)
    requires WellFormed(req) && AuthorityAccepted(host, suffix, req)
    ensures Faithful(routes, MatchKey.Key, PresentEmitter(host, suffix, listenerPort),
                     AcceptedBy(req), AskedBy(req), RouteLess, Outranks)
  {
    var emit := PresentEmitter(host, suffix, listenerPort);
    forall x | x in routes ensures AcceptedBy(req)(EntryAt(routes, MatchKey.Key, emit, x)) == AskedBy(req)(x) {
      EntryAccepts(routes, x, host, suffix, listenerPort, req);
    }
    forall x, y | x in routes && y in routes
      ensures RouteLess(EntryAt(routes, MatchKey.Key, emit, x), EntryAt(routes, MatchKey.Key, emit, y)) == Outranks(x, y)
    {
      EntriesRank(routes, x, y, host, suffix, listenerPort);
    }
  }

  lemma EntryAccepts(routes: seq<HTTPRoute>, x: HTTPRoute, host: string, suffix: bool, listenerPort: nat, req: Request)
    requires Servable(routes) && x in routes
    requires WellFormed(req) && AuthorityAccepted(host, suffix, req)
    ensures AcceptedBy(req)(EntryAt(routes, MatchKey.Key, PresentEmitter(host, suffix, listenerPort), x)) == AskedBy(req)(x)
  {
    var head := EntryOf(routes, x, host, suffix, listenerPort);
    MatchAgrees(head, host, suffix, req);
    SameMatchAskedAlike(head, x, req);
  }

  lemma EntriesRank(routes: seq<HTTPRoute>, x: HTTPRoute, y: HTTPRoute, host: string, suffix: bool, listenerPort: nat)
    requires Servable(routes) && x in routes && y in routes
    ensures var emit := PresentEmitter(host, suffix, listenerPort);
      RouteLess(EntryAt(routes, MatchKey.Key, emit, x), EntryAt(routes, MatchKey.Key, emit, y)) == Outranks(x, y)
  {
    var hx := EntryOf(routes, x, host, suffix, listenerPort);
    var hy := EntryOf(routes, y, host, suffix, listenerPort);
    OrderAgrees(hx, hy, host, suffix);
    SameMatchRankedAlike(hx, x);
    SameMatchRankedAlike(hy, y);
  }

  lemma RouteLessIsStrictWeak()
    ensures StrictWeakOrder(RouteLess)
  {
    LessIsStrictWeak();
  }

  // Whatever the routes and the request, merging, emitting and sorting give the answer the model asks for.
  lemma HostRoutesAsExpected(routes: seq<HTTPRoute>, host: string, suffix: bool, listenerPort: nat, req: Request)
    requires Servable(routes)
    requires WellFormed(req) && AuthorityAccepted(host, suffix, req)
    ensures Routed(HostRoutes(routes, host, suffix, listenerPort), req) == Expected(routes, req, listenerPort)
  {
    var emit := PresentEmitter(host, suffix, listenerPort);
    MapEmitted(routes, MatchKey.Key, Backendless, RouteEmitter(host, suffix, listenerPort), Present, emit, |routes|);
    RouteLessIsStrictWeak();
    OutranksIsStrictWeak();
    EntriesAreFaithful(routes, host, suffix, listenerPort, req);
    FirstMatchOfMerged(routes, MatchKey.Key, Backendless, emit, AcceptedBy(req), AskedBy(req), RouteLess, Outranks);
    var asked := Filter(routes, AskedBy(req));
    if asked != [] {
      BestIsElement(asked, Outranks);
      FilterMember(routes, AskedBy(req));
      var head := EntryOf(routes, Best(asked, Outranks), host, suffix, listenerPort);
    }
  }

  // ---------- what the rank means for paths ----------

  // An exact path always wins.
  lemma ExactPathWins(routes: seq<HTTPRoute>, req: Request, r: HTTPRoute)
    requires forall x | x in routes :: MatchKey.SingleKind(x.pathMatch)
    requires r in routes && Asked(r, req) && r.pathMatch.exact != ""
    ensures var asked := Filter(routes, AskedBy(req));
      asked != [] && Best(asked, Outranks).pathMatch.exact == req.path
  {
    var asked := Filter(routes, AskedBy(req));
    FilterMember(routes, AskedBy(req));
    assert AskedBy(req)(r) && r in asked;
    OutranksIsStrictWeak();
    BestUnbeaten(asked, r, Outranks);
    assert AskedBy(req)(Best(asked, Outranks));
  }

  // If neither an exact path nor a regular expression matches, no matching prefix is longer than the winner's.
  lemma LongestPrefixWins(routes: seq<HTTPRoute>, req: Request, r: HTTPRoute)
    requires forall x | x in routes && Asked(x, req) :: x.pathMatch.exact == "" && x.pathMatch.regex == ""
    requires r in routes && Asked(r, req)
    ensures var asked := Filter(routes, AskedBy(req));
      asked != [] && PrefixRank(Best(asked, Outranks).pathMatch) >= PrefixRank(r.pathMatch)
  {
    var asked := Filter(routes, AskedBy(req));
    FilterMember(routes, AskedBy(req));
    assert AskedBy(req)(r) && r in asked;
    OutranksIsStrictWeak();
    BestUnbeaten(asked, r, Outranks);
    assert AskedBy(req)(Best(asked, Outranks));
  }
}
