/** What a match of an HTTPRoute asks of requests, and what its ingested route accepts. */
module HTTPMatching {
  import opened Wrappers
  import opened Model
  import opened Sorting
  import opened RouteMatch
  import opened HTTPIngestion
  import opened RouteOrder
  import Strings

  // ---------- the Gateway API's meaning of a match ----------

  ghost predicate PathHolds(t: Typed, req: Request) {
    match t.kind
    case "Exact" => req.path == t.value
    case "PathPrefix" => ElementPrefix(t.value, req.path)
    case "RegularExpression" => req.fullMatch(t.value, req.path)
    case _ => true
  }

  ghost predicate PairHolds(t: TypedPair, found: Option<string>, req: Request) {
    && found.Some?
    && match t.kind
       case "Exact" => found.value == t.value
       case _ => req.fullMatch(t.value, found.value)
  }

  // All of the match but its method.
  ghost predicate RestHolds(m: HTTPMatch, req: Request) {
    && (m.path.Some? ==> PathHolds(m.path.value, req))
    && (forall t | t in m.headers :: PairHolds(t, req.Header(t.name), req))
    && (forall t | t in m.queryParams :: PairHolds(t, req.query(t.name), req))
  }

  ghost predicate Holds(m: HTTPMatch, req: Request) {
    RestHolds(m, req) && (m.method_.Some? ==> req.verb == m.method_.value)
  }

  // ---------- the matches that the API server admits ----------

  // Paths other than expressions start with a slash.
  ghost predicate PathAdmitted(t: Typed) {
    && t.kind in {"Exact", "PathPrefix", "RegularExpression"} && t.value != ""
    && (t.kind != "RegularExpression" ==> Strings.HasPrefix(t.value, "/"))
  }

  // Names are those of HTTP fields, without a colon, and no list has one twice.
  ghost predicate PairsAdmitted(pairs: seq<TypedPair>) {
    && (forall t | t in pairs :: t.kind in {"Exact", "RegularExpression"} && t.value != "" && ':' !in t.name)
    && (forall i, j | 0 <= i < j < |pairs| :: pairs[i].name != pairs[j].name)
  }

  ghost predicate Admitted(m: HTTPMatch) {
    (m.path.Some? ==> PathAdmitted(m.path.value)) && PairsAdmitted(m.headers) && PairsAdmitted(m.queryParams)
  }

  // ---------- what the ingested route asks ----------

  lemma PathIngested(t: Typed, req: Request)
    requires PathAdmitted(t)
    ensures PathAsked(ToStringMatch(t), req) <==> PathHolds(t, req)
  {
  }

  function KeyValue(t: TypedPair): KeyValueMatch {
    KeyValueMatch(t.name, if t.kind == "Exact" then StringMatch("", t.value, "") else StringMatch("", "", t.value))
  }

  lemma PairsIngested(pairs: seq<TypedPair>)
    requires PairsAdmitted(pairs)
    ensures forall kv :: kv in FlatMap(ToKeyValue, pairs) <==> exists t :: t in pairs && kv == KeyValue(t)
  {
    forall kv ensures kv in FlatMap(ToKeyValue, pairs) <==> exists t :: t in pairs && kv == KeyValue(t) {
      FlatMapMember(ToKeyValue, pairs, kv);
      forall t | t in pairs ensures ToKeyValue(t) == [KeyValue(t)] {}
    }
  }

  lemma PairIngested(t: TypedPair, found: Option<string>, req: Request)
    requires t.kind in {"Exact", "RegularExpression"} && t.value != ""
    ensures (found.Some? && TextAsked(KeyValue(t).value, found.value, req)) <==> PairHolds(t, found, req)
  {
  }

  lemma HeadersIngested(pairs: seq<TypedPair>, req: Request)
    requires PairsAdmitted(pairs)
    ensures (forall kv | kv in FlatMap(ToKeyValue, pairs) :: HeaderAsked(kv, req)) <==> forall t | t in pairs :: PairHolds(t, req.Header(t.name), req)
  {
    PairsIngested(pairs);
    forall t | t in pairs ensures HeaderAsked(KeyValue(t), req) <==> PairHolds(t, req.Header(t.name), req) {
      PairIngested(t, req.Header(t.name), req);
    }
  }

  lemma QueriesIngested(pairs: seq<TypedPair>, req: Request)
    requires PairsAdmitted(pairs)
    ensures (forall kv | kv in FlatMap(ToKeyValue, pairs) :: QueryAsked(kv, req)) <==> forall t | t in pairs :: PairHolds(t, req.query(t.name), req)
  {
    PairsIngested(pairs);
    forall t | t in pairs ensures QueryAsked(KeyValue(t), req) <==> PairHolds(t, req.query(t.name), req) {
      PairIngested(t, req.query(t.name), req);
    }
  }

  // The ingested route asks for what the match asks for, except for the method: whatever method the request has.
  lemma RestIngested(m: HTTPMatch, route: HTTPRoute, req: Request, verb: string)
    requires Admitted(m) && route.verb.None?
    ensures Asked(WithHTTPMatch(route)(m), req) <==> RestHolds(m, req)
    ensures RestHolds(m, req.(verb := verb)) <==> RestHolds(m, req)
  {
    if m.path.Some? {
      PathIngested(m.path.value, req);
    }
    HeadersIngested(m.headers, req);
    QueriesIngested(m.queryParams, req);
    forall t | t in m.headers ensures req.(verb := verb).Header(t.name) == req.Header(t.name) {
      assert ":method"[0] == ':' && ":authority"[0] == ':';
    }
  }

  // ---------- a request that satisfies the rest of a match ----------

  function HasName(name: string): TypedPair -> bool {
    (t: TypedPair) => t.name == name
  }

  function ValueOf(pairs: seq<TypedPair>): string -> Option<string> {
    name => var found := FirstMatch(pairs, HasName(name)); if found.Some? then Some(found.value.value) else None
  }

  lemma {:induction false} ValueFound(pairs: seq<TypedPair>, t: TypedPair)
    requires PairsAdmitted(pairs) && t in pairs
    ensures ValueOf(pairs)(t.name) == Some(t.value)
  {
    if pairs[0] != t {
      var i :| 0 <= i < |pairs| && pairs[i] == t;
      assert pairs[0].name != pairs[i].name && pairs[1..][i - 1] == t;
      ValueFound(pairs[1..], t);
    }
  }

  // Its path and fields are the values of the match, which its expressions accept.
  function Sample(m: HTTPMatch, verb: string): Request {
    Request(verb, "", if m.path.Some? && m.path.value.kind != "RegularExpression" then m.path.value.value else "/",
            ValueOf(m.headers), ValueOf(m.queryParams), (pattern, text) => true)
  }

  lemma TrimmedPrefix(p: string)
    ensures ElementPrefix(p, p)
  {
    var q := Strings.TrimSuffix(p, "/");
    Strings.PartsPrefix(q, p, '/');
    if Strings.HasSuffix(p, "/") {
      assert p == q + "/";
    }
  }

  lemma SampleHolds(m: HTTPMatch, verb: string)
    requires Admitted(m)
    ensures RestHolds(m, Sample(m, verb)) && WellFormed(Sample(m, verb)) && Sample(m, verb).verb == verb
  {
    var req := Sample(m, verb);
    if m.path.Some? {
      TrimmedPrefix(m.path.value.value);
    }
    forall t | t in m.headers ensures PairHolds(t, req.Header(t.name), req) {
      ValueFound(m.headers, t);
      assert ":method"[0] == ':' && ":authority"[0] == ':';
    }
    forall t | t in m.queryParams ensures PairHolds(t, req.query(t.name), req) {
      ValueFound(m.queryParams, t);
    }
  }

  // ---------- the method ----------

  // The ingested route asks only for requests that the match holds of if and only if the match names no method.
  lemma MethodHonouredIff(m: HTTPMatch, route: HTTPRoute)
    requires Admitted(m) && route.verb.None?
    ensures (forall req | WellFormed(req) && Asked(WithHTTPMatch(route)(m), req) :: Holds(m, req)) <==> m.method_.None?
  {
    if m.method_.Some? {
      var req := Sample(m, if m.method_.value == "GET" then "POST" else "GET");
      SampleHolds(m, req.verb);
      RestIngested(m, route, req, req.verb);
      assert WellFormed(req) && Asked(WithHTTPMatch(route)(m), req) && !Holds(m, req);
    } else {
      forall req | WellFormed(req) && Asked(WithHTTPMatch(route)(m), req) ensures Holds(m, req) {
        RestIngested(m, route, req, req.verb);
      }
    }
  }

  // Envoy sends a GET to the backends of a match for POST.
  lemma PostAcceptsGet(req: Request, backends: seq<Backend>)
    requires WellFormed(req) && req.verb == "GET"
    ensures var m := HTTPMatch(Some(Typed("PathPrefix", "/")), [], [], Some("POST"));
      !Holds(m, req) && Accepts(MatchOf(WithHTTPMatch(Bare([], backends))(m), "*", false), req)
  {
    var m := HTTPMatch(Some(Typed("PathPrefix", "/")), [], [], Some("POST"));
    var route := WithHTTPMatch(Bare([], backends))(m);
    assert "POST"[0] != "GET"[0];
    MatchAgrees(route, "*", false, req);
    assert Strings.TrimSuffix("/", "/") == "";
    Strings.PartsPrefix("", req.path, '/');
    assert "" + "/" == "/";
    RestIngested(m, Bare([], backends), req, req.verb);
  }

  // ---------- precedence ----------

  // The route that the match asks for, method and all.
  function Wanted(route: HTTPRoute, m: HTTPMatch): HTTPRoute {
    WithHTTPMatch(route)(m).(verb := m.method_)
  }

  // Two matches that hold of a request are ranked as the Gateway API says if and only if no method counts for nothing and
  // no trailing slash is outweighed.
  lemma PrecedenceFollowedIff(m: HTTPMatch, n: HTTPMatch, a: HTTPRoute, b: HTTPRoute, req: Request)
    requires Admitted(m) && Admitted(n) && a.verb.None? && b.verb.None? && WellFormed(req) && Holds(m, req) && Holds(n, req)
    requires m.path.Some? ==> m.path.value.kind != "RegularExpression"
    requires n.path.Some? ==> n.path.value.kind != "RegularExpression"
    ensures var (x, y) := (WithHTTPMatch(a)(m), WithHTTPMatch(b)(n));
      var (p, q) := (Wanted(a, m), Wanted(b, n));
      (Outranks(x, y) == GatewayOutranks(p, q) && Outranks(y, x) == GatewayOutranks(q, p))
      <==> !MethodLost(p, q) && !MethodLost(q, p) && !SlashOutweighed(x, y) && !SlashOutweighed(y, x)
  {
    RestIngested(m, a, req, req.verb);
    RestIngested(n, b, req, req.verb);
    assert RouteOrder.Methodless(Wanted(a, m)) == WithHTTPMatch(a)(m) && RouteOrder.Methodless(Wanted(b, n)) == WithHTTPMatch(b)(n);
    FollowsWithoutMethodIff(Wanted(a, m), Wanted(b, n), req);
  }

  const POST_MATCH := HTTPMatch(None, [], [], Some("POST"))
  const HEADER_MATCH := HTTPMatch(None, [TypedPair("Exact", "x", "1")], [], None)

  // One header outranks a method, for a request that both matches hold of.
  lemma HeaderOutranksMethod(a: HTTPRoute, b: HTTPRoute)
    requires a.verb.None? && b.verb.None?
    ensures GatewayOutranks(Wanted(a, POST_MATCH), Wanted(b, HEADER_MATCH))
    ensures Outranks(WithHTTPMatch(b)(HEADER_MATCH), WithHTTPMatch(a)(POST_MATCH))
    ensures exists req :: WellFormed(req) && Holds(POST_MATCH, req) && Holds(HEADER_MATCH, req)
  {
    var t := TypedPair("Exact", "x", "1");
    assert [t][..0] == [] && ToKeyValue(t) == [KeyValue(t)] && FlatMap(ToKeyValue, [t]) == [KeyValue(t)];
    var req := Sample(HEADER_MATCH, "POST");
    SampleHolds(HEADER_MATCH, "POST");
    assert Holds(POST_MATCH, req) && Holds(HEADER_MATCH, req);
  }
}
