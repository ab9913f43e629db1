/** What a match of a GRPCRoute asks of calls, and what its ingested route accepts. */
module GRPCMatching {
  import opened Wrappers
  import opened Model
  import opened Sorting
  import opened RouteMatch
  import opened HTTPIngestion
  import opened HTTPMatching
  import Strings

  // A name of a service or method.
  predicate CallName(s: string) {
    s != "" && '/' !in s
  }

  function CallPath(service: string, method_: string): string {
    "/" + service + "/" + method_
  }

  // The request is a call of the method.
  ghost predicate Calls(req: Request, service: string, method_: string) {
    CallName(service) && CallName(method_) && req.path == CallPath(service, method_)
  }

  ghost predicate IsCall(req: Request) {
    exists service, method_ :: Calls(req, service, method_)
  }

  lemma CallUnique(s: string, t: string, x: string, y: string)
    requires CallName(s) && CallName(t) && CallName(x) && CallName(y) && CallPath(s, t) == CallPath(x, y)
    ensures s == x && t == y
  {
    assert CallPath(s, t)[1..] == s + ['/'] + t && CallPath(x, y)[1..] == x + ['/'] + y;
    Strings.CutUnique(s, t, x, y, '/');
  }

  // ---------- the meaning of a match ----------

  // By name, for the parts that are given.
  ghost predicate MethodHolds(m: GRPCMethod, req: Request) {
    exists service, method_ :: Calls(req, service, method_)
      && (m.service.Some? ==> m.service.value == service) && (m.method_.Some? ==> m.method_.value == method_)
  }

  ghost predicate HeadersHold(m: GRPCMatch, req: Request) {
    forall t | t in m.headers :: PairHolds(t, req.Header(t.name), req)
  }

  ghost predicate CallHolds(m: GRPCMatch, req: Request) {
    (m.method_.Some? ==> MethodHolds(m.method_.value, req)) && HeadersHold(m, req)
  }

  ghost predicate Admitted(m: GRPCMatch) {
    PairsAdmitted(m.headers) && (m.method_.Some? ==> m.method_.value.kind in {"Exact", "RegularExpression"})
  }

  // Names that the API server admits, not expressions.
  ghost predicate ByName(m: GRPCMatch) {
    m.method_.Some? ==>
      && m.method_.value.kind == "Exact"
      && (m.method_.value.service.Some? ==> CallName(m.method_.value.service.value))
      && (m.method_.value.method_.Some? ==> CallName(m.method_.value.method_.value))
  }

  // ---------- what the ingested route asks ----------

  // The path it asks for: any without a service, that of the method, or the service's name alone.
  ghost predicate PathWanted(m: GRPCMatch, req: Request) {
    m.method_.Some? && m.method_.value.service.Some? ==>
      var text := "/" + m.method_.value.service.value + if m.method_.value.method_.Some? then "/" + m.method_.value.method_.value else "";
      if m.method_.value.kind == "Exact" then req.path == text else req.fullMatch(text, req.path)
  }

  lemma CallIngested(m: GRPCMatch, route: HTTPRoute, req: Request)
    requires Admitted(m) && route.verb.None? && route.queryParamsMatch == []
    ensures Asked(WithGRPCMatch(route)(m), req) <==> PathWanted(m, req) && HeadersHold(m, req)
  {
    HeadersIngested(m.headers, req);
  }

  // Matches that give both names, or none.
  predicate Whole(m: GRPCMatch) {
    m.method_.None? || (m.method_.value.service.Some? == m.method_.value.method_.Some?)
  }

  lemma WholeHonoured(m: GRPCMatch, route: HTTPRoute, req: Request)
    requires Admitted(m) && ByName(m) && route.verb.None? && route.queryParamsMatch == [] && Whole(m) && IsCall(req)
    ensures Asked(WithGRPCMatch(route)(m), req) <==> CallHolds(m, req)
  {
    CallIngested(m, route, req);
    if m.method_.Some? && m.method_.value.service.Some? {
      var s, t := m.method_.value.service.value, m.method_.value.method_.value;
      assert "/" + s + ("/" + t) == CallPath(s, t);
      if req.path == CallPath(s, t) {
        assert Calls(req, s, t);
      }
    }
  }

  // ---------- one name missing ----------

  // A call of the method, with the headers of the match.
  function SampleCall(m: GRPCMatch, service: string, method_: string): Request {
    Sample(HTTPMatch(Some(Typed("Exact", CallPath(service, method_))), m.headers, [], None), "POST")
  }

  lemma SampleCalls(m: GRPCMatch, service: string, method_: string)
    requires Admitted(m) && ByName(m) && CallName(service) && CallName(method_)
    ensures Calls(SampleCall(m, service, method_), service, method_) && HeadersHold(m, SampleCall(m, service, method_))
  {
    var h := HTTPMatch(Some(Typed("Exact", CallPath(service, method_))), m.headers, [], None);
    assert CallPath(service, method_)[..1] == "/";
    SampleHolds(h, "POST");
  }

  // A match by service alone asks for none of the service's calls.
  lemma ServiceLost(m: GRPCMatch, route: HTTPRoute, req: Request)
    requires Admitted(m) && ByName(m) && route.verb.None? && route.queryParamsMatch == [] && IsCall(req)
    requires m.method_.Some? && m.method_.value.service.Some? && m.method_.value.method_.None?
    ensures !Asked(WithGRPCMatch(route)(m), req)
  {
    CallIngested(m, route, req);
    var s, t :| Calls(req, s, t);
    var service := m.method_.value.service.value;
    assert req.path[1..] == s + "/" + t && ("/" + service + "")[1..] == service;
    assert (s + "/" + t)[|s|] == '/' && '/' in s + "/" + t;
  }

  // A match by method alone asks for the calls of every method.
  lemma MethodIgnored(m: GRPCMatch, route: HTTPRoute, req: Request)
    requires Admitted(m) && ByName(m) && route.verb.None? && route.queryParamsMatch == []
    requires m.method_.Some? && m.method_.value.service.None?
    ensures Asked(WithGRPCMatch(route)(m), req) <==> HeadersHold(m, req)
  {
    CallIngested(m, route, req);
  }

  // The ingested route asks for just the calls that the match holds of if and only if it gives both names, or none.
  lemma CallHonouredIff(m: GRPCMatch, route: HTTPRoute)
    requires Admitted(m) && ByName(m) && route.verb.None? && route.queryParamsMatch == []
    ensures (forall req | IsCall(req) :: Asked(WithGRPCMatch(route)(m), req) <==> CallHolds(m, req)) <==> Whole(m)
  {
    if Whole(m) {
      forall req | IsCall(req) ensures Asked(WithGRPCMatch(route)(m), req) <==> CallHolds(m, req) {
        WholeHonoured(m, route, req);
      }
    } else if m.method_.value.service.Some? {
      var service := m.method_.value.service.value;
      var req := SampleCall(m, service, "x");
      SampleCalls(m, service, "x");
      ServiceLost(m, route, req);
      assert CallHolds(m, req);
    } else {
      var method_ := m.method_.value.method_.value;
      var other := method_ + "x";
      var req := SampleCall(m, "x", other);
      SampleCalls(m, "x", other);
      MethodIgnored(m, route, req);
      OtherMethod(m.method_.value, req, other);
    }
  }

  lemma OtherMethod(m: GRPCMethod, req: Request, other: string)
    requires m.method_.Some? && m.method_.value != other && Calls(req, "x", other)
    ensures !MethodHolds(m, req)
  {
    forall s, t | Calls(req, s, t) ensures t == other {
      CallUnique(s, t, "x", other);
    }
  }
}
