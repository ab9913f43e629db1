/** What the exchange of header and query matchers in HTTPS redirects means for the matches of HTTPRoutes. */
module HTTPRedirects {
  import opened Wrappers
  import opened Model
  import opened Sorting
  import opened RouteMatch
  import opened HTTPIngestion
  import opened HTTPMatching
  import Redirects

  // The match that the redirect of a match amounts to.
  function Exchanged(m: HTTPMatch): HTTPMatch {
    m.(headers := m.queryParams, queryParams := m.headers)
  }

  lemma RedirectAsks(m: HTTPMatch, route: HTTPRoute, req: Request)
    requires Admitted(m) && route.verb.None?
    ensures Asked(Redirects.Swapped(WithHTTPMatch(route)(m)), req) <==> RestHolds(Exchanged(m), req)
  {
    RestIngested(Exchanged(m), route, req, req.verb);
    assert Redirects.Swapped(WithHTTPMatch(route)(m)) == WithHTTPMatch(route)(Exchanged(m));
  }

  // ---------- a request that tells matchers apart ----------

  function LongestValue(pairs: seq<TypedPair>): nat {
    if pairs == [] then 0
    else
      var rest := LongestValue(pairs[1..]);
      if |pairs[0].value| > rest then |pairs[0].value| else rest
  }

  lemma {:induction false} ValuesShorter(pairs: seq<TypedPair>)
    ensures forall t | t in pairs :: |t.value| <= LongestValue(pairs)
  {
    if pairs != [] {
      ValuesShorter(pairs[1..]);
      assert pairs == [pairs[0]] + pairs[1..];
    }
  }

  function Mark(n: nat): string {
    seq(n + 1, _ => '~')
  }

  // A text that only this kind and value accepts: an exact value itself, an expression behind a long mark.
  function Text(n: nat, t: TypedPair): string {
    if t.kind == "Exact" then t.value else Mark(n) + t.value
  }

  function TextOf(n: nat, pairs: seq<TypedPair>): string -> Option<string> {
    name => var found := FirstMatch(pairs, HasName(name)); if found.Some? then Some(Text(n, found.value)) else None
  }

  function LongPath(n: nat): string {
    "/" + Mark(n)
  }

  function Accepting(n: nat): (string, string) -> bool {
    (pattern, text) => text == LongPath(n) || text == Mark(n) + pattern
  }

  function Telling(n: nat, m: HTTPMatch): Request {
    Request("GET", "", if m.path.Some? && m.path.value.kind != "RegularExpression" then m.path.value.value else LongPath(n),
            TextOf(n, m.headers), TextOf(n, m.queryParams), Accepting(n))
  }

  lemma {:induction false} TextFound(n: nat, pairs: seq<TypedPair>, t: TypedPair)
    requires PairsAdmitted(pairs) && t in pairs
    ensures TextOf(n, pairs)(t.name) == Some(Text(n, t))
  {
    if pairs[0] != t {
      var i :| 0 <= i < |pairs| && pairs[i] == t;
      assert pairs[0].name != pairs[i].name && pairs[1..][i - 1] == t;
      TextFound(n, pairs[1..], t);
    }
  }

  lemma {:induction false} TextOrigin(n: nat, pairs: seq<TypedPair>, name: string)
    requires TextOf(n, pairs)(name).Some?
    ensures exists t :: t in pairs && t.name == name && TextOf(n, pairs)(name) == Some(Text(n, t))
  {
    if pairs[0].name == name {
      assert pairs[0] in pairs;
    } else {
      TextOrigin(n, pairs[1..], name);
    }
  }

  // A pair accepts the text of another pair of its name only if they are the same.
  lemma TextsApart(n: nat, t: TypedPair, u: TypedPair, req: Request)
    requires t.kind in {"Exact", "RegularExpression"} && u.kind in {"Exact", "RegularExpression"} && t.name == u.name
    requires |t.value| <= n && |u.value| <= n && req.fullMatch == Accepting(n)
    ensures PairHolds(t, Some(Text(n, u)), req) <==> t == u
  {
    var mark := Mark(n);
    assert |mark| == n + 1 && mark[0] == '~' && LongPath(n)[0] == '/';
    assert (mark + t.value)[n + 1..] == t.value && (mark + u.value)[n + 1..] == u.value;
    assert u.kind != "Exact" ==> Text(n, u)[0] == '~';
  }

  lemma TellingHolds(n: nat, m: HTTPMatch)
    requires Admitted(m) && LongestValue(m.headers) <= n && LongestValue(m.queryParams) <= n
    ensures RestHolds(m, Telling(n, m)) && WellFormed(Telling(n, m))
  {
    var req := Telling(n, m);
    ValuesShorter(m.headers);
    ValuesShorter(m.queryParams);
    if m.path.Some? {
      TrimmedPrefix(m.path.value.value);
    }
    forall t | t in m.headers ensures PairHolds(t, req.Header(t.name), req) {
      TextFound(n, m.headers, t);
      TextsApart(n, t, t, req);
      assert ":method"[0] == ':' && ":authority"[0] == ':';
    }
    forall t | t in m.queryParams ensures PairHolds(t, req.query(t.name), req) {
      TextFound(n, m.queryParams, t);
      TextsApart(n, t, t, req);
    }
  }

  // Where the telling request meets the exchanged match, the two lists have the same matchers.
  lemma TellingExchanged(n: nat, m: HTTPMatch)
    requires Admitted(m) && LongestValue(m.headers) <= n && LongestValue(m.queryParams) <= n
    requires RestHolds(Exchanged(m), Telling(n, m))
    ensures forall t :: t in m.headers <==> t in m.queryParams
  {
    var req := Telling(n, m);
    ValuesShorter(m.headers);
    ValuesShorter(m.queryParams);
    forall t | t in m.headers ensures t in m.queryParams {
      assert t in Exchanged(m).queryParams && PairHolds(t, req.query(t.name), req);
      TextOrigin(n, m.queryParams, t.name);
      var u :| u in m.queryParams && u.name == t.name && req.query(t.name) == Some(Text(n, u));
      TextsApart(n, t, u, req);
    }
    forall t | t in m.queryParams ensures t in m.headers {
      assert t in Exchanged(m).headers && PairHolds(t, req.Header(t.name), req);
      assert ":method"[0] == ':' && ":authority"[0] == ':';
      TextOrigin(n, m.headers, t.name);
      var u :| u in m.headers && u.name == t.name && req.Header(t.name) == Some(Text(n, u));
      TextsApart(n, t, u, req);
    }
  }

  // ---------- when the exchange does no harm ----------

  lemma SameRest(m: HTTPMatch, req: Request)
    requires Admitted(m) && forall t :: t in m.headers <==> t in m.queryParams
    ensures RestHolds(m, req) <==> RestHolds(Exchanged(m), req)
  {
  }

  // The redirect of a match asks for just the requests that its route asks for if and only if its headers and its query
  // parameters are the same matchers; in particular if there are none.
  lemma RedirectHonouredIff(m: HTTPMatch, route: HTTPRoute)
    requires Admitted(m) && route.verb.None?
    ensures var r := WithHTTPMatch(route)(m);
      (forall req | WellFormed(req) :: Asked(Redirects.Swapped(r), req) <==> Asked(r, req))
      <==> forall t :: t in m.headers <==> t in m.queryParams
  {
    var r := WithHTTPMatch(route)(m);
    forall req ensures Asked(r, req) <==> RestHolds(m, req) {
      RestIngested(m, route, req, req.verb);
    }
    forall req ensures Asked(Redirects.Swapped(r), req) <==> RestHolds(Exchanged(m), req) {
      RedirectAsks(m, route, req);
    }
    if forall req | WellFormed(req) :: Asked(Redirects.Swapped(r), req) <==> Asked(r, req) {
      var n := LongestValue(m.headers) + LongestValue(m.queryParams);
      TellingHolds(n, m);
      assert Asked(Redirects.Swapped(r), Telling(n, m));
      TellingExchanged(n, m);
    }
    if forall t :: t in m.headers <==> t in m.queryParams {
      forall req ensures RestHolds(m, req) <==> RestHolds(Exchanged(m), req) {
        SameRest(m, req);
      }
    }
  }
}
