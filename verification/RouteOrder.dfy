/** The order in which a virtual host's routes are tried, and how it relates to the Gateway API precedence rule. */
module RouteOrder {
  import opened Wrappers
  import opened Model
  import opened Sorting
  import opened RouteMatch
  import Strings
  import MatchKey

  function ExactLength(p: PathSpecifier): nat {
    if p.Path? then |p.path| else 0
  }

  function RegexLength(p: PathSpecifier): nat {
    if p.SafeRegex? then |p.regex| else 0
  }

  function PrefixLength(p: PathSpecifier): nat {
    if p.Prefix? then |p.prefix| else if p.PathSeparatedPrefix? then |p.separatedPrefix| else 0
  }

  // SortableRoute.Less, on the two routes' matches.
  predicate Less(a: RouteMatch, b: RouteMatch) {
    if ExactLength(a.path) != ExactLength(b.path) then ExactLength(a.path) > ExactLength(b.path)
    else if RegexLength(a.path) != RegexLength(b.path) then RegexLength(a.path) > RegexLength(b.path)
    else if PrefixLength(a.path) != PrefixLength(b.path) then PrefixLength(a.path) > PrefixLength(b.path)
    else if |a.headers| != |b.headers| then |a.headers| > |b.headers|
    else |a.queries| > |b.queries|
  }

  lemma LessIsStrictWeak()
    ensures StrictWeakOrder(Less)
  {
  }

  // ---------- the same order read off the model ----------

  // A missing path counts as the prefix "/"; a longer prefix counts without its trailing slash.
  function PrefixRank(m: StringMatch): nat {
    if m.exact != "" || (m.prefix == "" && m.regex != "") then 0
    else if m.prefix == "" || m.prefix == "/" then 1
    else |Strings.TrimSuffix(m.prefix, "/")|
  }

  function HeaderRank(r: HTTPRoute): nat {
    |r.headersMatch| + (if r.verb.Some? then 1 else 0)
  }

  // a is tried before b: longer exact path, then longer regex, then longer prefix, then more header matchers
  // (a method counts as one), then more query matchers.
  predicate Outranks(a: HTTPRoute, b: HTTPRoute) {
    var (x, y) := (a.pathMatch, b.pathMatch);
    if |x.exact| != |y.exact| then |x.exact| > |y.exact|
    else if |x.regex| != |y.regex| then |x.regex| > |y.regex|
    else if PrefixRank(x) != PrefixRank(y) then PrefixRank(x) > PrefixRank(y)
    else if HeaderRank(a) != HeaderRank(b) then HeaderRank(a) > HeaderRank(b)
    else |a.queryParamsMatch| > |b.queryParamsMatch|
  }

  lemma OutranksIsStrictWeak()
    ensures StrictWeakOrder(Outranks)
  {
  }

  lemma MatchLengths(r: HTTPRoute, host: string, suffix: bool)
    ensures |MatchOf(r, host, suffix).headers| == |AuthorityMatchers(host, suffix)| + HeaderRank(r)
    ensures |MatchOf(r, host, suffix).queries| == |r.queryParamsMatch|
  {
    SortContents(r.headersMatch, MatchKey.KeyValueLess);
    SortContents(r.queryParamsMatch, MatchKey.KeyValueLess);
  }

  lemma PathLengths(m: StringMatch)
    requires MatchKey.SingleKind(m)
    ensures ExactLength(EnvoyPath(m)) == |m.exact|
    ensures RegexLength(EnvoyPath(m)) == |m.regex|
    ensures PrefixLength(EnvoyPath(m)) == PrefixRank(m)
  {
  }

  // Translation keeps the order.
  lemma OrderAgrees(a: HTTPRoute, b: HTTPRoute, host: string, suffix: bool)
    requires MatchKey.SingleKind(a.pathMatch) && MatchKey.SingleKind(b.pathMatch)
    ensures Less(MatchOf(a, host, suffix), MatchOf(b, host, suffix)) <==> Outranks(a, b)
  {
    MatchLengths(a, host, suffix);
    MatchLengths(b, host, suffix);
    PathLengths(a.pathMatch);
    PathLengths(b.pathMatch);
  }

  // ---------- the Gateway API rule ----------

  // The characters of a prefix, as it is written; a missing path counts as the prefix "/".
  function PrefixChars(m: StringMatch): nat {
    if m.exact != "" || (m.prefix == "" && m.regex != "") then 0 else if m.prefix == "" then 1 else |m.prefix|
  }

  // The precedence HTTPRouteRule.matches lays down in the Gateway API v1 reference, for the path kinds it ranks:
  // an exact path, then the prefix with most characters, then a method, then most headers, then most query parameters.
  ghost predicate GatewayOutranks(a: HTTPRoute, b: HTTPRoute) {
    var (x, y) := (a.pathMatch, b.pathMatch);
    if (x.exact != "") != (y.exact != "") then x.exact != ""
    else if PrefixChars(x) != PrefixChars(y) then PrefixChars(x) > PrefixChars(y)
    else if a.verb.Some? != b.verb.Some? then a.verb.Some?
    else if |a.headersMatch| != |b.headersMatch| then |a.headersMatch| > |b.headersMatch|
    else |a.queryParamsMatch| > |b.queryParamsMatch|
  }

  ghost predicate PathTied(a: HTTPRoute, b: HTTPRoute) {
    (a.pathMatch.exact != "") == (b.pathMatch.exact != "") && PrefixChars(a.pathMatch) == PrefixChars(b.pathMatch)
  }

  // b's extra headers (or, one header more, its query matchers) make up for the method only a asks for.
  ghost predicate MethodOutweighed(a: HTTPRoute, b: HTTPRoute) {
    && PathTied(a, b) && a.verb.Some? && b.verb.None?
    && |a.headersMatch| < |b.headersMatch|
    && (|a.headersMatch| + 1 == |b.headersMatch| ==> |a.queryParamsMatch| <= |b.queryParamsMatch|)
  }

  // a's prefix is b's with a slash more, and a has nothing else to show for it.
  ghost predicate SlashOutweighed(a: HTTPRoute, b: HTTPRoute) {
    && a.pathMatch.exact == "" && b.pathMatch.exact == ""
    && PrefixRank(a.pathMatch) == PrefixRank(b.pathMatch) && PrefixChars(a.pathMatch) > PrefixChars(b.pathMatch)
    && (HeaderRank(a) < HeaderRank(b) || (HeaderRank(a) == HeaderRank(b) && |a.queryParamsMatch| <= |b.queryParamsMatch|))
  }

  // Where two prefixes match the same path, the one that is longer without a trailing slash has more characters.
  lemma RankDecidesChars(x: StringMatch, y: StringMatch, req: Request)
    requires x.exact == "" && y.exact == "" && x.regex == "" && y.regex == "" && WellFormed(req)
    requires PathAsked(x, req) && PathAsked(y, req) && PrefixRank(x) > PrefixRank(y)
    ensures PrefixChars(x) > PrefixChars(y)
  {
    var p, q := Strings.TrimSuffix(x.prefix, "/"), Strings.TrimSuffix(y.prefix, "/");
    if y.prefix != "" && y.prefix != "/" && x.prefix == p && |p| == |q| + 1 {
      Strings.PartsPrefix(p, req.path, '/');
      Strings.PartsPrefix(q, req.path, '/');
      LongerByOne(p, q, req.path);
    }
  }

  lemma LongerByOne(p: string, q: string, path: string)
    requires path == p || Strings.HasPrefix(path, p + "/")
    requires path == q || Strings.HasPrefix(path, q + "/")
    requires |p| == |q| + 1
    ensures Strings.HasSuffix(p, "/")
  {
    assert path[..|p|] == p && path[..|q| + 1] == q + "/";
    assert p == q + "/";
  }

  // For two routes that both match a request, the code ranks them as the Gateway API does unless a method is
  // outweighed by headers, which the code counts it among, or a trailing slash is, which the code does not count.
  lemma FollowsGatewayRuleIff(a: HTTPRoute, b: HTTPRoute, req: Request)
    requires MatchKey.SingleKind(a.pathMatch) && MatchKey.SingleKind(b.pathMatch)
    requires a.pathMatch.regex == "" && b.pathMatch.regex == "" && WellFormed(req)
    requires Asked(a, req) && Asked(b, req)
    ensures (Outranks(a, b) == GatewayOutranks(a, b) && Outranks(b, a) == GatewayOutranks(b, a))
       <==> !MethodOutweighed(a, b) && !MethodOutweighed(b, a) && !SlashOutweighed(a, b) && !SlashOutweighed(b, a)
  {
    var (x, y) := (a.pathMatch, b.pathMatch);
    if x.exact == "" && y.exact == "" {
      if PrefixRank(x) > PrefixRank(y) {
        RankDecidesChars(x, y, req);
      } else if PrefixRank(y) > PrefixRank(x) {
        RankDecidesChars(y, x, req);
      }
    }
  }

  // A route that asks for POST loses to a route with two headers, though the method should decide.
  lemma GatewayRuleBroken()
    ensures var a := MatchKey.MatchOnly(Some("POST"), NO_MATCH, [], []);
      var b := MatchKey.MatchOnly(None, NO_MATCH, [MatchKey.Exactly("x", "1"), MatchKey.Exactly("y", "1")], []);
      GatewayOutranks(a, b) && Outranks(b, a)
      && exists req :: WellFormed(req) && Asked(a, req) && Asked(b, req)
  {
    var a := MatchKey.MatchOnly(Some("POST"), NO_MATCH, [], []);
    var b := MatchKey.MatchOnly(None, NO_MATCH, [MatchKey.Exactly("x", "1"), MatchKey.Exactly("y", "1")], []);
    var req := Request("POST", "h", "/", _ => Some("1"), _ => None, (_, _) => false);
    assert Strings.ToUpper("POST") == "POST" by { UpperPost(); }
    assert req.Header("x") == Some("1") && req.Header("y") == Some("1");
    assert Asked(a, req) && Asked(b, req);
  }

  lemma UpperPost()
    ensures Strings.ToUpper("POST") == "POST"
  {
    assert "POST"[1..] == "OST" && "OST"[1..] == "ST" && "ST"[1..] == "T" && "T"[1..] == "";
    assert Strings.ToUpper("ST") == "ST" && Strings.ToUpper("OST") == "OST";
  }

  // ---------- routes that have lost their method ----------

  function Methodless(r: HTTPRoute): HTTPRoute {
    r.(verb := None)
  }

  // Without its method, a has nothing to show for it against b.
  ghost predicate MethodLost(a: HTTPRoute, b: HTTPRoute) {
    && PathTied(a, b) && a.verb.Some? && b.verb.None?
    && (|a.headersMatch| < |b.headersMatch| || (|a.headersMatch| == |b.headersMatch| && |a.queryParamsMatch| <= |b.queryParamsMatch|))
  }

  // The same for routes that are ranked after their method is lost: already a tie in headers and query parameters makes
  // the method count for nothing.
  lemma FollowsWithoutMethodIff(a: HTTPRoute, b: HTTPRoute, req: Request)
    requires MatchKey.SingleKind(a.pathMatch) && MatchKey.SingleKind(b.pathMatch)
    requires a.pathMatch.regex == "" && b.pathMatch.regex == "" && WellFormed(req)
    requires Asked(Methodless(a), req) && Asked(Methodless(b), req)
    ensures var (x, y) := (Methodless(a), Methodless(b));
      (Outranks(x, y) == GatewayOutranks(a, b) && Outranks(y, x) == GatewayOutranks(b, a))
      <==> !MethodLost(a, b) && !MethodLost(b, a) && !SlashOutweighed(x, y) && !SlashOutweighed(y, x)
  {
    var (x, y) := (a.pathMatch, b.pathMatch);
    if x.exact == "" && y.exact == "" {
      if PrefixRank(x) > PrefixRank(y) {
        RankDecidesChars(x, y, req);
      } else if PrefixRank(y) > PrefixRank(x) {
        RankDecidesChars(y, x, req);
      }
    }
  }

  // The prefix /foo/ loses to the prefix /foo with a header, though it has more characters.
  lemma SlashNotCounted()
    ensures var a := MatchKey.MatchOnly(None, StringMatch("/foo/", "", ""), [], []);
      var b := MatchKey.MatchOnly(None, StringMatch("/foo", "", ""), [MatchKey.Exactly("x", "1")], []);
      GatewayOutranks(a, b) && Outranks(b, a)
      && exists req :: WellFormed(req) && Asked(a, req) && Asked(b, req)
  {
    var a := MatchKey.MatchOnly(None, StringMatch("/foo/", "", ""), [], []);
    var b := MatchKey.MatchOnly(None, StringMatch("/foo", "", ""), [MatchKey.Exactly("x", "1")], []);
    assert Strings.TrimSuffix("/foo/", "/") == "/foo" && Strings.TrimSuffix("/foo", "/") == "/foo";
    var req := Request("GET", "h", "/foo", _ => Some("1"), _ => None, (_, _) => false);
    assert req.Header("x") == Some("1");
    assert ElementPrefix("/foo/", "/foo") && ElementPrefix("/foo", "/foo");
    assert Asked(a, req) && Asked(b, req);
  }
}
