/** Route matches: what a model route asks for, what an Envoy route match accepts, and why they agree. */
module RouteMatch {
  import opened Wrappers
  import opened Model
  import opened Sorting
  import Strings
  import MatchKey

  // A request as Envoy sees it. Lookups fold header names as Envoy does, and regular expressions are
  // uninterpreted: fullMatch(pattern, text) says whether the pattern matches the whole text.
  datatype Request = Request(
    verb: string,
    authority: string,
    path: string,
    header: string -> Option<string>,
    query: string -> Option<string>,
    fullMatch: (string, string) -> bool)
  {
    function Header(name: string): Option<string> {
      if name == ":method" then Some(verb)
      else if name == ":authority" then Some(authority)
      else header(name)
    }
  }

  // Request targets are in origin form (section 3.2.1 of RFC 9112).
  ghost predicate WellFormed(req: Request) {
    Strings.HasPrefix(req.path, "/")
  }

  // ---------- what the model asks for ----------

  ghost predicate TextAsked(m: StringMatch, text: string, req: Request) {
    || (m.exact != "" && text == m.exact)
    || (m.prefix != "" && Strings.HasPrefix(text, m.prefix))
    || (m.regex != "" && req.fullMatch(m.regex, text))
  }

  // A prefix matches element by element and its trailing slash is ignored.
  ghost predicate ElementPrefix(prefix: string, path: string) {
    Strings.Split(Strings.TrimSuffix(prefix, "/"), '/') <= Strings.Split(path, '/')
  }

  ghost predicate PathAsked(m: StringMatch, req: Request) {
    && (m.exact != "" ==> req.path == m.exact)
    && (m.prefix != "" ==> ElementPrefix(m.prefix, req.path))
    && (m.regex != "" ==> req.fullMatch(m.regex, req.path))
  }

  ghost predicate HeaderAsked(kv: KeyValueMatch, req: Request) {
    req.Header(kv.key).Some? && TextAsked(kv.value, req.Header(kv.key).value, req)
  }

  ghost predicate QueryAsked(kv: KeyValueMatch, req: Request) {
    req.query(kv.key).Some? && TextAsked(kv.value, req.query(kv.key).value, req)
  }

  ghost predicate Asked(r: HTTPRoute, req: Request) {
    && PathAsked(r.pathMatch, req)
    && (r.verb.Some? ==> req.verb == Strings.ToUpper(r.verb.value))
    && (forall kv | kv in r.headersMatch :: HeaderAsked(kv, req))
    && (forall kv | kv in r.queryParamsMatch :: QueryAsked(kv, req))
  }

  // ---------- Envoy's route match ----------

  datatype PathSpecifier =
    | Path(path: string)
    | Prefix(prefix: string)
    | PathSeparatedPrefix(separatedPrefix: string)
    | SafeRegex(regex: string)

  datatype StringMatcher = ExactText(exact: string) | PrefixText(prefix: string) | RegexText(regex: string) | NoPattern

  datatype Matcher = Matcher(name: string, pattern: StringMatcher)

  datatype RouteMatch = RouteMatch(path: PathSpecifier, headers: seq<Matcher>, queries: seq<Matcher>)

  ghost predicate PatternAccepts(m: StringMatcher, text: string, req: Request) {
    match m
    case ExactText(e) => text == e
    case PrefixText(p) => Strings.HasPrefix(text, p)
    case RegexText(r) => req.fullMatch(r, text)
    case NoPattern => false
  }

  ghost predicate PathAccepts(p: PathSpecifier, req: Request) {
    match p
    case Path(e) => req.path == e
    case Prefix(p) => Strings.HasPrefix(req.path, p)
    case PathSeparatedPrefix(p) => req.path == p || Strings.HasPrefix(req.path, p + "/")
    case SafeRegex(r) => req.fullMatch(r, req.path)
  }

  ghost predicate HeaderAccepts(h: Matcher, req: Request) {
    req.Header(h.name).Some? && PatternAccepts(h.pattern, req.Header(h.name).value, req)
  }

  ghost predicate QueryAccepts(q: Matcher, req: Request) {
    req.query(q.name).Some? && PatternAccepts(q.pattern, req.query(q.name).value, req)
  }

  ghost predicate Accepts(m: RouteMatch, req: Request) {
    && PathAccepts(m.path, req)
    && (forall h | h in m.headers :: HeaderAccepts(h, req))
    && (forall q | q in m.queries :: QueryAccepts(q, req))
  }

  // ---------- the translation ----------

  function EnvoyStringMatcher(m: StringMatch): StringMatcher {
    if m.exact != "" then ExactText(m.exact)
    else if m.prefix != "" then PrefixText(m.prefix)
    else if m.regex != "" then RegexText(m.regex)
    else NoPattern
  }

  function EnvoyMatcher(kv: KeyValueMatch): Matcher {
    Matcher(kv.key, EnvoyStringMatcher(kv.value))
  }

  function DotsQuoted(s: string): string {
    if s == "" then "" else (if s[0] == '.' then "[.]" else [s[0]]) + DotsQuoted(s[1..])
  }

  function HostRegex(host: string): string {
    if Strings.HasPrefix(host, "*.") then "^[^.]+[.]" + DotsQuoted(host[2..]) + "$" else "^" + DotsQuoted(host) + "$"
  }

  // A wildcard host is checked against the authority unless hosts match by suffix.
  function AuthorityMatchers(host: string, hostNameSuffixMatch: bool): seq<Matcher> {
    if !hostNameSuffixMatch && host != "*" && '*' in host
    then [Matcher(":authority", RegexText(HostRegex(host)))] else []
  }

  function VerbMatchers(verb: Option<string>): seq<Matcher> {
    if verb.Some? then [Matcher(":method", ExactText(Strings.ToUpper(verb.value)))] else []
  }

  function EnvoyPath(m: StringMatch): PathSpecifier {
    if m.exact != "" then Path(m.exact)
    else if m.prefix == "/" then Prefix(m.prefix)
    else if m.prefix != "" then PathSeparatedPrefix(Strings.TrimSuffix(m.prefix, "/"))
    else if m.regex != "" then SafeRegex(m.regex)
    else Prefix("/")
  }

  // getRouteMatch, for the one host every virtual host is built with.
  function EnvoyMatch(
    host: string, hostNameSuffixMatch: bool,
    pathMatch: StringMatch, headers: seq<KeyValueMatch>, queries: seq<KeyValueMatch>, verb: Option<string>): RouteMatch
  {
    RouteMatch(
      EnvoyPath(pathMatch),
      AuthorityMatchers(host, hostNameSuffixMatch) + Map(EnvoyMatcher, headers) + VerbMatchers(verb),
      Map(EnvoyMatcher, queries))
  }

  // The match of a route; GetMatchKey has left both matcher lists sorted by their printed text.
  function MatchOf(r: HTTPRoute, host: string, hostNameSuffixMatch: bool): RouteMatch {
    EnvoyMatch(host, hostNameSuffixMatch, r.pathMatch,
               StableSort(r.headersMatch, MatchKey.KeyValueLess), StableSort(r.queryParamsMatch, MatchKey.KeyValueLess), r.verb)
  }

  // The same with the two lists exchanged: what the HTTPS redirect routes are built from.
  function SwappedMatchOf(r: HTTPRoute, host: string, hostNameSuffixMatch: bool): RouteMatch {
    EnvoyMatch(host, hostNameSuffixMatch, r.pathMatch,
               StableSort(r.queryParamsMatch, MatchKey.KeyValueLess), StableSort(r.headersMatch, MatchKey.KeyValueLess), r.verb)
  }

  ghost predicate AuthorityAccepted(host: string, hostNameSuffixMatch: bool, req: Request) {
    forall h | h in AuthorityMatchers(host, hostNameSuffixMatch) :: HeaderAccepts(h, req)
  }

  // ---------- agreement ----------

  lemma PatternAgrees(m: StringMatch, text: string, req: Request)
    requires MatchKey.SingleKind(m)
    ensures PatternAccepts(EnvoyStringMatcher(m), text, req) <==> TextAsked(m, text, req)
  {
  }

  lemma PathAgrees(m: StringMatch, req: Request)
    requires MatchKey.SingleKind(m) && WellFormed(req)
    ensures PathAccepts(EnvoyPath(m), req) <==> PathAsked(m, req)
  {
    if m.prefix != "" {
      var p := Strings.TrimSuffix(m.prefix, "/");
      Strings.PartsPrefix(p, req.path, '/');
      if m.prefix == "/" {
        assert p == "" && p + "/" == "/";
      }
    }
  }

  lemma HeadersAgree(kvs: seq<KeyValueMatch>, req: Request)
    requires forall kv | kv in kvs :: MatchKey.SingleKind(kv.value)
    ensures (forall h | h in Map(EnvoyMatcher, StableSort(kvs, MatchKey.KeyValueLess)) :: HeaderAccepts(h, req))
       <==> (forall kv | kv in kvs :: HeaderAsked(kv, req))
  {
    var sorted := StableSort(kvs, MatchKey.KeyValueLess);
    SortMember(kvs, MatchKey.KeyValueLess);
    forall kv | kv in kvs ensures HeaderAccepts(EnvoyMatcher(kv), req) <==> HeaderAsked(kv, req) {
      if req.Header(kv.key).Some? {
        PatternAgrees(kv.value, req.Header(kv.key).value, req);
      }
    }
    MapMembers(EnvoyMatcher, sorted);
  }

  lemma QueriesAgree(kvs: seq<KeyValueMatch>, req: Request)
    requires forall kv | kv in kvs :: MatchKey.SingleKind(kv.value)
    ensures (forall q | q in Map(EnvoyMatcher, StableSort(kvs, MatchKey.KeyValueLess)) :: QueryAccepts(q, req))
       <==> (forall kv | kv in kvs :: QueryAsked(kv, req))
  {
    var sorted := StableSort(kvs, MatchKey.KeyValueLess);
    SortMember(kvs, MatchKey.KeyValueLess);
    forall kv | kv in kvs ensures QueryAccepts(EnvoyMatcher(kv), req) <==> QueryAsked(kv, req) {
      if req.query(kv.key).Some? {
        PatternAgrees(kv.value, req.query(kv.key).value, req);
      }
    }
    MapMembers(EnvoyMatcher, sorted);
  }

  // Envoy accepts exactly the requests the model route asks for.
  lemma MatchAgrees(r: HTTPRoute, host: string, hostNameSuffixMatch: bool, req: Request)
    requires MatchKey.OneKind(r) && WellFormed(req) && AuthorityAccepted(host, hostNameSuffixMatch, req)
    ensures Accepts(MatchOf(r, host, hostNameSuffixMatch), req) <==> Asked(r, req)
  {
    PathAgrees(r.pathMatch, req);
    HeadersAgree(r.headersMatch, req);
    QueriesAgree(r.queryParamsMatch, req);
    var a := AuthorityMatchers(host, hostNameSuffixMatch);
    var h := Map(EnvoyMatcher, StableSort(r.headersMatch, MatchKey.KeyValueLess));
    var v := VerbMatchers(r.verb);
    assert forall x :: x in a + h + v <==> x in a || x in h || x in v;
    if r.verb.Some? {
      assert v[0] in v;
    }
  }
}
