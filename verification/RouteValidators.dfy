/** The two validators of an HTTPRoute's rules. */
module RouteValidators {
  import opened Wrappers
  import opened Sorting
  import opened GatewayObjects

  // The parts of a rule that the validators read.
  datatype FilterSpec = SetsHeaders(names: seq<string>) | AnotherFilter
  datatype TypedValue = TypedValue(kind: Option<string>, value: string)
  datatype TypedPath = TypedPath(kind: Option<string>, value: Option<string>)
  datatype MatchSpec = MatchSpec(path: Option<TypedPath>, headers: seq<TypedValue>, queryParams: seq<TypedValue>)
  datatype RouteRule = RouteRule(filters: seq<FilterSpec>, matches: seq<MatchSpec>)

  // regexp.Compile: the error it reports, if any.
  type Compiler = string -> Option<string>

  const REGEX := Some("RegularExpression")

  const HOST_SET := Condition("Accepted", "False", "UnsupportedValue", "Invalid header modifier: \"Host\" header is not supported", 0, 0)

  function BadRegex(field: string, error: string): Condition {
    Condition("Accepted", "False", "UnsupportedValue", "Invalid regular expression in " + field + " match: " + error, 0, 0)
  }

  // Some request header modifier sets the Host header.
  predicate SetsHost(rules: seq<RouteRule>) {
    exists r, f :: r in rules && f in r.filters && f.SetsHeaders? && "Host" in f.names
  }

  function HeaderFailure(rules: seq<RouteRule>): Option<Condition> {
    if SetsHost(rules) then Some(HOST_SET) else None
  }

  // A text that is to be a regular expression, and the field it stands in.
  datatype Pattern = Pattern(field: string, text: string)

  function PathPatterns(path: Option<TypedPath>): seq<Pattern> {
    if path.Some? && path.value.kind == REGEX && path.value.value.Some? then [Pattern("path", path.value.value.value)] else []
  }

  function PatternOf(field: string): TypedValue -> seq<Pattern> {
    (t: TypedValue) => if t.kind == REGEX then [Pattern(field, t.value)] else []
  }

  function MatchPatterns(m: MatchSpec): seq<Pattern> {
    PathPatterns(m.path) + FlatMap(PatternOf("header"), m.headers) + FlatMap(PatternOf("queryParam"), m.queryParams)
  }

  function RulePatterns(r: RouteRule): seq<Pattern> {
    FlatMap(MatchPatterns, r.matches)
  }

  function Patterns(rules: seq<RouteRule>): seq<Pattern> {
    FlatMap(RulePatterns, rules)
  }

  function Broken(compile: Compiler): Pattern -> bool {
    (p: Pattern) => compile(p.text).Some?
  }

  // The first pattern, in the order of the rules, that does not compile.
  function RegexFailure(rules: seq<RouteRule>, compile: Compiler): Option<Condition> {
    Verdict(Patterns(rules), compile)
  }

  function Verdict(patterns: seq<Pattern>, compile: Compiler): Option<Condition> {
    var first := FirstMatch(patterns, Broken(compile));
    if first.None? then None
    else Some(BadRegex(first.value.field, if compile(first.value.text).Some? then compile(first.value.text).value else ""))
  }

  lemma {:induction false} FirstMatchConcat<T>(a: seq<T>, b: seq<T>, p: T -> bool)
    ensures FirstMatch(a + b, p) == if FirstMatch(a, p).Some? then FirstMatch(a, p) else FirstMatch(b, p)
  {
    if a == [] {
      assert a + b == b;
    } else {
      assert (a + b)[0] == a[0] && (a + b)[1..] == a[1..] + b;
      FirstMatchConcat(a[1..], b, p);
    }
  }

  lemma VerdictConcat(a: seq<Pattern>, b: seq<Pattern>, compile: Compiler)
    ensures Verdict(a + b, compile) == if Verdict(a, compile).Some? then Verdict(a, compile) else Verdict(b, compile)
  {
    FirstMatchConcat(a, b, Broken(compile));
  }

  lemma VerdictOfOne(p: Pattern, compile: Compiler)
    ensures Verdict([p], compile) == if compile(p.text).Some? then Some(BadRegex(p.field, compile(p.text).value)) else None
  {
    var broken := Broken(compile);
    assert FirstMatch([p][1..], broken) == None;
    assert FirstMatch([p], broken) == if broken(p) then Some(p) else None;
  }

  lemma {:induction false} VerdictPrefix<T>(f: T -> seq<Pattern>, s: seq<T>, i: nat, compile: Compiler)
    requires i <= |s| && Verdict(FlatMap(f, s[..i]), compile).Some?
    ensures Verdict(FlatMap(f, s), compile) == Verdict(FlatMap(f, s[..i]), compile)
    decreases |s| - i
  {
    if i == |s| {
      assert s[..i] == s;
    } else {
      FlatMapSnoc(f, s, i);
      VerdictConcat(FlatMap(f, s[..i]), f(s[i]), compile);
      VerdictPrefix(f, s, i + 1, compile);
    }
  }

  method ValidateHeaderModifier(rules: seq<RouteRule>) returns (failure: Option<Condition>)
    ensures failure == HeaderFailure(rules)
  {
    for i := 0 to |rules|
      invariant !SetsHost(rules[..i])
    {
      assert rules[..i + 1] == rules[..i] + [rules[i]];
      var found := FiltersSetHost(rules[i].filters);
      if found {
        assert rules[i] in rules;
        return Some(HOST_SET);
      }
    }
    assert rules[..|rules|] == rules;
    return None;
  }

  method FiltersSetHost(filters: seq<FilterSpec>) returns (found: bool)
    ensures found <==> exists f :: f in filters && f.SetsHeaders? && "Host" in f.names
  {
    for j := 0 to |filters|
      invariant forall k | 0 <= k < j :: !(filters[k].SetsHeaders? && "Host" in filters[k].names)
    {
      if filters[j].SetsHeaders? {
        for k := 0 to |filters[j].names|
          invariant "Host" !in filters[j].names[..k]
        {
          if filters[j].names[k] == "Host" {
            assert filters[j] in filters;
            return true;
          }
        }
        assert filters[j].names[..|filters[j].names|] == filters[j].names;
      }
    }
    return false;
  }

  // While nothing has failed, the next element decides, and if it fails the whole list does so.
  lemma VerdictNext<T>(f: T -> seq<Pattern>, s: seq<T>, i: nat, compile: Compiler)
    requires i < |s| && Verdict(FlatMap(f, s[..i]), compile).None?
    ensures Verdict(FlatMap(f, s[..i + 1]), compile) == Verdict(f(s[i]), compile)
    ensures Verdict(f(s[i]), compile).Some? ==> Verdict(FlatMap(f, s), compile) == Verdict(f(s[i]), compile)
  {
    FlatMapSnoc(f, s, i);
    VerdictConcat(FlatMap(f, s[..i]), f(s[i]), compile);
    if Verdict(f(s[i]), compile).Some? {
      VerdictPrefix(f, s, i + 1, compile);
    }
  }

  method ValidateMatchRegexps(rules: seq<RouteRule>, compile: Compiler) returns (failure: Option<Condition>)
    ensures failure == RegexFailure(rules, compile)
  {
    for i := 0 to |rules|
      invariant Verdict(FlatMap(RulePatterns, rules[..i]), compile).None?
    {
      VerdictNext(RulePatterns, rules, i, compile);
      failure := ValidateRule(rules[i], compile);
      if failure.Some? {
        return;
      }
    }
    assert rules[..|rules|] == rules;
    return None;
  }

  method ValidateRule(rule: RouteRule, compile: Compiler) returns (failure: Option<Condition>)
    ensures failure == Verdict(RulePatterns(rule), compile)
  {
    for i := 0 to |rule.matches|
      invariant Verdict(FlatMap(MatchPatterns, rule.matches[..i]), compile).None?
    {
      VerdictNext(MatchPatterns, rule.matches, i, compile);
      failure := ValidateMatch(rule.matches[i], compile);
      if failure.Some? {
        return;
      }
    }
    assert rule.matches[..|rule.matches|] == rule.matches;
    return None;
  }

  method ValidateMatch(m: MatchSpec, compile: Compiler) returns (failure: Option<Condition>)
    ensures failure == Verdict(MatchPatterns(m), compile)
  {
    var path, headers, queries := PathPatterns(m.path), FlatMap(PatternOf("header"), m.headers), FlatMap(PatternOf("queryParam"), m.queryParams);
    VerdictConcat(path + headers, queries, compile);
    VerdictConcat(path, headers, compile);
    if m.path.Some? && m.path.value.kind == REGEX && m.path.value.value.Some? {
      var error := compile(m.path.value.value.value);
      VerdictOfOne(Pattern("path", m.path.value.value.value), compile);
      if error.Some? {
        return Some(BadRegex("path", error.value));
      }
    }
    failure := ValidateValues("header", m.headers, compile);
    if failure.Some? {
      return;
    }
    failure := ValidateValues("queryParam", m.queryParams, compile);
  }

  method ValidateValues(field: string, values: seq<TypedValue>, compile: Compiler) returns (failure: Option<Condition>)
    ensures failure == Verdict(FlatMap(PatternOf(field), values), compile)
  {
    var f := PatternOf(field);
    for i := 0 to |values|
      invariant Verdict(FlatMap(f, values[..i]), compile).None?
    {
      VerdictNext(f, values, i, compile);
      if values[i].kind == REGEX {
        var error := compile(values[i].value);
        VerdictOfOne(Pattern(field, values[i].value), compile);
        if error.Some? {
          return Some(BadRegex(field, error.value));
        }
      }
    }
    assert values[..|values|] == values;
    return None;
  }
}
