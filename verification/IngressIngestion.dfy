/** Ingesting one Ingress: listeners by host, first the insecure ones, then a secure one for each host with TLS. */
module IngressIngestion {
  import opened Wrappers
  import opened Model
  import opened Sorting
  import RouteConfig
  import Strings

  datatype IngressBackend = IngressBackend(service: string, portName: string, portNumber: nat)
  datatype IngressPath = IngressPath(kind: string, path: string, backend: IngressBackend)
  datatype IngressRule = IngressRule(host: string, http: Option<seq<IngressPath>>)
  datatype IngressTLS = IngressTLS(hosts: seq<string>, secretName: string)

  // The Ingress with what its annotations and the controller's settings come to.
  datatype IngressObject = IngressObject(
    source: Resource, defaultBackend: Option<IngressBackend>, rules: seq<IngressRule>, tls: seq<IngressTLS>,
    timeout: Timeout, service: Option<Service>, forceHTTPS: bool, insecurePort: nat, securePort: nat, defaultSecret: TLSSecret)

  // ---------- the insecure listeners, host by host ----------

  function RuleHost(rule: IngressRule): string {
    if rule.host != "" then rule.host else "*"
  }

  function ToBackend(b: IngressBackend, namespace: string): Backend {
    Backend(b.service, namespace, Some(BackendPort(b.portNumber, b.portName)), None)
  }

  function ToPathMatch(p: IngressPath): StringMatch {
    match p.kind
    case "Exact" => StringMatch("", p.path, "")
    case "Prefix" => StringMatch(p.path, "", "")
    case "ImplementationSpecific" => StringMatch("", "", p.path)
    case _ => NO_MATCH
  }

  function Forward(m: StringMatch, b: IngressBackend, ing: IngressObject): HTTPRoute {
    HTTPRoute([], m, [], [], None, [ToBackend(b, ing.source.namespace)], None, None, None, [], ing.timeout)
  }

  function PathRoute(ing: IngressObject): IngressPath -> HTTPRoute {
    (p: IngressPath) => Forward(ToPathMatch(p), p.backend, ing)
  }

  function Paths(rule: IngressRule): seq<IngressPath> {
    if rule.http.Some? then rule.http.value else []
  }

  function PathsFor(host: string): IngressRule -> seq<IngressPath> {
    rule => if RuleHost(rule) == host then Paths(rule) else []
  }

  function DefaultRoutes(ing: IngressObject, host: string): seq<HTTPRoute> {
    if host == "*" && ing.defaultBackend.Some? then [Forward(NO_MATCH, ing.defaultBackend.value, ing)] else []
  }

  // The default backend's route for "*", then every path of the host's rules, in order.
  function HostRoutes(ing: IngressObject, rules: seq<IngressRule>, host: string): seq<HTTPRoute> {
    DefaultRoutes(ing, host) + Map(PathRoute(ing), FlatMap(PathsFor(host), rules))
  }

  predicate Named(rules: seq<IngressRule>, host: string) {
    exists i | 0 <= i < |rules| :: RuleHost(rules[i]) == host && rules[i].http.Some?
  }

  // A host is served if a rule with paths, maybe an empty list of them, names it; "*" also by a default backend.
  predicate Served(ing: IngressObject, rules: seq<IngressRule>, host: string) {
    (host == "*" && ing.defaultBackend.Some?) || Named(rules, host)
  }

  function Insecure(ing: IngressObject, rules: seq<IngressRule>, host: string): HTTPListener {
    var routes := HostRoutes(ing, rules, host);
    HTTPListener(
      if host == "*" && ing.defaultBackend.Some? then "" else "ing-" + ing.source.name + "-" + ing.source.namespace + "-" + host,
      [ing.source], ing.insecurePort, host, None, routes, if routes == [] then None else ing.service, false)
  }

  // ---------- the secure listeners ----------

  datatype Mention = Mention(host: string, secret: Option<seq<TLSSecret>>)

  function SecretOf(ing: IngressObject, config: IngressTLS): Option<seq<TLSSecret>> {
    if config.secretName != "" then Some([TLSSecret(config.secretName, ing.source.namespace)])
    else if ing.defaultSecret.namespace != "" && ing.defaultSecret.name != "" then Some([ing.defaultSecret])
    else None
  }

  function ConfigMentions(ing: IngressObject): IngressTLS -> seq<Mention> {
    (config: IngressTLS) => Map(host => Mention(host, SecretOf(ing, config)), config.hosts)
  }

  function Mentions(ing: IngressObject): seq<Mention> {
    FlatMap(ConfigMentions(ing), ing.tls)
  }

  predicate Mentioned(mentions: seq<Mention>, host: string) {
    exists i | 0 <= i < |mentions| :: mentions[i].host == host
  }

  // The secret a host ends up with: with a "*" listener that of the last mention, else the last one given.
  function LastSecret(mentions: seq<Mention>, host: string, star: bool): Option<seq<TLSSecret>> {
    if mentions == [] then None
    else
      var m := mentions[|mentions| - 1];
      if m.host == host && (star || m.secret.Some?) then m.secret else LastSecret(mentions[..|mentions| - 1], host, star)
  }

  predicate Star(ing: IngressObject) {
    Served(ing, ing.rules, "*")
  }

  predicate Secured(ing: IngressObject, mentions: seq<Mention>, host: string) {
    Mentioned(mentions, host) && (Star(ing) || Served(ing, ing.rules, host))
  }

  // A copy of the "*" listener where there is one, which leaves the redirect flag behind; else of the host's own.
  function Secure(ing: IngressObject, mentions: seq<Mention>, host: string): HTTPListener {
    var base := Insecure(ing, ing.rules, if Star(ing) then "*" else host);
    base.(tls := LastSecret(mentions, host, Star(ing)), port := ing.securePort, hostname := host,
          service := if Star(ing) then base.service else ing.service, forceHTTPSRedirect := ing.forceHTTPS && !Star(ing))
  }

  // ---------- maps of listeners ----------

  type ListenerMap = map<string, HTTPListener>

  ghost predicate Filled(m: ListenerMap, ing: IngressObject, rules: seq<IngressRule>) {
    && (forall h :: h in m <==> Served(ing, rules, h))
    && (forall h | h in m :: m[h] == Insecure(ing, rules, h))
  }

  lemma ServedSnoc(ing: IngressObject, rules: seq<IngressRule>, rule: IngressRule, h: string)
    ensures Served(ing, rules + [rule], h) <==> Served(ing, rules, h) || (RuleHost(rule) == h && rule.http.Some?)
  {
    assert (rules + [rule])[|rules|] == rule;
    assert forall i | 0 <= i < |rules| :: (rules + [rule])[i] == rules[i];
  }

  lemma HostRoutesSnoc(ing: IngressObject, rules: seq<IngressRule>, rule: IngressRule, h: string)
    ensures HostRoutes(ing, rules + [rule], h)
         == HostRoutes(ing, rules, h) + if RuleHost(rule) == h then Map(PathRoute(ing), Paths(rule)) else []
  {
    AppendMapped(DefaultRoutes(ing, h), PathRoute(ing), PathsFor(h), rules, rule);
    assert PathsFor(h)(rule) == if RuleHost(rule) == h then Paths(rule) else [];
  }

  lemma AppendMapped<T, U, V>(before: seq<V>, g: U -> V, f: T -> seq<U>, s: seq<T>, x: T)
    ensures before + Map(g, FlatMap(f, s + [x])) == before + Map(g, FlatMap(f, s)) + Map(g, f(x))
  {
    assert FlatMap(f, s + [x]) == FlatMap(f, s) + f(x) by {
      assert (s + [x])[..|s|] == s && (s + [x])[..|s| + 1] == s + [x];
      FlatMapSnoc(f, s + [x], |s|);
    }
    MapConcat(g, FlatMap(f, s), f(x));
  }

  // A host that is not served has no routes.
  lemma {:induction false} NotServed(ing: IngressObject, rules: seq<IngressRule>, h: string)
    requires !Served(ing, rules, h)
    ensures HostRoutes(ing, rules, h) == []
  {
    if rules != [] {
      var front, last := rules[..|rules| - 1], rules[|rules| - 1];
      assert rules == front + [last];
      ServedSnoc(ing, front, last, h);
      NotServed(ing, front, h);
      HostRoutesSnoc(ing, front, last, h);
    }
  }

  // What a rule makes of the listener of its host.
  function WithRule(ing: IngressObject, m: ListenerMap, rule: IngressRule): ListenerMap {
    var host := RuleHost(rule);
    var l := if host in m then m[host]
             else HTTPListener("ing-" + ing.source.name + "-" + ing.source.namespace + "-" + host, [ing.source], ing.insecurePort, host, None, [], None, false);
    m[host := l.(routes := l.routes + Map(PathRoute(ing), Paths(rule)), service := if Paths(rule) == [] then l.service else ing.service)]
  }

  lemma WithRuleAt(ing: IngressObject, rules: seq<IngressRule>, rule: IngressRule, m: ListenerMap)
    requires Filled(m, ing, rules) && rule.http.Some?
    ensures WithRule(ing, m, rule)[RuleHost(rule)] == Insecure(ing, rules + [rule], RuleHost(rule))
  {
    var host := RuleHost(rule);
    HostRoutesSnoc(ing, rules, rule, host);
    if host !in m {
      NotServed(ing, rules, host);
    }
  }

  lemma FilledSnoc(ing: IngressObject, rules: seq<IngressRule>, rule: IngressRule, m: ListenerMap)
    requires Filled(m, ing, rules)
    ensures Filled(if rule.http.Some? then WithRule(ing, m, rule) else m, ing, rules + [rule])
  {
    var next := if rule.http.Some? then WithRule(ing, m, rule) else m;
    forall h ensures h in next <==> Served(ing, rules + [rule], h) {
      ServedSnoc(ing, rules, rule, h);
    }
    if rule.http.Some? {
      WithRuleAt(ing, rules, rule, m);
    }
    forall h | h in next && (h != RuleHost(rule) || rule.http.None?) ensures next[h] == Insecure(ing, rules + [rule], h) {
      InsecureSame(ing, rules, rule, h);
    }
  }

  lemma InsecureSame(ing: IngressObject, rules: seq<IngressRule>, rule: IngressRule, h: string)
    requires h != RuleHost(rule) || rule.http.None?
    ensures Insecure(ing, rules + [rule], h) == Insecure(ing, rules, h)
  {
    HostRoutesSnoc(ing, rules, rule, h);
  }

  method AddPaths(ing: IngressObject, l: HTTPListener, paths: seq<IngressPath>) returns (next: HTTPListener)
    ensures next == l.(routes := l.routes + Map(PathRoute(ing), paths), service := if paths == [] then l.service else ing.service)
  {
    next := l;
    for i := 0 to |paths|
      invariant next == l.(routes := l.routes + Map(PathRoute(ing), paths[..i]), service := if i == 0 then l.service else ing.service)
    {
      assert paths[..i + 1] == paths[..i] + [paths[i]];
      MapSnoc(PathRoute(ing), paths[..i], paths[i]);
      next := next.(routes := next.routes + [PathRoute(ing)(paths[i])], service := ing.service);
    }
    assert paths[..|paths|] == paths;
  }

  method InsecureListeners(ing: IngressObject) returns (m: ListenerMap)
    ensures Filled(m, ing, ing.rules)
  {
    m := map[];
    if ing.defaultBackend.Some? {
      m := map["*" := HTTPListener("", [ing.source], ing.insecurePort, "*", None,
        [Forward(NO_MATCH, ing.defaultBackend.value, ing)], ing.service, false)];
    }
    ghost var done: seq<IngressRule> := [];
    for i := 0 to |ing.rules|
      invariant done == ing.rules[..i] && Filled(m, ing, done)
    {
      TakeSnoc(ing.rules, i);
      m := AddRule(ing, m, ing.rules[i], done);
      done := done + [ing.rules[i]];
    }
    assert done == ing.rules;
  }

  method AddRule(ing: IngressObject, m: ListenerMap, rule: IngressRule, ghost rules: seq<IngressRule>) returns (next: ListenerMap)
    requires Filled(m, ing, rules)
    ensures Filled(next, ing, rules + [rule])
  {
    FilledSnoc(ing, rules, rule, m);
    var host := RuleHost(rule);
    var l := if host in m then m[host]
             else HTTPListener("ing-" + ing.source.name + "-" + ing.source.namespace + "-" + host, [ing.source], ing.insecurePort, host, None, [], None, false);
    if rule.http.None? {
      return m;
    }
    l := AddPaths(ing, l, rule.http.value);
    next := m[host := l];
  }

  // ---------- secure ----------

  ghost predicate SecureFilled(m: ListenerMap, ing: IngressObject, mentions: seq<Mention>) {
    && (forall h :: h in m <==> Secured(ing, mentions, h))
    && (forall h | h in m :: m[h] == Secure(ing, mentions, h))
  }

  lemma LastSecretSnoc(mentions: seq<Mention>, m: Mention, h: string, star: bool)
    ensures LastSecret(mentions + [m], h, star)
         == if m.host == h && (star || m.secret.Some?) then m.secret else LastSecret(mentions, h, star)
  {
    assert (mentions + [m])[..|mentions|] == mentions;
  }

  lemma {:induction false} NotMentioned(mentions: seq<Mention>, h: string, star: bool)
    requires !Mentioned(mentions, h)
    ensures LastSecret(mentions, h, star) == None
  {
    if mentions != [] {
      NotMentioned(mentions[..|mentions| - 1], h, star);
    }
  }

  lemma SecuredSnoc(ing: IngressObject, mentions: seq<Mention>, m: Mention, h: string)
    ensures Secured(ing, mentions + [m], h)
       <==> Secured(ing, mentions, h) || (m.host == h && (Star(ing) || Served(ing, ing.rules, h)))
  {
    assert (mentions + [m])[|mentions|] == m;
    assert forall i | 0 <= i < |mentions| :: (mentions + [m])[i] == mentions[i];
  }

  function WithSecret(l: HTTPListener, secret: Option<seq<TLSSecret>>): HTTPListener {
    if secret.Some? then l.(tls := secret) else l
  }

  method AddMention(ing: IngressObject, insecure: ListenerMap, secure: ListenerMap, mention: Mention, ghost mentions: seq<Mention>)
    returns (next: ListenerMap)
    requires Filled(insecure, ing, ing.rules) && SecureFilled(secure, ing, mentions)
    ensures SecureFilled(next, ing, mentions + [mention])
  {
    var host := mention.host;
    var l;
    if host in secure {
      l := secure[host];
    } else if host in insecure {
      l := insecure[host];
    } else if "*" in insecure {
      l := insecure["*"];
    } else {
      NotSecured(ing, secure, mentions, mention);
      return secure;
    }
    l := WithSecret(l, mention.secret).(port := ing.securePort, hostname := host, service := ing.service, forceHTTPSRedirect := ing.forceHTTPS);
    if "*" in insecure {
      l := WithSecret(insecure["*"], mention.secret).(hostname := host, port := ing.securePort);
    }
    next := secure[host := l];
    SecureHere(ing, insecure, secure, mentions, mention);
    NowSecured(ing, secure, mentions, mention, l);
  }

  lemma NotSecured(ing: IngressObject, secure: ListenerMap, mentions: seq<Mention>, mention: Mention)
    requires SecureFilled(secure, ing, mentions) && !Star(ing) && !Served(ing, ing.rules, mention.host)
    ensures SecureFilled(secure, ing, mentions + [mention])
  {
    SecureOthers(ing, secure, mentions, mention);
    forall h ensures h in secure <==> Secured(ing, mentions + [mention], h) {
      SecuredSnoc(ing, mentions, mention, h);
    }
  }

  lemma NowSecured(ing: IngressObject, secure: ListenerMap, mentions: seq<Mention>, mention: Mention, l: HTTPListener)
    requires SecureFilled(secure, ing, mentions) && (Star(ing) || Served(ing, ing.rules, mention.host))
    requires l == Secure(ing, mentions + [mention], mention.host)
    ensures SecureFilled(secure[mention.host := l], ing, mentions + [mention])
  {
    SecureOthers(ing, secure, mentions, mention);
    forall h ensures h in secure[mention.host := l] <==> Secured(ing, mentions + [mention], h) {
      SecuredSnoc(ing, mentions, mention, h);
    }
  }

  lemma SecureOthers(ing: IngressObject, secure: ListenerMap, mentions: seq<Mention>, mention: Mention)
    requires SecureFilled(secure, ing, mentions)
    ensures forall h | h in secure && h != mention.host :: secure[h] == Secure(ing, mentions + [mention], h)
  {
    forall h | h in secure && h != mention.host ensures secure[h] == Secure(ing, mentions + [mention], h) {
      LastSecretSnoc(mentions, mention, h, Star(ing));
    }
  }

  lemma SecureHere(ing: IngressObject, insecure: ListenerMap, secure: ListenerMap, mentions: seq<Mention>, mention: Mention)
    requires Filled(insecure, ing, ing.rules) && SecureFilled(secure, ing, mentions)
    requires Star(ing) || mention.host in secure || mention.host in insecure
    ensures var host := mention.host;
      Secure(ing, mentions + [mention], host)
      == if "*" in insecure then WithSecret(insecure["*"], mention.secret).(hostname := host, port := ing.securePort)
         else WithSecret(if host in secure then secure[host] else insecure[host], mention.secret).(
           port := ing.securePort, hostname := host, service := ing.service, forceHTTPSRedirect := ing.forceHTTPS)
  {
    LastSecretSnoc(mentions, mention, mention.host, Star(ing));
    if !Mentioned(mentions, mention.host) {
      NotMentioned(mentions, mention.host, Star(ing));
    }
  }

  method SecureListeners(ing: IngressObject, insecure: ListenerMap) returns (m: ListenerMap)
    requires Filled(insecure, ing, ing.rules)
    ensures SecureFilled(m, ing, Mentions(ing))
  {
    m := map[];
    for i := 0 to |ing.tls|
      invariant SecureFilled(m, ing, FlatMap(ConfigMentions(ing), ing.tls[..i]))
    {
      FlatMapSnoc(ConfigMentions(ing), ing.tls, i);
      m := SecureHosts(ing, insecure, m, ing.tls[i], FlatMap(ConfigMentions(ing), ing.tls[..i]));
    }
    assert ing.tls[..|ing.tls|] == ing.tls;
  }

  method SecureHosts(ing: IngressObject, insecure: ListenerMap, secure: ListenerMap, config: IngressTLS, ghost before: seq<Mention>)
    returns (m: ListenerMap)
    requires Filled(insecure, ing, ing.rules) && SecureFilled(secure, ing, before)
    ensures SecureFilled(m, ing, before + ConfigMentions(ing)(config))
  {
    m := secure;
    ghost var mentions := ConfigMentions(ing)(config);
    ghost var done := before;
    for j := 0 to |config.hosts|
      invariant done == before + mentions[..j] && SecureFilled(m, ing, done)
    {
      m := AddMention(ing, insecure, m, Mention(config.hosts[j], SecretOf(ing, config)), done);
      done := done + [mentions[j]];
    }
    assert done == before + mentions;
  }

  // ---------- the listing ----------

  // The values in the order of their keys.
  ghost predicate InKeyOrder<T>(m: map<string, T>, keys: seq<string>, values: seq<T>) {
    && StrictlyAscending(keys, Strings.Less) && (forall k :: k in keys <==> k in m)
    && |values| == |keys| && forall i | 0 <= i < |keys| :: values[i] == m[keys[i]]
  }

  method AppendValuesInKeyOrder<T>(m: map<string, T>, slice: seq<T>) returns (res: seq<T>, keys: seq<string>)
    ensures |slice| <= |res| && res[..|slice|] == slice && InKeyOrder(m, keys, res[|slice|..])
  {
    keys := SortedKeys(m);
    res := slice;
    for i := 0 to |keys|
      invariant |res| == |slice| + i && res[..|slice|] == slice
      invariant forall j | 0 <= j < i :: keys[j] in m && res[|slice| + j] == m[keys[j]]
    {
      assert keys[i] in keys;
      res := res + [m[keys[i]]];
    }
  }

  // A half sorted by host, with exactly the hosts that belong there, each listener as its host's spec says.
  ghost predicate InsecureHalf(ing: IngressObject, half: seq<HTTPListener>, hosts: seq<string>) {
    && StrictlyAscending(hosts, Strings.Less) && (forall h :: h in hosts <==> Served(ing, ing.rules, h))
    && |half| == |hosts| && forall i | 0 <= i < |hosts| :: half[i] == Insecure(ing, ing.rules, hosts[i])
  }

  ghost predicate SecureHalf(ing: IngressObject, half: seq<HTTPListener>, hosts: seq<string>) {
    && StrictlyAscending(hosts, Strings.Less) && (forall h :: h in hosts <==> Secured(ing, Mentions(ing), h))
    && |half| == |hosts| && forall i | 0 <= i < |hosts| :: half[i] == Secure(ing, Mentions(ing), hosts[i])
  }

  ghost predicate Listing(ing: IngressObject, listeners: seq<HTTPListener>, hosts: seq<string>, secured: seq<string>) {
    && |hosts| <= |listeners|
    && InsecureHalf(ing, listeners[..|hosts|], hosts) && SecureHalf(ing, listeners[|hosts|..], secured)
  }

  method Ingress(ing: IngressObject) returns (listeners: seq<HTTPListener>, hosts: seq<string>, secured: seq<string>)
    ensures Listing(ing, listeners, hosts, secured)
  {
    var insecure := InsecureListeners(ing);
    var secure := SecureListeners(ing, insecure);
    var half;
    half, hosts := AppendValuesInKeyOrder(insecure, []);
    assert half[0..] == half;
    listeners, secured := AppendValuesInKeyOrder(secure, half);
    InsecureHalfOf(ing, insecure, half, hosts);
    SecureHalfOf(ing, secure, listeners[|half|..], secured);
  }

  lemma InsecureHalfOf(ing: IngressObject, m: ListenerMap, half: seq<HTTPListener>, hosts: seq<string>)
    requires Filled(m, ing, ing.rules) && InKeyOrder(m, hosts, half)
    ensures InsecureHalf(ing, half, hosts)
  {
    forall i | 0 <= i < |hosts| ensures half[i] == Insecure(ing, ing.rules, hosts[i]) {
      ValueAt(m, hosts, half, i);
    }
  }

  lemma SecureHalfOf(ing: IngressObject, m: ListenerMap, half: seq<HTTPListener>, hosts: seq<string>)
    requires SecureFilled(m, ing, Mentions(ing)) && InKeyOrder(m, hosts, half)
    ensures SecureHalf(ing, half, hosts)
  {
    forall i | 0 <= i < |hosts| ensures half[i] == Secure(ing, Mentions(ing), hosts[i]) {
      ValueAt(m, hosts, half, i);
    }
  }

  lemma ValueAt<T>(m: map<string, T>, keys: seq<string>, values: seq<T>, i: nat)
    requires InKeyOrder(m, keys, values) && i < |keys|
    ensures keys[i] in m && values[i] == m[keys[i]]
  {
    assert keys[i] in keys;
  }

  // The Ingress has one listing.
  lemma ListingUnique(ing: IngressObject, a: seq<HTTPListener>, ha: seq<string>, sa: seq<string>, b: seq<HTTPListener>, hb: seq<string>, sb: seq<string>)
    requires Listing(ing, a, ha, sa) && Listing(ing, b, hb, sb)
    ensures a == b
  {
    StringOrder();
    StrictlyAscendingUnique(ha, hb, Strings.Less);
    StrictlyAscendingUnique(sa, sb, Strings.Less);
    assert a[..|ha|] == b[..|hb|] && a[|ha|..] == b[|hb|..];
    assert a == a[..|ha|] + a[|ha|..] && b == b[..|hb|] + b[|hb|..];
  }

  // The flag for forced HTTPS reaches the secure listeners exactly if there is no "*" listener: no default backend,
  // and no rule with paths but without a host.
  lemma ForceHTTPSKeptIff(ing: IngressObject, listeners: seq<HTTPListener>, hosts: seq<string>, secured: seq<string>)
    requires Listing(ing, listeners, hosts, secured) && ing.forceHTTPS && secured != []
    ensures (forall l | l in listeners[|hosts|..] :: l.forceHTTPSRedirect) <==> !Star(ing)
  {
    var half := listeners[|hosts|..];
    assert half[0] in half;
    forall l | l in half ensures l.forceHTTPSRedirect <==> !Star(ing) {
      var i :| 0 <= i < |half| && half[i] == l;
      assert l == Secure(ing, Mentions(ing), secured[i]);
    }
  }

  // Every ingested route forwards to one backend that has a port, so the translator can answer it.
  lemma IngressAnswerable(ing: IngressObject, listeners: seq<HTTPListener>, hosts: seq<string>, secured: seq<string>)
    requires Listing(ing, listeners, hosts, secured)
    ensures RouteConfig.AllAnswerable(listeners)
    ensures forall l, r | l in listeners && r in l.routes :: |r.backends| == 1 && r.backends[0].port.Some?
  {
    forall l, r | l in listeners && r in l.routes ensures |r.backends| == 1 && r.backends[0].port.Some? {
      var i :| 0 <= i < |listeners| && listeners[i] == l;
      var host := RoutesAreOfHost(ing, listeners, hosts, secured, i);
      ForwardsOnly(ing, host, r);
    }
  }

  // Each listener, secure or not, has the routes of some host's insecure one.
  lemma RoutesAreOfHost(ing: IngressObject, listeners: seq<HTTPListener>, hosts: seq<string>, secured: seq<string>, i: nat) returns (host: string)
    requires Listing(ing, listeners, hosts, secured) && i < |listeners|
    ensures listeners[i].routes == HostRoutes(ing, ing.rules, host)
  {
    if i < |hosts| {
      host := hosts[i];
      assert listeners[i] == listeners[..|hosts|][i];
    } else {
      var j := i - |hosts|;
      host := if Star(ing) then "*" else secured[j];
      assert listeners[i] == listeners[|hosts|..][j];
    }
  }

  lemma ForwardsOnly(ing: IngressObject, host: string, r: HTTPRoute)
    requires r in HostRoutes(ing, ing.rules, host)
    ensures |r.backends| == 1 && r.backends[0].port.Some?
  {
    if r !in DefaultRoutes(ing, host) {
      MapMembers(PathRoute(ing), FlatMap(PathsFor(host), ing.rules));
    }
  }
}
