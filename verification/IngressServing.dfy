/** What the listeners of one Ingress come to on each side of each host. */
module IngressServing {
  import opened Wrappers
  import opened Model
  import opened Sorting
  import opened Merging
  import opened RouteConfig
  import I = IngressIngestion
  import Clusters
  import HostRouting
  import Redirects
  import Strings
  import VirtualHost

  // ---------- the listing as a function ----------

  function IsServed(ing: I.IngressObject): string -> bool {
    h => I.Served(ing, ing.rules, h)
  }

  function IsSecured(ing: I.IngressObject): string -> bool {
    h => I.Secured(ing, I.Mentions(ing), h)
  }

  function RuleHost(rule: I.IngressRule): string { I.RuleHost(rule) }
  function MentionHost(m: I.Mention): string { m.host }

  function ServedHosts(ing: I.IngressObject): seq<string> {
    Clusters.SortedUnique(Filter(["*"] + Map(RuleHost, ing.rules), IsServed(ing)))
  }

  function SecuredHosts(ing: I.IngressObject): seq<string> {
    Clusters.SortedUnique(Filter(Map(MentionHost, I.Mentions(ing)), IsSecured(ing)))
  }

  function InsecureAt(ing: I.IngressObject): string -> HTTPListener {
    h => I.Insecure(ing, ing.rules, h)
  }

  function SecureAt(ing: I.IngressObject): string -> HTTPListener {
    h => I.Secure(ing, I.Mentions(ing), h)
  }

  function Listeners(ing: I.IngressObject): seq<HTTPListener> {
    Map(InsecureAt(ing), ServedHosts(ing)) + Map(SecureAt(ing), SecuredHosts(ing))
  }

  lemma ServedHostsAre(ing: I.IngressObject)
    ensures StrictlyAscending(ServedHosts(ing), Strings.Less)
    ensures forall h :: h in ServedHosts(ing) <==> I.Served(ing, ing.rules, h)
  {
    var all := ["*"] + Map(RuleHost, ing.rules);
    Clusters.SortedUniqueContents(Filter(all, IsServed(ing)));
    FilterMember(all, IsServed(ing));
    forall h | I.Served(ing, ing.rules, h) ensures h in all {
      if I.Named(ing.rules, h) {
        var i :| 0 <= i < |ing.rules| && I.RuleHost(ing.rules[i]) == h && ing.rules[i].http.Some?;
        assert all[i + 1] == h;
      } else {
        assert all[0] == h;
      }
    }
  }

  lemma SecuredHostsAre(ing: I.IngressObject)
    ensures StrictlyAscending(SecuredHosts(ing), Strings.Less)
    ensures forall h :: h in SecuredHosts(ing) <==> I.Secured(ing, I.Mentions(ing), h)
  {
    var mentions := I.Mentions(ing);
    var all := Map(MentionHost, mentions);
    Clusters.SortedUniqueContents(Filter(all, IsSecured(ing)));
    FilterMember(all, IsSecured(ing));
    forall h | I.Secured(ing, mentions, h) ensures h in all {
      var i :| 0 <= i < |mentions| && mentions[i].host == h;
      assert all[i] == h;
    }
  }

  lemma ListenersAreListed(ing: I.IngressObject)
    ensures I.Listing(ing, Listeners(ing), ServedHosts(ing), SecuredHosts(ing))
  {
    var first, second := Map(InsecureAt(ing), ServedHosts(ing)), Map(SecureAt(ing), SecuredHosts(ing));
    ServedHostsAre(ing);
    SecuredHostsAre(ing);
    assert Listeners(ing)[..|first|] == first && Listeners(ing)[|first|..] == second;
  }

  method Ingest(ing: I.IngressObject) returns (listeners: seq<HTTPListener>)
    ensures listeners == Listeners(ing)
  {
    var hosts, secured;
    listeners, hosts, secured := I.Ingress(ing);
    ListenersAreListed(ing);
    I.ListingUnique(ing, listeners, hosts, secured, Listeners(ing), ServedHosts(ing), SecuredHosts(ing));
  }

  // ---------- the routes of a host ----------

  lemma {:induction false} RoutesForConcat(a: seq<Entry>, b: seq<Entry>, host: string, secure: bool)
    ensures RoutesFor(a + b, host, secure) == RoutesFor(a, host, secure) + RoutesFor(b, host, secure)
  {
    if b == [] {
      assert a + b == a;
    } else {
      var front, last := b[..|b| - 1], b[|b| - 1];
      assert a + b == (a + front) + [last] && b == front + [last];
      RoutesForConcat(a, front, host, secure);
      RoutesForSnoc(a + front, last, host, secure);
      RoutesForSnoc(front, last, host, secure);
    }
  }

  function RoutesOf(host: string, secure: bool): HTTPListener -> seq<HTTPRoute> {
    l => RoutesFor(ListenerEntries(l), host, secure)
  }

  lemma {:induction false} RoutesByListener(http: seq<HTTPListener>, host: string, secure: bool)
    ensures RoutesFor(Entries(http), host, secure) == FlatMap(RoutesOf(host, secure), http)
  {
    if http != [] {
      var front, last := http[..|http| - 1], http[|http| - 1];
      RoutesByListener(front, host, secure);
      RoutesForConcat(Entries(front), ListenerEntries(last), host, secure);
    }
  }

  // A listener whose routes name no hosts serves them all on its own host, on one side.
  lemma {:induction false} PlainListener(l: HTTPListener, routes: seq<HTTPRoute>, host: string, secure: bool)
    requires forall r | r in routes :: r.hostnames == []
    ensures RoutesFor(FlatMap(RouteEntries(l), routes), host, secure)
         == if l.hostname == host && l.tls.Some? == secure then routes else []
  {
    if routes != [] {
      var front, last := routes[..|routes| - 1], routes[|routes| - 1];
      assert routes == front + [last] && last in routes;
      PlainListener(l, front, host, secure);
      assert RouteEntries(l)(last) == [Entry(l.tls.Some?, l.hostname, last)];
      RoutesForSnoc(FlatMap(RouteEntries(l), front), Entry(l.tls.Some?, l.hostname, last), host, secure);
    }
  }

  lemma {:induction false} OneOf<T(!new), U>(f: T -> seq<U>, s: seq<T>, k: nat)
    requires k < |s| && forall i | 0 <= i < |s| && i != k :: f(s[i]) == []
    ensures FlatMap(f, s) == f(s[k])
    decreases |s|
  {
    var front := s[..|s| - 1];
    if k < |s| - 1 {
      assert forall i | 0 <= i < |front| :: front[i] == s[i];
      OneOf(f, front, k);
    } else {
      NoneOf(f, front);
    }
  }

  lemma {:induction false} NoneOf<T(!new), U>(f: T -> seq<U>, s: seq<T>)
    requires forall i | 0 <= i < |s| :: f(s[i]) == []
    ensures FlatMap(f, s) == []
  {
    if s != [] {
      var front := s[..|s| - 1];
      assert forall i | 0 <= i < |front| :: front[i] == s[i];
      NoneOf(f, front);
    }
  }

  // Listeners built one for each host: those of one host are the ones built for it.
  lemma HalfServes(build: string -> HTTPListener, hosts: seq<string>, host: string, secure: bool)
    requires StrictlyAscending(hosts, Strings.Less)
    requires forall h :: build(h).hostname == h && forall r | r in build(h).routes :: r.hostnames == []
    ensures FlatMap(RoutesOf(host, secure), Map(build, hosts))
         == if host in hosts && build(host).tls.Some? == secure then build(host).routes else []
  {
    var f, half := RoutesOf(host, secure), Map(build, hosts);
    forall i | 0 <= i < |half| ensures f(half[i]) == if hosts[i] == host && build(host).tls.Some? == secure then build(host).routes else [] {
      PlainListener(half[i], half[i].routes, host, secure);
    }
    if host in hosts {
      var k :| 0 <= k < |hosts| && hosts[k] == host;
      forall i | 0 <= i < |half| && i != k ensures f(half[i]) == [] {
        StringOrder();
        assert hosts[i] != host;
      }
      OneOf(f, half, k);
    } else {
      NoneOf(f, half);
    }
  }

  lemma NoHostnames(ing: I.IngressObject, host: string)
    ensures forall r | r in I.HostRoutes(ing, ing.rules, host) :: r.hostnames == []
  {
    MapMembers(I.PathRoute(ing), FlatMap(I.PathsFor(host), ing.rules));
  }

  lemma NoHostnamesAnywhere(ing: I.IngressObject)
    ensures forall h :: forall r | r in InsecureAt(ing)(h).routes :: r.hostnames == []
    ensures forall h :: forall r | r in SecureAt(ing)(h).routes :: r.hostnames == []
  {
    forall h ensures forall r | r in InsecureAt(ing)(h).routes :: r.hostnames == [] {
      NoHostnames(ing, h);
    }
    forall h ensures forall r | r in SecureAt(ing)(h).routes :: r.hostnames == [] {
      NoHostnames(ing, BaseHost(ing, h));
    }
  }

  function BaseHost(ing: I.IngressObject, host: string): string {
    if I.Star(ing) then "*" else host
  }

  // The routes of each side of a host: its own without TLS, and those of the "*" host, or its own again, on the side
  // that the secret of its TLS decides.
  function Serves(ing: I.IngressObject, host: string, secure: bool): seq<HTTPRoute> {
    (if !secure && I.Served(ing, ing.rules, host) then I.HostRoutes(ing, ing.rules, host) else [])
    + (if I.Secured(ing, I.Mentions(ing), host) && SecureAt(ing)(host).tls.Some? == secure
       then I.HostRoutes(ing, ing.rules, BaseHost(ing, host)) else [])
  }

  lemma InsecureHalf(ing: I.IngressObject, host: string, secure: bool)
    ensures FlatMap(RoutesOf(host, secure), Map(InsecureAt(ing), ServedHosts(ing)))
         == if !secure && I.Served(ing, ing.rules, host) then I.HostRoutes(ing, ing.rules, host) else []
  {
    ServedHostsAre(ing);
    NoHostnamesAnywhere(ing);
    HalfServes(InsecureAt(ing), ServedHosts(ing), host, secure);
  }

  lemma SecureHalf(ing: I.IngressObject, host: string, secure: bool)
    ensures FlatMap(RoutesOf(host, secure), Map(SecureAt(ing), SecuredHosts(ing)))
         == if I.Secured(ing, I.Mentions(ing), host) && SecureAt(ing)(host).tls.Some? == secure
            then I.HostRoutes(ing, ing.rules, BaseHost(ing, host)) else []
  {
    SecuredHostsAre(ing);
    NoHostnamesAnywhere(ing);
    HalfServes(SecureAt(ing), SecuredHosts(ing), host, secure);
  }

  lemma IngressServes(ing: I.IngressObject, host: string, secure: bool)
    ensures RoutesFor(Entries(Listeners(ing)), host, secure) == Serves(ing, host, secure)
  {
    RoutesByListener(Listeners(ing), host, secure);
    FlatMapConcat(RoutesOf(host, secure), Map(InsecureAt(ing), ServedHosts(ing)), Map(SecureAt(ing), SecuredHosts(ing)));
    InsecureHalf(ing, host, secure);
    SecureHalf(ing, host, secure);
  }

  // ---------- a TLS host without a secret ----------

  predicate DefaultSecretSet(ing: I.IngressObject) {
    ing.defaultSecret.namespace != "" && ing.defaultSecret.name != ""
  }

  // The last TLS section that lists the host, or none.
  function LastSection(tls: seq<I.IngressTLS>, host: string): Option<I.IngressTLS> {
    if tls == [] then None
    else if host in tls[|tls| - 1].hosts then Some(tls[|tls| - 1])
    else LastSection(tls[..|tls| - 1], host)
  }

  // The section that would give the secret names none, where a "*" listener makes the last one count; otherwise none does.
  predicate Secretless(ing: I.IngressObject, host: string) {
    && !DefaultSecretSet(ing)
    && if I.Star(ing) then LastSection(ing.tls, host).Some? ==> LastSection(ing.tls, host).value.secretName == ""
       else forall i | 0 <= i < |ing.tls| && host in ing.tls[i].hosts :: ing.tls[i].secretName == ""
  }

  lemma {:induction false} LastSecretConcat(a: seq<I.Mention>, b: seq<I.Mention>, host: string, star: bool)
    ensures I.LastSecret(a + b, host, star)
         == if I.Mentioned(b, host) && (star || I.LastSecret(b, host, star).Some?) then I.LastSecret(b, host, star) else I.LastSecret(a, host, star)
  {
    if b == [] {
      assert a + b == a;
    } else {
      var front, last := b[..|b| - 1], b[|b| - 1];
      assert a + b == (a + front) + [last] && b == front + [last];
      LastSecretConcat(a, front, host, star);
      I.LastSecretSnoc(a + front, last, host, star);
      I.LastSecretSnoc(front, last, host, star);
      MentionedSnoc(front, last, host);
      if !I.Mentioned(front, host) {
        I.NotMentioned(front, host, star);
      }
    }
  }

  lemma MentionedSnoc(mentions: seq<I.Mention>, m: I.Mention, host: string)
    ensures I.Mentioned(mentions + [m], host) <==> I.Mentioned(mentions, host) || m.host == host
  {
    assert (mentions + [m])[|mentions|] == m;
    assert forall i | 0 <= i < |mentions| :: (mentions + [m])[i] == mentions[i];
  }

  lemma {:induction false} SectionSecret(ing: I.IngressObject, config: I.IngressTLS, hosts: seq<string>, host: string, star: bool)
    ensures var mentions := Map((h: string) => I.Mention(h, I.SecretOf(ing, config)), hosts);
      && (I.Mentioned(mentions, host) <==> host in hosts)
      && (host in hosts ==> I.LastSecret(mentions, host, star) == I.SecretOf(ing, config))
  {
    var f := (h: string) => I.Mention(h, I.SecretOf(ing, config));
    if hosts == [] {
    } else {
      var front, last := hosts[..|hosts| - 1], hosts[|hosts| - 1];
      assert hosts == front + [last];
      MapSnoc(f, front, last);
      SectionSecret(ing, config, front, host, star);
      I.LastSecretSnoc(Map(f, front), f(last), host, star);
      MentionedSnoc(Map(f, front), f(last), host);
      if !I.Mentioned(Map(f, front), host) {
        I.NotMentioned(Map(f, front), host, star);
      }
    }
  }

  // Some section that lists the host gives a secret.
  ghost predicate SomeSecret(ing: I.IngressObject, tls: seq<I.IngressTLS>, host: string) {
    exists i | 0 <= i < |tls| :: host in tls[i].hosts && I.SecretOf(ing, tls[i]).Some?
  }

  lemma SomeSecretSnoc(ing: I.IngressObject, tls: seq<I.IngressTLS>, last: I.IngressTLS, host: string)
    ensures SomeSecret(ing, tls + [last], host) <==> SomeSecret(ing, tls, host) || (host in last.hosts && I.SecretOf(ing, last).Some?)
  {
    assert (tls + [last])[|tls|] == last;
    assert forall i | 0 <= i < |tls| :: (tls + [last])[i] == tls[i];
  }

  // The secret is missing exactly if the sections that count name none and there is no default.
  lemma {:induction false} NoSecretIff(ing: I.IngressObject, tls: seq<I.IngressTLS>, host: string, star: bool)
    ensures I.LastSecret(FlatMap(I.ConfigMentions(ing), tls), host, star).None?
       <==> if star then LastSection(tls, host).Some? ==> I.SecretOf(ing, LastSection(tls, host).value).None?
            else !SomeSecret(ing, tls, host)
  {
    if tls != [] {
      var front, last := tls[..|tls| - 1], tls[|tls| - 1];
      assert tls == front + [last];
      NoSecretIff(ing, front, host, star);
      SomeSecretSnoc(ing, front, last, host);
      SectionSecret(ing, last, last.hosts, host, star);
      LastSecretConcat(FlatMap(I.ConfigMentions(ing), front), I.ConfigMentions(ing)(last), host, star);
    }
  }

  // A section has a secret by its own name, in the namespace of the Ingress, or else the default.
  predicate HasSecret(ing: I.IngressObject, section: I.IngressTLS) {
    section.secretName != "" || DefaultSecretSet(ing)
  }

  function SecretFrom(ing: I.IngressObject, section: I.IngressTLS): TLSSecret {
    if section.secretName != "" then TLSSecret(section.secretName, ing.source.namespace) else ing.defaultSecret
  }

  // The section that decides about the host: the last that lists it or, without a "*" listener, the last of those that has
  // a secret.
  ghost predicate Decides(ing: I.IngressObject, tls: seq<I.IngressTLS>, host: string, star: bool, k: nat) {
    && k < |tls| && host in tls[k].hosts && HasSecret(ing, tls[k])
    && forall j | k < j < |tls| && host in tls[j].hosts :: !star && !HasSecret(ing, tls[j])
  }

  ghost predicate Decided(ing: I.IngressObject, tls: seq<I.IngressTLS>, host: string, star: bool, secret: seq<TLSSecret>) {
    exists k: nat :: Decides(ing, tls, host, star, k) && secret == [SecretFrom(ing, tls[k])]
  }

  lemma {:induction false} SecretDecided(ing: I.IngressObject, tls: seq<I.IngressTLS>, host: string, star: bool)
    ensures var secret := I.LastSecret(FlatMap(I.ConfigMentions(ing), tls), host, star);
      secret.Some? ==> Decided(ing, tls, host, star, secret.value)
  {
    if tls != [] {
      var front, last := tls[..|tls| - 1], tls[|tls| - 1];
      assert tls == front + [last];
      SecretDecided(ing, front, host, star);
      SectionSecret(ing, last, last.hosts, host, star);
      LastSecretConcat(FlatMap(I.ConfigMentions(ing), front), I.ConfigMentions(ing)(last), host, star);
      if host in last.hosts && HasSecret(ing, last) {
        assert Decides(ing, tls, host, star, |front|);
      } else if I.LastSecret(FlatMap(I.ConfigMentions(ing), front), host, star).Some? && (star ==> host !in last.hosts) {
        var k: nat :| Decides(ing, front, host, star, k)
          && I.LastSecret(FlatMap(I.ConfigMentions(ing), front), host, star).value == [SecretFrom(ing, front[k])];
        assert Decides(ing, tls, host, star, k) && tls[k] == front[k];
      }
    }
  }

  // The secret of a secure listener is that of the section that decides about its host.
  lemma SecretIs(ing: I.IngressObject, host: string)
    ensures var l := SecureAt(ing)(host); l.tls.Some? ==> Decided(ing, ing.tls, host, I.Star(ing), l.tls.value)
  {
    SecretDecided(ing, ing.tls, host, I.Star(ing));
  }

  // A host with TLS but no secret is served on the insecure side, beside its own routes; otherwise the insecure side has
  // just those. The condition is exact where there are routes to add.
  lemma SecureSideLostIff(ing: I.IngressObject, host: string)
    requires I.Secured(ing, I.Mentions(ing), host) && I.HostRoutes(ing, ing.rules, BaseHost(ing, host)) != []
    ensures RoutesFor(Entries(Listeners(ing)), host, true) == [] <==> Secretless(ing, host)
    ensures RoutesFor(Entries(Listeners(ing)), host, false)
         == (if I.Served(ing, ing.rules, host) then I.HostRoutes(ing, ing.rules, host) else [])
            + (if Secretless(ing, host) then I.HostRoutes(ing, ing.rules, BaseHost(ing, host)) else [])
  {
    IngressServes(ing, host, true);
    IngressServes(ing, host, false);
    TLSMissingIff(ing, host);
  }

  lemma TLSMissingIff(ing: I.IngressObject, host: string)
    requires I.Mentioned(I.Mentions(ing), host)
    ensures SecureAt(ing)(host).tls.None? <==> Secretless(ing, host)
  {
    NoSecretIff(ing, ing.tls, host, I.Star(ing));
    assert SecureAt(ing)(host).tls == I.LastSecret(I.Mentions(ing), host, I.Star(ing));
    if DefaultSecretSet(ing) {
      MentionedBySection(ing, ing.tls, host);
      LastSectionIff(ing.tls, host);
    }
  }

  lemma {:induction false} MentionedBySection(ing: I.IngressObject, tls: seq<I.IngressTLS>, host: string)
    ensures I.Mentioned(FlatMap(I.ConfigMentions(ing), tls), host) <==> LastSection(tls, host).Some?
  {
    if tls != [] {
      var front, last := tls[..|tls| - 1], tls[|tls| - 1];
      MentionedBySection(ing, front, host);
      SectionSecret(ing, last, last.hosts, host, true);
      MentionedConcat(FlatMap(I.ConfigMentions(ing), front), I.ConfigMentions(ing)(last), host);
    }
  }

  lemma {:induction false} LastSectionIff(tls: seq<I.IngressTLS>, host: string)
    ensures LastSection(tls, host).Some? <==> exists i | 0 <= i < |tls| :: host in tls[i].hosts
  {
    if tls != [] {
      var front := tls[..|tls| - 1];
      assert forall i | 0 <= i < |front| :: tls[i] == front[i];
      LastSectionIff(front, host);
    }
  }

  lemma MentionedConcat(a: seq<I.Mention>, b: seq<I.Mention>, host: string)
    ensures I.Mentioned(a + b, host) <==> I.Mentioned(a, host) || I.Mentioned(b, host)
  {
    assert forall i | 0 <= i < |a| :: (a + b)[i] == a[i];
    assert forall i | 0 <= i < |b| :: (a + b)[|a| + i] == b[i];
  }

  lemma {:induction false} AllBackendsConcat(a: seq<HTTPRoute>, b: seq<HTTPRoute>)
    ensures VirtualHost.AllBackends(a + b) == VirtualHost.AllBackends(a) + VirtualHost.AllBackends(b)
  {
    if a == [] {
      assert a + b == b;
    } else {
      assert (a + b)[1..] == a[1..] + b;
      AllBackendsConcat(a[1..], b);
    }
  }

  // Without a "*" listener those are the host's routes twice over, so that every backend is listed twice.
  lemma BackendsDoubled(ing: I.IngressObject, host: string, r: HTTPRoute)
    requires I.Secured(ing, I.Mentions(ing), host) && Secretless(ing, host) && !I.Star(ing)
    requires I.HostRoutes(ing, ing.rules, host) != []
    ensures var once := HostRouting.Group(I.HostRoutes(ing, ing.rules, host), r);
      VirtualHost.AllBackends(HostRouting.Group(RoutesFor(Entries(Listeners(ing)), host, false), r))
      == VirtualHost.AllBackends(once) + VirtualHost.AllBackends(once)
  {
    var routes := I.HostRoutes(ing, ing.rules, host);
    SecureSideLostIff(ing, host);
    FilterConcat(routes, routes, HostRouting.SameAs(r));
    AllBackendsConcat(HostRouting.Group(routes, r), HostRouting.Group(routes, r));
  }

  // One rule for one host, with TLS for that host and no secret at all.
  function Bare(source: Resource, b: I.IngressBackend): I.IngressObject {
    I.IngressObject(
      source, None, [I.IngressRule("h", Some([I.IngressPath("Prefix", "/", b)]))], [I.IngressTLS(["h"], "")],
      Timeout(None, None), None, false, 80, 443, TLSSecret("", ""))
  }

  lemma BareRoutes(source: Resource, b: I.IngressBackend)
    ensures var ing := Bare(source, b);
      && I.HostRoutes(ing, ing.rules, "h") == [I.Forward(StringMatch("/", "", ""), b, ing)]
      && !I.Star(ing) && I.Secured(ing, I.Mentions(ing), "h")
  {
    var ing := Bare(source, b);
    var rule := ing.rules[0];
    assert I.RuleHost(rule) == "h" && "h"[0] != "*"[0];
    assert [rule][..0] == [] && FlatMap(I.PathsFor("h"), [rule]) == I.PathsFor("h")(rule);
    assert I.Named(ing.rules, "h");
    var m := I.ConfigMentions(ing)(ing.tls[0]);
    assert [ing.tls[0]][..0] == [] && I.Mentions(ing) == m && m[0].host == "h";
  }

  // Its secure side is empty, and in the clear its one route is there twice.
  lemma SecureSideLostExample(source: Resource, b: I.IngressBackend)
    ensures var ing := Bare(source, b);
      var r := I.Forward(StringMatch("/", "", ""), b, ing);
      RoutesFor(Entries(Listeners(ing)), "h", true) == [] && RoutesFor(Entries(Listeners(ing)), "h", false) == [r, r]
  {
    var ing := Bare(source, b);
    BareRoutes(source, b);
    assert Secretless(ing, "h");
    SecureSideLostIff(ing, "h");
  }

  // ---------- forced HTTPS ----------

  // Whether the Ingress forces HTTPS makes no difference to the configurations.
  lemma ForceHTTPSIgnored(ing: I.IngressObject, force: bool, secure: bool, enforceHTTPS: bool, suffix: bool)
    ensures Configuration(Listeners(ing.(forceHTTPS := force)), secure, enforceHTTPS, suffix)
         == Configuration(Listeners(ing), secure, enforceHTTPS, suffix)
  {
    var other := ing.(forceHTTPS := force);
    SameListing(ing, other);
    Redirects.FlagIgnored(Listeners(other), Listeners(ing), secure, enforceHTTPS, suffix);
  }

  lemma SameListing(ing: I.IngressObject, other: I.IngressObject)
    requires other == ing.(forceHTTPS := other.forceHTTPS)
    ensures Map(Redirects.Unflagged, Listeners(other)) == Map(Redirects.Unflagged, Listeners(ing))
  {
    SameHosts(ing, other);
    SameInsecure(ing, other);
    SameSecure(ing, other);
    UnflaggedHalves(InsecureAt(ing), SecureAt(ing), InsecureAt(other), SecureAt(other), ServedHosts(ing), SecuredHosts(ing));
  }

  lemma SameInsecure(ing: I.IngressObject, other: I.IngressObject)
    requires other == ing.(forceHTTPS := other.forceHTTPS)
    ensures forall h :: Redirects.Unflagged(InsecureAt(other)(h)) == Redirects.Unflagged(InsecureAt(ing)(h))
  {
    forall h ensures Redirects.Unflagged(InsecureAt(other)(h)) == Redirects.Unflagged(InsecureAt(ing)(h)) {
      SameRoutes(ing, other, h);
    }
  }

  lemma SameSecure(ing: I.IngressObject, other: I.IngressObject)
    requires other == ing.(forceHTTPS := other.forceHTTPS)
    ensures forall h :: Redirects.Unflagged(SecureAt(other)(h)) == Redirects.Unflagged(SecureAt(ing)(h))
  {
    forall h ensures Redirects.Unflagged(SecureAt(other)(h)) == Redirects.Unflagged(SecureAt(ing)(h)) {
      SameMentions(ing, other, ing.tls);
      SameRoutes(ing, other, BaseHost(ing, h));
    }
  }

  lemma UnflaggedHalves(
    a: string -> HTTPListener, b: string -> HTTPListener, a': string -> HTTPListener, b': string -> HTTPListener, first: seq<string>, second: seq<string>)
    requires forall h :: Redirects.Unflagged(a'(h)) == Redirects.Unflagged(a(h))
    requires forall h :: Redirects.Unflagged(b'(h)) == Redirects.Unflagged(b(h))
    ensures Map(Redirects.Unflagged, Map(a', first) + Map(b', second)) == Map(Redirects.Unflagged, Map(a, first) + Map(b, second))
  {
    UnflaggedHalf(a, a', first);
    UnflaggedHalf(b, b', second);
    MapConcat(Redirects.Unflagged, Map(a, first), Map(b, second));
    MapConcat(Redirects.Unflagged, Map(a', first), Map(b', second));
  }

  lemma UnflaggedHalf(f: string -> HTTPListener, g: string -> HTTPListener, hosts: seq<string>)
    requires forall h :: Redirects.Unflagged(f(h)) == Redirects.Unflagged(g(h))
    ensures Map(Redirects.Unflagged, Map(f, hosts)) == Map(Redirects.Unflagged, Map(g, hosts))
  {
  }

  lemma SameHosts(ing: I.IngressObject, other: I.IngressObject)
    requires other == ing.(forceHTTPS := other.forceHTTPS)
    ensures ServedHosts(other) == ServedHosts(ing) && SecuredHosts(other) == SecuredHosts(ing)
  {
    SameMentions(ing, other, ing.tls);
    ServedHostsAre(ing);
    ServedHostsAre(other);
    SecuredHostsAre(ing);
    SecuredHostsAre(other);
    StringOrder();
    StrictlyAscendingUnique(ServedHosts(ing), ServedHosts(other), Strings.Less);
    StrictlyAscendingUnique(SecuredHosts(ing), SecuredHosts(other), Strings.Less);
  }

  lemma SameRoutes(ing: I.IngressObject, other: I.IngressObject, h: string)
    requires other == ing.(forceHTTPS := other.forceHTTPS)
    ensures I.HostRoutes(other, other.rules, h) == I.HostRoutes(ing, ing.rules, h)
  {
    var paths := FlatMap(I.PathsFor(h), ing.rules);
    assert Map(I.PathRoute(other), paths) == Map(I.PathRoute(ing), paths);
  }

  lemma {:induction false} SameMentions(ing: I.IngressObject, other: I.IngressObject, tls: seq<I.IngressTLS>)
    requires other == ing.(forceHTTPS := other.forceHTTPS)
    ensures FlatMap(I.ConfigMentions(other), tls) == FlatMap(I.ConfigMentions(ing), tls)
  {
    if tls != [] {
      SameMentions(ing, other, tls[..|tls| - 1]);
      assert I.ConfigMentions(other)(tls[|tls| - 1]) == I.ConfigMentions(ing)(tls[|tls| - 1]);
    }
  }
}
