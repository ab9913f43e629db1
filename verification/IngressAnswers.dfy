/** What the configs of the Ingress reconciler answer, request by request. */
module IngressAnswers {
  import opened Wrappers
  import opened Model
  import opened Sorting
  import opened GatewayObjects
  import opened IngressReconcile
  import opened IngressPipeline
  import RouteConfig
  import Redirects
  import VirtualHost
  import RouteMatch
  import HostRouting
  import HostSearch
  import HostPatterns
  import P = IngressPaths
  import MatchKey
  import Routing
  import IngressServing
  import Strings
  import I = IngressIngestion

  // ---------- the routes of a list of Ingresses ----------

  function ServesOn(ports: (nat, nat), host: string, secure: bool): Ingress -> seq<HTTPRoute> {
    (ing: Ingress) => if ing.passthrough then [] else IngressServing.Serves(Spec(ports, ing), host, secure)
  }

  // The routes of a host are those of every Ingress that serves it, in the order of the list.
  lemma {:induction false} RoutesByIngress(ports: (nat, nat), list: seq<Ingress>, host: string, secure: bool)
    ensures RouteConfig.RoutesFor(RouteConfig.Entries(FlatMap(HTTPOf(ports), list)), host, secure) == FlatMap(ServesOn(ports, host, secure), list)
  {
    if list != [] {
      var front, last := list[..|list| - 1], list[|list| - 1];
      RoutesByIngress(ports, front, host, secure);
      var a, b := FlatMap(HTTPOf(ports), front), HTTPOf(ports)(last);
      FlatMapConcat(RouteConfig.ListenerEntries, a, b);
      IngressServing.RoutesForConcat(RouteConfig.Entries(a), RouteConfig.Entries(b), host, secure);
      if !last.passthrough {
        IngressServing.IngressServes(Spec(ports, last), host, secure);
      }
    }
  }

  function Named(name: string): RouteConfig.RouteConfiguration -> bool {
    (r: RouteConfig.RouteConfiguration) => r.name == name
  }

  // The virtual host that Envoy finds on a side of a config for an authority.
  ghost function HostIn(config: Config, secure: bool, authority: string): Option<VirtualHost.VirtualHost> {
    HostSearch.Search(HostSearch.HostsIn(FirstMatch(config.routes, Named(RouteConfig.SideName(secure)))), authority)
  }

  lemma OneOfTwo(a: Option<RouteConfig.RouteConfiguration>, b: Option<RouteConfig.RouteConfiguration>, secure: bool)
    requires a.Some? ==> a.value.name == RouteConfig.SideName(false)
    requires b.Some? ==> b.value.name == RouteConfig.SideName(true)
    ensures FirstMatch(RouteConfig.AsSeq(a) + RouteConfig.AsSeq(b), Named(RouteConfig.SideName(secure))) == if secure then b else a
  {
    assert "listener-secure"[9] != "listener-insecure"[9];
    var both := RouteConfig.AsSeq(a) + RouteConfig.AsSeq(b);
    if a.Some? {
      assert both[1..] == RouteConfig.AsSeq(b);
    }
  }

  lemma SideFound(o: Options, http: seq<HTTPListener>, tls: seq<TLSListener>, secure: bool)
    ensures FirstMatch(Resources(o, http, tls).routes, Named(RouteConfig.SideName(secure)))
         == RouteConfig.Configuration(http, secure, o.enforceHTTPS, false)
  {
    OneOfTwo(RouteConfig.Configuration(http, false, o.enforceHTTPS, false), RouteConfig.Configuration(http, true, o.enforceHTTPS, false), secure);
  }

  // The routes of a host on a side, over the whole list.
  function RoutesOf(ports: (nat, nat), list: seq<Ingress>, host: string, secure: bool): seq<HTTPRoute> {
    FlatMap(ServesOn(ports, host, secure), list)
  }

  // Nothing but its path decides whether a route of an Ingress asks for a request.
  predicate PathOnly(r: HTTPRoute) {
    r.verb.None? && r.headersMatch == [] && r.queryParamsMatch == [] && MatchKey.SingleKind(r.pathMatch) && VirtualHost.Answerable(r)
  }

  lemma HostRoutesPathOnly(ing: I.IngressObject, host: string)
    ensures forall r | r in I.HostRoutes(ing, ing.rules, host) :: PathOnly(r)
  {
    var paths := FlatMap(I.PathsFor(host), ing.rules);
    forall r | r in Map(I.PathRoute(ing), paths) ensures PathOnly(r) {
      var i :| 0 <= i < |paths| && r == I.PathRoute(ing)(paths[i]);
    }
  }

  lemma ServesPathOnly(spec: I.IngressObject, host: string, secure: bool)
    ensures forall r | r in IngressServing.Serves(spec, host, secure) :: PathOnly(r)
  {
    HostRoutesPathOnly(spec, host);
    HostRoutesPathOnly(spec, IngressServing.BaseHost(spec, host));
  }

  lemma RoutesPathOnly(ports: (nat, nat), list: seq<Ingress>, host: string, secure: bool)
    ensures forall r | r in RoutesOf(ports, list, host, secure) :: PathOnly(r)
  {
    forall r | r in RoutesOf(ports, list, host, secure) ensures PathOnly(r) {
      FlatMapMember(ServesOn(ports, host, secure), list, r);
      var ing :| ing in list && r in ServesOn(ports, host, secure)(ing);
      ServesPathOnly(Spec(ports, ing), host, secure);
    }
  }

  lemma PathKey(r: HTTPRoute)
    requires PathOnly(r)
    ensures MatchKey.Key(r) == "path:" + MatchKey.StringMatchText(r.pathMatch) + "|"
  {
    var path := "path:" + MatchKey.StringMatchText(r.pathMatch);
    assert MatchKey.Segments(r) == [path];
    assert [path][1..] == [];
    assert MatchKey.Terminated([path]) == path + "|";
  }

  // The key of such a route is its path, so that keys are exact whatever the paths hold.
  lemma PathKeysExact(routes: seq<HTTPRoute>)
    requires forall r | r in routes :: PathOnly(r)
    ensures MatchKey.KeysExact(routes)
  {
    forall a, b | a in routes && b in routes && MatchKey.Key(a) == MatchKey.Key(b) ensures MatchKey.SameMatch(a, b) {
      PathKey(a);
      PathKey(b);
      var x, y := MatchKey.StringMatchText(a.pathMatch), MatchKey.StringMatchText(b.pathMatch);
      assert x == ("path:" + x + "|")[5..|x| + 5] && y == ("path:" + y + "|")[5..|y| + 5];
      assert |"path:" + x + "|"| == |x| + 6 && |"path:" + y + "|"| == |y| + 6;
      MatchKey.StringMatchTextInjective(a.pathMatch, b.pathMatch);
    }
  }

  // ---------- what is due ----------

  function OffersOn(host: string, secure: bool): Ingress -> seq<P.Offer> {
    (ing: Ingress) => if ing.passthrough then [] else P.SideOffers(ing.spec, host, secure)
  }

  // What the Ingresses of the list offer at a host on a side, in their order.
  function OffersOf(list: seq<Ingress>, host: string, secure: bool): seq<P.Offer> {
    FlatMap(OffersOn(host, secure), list)
  }

  // A side has a host that the list serves there or, where HTTPS is enforced, securely.
  ghost predicate Hosts(o: Options, list: seq<Ingress>, secure: bool, host: string) {
    OffersOf(list, host, secure) != [] || (o.enforceHTTPS && OffersOf(list, host, true) != [])
  }

  ghost predicate SomeHolds(offers: seq<P.Offer>, req: RouteMatch.Request) {
    exists o :: o in offers && P.Holds(o, req)
  }

  // A wildcard host is for the hosts one label below its domain. Of a host that the API server does not admit the code's
  // own test is all there is to say.
  ghost predicate Accepts(host: string, req: RouteMatch.Request) {
    if HostPatterns.HostAdmitted(host) then Strings.HasPrefix(host, "*.") ==> HostPatterns.OneBelow(req.authority, host[2..])
    else RouteMatch.AuthorityAccepted(host, false, req)
  }

  // At a host: nothing for an authority that its wildcard does not accept; a redirect in place of a secure path where
  // HTTPS is enforced; the services of the best path of all Ingresses otherwise.
  ghost predicate Due(o: Options, list: seq<Ingress>, secure: bool, host: string, req: RouteMatch.Request, answer: Option<VirtualHost.Action>) {
    if !Accepts(host, req) then answer.None?
    else if !secure && o.enforceHTTPS && OffersOf(list, host, true) != [] then
      answer == if SomeHolds(OffersOf(list, host, true), req) then Some(VirtualHost.HttpsRedirect) else None
    else P.Answer(OffersOf(list, host, secure), req, answer)
  }

  ghost predicate MostSpecific(o: Options, list: seq<Ingress>, secure: bool, host: string, authority: string) {
    && Hosts(o, list, secure, host) && HostSearch.Reaches(host, authority)
    && forall h | Hosts(o, list, secure, h) :: !HostSearch.Above(HostSearch.Rank(h, authority), HostSearch.Rank(host, authority))
  }

  // The config gives the request what is due at the most specific host that stands for its authority, and finds no host
  // if none does.
  ghost predicate Gives(o: Options, config: Config, list: seq<Ingress>, secure: bool, req: RouteMatch.Request) {
    GivenAt(o, list, secure, req, HostIn(config, secure, req.authority))
  }

  ghost predicate GivenAt(o: Options, list: seq<Ingress>, secure: bool, req: RouteMatch.Request, found: Option<VirtualHost.VirtualHost>) {
    if found.None? then forall h | Hosts(o, list, secure, h) :: !HostSearch.Reaches(h, req.authority)
    else
      && MostSpecific(o, list, secure, found.value.name, req.authority)
      && Due(o, list, secure, found.value.name, req, HostRouting.Routed(found.value.routes, req))
  }

  // In origin form, to a host without a star, with expressions read as Envoy reads them.
  ghost predicate Proper(req: RouteMatch.Request) {
    RouteMatch.WellFormed(req) && Routing.Literal(req.authority) && HostPatterns.ReadsPatterns(req)
  }

  // It does so for every request.
  ghost predicate AnswersFor(o: Options, config: Config, list: seq<Ingress>) {
    forall secure, req | Proper(req) :: Gives(o, config, list, secure, req)
  }

  // ---------- the proof ----------

  lemma SameOffersAt(ports: (nat, nat), ing: Ingress, host: string)
    ensures P.OffersAt(Spec(ports, ing), host) == P.OffersAt(ing.spec, host)
    ensures I.Star(Spec(ports, ing)) == I.Star(ing.spec) && P.ListedForTLS(Spec(ports, ing), host) == P.ListedForTLS(ing.spec, host)
  {
  }

  // Ports make no difference to what is offered.
  lemma SameOffers(ports: (nat, nat), ing: Ingress, host: string, secure: bool)
    ensures P.SideOffers(Spec(ports, ing), host, secure) == P.SideOffers(ing.spec, host, secure)
  {
    SameOffersAt(ports, ing, host);
    SameOffersAt(ports, ing, IngressServing.BaseHost(ing.spec, host));
    assert IngressServing.Secretless(Spec(ports, ing), host) == IngressServing.Secretless(ing.spec, host);
  }

  // The routes of a host are those of what is offered there.
  lemma {:induction false} RoutesOffered(ports: (nat, nat), list: seq<Ingress>, host: string, secure: bool)
    ensures RoutesOf(ports, list, host, secure) == Map(P.RouteOf, OffersOf(list, host, secure))
  {
    if list != [] {
      var front, last := list[..|list| - 1], list[|list| - 1];
      RoutesOffered(ports, front, host, secure);
      MapConcat(P.RouteOf, OffersOf(front, host, secure), OffersOn(host, secure)(last));
      if !last.passthrough {
        P.ServesOffers(Spec(ports, last), host, secure);
        SameOffers(ports, last, host, secure);
      }
    }
  }

  // What is served securely is served in the clear too, on the host itself or on the "*" it is copied from.
  lemma SecureHasInsecure(ports: (nat, nat), list: seq<Ingress>, host: string)
    requires RoutesOf(ports, list, host, true) != []
    ensures exists h :: RoutesOf(ports, list, h, false) != []
  {
    var r := RoutesOf(ports, list, host, true)[0];
    FlatMapMember(ServesOn(ports, host, true), list, r);
    var ing :| ing in list && r in ServesOn(ports, host, true)(ing);
    var base := IngressServing.BaseHost(Spec(ports, ing), host);
    assert r in ServesOn(ports, base, false)(ing);
    FlatMapMember(ServesOn(ports, base, false), list, r);
    assert RoutesOf(ports, list, base, false) != [];
  }

  // What the listeners have for a host, in terms of the list.
  lemma ListenersHave(ports: (nat, nat), list: seq<Ingress>, http: seq<HTTPListener>, host: string, secure: bool)
    requires http == FlatMap(HTTPOf(ports), list)
    ensures RouteConfig.RoutesFor(RouteConfig.Entries(http), host, secure) == Map(P.RouteOf, OffersOf(list, host, secure))
    ensures host in RouteConfig.HostsFor(RouteConfig.Entries(http), secure) <==> OffersOf(list, host, secure) != []
  {
    RoutesByIngress(ports, list, host, secure);
    RoutesOffered(ports, list, host, secure);
    Redirects.HostHasRoutes(RouteConfig.Entries(http), host, secure);
  }

  lemma HostsFound(o: Options, ports: (nat, nat), list: seq<Ingress>, http: seq<HTTPListener>, secure: bool, host: string)
    requires http == FlatMap(HTTPOf(ports), list)
    ensures HostSearch.On(http, secure, o.enforceHTTPS, host) <==> Hosts(o, list, secure, host)
  {
    forall h, side ensures h in RouteConfig.HostsFor(RouteConfig.Entries(http), side) <==> OffersOf(list, h, side) != [] {
      ListenersHave(ports, list, http, h, side);
    }
    if OffersOf(list, host, true) != [] {
      RoutesOffered(ports, list, host, true);
      SecureHasInsecure(ports, list, host);
      var h :| RoutesOf(ports, list, h, false) != [];
      RoutesOffered(ports, list, h, false);
    }
  }

  lemma PathsServable(ports: (nat, nat), list: seq<Ingress>, host: string, secure: bool)
    ensures HostRouting.Servable(Map(P.RouteOf, OffersOf(list, host, secure)))
  {
    RoutesOffered(ports, list, host, secure);
    RoutesPathOnly(ports, list, host, secure);
    PathKeysExact(RoutesOf(ports, list, host, secure));
  }

  lemma OffersUnswapped(offers: seq<P.Offer>, req: RouteMatch.Request)
    ensures Redirects.SomeSwappedAsks(Map(P.RouteOf, offers), req) <==> SomeHolds(offers, req)
  {
    var routes := Map(P.RouteOf, offers);
    MapMembers(P.RouteOf, offers);
    forall o ensures Redirects.Swapped(P.RouteOf(o)) == P.RouteOf(o) && (RouteMatch.Asked(P.RouteOf(o), req) <==> P.Holds(o, req)) {
      P.OfferAsked(o, req);
    }
    if r :| r in routes && RouteMatch.Asked(Redirects.Swapped(r), req) {
      var o :| o in offers && P.RouteOf(o) == r;
    }
  }

  lemma HostFit(o: Options, ports: (nat, nat), list: seq<Ingress>, http: seq<HTTPListener>, secure: bool, host: string)
    requires http == FlatMap(HTTPOf(ports), list)
    ensures HostSearch.Fit(http, secure, o.enforceHTTPS, host)
    ensures HostSearch.RedirectedOn(http, secure, o.enforceHTTPS, host) <==> !secure && o.enforceHTTPS && OffersOf(list, host, true) != []
  {
    ListenersHave(ports, list, http, host, secure);
    ListenersHave(ports, list, http, host, true);
    PathsServable(ports, list, host, secure);
    PathsServable(ports, list, host, true);
  }

  lemma AcceptsAgrees(host: string, req: RouteMatch.Request)
    requires HostPatterns.ReadsPatterns(req)
    ensures RouteMatch.AuthorityAccepted(host, false, req) <==> Accepts(host, req)
  {
    if HostPatterns.HostAdmitted(host) {
      HostPatterns.AcceptedIff(host, false, req);
    }
  }

  lemma DueAgrees(
    o: Options, ports: (nat, nat), list: seq<Ingress>, http: seq<HTTPListener>, secure: bool, host: string, req: RouteMatch.Request,
    answer: Option<VirtualHost.Action>)
    requires http == FlatMap(HTTPOf(ports), list) && HostPatterns.ReadsPatterns(req)
    requires HostSearch.Due(http, secure, o.enforceHTTPS, false, host, req, answer)
    ensures Due(o, list, secure, host, req, answer)
  {
    AcceptsAgrees(host, req);
    HostFit(o, ports, list, http, secure, host);
    ListenersHave(ports, list, http, host, secure);
    ListenersHave(ports, list, http, host, true);
    OffersUnswapped(OffersOf(list, host, true), req);
    if Accepts(host, req) && !HostSearch.RedirectedOn(http, secure, o.enforceHTTPS, host) {
      P.OffersAnswer(OffersOf(list, host, secure), req, RouteConfig.FirstPort(http), answer);
    }
  }

  lemma AnswersAgree(
    o: Options, ports: (nat, nat), list: seq<Ingress>, http: seq<HTTPListener>, secure: bool, req: RouteMatch.Request,
    found: Option<VirtualHost.VirtualHost>)
    requires http == FlatMap(HTTPOf(ports), list) && HostPatterns.ReadsPatterns(req)
    requires HostSearch.Answered(http, secure, o.enforceHTTPS, false, found, req)
    ensures GivenAt(o, list, secure, req, found)
  {
    forall h ensures HostSearch.On(http, secure, o.enforceHTTPS, h) <==> Hosts(o, list, secure, h) {
      HostsFound(o, ports, list, http, secure, h);
    }
    if found.Some? {
      DueAgrees(o, ports, list, http, secure, found.value.name, req, HostRouting.Routed(found.value.routes, req));
    }
  }

  lemma AllFit(o: Options, ports: (nat, nat), list: seq<Ingress>, http: seq<HTTPListener>, secure: bool)
    requires http == FlatMap(HTTPOf(ports), list)
    ensures forall h | HostSearch.On(http, secure, o.enforceHTTPS, h) :: HostSearch.Fit(http, secure, o.enforceHTTPS, h)
  {
    forall h | HostSearch.On(http, secure, o.enforceHTTPS, h) ensures HostSearch.Fit(http, secure, o.enforceHTTPS, h) {
      HostFit(o, ports, list, http, secure, h);
    }
  }

  lemma Answers(o: Options, ports: (nat, nat), list: seq<Ingress>, http: seq<HTTPListener>, config: Config, secure: bool, req: RouteMatch.Request)
    requires http == FlatMap(HTTPOf(ports), list) && config == Resources(o, http, FlatMap(TLSOf(ports), list)) && Proper(req)
    ensures Gives(o, config, list, secure, req)
  {
    AllFit(o, ports, list, http, secure);
    HostSearch.RequestAnswered(http, secure, o.enforceHTTPS, false, req);
    SideFound(o, http, FlatMap(TLSOf(ports), list), secure);
    AnswersAgree(o, ports, list, http, secure, req, HostIn(config, secure, req.authority));
  }

  lemma TranslationAnswers(o: Options, ports: (nat, nat), list: seq<Ingress>, config: Config)
    requires config == Resources(o, FlatMap(HTTPOf(ports), list), FlatMap(TLSOf(ports), list))
    ensures AnswersFor(o, config, list)
  {
    forall secure, req | Proper(req) ensures Gives(o, config, list, secure, req) {
      Answers(o, ports, list, FlatMap(HTTPOf(ports), list), config, secure, req);
    }
  }

  lemma SharedTranslationAnswers(o: Options, list: seq<Ingress>)
    ensures AnswersFor(o, Shared(o)(list), list)
  {
    TranslationAnswers(o, SharedPorts(o), list, Shared(o)(list));
  }

  // ---------- the reconciler's configs ----------

  // While the shared config is fresh, it answers for all shared Ingresses together.
  lemma FreshAnswers(o: Options, c: Settings, s: Store, list: seq<Ingress>)
    requires Wired(o, c) && SharedFresh(c, s) && SharedList(c, s.ingresses, s.isDefault, list)
    ensures AnswersFor(o, s.configs[SharedConfig(c)], list)
  {
    FreshConfig(c, s, list);
    assert SharedWired(o, c, list);
    SharedTranslationAnswers(o, list);
  }

  lemma OwnTranslationAnswers(o: Options, ing: Ingress)
    requires Own(o)(ing).Some?
    ensures AnswersFor(o, Own(o)(ing).value, [ing])
  {
    var ports := DedicatedPorts(o, ing);
    SingleFlatMap(HTTPOf(ports), ing);
    SingleFlatMap(TLSOf(ports), ing);
    TranslationAnswers(o, ports, [ing], Own(o)(ing).value);
  }

  // A settled dedicated Ingress is answered for by its own config, from its own routes alone.
  lemma SettledAnswers(o: Options, c: Settings, s: Store, key: NamespacedName)
    requires Wired(o, c) && Settled(c, s, key) && WantsDedicated(c, s, key)
    ensures AnswersFor(o, s.configs[DedicatedConfig(key)], [s.ingresses[key]])
  {
    assert OwnWired(o, c, s.ingresses[key]);
    OwnTranslationAnswers(o, s.ingresses[key]);
  }

  // Every shared Ingress is answered for by the shared config, and every dedicated one by its own.
  ghost predicate AllAnswered(o: Options, c: Settings, s: Store, list: seq<Ingress>) {
    && SharedConfig(c) in s.configs && AnswersFor(o, s.configs[SharedConfig(c)], list)
    && (forall key | WantsDedicated(c, s, key) ::
         && DedicatedConfig(key) in s.configs
         && AnswersFor(o, s.configs[DedicatedConfig(key)], [s.ingresses[key]]))
  }

  lemma ConvergedAnswers(o: Options, c: Settings, s: Store, list: seq<Ingress>)
    requires Wired(o, c)
    requires SharedFresh(c, s) && SharedList(c, s.ingresses, s.isDefault, list) && forall key | key in s.ingresses :: Settled(c, s, key)
    ensures AllAnswered(o, c, s, list)
  {
    FreshAnswers(o, c, s, list);
    forall key | WantsDedicated(c, s, key)
      ensures DedicatedConfig(key) in s.configs
      ensures AnswersFor(o, s.configs[DedicatedConfig(key)], [s.ingresses[key]])
    {
      SettledAnswers(o, c, s, key);
    }
  }

  lemma SubstantialIsServable(o: Options, c: Settings, s: Store)
    requires Wired(o, c) && Classed(s) && forall key | WantsDedicated(c, s, key) :: Substantial(s.ingresses[key])
    ensures Servable(c, s)
  {
    forall key | WantsDedicated(c, s, key) ensures c.dedicated(s.ingresses[key]).Some? {
      assert OwnWired(o, c, s.ingresses[key]);
      TranslatesIff(o, s.ingresses[key]);
    }
  }

  // From a cluster whose Ingresses all name a class and have something to translate, undisturbed runs that reach them
  // all end with every one answered for.
  lemma EventuallyAnswers(o: Options, c: Settings, states: seq<Store>, events: seq<Event>, any: nat, list: seq<Ingress>)
    requires Wired(o, c) && Undisturbed(c, states, events) && Classed(states[0])
    requires forall key | WantsDedicated(c, states[0], key) :: Substantial(states[0].ingresses[key])
    requires forall key | key in states[0].ingresses :: exists i | 0 <= i < |events| :: events[i].key == key
    requires any < |events| && !Deleting(states[0], events[any].key)
    requires SharedList(c, states[0].ingresses, states[0].isDefault, list)
    ensures states[|events|].ingresses == states[0].ingresses && AllAnswered(o, c, states[|events|], list)
  {
    SubstantialIsServable(o, c, states[0]);
    Converges(c, states, events, any);
    RunsKeepIngresses(c, states, events, |events|);
    ConvergedAnswers(o, c, states[|events|], list);
  }

  // ---------- a host below a wildcard ----------

  const WILDCARD := "*.foo.com"
  const DEEP := "a.b.foo.com"

  // A default backend, and a rule for a wildcard host.
  function Wild(source: Resource, b: I.IngressBackend): I.IngressObject {
    I.IngressObject(
      source, Some(b), [I.IngressRule(WILDCARD, Some([I.IngressPath("Prefix", "/", b)]))], [],
      Timeout(None, None), None, false, 0, 0, TLSSecret("", ""))
  }

  lemma WildOffers(source: Resource, b: I.IngressBackend, host: string)
    ensures var offers := P.SideOffers(Wild(source, b), host, false);
      && (host != "*" && host != WILDCARD ==> offers == [])
      && (host == WILDCARD ==> offers != [])
      && (host == "*" ==> P.Offer(None, b, source.namespace, Timeout(None, None)) in offers)
  {
    var spec := Wild(source, b);
    assert |WILDCARD| == 9 && |"*"| == 1;
    SingleFlatMap(P.PathsAt(host), spec.rules[0]);
    assert spec.rules == [spec.rules[0]] && FlatMap(P.PathsAt(host), spec.rules) == P.PathsAt(host)(spec.rules[0]);
  }

  lemma WildHosts(ing: Ingress, source: Resource, b: I.IngressBackend)
    requires ing.spec == Wild(source, b) && !ing.passthrough
    ensures OffersOf([ing], WILDCARD, false) != [] && P.Offer(None, b, source.namespace, Timeout(None, None)) in OffersOf([ing], "*", false)
    ensures forall h | h != "*" && h != WILDCARD :: OffersOf([ing], h, false) == []
  {
    forall h ensures OffersOf([ing], h, false) == P.SideOffers(ing.spec, h, false) {
      SingleFlatMap(OffersOn(h, false), ing);
    }
    forall h ensures h != "*" && h != WILDCARD ==> OffersOf([ing], h, false) == [] {
      WildOffers(source, b, h);
    }
    WildOffers(source, b, WILDCARD);
    WildOffers(source, b, "*");
  }

  lemma DeepRefused(req: RouteMatch.Request)
    requires req.authority == DEEP
    ensures !Accepts(WILDCARD, req)
  {
    assert WILDCARD[2..] == "foo.com" && WILDCARD[..2] == "*.";
    HostPatterns.BelowIff(DEEP, "foo.com");
    assert DEEP[1] == '.' && DEEP[2..] == "b.foo.com" && |"b.foo.com"| == 9 && |"foo.com"| == 7;
    forall k | 1 < k <= |DEEP| ensures '.' in DEEP[..k] {
      assert DEEP[..k][1] == '.';
    }
  }

  lemma DeepGiven(o: Options, list: seq<Ingress>, req: RouteMatch.Request, found: Option<VirtualHost.VirtualHost>)
    requires GivenAt(o, list, false, req, found) && !o.enforceHTTPS && req.authority == DEEP
    requires OffersOf(list, WILDCARD, false) != [] && forall h | h != "*" && h != WILDCARD :: OffersOf(list, h, false) == []
    ensures found.Some? && found.value.name == WILDCARD && HostRouting.Routed(found.value.routes, req) == None
  {
    DeepRanks();
    DeepRefused(req);
    assert Hosts(o, list, false, WILDCARD);
  }

  // Kubernetes takes the star of a wildcard host for one label. Of a request to a host two labels below, Envoy finds the
  // virtual host of the wildcard, which turns it away, and never the default backend, which is for every request.
  lemma DeepHostLost(o: Options, ports: (nat, nat), ing: Ingress, source: Resource, b: I.IngressBackend, config: Config, req: RouteMatch.Request)
    requires ing.spec == Wild(source, b) && !ing.passthrough && !o.enforceHTTPS
    requires config == Resources(o, FlatMap(HTTPOf(ports), [ing]), FlatMap(TLSOf(ports), [ing]))
    requires Proper(req) && req.authority == DEEP
    ensures var found := HostIn(config, false, DEEP);
      found.Some? && found.value.name == WILDCARD && HostRouting.Routed(found.value.routes, req) == None
    ensures HostSearch.Reaches("*", DEEP) && SomeHolds(OffersOf([ing], "*", false), req)
  {
    DeepRanks();
    WildHosts(ing, source, b);
    Answers(o, ports, [ing], FlatMap(HTTPOf(ports), [ing]), config, false, req);
    DeepGiven(o, [ing], req, HostIn(config, false, DEEP));
    assert P.Holds(P.Offer(None, b, source.namespace, Timeout(None, None)), req);
  }

  lemma DeepRanks()
    ensures HostSearch.Rank(WILDCARD, DEEP) == (3, 9) && HostSearch.Rank("*", DEEP) == (1, 0) && Routing.Literal(DEEP)
  {
    assert WILDCARD[1..] == ".foo.com" && DEEP[3..] == ".foo.com";
    assert |WILDCARD| == 9 && |DEEP| == 11;
  }
}
