/** The translators of the Ingress reconciler, and what its configs answer. */
module IngressPipeline {
  import opened Wrappers
  import opened Model
  import opened Sorting
  import opened IngressReconcile
  import RouteConfig
  import VirtualHost
  import MatchKey
  import Passthrough
  import IngressPassthrough
  import IngressServing
  import I = IngressIngestion

  datatype Options = Options(enforceHTTPS: bool, hostNetwork: bool, sharedPort: nat)

  const INSECURE_PORT := 80
  const SECURE_PORT := 443
  const HOST_PORT := 8080

  function SharedPorts(o: Options): (nat, nat) {
    if !o.hostNetwork then (INSECURE_PORT, SECURE_PORT)
    else if o.sharedPort > 0 then (o.sharedPort, o.sharedPort)
    else (HOST_PORT, HOST_PORT)
  }

  function DedicatedPorts(o: Options, ing: Ingress): (nat, nat) {
    if !o.hostNetwork then (INSECURE_PORT, SECURE_PORT)
    else if ing.hostPort.None? || ing.hostPort.value == 0 then (HOST_PORT, HOST_PORT)
    else (ing.hostPort.value, ing.hostPort.value)
  }

  // ---------- the model of a list of Ingresses ----------

  function Spec(ports: (nat, nat), ing: Ingress): I.IngressObject {
    ing.spec.(insecurePort := ports.0, securePort := ports.1)
  }

  function HTTPOf(ports: (nat, nat)): Ingress -> seq<HTTPListener> {
    (ing: Ingress) => if ing.passthrough then [] else IngressServing.Listeners(Spec(ports, ing))
  }

  function TLSOf(ports: (nat, nat)): Ingress -> seq<TLSListener> {
    (ing: Ingress) => if ing.passthrough then IngressPassthrough.TLSListenersOf(Spec(ports, ing)) else []
  }

  function Resources(o: Options, http: seq<HTTPListener>, tls: seq<TLSListener>): Config {
    Config(
      RouteConfig.AsSeq(RouteConfig.Configuration(http, false, o.enforceHTTPS, false))
      + RouteConfig.AsSeq(RouteConfig.Configuration(http, true, o.enforceHTTPS, false)),
      Passthrough.Chains(Passthrough.Uses(tls)))
  }

  function Shared(o: Options): seq<Ingress> -> Config {
    list => Resources(o, FlatMap(HTTPOf(SharedPorts(o)), list), FlatMap(TLSOf(SharedPorts(o)), list))
  }

  function NonEmpty(o: Options, http: seq<HTTPListener>, tls: seq<TLSListener>): Option<Config> {
    if http == [] && tls == [] then None else Some(Resources(o, http, tls))
  }

  function Own(o: Options): Ingress -> Option<Config> {
    ing => NonEmpty(o, HTTPOf(DedicatedPorts(o, ing))(ing), TLSOf(DedicatedPorts(o, ing))(ing))
  }

  // The settings of a reconciler with these two translators.
  ghost predicate SharedWired(o: Options, c: Settings, list: seq<Ingress>) { c.shared(list) == Shared(o)(list) }
  ghost predicate OwnWired(o: Options, c: Settings, ing: Ingress) { c.dedicated(ing) == Own(o)(ing) }

  ghost predicate Wired(o: Options, c: Settings) {
    (forall list :: SharedWired(o, c, list)) && (forall ing :: OwnWired(o, c, ing))
  }

  // ---------- ports ----------

  // A listener with TLS is on the secure port, and only hosts that a TLS section lists are.
  ghost predicate PortRight(l: HTTPListener, ing: Ingress, insecure: nat, secure: nat) {
    && (l.port == insecure || (l.port == secure && IngressServing.LastSection(ing.spec.tls, l.hostname).Some?))
    && (l.tls.Some? ==> l.port == secure)
  }

  lemma PortsOf(ports: (nat, nat), ing: Ingress, l: HTTPListener)
    requires l in HTTPOf(ports)(ing)
    ensures PortRight(l, ing, ports.0, ports.1)
  {
    var spec := Spec(ports, ing);
    MapMembers(IngressServing.InsecureAt(spec), IngressServing.ServedHosts(spec));
    MapMembers(IngressServing.SecureAt(spec), IngressServing.SecuredHosts(spec));
    if l in Map(IngressServing.SecureAt(spec), IngressServing.SecuredHosts(spec)) {
      var h :| h in IngressServing.SecuredHosts(spec) && l == IngressServing.SecureAt(spec)(h);
      IngressServing.SecuredHostsAre(spec);
      IngressServing.MentionedBySection(spec, spec.tls, h);
    }
  }

  // The listeners of the shared load balancer are on ports 80 and 443 or, on the host's network, on the one that is
  // configured, and on 8080 where none is.
  lemma SharedPortsAre(o: Options, list: seq<Ingress>, l: HTTPListener)
    requires l in FlatMap(HTTPOf(SharedPorts(o)), list)
    ensures var one := if o.sharedPort > 0 then o.sharedPort else 8080;
      exists ing :: ing in list && if o.hostNetwork then l.port == one else PortRight(l, ing, 80, 443)
  {
    FlatMapMember(HTTPOf(SharedPorts(o)), list, l);
    var ing :| ing in list && l in HTTPOf(SharedPorts(o))(ing);
    PortsOf(SharedPorts(o), ing, l);
  }

  // Those of a dedicated one likewise, with the port that the Ingress asks for.
  lemma DedicatedPortsAre(o: Options, ing: Ingress, l: HTTPListener)
    requires l in HTTPOf(DedicatedPorts(o, ing))(ing)
    ensures if !o.hostNetwork then PortRight(l, ing, 80, 443)
            else l.port == if ing.hostPort.Some? && ing.hostPort.value > 0 then ing.hostPort.value else 8080
  {
    PortsOf(DedicatedPorts(o, ing), ing, l);
  }

  lemma SingleFlatMap<T, U>(f: T -> seq<U>, x: T)
    ensures FlatMap(f, [x]) == f(x)
  {
    assert [x][..0] == [];
  }

  // ---------- the code ----------

  lemma ListenerRoutes(ing: I.IngressObject, l: HTTPListener)
    requires l in IngressServing.Listeners(ing)
    ensures exists host :: l.routes == I.HostRoutes(ing, ing.rules, host)
  {
    MapMembers(IngressServing.InsecureAt(ing), IngressServing.ServedHosts(ing));
    MapMembers(IngressServing.SecureAt(ing), IngressServing.SecuredHosts(ing));
    if l in Map(IngressServing.InsecureAt(ing), IngressServing.ServedHosts(ing)) {
      var h :| l == IngressServing.InsecureAt(ing)(h);
    } else {
      var h :| l == IngressServing.SecureAt(ing)(h);
    }
  }

  lemma HostRoutesOneKind(ing: I.IngressObject, host: string)
    ensures forall r | r in I.HostRoutes(ing, ing.rules, host) :: MatchKey.OneKind(r)
  {
    MapMembers(I.PathRoute(ing), FlatMap(I.PathsFor(host), ing.rules));
  }

  lemma ListenerAnswerable(ing: I.IngressObject, l: HTTPListener)
    requires l in IngressServing.Listeners(ing)
    ensures forall r | r in l.routes :: VirtualHost.Answerable(r) && MatchKey.OneKind(r)
  {
    IngressServing.ListenersAreListed(ing);
    I.IngressAnswerable(ing, IngressServing.Listeners(ing), IngressServing.ServedHosts(ing), IngressServing.SecuredHosts(ing));
    ListenerRoutes(ing, l);
    var host :| l.routes == I.HostRoutes(ing, ing.rules, host);
    HostRoutesOneKind(ing, host);
  }

  lemma AnyListenerAnswerable(ports: (nat, nat), list: seq<Ingress>, l: HTTPListener)
    requires l in FlatMap(HTTPOf(ports), list)
    ensures forall r | r in l.routes :: VirtualHost.Answerable(r) && MatchKey.OneKind(r)
  {
    FlatMapMember(HTTPOf(ports), list, l);
    var ing :| ing in list && l in HTTPOf(ports)(ing);
    ListenerAnswerable(Spec(ports, ing), l);
  }

  lemma AllListenersAnswerable(ports: (nat, nat), list: seq<Ingress>)
    ensures RouteConfig.AllAnswerable(FlatMap(HTTPOf(ports), list))
  {
    var http := FlatMap(HTTPOf(ports), list);
    forall l | l in http ensures forall r | r in l.routes :: VirtualHost.Answerable(r) && MatchKey.OneKind(r) {
      AnyListenerAnswerable(ports, list, l);
    }
  }

  method Ingest(ports: (nat, nat), list: seq<Ingress>) returns (http: seq<HTTPListener>, tls: seq<TLSListener>)
    ensures http == FlatMap(HTTPOf(ports), list) && tls == FlatMap(TLSOf(ports), list)
  {
    http, tls := [], [];
    for i := 0 to |list|
      invariant http == FlatMap(HTTPOf(ports), list[..i]) && tls == FlatMap(TLSOf(ports), list[..i])
    {
      FlatMapSnoc(HTTPOf(ports), list, i);
      FlatMapSnoc(TLSOf(ports), list, i);
      if list[i].passthrough {
        var more := IngressPassthrough.Ingest(Spec(ports, list[i]));
        tls := tls + more;
      } else {
        var more := IngressServing.Ingest(Spec(ports, list[i]));
        http := http + more;
      }
    }
    assert list[..|list|] == list;
  }

  method Translate(o: Options, http: seq<HTTPListener>, tls: seq<TLSListener>) returns (config: Config)
    requires RouteConfig.AllAnswerable(http)
    ensures config == Resources(o, http, tls)
  {
    var routes := RouteConfig.GetRouteConfigurations(http, o.enforceHTTPS, false);
    var backends := Passthrough.BackendsToHostnames(tls);
    var chains := Passthrough.PassthroughFilterChains(backends, Passthrough.Uses(tls));
    config := Config(routes, chains);
  }

  method TranslateShared(o: Options, list: seq<Ingress>) returns (config: Config)
    ensures config == Shared(o)(list)
  {
    var http, tls := Ingest(SharedPorts(o), list);
    AllListenersAnswerable(SharedPorts(o), list);
    config := Translate(o, http, tls);
  }

  method TranslateDedicated(o: Options, ing: Ingress) returns (config: Option<Config>)
    ensures config == Own(o)(ing)
  {
    var ports := DedicatedPorts(o, ing);
    var http, tls := Ingest(ports, [ing]);
    SingleFlatMap(HTTPOf(ports), ing);
    SingleFlatMap(TLSOf(ports), ing);
    if |http| == 0 && |tls| == 0 {
      return None;
    }
    AllListenersAnswerable(ports, [ing]);
    var translated := Translate(o, http, tls);
    config := Some(translated);
  }

  // ---------- when there is something to translate ----------

  // A default backend or a rule with paths, maybe an empty list of them; with passthrough, a named host with a path "/".
  ghost predicate Substantial(ing: Ingress) {
    if ing.passthrough then exists host :: IngressPassthrough.PassesThrough(ing.spec, host)
    else ing.spec.defaultBackend.Some? || exists rule :: rule in ing.spec.rules && rule.http.Some?
  }

  lemma ServedSomewhere(ing: I.IngressObject)
    ensures IngressServing.ServedHosts(ing) != [] <==> ing.defaultBackend.Some? || exists rule :: rule in ing.rules && rule.http.Some?
    ensures IngressServing.Listeners(ing) != [] <==> IngressServing.ServedHosts(ing) != []
  {
    IngressServing.ServedHostsAre(ing);
    IngressServing.SecuredHostsAre(ing);
    var hosts, secured := IngressServing.ServedHosts(ing), IngressServing.SecuredHosts(ing);
    if hosts != [] {
      assert I.Served(ing, ing.rules, hosts[0]);
    }
    if ing.defaultBackend.Some? {
      assert I.Served(ing, ing.rules, "*");
    } else if exists rule :: rule in ing.rules && rule.http.Some? {
      var i :| 0 <= i < |ing.rules| && ing.rules[i].http.Some?;
      assert I.Served(ing, ing.rules, I.RuleHost(ing.rules[i]));
    }
    if secured != [] {
      assert I.Secured(ing, I.Mentions(ing), secured[0]);
      assert "*" in hosts || secured[0] in hosts;
    }
  }

  lemma PassesSomewhere(spec: I.IngressObject)
    ensures IngressPassthrough.TLSListenersOf(spec) != [] <==> exists host :: IngressPassthrough.PassesThrough(spec, host)
  {
    IngressPassthrough.TLSHostsAre(spec);
    var hosts := IngressPassthrough.TLSHosts(spec);
    if hosts != [] {
      IngressPassthrough.TLSRoutesIff(spec, hosts[0]);
      assert hosts[0] in hosts;
    }
    forall host | IngressPassthrough.PassesThrough(spec, host) ensures host in hosts {
      IngressPassthrough.TLSRoutesIff(spec, host);
    }
  }

  lemma ModelsToHTTP(ports: (nat, nat), ing: Ingress)
    requires !ing.passthrough
    ensures HTTPOf(ports)(ing) != [] <==> Substantial(ing)
  {
    ServedSomewhere(Spec(ports, ing));
  }

  lemma ModelsToTLS(ports: (nat, nat), ing: Ingress)
    requires ing.passthrough
    ensures TLSOf(ports)(ing) != [] <==> Substantial(ing)
  {
    PassesSomewhere(Spec(ports, ing));
    forall host ensures IngressPassthrough.PassesThrough(Spec(ports, ing), host) <==> IngressPassthrough.PassesThrough(ing.spec, host) {}
  }

  lemma TranslatesIff(o: Options, ing: Ingress)
    ensures Own(o)(ing).Some? <==> Substantial(ing)
  {
    if ing.passthrough {
      ModelsToTLS(DedicatedPorts(o, ing), ing);
    } else {
      ModelsToHTTP(DedicatedPorts(o, ing), ing);
    }
  }
}
