/** What a Gateway reports of one listener: the kinds of routes it supports, and its conditions. */
module ListenerChecks {
  import opened Wrappers
  import opened Sorting
  import opened GatewayObjects
  import Merging

  datatype RouteKind = RouteKind(group: Option<string>, kind: string)

  datatype Certificate = Certificate(group: Option<string>, kind: Option<string>, namespace: Option<string>, name: string)

  // The allowed kinds, empty where none are listed, and the certificates, empty where there is no TLS.
  datatype ListenerSpec = ListenerSpec(protocol: string, kinds: seq<RouteKind>, certificates: seq<Certificate>)

  datatype GrantFrom = GrantFrom(group: string, kind: string, namespace: string)
  datatype GrantTo = GrantTo(group: string, kind: string, name: Option<string>)
  datatype Grant = Grant(namespace: string, from: seq<GrantFrom>, to: seq<GrantTo>)

  // The Gateway's namespace and generation, the grants, and the Secrets whose certificate and key are in PEM format.
  datatype Context = Context(namespace: string, generation: int, grants: seq<Grant>, secrets: set<NamespacedName>)

  datatype Reported = Reported(kind: string, status: bool, reason: string, message: string, generation: int)

  // ---------- kinds ----------

  function SupportedKind(protocol: string): (string, string) {
    match protocol
    case "HTTP" => (GATEWAY_GROUP, "HTTPRoute")
    case "TLS" => (GATEWAY_GROUP, "TLSRoute")
    case "HTTPS" => (GATEWAY_GROUP, "HTTPRoute")
    case "TCP" => (GATEWAY_GROUP, "TCPRoute")
    case "UDP" => (GATEWAY_GROUP, "UDPRoute")
    case _ => ("Unknown", "unkown")
  }

  function GroupOr(group: Option<string>, default_: string): string {
    if group.Some? && group.value != "" then group.value else default_
  }

  predicate Supports(protocol: string, k: RouteKind) {
    (GroupOr(k.group, GATEWAY_GROUP), k.kind) == SupportedKind(protocol)
  }

  function Supporting(protocol: string): RouteKind -> bool {
    k => Supports(protocol, k)
  }

  predicate KindsSupported(l: ListenerSpec) {
    forall k | k in l.kinds :: Supports(l.protocol, k)
  }

  function KindsOf(l: ListenerSpec): seq<RouteKind> {
    if l.kinds != [] then Filter(l.kinds, Supporting(l.protocol))
    else [RouteKind(Some(SupportedKind(l.protocol).0), SupportedKind(l.protocol).1)]
  }

  // ---------- certificates ----------

  predicate IsSecret(c: Certificate) {
    (c.kind.None? || c.kind.value == "Secret") && (c.group.None? || c.group.value == "")
  }

  predicate GrantedBy(gw: Context, c: Certificate, g: Grant) {
    && g.namespace == NamespaceOr(c.namespace, gw.namespace)
    && (exists f :: f in g.from && f == GrantFrom(GATEWAY_GROUP, "Gateway", gw.namespace))
    && (exists t :: t in g.to && t.group == "" && t.kind == "Secret" && (t.name.None? || t.name.value == c.name))
  }

  predicate Permitted(gw: Context, c: Certificate) {
    NamespaceOr(c.namespace, gw.namespace) == gw.namespace || exists g :: g in gw.grants && GrantedBy(gw, c, g)
  }

  predicate Usable(gw: Context, c: Certificate) {
    IsSecret(c) && Permitted(gw, c) && NamespacedName(NamespaceOr(c.namespace, gw.namespace), c.name) in gw.secrets
  }

  function Faulty(gw: Context): Certificate -> bool {
    c => !Usable(gw, c)
  }

  // What is wrong with a certificate.
  function Fault(gw: Context, c: Certificate): (string, string) {
    if IsSecret(c) && !Permitted(gw, c) then ("RefNotPermitted", "CertificateRef is not permitted")
    else ("InvalidCertificateRef", "Invalid CertificateRef")
  }

  function FirstFault(gw: Context, l: ListenerSpec): Option<Certificate> {
    FirstMatch(l.certificates, Faulty(gw))
  }

  // ---------- conditions ----------

  const INVALID := Reported("Programmed", false, "Invalid", "Invalid CertificateRef", 0)

  function Unresolved(gw: Context, c: Certificate): Reported {
    Reported("ResolvedRefs", false, Fault(gw, c).0, Fault(gw, c).1, 0)
  }

  function Sound(gw: Context): seq<Reported> {
    [Reported("Programmed", true, "Programmed", "Listener Programmed", gw.generation),
     Reported("Accepted", true, "Accepted", "Listener Accepted", gw.generation),
     Reported("ResolvedRefs", true, "ResolvedRefs", "Resolved Refs", 0)]
  }

  // The conditions, case by case.
  function ConditionsOf(gw: Context, l: ListenerSpec): seq<Reported> {
    var bad := FirstFault(gw, l);
    if KindsSupported(l) then
      if bad.None? then Sound(gw) else [INVALID, Sound(gw)[1], Unresolved(gw, bad.value)]
    else
      [if bad.None? then Reported("ResolvedRefs", true, "InvalidRouteKinds", "Invalid Route Kinds", gw.generation) else Unresolved(gw, bad.value),
       INVALID]
  }

  predicate Says(conditions: seq<Reported>, kind: string, status: bool) {
    exists i | 0 <= i < |conditions| :: conditions[i].kind == kind && conditions[i].status == status
  }

  predicate CertificatesUsable(gw: Context, l: ListenerSpec) {
    forall c | c in l.certificates :: Usable(gw, c)
  }

  lemma {:induction false} FaultFound(certificates: seq<Certificate>, gw: Context)
    ensures FirstMatch(certificates, Faulty(gw)).None? <==> forall c | c in certificates :: Usable(gw, c)
  {
    if certificates != [] {
      FaultFound(certificates[1..], gw);
      assert certificates == [certificates[0]] + certificates[1..];
    }
  }

  // A listener is programmed exactly if its kinds are supported and its certificates can be used. Accepted depends on the
  // kinds alone, and where they are not supported it is not reported at all. ResolvedRefs depends on the certificates alone.
  lemma ConditionsDecide(gw: Context, l: ListenerSpec)
    ensures var cs := ConditionsOf(gw, l);
      && (Says(cs, "Programmed", true) <==> KindsSupported(l) && CertificatesUsable(gw, l))
      && Says(cs, "Programmed", false) == !Says(cs, "Programmed", true)
      && (Says(cs, "Accepted", true) <==> KindsSupported(l)) && !Says(cs, "Accepted", false)
      && (Says(cs, "ResolvedRefs", true) <==> CertificatesUsable(gw, l))
      && Says(cs, "ResolvedRefs", false) == !Says(cs, "ResolvedRefs", true)
  {
    FaultFound(l.certificates, gw);
    var cs := ConditionsOf(gw, l);
    assert "Programmed"[0] == 'P' && "Accepted"[0] == 'A' && "ResolvedRefs"[0] == 'R';
    assert forall i | 0 <= i < |cs| :: cs[i].kind in {"Programmed", "Accepted", "ResolvedRefs"};
    assert KindsSupported(l) ==> cs[0].kind == "Programmed" && cs[1].kind == "Accepted" && cs[2].kind == "ResolvedRefs";
    assert !KindsSupported(l) ==> cs[0].kind == "ResolvedRefs" && cs[1].kind == "Programmed";
  }

  // The reasons: a listener is told that it is programmed, accepted and resolved, or that it is invalid and, of its first
  // certificate at fault, whether that is not permitted or cannot be used.
  lemma ReasonsGiven(gw: Context, l: ListenerSpec, c: Reported)
    requires c in ConditionsOf(gw, l)
    ensures c.kind == "Programmed" ==> c.reason == if KindsSupported(l) && CertificatesUsable(gw, l) then "Programmed" else "Invalid"
    ensures c.kind == "Accepted" ==> c.reason == "Accepted" && c.generation == gw.generation
    ensures c.kind == "Programmed" && c.status ==> c.generation == gw.generation
    ensures c.kind == "ResolvedRefs" && !c.status ==>
      exists k: nat :: FirstAtFault(l.certificates, gw, k) && c.reason == ReasonFor(gw, l.certificates[k])
  {
    FaultFound(l.certificates, gw);
    assert "Programmed"[0] == 'P' && "Accepted"[0] == 'A' && "ResolvedRefs"[0] == 'R';
    if FirstFault(gw, l).Some? {
      var k := FaultAt(l.certificates, gw);
    }
  }

  function ReasonFor(gw: Context, c: Certificate): string {
    if IsSecret(c) && !Permitted(gw, c) then "RefNotPermitted" else "InvalidCertificateRef"
  }

  ghost predicate FirstAtFault(certificates: seq<Certificate>, gw: Context, k: nat) {
    k < |certificates| && !Usable(gw, certificates[k]) && forall j | 0 <= j < k :: Usable(gw, certificates[j])
  }

  lemma {:induction false} FaultAt(certificates: seq<Certificate>, gw: Context) returns (k: nat)
    requires FirstMatch(certificates, Faulty(gw)).Some?
    ensures FirstAtFault(certificates, gw, k) && FirstMatch(certificates, Faulty(gw)).value == certificates[k]
  {
    k := 0;
    if Usable(gw, certificates[0]) {
      var j := FaultAt(certificates[1..], gw);
      k := j + 1;
      assert forall i | 1 <= i < k :: certificates[i] == certificates[1..][i - 1];
    }
  }

  // The Gateway API wants ResolvedRefs to be false where a kind is not supported as well. That holds if and only if there
  // is none, or a certificate is at fault too.
  lemma ResolvedRefsRightIff(gw: Context, l: ListenerSpec)
    ensures (Says(ConditionsOf(gw, l), "ResolvedRefs", true) <==> KindsSupported(l) && CertificatesUsable(gw, l))
       <==> KindsSupported(l) || !CertificatesUsable(gw, l)
  {
    ConditionsDecide(gw, l);
  }

  // A listener for HTTP that allows GRPCRoutes: its references are reported as resolved.
  lemma UnsupportedKindResolved(gw: Context)
    ensures var l := ListenerSpec("HTTP", [RouteKind(None, "GRPCRoute")], []);
      !KindsSupported(l) && Says(ConditionsOf(gw, l), "ResolvedRefs", true) && KindsOf(l) == []
  {
    var l := ListenerSpec("HTTP", [RouteKind(None, "GRPCRoute")], []);
    assert "GRPCRoute"[0] != "HTTPRoute"[0];
    assert l.kinds[0] in l.kinds;
    ConditionsDecide(gw, l);
  }

  // A grant in the namespace lets Gateways of this one's namespace use the Secret.
  ghost predicate Grants(g: Grant, gw: Context, namespace: string, name: string) {
    && g.namespace == namespace && GrantFrom("gateway.networking.k8s.io", "Gateway", gw.namespace) in g.from
    && (GrantTo("", "Secret", None) in g.to || GrantTo("", "Secret", Some(name)) in g.to)
  }

  // A certificate can be used exactly if it is a core Secret that holds one, of the Gateway's own namespace or granted.
  lemma UsableIff(gw: Context, c: Certificate)
    ensures Usable(gw, c) <==>
      && c.kind in {None, Some("Secret")} && c.group in {None, Some("")}
      && exists namespace :: (c.namespace == Some(namespace) || (c.namespace.None? && namespace == gw.namespace))
           && NamespacedName(namespace, c.name) in gw.secrets
           && (namespace == gw.namespace || exists g :: g in gw.grants && Grants(g, gw, namespace, c.name))
  {
    var namespace := if c.namespace.Some? then c.namespace.value else gw.namespace;
    forall g ensures GrantedBy(gw, c, g) <==> Grants(g, gw, namespace, c.name) {
      GrantedIff(gw, c, g, namespace);
    }
  }

  lemma GrantedIff(gw: Context, c: Certificate, g: Grant, namespace: string)
    requires c.namespace == Some(namespace) || (c.namespace.None? && namespace == gw.namespace)
    ensures GrantedBy(gw, c, g) <==> Grants(g, gw, namespace, c.name)
  {
    if t :| t in g.to && t.group == "" && t.kind == "Secret" && (t.name.None? || t.name.value == c.name) {
      assert t == GrantTo("", "Secret", t.name) && (t.name == None || t.name == Some(c.name));
    }
  }

  // The kind of route for each protocol.
  const KINDS: set<(string, string)> :=
    {("HTTP", "HTTPRoute"), ("HTTPS", "HTTPRoute"), ("TLS", "TLSRoute"), ("TCP", "TCPRoute"), ("UDP", "UDPRoute")}

  predicate OfGatewayAPI(group: Option<string>) {
    group in {None, Some(""), Some("gateway.networking.k8s.io")}
  }

  // A listed kind is supported exactly if it is the one for the protocol, in the Gateway API's group or none. A listener
  // that lists no kind reports that one.
  lemma SupportsIff(protocol: string, kind: string)
    requires exists known :: (protocol, known) in KINDS
    ensures forall group :: Supports(protocol, RouteKind(group, kind)) <==> (protocol, kind) in KINDS && OfGatewayAPI(group)
    ensures forall certificates ::
      KindsOf(ListenerSpec(protocol, [], certificates)) == [RouteKind(Some("gateway.networking.k8s.io"), kind)] <==> (protocol, kind) in KINDS
  {
    assert |"HTTP"| == 4 && |"HTTPS"| == 5 && "TLS"[1] == 'L' && "TCP"[1] == 'C' && "UDP"[1] == 'D';
    assert "HTTPRoute"[0] == 'H' && "TLSRoute"[1] == 'L' && "TCPRoute"[1] == 'C' && "UDPRoute"[1] == 'D';
  }

  // ---------- the code ----------

  function Put(conditions: seq<Reported>, c: Reported): seq<Reported> {
    if conditions == [] then [c]
    else if conditions[0].kind == c.kind then [c] + conditions[1..]
    else [conditions[0]] + Put(conditions[1..], c)
  }

  // merge, for one update.
  method MergeCondition(conditions: seq<Reported>, c: Reported) returns (merged: seq<Reported>)
    ensures merged == Put(conditions, c)
  {
    for j := 0 to |conditions|
      invariant forall k | 0 <= k < j :: conditions[k].kind != c.kind
    {
      if conditions[j].kind == c.kind {
        merged := conditions;
        if conditions[j] != c {
          merged := conditions[j := c];
        }
        PutAt(conditions, c, j);
        return;
      }
    }
    PutAt(conditions, c, |conditions|);
    merged := conditions + [c];
  }

  lemma {:induction false} PutAt(conditions: seq<Reported>, c: Reported, j: nat)
    requires j <= |conditions| && (forall k | 0 <= k < j :: conditions[k].kind != c.kind) && (j < |conditions| ==> conditions[j].kind == c.kind)
    ensures Put(conditions, c) == if j < |conditions| then conditions[j := c] else conditions + [c]
  {
    if 0 < j {
      PutAt(conditions[1..], c, j - 1);
    }
  }

  method CheckKinds(l: ListenerSpec) returns (kinds: seq<RouteKind>, invalid: bool)
    ensures kinds == KindsOf(l) && (invalid <==> !KindsSupported(l))
  {
    kinds, invalid := [], false;
    if |l.kinds| != 0 {
      for i := 0 to |l.kinds|
        invariant kinds == Filter(l.kinds[..i], Supporting(l.protocol))
        invariant invalid <==> exists j | 0 <= j < i :: !Supports(l.protocol, l.kinds[j])
      {
        TakeSnoc(l.kinds, i);
        Merging.FilterSnoc(l.kinds[..i], l.kinds[i], Supporting(l.protocol));
        if Supports(l.protocol, l.kinds[i]) {
          kinds := kinds + [l.kinds[i]];
        } else {
          invalid := true;
        }
      }
      assert l.kinds[..|l.kinds|] == l.kinds;
    } else {
      kinds := [RouteKind(Some(SupportedKind(l.protocol).0), SupportedKind(l.protocol).1)];
    }
  }

  // isReferenceAllowed
  method ReferenceAllowed(gw: Context, c: Certificate) returns (allowed: bool)
    ensures allowed <==> Permitted(gw, c)
  {
    var namespace := if c.namespace.Some? then c.namespace.value else gw.namespace;
    if gw.namespace == namespace {
      return true;
    }
    for i := 0 to |gw.grants|
      invariant forall j | 0 <= j < i :: !GrantedBy(gw, c, gw.grants[j])
    {
      allowed := GrantAllows(gw, c, gw.grants[i], namespace);
      if allowed {
        assert gw.grants[i] in gw.grants;
        return;
      }
    }
    return false;
  }

  method GrantAllows(gw: Context, c: Certificate, g: Grant, namespace: string) returns (allowed: bool)
    requires namespace == NamespaceOr(c.namespace, gw.namespace)
    ensures allowed <==> GrantedBy(gw, c, g)
  {
    if g.namespace != namespace {
      return false;
    }
    for i := 0 to |g.from|
      invariant GrantFrom(GATEWAY_GROUP, "Gateway", gw.namespace) !in g.from[..i] || !GrantedBy(gw, c, g)
    {
      var from := g.from[i];
      if from.group == GATEWAY_GROUP && from.kind == "Gateway" && from.namespace == gw.namespace {
        for j := 0 to |g.to|
          invariant forall k | 0 <= k < j :: !(g.to[k].group == "" && g.to[k].kind == "Secret" && (g.to[k].name.None? || g.to[k].name.value == c.name))
        {
          if g.to[j].group == "" && g.to[j].kind == "Secret" && (g.to[j].name.None? || g.to[j].name.value == c.name) {
            assert from in g.from && g.to[j] in g.to;
            return true;
          }
        }
      }
    }
    assert g.from[..|g.from|] == g.from;
    return false;
  }

  method CheckCertificates(gw: Context, l: ListenerSpec, conditions: seq<Reported>) returns (next: seq<Reported>, valid: bool)
    ensures valid <==> FirstFault(gw, l).None?
    ensures next == if valid then conditions else Put(conditions, Unresolved(gw, FirstFault(gw, l).value))
  {
    next, valid := conditions, true;
    for i := 0 to |l.certificates|
      invariant FirstFault(gw, l) == FirstMatch(l.certificates[i..], Faulty(gw))
    {
      var c := l.certificates[i];
      assert l.certificates[i..][1..] == l.certificates[i + 1..];
      if !IsSecret(c) {
        next := MergeCondition(conditions, Reported("ResolvedRefs", false, "InvalidCertificateRef", "Invalid CertificateRef", 0));
        return next, false;
      }
      var allowed := ReferenceAllowed(gw, c);
      if !allowed {
        next := MergeCondition(conditions, Reported("ResolvedRefs", false, "RefNotPermitted", "CertificateRef is not permitted", 0));
        return next, false;
      }
      if NamespacedName(NamespaceOr(c.namespace, gw.namespace), c.name) !in gw.secrets {
        next := MergeCondition(conditions, Reported("ResolvedRefs", false, "InvalidCertificateRef", "Invalid CertificateRef", 0));
        return next, false;
      }
    }
  }

  method CheckListener(gw: Context, l: ListenerSpec) returns (kinds: seq<RouteKind>, conditions: seq<Reported>)
    ensures kinds == KindsOf(l) && conditions == ConditionsOf(gw, l)
  {
    var invalid;
    kinds, invalid := CheckKinds(l);
    conditions := if invalid then [Reported("ResolvedRefs", true, "InvalidRouteKinds", "Invalid Route Kinds", gw.generation)] else Sound(gw);
    ghost var before := conditions;
    var valid;
    conditions, valid := CheckCertificates(gw, l, conditions);
    if invalid || !valid {
      conditions := MergeCondition(conditions, INVALID);
      PutAll(gw, l, before);
    }
  }

  lemma PutAll(gw: Context, l: ListenerSpec, before: seq<Reported>)
    requires before == if KindsSupported(l) then Sound(gw) else [Reported("ResolvedRefs", true, "InvalidRouteKinds", "Invalid Route Kinds", gw.generation)]
    requires !KindsSupported(l) || FirstFault(gw, l).Some?
    ensures var bad := FirstFault(gw, l);
      Put(if bad.None? then before else Put(before, Unresolved(gw, bad.value)), INVALID) == ConditionsOf(gw, l)
  {
    assert "Programmed"[0] == 'P' && "Accepted"[0] == 'A' && "ResolvedRefs"[0] == 'R';
    if KindsSupported(l) {
      var c := Unresolved(gw, FirstFault(gw, l).value);
      assert Sound(gw)[1..] == [Sound(gw)[1], Sound(gw)[2]] && Sound(gw)[1..][1..] == [Sound(gw)[2]];
      assert Put(before[1..][1..], c) == [c];
      assert Put(before[1..], c) == [before[1], c];
      assert Put(before, c) == [before[0], before[1], c];
    }
  }
}
