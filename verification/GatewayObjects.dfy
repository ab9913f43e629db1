/** The parts of Gateway API objects that ingestion and the status pass read. */
module GatewayObjects {
  import opened Wrappers

  datatype ParentReference = ParentReference(
    group: Option<string>, kind: Option<string>, namespace: Option<string>, name: string,
    sectionName: Option<string>, port: Option<int>)

  const GATEWAY_GROUP := "gateway.networking.k8s.io"

  predicate IsGateway(ref: ParentReference) {
    (ref.kind.None? || ref.kind.value == "Gateway") && (ref.group.None? || ref.group.value == GATEWAY_GROUP)
  }

  predicate IsListenerSet(ref: ParentReference) {
    ref.kind == Some("ListenerSet") && (ref.group.None? || ref.group.value == GATEWAY_GROUP)
  }

  function NamespaceOr(namespace: Option<string>, default_: string): string {
    if namespace.Some? then namespace.value else default_
  }

  datatype BackendRef = BackendRef(
    group: Option<string>, kind: Option<string>, namespace: Option<string>, name: string, port: Option<nat>, weight: Option<Int32>)

  datatype NamespacedName = NamespacedName(namespace: string, name: string)

  datatype Listener = Listener(name: string, hostname: Option<string>, port: nat)

  datatype TLSRouteObject = TLSRouteObject(
    namespace: string, parentRefs: seq<ParentReference>, hostnames: seq<string>, rules: seq<seq<BackendRef>>)

  datatype Condition = Condition(kind: string, status: string, reason: string, message: string, generation: int, transition: int)
}
