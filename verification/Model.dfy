/** The intermediate model between Kubernetes objects and Envoy resources. */
module Model {
  import opened Wrappers
  import Strings

  datatype StringMatch = StringMatch(prefix: string, exact: string, regex: string)

  const NO_MATCH := StringMatch("", "", "")

  datatype KeyValueMatch = KeyValueMatch(key: string, value: StringMatch)

  datatype BackendPort = BackendPort(port: nat, name: string) {
    function GetPort(): string {
      if port != 0 then Strings.Itoa(port) else name
    }
  }

  datatype Backend = Backend(name: string, namespace: string, port: Option<BackendPort>, weight: Option<Int32>)

  // The text after the last colon of a cluster name. The code dereferences the port, so None stands for a panic
  // and every member about cluster names asks for ports.
  function PortText(b: Backend): string {
    if b.port.Some? then b.port.value.GetPort() else ""
  }

  function ClusterName(b: Backend): string {
    b.namespace + ":" + b.name + ":" + PortText(b)
  }

  datatype DirectResponse = DirectResponse(statusCode: int, body: string)

  datatype RedirectFilter = RedirectFilter(
    scheme: Option<string>,
    hostname: Option<string>,
    path: Option<StringMatch>,
    port: Option<int>,
    statusCode: Option<int>)

  datatype RewriteFilter = RewriteFilter(hostName: Option<string>, path: Option<StringMatch>)

  datatype RequestMirror = RequestMirror(backend: Option<Backend>)

  datatype Timeout = Timeout(request: Option<int>, backend: Option<int>)

  datatype HTTPRoute = HTTPRoute(
    hostnames: seq<string>,
    pathMatch: StringMatch,
    headersMatch: seq<KeyValueMatch>,
    queryParamsMatch: seq<KeyValueMatch>,
    verb: Option<string>,
    backends: seq<Backend>,
    directResponse: Option<DirectResponse>,
    requestRedirect: Option<RedirectFilter>,
    rewrite: Option<RewriteFilter>,
    requestMirrors: seq<RequestMirror>,
    timeout: Timeout)

  datatype TLSSecret = TLSSecret(name: string, namespace: string)

  datatype Resource = Resource(name: string, namespace: string, group: string, version: string, kind: string, uid: string)

  datatype Service = Service(serviceType: string, insecureNodePort: Option<nat>, secureNodePort: Option<nat>)

  // tls is None for Go's nil slice, which is not the same as an empty list of secrets.
  datatype HTTPListener = HTTPListener(
    name: string,
    sources: seq<Resource>,
    port: nat,
    hostname: string,
    tls: Option<seq<TLSSecret>>,
    routes: seq<HTTPRoute>,
    service: Option<Service>,
    forceHTTPSRedirect: bool)

  datatype TLSRoute = TLSRoute(hostnames: seq<string>, backends: seq<Backend>)

  datatype TLSListener = TLSListener(name: string, routes: seq<TLSRoute>)

  datatype TCPRoute = TCPRoute(backends: seq<Backend>)

  datatype TCPListener = TCPListener(name: string, port: nat, routes: seq<TCPRoute>)

  datatype Model = Model(http: seq<HTTPListener>, tls: seq<TLSListener>, tcp: seq<TCPListener>)
}
