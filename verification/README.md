# A verified model of the Gateway and Ingress controller

The controller reads Ingress and Gateway API objects, turns them into an intermediate model of listeners and routes,
and translates that model into Envoy configuration. It also keeps the status of routes and listeners up to date.
This project models that pipeline in Dafny and proves what each stage promises to the next:

- **Matching and ordering** (`MatchKey`, `RouteMatch`, `RouteOrder`): the key that merges routes, the translation of a
  match, and the order in which Envoy tries routes.
- **Routing** (`Merging`, `VirtualHost`, `HostRouting`, `RouteActions`, `RouteConfig`, `Routing`, `Redirects`, `HostSearch`,
  `HostPatterns`): from all listeners to virtual hosts. The main theorem is that every request, to a host by name, by
  wildcard or with a port, gets the answer that the model asks for at the most specific host, down to the weight of each
  cluster, the port of a redirect and the timeout, stated against an independent semantics of requests, with Envoy's own
  search for a virtual host and its first-match semantics on the other side.
- **Clusters** (`Clusters`, `References`): every cluster name that is used anywhere is defined, when it is defined once, and
  that it leads to the service of the backend it is used for.
- **TLS passthrough** (`Passthrough`, `ChainSearch`, `TLSIngestion`, `TLSServing`, `IngressPassthrough`): which backend
  Envoy's choice of a filter chain sends a connection to, against what the routes name.
- **Host names** (`Hostnames`, `ComputeHosts`), against the set of concrete hosts that a pattern stands for.
- **Ingestion** (`HTTPIngestion`, `RouteAttachment`, `HTTPMatching`, `GRPCMatching`, `HTTPRedirects`, `PathRewrites`,
  `IngressIngestion`, `IngressServing`, `IngressPaths`), down to the preconditions of the translator and what the ingested
  routes mean for requests.
- **From objects to answers** (`GatewayServing`, `GatewayOffers`, `GatewayAnswers`): what the matches, backend references and
  filters of all routes attached to a Gateway offer at a host, and that its configuration answers every request with it.
- **Policies** (`BackendTLSPolicy`): who wins a section of a service, whatever the order of the list.
- **Status** (`Upserts`, `RouteValidators`, `RouteStatus`, `RouteStatusPass`, `ListenerConflicts`, `ListenerAcceptance`,
  `ListenerChecks`, `ListenerStatus`).
- **Reconciliation** (`IngressReconcile`, `IngressPipeline`, `IngressAnswers`): a state machine over the cluster store in
  which any API call may fail, with the translators above. Its main theorem is that runs without failures end, from any
  cluster that can be served at all, with every request answered: redirected where HTTPS is enforced and a secure path asks
  for it, otherwise by the service of the best path of the most specific host, in the words of the Ingresses' own rules and
  paths. It needs no condition on them.

`Strings`, `Sorting`, `Option`, `Model` and `GatewayObjects` are the shared vocabulary. Code that works by changing maps,
slices or objects is modelled by methods with loops, arrays and classes, each proved against a function or a predicate;
the theorems are about those. `dafny verify dfyconfig.toml` checks everything.

Conventions: a string is a sequence of characters, one for each byte. Sorts are modelled by a stable insertion sort whose
contents, order and stability are proved; where the code's sort is not stable only order and contents are used. Map
iteration takes keys in any order. The clock and the API calls that fail in a run are parameters.

## Where the code differs from what it promises

The model follows the code. Where a promise does not hold as stated, there is a counterexample and the exact condition.

- Two routes may share a match key if a value contains a bar (`BarCollision`). Keys are exact if every match is of one
  kind, no header or query name contains a colon, and no text contains a bar that is followed by one of the key's own tags
  (`KeyIffSameMatch`); a bar alone does no harm. The routing theorems ask for no more than that the keys are exact.
- The Gateway API lets the number of characters of a prefix and then the method decide before the number of headers. The
  code does not count a trailing slash and counts the method as one more header; `FollowsGatewayRuleIff` says for which
  pairs of model routes that makes no difference, `GatewayRuleBroken` and `SlashNotCounted` show one of each. For the matches
  of HTTPRoutes, whose method is lost on the way, `PrecedenceFollowedIff` says it, and one header suffices to outrank a
  method (`HeaderOutranksMethod`).
- `toHTTPRoutes` does not carry the method of a match into the model, so the route asks for requests of every method:
  it asks only for what the match asks for if and only if the match names no method (`MethodHonouredIff`). A match for POST
  takes a GET (`PostAcceptsGet`).
- A GRPCRoute match that names a service and no method takes none of the service's calls (`ServiceLost`), and one that names a
  method and no service takes the calls of every method (`MethodIgnored`). A match by name is honoured if and only if it gives
  both names or none (`CallHonouredIff`).
- Replacing the prefix `/` by `/a` turns `/b` into `/ab` (`SlashSwallowed`), and dropping a prefix that ends in a slash leaves
  the path without that slash as it is. `PrefixRewriteRightIff` says for which prefix, value and path a rewrite does what the
  Gateway API means by it, `FullRewriteRightIff` the same for whole paths, and `PrefixRedirectRightIff` for redirects, where a
  slash at the end of the value is doubled (`SlashDoubled`).
- `ComputeHosts` keeps nothing for a wildcard route hostname that is wider than a wildcard listener, although they share
  hosts (`WiderRouteLost`, `WiderRouteExample`); `CompleteIff` says exactly when the result is complete.
- `toTLSRoutes` returns its entries as many times as there are entries (`ToTLSRoutes`); the filter chains do not show it
  (`IngestedChains`).
- A TLS route without hosts is meant for every connection. Its chain takes them all if and only if no other route to the same
  backend names a host (`TakesAllIff`, `HostlessLost`). A `*` beside another host becomes a server name that Envoy refuses
  (`StarListedIff`), and so do two chains with a name in common, or with none: exactly if routes to two clusters name the same
  host, or no host (`ClashIff`). A route with a host and two backends always makes such a pair (`TwoBackendsClash`).
- The annotation that forces HTTPS for an Ingress changes no configuration: the translator never reads the flag
  (`FlagIgnored`, `ForceHTTPSIgnored`). A host is redirected if and only if the controller enforces HTTPS for all and the
  host has a secure route (`RedirectedIff`), and then for the requests that its routes would ask for if header and query
  matchers were exchanged (`RedirectsExactly`). A request for a header is missed (`RedirectMissed`); a match is redirected as
  it asks if and only if its headers and its query parameters are the same matchers, as they are where there are none
  (`RedirectHonouredIff`).
- A host of an Ingress with TLS but without a secret is served in the clear, beside its own routes; `SecureSideLostIff` says
  exactly when, `SecureSideLostExample` shows one. Where there is no listener for `*`, every backend of it is then listed
  twice (`BackendsDoubled`).
- The second domain of a virtual host is meant to take authorities with a port. For a wildcard host it takes none, since
  Envoy reads the domain as one with a star in front: a host that stands for a name stands for it with a port if and only if
  it is no wildcard, or `*` (`PortReachesIff`).
- A wildcard host of an Ingress stands for one label. Envoy's suffix search sends it hosts further below as well, which its
  routes then turn away, so that a default backend never gets them (`DeepHostLost`).
- For a listener of a Gateway, `toHTTPRoutes` looks at neither name nor namespace of a parent reference, and for GRPCRoutes
  and TLSRoutes only the section counts. A route is attached to just the listeners that it means if and only if every
  reference that is counted is backed by one that is meant (`HTTPAttachmentRightIff`, `OtherAttachmentRightIff`);
  `ForeignSectionless` shows a route with a section of one Gateway and all of another.
- The passthrough chains of an Ingress carry no server name, whatever hosts it has (`ChainsIgnoreHosts`).
- A status pass over a route spares the entries of other controllers, whatever they are, if and only if no validator fails
  and no referenced parent is this controller's (`ForeignSparedIff`, `FailureOverwrites`). Where another controller has an
  entry for a parent of this one, this one gets none of its own (`OwnEntryIff`, `OwnEntryMissing`).
- A listener with an unsupported kind of routes is reported with ResolvedRefs true, against the Gateway API
  (`ResolvedRefsRightIff`, `UnsupportedKindResolved`).
- The comment on the policies of a service says that one on the whole service conflicts with any on a section of it. The
  code keeps the two apart, so that both may be valid; `WholeExcludesIff` says exactly when the comment holds,
  `WholeBesideSection` shows a pair for which it does not.
- Cluster names are printed with colons in between, and two targets may share one if a namespace or a port contains a colon
  (`ClusterNamesCollide`), which the API server admits in neither; the name of a service may (`ClusterNamesInjective`). A
  shared name is defined once if and only if no two targets of HTTP routes share it (`GetClusters`).
- The test for a managed Ingress dereferences the class name before checking that there is one, so one Ingress without a
  class keeps every run from completing (`ClasslessBlocksAll`, `ClasslessExample`); the comment there expects such an
  Ingress to be handled. Without failing calls a run completes if and only if there is no such Ingress and, for a
  dedicated one, there is something to translate (`CompletesIff`).
- If the shared load balancer goes by the name of the dedicated config of an Ingress, a completed run for it loses one of the
  two: of an Ingress that is not dedicated it deletes the shared config it has just written (`SharedFreshIff`,
  `CollisionExample`), of a dedicated one it overwrites the dedicated config (`SettledIff`, `OverwrittenExample`).
- A run for an Ingress that is gone removes none of its dedicated objects (`GoneKeepsObjects`); that is left to their owner
  references, which name the kind Ingress in the API version v1.
- The comment on `listenerPairConflict` describes conflicts of protocols and hostnames; the code finds none, so every
  listener is accepted (`EveryListenerAccepted`). The other theorems on acceptance hold for any test on pairs.

## Model

| member | source | states |
|---|---|---|
| MatchKey.GetMatchKey | pkg/model/model.go:272-304 | Prints the canonical key, sorts both matcher lists in place keeping their contents, and prints the same key if called again |
| MatchKey.SortByText | pkg/model/model.go:285-300 | The in-place sort is a permutation in ascending order of printed text |
| MatchKey.KeyCanonical | pkg/model/model.go:272-304 | Routes with the same method, path and matchers as multisets have the same key |
| MatchKey.KeyIffSameMatch | pkg/model/model.go:272-304 | For single-kind matches whose names hold no colon and whose texts hold no bar before a tag, keys are equal if and only if method, path and the multisets of matchers are |
| MatchKey.CleanKeysExact | pkg/model/model.go:272-304 | So a list of such routes has exact keys: one key, one match |
| MatchKey.BarFreeIsUnbroken | pkg/model/model.go:272-304 | A text without a bar meets the condition on bars |
| MatchKey.StringMatchTextInjective | pkg/model/model.go:61-74 | The printed form of a string match determines it |
| MatchKey.KeyValueTextInjective | pkg/model/model.go:81-88 | The printed form of a header or query matcher determines it |
| MatchKey.BarCollision | pkg/model/model.go:272-304 | A value with a bar makes a one-header route share the key of a two-header route |
| RouteMatch.PathAgrees | pkg/model/translation/envoy_virtual_host.go:421-469 | Envoy's path specifier accepts exactly the paths the model match asks for |
| RouteMatch.HeadersAgree | pkg/model/translation/envoy_virtual_host.go:491-536 | The sorted header matchers accept exactly the requests that meet every header match |
| RouteMatch.QueriesAgree | pkg/model/translation/envoy_virtual_host.go:471-482 | The same for query parameters |
| RouteMatch.MatchAgrees | pkg/model/translation/envoy_virtual_host.go:421-563 | For a request to the host, the Envoy match accepts it if and only if the model route asks for it |
| RouteOrder.LessIsStrictWeak | pkg/model/translation/envoy_virtual_host.go:90-119 | The comparison of Envoy routes is a strict weak order |
| RouteOrder.OutranksIsStrictWeak | pkg/model/translation/envoy_virtual_host.go:90-119 | So is the order it induces on model routes |
| RouteOrder.OrderAgrees | pkg/model/translation/envoy_virtual_host.go:90-119 | Translating two routes keeps their order, both ways |
| RouteOrder.FollowsGatewayRuleIff | pkg/model/translation/envoy_virtual_host.go:90-119 | Two matching routes are ranked as the Gateway API says, by the characters of the prefix itself, if and only if neither a method nor a trailing slash is outweighed by headers |
| RouteOrder.RankDecidesChars | pkg/model/translation/envoy_virtual_host.go:90-119 | Of two prefixes of one path, the one the code ranks as longer has more characters |
| RouteOrder.GatewayRuleBroken | pkg/model/translation/envoy_virtual_host.go:90-119 | A concrete pair, and a request both match, in which a method is outweighed by headers |
| RouteOrder.SlashNotCounted | pkg/model/translation/envoy_virtual_host.go:90-119 | A concrete pair in which a trailing slash is outweighed by a header |
| RouteOrder.FollowsWithoutMethodIff | pkg/model/translation/envoy_virtual_host.go:90-119 | Routes whose method is lost are ranked as the Gateway API says if and only if no method counts for nothing and no trailing slash is outweighed |
| Merging.CollectByKey | pkg/model/translation/envoy_virtual_host.go:159-163 | The map holds, for each key, exactly the routes with that key, in input order |
| Merging.EmitGroups | pkg/model/translation/envoy_virtual_host.go:159-212 | Walking the routes while deleting from the map emits each group at its first route, a sticky group again at each later one |
| Merging.EmittedOrigin | pkg/model/translation/envoy_virtual_host.go:159-212 | Every emitted entry stems from a group of the input |
| Merging.MergedWinner | pkg/model/translation/envoy_virtual_host.go:159-212 | The best entry that matches is the entry of the best element that matches, prefix by prefix of the input |
| Merging.FirstMatchOfMerged | pkg/model/translation/envoy_virtual_host.go:56-212 | Merging, emitting and stable sorting: the first matching entry is that of the best matching element, earliest among ties |
| VirtualHost.EnvoyHTTPRoutes | pkg/model/translation/envoy_virtual_host.go:159-212 | The routes emitted are those of the groups, backendless groups once for each of their routes |
| VirtualHost.EnvoyHTTPSRoutes | pkg/model/translation/envoy_virtual_host.go:125-157 | One redirect for each group |
| VirtualHost.AnswerableGroup | pkg/model/translation/envoy_virtual_host.go:306-588 | A group whose first route forwards, redirects or responds has an action |
| VirtualHost.NoNilRoute | pkg/model/translation/envoy_virtual_host.go:159-212 | If every route can be answered, no nil route is emitted, for any grouping |
| VirtualHost.NewVirtualHost | pkg/model/translation/envoy_virtual_host.go:47-82 | The virtual host has the sorted routes of the host, and its domains |
| HostRouting.HostRoutesAsExpected | pkg/model/translation/envoy_virtual_host.go:47-212 | For any routes and request, Envoy's first match has the action of the best matching group with all its backends in order; what that action is `RouteActions.ExpectedServes` says |
| RouteActions.GroupServes | pkg/model/translation/envoy_virtual_host.go:159-420 | Routes of one match answer with the first one's redirect, else with all their backends, each with the weight it asks for or 1 and each cluster with the sum, the first one's rewrite and mirrors and the least of its timeouts, else with the first one's direct response; a redirect without a port goes to 443 for https, 80 for http and the listener's port without a scheme |
| RouteActions.ExpectedServes | pkg/model/translation/envoy_virtual_host.go:47-420 | So what is expected of a request is what the routes with the match of the winning one serve, and nothing if no route asks for it |
| HostRouting.ExactPathWins | pkg/model/translation/envoy_virtual_host.go:90-119 | If a route with an exact path matches, the winner has that exact path |
| HostRouting.LongestPrefixWins | pkg/model/translation/envoy_virtual_host.go:90-119 | If no exact path and no regular expression matches, no matching prefix is longer than the winner's, trailing slashes not counted |
| RouteConfig.BuildIndex | pkg/model/translation/translator.go:248-271 | The nested maps hold, for each side and host, exactly the routes of that side and host in model order |
| RouteConfig.GetRouteConfigurations | pkg/model/translation/translator.go:242-324 | The insecure configuration, then the secure one, each as its specification says |
| Routing.SortedHostNames | pkg/model/translation/translator.go:273-321 | Virtual hosts are in strictly ascending order of name and name exactly the hosts that belong to the side |
| Routing.OneVirtualHostPerName | pkg/model/translation/translator.go:273-321 | The insecure configuration exists whenever there is a listener, each goes by the name of its side, and none names a virtual host twice |
| Routing.HostFound | pkg/model/translation/translator.go:273-321 | Envoy's lookup of a literal host finds its own virtual host |
| Routing.RoutingPreserved | pkg/model/translation/translator.go:242-324 | A request to a literal served host gets the answer the model asks for, over all listeners, both sides, with or without enforced HTTPS elsewhere, whenever the host's routes are of one kind, can be answered and have exact keys |
| Routing.CleanRoutingPreserved | pkg/model/translation/translator.go:242-324 | The same for routes whose texts hold no bar before a tag |
| Redirects.AllRedirects | pkg/model/translation/envoy_virtual_host.go:125-157 | The routes of an enforced host are all HTTPS redirects |
| Redirects.HTTPSEnforced | pkg/model/translation/translator.go:273-321 | With enforced HTTPS and any insecure route, every host with a secure route has one insecure virtual host, made of redirects only and with at least one |
| Redirects.RedirectedIff | pkg/model/translation/translator.go:273-321 | A virtual host has redirects, and then only redirects, if and only if it is on the insecure side, HTTPS is enforced and the host has a secure route; otherwise it has none |
| Redirects.RedirectsExactly | pkg/model/translation/envoy_virtual_host.go:125-157 | A redirected host redirects exactly the requests that one of its secure routes would ask for with header and query matchers exchanged |
| Redirects.RedirectMissed | pkg/model/translation/envoy_virtual_host.go:125-157 | A concrete route for a header and a request that it asks for and that is not redirected |
| Redirects.FlagIgnored | pkg/model/translation/translator.go:242-324 | Listeners that differ only in the flag for forced HTTPS have the same configurations |
| HostSearch.SearchFinds | pkg/model/translation/envoy_virtual_host.go:58-69 | Envoy's search (the very domain, the longest with a star in front, the longest with a star at the end, `*`) finds a virtual host whose name no other is above, and none only if no name stands for the authority |
| HostSearch.HostAnswers | pkg/model/translation/envoy_virtual_host.go:47-212 | Every virtual host answers as is due at its host: nothing for an authority its wildcard does not accept, redirects where HTTPS is enforced, else what the routes of the best match serve, down to weights, ports and timeouts |
| HostSearch.RequestAnswered | pkg/model/translation/translator.go:242-324 | Every request gets what is due at the most specific host of the side that stands for its authority, and finds no host if none does |
| HostSearch.MostSpecificUnique | pkg/model/translation/envoy_virtual_host.go:58-69 | Among names that the API server admits, one at most is the most specific |
| HostSearch.PortReachesIff | pkg/model/translation/envoy_virtual_host.go:64-68 | A host that stands for a name stands for it with a port if and only if it is no wildcard, or `*` |
| HostSearch.BracketsReached | pkg/model/translation/envoy_virtual_host.go:64-68 | An address with colons stands for itself in brackets with any port |
| HostPatterns.WildcardReads | pkg/model/translation/envoy_virtual_host.go:484-489 | The expression for a wildcard host, read token by token, accepts exactly one label that is not empty before the rest of the name |
| HostPatterns.AcceptedIff | pkg/model/translation/envoy_virtual_host.go:491-515 | The authority matchers of a host turn away exactly the authorities that are not one label below its wildcard, and none where hosts match by suffix |
| Clusters.AddBackend | pkg/model/translation/translator.go:443-455 | Adds exactly one target to those the nested map stands for |
| Clusters.MergeBackends | pkg/model/translation/translator.go:443-455 | Adds exactly the backends' targets |
| Clusters.CollectHTTP | pkg/model/translation/translator.go:457-471 | The map stands for the targets of all routes and all mirrors |
| Clusters.CollectTLS | pkg/model/translation/translator.go:483-491 | The map stands for the targets of TLS routes |
| Clusters.CollectTCP | pkg/model/translation/translator.go:473-481 | The map stands for the targets of TCP routes |
| Clusters.GetBackendServices | pkg/model/translation/translator.go:79-104 | One sorted entry for each service, with exactly the ports the model uses |
| Clusters.ServiceListUnique | pkg/model/translation/translator.go:79-104 | The targets determine the list, so map iteration order does not matter |
| Clusters.ServicesInOrder | pkg/model/translation/translator.go:79-104 | Services are in order of namespace and then name |
| Clusters.ClusterNamesInjective | pkg/model/translation/translator.go:326-328 | Without a colon in namespace and port, a cluster name determines namespace, name and port |
| Clusters.ClusterNamesCollide | pkg/model/translation/translator.go:326-328 | With a colon in either it need not |
| Clusters.ServiceNameReads | pkg/model/translation/translator.go:330-332 | Cut at the first slash and the last colon, the service name of a cluster reads as the target's namespace, name and port |
| Clusters.PortReads | pkg/model/model.go:265-270 | The port of a cluster name reads back as the backend's port number, or is the port's name where there is no number |
| Clusters.GetClusters | pkg/model/translation/translator.go:334-398 | For any names: in order of name, every name of a target with one definition, HTTP where any HTTP route points at the name, and none twice if and only if no two HTTP targets share a name; `References.EveryBackendReached` says where a definition leads |
| Clusters.ClustersExact | pkg/model/translation/translator.go:334-398 | Where names keep targets apart: one cluster for each target, in strictly ascending order, HTTP where any HTTP route points at it |
| Clusters.NoColonApart | pkg/model/translation/translator.go:326-328 | Namespaces and ports without a colon keep targets apart |
| Clusters.ClusterListUnique | pkg/model/translation/translator.go:334-398 | Then the targets determine the clusters |
| References.GetTCPRouteListeners | pkg/model/translation/translator.go:493-516 | One proxy for each TCP listener with a backend, to its first cluster |
| References.GroupNames | pkg/model/translation/envoy_virtual_host.go:306-370 | A forwarding action names the clusters of all backends of its group in input order, then those of the first route's mirrors |
| References.EveryReferenceDefined | pkg/model/translation/translator.go:334-398 | Every cluster named by a route, weighted cluster, mirror, passthrough chain or TCP listener is defined, and exactly once unless two HTTP targets share a name |
| References.EveryBackendReached | pkg/model/translation/translator.go:326-398 | For every backend of the model, with namespaces and ports as the API server admits them, the cluster that routes name for it is defined once and its service name leads to the backend's namespace, service and port |
| References.EveryReferenceReached | pkg/model/translation/translator.go:334-398 | So every cluster named anywhere leads to the service of a backend of that name |
| References.ClustersMatchServices | pkg/model/translation/translator.go:79-104 | Cluster names are exactly the ports of the backend services |
| Passthrough.BackendsToHostnames | pkg/model/translation/translator.go:158-174 | For each cluster, all host names of its mentions in order and the prefix of the last one with a host name |
| Passthrough.PassthroughFilterChains | pkg/model/translation/envoy_listener.go:457-490 | One chain for each backend mentioned, in order of cluster name; the rows of ChainSearch say which connections it takes |
| Passthrough.ChainsBySummary | pkg/model/translation/envoy_listener.go:304-490 | The chains depend only on each cluster's set of host names and last prefix |
| Passthrough.SquaredChains | pkg/model/translation/envoy_listener.go:457-490 | Repeating every listener's routes leaves the chains as they are |
| ChainSearch.UsedByRoute | pkg/model/translation/translator.go:158-174 | A backend is mentioned with exactly the hosts and the listener of a route that has it |
| ChainSearch.ChainAcceptsIff | pkg/model/translation/envoy_listener.go:304-490 | The chain of a cluster accepts a server name if and only if a route to it names a pattern for it, or no route to it names a host other than `*` |
| ChainSearch.ChoiceIsMostSpecific | pkg/model/translation/envoy_listener.go:304-315 | Envoy's choice of a chain (the very name, then ever shorter wildcards, then a chain without names) finds one that lists the most specific name |
| ChainSearch.ConnectionTaken | pkg/model/translation/envoy_listener.go:457-490 | A connection goes to a cluster one of whose routes names the most specific host for it; if none names one, to a cluster whose routes name no host; and nowhere if there is none |
| ChainSearch.StarListedIff | pkg/model/translation/envoy_listener.go:304-315 | A chain has `*` for a server name if and only if routes to its cluster name it beside another host |
| ChainSearch.TakesAllIff | pkg/model/translation/envoy_listener.go:304-315 | A chain takes every connection if and only if no route to its cluster names a host other than `*` |
| ChainSearch.HostlessLost | pkg/model/translation/envoy_listener.go:457-490 | A concrete route without hosts beside one for a name: connections for other names find no chain |
| ChainSearch.ClashIff | pkg/model/translation/envoy_listener.go:457-490 | Two chains share a server name, or have none, if and only if routes to two clusters name the same host, or no host |
| ChainSearch.TwoBackendsClash | pkg/model/translation/envoy_listener.go:457-490 | A route with a host and backends in two clusters makes two chains that clash |
| ChainSearch.StatPrefixIs | pkg/model/translation/translator.go:158-174 | The statistics prefix is the listener and first host of the last route to the cluster with a host, and the cluster where there is none |
| TLSIngestion.ServiceExists | pkg/model/ingestion/gateway.go:544-551 | Finds a service if and only if it is listed |
| TLSIngestion.CollectBackends | pkg/model/ingestion/gateway.go:683-696 | Exactly the allowed references to existing services with a port, in order |
| TLSIngestion.ToTLSRoutes | pkg/model/ingestion/gateway.go:553-647 | The list of attached entries, repeated as many times as it is long |
| TLSIngestion.IngestedChains | pkg/model/ingestion/gateway.go:553-647 | The filter chains are those of the entries taken once |
| TLSServing.ClaimedIff | pkg/model/ingestion/gateway.go:553-647 | A cluster is claimed for hosts if and only if an attached TLSRoute shares just these with the listener and has a usable reference to the cluster |
| TLSServing.ConnectionsServed | pkg/model/ingestion/gateway.go:553-647 | Every connection to a Gateway goes where the attached routes that name the most specific host for it send it |
| Hostnames.WildcardHostnamesIntersect | pkg/gateway_api/helpers/gateway.go:107-143 | The label loop, which runs to the longer length, never reads out of bounds and decides agreement up to the star |
| Hostnames.SNIHostnamesIntersect | pkg/gateway_api/helpers/gateway.go:62-86 | Computes the relation that the two lemmas below are about |
| Hostnames.SNISymmetric | pkg/gateway_api/helpers/gateway.go:62-143 | Symmetric for all strings, well-formed or not |
| Hostnames.SNIExact | pkg/gateway_api/helpers/gateway.go:62-143 | For well-formed patterns, true if and only if some concrete host matches both |
| ComputeHosts.Compute | pkg/model/helper.go:51-97 | Computes the hosts that the lemmas below are about, also for a route without hostnames |
| ComputeHosts.OrderInsensitive | pkg/model/helper.go:51-97 | The order of route hostnames does not matter |
| ComputeHosts.Idempotent | pkg/model/helper.go:51-97 | A non-empty result is stable under the same listener |
| ComputeHosts.KeptIsIntersection | pkg/model/helper.go:51-106 | What is kept for a route hostname denotes exactly the hosts it shares with the listener |
| ComputeHosts.DroppedMeans | pkg/model/helper.go:51-106 | Something is dropped only if nothing is shared or both are wildcards and the route is wider |
| ComputeHosts.NothingAdded | pkg/model/helper.go:51-97 | Every host of the result is one of the listener and of the route, which without hostnames is for every host |
| ComputeHosts.CompleteIff | pkg/model/helper.go:51-97 | The result covers all shared hosts, for a route without hostnames as well, if and only if no route hostname is lost or the listener's own name is among them |
| ComputeHosts.NoHostnames | pkg/model/helper.go:51-66 | A route without hostnames has exactly the hosts of the listener |
| ComputeHosts.WiderRouteLost | pkg/model/helper.go:67-95 | A wildcard route above a wildcard listener shares hosts with it and yields none |
| ComputeHosts.WiderRouteExample | pkg/model/helper.go:67-95 | A concrete such pair |
| BackendTLSPolicy.Resolve | pkg/gateway_api/helpers/backendtlspolicy.go:115-162 | One reference: the earlier policy keeps or takes the section, the other becomes conflicted |
| BackendTLSPolicy.BuildBackendTLSPolicyLookup | pkg/gateway_api/helpers/backendtlspolicy.go:87-166 | One fresh collection for each service pointed at, holding the fold over its references; collections are not shared |
| BackendTLSPolicy.FoldDecides | pkg/gateway_api/helpers/backendtlspolicy.go:115-162 | The fold decides every section by creation time and name, even when winners are displaced on the way |
| BackendTLSPolicy.BeatsIff | pkg/gateway_api/helpers/backendtlspolicy.go:115-162 | Within a namespace the older policy takes precedence, and of two as old the first by name |
| BackendTLSPolicy.ValidIsWinner | pkg/gateway_api/helpers/backendtlspolicy.go:87-166 | A section has a valid policy if and only if some policy points at it, and it is the one that beats all others |
| BackendTLSPolicy.ConflictedIsLosers | pkg/gateway_api/helpers/backendtlspolicy.go:87-166 | Conflicted holds, under their namespace and name, exactly the policies that point at some section without winning it, also if they win another |
| BackendTLSPolicy.BothValidIff | pkg/gateway_api/helpers/backendtlspolicy.go:87-166 | Policies on the whole service and on a section of it are both valid if and only if each wins its own place |
| BackendTLSPolicy.WholeExcludesIff | pkg/gateway_api/helpers/backendtlspolicy.go:36-42 | The policy on the whole service is the only valid one if and only if nobody points at the whole, or one policy wins it and every section pointed at |
| BackendTLSPolicy.WholeBesideSection | pkg/gateway_api/helpers/backendtlspolicy.go:36-42 | Two policies, on the whole service and on a section, both valid and neither in conflict |
| BackendTLSPolicy.OrderDoesNotMatter | pkg/gateway_api/helpers/backendtlspolicy.go:87-166 | Any permutation of a list with distinct names gives the same verdicts |
| RouteStatusPass.MergeConditions | pkg/gateway_api/helpers/conditions.go:18-41 | Overwrites changed conditions in place, the first of each kind, and appends those of missing kinds in order |
| RouteStatusPass.MergedIsUpsert | pkg/gateway_api/helpers/conditions.go:18-48 | Leaving times aside, merging one condition sets it, whether or not the code found it changed |
| RouteStatusPass.TimesStayPut | pkg/gateway_api/helpers/conditions.go:18-48 | A transition time moves only if something else in the condition does |
| RouteStatusPass.Prune | pkg/gateway_api/status.go:56-66 | Compacts the slice over its own backing array to the statuses that stay, in order |
| RouteStatusPass.HTTPRouteInput.SetParentCondition | pkg/gateway_api/routechecker/httproute.go:34-42 | Sets the condition, at the route's generation and the time of the call, on the first entry for the reference, or appends an entry of this controller; an unchanged condition keeps its time |
| RouteStatusPass.HTTPRouteInput.MergeStatusConditions | pkg/gateway_api/routechecker/httproute.go:44-61 | The same for a condition that is already filled in |
| RouteStatusPass.HTTPRouteInput.SetInitialRouteConditions | pkg/gateway_api/gateway_reconcile.go:1063-1076 | Sets Accepted, then ResolvedRefs, each at its own time |
| RouteStatusPass.HTTPRouteInput.RunCommonRouteChecks | pkg/gateway_api/status_route.go:370-498 | Sets the initial conditions, in turn, for every referenced parent that is a Gateway of this controller or a ListenerSet attached to one |
| RouteStatusPass.HTTPRouteInput.RunValidator | pkg/gateway_api/status_route.go:185-210 | A failed validator sets its condition, in turn, on every parent listed |
| RouteStatusPass.HTTPRouteInput.RunValidators | pkg/gateway_api/status_route.go:174-210 | Both validators in turn, on the rules of the route |
| RouteValidators.ValidateHeaderModifier | pkg/gateway_api/routechecker/httproute.go:192-205 | Fails if and only if some filter of some rule sets the header Host |
| RouteValidators.ValidateMatchRegexps | pkg/gateway_api/routechecker/httproute.go:216-245 | Fails with the first expression, in order of rule, match, path, headers and query parameters, that does not compile, and if and only if there is one |
| RouteStatusPass.TimedPassIsPass | pkg/gateway_api/status_route.go:99-240 | Leaving times aside, the pass with the clock running is the timeless one |
| RouteStatusPass.SetHTTPRouteStatus | pkg/gateway_api/status_route.go:99-289 | Computes the pass, times included, and writes if and only if the status changes in more than times |
| RouteStatusPass.PassAgain | pkg/gateway_api/status_route.go:99-289 | Run again on what the last run left, with the same spec and world and whatever the clock shows, it writes nothing |
| RouteStatus.SetTwice | pkg/gateway_api/routechecker/httproute.go:34-61 | Setting any list of conditions twice is setting it once |
| RouteStatus.PassReachesFixedPoint | pkg/gateway_api/status_route.go:99-240 | For any prior status, a pass over the result of a pass changes nothing |
| RouteStatus.PassAt | pkg/gateway_api/status_route.go:99-240 | The pass entry by entry: the first entry of a reference takes the conditions set for it, the others stay |
| RouteStatus.OwnedIff | pkg/gateway_api/status_route.go:370-498 | A parent is this controller's if and only if it is, or is a ListenerSet attached to, a Gateway whose class has this controller |
| RouteStatus.AddedIff | pkg/gateway_api/status_route.go:99-240 | A pass adds an entry for a parent without one if and only if the route references it and it leads to a Gateway of this controller |
| RouteStatus.EntryTells | pkg/gateway_api/status_route.go:99-240 | After a pass the first entry of a parent that leads to a Gateway of this controller says, about the route's own generation, that references are resolved, and that the route is accepted if and only if no rule sets Host and every expression compiles |
| RouteStatus.ForeignSparedIff | pkg/gateway_api/status_route.go:99-240 | A pass spares the entries of other controllers, for every prior status, if and only if no validator fails and no referenced parent is this controller's |
| RouteStatus.StrangerWritten | pkg/gateway_api/status_route.go:99-240 | Otherwise there is a prior status with another controller's entry that it changes |
| RouteStatus.OwnEntryIff | pkg/gateway_api/status_route.go:99-240 | A referenced parent of this controller has an entry of this controller after a pass if and only if it had one before or had no entry at all |
| RouteStatus.OwnEntryWrittenIff | pkg/gateway_api/routechecker/httproute.go:44-61 | The entry that takes the conditions is this controller's if and only if no other controller's entry comes first |
| RouteStatus.FailureOverwrites | pkg/gateway_api/status_route.go:185-210 | A concrete route to another controller's Gateway whose failed validator changes that controller's entry |
| RouteStatus.OwnEntryMissing | pkg/gateway_api/status_route.go:99-240 | A concrete valid route after whose pass this controller has no entry for its own Gateway |
| RouteStatus.FailureReachesAll | pkg/gateway_api/status_route.go:185-210 | A failed validator's condition ends up in the first entry of every reference, whichever controller wrote it |
| ListenerAcceptance.AcceptedListeners.CheckConflict | pkg/gateway_api/gateway_reconcile.go:498-505 | Gives the reason of a conflict with an accepted listener if and only if there is one |
| ListenerConflicts.ConflictsWithinSource | pkg/gateway_api/gateway_reconcile.go:654-678 | Names exactly the listeners that conflict with another of the list, each with the reason of such a conflict |
| ListenerConflicts.GroupBySource | pkg/gateway_api/gateway_reconcile.go:511-520 | Groups listeners by source, sources in order of first appearance |
| ListenerAcceptance.ConflictsAcrossSources | pkg/gateway_api/gateway_reconcile.go:511-560 | Reports, for every source, exactly the names it loses, each with the reason of a conflict that makes it lose; a source without conflicts has no entry |
| ListenerConflicts.AcceptedConflictFree | pkg/gateway_api/gateway_reconcile.go:511-560 | No accepted listener conflicts with one accepted before it |
| ListenerConflicts.EarlierSourcesKeepTheirPorts | pkg/gateway_api/gateway_reconcile.go:491-493 | What is accepted from earlier sources does not depend on later ones |
| ListenerConflicts.RefusedIff | pkg/gateway_api/gateway_reconcile.go:511-560 | With distinct names, a listener is refused if and only if it conflicts with one accepted before its source or, being eligible, with another eligible one of its source |
| ListenerConflicts.EveryListenerAccepted | pkg/gateway_api/gateway_reconcile.go:592-627 | With the test as it stands, all listeners are accepted |
| ListenerStatus.Gateway.Upsert | pkg/gateway_api/gateway_reconcile.go:1409-1426 | Writes one listener's status in place or appends it; statuses of other names stay |
| ListenerStatus.Gateway.KeepActive | pkg/gateway_api/gateway_reconcile.go:1429-1439 | Keeps exactly the statuses of listeners of the spec, in order |
| ListenerStatus.Gateway.SetListenerStatus | pkg/gateway_api/gateway_reconcile.go:1304-1441 | The old names still in the spec in their order, then the new names in spec order; every listener's kinds and conditions are there as the checks decide |
| ListenerStatus.NamesCorrespond | pkg/gateway_api/gateway_reconcile.go:1304-1441 | For a prior status with unique names, the result names each listener of the spec once and nothing else |
| ListenerChecks.CheckListener | pkg/gateway_api/gateway_reconcile.go:1310-1400 | Kinds and conditions of a listener: the kinds its protocol supports, and the conditions case by case, with the reason of the first certificate at fault |
| ListenerChecks.CheckCertificates | pkg/gateway_api/gateway_reconcile.go:1351-1390 | Reports the first certificate that is no Secret, is not permitted or cannot be used, if there is one |
| ListenerChecks.ReferenceAllowed | pkg/gateway_api/helpers/referencegrants.go:12-39 | The loops over grants decide whether a Secret of another namespace may be used |
| ListenerChecks.UsableIff | pkg/gateway_api/gateway_reconcile.go:1351-1390 | A certificate can be used if and only if it is a core Secret that holds one, in the Gateway's namespace or in one with a grant from it to Secrets, all of them or this one |
| ListenerChecks.ReasonsGiven | pkg/gateway_api/gateway_reconcile.go:1310-1400 | The reasons of a listener's conditions; of references that are not resolved, that of the first certificate at fault |
| ListenerChecks.ConditionsDecide | pkg/gateway_api/gateway_reconcile.go:1310-1400 | Programmed if and only if all kinds are supported and all certificates usable; Accepted depends on the kinds alone, ResolvedRefs on the certificates alone |
| ListenerChecks.SupportsIff | pkg/gateway_api/helpers.go:141-163 | For each protocol the one kind of route that is supported, in the group of the Gateway API or none, and reported where no kind is listed |
| ListenerChecks.ResolvedRefsRightIff | pkg/gateway_api/gateway_status.go:197-206 | ResolvedRefs is what the Gateway API asks for if and only if all kinds are supported or a certificate is at fault |
| ListenerChecks.UnsupportedKindResolved | pkg/gateway_api/gateway_status.go:197-206 | A concrete listener with an unsupported kind whose references are reported as resolved |
| HTTPIngestion.IsHTTPAttached | pkg/model/ingestion/gateway.go:653-669 | The loop decides the code's own test: some reference covers the section and, for a ListenerSet, names it, for a Gateway, is to any Gateway |
| RouteAttachment.HTTPAttachmentRightIff | pkg/model/ingestion/gateway.go:653-669 | For a Gateway, an HTTPRoute is attached to just the listeners it means if and only if every reference to a Gateway is backed by one to this Gateway |
| RouteAttachment.SetAttachmentRight | pkg/model/ingestion/gateway.go:653-669 | For a ListenerSet it always is |
| RouteAttachment.OtherAttachmentRightIff | pkg/model/ingestion/gateway.go:318-333 | For a GRPCRoute or TLSRoute, if and only if every reference at all is backed so |
| RouteAttachment.ForeignSectionless | pkg/model/ingestion/gateway.go:653-669 | A concrete route that is attached to listeners it does not mean |
| HTTPIngestion.ApplyFilters | pkg/model/ingestion/gateway.go:734-755 | The last redirect and the last rewrite, all mirrors in order, everything else as it was |
| HTTPIngestion.FiltersSnoc | pkg/model/ingestion/gateway.go:734-755 | One more filter on top of that closed form is one more turn of the switch |
| HTTPIngestion.ToHTTPRoutes | pkg/model/ingestion/gateway.go:649-788 | One route for each match of each rule of each attached route, all of them ready |
| HTTPIngestion.ToGRPCRoutes | pkg/model/ingestion/gateway.go:318-424 | The same for GRPCRoutes |
| HTTPIngestion.RoutesReady | pkg/model/ingestion/gateway.go:649-788 | Every route responds with 500 if and only if it has no backend; backends have ports and exist; matches are of one kind |
| HTTPIngestion.MethodsForgotten | pkg/model/ingestion/gateway.go:770-784 | Erasing the methods of all matches of all routes changes no ingested route |
| HTTPMatching.RestIngested | pkg/model/ingestion/gateway.go:770-784 | The ingested route asks for a request if and only if the rest of the match holds of it, whatever its method |
| HTTPMatching.MethodHonouredIff | pkg/model/ingestion/gateway.go:770-784 | The ingested route asks only for requests that the match holds of if and only if the match names no method |
| HTTPMatching.PostAcceptsGet | pkg/model/ingestion/gateway.go:770-784 | Envoy's match for a POST match accepts every GET |
| HTTPMatching.PrecedenceFollowedIff | pkg/model/ingestion/gateway.go:770-784 | Two matches that hold of a request are ranked as the Gateway API says if and only if no method counts for nothing and no trailing slash is outweighed |
| HTTPMatching.HeaderOutranksMethod | pkg/model/ingestion/gateway.go:770-784 | A concrete pair of matches, and a request both hold of, in which one header outranks a method |
| GRPCMatching.CallIngested | pkg/model/ingestion/gateway.go:432-513 | The ingested route asks for just the paths of the method, or of the service where no method is given, or any without a service, and the headers of the match |
| GRPCMatching.CallHonouredIff | pkg/model/ingestion/gateway.go:484-513 | A match by name is asked for just the calls that it holds of if and only if it gives both names, or none |
| GRPCMatching.ServiceLost | pkg/model/ingestion/gateway.go:484-513 | A match by service alone asks for no call at all |
| GRPCMatching.MethodIgnored | pkg/model/ingestion/gateway.go:484-513 | A match by method alone asks for every call |
| PathRewrites.PrefixRewriteRightIff | pkg/model/translation/envoy_virtual_host.go:229-250 | Replacing a prefix gives the path that the Gateway API means if and only if, by something, the prefix is not `/`; by nothing, the prefix has no slash at its end or the path has just that one |
| PathRewrites.FullRewriteRightIff | pkg/model/translation/envoy_virtual_host.go:229-265 | Replacing the whole path does so if and only if it is not replaced by nothing, or only the prefix is there |
| PathRewrites.PrefixRedirectRightIff | pkg/model/translation/envoy_virtual_host.go:401-413 | Replacing a prefix in a redirect does so if and only if, for `/`, the value is empty or ends in a slash, and for others it is not empty and does not |
| PathRewrites.FullRedirectRightIff | pkg/model/translation/envoy_virtual_host.go:401-413 | Replacing the whole path in a redirect does so if and only if it is not replaced by nothing, or is `/` |
| PathRewrites.SlashSwallowed | pkg/model/translation/envoy_virtual_host.go:229-250 | A concrete rewrite that loses a slash |
| PathRewrites.SlashDoubled | pkg/model/translation/envoy_virtual_host.go:401-413 | A concrete redirect that has one too many |
| HTTPRedirects.RedirectHonouredIff | pkg/model/translation/envoy_virtual_host.go:125-157 | The redirect of a match asks for just what its route asks for if and only if its headers and query parameters are the same matchers |
| HTTPIngestion.MirrorPorts | pkg/model/ingestion/gateway.go:478-482 | Mirrors have ports if and only if their references do |
| HTTPIngestion.Translate | pkg/model/ingestion/gateway.go:63-203 | From any objects to route configurations: the listeners that carry HTTP, each with its own name, source, port, host, TLS and routes, which meet the translator's precondition, and their configurations |
| GatewayServing.GatewayRoutes | pkg/model/ingestion/gateway.go:63-203 | A host has a route on a side if and only if an HTTPRoute or GRPCRoute attached to a listener of that side shares the host with it and has the route in a rule |
| GatewayServing.GatewayHosts | pkg/model/translation/translator.go:273-321 | A side has a virtual host for exactly the hosts it serves and, with enforced HTTPS, those served securely, if it serves any |
| GatewayServing.GatewayAnswers | pkg/model/ingestion/gateway.go:63-203 | From the model listeners to the answers: every request gets what is due at the most specific host that stands for its authority |
| GatewayServing.HostlessServed | pkg/model/ingestion/gateway.go:649-669 | An attached route without hostnames and with a rule is served on the listener's own host |
| GatewayServing.ServedIsShared | pkg/model/ingestion/gateway.go:649-669 | A route is served only on concrete hosts that it shares with the listener |
| GatewayServing.SharedIsServed | pkg/model/ingestion/gateway.go:649-669 | And on all of them, unless one of its hostnames is a wildcard wider than the listener's |
| GatewayOffers.HTTPAskHolds | pkg/model/ingestion/gateway.go:770-784 | What an HTTP match asks is all of its meaning but the method |
| GatewayOffers.GRPCAskHolds | pkg/model/ingestion/gateway.go:484-513 | What a GRPC match asks is the path and the headers that its ingested route keeps |
| GatewayOffers.RoutesOffered | pkg/model/ingestion/gateway.go:63-203 | The routes of a host on a side are one for each match of each rule of each attached route that shares the host, in order of listener, kind, object, rule and match, as often as the host is listed |
| GatewayAnswers.OffersRanked | pkg/model/translation/envoy_virtual_host.go:90-119 | Offers are tried by kind and length of path, then number of headers, then of query parameters |
| GatewayAnswers.OffersMatch | pkg/model/model.go:272-304 | Offers go together if and only if they ask for the same path and the same sets of headers and query parameters |
| GatewayAnswers.GroupGives | pkg/model/ingestion/gateway.go:649-788 | They give the last redirect of the first, with its scheme, host, path, status and port; else the usable references of all, in order, with their clusters and weights, and the first one's last rewrite and all its mirrors; else status 500 |
| GatewayAnswers.GatewayAnswered | pkg/model/ingestion/gateway.go:63-203 | From the objects to the answers: every request gets, at the most specific host that stands for its authority, what the offers with the best ask that holds of it give |
| IngressIngestion.InsecureListeners | pkg/model/ingestion/ingress.go:49-144 | For each host, the default backend's route for `*`, then all paths of its rules in order; a host without such rules has no listener; what the routes mean is said by IngressPaths |
| IngressIngestion.SecureListeners | pkg/model/ingestion/ingress.go:146-222 | A host with TLS has a secure listener if and only if it or `*` has an insecure one; it copies `*` where there is one |
| IngressIngestion.AppendValuesInKeyOrder | pkg/model/ingestion/ingress.go:341-351 | Appends the values of the map in ascending order of key |
| IngressIngestion.Ingress | pkg/model/ingestion/ingress.go:16-229 | Two halves, each strictly sorted by host and with exactly the hosts that belong there |
| IngressIngestion.ListingUnique | pkg/model/ingestion/ingress.go:16-229 | That determines the listeners |
| IngressIngestion.ForceHTTPSKeptIff | pkg/model/ingestion/ingress.go:146-222 | The flag for forced HTTPS, and only the flag, reaches the secure listeners if and only if there is no `*` listener |
| IngressIngestion.IngressAnswerable | pkg/model/ingestion/ingress.go:16-229 | Every route forwards to one backend with a port, so the translator's precondition holds |
| IngressServing.Ingest | pkg/model/ingestion/ingress.go:16-229 | The listeners as a function of the Ingress |
| IngressServing.IngressServes | pkg/model/ingestion/ingress.go:16-229 | The routes of each side of each host, in order: its own on the insecure side, and those of `*`, or its own again, on the side that its secret decides |
| IngressPaths.OfferAsked | pkg/model/ingestion/ingress.go:49-144 | The route of a path asks for a request if and only if the path holds of it: an exact path is equal, a prefix leads by elements, any other is an expression for the whole path, and an empty one holds of all |
| IngressPaths.OffersRanked | pkg/model/translation/envoy_virtual_host.go:90-119 | Paths are tried exact first, then expressions, then prefixes, the longer first |
| IngressPaths.ServesOffers | pkg/model/ingestion/ingress.go:16-229 | The routes of a side of a host are those of its rules' paths and the default backend, in order, with or without TLS as sections and secrets say |
| IngressPaths.OffersAnswer | pkg/model/ingestion/ingress.go:49-144 | A request gets the services of the best path that holds of it, each with the same weight, by port number or else port name, in the Ingress's namespace |
| IngressServing.TLSMissingIff | pkg/model/ingestion/ingress.go:146-222 | A secure listener has no TLS if and only if there is no default secret and the sections that count for the host name none |
| IngressServing.SecretIs | pkg/model/ingestion/ingress.go:146-222 | The secret of a secure listener is that of the last section that lists the host or, without a `*` listener, of the last of those that has one: by its own name in the Ingress's namespace, or the default |
| IngressServing.SecureSideLostIff | pkg/model/ingestion/ingress.go:146-222 | Exactly then the host has nothing on the secure side and those routes on the insecure one |
| IngressServing.SecureSideLostExample | pkg/model/ingestion/ingress.go:146-222 | A concrete Ingress whose TLS host has nothing on the secure side and its one route twice in the clear |
| IngressServing.BackendsDoubled | pkg/model/ingestion/ingress.go:146-222 | Without a `*` listener every backend of such a host is then listed twice |
| IngressServing.ForceHTTPSIgnored | pkg/model/ingestion/ingress.go:146-222 | Forced HTTPS makes no difference to the configurations of an Ingress |
| IngressPassthrough.IngestPassthrough | pkg/model/ingestion/ingress.go:232-313 | One listener for each host with a path `/`, with exactly those backends, sorted by host |
| IngressPassthrough.TLSRoutesIff | pkg/model/ingestion/ingress.go:232-313 | A host has a passthrough listener if and only if a rule names it and has a path `/` |
| IngressPassthrough.ChainsIgnoreHosts | pkg/model/ingestion/ingress.go:232-313 | The filter chains made of them have no server names |
| IngressReconcile.Reconciler.BuildSharedResources | pkg/ingress/ingress_reconcile.go:346-373 | Translates exactly the managed, shared, non-deleting Ingresses in namespace/name order; fails if and only if the listing does, panics if and only if an Ingress then has no class |
| IngressReconcile.Reconciler.UpdateShared | pkg/ingress/ingress_reconcile.go:279-317 | Writes the shared config and nothing else; completes if and only if neither the listing nor the write fails and every Ingress has a class, and otherwise changes nothing |
| IngressReconcile.Reconciler.UpdateDedicated | pkg/ingress/ingress_reconcile.go:135-154 | Writes config, Service and Endpoints up to the first write that fails; completes if and only if there is a translation and none fails |
| IngressReconcile.Reconciler.CleanupDedicated | pkg/ingress/ingress_reconcile.go:292-332 | Deletes the three dedicated objects in any order up to the first deletion that fails; completes, with all gone, if and only if none fails |
| IngressReconcile.Reconciler.Reconcile | pkg/ingress/ingress_reconcile.go:37-123 | A run, for any calls that fail: its outcome and the store it leaves, branch by branch |
| IngressReconcile.RunReconciles | pkg/ingress/ingress_reconcile.go:37-123 | Every run touches only the shared config and the Ingress's own objects; where the two configs' names differ it never unsettles the Ingress, and a completed one leaves the shared config fresh and the Ingress settled |
| IngressReconcile.CompletesIff | pkg/ingress/ingress_reconcile.go:37-123 | Without failing calls, a run for an Ingress that is not being deleted completes if and only if every Ingress has a class and a dedicated one has a translation |
| IngressReconcile.Converges | pkg/ingress/ingress_reconcile.go:37-123 | From any cluster where that is so, and where no Ingress's config goes by the shared name, runs that reach every Ingress, in any order and number, end with all of them settled and the shared config fresh |
| IngressReconcile.SharedListUnique | pkg/ingress/ingress_reconcile.go:346-373 | There is one list of shared Ingresses, whatever order the API lists them in |
| IngressReconcile.SettledStays | pkg/ingress/ingress_reconcile.go:37-123 | Over any history, once a run of an Ingress has completed it stays settled while it is left alone, whatever runs follow and however they end |
| IngressReconcile.SharedStaysFresh | pkg/ingress/ingress_reconcile.go:37-123 | Over any history, after a completed run the shared config stays fresh through any runs until the cluster changes |
| IngressReconcile.ServedOnce | pkg/ingress/ingress_reconcile.go:37-123 | A settled, managed Ingress is either in the shared list with no dedicated object, or not in it with all three |
| IngressReconcile.SharedListIff | pkg/ingress/helpers.go:15-52 | An Ingress is in the shared list if and only if its annotated class, or without one the class of its spec, is this controller's (or empty where that is the default), its mode is shared or unknown where that is the default, and it is not being deleted |
| IngressReconcile.OwnObjectsIff | pkg/ingress/ingress_reconcile.go:37-123 | After a completed run an Ingress has a Service and Endpoints named after it, and a config named after its namespace and it, if and only if it is of this class and its mode says so; the shared config is there in any case |
| IngressReconcile.SharedFreshIff | pkg/ingress/ingress_reconcile.go:292-317 | After a completed run the shared config is fresh if and only if the run did not clean up a config of the same name |
| IngressReconcile.SettledIff | pkg/ingress/ingress_reconcile.go:37-123 | After a completed run the Ingress is settled if and only if its config has a name of its own, or it is not dedicated, or the shared Ingresses translate to the same |
| IngressReconcile.GoneKeepsObjects | pkg/ingress/ingress_reconcile.go:37-123 | A run for an Ingress that is gone or being deleted leaves its dedicated objects |
| IngressReconcile.ClasslessBlocksAll | pkg/ingress/helpers.go:15-25 | While any Ingress has no class no run completes, whatever calls fail |
| IngressReconcile.ClasslessExample | pkg/ingress/helpers.go:15-25 | A concrete cluster in which a healthy Ingress cannot be reconciled beside one without a class |
| IngressReconcile.CollisionExample | pkg/ingress/ingress_reconcile.go:292-317 | A concrete cluster in which a completed run leaves no shared config |
| IngressReconcile.OverwrittenExample | pkg/ingress/ingress_reconcile.go:37-123 | A concrete cluster in which a completed run for a dedicated Ingress leaves the shared config in place of its own |
| IngressPipeline.TranslateShared | pkg/ingress/ingress_reconcile.go:346-373 | The shared translator: the configurations of all listeners and the chains of all passthrough listeners, in order of the list |
| IngressPipeline.TranslateDedicated | pkg/model/translation/ingress/dedicated_ingress.go:40-76 | The dedicated translator: the same for one Ingress on its own ports, or nothing |
| IngressPipeline.TranslatesIff | pkg/model/translation/ingress/dedicated_ingress.go:40-43 | A dedicated Ingress translates if and only if it has a default backend or a rule with paths; with passthrough, a named host with a path `/` |
| IngressPipeline.SharedPortsAre | pkg/ingress/ingress_reconcile.go:334-344 | Shared listeners are on ports 80 and 443, with TLS always on 443 and there only for hosts of a TLS section; on the host's network, on the configured port or 8080 |
| IngressPipeline.DedicatedPortsAre | pkg/ingress/ingress_reconcile.go:201-216 | Dedicated ones likewise, with the port that the Ingress asks for |
| IngressAnswers.RoutesByIngress | pkg/ingress/ingress_reconcile.go:346-373 | The routes of a host in the shared config are those of every Ingress that serves it, in namespace/name order |
| IngressAnswers.PathKeysExact | pkg/model/model.go:272-304 | Routes of Ingresses match by path only, and their keys are exact whatever the paths hold |
| IngressAnswers.FreshAnswers | pkg/ingress/ingress_reconcile.go:346-373 | While the shared config is fresh it gives every request, at the most specific host, the service of the best path of all shared Ingresses, redirects of enforced HTTPS included |
| IngressAnswers.SettledAnswers | pkg/ingress/ingress_reconcile.go:176-199 | The config of a settled dedicated Ingress does so for its own rules and paths |
| IngressAnswers.EventuallyAnswers | pkg/ingress/ingress_reconcile.go:37-123 | From any cluster whose Ingresses have classes and something to translate, and whose config names differ, runs without failures that reach all of them end with every request answered so |
| IngressAnswers.DeepHostLost | pkg/model/translation/envoy_virtual_host.go:484-515 | A concrete Ingress with a wildcard host and a default backend: a request two labels below the wildcard gets nothing, though the default backend is for it |

## Left out

- RoutingPreserved: for literal hosts only; RequestAnswered is about the others.
- RequestAnswered: for authorities without a star; Envoy's folding of their case is not modelled.
- Reconcile: contents of Services and Endpoints and the load balancer status are not modelled, only which objects exist and the configs' contents; the cluster does not change during a run, and the lookup of the IngressClass gives one answer per run.
- SetListenerStatus: the number of routes attached to a listener and the times of conditions are left out; which Secrets hold a certificate and a key is a parameter.
- SetHTTPRouteStatus: whether a regular expression compiles is a parameter; a nil and an empty list are the same.
- ForeignSparedIff: over all prior statuses; for one prior status a failed validator may find its condition already there.
- RestIngested: for matches that the API server admits, with known types, values that are not empty, field names without a colon and none twice.
- MethodHonouredIff: for the same matches; whatever the API server turns away is not considered.
- GatewayAnswers: for hosts whose routes have exact keys.
- GatewayAnswered: for hosts whose offers have exact keys, and matches that the API server admits; a redirect to a port outside 16 bits is left open.
- CallHonouredIff: for matches by name; what an expression made of two expressions accepts is left open.
- AcceptedIff: for requests whose expressions are read, as far as these patterns go, as RE2 reads them; FreshAnswers, SettledAnswers and EventuallyAnswers are about the same requests.
- ConnectionTaken: where no cluster has a `*` beside another host, which Envoy refuses.
- ConnectionsServed: where no cluster has a `*` beside another host, which Envoy refuses.
- PrefixRewriteRightIff: the expression that drops a prefix is modelled by what it does, not by its text; queries are left out.
- HTTPAttachmentRightIff: over all listener names; ports of parent references, which the code does not look at, are left out.
- PrecedenceFollowedIff: for matches by exact path or prefix, the kinds that the Gateway API ranks.
- CollectBackends: whether a reference grant allows a reference is a parameter.
- Translate: certificates of a listener are a parameter; the TLS and TCP listeners built beside the HTTP ones are left to TLSIngestion and the next lines.
- Ingress: annotations (timeouts, service type, forced HTTPS) come as values; AppendValuesInKeyOrder and the map loops are modelled as they are.
- Nil pointers that the API server's defaulting rules out (types and values of matches, the service of an Ingress backend, the filter of a filter type).
- Header modifiers and the response codes of redirects, which are copied; a regular expression for a rewrite.
- HTTPS filter chains, secrets and their namespaces, transport sockets, protobuf messages, cluster and listener mutators.
- UDP routes, and the ingestion of TCP routes, which repeats that of TLS routes without the repetition.
- The translator of Gateway API resources around this one (owner references, ports and labels of the Service).
- Watches, predicates and queues of the controllers, retries, leader election, metrics, logging.
