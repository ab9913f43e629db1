/** Reconciling an Ingress between shared and dedicated load balancing, one run at a time and over whole histories. */
module IngressReconcile {
  import opened Wrappers
  import opened Strings
  import opened Sorting
  import opened GatewayObjects
  import Merging
  import RouteConfig
  import Passthrough
  import IngressIngestion

  // ---------- the cluster store ----------

  // The parts of a DolphinEnvoyConfig that route requests.
  datatype Config = Config(routes: seq<RouteConfig.RouteConfiguration>, chains: seq<Passthrough.FilterChain>)

  // An Ingress as the store has it, with what its annotations say; hostPort is absent also where it does not parse.
  datatype Ingress = Ingress(
    key: NamespacedName, annotationClass: Option<string>, specClass: Option<string>, mode: string, deleting: bool,
    passthrough: bool, hostPort: Option<nat>, spec: IngressIngestion.IngressObject)

  // Services and Endpoints matter by their presence only. isDefault is what the lookup of the IngressClass answers.
  datatype Store = Store(
    ingresses: map<NamespacedName, Ingress>, isDefault: bool,
    configs: map<NamespacedName, Config>, services: set<NamespacedName>, endpoints: set<NamespacedName>)

  // The reconciler's settings and its two translators; the dedicated one fails on an Ingress that models to nothing.
  datatype Settings = Settings(
    dolphinNamespace: string, sharedLBServiceName: string, defaultMode: string,
    shared: seq<Ingress> -> Config, dedicated: Ingress -> Option<Config>)

  const PREFIX := "dolphin-ingress"
  const CLASS := "dolphin"

  function SharedConfig(c: Settings): NamespacedName {
    NamespacedName(c.dolphinNamespace, c.sharedLBServiceName)
  }

  // The Service and the Endpoints of a dedicated Ingress.
  function DedicatedObject(key: NamespacedName): NamespacedName {
    NamespacedName(key.namespace, PREFIX + "-" + key.name)
  }

  function DedicatedConfig(key: NamespacedName): NamespacedName {
    NamespacedName(key.namespace, PREFIX + "-" + key.namespace + "-" + key.name)
  }

  function ClassOf(ing: Ingress): Option<string> {
    if ing.annotationClass.Some? then ing.annotationClass else ing.specClass
  }

  predicate Managed(isDefault: bool, ing: Ingress) {
    ClassOf(ing) == Some(CLASS) || (ClassOf(ing) == Some("") && isDefault)
  }

  predicate Dedicated(c: Settings, ing: Ingress) {
    if ing.mode == "dedicated" then true else if ing.mode == "shared" then false else c.defaultMode == "dedicated"
  }

  predicate Shares(c: Settings, isDefault: bool, ing: Ingress) {
    Managed(isDefault, ing) && !Dedicated(c, ing) && !ing.deleting
  }

  function Sharing(c: Settings, isDefault: bool): Ingress -> bool {
    ing => Shares(c, isDefault, ing)
  }

  function Path(ing: Ingress): string {
    ing.key.namespace + "/" + ing.key.name
  }

  predicate ByPath(a: Ingress, b: Ingress) {
    Less(Path(a), Path(b))
  }

  // Objects are stored under their own name; a namespace has no slash.
  ghost predicate WellKeyed(s: Store) {
    forall k | k in s.ingresses :: s.ingresses[k].key == k && '/' !in k.namespace
  }

  // Every Ingress names a class. The test for a managed Ingress dereferences the class before it looks whether there is one.
  ghost predicate Classed(s: Store) {
    forall k | k in s.ingresses :: ClassOf(s.ingresses[k]).Some?
  }

  // ---------- what a run is for ----------

  // Exactly the managed, shared-mode, non-deleting Ingresses, in the order of namespace and name.
  ghost predicate SharedList(c: Settings, ingresses: map<NamespacedName, Ingress>, isDefault: bool, list: seq<Ingress>) {
    && StrictlyAscending(list, ByPath)
    && forall ing :: ing in list <==> ing.key in ingresses && ingresses[ing.key] == ing && Shares(c, isDefault, ing)
  }

  ghost predicate SharedTranslation(c: Settings, ingresses: map<NamespacedName, Ingress>, isDefault: bool, config: Config) {
    exists list :: SharedList(c, ingresses, isDefault, list) && config == c.shared(list)
  }

  ghost predicate SharedFresh(c: Settings, s: Store) {
    SharedConfig(c) in s.configs && SharedTranslation(c, s.ingresses, s.isDefault, s.configs[SharedConfig(c)])
  }

  ghost predicate NoDedicatedObjects(s: Store, key: NamespacedName) {
    DedicatedConfig(key) !in s.configs && DedicatedObject(key) !in s.services && DedicatedObject(key) !in s.endpoints
  }

  ghost predicate AllDedicatedObjects(c: Settings, s: Store, key: NamespacedName, ing: Ingress) {
    && DedicatedConfig(key) in s.configs && c.dedicated(ing) == Some(s.configs[DedicatedConfig(key)])
    && DedicatedObject(key) in s.services && DedicatedObject(key) in s.endpoints
  }

  // A dedicated Ingress has all its objects; any other has none.
  ghost predicate Settled(c: Settings, s: Store, key: NamespacedName) {
    key in s.ingresses && !s.ingresses[key].deleting ==>
      var ing := s.ingresses[key];
      if Managed(s.isDefault, ing) && Dedicated(c, ing) then AllDedicatedObjects(c, s, key, ing) else NoDedicatedObjects(s, key)
  }

  // The dedicated config of the Ingress does not go by the name of the shared one.
  predicate Apart(c: Settings, key: NamespacedName) {
    DedicatedConfig(key) != SharedConfig(c)
  }

  ghost predicate ConfigKept(s: Store, s': Store, name: NamespacedName) {
    (name in s'.configs <==> name in s.configs) && (name in s.configs ==> s'.configs[name] == s.configs[name])
  }

  ghost predicate OwnObjectsKept(s: Store, s': Store, key: NamespacedName) {
    && ConfigKept(s, s', DedicatedConfig(key))
    && (DedicatedObject(key) in s'.services <==> DedicatedObject(key) in s.services)
    && (DedicatedObject(key) in s'.endpoints <==> DedicatedObject(key) in s.endpoints)
  }

  // A run touches the shared config and the objects of its own Ingress, nothing else.
  ghost predicate OthersKept(c: Settings, s: Store, s': Store, key: NamespacedName) {
    && s'.ingresses == s.ingresses && s'.isDefault == s.isDefault
    && (forall name | name != SharedConfig(c) && name != DedicatedConfig(key) :: ConfigKept(s, s', name))
    && (forall name | name != DedicatedObject(key) :: (name in s'.services <==> name in s.services))
    && (forall name | name != DedicatedObject(key) :: (name in s'.endpoints <==> name in s.endpoints))
  }

  datatype Outcome = Done | Stopped | Failed | Panicked

  // Whether the run has to do with a dedicated Ingress.
  predicate WantsDedicated(c: Settings, s: Store, key: NamespacedName) {
    key in s.ingresses && !s.ingresses[key].deleting && Managed(s.isDefault, s.ingresses[key]) && Dedicated(c, s.ingresses[key])
  }

  predicate CleansUp(c: Settings, s: Store, key: NamespacedName) {
    key in s.ingresses && !s.ingresses[key].deleting && !WantsDedicated(c, s, key)
  }

  // ---------- the run, step by step ----------

  datatype Kind = ServiceKind | EndpointsKind | ConfigKind

  // Which calls of the API fail in a run. A failed write of a dedicated object may be due to the namespace's termination.
  datatype Faults = Faults(
    get: bool, list: bool, writeShared: bool, writeConfig: bool, writeService: bool, writeEndpoints: bool, terminating: bool,
    deletes: set<Kind>, status: bool)

  const NO_FAULTS := Faults(false, false, false, false, false, false, false, {}, false)

  // The shared config was written, and nothing else.
  ghost predicate Refreshed(c: Settings, s: Store, s': Store) {
    && SharedConfig(c) in s'.configs
    && s' == s.(configs := s.configs[SharedConfig(c) := s'.configs[SharedConfig(c)]])
    && SharedTranslation(c, s.ingresses, s.isDefault, s'.configs[SharedConfig(c)])
  }

  ghost function SharedOutcome(s: Store, f: Faults): Outcome {
    if f.list then Failed else if !Classed(s) then Panicked else if f.writeShared then Failed else Done
  }

  ghost predicate SharedStep(c: Settings, s: Store, f: Faults, outcome: Outcome, s': Store) {
    outcome == SharedOutcome(s, f) && if outcome.Done? then Refreshed(c, s, s') else s' == s
  }

  // The three objects are written one after the other.
  function DedicatedStep(c: Settings, s: Store, ing: Ingress, f: Faults): (Outcome, Store) {
    var failure := if f.terminating then Stopped else Failed;
    if c.dedicated(ing).None? then (Failed, s)
    else if f.writeConfig then (failure, s)
    else
      var one := s.(configs := s.configs[DedicatedConfig(ing.key) := c.dedicated(ing).value]);
      if f.writeService then (failure, one)
      else
        var two := one.(services := one.services + {DedicatedObject(ing.key)});
        if f.writeEndpoints then (failure, two) else (Done, two.(endpoints := two.endpoints + {DedicatedObject(ing.key)}))
  }

  // The three objects are deleted in some order, up to the first deletion that fails.
  ghost predicate CleanupStep(s: Store, key: NamespacedName, f: Faults, outcome: Outcome, s': Store) {
    && Removed(s, key, s')
    && if f.deletes == {} then outcome.Done? && NoDedicatedObjects(s', key) else outcome.Failed?
  }

  function Finish(outcome: Outcome, failed: bool): Outcome {
    if outcome.Done? && failed then Failed else outcome
  }

  // A run for the key, with these faults, ends like this.
  ghost predicate Runs(c: Settings, s: Store, key: NamespacedName, f: Faults, outcome: Outcome, s': Store) {
    if f.get then outcome.Failed? && s' == s
    else if key !in s.ingresses then SharedStep(c, s, f, outcome, s')
    else if s.ingresses[key].deleting then outcome.Stopped? && s' == s
    else if ClassOf(s.ingresses[key]).None? then outcome.Panicked? && s' == s
    else if WantsDedicated(c, s, key) then
      var (first, mid) := DedicatedStep(c, s, s.ingresses[key], f);
      if !first.Done? then outcome == first && s' == mid
      else outcome == Finish(SharedOutcome(mid, f), f.status) && SharedStep(c, mid, f, SharedOutcome(mid, f), s')
    else if !SharedOutcome(s, f).Done? then outcome == SharedOutcome(s, f) && s' == s
    else exists mid, cleaned ::
      CleansAfter(c, s, mid, key, f, cleaned, s') && outcome == Finish(cleaned, f.status && Managed(s.isDefault, s.ingresses[key]))
  }

  ghost predicate CleansAfter(c: Settings, s: Store, mid: Store, key: NamespacedName, f: Faults, cleaned: Outcome, s': Store) {
    Refreshed(c, s, mid) && CleanupStep(mid, key, f, cleaned, s')
  }

  ghost predicate Removed(s: Store, key: NamespacedName, s': Store) {
    && s'.ingresses == s.ingresses && s'.isDefault == s.isDefault
    && (s'.configs == s.configs || s'.configs == s.configs - {DedicatedConfig(key)})
    && (s'.services == s.services || s'.services == s.services - {DedicatedObject(key)})
    && (s'.endpoints == s.endpoints || s'.endpoints == s.endpoints - {DedicatedObject(key)})
  }

  // ---------- the code ----------

  datatype Built = Built(config: Config) | BuildFailed | BuildPanicked

  function Deleted(s: Store, kind: Kind, key: NamespacedName): Store {
    match kind
    case ServiceKind => s.(services := s.services - {DedicatedObject(key)})
    case EndpointsKind => s.(endpoints := s.endpoints - {DedicatedObject(key)})
    case ConfigKind => s.(configs := s.configs - {DedicatedConfig(key)})
  }

  ghost predicate Gone(s: Store, kind: Kind, key: NamespacedName) {
    match kind
    case ServiceKind => DedicatedObject(key) !in s.services
    case EndpointsKind => DedicatedObject(key) !in s.endpoints
    case ConfigKind => DedicatedConfig(key) !in s.configs
  }

  lemma PathInjective(a: Ingress, b: Ingress)
    requires '/' !in a.key.namespace && '/' !in b.key.namespace && Path(a) == Path(b)
    ensures a.key == b.key
  {
    CutUnique(a.key.namespace, a.key.name, b.key.namespace, b.key.name, '/');
  }

  lemma ByPathIsStrictWeak()
    ensures StrictWeakOrder(ByPath)
  {
    StringOrder();
  }

  // There is one such list.
  lemma SharedListUnique(c: Settings, s: Store, a: seq<Ingress>, b: seq<Ingress>)
    requires SharedList(c, s.ingresses, s.isDefault, a) && SharedList(c, s.ingresses, s.isDefault, b)
    ensures a == b
  {
    ByPathIsStrictWeak();
    StrictlyAscendingUnique(a, b, ByPath);
  }

  lemma FreshConfig(c: Settings, s: Store, list: seq<Ingress>)
    requires SharedFresh(c, s) && SharedList(c, s.ingresses, s.isDefault, list)
    ensures s.configs[SharedConfig(c)] == c.shared(list)
  {
    var other :| SharedList(c, s.ingresses, s.isDefault, other) && s.configs[SharedConfig(c)] == c.shared(other);
    SharedListUnique(c, s, list, other);
  }

  ghost predicate Lists(s: Store, items: seq<Ingress>) {
    Distinct(items) && forall ing :: ing in items <==> ing.key in s.ingresses && s.ingresses[ing.key] == ing
  }

  lemma {:induction false} FilterStrictlyAscending<T(!new)>(s: seq<T>, less: (T, T) -> bool, keep: T -> bool)
    requires StrictlyAscending(s, less)
    ensures StrictlyAscending(Filter(s, keep), less)
  {
    if s != [] {
      assert forall i, j | 0 <= i < j < |s[1..]| :: s[1..][i] == s[i + 1] && s[1..][j] == s[j + 1];
      FilterStrictlyAscending(s[1..], less, keep);
      FilterMember(s[1..], keep);
      var rest := Filter(s[1..], keep);
      forall j | 0 <= j < |rest| ensures less(s[0], rest[j]) {
        assert rest[j] in rest;
        var k :| 0 <= k < |s[1..]| && s[1..][k] == rest[j];
      }
    }
  }

  lemma SortedListing(s: Store, items: seq<Ingress>)
    requires WellKeyed(s) && Lists(s, items)
    ensures StrictlyAscending(StableSort(items, ByPath), ByPath)
    ensures forall ing :: ing in StableSort(items, ByPath) <==> ing in items
  {
    StringOrder();
    forall i, j | 0 <= i < j < |items| ensures Path(items[i]) != Path(items[j]) {
      assert items[i] in items && items[j] in items;
      if Path(items[i]) == Path(items[j]) {
        PathInjective(items[i], items[j]);
      }
    }
    assert Distinct(Map(Path, items));
    SortDistinct(Path, items, ByPath, Less);
    var sorted := StableSort(items, ByPath);
    forall i, j | 0 <= i < j < |sorted| ensures ByPath(sorted[i], sorted[j]) {
      assert Less(Map(Path, sorted)[i], Map(Path, sorted)[j]);
    }
  }

  lemma ListingIsShared(c: Settings, s: Store, items: seq<Ingress>)
    requires WellKeyed(s) && Lists(s, items)
    ensures SharedList(c, s.ingresses, s.isDefault, Filter(StableSort(items, ByPath), Sharing(c, s.isDefault)))
  {
    SortedListing(s, items);
    FilterStrictlyAscending(StableSort(items, ByPath), ByPath, Sharing(c, s.isDefault));
    FilterMember(StableSort(items, ByPath), Sharing(c, s.isDefault));
  }

  class Reconciler {
    const c: Settings
    var store: Store

    constructor (c: Settings, store: Store)
      ensures this.c == c && this.store == store
    {
      this.c, this.store := c, store;
    }

    // The API server's answer to a listing, in any order.
    method List() returns (items: seq<Ingress>)
      requires WellKeyed(store)
      ensures Lists(store, items)
    {
      items := [];
      var left := store.ingresses.Keys;
      while left != {}
        invariant left <= store.ingresses.Keys
        invariant Distinct(items)
        invariant forall ing :: ing in items <==> ing.key in store.ingresses && ing.key !in left && store.ingresses[ing.key] == ing
        decreases left
      {
        var k :| k in left;
        items := items + [store.ingresses[k]];
        left := left - {k};
      }
    }

    method BuildSharedResources(f: Faults) returns (r: Built)
      requires WellKeyed(store)
      ensures r.BuildFailed? <==> f.list
      ensures r.BuildPanicked? <==> !f.list && !Classed(store)
      ensures r.Built? ==> SharedTranslation(c, store.ingresses, store.isDefault, r.config)
    {
      if f.list {
        return BuildFailed;
      }
      var items := List();
      var sorted := StableSort(items, ByPath);
      SortedListing(store, items);
      ListingIsShared(c, store, items);
      var m := CollectShared(sorted);
      if m.None? {
        return BuildPanicked;
      }
      forall k | k in store.ingresses ensures ClassOf(store.ingresses[k]).Some? {
        assert store.ingresses[k] in sorted;
      }
      r := Built(c.shared(m.value));
    }

    // The loop over the sorted list; it has no result where the class of an item is missing.
    method CollectShared(items: seq<Ingress>) returns (m: Option<seq<Ingress>>)
      ensures m.Some? ==> m.value == Filter(items, Sharing(c, store.isDefault)) && forall ing | ing in items :: ClassOf(ing).Some?
      ensures m.None? ==> exists ing :: ing in items && ClassOf(ing).None?
    {
      var list := [];
      for i := 0 to |items|
        invariant list == Filter(items[..i], Sharing(c, store.isDefault))
        invariant forall j | 0 <= j < i :: ClassOf(items[j]).Some?
      {
        assert items[..i + 1] == items[..i] + [items[i]];
        Merging.FilterSnoc(items[..i], items[i], Sharing(c, store.isDefault));
        if ClassOf(items[i]).None? {
          assert items[i] in items;
          return None;
        }
        if Shares(c, store.isDefault, items[i]) {
          list := list + [items[i]];
        }
      }
      assert items[..|items|] == items;
      m := Some(list);
    }

    // createOrUpdateSharedResources and tryCleanupSharedResources do the same.
    method UpdateShared(f: Faults) returns (outcome: Outcome)
      requires WellKeyed(store)
      modifies this
      ensures SharedStep(c, old(store), f, outcome, store)
    {
      var built := BuildSharedResources(f);
      match built
      case BuildFailed => return Failed;
      case BuildPanicked => return Panicked;
      case Built(config) =>
        if f.writeShared {
          return Failed;
        }
        store := store.(configs := store.configs[SharedConfig(c) := config]);
        return Done;
    }

    // Stopped here means that the namespace is being terminated.
    method UpdateDedicated(ing: Ingress, f: Faults) returns (outcome: Outcome)
      modifies this
      ensures (outcome, store) == DedicatedStep(c, old(store), ing, f)
    {
      var failure := if f.terminating then Stopped else Failed;
      var desired := c.dedicated(ing);
      if desired.None? {
        return Failed;
      }
      if f.writeConfig {
        return failure;
      }
      store := store.(configs := store.configs[DedicatedConfig(ing.key) := desired.value]);
      if f.writeService {
        return failure;
      }
      store := store.(services := store.services + {DedicatedObject(ing.key)});
      if f.writeEndpoints {
        return failure;
      }
      store := store.(endpoints := store.endpoints + {DedicatedObject(ing.key)});
      return Done;
    }

    method CleanupDedicated(key: NamespacedName, f: Faults) returns (outcome: Outcome)
      modifies this
      ensures CleanupStep(old(store), key, f, outcome, store)
    {
      var left := {ServiceKind, EndpointsKind, ConfigKind};
      forall kind: Kind ensures kind in left {
        match kind
        case ServiceKind => assert ServiceKind in left;
        case EndpointsKind => assert EndpointsKind in left;
        case ConfigKind => assert ConfigKind in left;
      }
      while left != {}
        invariant Removed(old(store), key, store)
        invariant forall kind :: kind !in left ==> Gone(store, kind, key) && kind !in f.deletes
        decreases left
      {
        var kind :| kind in left;
        if kind in f.deletes {
          return Failed;
        }
        store := Deleted(store, kind, key);
        left := left - {kind};
      }
      assert Gone(store, ServiceKind, key) && Gone(store, EndpointsKind, key) && Gone(store, ConfigKind, key);
      return Done;
    }

    method Reconcile(key: NamespacedName, f: Faults) returns (outcome: Outcome)
      requires WellKeyed(store)
      modifies this
      ensures Runs(c, old(store), key, f, outcome, store)
    {
      if f.get {
        return Failed;
      }
      if key !in store.ingresses {
        outcome := UpdateShared(f);
        return;
      }
      var ing := store.ingresses[key];
      if ing.deleting {
        return Stopped;
      }
      if ClassOf(ing).None? {
        return Panicked;
      }
      if Managed(store.isDefault, ing) && Dedicated(c, ing) {
        outcome := UpdateDedicated(ing, f);
        if !outcome.Done? {
          return;
        }
        outcome := UpdateShared(f);
        outcome := Finish(outcome, f.status);
      } else {
        outcome := ReconcileShared(key, f);
      }
    }

    // A shared Ingress, or one that is no longer managed; the latter's status is cleared and may fail to be.
    method ReconcileShared(key: NamespacedName, f: Faults) returns (outcome: Outcome)
      requires WellKeyed(store) && key in store.ingresses && !store.ingresses[key].deleting && !WantsDedicated(c, store, key)
      requires ClassOf(store.ingresses[key]).Some? && !f.get
      modifies this
      ensures Runs(c, old(store), key, f, outcome, store)
    {
      outcome := UpdateShared(f);
      if !outcome.Done? {
        return;
      }
      ghost var mid := store;
      var managed := Managed(store.isDefault, store.ingresses[key]);
      outcome := CleanupDedicated(key, f);
      assert CleansAfter(c, old(store), mid, key, f, outcome, store);
      outcome := Finish(outcome, f.status && managed);
    }
  }

  // ---------- what every run keeps and achieves ----------

  // What any run does to the store, whatever its outcome, and what a completed one achieves.
  ghost predicate Reconciled(c: Settings, s: Store, key: NamespacedName, outcome: Outcome, s': Store) {
    && OthersKept(c, s, s', key)
    && (Apart(c, key) ==> ConfigKept(s, s', SharedConfig(c)) || SharedFresh(c, s'))
    && (Apart(c, key) && Settled(c, s, key) ==> Settled(c, s', key))
    && (Apart(c, key) && outcome.Done? ==> SharedFresh(c, s') && Settled(c, s', key))
  }

  lemma DedicatedWrites(c: Settings, s: Store, key: NamespacedName, f: Faults)
    requires WantsDedicated(c, s, key) && s.ingresses[key].key == key
    ensures var (outcome, s') := DedicatedStep(c, s, s.ingresses[key], f);
      && OthersKept(c, s, s', key) && (Apart(c, key) ==> ConfigKept(s, s', SharedConfig(c)))
      && (Settled(c, s, key) ==> Settled(c, s', key))
      && (outcome.Done? ==> AllDedicatedObjects(c, s', key, s.ingresses[key]))
      && (outcome.Done? <==> c.dedicated(s.ingresses[key]).Some? && !f.writeConfig && !f.writeService && !f.writeEndpoints)
      && !outcome.Panicked?
  {
  }

  lemma RefreshKeeps(c: Settings, s: Store, s': Store, key: NamespacedName)
    requires Refreshed(c, s, s')
    ensures OthersKept(c, s, s', key) && SharedFresh(c, s')
    ensures Apart(c, key) ==> (Settled(c, s, key) <==> Settled(c, s', key))
  {
  }

  lemma CleanupKeeps(c: Settings, s: Store, s': Store, key: NamespacedName)
    requires Removed(s, key, s') && CleansUp(c, s, key)
    ensures OthersKept(c, s, s', key)
    ensures Apart(c, key) ==> ConfigKept(s, s', SharedConfig(c)) && (SharedFresh(c, s) ==> SharedFresh(c, s'))
    ensures Settled(c, s, key) ==> Settled(c, s', key)
    ensures NoDedicatedObjects(s', key) ==> Settled(c, s', key)
  {
  }

  lemma KeptInTurn(c: Settings, s: Store, mid: Store, s': Store, key: NamespacedName)
    requires OthersKept(c, s, mid, key) && OthersKept(c, mid, s', key)
    ensures OthersKept(c, s, s', key)
  {
    forall name | name != SharedConfig(c) && name != DedicatedConfig(key) ensures ConfigKept(s, s', name) {
      assert ConfigKept(s, mid, name) && ConfigKept(mid, s', name);
    }
  }

  lemma SharedReconciled(c: Settings, s: Store, key: NamespacedName, f: Faults, outcome: Outcome, mid: Store, cleaned: Outcome, s': Store)
    requires CleansUp(c, s, key) && CleansAfter(c, s, mid, key, f, cleaned, s') && (outcome.Done? ==> cleaned.Done?)
    ensures Reconciled(c, s, key, outcome, s')
  {
    RefreshKeeps(c, s, mid, key);
    CleanupKeeps(c, mid, s', key);
    KeptInTurn(c, s, mid, s', key);
  }

  lemma DedicatedReconciled(c: Settings, s: Store, key: NamespacedName, f: Faults, outcome: Outcome, s': Store)
    requires WantsDedicated(c, s, key) && s.ingresses[key].key == key && !f.get && ClassOf(s.ingresses[key]).Some?
    requires Runs(c, s, key, f, outcome, s')
    ensures Reconciled(c, s, key, outcome, s')
  {
    var (first, mid) := DedicatedStep(c, s, s.ingresses[key], f);
    DedicatedWrites(c, s, key, f);
    if first.Done? && SharedOutcome(mid, f).Done? {
      RefreshKeeps(c, mid, s', key);
      KeptInTurn(c, s, mid, s', key);
    }
  }

  // Every run touches only the shared config and its own Ingress's objects. Where the two configs go by different names it
  // never unsettles the Ingress, and a completed one leaves the shared config fresh and the Ingress settled.
  lemma RunReconciles(c: Settings, s: Store, key: NamespacedName, f: Faults, outcome: Outcome, s': Store)
    requires WellKeyed(s) && Runs(c, s, key, f, outcome, s')
    ensures Reconciled(c, s, key, outcome, s')
  {
    if f.get {
    } else if key !in s.ingresses {
      if outcome.Done? {
        RefreshKeeps(c, s, s', key);
      }
    } else if s.ingresses[key].deleting || ClassOf(s.ingresses[key]).None? {
    } else if WantsDedicated(c, s, key) {
      DedicatedReconciled(c, s, key, f, outcome, s');
    } else if SharedOutcome(s, f).Done? {
      var mid, cleaned :| CleansAfter(c, s, mid, key, f, cleaned, s')
        && outcome == Finish(cleaned, f.status && Managed(s.isDefault, s.ingresses[key]));
      SharedReconciled(c, s, key, f, outcome, mid, cleaned, s');
    }
  }

  // A run without faults completes if and only if every Ingress in the cluster names a class and, for a dedicated one,
  // there is something to translate.
  lemma CompletesIff(c: Settings, s: Store, key: NamespacedName, outcome: Outcome, s': Store)
    requires WellKeyed(s) && Runs(c, s, key, NO_FAULTS, outcome, s') && !(key in s.ingresses && s.ingresses[key].deleting)
    ensures outcome.Done? <==> Classed(s) && (WantsDedicated(c, s, key) ==> c.dedicated(s.ingresses[key]).Some?)
  {
    if WantsDedicated(c, s, key) {
      DedicatedWrites(c, s, key, NO_FAULTS);
      var (first, mid) := DedicatedStep(c, s, s.ingresses[key], NO_FAULTS);
      assert Classed(mid) <==> Classed(s);
    }
  }

  // Whatever the faults, no run completes while an Ingress anywhere in the cluster has no class.
  lemma ClasslessBlocksAll(c: Settings, s: Store, key: NamespacedName, f: Faults, outcome: Outcome, s': Store, other: NamespacedName)
    requires WellKeyed(s) && Runs(c, s, key, f, outcome, s')
    requires other in s.ingresses && ClassOf(s.ingresses[other]).None?
    ensures !outcome.Done?
  {
    if WantsDedicated(c, s, key) {
      var (first, mid) := DedicatedStep(c, s, s.ingresses[key], f);
      assert mid.ingresses == s.ingresses;
    }
  }

  // After a completed run the shared config is fresh if and only if the run did not clean up a config of its name.
  lemma SharedFreshIff(c: Settings, s: Store, key: NamespacedName, f: Faults, s': Store)
    requires WellKeyed(s) && Runs(c, s, key, f, Done, s')
    ensures SharedFresh(c, s') <==> Apart(c, key) || !CleansUp(c, s, key)
  {
    if Apart(c, key) {
      RunReconciles(c, s, key, f, Done, s');
    } else if key !in s.ingresses {
      RefreshKeeps(c, s, s', key);
    } else if WantsDedicated(c, s, key) {
      var (first, mid) := DedicatedStep(c, s, s.ingresses[key], f);
      RefreshKeeps(c, mid, s', key);
    }
  }

  // After a completed run the Ingress is settled if and only if it is not dedicated, or its config goes by a name of its own,
  // or the shared Ingresses translate to the very same: the shared config is written last.
  lemma SettledIff(c: Settings, s: Store, key: NamespacedName, f: Faults, s': Store, list: seq<Ingress>)
    requires WellKeyed(s) && Runs(c, s, key, f, Done, s') && SharedList(c, s.ingresses, s.isDefault, list)
    ensures Settled(c, s', key)
       <==> Apart(c, key) || !WantsDedicated(c, s, key) || c.dedicated(s.ingresses[key]) == Some(c.shared(list))
  {
    if Apart(c, key) {
      RunReconciles(c, s, key, f, Done, s');
    } else if WantsDedicated(c, s, key) {
      DedicatedWrites(c, s, key, f);
      var (first, mid) := DedicatedStep(c, s, s.ingresses[key], f);
      RefreshKeeps(c, mid, s', key);
      FreshConfig(c, s', list);
    } else if key in s.ingresses && !s.ingresses[key].deleting {
      var mid, cleaned :| CleansAfter(c, s, mid, key, f, cleaned, s')
        && Done == Finish(cleaned, f.status && Managed(s.isDefault, s.ingresses[key]));
      CleanupKeeps(c, mid, s', key);
    }
  }

  // A run for an Ingress that is gone, or going, leaves its Service and Endpoints, and its config unless that is the shared
  // one by name: removing them is left to the owner references.
  lemma GoneKeepsObjects(c: Settings, s: Store, key: NamespacedName, f: Faults, outcome: Outcome, s': Store)
    requires Runs(c, s, key, f, outcome, s') && (key !in s.ingresses || s.ingresses[key].deleting)
    ensures s'.services == s.services && s'.endpoints == s.endpoints && (Apart(c, key) ==> OwnObjectsKept(s, s', key))
  {
  }

  // ---------- which Ingresses, by their fields ----------

  // An annotated class counts before the one in the spec.
  ghost predicate OfClass(ing: Ingress, class_: string) {
    ing.annotationClass == Some(class_) || (ing.annotationClass.None? && ing.specClass == Some(class_))
  }

  ghost predicate Ours(isDefault: bool, ing: Ingress) {
    OfClass(ing, "dolphin") || (isDefault && OfClass(ing, ""))
  }

  // It asks for a load balancer of its own, or says nothing that is known where that is the default.
  ghost predicate Alone(c: Settings, ing: Ingress) {
    ing.mode == "dedicated" || (ing.mode != "shared" && c.defaultMode == "dedicated")
  }

  lemma SharedListIff(c: Settings, ingresses: map<NamespacedName, Ingress>, isDefault: bool, list: seq<Ingress>, ing: Ingress)
    requires SharedList(c, ingresses, isDefault, list)
    ensures ing in list <==> (ing.key, ing) in ingresses.Items && Ours(isDefault, ing) && !Alone(c, ing) && !ing.deleting
  {
    assert "dedicated"[0] != "shared"[0];
  }

  // After a completed run an Ingress has a Service, Endpoints and a config of its own exactly if it is of this class and
  // stands alone.
  lemma OwnObjectsIff(c: Settings, s: Store, key: NamespacedName, f: Faults, s': Store)
    requires WellKeyed(s) && Runs(c, s, key, f, Done, s') && Apart(c, key) && key in s.ingresses && !s.ingresses[key].deleting
    ensures var own := Ours(s.isDefault, s.ingresses[key]) && Alone(c, s.ingresses[key]);
      var name := NamespacedName(key.namespace, "dolphin-ingress-" + key.name);
      && (name in s'.services <==> own) && (name in s'.endpoints <==> own)
      && (NamespacedName(key.namespace, "dolphin-ingress-" + key.namespace + "-" + key.name) in s'.configs <==> own)
      && NamespacedName(c.dolphinNamespace, c.sharedLBServiceName) in s'.configs
  {
    assert "dedicated"[0] != "shared"[0];
    assert PREFIX + "-" == "dolphin-ingress-";
    RunReconciles(c, s, key, f, Done, s');
  }

  // ---------- histories ----------

  lemma DedicatedNamesApart(a: NamespacedName, b: NamespacedName)
    requires a != b
    ensures DedicatedObject(a) != DedicatedObject(b) && DedicatedConfig(a) != DedicatedConfig(b)
  {
    if a.namespace == b.namespace {
      var p, q := PREFIX + "-", PREFIX + "-" + a.namespace + "-";
      assert (p + a.name)[|p|..] == a.name && (p + b.name)[|p|..] == b.name;
      assert (q + a.name)[|q|..] == a.name && (q + b.name)[|q|..] == b.name;
    }
  }

  // Either the cluster changes, leaving some Ingresses and their own objects alone, or the reconciler runs.
  datatype Event = Change(kept: set<NamespacedName>) | Run(key: NamespacedName, faults: Faults, outcome: Outcome)

  ghost predicate Step(c: Settings, s: Store, e: Event, s': Store) {
    match e
    case Run(key, faults, outcome) => Runs(c, s, key, faults, outcome, s')
    case Change(kept) =>
      && (kept != {} ==> s'.isDefault == s.isDefault)
      && (forall key | key in kept :: OwnObjectsKept(s, s', key))
      && (forall key | key in kept :: (key in s'.ingresses <==> key in s.ingresses))
      && (forall key | key in kept && key in s.ingresses :: s'.ingresses[key] == s.ingresses[key])
  }

  ghost predicate History(c: Settings, states: seq<Store>, events: seq<Event>) {
    && |states| == |events| + 1 && (forall i | 0 <= i < |states| :: WellKeyed(states[i]))
    && (forall i | 0 <= i < |events| :: Step(c, states[i], events[i], states[i + 1]))
  }

  lemma StepKeepsSettled(c: Settings, s: Store, e: Event, s': Store, key: NamespacedName)
    requires WellKeyed(s) && Step(c, s, e, s') && Apart(c, key) && Settled(c, s, key) && (e.Change? ==> key in e.kept)
    ensures Settled(c, s', key)
  {
    if e.Run? {
      RunReconciles(c, s, e.key, e.faults, e.outcome, s');
      if e.key != key {
        DedicatedNamesApart(key, e.key);
        assert OwnObjectsKept(s, s', key);
      }
    }
  }

  // Once a run of an Ingress has succeeded, it stays settled for as long as it is left alone,
  // whatever runs of this or other Ingresses follow and however they end.
  lemma {:induction false} SettledStays(c: Settings, states: seq<Store>, events: seq<Event>, m: nat, n: nat, key: NamespacedName)
    requires History(c, states, events) && m < n <= |events|
    requires Apart(c, key) && events[m].Run? && events[m].key == key && events[m].outcome.Done?
    requires forall i | m < i < n && events[i].Change? :: key in events[i].kept
    ensures Settled(c, states[n], key)
    decreases n
  {
    if n == m + 1 {
      assert Step(c, states[m], events[m], states[n]);
      RunReconciles(c, states[m], key, events[m].faults, Done, states[n]);
    } else {
      SettledStays(c, states, events, m, n - 1, key);
      assert Step(c, states[n - 1], events[n - 1], states[n]);
      StepKeepsSettled(c, states[n - 1], events[n - 1], states[n], key);
    }
  }

  // And the shared config stays the translation of the shared Ingresses until one of them changes.
  lemma {:induction false} SharedStaysFresh(c: Settings, states: seq<Store>, events: seq<Event>, m: nat, n: nat)
    requires History(c, states, events) && m < n <= |events|
    requires events[m].Run? && events[m].outcome.Done?
    requires forall i | m <= i < n :: events[i].Run? && Apart(c, events[i].key)
    ensures SharedFresh(c, states[n])
    decreases n
  {
    var e := events[n - 1];
    assert Step(c, states[n - 1], e, states[n]);
    RunReconciles(c, states[n - 1], e.key, e.faults, e.outcome, states[n]);
    if n > m + 1 {
      SharedStaysFresh(c, states, events, m, n - 1);
    }
  }

  // ---------- convergence ----------

  ghost predicate Servable(c: Settings, s: Store) {
    Classed(s) && forall key | WantsDedicated(c, s, key) :: c.dedicated(s.ingresses[key]).Some?
  }

  predicate Deleting(s: Store, key: NamespacedName) {
    key in s.ingresses && s.ingresses[key].deleting
  }

  // Nothing but runs, none of which meets a fault or a name that collides with the shared config's.
  ghost predicate Undisturbed(c: Settings, states: seq<Store>, events: seq<Event>) {
    History(c, states, events) && forall i | 0 <= i < |events| :: events[i].Run? && events[i].faults == NO_FAULTS && Apart(c, events[i].key)
  }

  lemma {:induction false} RunsKeepIngresses(c: Settings, states: seq<Store>, events: seq<Event>, n: nat)
    requires Undisturbed(c, states, events) && n <= |events|
    ensures states[n].ingresses == states[0].ingresses && states[n].isDefault == states[0].isDefault
  {
    if n > 0 {
      var e := events[n - 1];
      RunsKeepIngresses(c, states, events, n - 1);
      assert Step(c, states[n - 1], e, states[n]);
      RunReconciles(c, states[n - 1], e.key, e.faults, e.outcome, states[n]);
    }
  }

  lemma UndisturbedRunCompletes(c: Settings, states: seq<Store>, events: seq<Event>, i: nat)
    requires Undisturbed(c, states, events) && i < |events| && Servable(c, states[0]) && !Deleting(states[0], events[i].key)
    ensures events[i].outcome.Done?
  {
    RunsKeepIngresses(c, states, events, i);
    assert Step(c, states[i], events[i], states[i + 1]);
    CompletesIff(c, states[i], events[i].key, events[i].outcome, states[i + 1]);
  }

  // From any cluster whose Ingresses all name a class and translate, undisturbed runs that reach every Ingress, in any
  // order and any number of times, end with all of them settled and the shared config fresh.
  lemma Converges(c: Settings, states: seq<Store>, events: seq<Event>, any: nat)
    requires Undisturbed(c, states, events) && Servable(c, states[0])
    requires forall key | key in states[0].ingresses :: exists i | 0 <= i < |events| :: events[i].key == key
    requires any < |events| && !Deleting(states[0], events[any].key)
    ensures states[|events|].ingresses == states[0].ingresses && SharedFresh(c, states[|events|])
    ensures forall key | key in states[0].ingresses :: Settled(c, states[|events|], key)
  {
    var n := |events|;
    RunsKeepIngresses(c, states, events, n);
    UndisturbedRunCompletes(c, states, events, any);
    SharedStaysFresh(c, states, events, any, n);
    forall key | key in states[0].ingresses && !Deleting(states[0], key) ensures Settled(c, states[n], key) {
      var i :| 0 <= i < |events| && events[i].key == key;
      UndisturbedRunCompletes(c, states, events, i);
      SettledStays(c, states, events, i, n, key);
    }
  }

  // A settled, managed Ingress is served one way: on its own, or in the shared list.
  lemma ServedOnce(c: Settings, s: Store, key: NamespacedName, list: seq<Ingress>)
    requires WellKeyed(s) && Settled(c, s, key) && SharedList(c, s.ingresses, s.isDefault, list)
    requires key in s.ingresses && !s.ingresses[key].deleting && Managed(s.isDefault, s.ingresses[key])
    ensures s.ingresses[key] in list <==> NoDedicatedObjects(s, key)
    ensures s.ingresses[key] !in list <==> AllDedicatedObjects(c, s, key, s.ingresses[key])
  {
  }

  // ---------- the failures, on concrete clusters ----------

  const NAME_A := NamespacedName("ns", "a")
  const NAME_B := NamespacedName("ns", "b")

  function Bare(key: NamespacedName, class_: Option<string>, spec: IngressIngestion.IngressObject): Ingress {
    Ingress(key, None, class_, "shared", false, false, None, spec)
  }

  // A healthy Ingress beside one without a class: its run panics, faults or not.
  lemma ClasslessExample(c: Settings, spec: IngressIngestion.IngressObject, outcome: Outcome, s': Store)
    requires var s := Store(map[NAME_A := Bare(NAME_A, Some(CLASS), spec), NAME_B := Bare(NAME_B, None, spec)], false, map[], {}, {});
      Runs(c, s, NAME_A, NO_FAULTS, outcome, s')
    ensures outcome.Panicked? && s'.configs == map[]
  {
    var s := Store(map[NAME_A := Bare(NAME_A, Some(CLASS), spec), NAME_B := Bare(NAME_B, None, spec)], false, map[], {}, {});
    assert NAME_A != NAME_B && NAME_B in s.ingresses && ClassOf(s.ingresses[NAME_B]).None?;
    assert !Classed(s);
  }

  // A shared load balancer named like the dedicated config of a shared Ingress: the run completes without a shared config.
  lemma CollisionExample(c: Settings, spec: IngressIngestion.IngressObject, outcome: Outcome, s': Store)
    requires c.dolphinNamespace == "ns" && c.sharedLBServiceName == "dolphin-ingress-ns-a"
    requires Runs(c, Store(map[NAME_A := Bare(NAME_A, Some(CLASS), spec)], false, map[], {}, {}), NAME_A, NO_FAULTS, outcome, s')
    ensures outcome.Done? && SharedConfig(c) !in s'.configs
  {
    var s := Store(map[NAME_A := Bare(NAME_A, Some(CLASS), spec)], false, map[], {}, {});
    assert "dolphin-ingress" + "-" + "ns" + "-" + "a" == "dolphin-ingress-ns-a";
    assert DedicatedConfig(NAME_A) == SharedConfig(c);
    assert Classed(s) && !WantsDedicated(c, s, NAME_A);
  }

  // The same name, and the Ingress is dedicated: the run completes, and the shared config has taken the place of its own.
  lemma OverwrittenExample(c: Settings, spec: IngressIngestion.IngressObject, outcome: Outcome, s': Store)
    requires c.dolphinNamespace == "ns" && c.sharedLBServiceName == "dolphin-ingress-ns-a"
    requires var ing := Bare(NAME_A, Some(CLASS), spec).(mode := "dedicated");
      && c.dedicated(ing).Some? && c.dedicated(ing).value != c.shared([])
      && Runs(c, Store(map[NAME_A := ing], false, map[], {}, {}), NAME_A, NO_FAULTS, outcome, s')
    ensures outcome.Done? && !Settled(c, s', NAME_A)
    ensures DedicatedConfig(NAME_A) in s'.configs && s'.configs[DedicatedConfig(NAME_A)] == c.shared([])
  {
    var ing := Bare(NAME_A, Some(CLASS), spec).(mode := "dedicated");
    var s := Store(map[NAME_A := ing], false, map[], {}, {});
    assert "dolphin-ingress" + "-" + "ns" + "-" + "a" == "dolphin-ingress-ns-a";
    assert DedicatedConfig(NAME_A) == SharedConfig(c);
    assert WantsDedicated(c, s, NAME_A) && Classed(s) && WellKeyed(s);
    CompletesIff(c, s, NAME_A, outcome, s');
    assert SharedList(c, s.ingresses, s.isDefault, []);
    SettledIff(c, s, NAME_A, NO_FAULTS, s', []);
    SharedFreshIff(c, s, NAME_A, NO_FAULTS, s');
    FreshConfig(c, s', []);
  }
}
