/** The HTTPRoute status pass: prune, check every parent, run the validators; a second pass changes nothing. */
module RouteStatus {
  import opened Wrappers
  import opened Sorting
  import opened GatewayObjects
  import opened Upserts
  import opened RouteValidators

  datatype ParentStatus = ParentStatus(ref: ParentReference, controller: string, conditions: seq<Condition>)

  // All of a condition but its last transition time.
  function Timeless(c: Condition): Condition {
    c.(transition := 0)
  }

  function TimelessParent(p: ParentStatus): ParentStatus {
    p.(conditions := Map(Timeless, p.conditions))
  }

  function TimelessStatus(parents: seq<ParentStatus>): seq<ParentStatus> {
    Map(TimelessParent, parents)
  }

  // ---------- what the pass reads ----------

  // Gateways with their class, classes with their controller, ListenerSets with their parent Gateway.
  datatype World = World(
    gateways: map<NamespacedName, string>, classes: map<string, string>, listenerSets: map<NamespacedName, NamespacedName>)

  // The route: its namespace, generation, parents and rules, and the compiler of regular expressions.
  datatype RouteSpec = RouteSpec(
    namespace: string, generation: int, parentRefs: seq<ParentReference>, rules: seq<RouteRule>, compile: Compiler)
  {
    function HeaderModifier(): Option<Condition> { HeaderFailure(rules) }
    function Regexps(): Option<Condition> { RegexFailure(rules, compile) }
  }

  datatype Input = Input(world: World, spec: RouteSpec, controller: string)

  predicate Controlled(world: World, controller: string, gateway: NamespacedName) {
    gateway in world.gateways && world.gateways[gateway] in world.classes && world.classes[world.gateways[gateway]] == controller
  }

  // The parent is a Gateway of this controller, or a ListenerSet attached to one.
  predicate Owned(i: Input, ref: ParentReference) {
    var name := NamespacedName(NamespaceOr(ref.namespace, i.spec.namespace), ref.name);
    if IsGateway(ref) then Controlled(i.world, i.controller, name)
    else if IsListenerSet(ref) then name in i.world.listenerSets && Controlled(i.world, i.controller, i.world.listenerSets[name])
    else false
  }

  const ACCEPTED := Condition("Accepted", "True", "Accepted", "Accepted HTTPRoute", 0, 0)
  const RESOLVED_REFS := Condition("ResolvedRefs", "True", "ResolvedRefs", "Service reference is valid", 0, 0)

  // ---------- the pass, leaving times aside ----------

  function KindOf(c: Condition): string { c.kind }
  function BlankCondition(kind: string): Condition { Condition(kind, "", "", "", 0, 0) }

  function ConditionView(): Keyed<string, Condition> {
    Keyed(KindOf, BlankCondition)
  }

  function SetTo(c: Condition): Op<string, Condition> {
    Op(c.kind, _ => c)
  }

  function RefOf(p: ParentStatus): ParentReference { p.ref }

  function BlankParent(controller: string): ParentReference -> ParentStatus {
    ref => ParentStatus(ref, controller, [])
  }

  function ParentView(controller: string): Keyed<ParentReference, ParentStatus> {
    Keyed(RefOf, BlankParent(controller))
  }

  // One call of SetParentCondition.
  datatype Setting = Setting(ref: ParentReference, condition: Condition)

  function WithCondition(c: Condition): ParentStatus -> ParentStatus {
    (p: ParentStatus) => p.(conditions := Upsert(p.conditions, ConditionView(), SetTo(c)))
  }

  function SettingOp(s: Setting): Op<ParentReference, ParentStatus> {
    Op(s.ref, WithCondition(s.condition))
  }

  function Set(parents: seq<ParentStatus>, controller: string, settings: seq<Setting>): seq<ParentStatus> {
    Apply(parents, ParentView(controller), Map(SettingOp, settings))
  }

  function At(c: Condition, generation: int): Condition {
    Timeless(c).(generation := generation)
  }

  function ChecksOf(i: Input): ParentReference -> seq<Setting> {
    ref => if Owned(i, ref) then [Setting(ref, At(ACCEPTED, i.spec.generation)), Setting(ref, At(RESOLVED_REFS, i.spec.generation))] else []
  }

  // runCommonRouteChecks
  function Checks(i: Input): seq<Setting> {
    FlatMap(ChecksOf(i), i.spec.parentRefs)
  }

  // A failed validator sets its condition on every parent listed.
  function Spread(refs: seq<ParentReference>, failure: Option<Condition>, generation: int): seq<Setting> {
    if failure.None? then [] else Map(SetOn(At(failure.value, generation)), refs)
  }

  function SetOn(c: Condition): ParentReference -> Setting {
    ref => Setting(ref, c)
  }

  function Refs(parents: seq<ParentStatus>): seq<ParentReference> {
    Map(RefOf, parents)
  }

  // A status of another controller is kept; one of this controller only if its parent is still referenced.
  predicate StaysListed(i: Input, p: ParentStatus) {
    p.controller != i.controller || p.ref in i.spec.parentRefs
  }

  function Staying(i: Input): ParentStatus -> bool {
    (p: ParentStatus) => StaysListed(i, p)
  }

  function Checked(i: Input, parents: seq<ParentStatus>): seq<ParentStatus> {
    Set(Filter(parents, Staying(i)), i.controller, Checks(i))
  }

  function Validated(i: Input, parents: seq<ParentStatus>, failure: Option<Condition>): seq<ParentStatus> {
    Set(parents, i.controller, Spread(Refs(parents), failure, i.spec.generation))
  }

  function Pass(i: Input, parents: seq<ParentStatus>): seq<ParentStatus> {
    Validated(i, Validated(i, Checked(i, parents), i.spec.HeaderModifier()), i.spec.Regexps())
  }

  // ---------- laws ----------

  lemma ConditionsLawful(settings: seq<Condition>)
    ensures AllLawful(ConditionView(), Map(SetTo, settings))
  {
  }

  lemma SettingsLawful(controller: string, settings: seq<Setting>)
    ensures AllLawful(ParentView(controller), Map(SettingOp, settings))
  {
    forall op | op in Map(SettingOp, settings) ensures Lawful(ParentView(controller), op) {
      var j :| 0 <= j < |settings| && op == SettingOp(settings[j]);
    }
  }

  // The last of the conditions with the kind decides, whatever was there before.
  lemma {:induction false} LastConditionDecides(conditions: seq<Condition>, kind: string, x: Condition, y: Condition)
    ensures var ops := Map(SetTo, conditions);
      || Through(ops, kind, x) == Through(ops, kind, y)
      || (Through(ops, kind, x) == x && Through(ops, kind, y) == y)
  {
    if conditions != [] {
      var front := conditions[..|conditions| - 1];
      assert Map(SetTo, conditions)[..|conditions| - 1] == Map(SetTo, front);
      LastConditionDecides(front, kind, x, y);
    }
  }

  lemma ConditionsTwice(conditions: seq<Condition>, existing: seq<Condition>)
    ensures var ops := Map(SetTo, conditions);
      Apply(Apply(existing, ConditionView(), ops), ConditionView(), ops) == Apply(existing, ConditionView(), ops)
  {
    var ops := Map(SetTo, conditions);
    ConditionsLawful(conditions);
    forall k ensures Through(ops, k, Through(ops, k, Get(existing, ConditionView(), k))) == Through(ops, k, Get(existing, ConditionView(), k)) {
      var x := Get(existing, ConditionView(), k);
      LastConditionDecides(conditions, k, Through(ops, k, x), x);
    }
    ApplyTwice(existing, ConditionView(), ops);
  }

  function ConditionsFor(settings: seq<Setting>, ref: ParentReference): seq<Condition> {
    if settings == [] then []
    else
      var front := ConditionsFor(settings[..|settings| - 1], ref);
      if settings[|settings| - 1].ref == ref then front + [settings[|settings| - 1].condition] else front
  }

  // What settings do to one parent is what their conditions do to its list.
  lemma {:induction false} ThroughIsConditions(settings: seq<Setting>, ref: ParentReference, p: ParentStatus)
    ensures Through(Map(SettingOp, settings), ref, p)
         == p.(conditions := Apply(p.conditions, ConditionView(), Map(SetTo, ConditionsFor(settings, ref))))
  {
    if settings != [] {
      var front, last := settings[..|settings| - 1], settings[|settings| - 1];
      assert settings == front + [last];
      MapSnoc(SettingOp, front, last);
      ThroughIsConditions(front, ref, p);
      ThroughSnoc(Map(SettingOp, front), SettingOp(last), ref, p);
      if last.ref == ref {
        var conditions := ConditionsFor(front, ref);
        MapSnoc(SetTo, conditions, last.condition);
        ApplySnoc(p.conditions, ConditionView(), Map(SetTo, conditions), SetTo(last.condition));
      }
    }
  }

  // Setting the same conditions twice is setting them once.
  lemma SetTwice(parents: seq<ParentStatus>, controller: string, settings: seq<Setting>)
    ensures Set(Set(parents, controller, settings), controller, settings) == Set(parents, controller, settings)
  {
    var ops, view := Map(SettingOp, settings), ParentView(controller);
    SettingsLawful(controller, settings);
    forall ref ensures Through(ops, ref, Through(ops, ref, Get(parents, view, ref))) == Through(ops, ref, Get(parents, view, ref)) {
      var p := Get(parents, view, ref);
      ThroughIsConditions(settings, ref, p);
      ThroughIsConditions(settings, ref, Through(ops, ref, p));
      ConditionsTwice(ConditionsFor(settings, ref), p.conditions);
    }
    ApplyTwice(parents, view, ops);
  }

  lemma SetConcat(parents: seq<ParentStatus>, controller: string, a: seq<Setting>, b: seq<Setting>)
    ensures Set(parents, controller, a + b) == Set(Set(parents, controller, a), controller, b)
  {
    MapConcat(SettingOp, a, b);
    ApplyConcat(parents, ParentView(controller), Map(SettingOp, a), Map(SettingOp, b));
  }

  lemma SetSnoc(parents: seq<ParentStatus>, controller: string, settings: seq<Setting>, s: Setting)
    ensures Set(parents, controller, settings + [s]) == Upsert(Set(parents, controller, settings), ParentView(controller), SettingOp(s))
  {
    MapSnoc(SettingOp, settings, s);
    ApplySnoc(parents, ParentView(controller), Map(SettingOp, settings), SettingOp(s));
  }

  // Settings keep the listed parents in place and add parents of this controller for references they set.
  lemma {:induction false} SetShape(parents: seq<ParentStatus>, controller: string, settings: seq<Setting>)
    ensures var next := Set(parents, controller, settings);
      && |parents| <= |next|
      && (forall j | 0 <= j < |parents| :: next[j].ref == parents[j].ref && next[j].controller == parents[j].controller)
      && (forall j | |parents| <= j < |next| :: next[j].controller == controller && exists s :: s in settings && s.ref == next[j].ref)
      && (forall j | |parents| <= j < |next| :: next[j].ref !in Refs(parents))
  {
    if settings != [] {
      var front, last := settings[..|settings| - 1], settings[|settings| - 1];
      assert settings == front + [last] && last in settings;
      SetShape(parents, controller, front);
      SetSnoc(parents, controller, front, last);
      var mid, next := Set(parents, controller, front), Set(parents, controller, settings);
      OneMore(mid, controller, last);
      assert forall j | 0 <= j < |parents| :: Refs(parents)[j] == Refs(mid)[j];
      forall j | |parents| <= j < |next| ensures next[j].controller == controller && exists s :: s in settings && s.ref == next[j].ref {
        if j < |mid| {
          var s :| s in front && s.ref == mid[j].ref;
          assert s in settings && s.ref == next[j].ref;
        } else {
          assert last in settings && last.ref == next[j].ref;
        }
      }
    }
  }

  // One setting keeps the listed parents and adds at most the one it sets.
  lemma OneMore(parents: seq<ParentStatus>, controller: string, s: Setting)
    ensures var next := Upsert(parents, ParentView(controller), SettingOp(s));
      && |parents| <= |next|
      && (forall j | 0 <= j < |parents| :: next[j].ref == parents[j].ref && next[j].controller == parents[j].controller)
      && (forall j | |parents| <= j < |next| :: next[j].controller == controller && next[j].ref == s.ref && s.ref !in Refs(parents))
  {
    var view, op := ParentView(controller), SettingOp(s);
    var k := Find(parents, view, s.ref);
    if k == |parents| {
      forall r | r in Refs(parents) ensures r != s.ref {
        var j :| 0 <= j < |parents| && Refs(parents)[j] == r;
        assert view.key(parents[j]) != s.ref;
      }
      var blank := BlankParent(controller)(s.ref);
      assert Upsert(parents, view, op) == parents + [WithCondition(s.condition)(blank)];
      assert blank.ref == s.ref && blank.controller == controller;
    } else {
      assert Upsert(parents, view, op) == parents[k := WithCondition(s.condition)(parents[k])];
    }
  }

  lemma SetKeepsRefs(parents: seq<ParentStatus>, controller: string, settings: seq<Setting>)
    requires forall s | s in settings :: s.ref in Refs(parents)
    ensures Refs(Set(parents, controller, settings)) == Refs(parents)
    ensures |Set(parents, controller, settings)| == |parents|
  {
    SettingsLawful(controller, settings);
    forall op | op in Map(SettingOp, settings) ensures Find(parents, ParentView(controller), op.key) < |parents| {
      var j :| 0 <= j < |settings| && op == SettingOp(settings[j]);
      assert settings[j] in settings;
      var k :| 0 <= k < |parents| && Refs(parents)[k] == op.key;
      assert ParentView(controller).key(parents[k]) == op.key;
    }
    ApplyKeepsLength(parents, ParentView(controller), Map(SettingOp, settings));
    SetShape(parents, controller, settings);
  }

  lemma SpreadRefs(refs: seq<ParentReference>, failure: Option<Condition>, generation: int)
    ensures forall s | s in Spread(refs, failure, generation) :: s.ref in refs
  {
  }

  lemma CheckRefs(i: Input)
    ensures forall s | s in Checks(i) :: s.ref in i.spec.parentRefs
  {
    forall s | s in Checks(i) ensures s.ref in i.spec.parentRefs {
      FlatMapMember(ChecksOf(i), i.spec.parentRefs, s);
    }
  }

  // All settings of a pass that ends up with the given parents.
  function AllSettings(i: Input, refs: seq<ParentReference>): seq<Setting> {
    Checks(i) + Spread(refs, i.spec.HeaderModifier(), i.spec.generation) + Spread(refs, i.spec.Regexps(), i.spec.generation)
  }

  lemma ValidatedShape(i: Input, parents: seq<ParentStatus>, failure: Option<Condition>)
    ensures Refs(Validated(i, parents, failure)) == Refs(parents) && |Validated(i, parents, failure)| == |parents|
    ensures forall j | 0 <= j < |parents| :: Validated(i, parents, failure)[j].controller == parents[j].controller
  {
    SpreadRefs(Refs(parents), failure, i.spec.generation);
    SetKeepsRefs(parents, i.controller, Spread(Refs(parents), failure, i.spec.generation));
    SetShape(parents, i.controller, Spread(Refs(parents), failure, i.spec.generation));
  }

  lemma PassIsSettings(i: Input, parents: seq<ParentStatus>)
    ensures var refs := Refs(Checked(i, parents));
      Pass(i, parents) == Set(Filter(parents, Staying(i)), i.controller, AllSettings(i, refs)) && Refs(Pass(i, parents)) == refs
  {
    var start, a := Filter(parents, Staying(i)), Checked(i, parents);
    var refs := Refs(a);
    var first, second := Spread(refs, i.spec.HeaderModifier(), i.spec.generation), Spread(refs, i.spec.Regexps(), i.spec.generation);
    ValidatedShape(i, a, i.spec.HeaderModifier());
    ValidatedShape(i, Validated(i, a, i.spec.HeaderModifier()), i.spec.Regexps());
    SetConcat(start, i.controller, Checks(i), first);
    SetConcat(start, i.controller, Checks(i) + first, second);
  }

  // Every parent status after the checks is one that pruning keeps.
  lemma CheckedStays(i: Input, parents: seq<ParentStatus>)
    ensures forall p | p in Checked(i, parents) :: StaysListed(i, p)
  {
    var start := Filter(parents, Staying(i));
    FilterMember(parents, Staying(i));
    CheckRefs(i);
    SetShape(start, i.controller, Checks(i));
    forall p | p in Checked(i, parents) ensures StaysListed(i, p) {
      var j :| 0 <= j < |Checked(i, parents)| && Checked(i, parents)[j] == p;
      if j < |start| {
        assert start[j] in start && Staying(i)(start[j]);
      }
    }
  }

  lemma PassStays(i: Input, parents: seq<ParentStatus>)
    ensures Filter(Pass(i, parents), Staying(i)) == Pass(i, parents)
  {
    var a := Checked(i, parents);
    var b := Validated(i, a, i.spec.HeaderModifier());
    var c := Validated(i, b, i.spec.Regexps());
    CheckedStays(i, parents);
    ValidatedShape(i, a, i.spec.HeaderModifier());
    ValidatedShape(i, b, i.spec.Regexps());
    forall p | p in c ensures Staying(i)(p) {
      var j :| 0 <= j < |c| && c[j] == p;
      assert Refs(c)[j] == Refs(b)[j] == Refs(a)[j];
      assert a[j] in a;
    }
    FilterAll(c, Staying(i));
  }

  lemma ChecksListed(i: Input, parents: seq<ParentStatus>)
    ensures forall s | s in Checks(i) :: s.ref in Refs(Checked(i, parents))
  {
    var start := Filter(parents, Staying(i));
    SettingsLawful(i.controller, Checks(i));
    ApplyEffect(start, ParentView(i.controller), Map(SettingOp, Checks(i)));
    var a := Checked(i, parents);
    forall s | s in Checks(i) ensures s.ref in Refs(a) {
      var k :| 0 <= k < |Checks(i)| && Checks(i)[k] == s;
      assert Map(SettingOp, Checks(i))[k] == SettingOp(s);
      assert SettingOp(s) in Map(SettingOp, Checks(i));
      var j := Find(a, ParentView(i.controller), s.ref);
      assert Refs(a)[j] == s.ref;
    }
  }

  // With spec and world unchanged, the pass leaves its own result as it is.
  lemma PassReachesFixedPoint(i: Input, parents: seq<ParentStatus>)
    ensures Pass(i, Pass(i, parents)) == Pass(i, parents)
  {
    var done := Pass(i, parents);
    var refs := Refs(Checked(i, parents));
    PassIsSettings(i, parents);
    PassIsSettings(i, done);
    PassStays(i, parents);
    ChecksListed(i, parents);
    SetKeepsRefs(done, i.controller, Checks(i));
    assert Refs(Checked(i, done)) == refs;
    SetTwice(Filter(parents, Staying(i)), i.controller, AllSettings(i, refs));
  }

  // ---------- whose statuses the pass touches ----------

  // The conditions a pass sets for one reference, in order.
  function ConditionsSet(i: Input, parents: seq<ParentStatus>, ref: ParentReference): seq<Condition> {
    ConditionsFor(AllSettings(i, Refs(Checked(i, parents))), ref)
  }

  // The pass in full, entry by entry: the first entry for a reference takes the conditions set for it,
  // whichever controller wrote it, and the entries behind it stay as they are.
  lemma PassAt(i: Input, parents: seq<ParentStatus>, j: nat)
    requires j < |Filter(parents, Staying(i))|
    ensures var start := Filter(parents, Staying(i));
      && |start| <= |Pass(i, parents)|
      && Pass(i, parents)[j]
         == if Find(start, ParentView(i.controller), start[j].ref) != j then start[j]
            else start[j].(conditions := Apply(start[j].conditions, ConditionView(), Map(SetTo, ConditionsSet(i, parents, start[j].ref))))
  {
    var start, settings := Filter(parents, Staying(i)), AllSettings(i, Refs(Checked(i, parents)));
    var view, ref := ParentView(i.controller), start[j].ref;
    PassIsSettings(i, parents);
    SettingsLawful(i.controller, settings);
    ApplyEffect(start, view, Map(SettingOp, settings));
    ThroughIsConditions(settings, ref, start[j]);
    if Find(start, view, ref) == j {
      assert Get(start, view, ref) == start[j];
      assert Get(Pass(i, parents), view, ref) == Pass(i, parents)[j];
    }
  }

  // The condition of the validator that failed last.
  function LastFailure(i: Input): Option<Condition> {
    if i.spec.Regexps().Some? then i.spec.Regexps() else i.spec.HeaderModifier()
  }

  lemma {:induction false} LastSpread(a: seq<Setting>, refs: seq<ParentReference>, failure: Condition, generation: int, ref: ParentReference)
    requires ref in refs
    ensures var cs := ConditionsFor(a + Spread(refs, Some(failure), generation), ref);
      cs != [] && cs[|cs| - 1] == At(failure, generation)
  {
    var front, last := refs[..|refs| - 1], refs[|refs| - 1];
    var c := At(failure, generation);
    assert refs == front + [last];
    MapSnoc(SetOn(c), front, last);
    ConditionsForSnoc(a, Map(SetOn(c), front), Setting(last, c), ref);
    if last != ref {
      LastSpread(a, front, failure, generation, ref);
    }
  }

  lemma ConditionsForSnoc(a: seq<Setting>, b: seq<Setting>, s: Setting, ref: ParentReference)
    ensures ConditionsFor(a + (b + [s]), ref) == ConditionsFor(a + b, ref) + if s.ref == ref then [s.condition] else []
  {
    assert a + (b + [s]) == (a + b) + [s];
    assert ((a + b) + [s])[..|a + b|] == a + b;
  }

  lemma LastConditionStays(existing: seq<Condition>, conditions: seq<Condition>)
    requires conditions != []
    ensures conditions[|conditions| - 1] in Apply(existing, ConditionView(), Map(SetTo, conditions))
  {
    var front, c := conditions[..|conditions| - 1], conditions[|conditions| - 1];
    assert conditions == front + [c];
    MapSnoc(SetTo, front, c);
    ApplySnoc(existing, ConditionView(), Map(SetTo, front), SetTo(c));
    SetIsThere(Apply(existing, ConditionView(), Map(SetTo, front)), c);
  }

  lemma SetIsThere(before: seq<Condition>, c: Condition)
    ensures c in Upsert(before, ConditionView(), SetTo(c))
  {
    assert Upsert(before, ConditionView(), SetTo(c))[Find(before, ConditionView(), c.kind)] == c;
  }

  lemma FailureSet(i: Input, refs: seq<ParentReference>, ref: ParentReference)
    requires LastFailure(i).Some? && ref in refs
    ensures var cs := ConditionsFor(AllSettings(i, refs), ref);
      cs != [] && cs[|cs| - 1] == At(LastFailure(i).value, i.spec.generation)
  {
    var first := Spread(refs, i.spec.HeaderModifier(), i.spec.generation);
    if i.spec.Regexps().Some? {
      LastSpread(Checks(i) + first, refs, i.spec.Regexps().value, i.spec.generation, ref);
    } else {
      assert AllSettings(i, refs) == Checks(i) + first;
      LastSpread(Checks(i), refs, i.spec.HeaderModifier().value, i.spec.generation, ref);
    }
  }

  // A failed validator's condition reaches the first entry of every reference, also those other controllers wrote
  // about their own Gateways.
  lemma FailureReachesAll(i: Input, parents: seq<ParentStatus>, j: nat)
    requires LastFailure(i).Some? && j < |Filter(parents, Staying(i))|
    requires var start := Filter(parents, Staying(i)); Find(start, ParentView(i.controller), start[j].ref) == j
    ensures j < |Pass(i, parents)| && At(LastFailure(i).value, i.spec.generation) in Pass(i, parents)[j].conditions
  {
    var start := Filter(parents, Staying(i));
    var refs := Refs(Checked(i, parents));
    SetShape(start, i.controller, Checks(i));
    assert refs[j] == start[j].ref;
    FailureSet(i, refs, start[j].ref);
    LastConditionStays(start[j].conditions, ConditionsSet(i, parents, start[j].ref));
    PassAt(i, parents, j);
  }

  // ---------- entries of other controllers ----------

  function Foreign(i: Input): ParentStatus -> bool {
    (p: ParentStatus) => p.controller != i.controller
  }

  // The pass leaves the entries of other controllers as they are.
  ghost predicate SparesForeign(i: Input, parents: seq<ParentStatus>) {
    Filter(Pass(i, parents), Foreign(i)) == Filter(parents, Foreign(i))
  }

  lemma {:induction false} FilterTwice<T>(s: seq<T>, keep: T -> bool, more: T -> bool)
    requires forall x | more(x) :: keep(x)
    ensures Filter(Filter(s, keep), more) == Filter(s, more)
  {
    if s != [] {
      var rest := Filter(s[1..], keep);
      FilterTwice(s[1..], keep, more);
      assert more(s[0]) ==> keep(s[0]);
      assert Filter(s, more) == if more(s[0]) then [s[0]] + Filter(s[1..], more) else Filter(s[1..], more);
      if keep(s[0]) {
        var kept := [s[0]] + rest;
        assert Filter(s, keep) == kept && kept[1..] == rest;
      } else {
        assert Filter(s, keep) == rest;
      }
    }
  }

  lemma QuietPass(i: Input, parents: seq<ParentStatus>)
    requires LastFailure(i).None? && forall ref | ref in i.spec.parentRefs :: !Owned(i, ref)
    ensures Pass(i, parents) == Filter(parents, Staying(i))
  {
    if Checks(i) != [] {
      var s := Checks(i)[0];
      assert s in Checks(i);
      FlatMapMember(ChecksOf(i), i.spec.parentRefs, s);
    }
  }

  lemma {:induction false} SomeConditions(settings: seq<Setting>, s: Setting)
    requires s in settings
    ensures ConditionsFor(settings, s.ref) != []
  {
    var front, last := settings[..|settings| - 1], settings[|settings| - 1];
    assert settings == front + [last];
    if last.ref != s.ref {
      SomeConditions(front, s);
    }
  }

  lemma OwnedIsSet(i: Input, refs: seq<ParentReference>, ref: ParentReference)
    requires ref in i.spec.parentRefs && Owned(i, ref)
    ensures ConditionsFor(AllSettings(i, refs), ref) != []
  {
    var s := Setting(ref, At(ACCEPTED, i.spec.generation));
    assert s in ChecksOf(i)(ref);
    FlatMapMember(ChecksOf(i), i.spec.parentRefs, s);
    SomeConditions(AllSettings(i, refs), s);
  }

  // An empty entry of another controller, for a parent that this pass sets a condition on, is written to.
  lemma StrangerWritten(i: Input, p: ParentStatus)
    requires p.controller != i.controller && p.conditions == []
    requires LastFailure(i).Some? || (p.ref in i.spec.parentRefs && Owned(i, p.ref))
    ensures !SparesForeign(i, [p])
  {
    FilterAll([p], Staying(i));
    FilterAll([p], Foreign(i));
    var refs := Refs(Checked(i, [p]));
    SetShape([p], i.controller, Checks(i));
    assert refs[0] == p.ref;
    if LastFailure(i).Some? {
      FailureSet(i, refs, p.ref);
    } else {
      OwnedIsSet(i, refs, p.ref);
    }
    LastConditionStays([], ConditionsSet(i, [p], p.ref));
    PassAt(i, [p], 0);
    FirstFiltered(Pass(i, [p]), Foreign(i));
  }

  lemma FirstFiltered<T>(s: seq<T>, keep: T -> bool)
    requires s != [] && keep(s[0])
    ensures Filter(s, keep) != [] && Filter(s, keep)[0] == s[0]
  {
  }

  // Whatever the prior status, the entries of other controllers survive if and only if no validator fails and no
  // referenced parent is this controller's.
  lemma ForeignSparedIff(i: Input)
    ensures (forall parents :: SparesForeign(i, parents))
       <==> LastFailure(i).None? && forall ref | ref in i.spec.parentRefs :: !Owned(i, ref)
  {
    if LastFailure(i).None? && forall ref | ref in i.spec.parentRefs :: !Owned(i, ref) {
      forall parents ensures SparesForeign(i, parents) {
        QuietPass(i, parents);
        FilterTwice(parents, Staying(i), Foreign(i));
      }
    } else {
      var ref := ParentReference(None, None, None, "", None, None);
      if LastFailure(i).None? {
        ref :| ref in i.spec.parentRefs && Owned(i, ref);
      }
      StrangerWritten(i, ParentStatus(ref, i.controller + "'", []));
    }
  }

  // ---------- entries of this controller ----------

  predicate Own(i: Input, ref: ParentReference, p: ParentStatus) {
    p.ref == ref && p.controller == i.controller
  }

  lemma PassShape(i: Input, parents: seq<ParentStatus>)
    ensures var start, next := Filter(parents, Staying(i)), Pass(i, parents);
      && |start| <= |next|
      && (forall j | 0 <= j < |start| :: next[j].ref == start[j].ref && next[j].controller == start[j].controller)
      && (forall j | |start| <= j < |next| :: next[j].controller == i.controller && next[j].ref !in Refs(start))
  {
    PassIsSettings(i, parents);
    SetShape(Filter(parents, Staying(i)), i.controller, AllSettings(i, Refs(Checked(i, parents))));
  }

  lemma OwnedListed(i: Input, parents: seq<ParentStatus>, ref: ParentReference)
    requires ref in i.spec.parentRefs && Owned(i, ref)
    ensures ref in Refs(Pass(i, parents))
  {
    var s := Setting(ref, At(ACCEPTED, i.spec.generation));
    assert s in ChecksOf(i)(ref);
    FlatMapMember(ChecksOf(i), i.spec.parentRefs, s);
    ChecksListed(i, parents);
    PassIsSettings(i, parents);
  }

  // After a pass, a referenced parent of this controller has an entry of this controller if and only if it had one
  // before or had no entry at all: the entry of another controller takes its place.
  lemma OwnEntryIff(i: Input, parents: seq<ParentStatus>, ref: ParentReference)
    requires ref in i.spec.parentRefs && Owned(i, ref)
    ensures (exists p :: p in Pass(i, parents) && Own(i, ref, p))
       <==> (exists p :: p in parents && Own(i, ref, p)) || (forall p | p in parents :: p.ref != ref)
  {
    if p :| p in parents && Own(i, ref, p) {
      OwnStays(i, parents, ref, p);
    } else if q :| q in parents && q.ref == ref {
      NoOwnAdded(i, parents, ref, q);
    } else {
      OwnAdded(i, parents, ref);
    }
  }

  lemma OwnStays(i: Input, parents: seq<ParentStatus>, ref: ParentReference, p: ParentStatus)
    requires ref in i.spec.parentRefs && p in parents && Own(i, ref, p)
    ensures exists q :: q in Pass(i, parents) && Own(i, ref, q)
  {
    var start := Filter(parents, Staying(i));
    FilterMember(parents, Staying(i));
    PassShape(i, parents);
    assert Staying(i)(p) && p in start;
    var k :| 0 <= k < |start| && start[k] == p;
    assert Pass(i, parents)[k] in Pass(i, parents) && Own(i, ref, Pass(i, parents)[k]);
  }

  lemma NoOwnAdded(i: Input, parents: seq<ParentStatus>, ref: ParentReference, q: ParentStatus)
    requires q in parents && q.ref == ref && ref in i.spec.parentRefs && forall p | p in parents :: !Own(i, ref, p)
    ensures forall p | p in Pass(i, parents) :: !Own(i, ref, p)
  {
    var start, next := Filter(parents, Staying(i)), Pass(i, parents);
    FilterMember(parents, Staying(i));
    PassShape(i, parents);
    assert Staying(i)(q) && q in start;
    var k :| 0 <= k < |start| && start[k] == q;
    assert Refs(start)[k] == ref;
    forall m | 0 <= m < |next| ensures !Own(i, ref, next[m]) {
      if m < |start| {
        assert start[m] in start && start[m] in parents;
      }
    }
  }

  lemma OwnAdded(i: Input, parents: seq<ParentStatus>, ref: ParentReference)
    requires ref in i.spec.parentRefs && Owned(i, ref) && forall p | p in parents :: p.ref != ref
    ensures exists q :: q in Pass(i, parents) && Own(i, ref, q)
  {
    var next := Pass(i, parents);
    OwnedListed(i, parents, ref);
    var j :| 0 <= j < |next| && Refs(next)[j] == ref;
    NewIsOwn(i, parents, ref, j);
    assert next[j] in next;
  }

  lemma NewIsOwn(i: Input, parents: seq<ParentStatus>, ref: ParentReference, j: nat)
    requires j < |Pass(i, parents)| && Pass(i, parents)[j].ref == ref && forall p | p in parents :: p.ref != ref
    ensures Own(i, ref, Pass(i, parents)[j])
  {
    var start := Filter(parents, Staying(i));
    FilterMember(parents, Staying(i));
    PassShape(i, parents);
    forall m | 0 <= m < |start| ensures start[m].ref != ref {
      assert start[m] in start;
    }
  }

  lemma {:induction false} FirstStays(i: Input, parents: seq<ParentStatus>, ref: ParentReference)
    requires ref in i.spec.parentRefs
    ensures var view := ParentView(i.controller);
      var start, k := Filter(parents, Staying(i)), Find(parents, view, ref);
      if k == |parents| then Find(start, view, ref) == |start|
      else Find(start, view, ref) < |start| && start[Find(start, view, ref)] == parents[k]
  {
    if parents != [] {
      var view, p := ParentView(i.controller), parents[0];
      var start, rest := Filter(parents, Staying(i)), Filter(parents[1..], Staying(i));
      FirstStays(i, parents[1..], ref);
      assert Staying(i)(p) ==> start == [p] + rest && start[1..] == rest;
      assert !Staying(i)(p) ==> start == rest && p.ref != ref;
      if p.ref != ref && Find(parents[1..], view, ref) < |parents| - 1 {
        var h := Find(rest, view, ref);
        assert Find(start, view, ref) == if Staying(i)(p) then h + 1 else h;
      }
    }
  }

  // The entry that takes the pass's conditions is this controller's if and only if no other controller's entry for the
  // parent comes first.
  lemma OwnEntryWrittenIff(i: Input, parents: seq<ParentStatus>, ref: ParentReference)
    requires ref in i.spec.parentRefs && Owned(i, ref)
    ensures var view := ParentView(i.controller);
      var j, k := Find(Pass(i, parents), view, ref), Find(parents, view, ref);
      j < |Pass(i, parents)|
      && (Pass(i, parents)[j].controller == i.controller <==> k == |parents| || parents[k].controller == i.controller)
  {
    var start, next := Filter(parents, Staying(i)), Pass(i, parents);
    PassShape(i, parents);
    FirstStays(i, parents, ref);
    OwnedListed(i, parents, ref);
    FindLonger(start, next, i.controller, ref);
  }

  // Entries added behind do not change which one is found first.
  lemma FindLonger(start: seq<ParentStatus>, next: seq<ParentStatus>, controller: string, ref: ParentReference)
    requires |start| <= |next| && forall j | 0 <= j < |start| :: next[j].ref == start[j].ref
    requires ref in Refs(next)
    ensures var view := ParentView(controller);
      && Find(next, view, ref) < |next|
      && if Find(start, view, ref) < |start| then Find(next, view, ref) == Find(start, view, ref) else Find(next, view, ref) >= |start|
  {
    var view := ParentView(controller);
    var m :| 0 <= m < |next| && Refs(next)[m] == ref;
    assert view.key(next[m]) == ref;
    var h := Find(start, view, ref);
    assert forall j | 0 <= j < |start| :: view.key(next[j]) == view.key(start[j]);
    if h < |start| {
      FindUnique(next, view, ref, h);
    }
  }

  // ---------- whose parents are written to ----------

  ghost predicate Names(i: Input, ref: ParentReference, name: NamespacedName) {
    name.name == ref.name && if ref.namespace.Some? then ref.namespace.value == name.namespace else name.namespace == i.spec.namespace
  }

  ghost predicate OfKind(ref: ParentReference, kind: string) {
    (ref.kind == Some(kind) || (ref.kind.None? && kind == "Gateway")) && (ref.group.None? || ref.group == Some("gateway.networking.k8s.io"))
  }

  // The Gateway that a reference leads to: itself, or the one that its ListenerSet is attached to.
  ghost predicate LeadsTo(i: Input, ref: ParentReference, gateway: NamespacedName) {
    || (OfKind(ref, "Gateway") && Names(i, ref, gateway))
    || (OfKind(ref, "ListenerSet") && exists set_ :: Names(i, ref, set_) && (set_, gateway) in i.world.listenerSets.Items)
  }

  // The Gateway has a class, and the class has this controller.
  ghost predicate Ours(i: Input, gateway: NamespacedName) {
    exists class_ :: (gateway, class_) in i.world.gateways.Items && (class_, i.controller) in i.world.classes.Items
  }

  ghost predicate LeadsToOurs(i: Input, ref: ParentReference) {
    exists gateway :: LeadsTo(i, ref, gateway) && Ours(i, gateway)
  }

  lemma OwnedIff(i: Input, ref: ParentReference)
    ensures Owned(i, ref) <==> LeadsToOurs(i, ref)
  {
    var name := NamespacedName(NamespaceOr(ref.namespace, i.spec.namespace), ref.name);
    assert Names(i, ref, name) && forall other | Names(i, ref, other) :: other == name;
    assert "Gateway"[0] != "ListenerSet"[0];
    if Owned(i, ref) {
      var gateway := if IsGateway(ref) then name else i.world.listenerSets[name];
      assert LeadsTo(i, ref, gateway);
      assert (gateway, i.world.gateways[gateway]) in i.world.gateways.Items;
    }
  }

  // A pass adds an entry for a parent without one exactly if the parent is referenced and leads to a Gateway of this
  // controller.
  lemma AddedIff(i: Input, parents: seq<ParentStatus>, ref: ParentReference)
    requires forall p | p in parents :: p.ref != ref
    ensures ref in Refs(Pass(i, parents)) <==> ref in i.spec.parentRefs && LeadsToOurs(i, ref)
  {
    OwnedIff(i, ref);
    if ref in i.spec.parentRefs && Owned(i, ref) {
      OwnedListed(i, parents, ref);
    } else if ref in Refs(Pass(i, parents)) {
      AddedIsOwned(i, parents, ref);
    }
  }

  lemma AddedIsOwned(i: Input, parents: seq<ParentStatus>, ref: ParentReference)
    requires (forall p | p in parents :: p.ref != ref) && ref in Refs(Pass(i, parents))
    ensures ref in i.spec.parentRefs && Owned(i, ref)
  {
    PassIsSettings(i, parents);
    AddedIsSet(i, parents, Checks(i), ref);
    var s :| s in Checks(i) && s.ref == ref;
    FlatMapMember(ChecksOf(i), i.spec.parentRefs, s);
  }

  lemma AddedIsSet(i: Input, parents: seq<ParentStatus>, settings: seq<Setting>, ref: ParentReference)
    requires (forall p | p in parents :: p.ref != ref) && ref in Refs(Set(Filter(parents, Staying(i)), i.controller, settings))
    ensures exists s :: s in settings && s.ref == ref
  {
    var start := Filter(parents, Staying(i));
    FilterMember(parents, Staying(i));
    SetShape(start, i.controller, settings);
    var j :| 0 <= j < |Refs(Set(start, i.controller, settings))| && Refs(Set(start, i.controller, settings))[j] == ref;
    assert forall k | 0 <= k < |start| :: start[k] in start && start[k].ref != ref;
  }

  // ---------- what they are told ----------

  lemma {:induction false} SetFor(settings: seq<Setting>, ref: ParentReference, c: Condition)
    ensures c in ConditionsFor(settings, ref) <==> Setting(ref, c) in settings
  {
    if settings != [] {
      var front, last := settings[..|settings| - 1], settings[|settings| - 1];
      assert settings == front + [last];
      SetFor(front, ref, c);
    }
  }

  lemma {:induction false} AllAlike(conditions: seq<Condition>, kind: string, want: Condition, x: Condition)
    requires (forall c | c in conditions && c.kind == kind :: c == want) && exists c :: c in conditions && c.kind == kind
    ensures Through(Map(SetTo, conditions), kind, x) == want
  {
    var front, last := conditions[..|conditions| - 1], conditions[|conditions| - 1];
    assert conditions == front + [last] && last in conditions;
    MapSnoc(SetTo, front, last);
    ThroughSnoc(Map(SetTo, front), SetTo(last), kind, x);
    if last.kind != kind {
      AllAlike(front, kind, want, x);
    }
  }

  // Rules that a validator finds fault with.
  ghost predicate Faulty(i: Input) {
    SetsHost(i.spec.rules) || exists p :: p in Patterns(i.spec.rules) && i.spec.compile(p.text).Some?
  }

  lemma FaultyIff(i: Input)
    ensures LastFailure(i).Some? <==> Faulty(i)
    ensures LastFailure(i).Some? ==> LastFailure(i).value.kind == "Accepted" && LastFailure(i).value.status == "False"
    ensures forall f | f in [i.spec.HeaderModifier(), i.spec.Regexps()] && f.Some? :: f.value.kind == "Accepted"
  {
    FirstBroken(Patterns(i.spec.rules), i.spec.compile);
  }

  lemma {:induction false} FirstBroken(patterns: seq<Pattern>, compile: Compiler)
    ensures FirstMatch(patterns, Broken(compile)).Some? <==> exists p :: p in patterns && compile(p.text).Some?
  {
    if patterns != [] {
      FirstBroken(patterns[1..], compile);
      assert patterns == [patterns[0]] + patterns[1..];
    }
  }

  // The conditions of a pass for a parent: those of the checks, and then those of the validators.
  lemma ConditionOrigin(i: Input, refs: seq<ParentReference>, ref: ParentReference, c: Condition)
    requires c in ConditionsFor(AllSettings(i, refs), ref)
    ensures c == At(ACCEPTED, i.spec.generation) || c == At(RESOLVED_REFS, i.spec.generation) || (c.kind == "Accepted" && Faulty(i))
  {
    var s := Setting(ref, c);
    SetFor(AllSettings(i, refs), ref, c);
    FaultyIff(i);
    if s in Checks(i) {
      FlatMapMember(ChecksOf(i), i.spec.parentRefs, s);
    }
  }

  lemma ChecksSet(i: Input, refs: seq<ParentReference>, ref: ParentReference)
    requires ref in i.spec.parentRefs && Owned(i, ref)
    ensures var cs := ConditionsFor(AllSettings(i, refs), ref);
      At(ACCEPTED, i.spec.generation) in cs && At(RESOLVED_REFS, i.spec.generation) in cs
  {
    forall c | c in [At(ACCEPTED, i.spec.generation), At(RESOLVED_REFS, i.spec.generation)] ensures c in ConditionsFor(AllSettings(i, refs), ref) {
      assert Setting(ref, c) in ChecksOf(i)(ref);
      FlatMapMember(ChecksOf(i), i.spec.parentRefs, Setting(ref, c));
      SetFor(AllSettings(i, refs), ref, c);
    }
  }

  // The entry has a condition of the kind, with the status, about this generation.
  ghost predicate Tells(i: Input, p: ParentStatus, kind: string, status: string) {
    exists c :: c in p.conditions && c.kind == kind && c.status == status && c.generation == i.spec.generation
  }

  ghost predicate Origins(i: Input, conditions: seq<Condition>) {
    forall c | c in conditions ::
      c == At(ACCEPTED, i.spec.generation) || c == At(RESOLVED_REFS, i.spec.generation) || (c.kind == "Accepted" && Faulty(i))
  }

  lemma ResolvedTold(i: Input, conditions: seq<Condition>, x: Condition)
    requires Origins(i, conditions) && At(RESOLVED_REFS, i.spec.generation) in conditions
    ensures Through(Map(SetTo, conditions), "ResolvedRefs", x) == At(RESOLVED_REFS, i.spec.generation)
  {
    assert "ResolvedRefs"[0] != "Accepted"[0];
    AllAlike(conditions, "ResolvedRefs", At(RESOLVED_REFS, i.spec.generation), x);
  }

  lemma AcceptedTold(i: Input, conditions: seq<Condition>, failure: Condition, x: Condition)
    requires Origins(i, conditions) && At(ACCEPTED, i.spec.generation) in conditions && failure.kind == "Accepted"
    requires Faulty(i) ==> conditions[|conditions| - 1] == failure
    ensures Through(Map(SetTo, conditions), "Accepted", x) == if Faulty(i) then failure else At(ACCEPTED, i.spec.generation)
  {
    if Faulty(i) {
      var front := conditions[..|conditions| - 1];
      assert conditions == front + [failure];
      MapSnoc(SetTo, front, failure);
      ThroughSnoc(Map(SetTo, front), SetTo(failure), "Accepted", x);
    } else {
      assert "ResolvedRefs"[0] != "Accepted"[0];
      AllAlike(conditions, "Accepted", At(ACCEPTED, i.spec.generation), x);
    }
  }

  // After a pass the first entry of a parent that leads to a Gateway of this controller says, about the route's own
  // generation, that references are resolved, and that the route is accepted exactly if no validator finds fault with it.
  lemma EntryTells(i: Input, parents: seq<ParentStatus>, ref: ParentReference)
    requires ref in i.spec.parentRefs && LeadsToOurs(i, ref)
    ensures var j := Find(Pass(i, parents), ParentView(i.controller), ref);
      && j < |Pass(i, parents)| && Pass(i, parents)[j].ref == ref
      && Tells(i, Pass(i, parents)[j], "ResolvedRefs", "True")
      && Tells(i, Pass(i, parents)[j], "Accepted", if Faulty(i) then "False" else "True")
  {
    var view, refs, start := ParentView(i.controller), Refs(Checked(i, parents)), Filter(parents, Staying(i));
    var settings := AllSettings(i, refs);
    OwnedIff(i, ref);
    OwnedListed(i, parents, ref);
    PassIsSettings(i, parents);
    SettingsLawful(i.controller, settings);
    ApplyEffect(start, view, Map(SettingOp, settings));
    var next := Pass(i, parents);
    var j := Find(next, view, ref);
    FindLonger([], next, i.controller, ref);
    var p := Get(start, view, ref);
    ThroughIsConditions(settings, ref, p);
    ConditionsTell(i, refs, ref, p.conditions, next[j]);
  }

  lemma KindIsThere(before: seq<Condition>, conditions: seq<Condition>, c: Condition)
    requires c in conditions
    ensures Through(Map(SetTo, conditions), c.kind, Get(before, ConditionView(), c.kind)) in Apply(before, ConditionView(), Map(SetTo, conditions))
  {
    var k :| 0 <= k < |conditions| && conditions[k] == c;
    ConditionsLawful(conditions);
    ApplyEffect(before, ConditionView(), Map(SetTo, conditions));
    assert Map(SetTo, conditions)[k] == SetTo(c) && SetTo(c) in Map(SetTo, conditions);
  }

  lemma ConditionsTell(i: Input, refs: seq<ParentReference>, ref: ParentReference, before: seq<Condition>, p: ParentStatus)
    requires ref in refs && ref in i.spec.parentRefs && Owned(i, ref)
    requires p.conditions == Apply(before, ConditionView(), Map(SetTo, ConditionsFor(AllSettings(i, refs), ref)))
    ensures Tells(i, p, "ResolvedRefs", "True") && Tells(i, p, "Accepted", if Faulty(i) then "False" else "True")
  {
    var cs := ConditionsFor(AllSettings(i, refs), ref);
    ChecksSet(i, refs, ref);
    FaultyIff(i);
    if Faulty(i) {
      FailureSet(i, refs, ref);
    }
    forall c | c in cs
      ensures c == At(ACCEPTED, i.spec.generation) || c == At(RESOLVED_REFS, i.spec.generation) || (c.kind == "Accepted" && Faulty(i))
    {
      ConditionOrigin(i, refs, ref, c);
    }
    SetTells(i, cs, if Faulty(i) then At(LastFailure(i).value, i.spec.generation) else At(ACCEPTED, i.spec.generation), before, p);
  }

  lemma SetTells(i: Input, conditions: seq<Condition>, last: Condition, before: seq<Condition>, p: ParentStatus)
    requires Origins(i, conditions) && At(ACCEPTED, i.spec.generation) in conditions && At(RESOLVED_REFS, i.spec.generation) in conditions
    requires last.kind == "Accepted" && last.generation == i.spec.generation && last.status == if Faulty(i) then "False" else "True"
    requires if Faulty(i) then conditions[|conditions| - 1] == last else last == At(ACCEPTED, i.spec.generation)
    requires p.conditions == Apply(before, ConditionView(), Map(SetTo, conditions))
    ensures Tells(i, p, "ResolvedRefs", "True") && Tells(i, p, "Accepted", if Faulty(i) then "False" else "True")
  {
    KindIsThere(before, conditions, At(ACCEPTED, i.spec.generation));
    KindIsThere(before, conditions, At(RESOLVED_REFS, i.spec.generation));
    ResolvedTold(i, conditions, Get(before, ConditionView(), "ResolvedRefs"));
    AcceptedTold(i, conditions, last, Get(before, ConditionView(), "Accepted"));
    assert At(RESOLVED_REFS, i.spec.generation) in p.conditions && last in p.conditions;
  }

  // ---------- both, on concrete routes ----------

  const GATEWAY := ParentReference(None, None, None, "gw", None, None)

  // A header modifier for Host on a route to another controller's Gateway: the entry there is overwritten.
  lemma FailureOverwrites()
    ensures var i := Input(World(map[], map[], map[]), RouteSpec("ns", 1, [GATEWAY], [RouteRule([SetsHeaders(["Host"])], [])], _ => None), "mine");
      !Owned(i, GATEWAY) && !SparesForeign(i, [ParentStatus(GATEWAY, "theirs", [])])
  {
    var rules := [RouteRule([SetsHeaders(["Host"])], [])];
    var i := Input(World(map[], map[], map[]), RouteSpec("ns", 1, [GATEWAY], rules, _ => None), "mine");
    assert rules[0] in rules && SetsHeaders(["Host"]) in rules[0].filters && "Host" in ["Host"];
    assert SetsHost(rules);
    StrangerWritten(i, ParentStatus(GATEWAY, "theirs", []));
  }

  // A valid route to this controller's Gateway that another controller has an entry for: it is written to, and this
  // controller gets none.
  lemma OwnEntryMissing()
    ensures var name := NamespacedName("ns", "gw");
      var i := Input(World(map[name := "class"], map["class" := "mine"], map[]), RouteSpec("ns", 1, [GATEWAY], [], _ => None), "mine");
      && LastFailure(i).None? && Owned(i, GATEWAY) && !SparesForeign(i, [ParentStatus(GATEWAY, "theirs", [])])
      && forall p | p in Pass(i, [ParentStatus(GATEWAY, "theirs", [])]) :: !Own(i, GATEWAY, p)
  {
    var name := NamespacedName("ns", "gw");
    var i := Input(World(map[name := "class"], map["class" := "mine"], map[]), RouteSpec("ns", 1, [GATEWAY], [], _ => None), "mine");
    var p := ParentStatus(GATEWAY, "theirs", []);
    StrangerWritten(i, p);
    OwnEntryIff(i, [p], GATEWAY);
    assert p in [p] && p.ref == GATEWAY;
  }
}
