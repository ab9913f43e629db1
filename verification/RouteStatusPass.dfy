/** The status pass as the controller runs it, in place and with the clock running, and its timeless specification. */
module RouteStatusPass {
  import opened Wrappers
  import opened Sorting
  import opened GatewayObjects
  import opened Upserts
  import opened RouteStatus
  import opened RouteValidators
  import Merging

  // ---------- merging conditions ----------

  predicate Changed(a: Condition, b: Condition) {
    a.status != b.status || a.reason != b.reason || a.message != b.message || a.generation != b.generation
  }

  function Overwrite(existing: seq<Condition>, update: Condition): (next: seq<Condition>)
    ensures |next| == |existing| && forall i | 0 <= i < |next| :: next[i].kind == existing[i].kind
  {
    var j := Find(existing, ConditionView(), update.kind);
    if j < |existing| && Changed(existing[j], update) then existing[j := update] else existing
  }

  function OverwriteAll(existing: seq<Condition>, updates: seq<Condition>): (next: seq<Condition>)
    ensures |next| == |existing| && forall i | 0 <= i < |next| :: next[i].kind == existing[i].kind
  {
    if updates == [] then existing else Overwrite(OverwriteAll(existing, updates[..|updates| - 1]), updates[|updates| - 1])
  }

  function Missing(existing: seq<Condition>): Condition -> bool {
    (c: Condition) => Find(existing, ConditionView(), c.kind) == |existing|
  }

  function Merged(existing: seq<Condition>, updates: seq<Condition>): seq<Condition> {
    OverwriteAll(existing, updates) + Filter(updates, Missing(existing))
  }

  lemma {:induction false} FindByKinds(a: seq<Condition>, b: seq<Condition>, kind: string)
    requires |a| == |b| && forall i | 0 <= i < |a| :: a[i].kind == b[i].kind
    ensures Find(a, ConditionView(), kind) == Find(b, ConditionView(), kind)
  {
    FindUnique(b, ConditionView(), kind, Find(a, ConditionView(), kind));
  }

  lemma MapUpdate<T, U>(f: T -> U, s: seq<T>, i: nat, x: T)
    requires i < |s|
    ensures Map(f, s[i := x]) == Map(f, s)[i := f(x)]
  {
  }

  lemma UpdateSame<T>(s: seq<T>, i: nat)
    requires i < |s|
    ensures s[i := s[i]] == s
  {
  }

  // Where an update finds nothing to change it finds its own contents, so leaving times aside it always overwrites.
  lemma OverwriteTimeless(existing: seq<Condition>, update: Condition)
    requires Find(existing, ConditionView(), update.kind) < |existing|
    ensures Map(Timeless, Overwrite(existing, update)) == Upsert(Map(Timeless, existing), ConditionView(), SetTo(Timeless(update)))
  {
    var j := Find(existing, ConditionView(), update.kind);
    FindByKinds(existing, Map(Timeless, existing), update.kind);
    MapUpdate(Timeless, existing, j, update);
    if !Changed(existing[j], update) {
      assert Timeless(update) == Map(Timeless, existing)[j];
      UpdateSame(Map(Timeless, existing), j);
    }
  }

  // One merged condition is one upsert.
  lemma MergedIsUpsert(existing: seq<Condition>, update: Condition)
    ensures Map(Timeless, Merged(existing, [update])) == Upsert(Map(Timeless, existing), ConditionView(), SetTo(Timeless(update)))
  {
    var missing := Missing(existing);
    assert OverwriteAll(existing, [update]) == Overwrite(existing, update) by { assert [update][..0] == []; }
    assert Filter([update], missing) == if missing(update) then [update] else [];
    FindByKinds(existing, Map(Timeless, existing), update.kind);
    if missing(update) {
      MapSnoc(Timeless, existing, update);
    } else {
      OverwriteTimeless(existing, update);
    }
  }

  // A condition's transition time moves only when something else in it does.
  lemma {:induction false} TimesStayPut(existing: seq<Condition>, update: Condition, i: nat)
    requires i < |existing| && Timeless(Merged(existing, [update])[i]) == Timeless(existing[i])
    ensures Merged(existing, [update])[i] == existing[i]
  {
    assert OverwriteAll(existing, [update]) == Overwrite(existing, update) by { assert [update][..0] == []; }
  }

  method MergeConditions(existing: array<Condition>, updates: seq<Condition>) returns (merged: seq<Condition>)
    modifies existing
    ensures existing[..] == OverwriteAll(old(existing[..]), updates)
    ensures merged == Merged(old(existing[..]), updates)
  {
    ghost var before := existing[..];
    ghost var done: seq<Condition> := [];
    var additions := [];
    for i := 0 to |updates|
      invariant done == updates[..i] && existing[..] == OverwriteAll(before, done)
      invariant additions == Filter(done, Missing(before))
    {
      FindByKinds(before, existing[..], updates[i].kind);
      TakeSnoc(updates, i);
      OverwriteSnoc(before, done, updates[i]);
      Merging.FilterSnoc(done, updates[i], Missing(before));
      var found := MergeOne(existing, updates[i]);
      if !found {
        additions := additions + [updates[i]];
      }
      done := done + [updates[i]];
    }
    assert done == updates;
    merged := existing[..] + additions;
  }

  lemma OverwriteSnoc(existing: seq<Condition>, updates: seq<Condition>, update: Condition)
    ensures OverwriteAll(existing, updates + [update]) == Overwrite(OverwriteAll(existing, updates), update)
  {
    assert (updates + [update])[..|updates|] == updates;
  }

  method MergeOne(existing: array<Condition>, update: Condition) returns (found: bool)
    modifies existing
    ensures existing[..] == Overwrite(old(existing[..]), update)
    ensures found <==> Find(old(existing[..]), ConditionView(), update.kind) < existing.Length
  {
    ghost var before := existing[..];
    for j := 0 to existing.Length
      invariant existing[..] == before
      invariant forall l | 0 <= l < j :: before[l].kind != update.kind
    {
      if existing[j].kind == update.kind {
        FindUnique(before, ConditionView(), update.kind, j);
        if Changed(existing[j], update) {
          existing[j] := update;
        }
        return true;
      }
    }
    FindUnique(before, ConditionView(), update.kind, existing.Length);
    return false;
  }

  // ---------- pruning ----------

  method Prune(i: Input, parents: array<ParentStatus>) returns (n: nat)
    modifies parents
    ensures n <= parents.Length && parents[..n] == Filter(old(parents[..]), Staying(i))
  {
    ghost var before := parents[..];
    n := 0;
    for k := 0 to parents.Length
      invariant n <= k && parents[..n] == Filter(before[..k], Staying(i))
      invariant parents[k..] == before[k..]
    {
      assert before[..k + 1] == before[..k] + [before[k]];
      assert parents[k] == parents[k..][0] == before[k];
      Merging.FilterSnoc(before[..k], before[k], Staying(i));
      if parents[k].controller != i.controller || parents[k].ref in i.spec.parentRefs {
        ghost var rest := parents[k + 1..];
        assert rest == before[k + 1..];
        parents[n] := parents[k];
        n := n + 1;
      }
    }
    assert before[..|before|] == before;
  }

  // ---------- setting conditions, with their times ----------

  function MergeInto(c: Condition): ParentStatus -> ParentStatus {
    (p: ParentStatus) => p.(conditions := Merged(p.conditions, [c]))
  }

  function MergeOp(s: Setting): Op<ParentReference, ParentStatus> {
    Op(s.ref, MergeInto(s.condition))
  }

  // One call of SetParentCondition after the other, each merging its condition as it is, time included.
  function MergeAll(parents: seq<ParentStatus>, controller: string, settings: seq<Setting>): seq<ParentStatus> {
    Apply(parents, ParentView(controller), Map(MergeOp, settings))
  }

  function TimelessSetting(s: Setting): Setting {
    s.(condition := Timeless(s.condition))
  }

  // The settings as they are made one clock reading after the other.
  function Stamp(settings: seq<Setting>, clock: nat -> int, start: nat): seq<Setting> {
    if settings == [] then []
    else
      var n, last := |settings| - 1, settings[|settings| - 1];
      Stamp(settings[..n], clock, start) + [last.(condition := last.condition.(transition := clock(start + n)))]
  }

  lemma {:induction false} StampConcat(a: seq<Setting>, b: seq<Setting>, clock: nat -> int, start: nat)
    ensures Stamp(a + b, clock, start) == Stamp(a, clock, start) + Stamp(b, clock, start + |a|)
  {
    if b == [] {
      assert a + b == a;
    } else {
      var front, last := b[..|b| - 1], b[|b| - 1];
      assert a + b == (a + front) + [last] && (a + b)[..|a + b| - 1] == a + front;
      StampConcat(a, front, clock, start);
    }
  }

  lemma {:induction false} StampTimeless(settings: seq<Setting>, clock: nat -> int, start: nat)
    requires forall s | s in settings :: TimelessSetting(s) == s
    ensures Map(TimelessSetting, Stamp(settings, clock, start)) == settings
  {
    if settings != [] {
      var front, last := settings[..|settings| - 1], settings[|settings| - 1];
      assert settings == front + [last] && last in settings;
      StampTimeless(front, clock, start);
      MapSnoc(TimelessSetting, Stamp(front, clock, start), last.(condition := last.condition.(transition := clock(start + |front|))));
    }
  }

  lemma MergeAllConcat(parents: seq<ParentStatus>, controller: string, a: seq<Setting>, b: seq<Setting>)
    ensures MergeAll(parents, controller, a + b) == MergeAll(MergeAll(parents, controller, a), controller, b)
  {
    MapConcat(MergeOp, a, b);
    ApplyConcat(parents, ParentView(controller), Map(MergeOp, a), Map(MergeOp, b));
  }

  lemma MergeAllSnoc(parents: seq<ParentStatus>, controller: string, settings: seq<Setting>, s: Setting)
    ensures MergeAll(parents, controller, settings + [s]) == Upsert(MergeAll(parents, controller, settings), ParentView(controller), MergeOp(s))
  {
    MapSnoc(MergeOp, settings, s);
    ApplySnoc(parents, ParentView(controller), Map(MergeOp, settings), MergeOp(s));
  }

  // Leaving times aside, merging a condition into the statuses sets it.
  lemma MergeTimeless(parents: seq<ParentStatus>, controller: string, s: Setting)
    ensures TimelessStatus(Upsert(parents, ParentView(controller), MergeOp(s)))
         == Upsert(TimelessStatus(parents), ParentView(controller), SettingOp(TimelessSetting(s)))
  {
    var view := ParentView(controller);
    var j := Find(parents, view, s.ref);
    FindUnique(TimelessStatus(parents), view, s.ref, j);
    if j < |parents| {
      MergedAt(parents[j], s.condition);
      MapUpdate(TimelessParent, parents, j, MergeInto(s.condition)(parents[j]));
    } else {
      MergedAt(BlankParent(controller)(s.ref), s.condition);
      MapSnoc(TimelessParent, parents, MergeInto(s.condition)(BlankParent(controller)(s.ref)));
    }
  }

  lemma MergedAt(p: ParentStatus, c: Condition)
    ensures TimelessParent(MergeInto(c)(p)) == WithCondition(Timeless(c))(TimelessParent(p))
  {
    MergedIsUpsert(p.conditions, c);
  }

  lemma {:induction false} MergeAllTimeless(parents: seq<ParentStatus>, controller: string, settings: seq<Setting>)
    ensures TimelessStatus(MergeAll(parents, controller, settings))
         == Set(TimelessStatus(parents), controller, Map(TimelessSetting, settings))
  {
    if settings != [] {
      var front, last := settings[..|settings| - 1], settings[|settings| - 1];
      assert settings == front + [last];
      MergeAllTimeless(parents, controller, front);
      MergeAllSnoc(parents, controller, front, last);
      MapSnoc(TimelessSetting, front, last);
      SetSnoc(TimelessStatus(parents), controller, Map(TimelessSetting, front), TimelessSetting(last));
      MergeTimeless(MergeAll(parents, controller, front), controller, last);
    }
  }

  // ---------- the pass ----------

  // The time is what the clock shows at its next reading.
  class HTTPRouteInput {
    const spec: RouteSpec
    const controller: string
    const clock: nat -> int
    var readings: nat
    var parents: seq<ParentStatus>

    constructor (spec: RouteSpec, controller: string, clock: nat -> int, parents: seq<ParentStatus>)
      ensures this.spec == spec && this.controller == controller && this.clock == clock && this.parents == parents && readings == 0
    {
      this.spec, this.controller, this.clock, this.parents, readings := spec, controller, clock, parents, 0;
    }

    method SetParentCondition(ref: ParentReference, condition: Condition)
      modifies this
      ensures parents == MergeAll(old(parents), controller, Stamp([Setting(ref, At(condition, spec.generation))], clock, old(readings)))
      ensures readings == old(readings) + 1
    {
      var now := clock(readings);
      readings := readings + 1;
      ghost var setting := Setting(ref, At(condition, spec.generation));
      assert [setting][..0] == [];
      assert Stamp([setting], clock, old(readings)) == [Setting(ref, condition.(generation := spec.generation, transition := now))];
      MergeStatusConditions(ref, condition.(generation := spec.generation, transition := now));
    }

    method MergeStatusConditions(ref: ParentReference, update: Condition)
      modifies this`parents
      ensures parents == MergeAll(old(parents), controller, [Setting(ref, update)])
    {
      var index := 0;
      while index < |parents| && parents[index].ref != ref
        invariant index <= |parents| && forall j | 0 <= j < index :: parents[j].ref != ref
      {
        index := index + 1;
      }
      MergeOneAt(parents, controller, ref, update, index);
      if index < |parents| {
        var merged := MergeCopy(parents[index].conditions, update);
        parents := parents[index := parents[index].(conditions := merged)];
      } else {
        parents := parents + [ParentStatus(ref, controller, [update])];
      }
    }

    method SetInitialRouteConditions(ref: ParentReference)
      modifies this
      ensures parents == MergeAll(old(parents), controller,
        Stamp([Setting(ref, At(ACCEPTED, spec.generation)), Setting(ref, At(RESOLVED_REFS, spec.generation))], clock, old(readings)))
      ensures readings == old(readings) + 2
    {
      ghost var accepted, resolved := [Setting(ref, At(ACCEPTED, spec.generation))], [Setting(ref, At(RESOLVED_REFS, spec.generation))];
      SetParentCondition(ref, ACCEPTED);
      SetParentCondition(ref, RESOLVED_REFS);
      StampConcat(accepted, resolved, clock, old(readings));
      MergeAllConcat(old(parents), controller, Stamp(accepted, clock, old(readings)), Stamp(resolved, clock, old(readings) + 1));
      assert accepted + resolved == [Setting(ref, At(ACCEPTED, spec.generation)), Setting(ref, At(RESOLVED_REFS, spec.generation))];
    }

    method RunCommonRouteChecks(world: World)
      modifies this
      ensures var checks := Checks(Input(world, spec, controller));
        parents == MergeAll(old(parents), controller, Stamp(checks, clock, old(readings))) && readings == old(readings) + |checks|
    {
      var i := Input(world, spec, controller);
      ghost var before, start := parents, readings;
      ghost var done: seq<Setting> := [];
      for k := 0 to |spec.parentRefs|
        invariant done == FlatMap(ChecksOf(i), spec.parentRefs[..k])
        invariant parents == MergeAll(before, controller, Stamp(done, clock, start)) && readings == start + |done|
      {
        ghost var mid, now, more := parents, readings, ChecksOf(i)(spec.parentRefs[k]);
        FlatMapSnoc(ChecksOf(i), spec.parentRefs, k);
        CheckParent(i, spec.parentRefs[k]);
        MergedInTurn(before, controller, done, more, clock, start, mid, now, parents);
        done := done + more;
      }
      assert spec.parentRefs[..|spec.parentRefs|] == spec.parentRefs;
    }

    method CheckParent(i: Input, ref: ParentReference)
      requires i.spec == spec
      modifies this
      ensures parents == MergeAll(old(parents), controller, Stamp(ChecksOf(i)(ref), clock, old(readings)))
      ensures readings == old(readings) + |ChecksOf(i)(ref)|
    {
      if Owned(i, ref) {
        SetInitialRouteConditions(ref);
      }
    }

    method RunValidator(failure: Option<Condition>)
      modifies this
      ensures var settings := Spread(old(Refs(parents)), failure, spec.generation);
        parents == MergeAll(old(parents), controller, Stamp(settings, clock, old(readings))) && readings == old(readings) + |settings|
    {
      if failure.Some? {
        SetOnAll(parents, failure.value, Spread(Refs(parents), failure, spec.generation));
      }
    }

    method SetOnAll(listed: seq<ParentStatus>, condition: Condition, ghost settings: seq<Setting>)
      requires |settings| == |listed|
      requires forall k | 0 <= k < |listed| :: settings[k] == Setting(listed[k].ref, At(condition, spec.generation))
      modifies this
      ensures parents == MergeAll(old(parents), controller, Stamp(settings, clock, old(readings)))
      ensures readings == old(readings) + |settings|
    {
      ghost var before, start := parents, readings;
      for k := 0 to |listed|
        invariant parents == MergeAll(before, controller, Stamp(settings[..k], clock, start)) && readings == start + k
      {
        ghost var mid, now := parents, readings;
        SetParentCondition(listed[k].ref, condition);
        StampNext(before, controller, settings, k, Setting(listed[k].ref, At(condition, spec.generation)), clock, start, mid, now, parents);
      }
      assert settings[..|listed|] == settings;
    }

    method RunValidators()
      modifies this
      ensures var refs := old(Refs(parents));
        parents == MergeAll(old(parents), controller, Stamp(
          Spread(refs, spec.HeaderModifier(), spec.generation) + Spread(refs, spec.Regexps(), spec.generation), clock, old(readings)))
    {
      ghost var refs := Refs(parents);
      ghost var first, second := Spread(refs, spec.HeaderModifier(), spec.generation), Spread(refs, spec.Regexps(), spec.generation);
      var failure := ValidateHeaderModifier(spec.rules);
      RunValidator(failure);
      SpreadRefs(refs, spec.HeaderModifier(), spec.generation);
      StampRefs(first, clock, old(readings));
      MergeKeepsRefs(old(parents), controller, Stamp(first, clock, old(readings)));
      ghost var mid, now := parents, readings;
      failure := ValidateMatchRegexps(spec.rules, spec.compile);
      RunValidator(failure);
      MergedInTurn(old(parents), controller, first, second, clock, old(readings), mid, now, parents);
    }
  }

  lemma MergedInTurn(
    before: seq<ParentStatus>, controller: string, a: seq<Setting>, b: seq<Setting>, clock: nat -> int, start: nat,
    mid: seq<ParentStatus>, now: nat, after: seq<ParentStatus>)
    requires mid == MergeAll(before, controller, Stamp(a, clock, start)) && now == start + |a|
    requires after == MergeAll(mid, controller, Stamp(b, clock, now))
    ensures after == MergeAll(before, controller, Stamp(a + b, clock, start))
  {
    StampSplit(a, b, clock, start, now);
    MergeAllConcat(before, controller, Stamp(a, clock, start), Stamp(b, clock, now));
  }

  lemma StampSplit(a: seq<Setting>, b: seq<Setting>, clock: nat -> int, start: nat, now: nat)
    requires now == start + |a|
    ensures Stamp(a + b, clock, start) == Stamp(a, clock, start) + Stamp(b, clock, now)
  {
    StampConcat(a, b, clock, start);
  }

  lemma StampNext(
    before: seq<ParentStatus>, controller: string, settings: seq<Setting>, k: nat, s: Setting, clock: nat -> int, start: nat,
    mid: seq<ParentStatus>, now: nat, after: seq<ParentStatus>)
    requires k < |settings| && settings[k] == s && now == start + k
    requires mid == MergeAll(before, controller, Stamp(settings[..k], clock, start))
    requires after == MergeAll(mid, controller, Stamp([s], clock, now))
    ensures after == MergeAll(before, controller, Stamp(settings[..k + 1], clock, start))
  {
    TakeSnoc(settings, k);
    MergedInTurn(before, controller, settings[..k], [s], clock, start, mid, now, after);
  }

  lemma {:induction false} StampRefs(settings: seq<Setting>, clock: nat -> int, start: nat)
    ensures forall s | s in Stamp(settings, clock, start) :: exists t :: t in settings && t.ref == s.ref
  {
    if settings != [] {
      var front, last := settings[..|settings| - 1], settings[|settings| - 1];
      assert settings == front + [last] && last in settings;
      StampRefs(front, clock, start);
    }
  }

  // Settings on parents that are listed add none.
  lemma MergeKeepsRefs(parents: seq<ParentStatus>, controller: string, settings: seq<Setting>)
    requires forall s | s in settings :: s.ref in Refs(parents)
    ensures Refs(MergeAll(parents, controller, settings)) == Refs(parents)
  {
    var timeless := Map(TimelessSetting, settings);
    MergeAllTimeless(parents, controller, settings);
    RefsTimeless(parents);
    RefsTimeless(MergeAll(parents, controller, settings));
    forall t | t in timeless ensures t.ref in Refs(parents) {
      var k :| 0 <= k < |settings| && t == TimelessSetting(settings[k]);
      assert settings[k] in settings;
    }
    SetKeepsRefs(TimelessStatus(parents), controller, timeless);
  }

  // Merging one condition changes the first status of the parent, or adds one.
  lemma MergeOneAt(parents: seq<ParentStatus>, controller: string, ref: ParentReference, c: Condition, index: nat)
    requires index <= |parents| && (forall j | 0 <= j < index :: parents[j].ref != ref) && (index < |parents| ==> parents[index].ref == ref)
    ensures MergeAll(parents, controller, [Setting(ref, c)])
         == if index < |parents| then parents[index := parents[index].(conditions := Merged(parents[index].conditions, [c]))]
            else parents + [ParentStatus(ref, controller, [c])]
  {
    FindUnique(parents, ParentView(controller), ref, index);
    MergeAllSnoc(parents, controller, [], Setting(ref, c));
    assert [] + [Setting(ref, c)] == [Setting(ref, c)] && MergeAll(parents, controller, []) == parents;
    MergedIntoNothing(c);
  }

  lemma MergedIntoNothing(c: Condition)
    ensures Merged([], [c]) == [c]
  {
    var missing := Missing([]);
    assert missing(c) && [c][..0] == [] && Filter([c], missing) == [c];
  }

  method MergeCopy(conditions: seq<Condition>, update: Condition) returns (merged: seq<Condition>)
    ensures merged == Merged(conditions, [update])
  {
    var existing := CopyConditions(conditions);
    merged := MergeConditions(existing, [update]);
  }

  method CopyConditions(conditions: seq<Condition>) returns (copy: array<Condition>)
    ensures fresh(copy) && copy[..] == conditions
  {
    copy := new Condition[|conditions|];
    forall i | 0 <= i < |conditions| {
      copy[i] := conditions[i];
    }
  }

  lemma {:induction false} FilterTimeless(i: Input, parents: seq<ParentStatus>)
    ensures TimelessStatus(Filter(parents, Staying(i))) == Filter(TimelessStatus(parents), Staying(i))
  {
    if parents != [] {
      FilterTimeless(i, parents[1..]);
      assert TimelessStatus(parents)[1..] == TimelessStatus(parents[1..]);
      if Staying(i)(parents[0]) {
        MapConcat(TimelessParent, [parents[0]], Filter(parents[1..], Staying(i)));
      }
    }
  }

  lemma RefsTimeless(parents: seq<ParentStatus>)
    ensures Refs(TimelessStatus(parents)) == Refs(parents)
  {
  }

  method DeepCopy(parents: seq<ParentStatus>) returns (copy: array<ParentStatus>)
    ensures fresh(copy) && copy[..] == parents
  {
    copy := new ParentStatus[|parents|];
    forall k | 0 <= k < |parents| {
      copy[k] := parents[k];
    }
  }

  method NewInput(i: Input, clock: nat -> int, parents: seq<ParentStatus>) returns (input: HTTPRouteInput)
    ensures fresh(input) && input.spec == i.spec && input.controller == i.controller && input.clock == clock
    ensures input.parents == parents && input.readings == 0
  {
    input := new HTTPRouteInput(i.spec, i.controller, clock, parents);
  }

  // The settings of the pass over these statuses.
  function PassSettings(i: Input, original: seq<ParentStatus>): seq<Setting> {
    AllSettings(i, Refs(Checked(i, TimelessStatus(original))))
  }

  // What the pass leaves, times included.
  function TimedPass(i: Input, original: seq<ParentStatus>, clock: nat -> int): seq<ParentStatus> {
    MergeAll(Filter(original, Staying(i)), i.controller, Stamp(PassSettings(i, original), clock, 0))
  }

  lemma SettingsTimeless(i: Input, refs: seq<ParentReference>)
    ensures forall s | s in AllSettings(i, refs) :: TimelessSetting(s) == s
  {
    forall s | s in Checks(i) ensures TimelessSetting(s) == s {
      FlatMapMember(ChecksOf(i), i.spec.parentRefs, s);
    }
  }

  lemma TimedPassIsPass(i: Input, original: seq<ParentStatus>, clock: nat -> int)
    ensures TimelessStatus(TimedPass(i, original, clock)) == Pass(i, TimelessStatus(original))
  {
    var start, settings := Filter(original, Staying(i)), PassSettings(i, original);
    SettingsTimeless(i, Refs(Checked(i, TimelessStatus(original))));
    StampTimeless(settings, clock, 0);
    MergeAllTimeless(start, i.controller, Stamp(settings, clock, 0));
    FilterTimeless(i, original);
    PassIsSettings(i, TimelessStatus(original));
  }

  lemma CheckedRefs(i: Input, original: seq<ParentStatus>, clock: nat -> int)
    ensures Refs(MergeAll(Filter(original, Staying(i)), i.controller, Stamp(Checks(i), clock, 0)))
         == Refs(Checked(i, TimelessStatus(original)))
  {
    var start := Filter(original, Staying(i));
    var merged := MergeAll(start, i.controller, Stamp(Checks(i), clock, 0));
    SettingsTimeless(i, []);
    StampTimeless(Checks(i), clock, 0);
    MergeAllTimeless(start, i.controller, Stamp(Checks(i), clock, 0));
    FilterTimeless(i, original);
    RefsTimeless(merged);
  }

  // What an update of one route's status computes, and whether it is sent.
  method SetHTTPRouteStatus(i: Input, original: seq<ParentStatus>, clock: nat -> int) returns (updated: seq<ParentStatus>, wrote: bool)
    ensures updated == TimedPass(i, original, clock)
    ensures wrote <==> Pass(i, TimelessStatus(original)) != TimelessStatus(original)
  {
    var copy := DeepCopy(original);
    var n := Prune(i, copy);
    updated := RunPass(i, copy[..n], clock);
    AssembledPass(i, original, clock);
    TimedPassIsPass(i, original, clock);
    wrote := TimelessStatus(original) != TimelessStatus(updated);
  }

  // The settings of the checks, then those of the validators on the parents that the checks leave.
  function ChecksThenValidators(i: Input, start: seq<ParentStatus>, clock: nat -> int): seq<ParentStatus> {
    var checked := MergeAll(start, i.controller, Stamp(Checks(i), clock, 0));
    MergeAll(checked, i.controller, Stamp(ValidatorSettings(i, Refs(checked)), clock, |Checks(i)|))
  }

  function ValidatorSettings(i: Input, refs: seq<ParentReference>): seq<Setting> {
    Spread(refs, i.spec.HeaderModifier(), i.spec.generation) + Spread(refs, i.spec.Regexps(), i.spec.generation)
  }

  lemma SettingsInTurn(i: Input, refs: seq<ParentReference>)
    ensures AllSettings(i, refs) == Checks(i) + ValidatorSettings(i, refs)
  {
  }

  lemma AssembledPass(i: Input, original: seq<ParentStatus>, clock: nat -> int)
    ensures ChecksThenValidators(i, Filter(original, Staying(i)), clock) == TimedPass(i, original, clock)
  {
    var start, checks, refs := Filter(original, Staying(i)), Checks(i), Refs(Checked(i, TimelessStatus(original)));
    CheckedRefs(i, original, clock);
    SettingsInTurn(i, refs);
    var mid := MergeAll(start, i.controller, Stamp(checks, clock, 0));
    MergedInTurn(start, i.controller, checks, ValidatorSettings(i, refs), clock, 0, mid, |checks|, ChecksThenValidators(i, start, clock));
  }

  method RunPass(i: Input, start: seq<ParentStatus>, clock: nat -> int) returns (updated: seq<ParentStatus>)
    ensures updated == ChecksThenValidators(i, start, clock)
  {
    var input := NewInput(i, clock, start);
    assert Input(i.world, i.spec, i.controller) == i;
    input.RunCommonRouteChecks(i.world);
    input.RunValidators();
    updated := input.parents;
  }

  // With spec and world unchanged, the next pass over what the last one left has nothing to write, whatever the clocks show.
  method PassAgain(i: Input, stored: seq<ParentStatus>, clock: nat -> int, later: nat -> int) returns (second: bool)
    ensures !second
  {
    var updated, first := SetHTTPRouteStatus(i, stored, clock);
    TimedPassIsPass(i, stored, clock);
    PassReachesFixedPoint(i, TimelessStatus(stored));
    var again;
    again, second := SetHTTPRouteStatus(i, if first then updated else stored, later);
  }
}
