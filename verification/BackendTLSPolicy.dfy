/** BackendTLSPolicy conflict resolution: for each service and section the oldest policy wins, then the first by name. */
module BackendTLSPolicy {
  import opened Wrappers
  import opened Sorting
  import opened Merging
  import opened GatewayObjects
  import Strings

  datatype TargetRef = TargetRef(group: string, kind: string, name: string, sectionName: Option<string>)

  datatype Policy = Policy(namespace: string, name: string, created: int, targets: seq<TargetRef>)

  function NameOf(p: Policy): NamespacedName {
    NamespacedName(p.namespace, p.name)
  }

  function FullName(p: Policy): string {
    p.namespace + "/" + p.name
  }

  predicate IsServiceTargetRef(t: TargetRef) {
    t.kind == "Service" && t.group == ""
  }

  function SectionOf(t: TargetRef): string {
    if t.sectionName.Some? then t.sectionName.value else ""
  }

  // ---------- the rule ----------

  // p takes precedence over q.
  predicate Beats(p: Policy, q: Policy) {
    p.created < q.created || (p.created == q.created && Strings.Less(FullName(p), FullName(q)))
  }

  // The reference is to the section of a core Service, or to all of it, for which the section is empty.
  ghost predicate RefersTo(t: TargetRef, name: string, section: string) {
    t.group == "" && t.kind == "Service" && t.name == name && (t.sectionName == Some(section) || (t.sectionName.None? && section == ""))
  }

  // p points at the section of the service, which is in its own namespace.
  ghost predicate PointsAt(p: Policy, service: NamespacedName, section: string) {
    p.namespace == service.namespace && exists t :: t in p.targets && RefersTo(t, service.name, section)
  }

  ghost predicate Wins(policies: seq<Policy>, service: NamespacedName, section: string, p: Policy) {
    && p in policies && PointsAt(p, service, section)
    && (forall q | q in policies && PointsAt(q, service, section) && q != p :: Beats(p, q))
  }

  ghost predicate Loses(policies: seq<Policy>, service: NamespacedName, section: string, p: Policy) {
    p in policies && PointsAt(p, service, section) && !Wins(policies, service, section, p)
  }

  // No two policies of the list share namespace and name.
  ghost predicate DistinctNames(policies: seq<Policy>) {
    forall p, q | p in policies && q in policies && NameOf(p) == NameOf(q) :: p == q
  }

  // ---------- the collection ----------

  datatype Verdict = Verdict(valid: map<string, Policy>, conflicted: map<NamespacedName, Policy>)

  const UNDECIDED := Verdict(map[], map[])

  class TargetServiceCollection {
    var valid: map<string, Policy>
    var conflicted: map<NamespacedName, Policy>

    ghost function View(): Verdict
      reads this
    {
      Verdict(valid, conflicted)
    }

    constructor ()
      ensures View() == UNDECIDED
    {
      valid := map[];
      conflicted := map[];
    }

    method UpsertValidPolicy(section: string, p: Policy)
      modifies this
      ensures View() == old(View()).(valid := old(valid)[section := p])
    {
      valid := valid[section := p];
    }

    method UpsertConflictedPolicy(name: NamespacedName, p: Policy)
      modifies this
      ensures View() == old(View()).(conflicted := old(conflicted)[name := p])
    {
      conflicted := conflicted[name := p];
    }
  }

  // ---------- the fold ----------

  // One service target reference of a policy.
  datatype Event = Event(service: NamespacedName, section: string, policy: Policy)

  function ServiceOf(e: Event): NamespacedName { e.service }

  function RefEvents(p: Policy): TargetRef -> seq<Event> {
    t => if IsServiceTargetRef(t) then [Event(NamespacedName(p.namespace, t.name), SectionOf(t), p)] else []
  }

  function PolicyEvents(p: Policy): seq<Event> {
    FlatMap(RefEvents(p), p.targets)
  }

  function Events(policies: seq<Policy>): seq<Event> {
    FlatMap(PolicyEvents, policies)
  }

  function Step(v: Verdict, section: string, p: Policy): Verdict {
    if section !in v.valid then v.(valid := v.valid[section := p])
    else
      var existing := v.valid[section];
      if NameOf(p) == NameOf(existing) then v
      else if Beats(p, existing) then
        Verdict(v.valid[section := p], v.conflicted[NameOf(existing) := existing])
      else v.(conflicted := v.conflicted[NameOf(p) := p])
  }

  function Fold(events: seq<Event>): Verdict {
    if events == [] then UNDECIDED
    else Step(Fold(events[..|events| - 1]), events[|events| - 1].section, events[|events| - 1].policy)
  }

  // ---------- the code ----------

  ghost predicate Apart(lookup: map<NamespacedName, TargetServiceCollection>) {
    forall a, b | a in lookup && b in lookup && a != b :: lookup[a] != lookup[b]
  }

  ghost predicate Reflects(lookup: map<NamespacedName, TargetServiceCollection>, seen: seq<Event>)
    reads lookup.Values
  {
    && Apart(lookup)
    && (forall s :: s in lookup <==> WithKey(seen, ServiceOf, s) != [])
    && (forall s | s in lookup :: lookup[s].View() == Fold(WithKey(seen, ServiceOf, s)))
  }

  lemma FoldSnoc(events: seq<Event>, e: Event)
    ensures Fold(events + [e]) == Step(Fold(events), e.section, e.policy)
  {
    assert (events + [e])[..|events|] == events;
  }

  lemma EventsOfService(seen: seq<Event>, e: Event, s: NamespacedName)
    ensures WithKey(seen + [e], ServiceOf, s) == WithKey(seen, ServiceOf, s) + (if e.service == s then [e] else [])
  {
    var all := seen + [e];
    assert all[..|seen|] == seen && all[..|seen| + 1] == all;
    WithKeySnoc(all, ServiceOf, |seen|, s);
  }

  // What one target reference does to the collection of its service.
  method Resolve(c: TargetServiceCollection, section: string, current: Policy)
    modifies c
    ensures c.View() == Step(old(c.View()), section, current)
  {
    if section !in c.valid {
      c.UpsertValidPolicy(section, current);
      return;
    }
    var existing := c.valid[section];
    var currentName, existingName := NameOf(current), NameOf(existing);
    if currentName == existingName {
      return;
    }
    if current.created < existing.created {
      c.UpsertConflictedPolicy(existingName, existing);
      c.UpsertValidPolicy(section, current);
      return;
    }
    if existing.created < current.created {
      c.UpsertConflictedPolicy(currentName, current);
      return;
    }
    if Strings.Less(FullName(current), FullName(existing)) {
      c.UpsertConflictedPolicy(existingName, existing);
      c.UpsertValidPolicy(section, current);
      return;
    }
    c.UpsertConflictedPolicy(currentName, current);
  }

  method Handle(lookup: map<NamespacedName, TargetServiceCollection>, e: Event, ghost seen: seq<Event>)
    returns (next: map<NamespacedName, TargetServiceCollection>)
    requires Reflects(lookup, seen)
    modifies lookup.Values
    ensures Reflects(next, seen + [e])
    ensures fresh(next.Values - lookup.Values)
  {
    next := lookup;
    ghost var before := WithKey(seen, ServiceOf, e.service);
    if e.service !in next {
      var c := new TargetServiceCollection();
      c.UpsertValidPolicy(e.section, e.policy);
      next := next[e.service := c];
      assert forall s | s in lookup :: next[s] == lookup[s] && next[s].View() == old(lookup[s].View());
    } else {
      Resolve(next[e.service], e.section, e.policy);
      assert forall s | s in lookup && s != e.service :: lookup[s].View() == old(lookup[s].View());
    }
    FoldSnoc(before, e);
    assert next[e.service].View() == Fold(before + [e]);
    forall s ensures WithKey(seen + [e], ServiceOf, s) == WithKey(seen, ServiceOf, s) + if s == e.service then [e] else [] {
      EventsOfService(seen, e, s);
    }
  }

  method HandlePolicy(lookup: map<NamespacedName, TargetServiceCollection>, p: Policy, ghost seen: seq<Event>)
    returns (next: map<NamespacedName, TargetServiceCollection>)
    requires Reflects(lookup, seen)
    modifies lookup.Values
    ensures Reflects(next, seen + PolicyEvents(p))
    ensures fresh(next.Values - lookup.Values)
  {
    next := lookup;
    assert seen + FlatMap(RefEvents(p), p.targets[..0]) == seen;
    for j := 0 to |p.targets|
      invariant Reflects(next, seen + FlatMap(RefEvents(p), p.targets[..j]))
      invariant fresh(next.Values - lookup.Values)
    {
      var t := p.targets[j];
      ghost var before := seen + FlatMap(RefEvents(p), p.targets[..j]);
      FlatMapSnoc(RefEvents(p), p.targets, j);
      assert before + RefEvents(p)(t) == seen + FlatMap(RefEvents(p), p.targets[..j + 1]);
      if !IsServiceTargetRef(t) {
        assert before + RefEvents(p)(t) == before;
        continue;
      }
      next := Handle(next, Event(NamespacedName(p.namespace, t.name), SectionOf(t), p), before);
    }
    assert p.targets[..|p.targets|] == p.targets;
  }

  // BuildBackendTLSPolicyLookup: one collection object per service, each holding the fold over its references.
  method BuildBackendTLSPolicyLookup(policies: seq<Policy>) returns (lookup: map<NamespacedName, TargetServiceCollection>)
    ensures Reflects(lookup, Events(policies))
    ensures fresh(lookup.Values)
  {
    lookup := map[];
    for i := 0 to |policies|
      invariant Reflects(lookup, Events(policies[..i]))
      invariant fresh(lookup.Values)
    {
      lookup := HandlePolicy(lookup, policies[i], Events(policies[..i]));
      FlatMapSnoc(PolicyEvents, policies, i);
    }
    assert policies[..|policies|] == policies;
  }

  // ---------- the fold decides by the rule ----------

  // A policy's claim to a section of the service at hand.
  datatype Claim = Claim(section: string, policy: Policy)

  ghost function Claims(events: seq<Event>): set<Claim> {
    set e | e in events :: Claim(e.section, e.policy)
  }

  lemma ClaimsSnoc(events: seq<Event>, e: Event)
    ensures Claims(events + [e]) == Claims(events) + {Claim(e.section, e.policy)}
  {
  }

  // All claims are by policies of one namespace, and no two policies share a name.
  ghost predicate Coherent(claims: set<Claim>) {
    forall a, b | a in claims && b in claims ::
      a.policy.namespace == b.policy.namespace && (a.policy.name == b.policy.name ==> a.policy == b.policy)
  }

  // Valid holds, for each section claimed, the claimant that beats all others.
  ghost predicate ValidDecided(v: Verdict, claims: set<Claim>) {
    && (forall s | s in v.valid :: Claim(s, v.valid[s]) in claims)
    && (forall c | c in claims :: c.section in v.valid && (c.policy == v.valid[c.section] || Beats(v.valid[c.section], c.policy)))
  }

  ghost predicate Lost(v: Verdict, c: Claim) {
    c.section in v.valid && c.policy != v.valid[c.section]
  }

  // Conflicted holds exactly the claimants that lost some section, under their names.
  ghost predicate ConflictsDecided(v: Verdict, claims: set<Claim>) {
    && (forall n | n in v.conflicted :: NameOf(v.conflicted[n]) == n && exists c :: c in claims && Lost(v, c) && c.policy == v.conflicted[n])
    && (forall c | c in claims && Lost(v, c) :: NameOf(c.policy) in v.conflicted && v.conflicted[NameOf(c.policy)] == c.policy)
  }

  lemma BeatsTransitive(p: Policy, q: Policy, r: Policy)
    requires Beats(p, q) && Beats(q, r)
    ensures Beats(p, r)
  {
    StringOrder();
  }

  lemma BeatsAsymmetric(p: Policy, q: Policy)
    ensures !(Beats(p, q) && Beats(q, p))
  {
    StringOrder();
  }

  lemma BeatsTotal(p: Policy, q: Policy)
    requires p.namespace == q.namespace && p.name != q.name
    ensures Beats(p, q) != Beats(q, p)
  {
    StringOrder();
    var k := |p.namespace| + 1;
    assert p.name == FullName(p)[k..] && q.name == FullName(q)[k..];
  }

  lemma {:induction false} LessBehind(prefix: string, a: string, b: string)
    ensures Strings.Less(prefix + a, prefix + b) <==> Strings.Less(a, b)
  {
    if prefix == [] {
      assert prefix + a == a && prefix + b == b;
    } else {
      assert (prefix + a)[1..] == prefix[1..] + a && (prefix + b)[1..] == prefix[1..] + b;
      LessBehind(prefix[1..], a, b);
    }
  }

  // Within a namespace the older policy takes precedence, and of two as old the first by name.
  lemma BeatsIff(p: Policy, q: Policy)
    requires p.namespace == q.namespace
    ensures Beats(p, q) <==> p.created < q.created || (p.created == q.created && Strings.Less(p.name, q.name))
  {
    var prefix := p.namespace + "/";
    assert FullName(p) == prefix + p.name && FullName(q) == prefix + q.name;
    LessBehind(prefix, p.name, q.name);
  }

  lemma StepValid(v: Verdict, claims: set<Claim>, new_: Claim)
    requires ValidDecided(v, claims) && Coherent(claims + {new_})
    ensures ValidDecided(Step(v, new_.section, new_.policy), claims + {new_})
  {
    var s, p := new_.section, new_.policy;
    var next := Step(v, s, p);
    if s in v.valid {
      var existing := v.valid[s];
      assert Claim(s, existing) in claims && new_ in claims + {new_};
      if p.name != existing.name {
        BeatsTotal(p, existing);
        forall c | c in claims && c.section == s && Beats(p, existing) ensures c.policy == p || Beats(p, c.policy) {
          if c.policy != existing {
            BeatsTransitive(p, existing, c.policy);
          }
        }
      }
    }
  }

  // A claim that has lost goes on losing.
  lemma StillLost(v: Verdict, claims: set<Claim>, new_: Claim, c: Claim)
    requires ValidDecided(v, claims) && Coherent(claims + {new_}) && c in claims && Lost(v, c)
    ensures Lost(Step(v, new_.section, new_.policy), c)
  {
    if c.section == new_.section {
      var existing := v.valid[c.section];
      assert Claim(c.section, existing) in claims;
      BeatsAsymmetric(existing, c.policy);
    }
  }

  // What the step adds to the losers.
  lemma LostNow(v: Verdict, claims: set<Claim>, new_: Claim, c: Claim)
    requires ValidDecided(v, claims) && ConflictsDecided(v, claims) && Coherent(claims + {new_})
    requires c in claims + {new_} && Lost(Step(v, new_.section, new_.policy), c)
    ensures var next := Step(v, new_.section, new_.policy);
      NameOf(c.policy) in next.conflicted && next.conflicted[NameOf(c.policy)] == c.policy
  {
    if c in claims && Lost(v, c) {
      StillRecorded(v, claims, new_, c);
    } else {
      LosesHere(v, claims, new_, c);
    }
  }

  lemma StillRecorded(v: Verdict, claims: set<Claim>, new_: Claim, c: Claim)
    requires ValidDecided(v, claims) && ConflictsDecided(v, claims) && Coherent(claims + {new_}) && c in claims && Lost(v, c)
    ensures var next := Step(v, new_.section, new_.policy);
      NameOf(c.policy) in next.conflicted && next.conflicted[NameOf(c.policy)] == c.policy
  {
    assert v.conflicted[NameOf(c.policy)] == c.policy;
    assert new_ in claims + {new_} && c in claims + {new_};
    if new_.section in v.valid {
      assert Claim(new_.section, v.valid[new_.section]) in claims + {new_};
    }
  }

  lemma LosesHere(v: Verdict, claims: set<Claim>, new_: Claim, c: Claim)
    requires ValidDecided(v, claims) && Coherent(claims + {new_})
    requires c in claims + {new_} && Lost(Step(v, new_.section, new_.policy), c) && !(c in claims && Lost(v, c))
    ensures var next := Step(v, new_.section, new_.policy);
      NameOf(c.policy) in next.conflicted && next.conflicted[NameOf(c.policy)] == c.policy
  {
    var s := new_.section;
    assert new_ in claims + {new_} && c.section == s;
    if s in v.valid {
      assert Claim(s, v.valid[s]) in claims + {new_};
    }
  }

  lemma ConflictOrigin(v: Verdict, claims: set<Claim>, new_: Claim, n: NamespacedName) returns (c: Claim)
    requires ValidDecided(v, claims) && ConflictsDecided(v, claims) && Coherent(claims + {new_})
    requires n in Step(v, new_.section, new_.policy).conflicted
    ensures var next := Step(v, new_.section, new_.policy);
      NameOf(next.conflicted[n]) == n && c in claims + {new_} && Lost(next, c) && c.policy == next.conflicted[n]
  {
    var next := Step(v, new_.section, new_.policy);
    if n in v.conflicted && next.conflicted[n] == v.conflicted[n] {
      c :| c in claims && Lost(v, c) && c.policy == v.conflicted[n];
      StillLost(v, claims, new_, c);
    } else {
      c := Claim(new_.section, next.conflicted[n]);
      NewConflict(v, claims, new_, n);
    }
  }

  lemma NewConflict(v: Verdict, claims: set<Claim>, new_: Claim, n: NamespacedName)
    requires forall s | s in v.valid :: Claim(s, v.valid[s]) in claims
    requires var next := Step(v, new_.section, new_.policy);
      n in next.conflicted && (n !in v.conflicted || next.conflicted[n] != v.conflicted[n])
    ensures var next := Step(v, new_.section, new_.policy);
      var c := Claim(new_.section, next.conflicted[n]);
      NameOf(c.policy) == n && c in claims + {new_} && Lost(next, c)
  {
    assert Claim(new_.section, v.valid[new_.section]) in claims;
  }

  lemma StepConflicts(v: Verdict, claims: set<Claim>, new_: Claim)
    requires ValidDecided(v, claims) && ConflictsDecided(v, claims) && Coherent(claims + {new_})
    ensures ConflictsDecided(Step(v, new_.section, new_.policy), claims + {new_})
  {
    var next, all := Step(v, new_.section, new_.policy), claims + {new_};
    forall n | n in next.conflicted
      ensures NameOf(next.conflicted[n]) == n && exists c :: c in all && Lost(next, c) && c.policy == next.conflicted[n]
    {
      var c := ConflictOrigin(v, claims, new_, n);
    }
    forall c | c in all && Lost(next, c) ensures NameOf(c.policy) in next.conflicted && next.conflicted[NameOf(c.policy)] == c.policy {
      LostNow(v, claims, new_, c);
    }
  }

  lemma {:induction false} FoldDecides(events: seq<Event>)
    requires Coherent(Claims(events))
    ensures ValidDecided(Fold(events), Claims(events)) && ConflictsDecided(Fold(events), Claims(events))
  {
    if events != [] {
      var front, e := events[..|events| - 1], events[|events| - 1];
      assert events == front + [e];
      ClaimsSnoc(front, e);
      FoldDecides(front);
      StepValid(Fold(front), Claims(front), Claim(e.section, e.policy));
      StepConflicts(Fold(front), Claims(front), Claim(e.section, e.policy));
    }
  }

  // ---------- in terms of the policies ----------

  ghost function ServiceEvents(policies: seq<Policy>, service: NamespacedName): seq<Event> {
    WithKey(Events(policies), ServiceOf, service)
  }

  lemma ClaimIff(policies: seq<Policy>, service: NamespacedName, c: Claim)
    ensures c in Claims(ServiceEvents(policies, service)) <==> c.policy in policies && PointsAt(c.policy, service, c.section)
  {
    var e := Event(service, c.section, c.policy);
    WithKeyMember(Events(policies), ServiceOf, service);
    assert c in Claims(ServiceEvents(policies, service)) <==> e in Events(policies);
    FlatMapMember(PolicyEvents, policies, e);
    if e in Events(policies) {
      var q :| q in policies && e in PolicyEvents(q);
      EventOfPolicy(q, e);
    }
    if c.policy in policies && PointsAt(c.policy, service, c.section) {
      EventOfPolicy(c.policy, e);
    }
  }

  lemma EventOfPolicy(p: Policy, e: Event)
    ensures e in PolicyEvents(p) <==> e.policy == p && PointsAt(p, e.service, e.section)
  {
    FlatMapMember(RefEvents(p), p.targets, e);
    if e in PolicyEvents(p) {
      var t :| t in p.targets && e in RefEvents(p)(t);
    }
    if e.policy == p && PointsAt(p, e.service, e.section) {
      var t :| t in p.targets && RefersTo(t, e.service.name, e.section);
      assert e in RefEvents(p)(t);
    }
  }

  lemma ServiceClaimsCoherent(policies: seq<Policy>, service: NamespacedName)
    requires DistinctNames(policies)
    ensures Coherent(Claims(ServiceEvents(policies, service)))
  {
    forall c | c in Claims(ServiceEvents(policies, service)) ensures c.policy in policies && c.policy.namespace == service.namespace {
      ClaimIff(policies, service, c);
    }
  }

  // The verdict on a service: Valid is the winner of each section pointed at.
  lemma ValidIsWinner(policies: seq<Policy>, service: NamespacedName, section: string)
    requires DistinctNames(policies)
    ensures var v := Fold(ServiceEvents(policies, service));
      && (section in v.valid <==> exists p :: p in policies && PointsAt(p, service, section))
      && (section in v.valid ==> forall p :: Wins(policies, service, section, p) <==> p == v.valid[section])
  {
    var events := ServiceEvents(policies, service);
    var v := Fold(events);
    ServiceClaimsCoherent(policies, service);
    FoldDecides(events);
    forall p ensures Claim(section, p) in Claims(events) <==> p in policies && PointsAt(p, service, section) {
      ClaimIff(policies, service, Claim(section, p));
    }
    if section in v.valid {
      var w := v.valid[section];
      forall q | q in policies && PointsAt(q, service, section) && q != w ensures Beats(w, q) {
        assert Claim(section, q) in Claims(events);
      }
      assert Claim(section, w) in Claims(events);
      assert Wins(policies, service, section, w);
      forall p ensures Wins(policies, service, section, p) ==> p == w {
        BeatsAsymmetric(p, w);
      }
    } else {
      forall p ensures !(p in policies && PointsAt(p, service, section)) {
        assert Claim(section, p) !in Claims(events);
      }
    }
  }

  // Conflicted is exactly the policies that point at some section of the service without winning it, even if they
  // win another section.
  lemma ConflictedIsLosers(policies: seq<Policy>, service: NamespacedName, p: Policy)
    requires DistinctNames(policies)
    ensures var v := Fold(ServiceEvents(policies, service));
      (exists section :: Loses(policies, service, section, p)) <==> (NamespacedName(p.namespace, p.name), p) in v.conflicted.Items
    ensures var v := Fold(ServiceEvents(policies, service));
      forall n | n in v.conflicted :: n == NamespacedName(v.conflicted[n].namespace, v.conflicted[n].name)
  {
    var events := ServiceEvents(policies, service);
    var v := Fold(events);
    ServiceClaimsCoherent(policies, service);
    FoldDecides(events);
    if exists section :: Loses(policies, service, section, p) {
      var s :| Loses(policies, service, s, p);
      LosesIffLost(policies, service, Claim(s, p));
    }
    if NameOf(p) in v.conflicted && v.conflicted[NameOf(p)] == p {
      var c :| c in Claims(events) && Lost(v, c) && c.policy == p;
      LosesIffLost(policies, service, c);
      assert Loses(policies, service, c.section, p);
    }
  }

  lemma LosesIffLost(policies: seq<Policy>, service: NamespacedName, c: Claim)
    requires DistinctNames(policies)
    ensures var v := Fold(ServiceEvents(policies, service));
      Loses(policies, service, c.section, c.policy) <==> c in Claims(ServiceEvents(policies, service)) && Lost(v, c)
  {
    ClaimIff(policies, service, c);
    ValidIsWinner(policies, service, c.section);
  }

  // ---------- the whole service and its sections ----------

  // An empty section stands for the whole service, so that its policy should be the only one valid on the service.
  ghost predicate WholeExcludesOthers(v: Verdict) {
    "" in v.valid ==> forall section | section in v.valid :: v.valid[section] == v.valid[""]
  }

  ghost predicate Pointed(policies: seq<Policy>, service: NamespacedName, section: string) {
    exists p :: p in policies && PointsAt(p, service, section)
  }

  // The code treats "" as one more section: policies on the whole service and on a named section are both valid if each
  // wins its own.
  lemma BothValidIff(policies: seq<Policy>, service: NamespacedName, section: string, p: Policy, q: Policy)
    requires DistinctNames(policies) && section != ""
    ensures var v := Fold(ServiceEvents(policies, service));
      ("" in v.valid && v.valid[""] == p && section in v.valid && v.valid[section] == q)
      <==> Wins(policies, service, "", p) && Wins(policies, service, section, q)
  {
    ValidIsWinner(policies, service, "");
    ValidIsWinner(policies, service, section);
  }

  // So the whole service excludes other policies if and only if nobody points at it, or one policy wins it and every
  // section pointed at.
  lemma WholeExcludesIff(policies: seq<Policy>, service: NamespacedName)
    requires DistinctNames(policies)
    ensures WholeExcludesOthers(Fold(ServiceEvents(policies, service)))
       <==> !Pointed(policies, service, "")
            || exists p :: Wins(policies, service, "", p)
                 && forall section | Pointed(policies, service, section) :: Wins(policies, service, section, p)
  {
    var v := Fold(ServiceEvents(policies, service));
    forall section
      ensures section in v.valid <==> Pointed(policies, service, section)
      ensures section in v.valid ==> forall p :: Wins(policies, service, section, p) <==> p == v.valid[section]
    {
      ValidIsWinner(policies, service, section);
    }
    if Pointed(policies, service, "") && WholeExcludesOthers(v) {
      var p := v.valid[""];
      assert Wins(policies, service, "", p);
      forall section | Pointed(policies, service, section) ensures Wins(policies, service, section, p) {
        assert section in v.valid && v.valid[section] == p;
      }
    }
  }

  function OnSection(name: string, created: int, section: Option<string>): Policy {
    Policy("ns", name, created, [TargetRef("", "Service", "svc", section)])
  }

  lemma OneEvent(name: string, created: int, section: Option<string>)
    ensures var p := OnSection(name, created, section);
      PolicyEvents(p) == [Event(NamespacedName("ns", "svc"), SectionOf(p.targets[0]), p)]
  {
    var p := OnSection(name, created, section);
    FlatMapSnoc(RefEvents(p), p.targets, 0);
    assert p.targets[..1] == p.targets && IsServiceTargetRef(p.targets[0]);
  }

  lemma TwoEvents(p: Policy, q: Policy, first: Event, second: Event)
    requires PolicyEvents(p) == [first] && PolicyEvents(q) == [second]
    ensures Events([p, q]) == [first] + [second]
  {
    FlatMapSnoc(PolicyEvents, [p, q], 0);
    FlatMapSnoc(PolicyEvents, [p, q], 1);
    assert [p, q][..2] == [p, q];
  }

  // A policy on the whole service and a newer one on its section "https": both valid, neither in conflict.
  lemma WholeBesideSection(older: int, newer: int)
    requires older < newer
    ensures var p, q := OnSection("a", older, None), OnSection("b", newer, Some("https"));
      Fold(ServiceEvents([p, q], NamespacedName("ns", "svc"))) == Verdict(map["" := p, "https" := q], map[])
  {
    var p, q := OnSection("a", older, None), OnSection("b", newer, Some("https"));
    var service := NamespacedName("ns", "svc");
    var first, second := Event(service, "", p), Event(service, "https", q);
    OneEvent("a", older, None);
    OneEvent("b", newer, Some("https"));
    TwoEvents(p, q, first, second);
    EventsOfService([], first, service);
    EventsOfService([first], second, service);
    assert [] + [first] == [first];
    FoldSnoc([], first);
    FoldSnoc([first], second);
  }

  // Listing the same policies in another order changes nothing.
  lemma OrderDoesNotMatter(a: seq<Policy>, b: seq<Policy>, service: NamespacedName)
    requires DistinctNames(a) && multiset(a) == multiset(b)
    ensures Fold(ServiceEvents(a, service)) == Fold(ServiceEvents(b, service))
  {
    assert forall p :: p in a <==> p in multiset(a);
    assert forall p :: p in b <==> p in multiset(b);
    var v, w := Fold(ServiceEvents(a, service)), Fold(ServiceEvents(b, service));
    ServiceClaimsCoherent(a, service);
    ServiceClaimsCoherent(b, service);
    FoldDecides(ServiceEvents(a, service));
    FoldDecides(ServiceEvents(b, service));
    assert Claims(ServiceEvents(a, service)) == Claims(ServiceEvents(b, service)) by {
      forall c ensures c in Claims(ServiceEvents(a, service)) <==> c in Claims(ServiceEvents(b, service)) {
        ClaimIff(a, service, c);
        ClaimIff(b, service, c);
      }
    }
    VerdictUnique(v, w, Claims(ServiceEvents(a, service)));
  }

  lemma ValidUnique(v: Verdict, w: Verdict, claims: set<Claim>)
    requires ValidDecided(v, claims) && ValidDecided(w, claims)
    ensures v.valid == w.valid
  {
    assert forall s | s in v.valid :: Claim(s, v.valid[s]) in claims && s in w.valid;
    assert forall s | s in w.valid :: Claim(s, w.valid[s]) in claims && s in v.valid;
    forall s | s in v.valid ensures v.valid[s] == w.valid[s] {
      BeatsAsymmetric(v.valid[s], w.valid[s]);
      assert Claim(s, v.valid[s]) in claims && Claim(s, w.valid[s]) in claims;
    }
  }

  // The claims alone determine the verdict.
  lemma VerdictUnique(v: Verdict, w: Verdict, claims: set<Claim>)
    requires ValidDecided(v, claims) && ConflictsDecided(v, claims) && ValidDecided(w, claims) && ConflictsDecided(w, claims)
    ensures v == w
  {
    ValidUnique(v, w, claims);
    assert v.conflicted == w.conflicted by {
      forall n | n in v.conflicted ensures n in w.conflicted && w.conflicted[n] == v.conflicted[n] {
        var c :| c in claims && Lost(v, c) && c.policy == v.conflicted[n];
        assert Lost(w, c);
      }
      forall n | n in w.conflicted ensures n in v.conflicted {
        var c :| c in claims && Lost(w, c) && c.policy == w.conflicted[n];
        assert Lost(v, c);
      }
    }
  }
}
