/** Which listeners of a Gateway and its ListenerSets win their port, with the test on pairs of listeners as a parameter. */
module ListenerConflicts {
  import opened Wrappers
  import opened Sorting
  import opened GatewayObjects
  import Model
  import Merging

  type Source = Model.Resource
  datatype SourcedListener = SourcedListener(listener: Listener, source: Source)

  // The reason why two listeners conflict, if they do; the first is the one of higher precedence.
  // The code takes an empty reason for none, so its methods ask for reasons that are not empty.
  type PairTest = (Listener, Listener) -> Option<string>

  // The test as it stands: listeners on different ports do not conflict, and neither do any others.
  function PairConflict(first: Listener, second: Listener): Option<string> {
    if first.port != second.port then None else None
  }

  // ---------- what acceptance means ----------

  predicate Blocked(pair: PairTest, accepted: seq<Listener>, l: Listener) {
    exists i | 0 <= i < |accepted| :: pair(accepted[i], l).Some?
  }

  function Unblocked(pair: PairTest, accepted: seq<Listener>): Listener -> bool {
    l => !Blocked(pair, accepted, l)
  }

  function Eligible(pair: PairTest, accepted: seq<Listener>, listeners: seq<Listener>): seq<Listener> {
    Filter(listeners, Unblocked(pair, accepted))
  }

  // Some listener of the name conflicts with another of the list.
  predicate Clashes(pair: PairTest, listeners: seq<Listener>, name: string) {
    exists i, j | 0 <= i < j < |listeners| && (listeners[i].name == name || listeners[j].name == name) ::
      pair(listeners[i], listeners[j]).Some?
  }

  // A source loses a name to the listeners accepted before it, or to its own eligible listeners.
  predicate Refused(pair: PairTest, accepted: seq<Listener>, listeners: seq<Listener>, name: string) {
    || (exists i | 0 <= i < |listeners| && listeners[i].name == name :: Blocked(pair, accepted, listeners[i]))
    || Clashes(pair, Eligible(pair, accepted, listeners), name)
  }

  // The reason is that of a conflict which makes the source lose the name.
  ghost predicate Justified(pair: PairTest, accepted: seq<Listener>, listeners: seq<Listener>, name: string, reason: string) {
    || (exists i, a :: BlockedBy(pair, accepted, listeners, i, a, name, reason))
    || (exists i, j :: ClashesAt(pair, Eligible(pair, accepted, listeners), i, j, name, reason))
  }

  ghost predicate BlockedBy(pair: PairTest, accepted: seq<Listener>, listeners: seq<Listener>, i: int, a: int, name: string, reason: string) {
    0 <= i < |listeners| && 0 <= a < |accepted| && listeners[i].name == name && pair(accepted[a], listeners[i]) == Some(reason)
  }

  ghost predicate ClashesAt(pair: PairTest, listeners: seq<Listener>, i: int, j: int, name: string, reason: string) {
    && 0 <= i < j < |listeners| && (listeners[i].name == name || listeners[j].name == name)
    && pair(listeners[i], listeners[j]) == Some(reason)
  }

  function Kept(pair: PairTest, accepted: seq<Listener>, listeners: seq<Listener>): Listener -> bool {
    (l: Listener) => !Refused(pair, accepted, listeners, l.name)
  }

  function Accept(pair: PairTest, accepted: seq<Listener>, listeners: seq<Listener>): seq<Listener> {
    accepted + Filter(Eligible(pair, accepted, listeners), Kept(pair, accepted, listeners))
  }

  // The listeners accepted from the groups of all sources, in order of precedence.
  function Accepted(pair: PairTest, groups: seq<seq<Listener>>): seq<Listener> {
    if groups == [] then [] else Accept(pair, Accepted(pair, groups[..|groups| - 1]), groups[|groups| - 1])
  }

  ghost predicate ConflictFree(pair: PairTest, listeners: seq<Listener>) {
    forall i, j | 0 <= i < j < |listeners| :: pair(listeners[i], listeners[j]).None?
  }

  lemma AcceptKeepsConflictFree(pair: PairTest, accepted: seq<Listener>, listeners: seq<Listener>)
    requires ConflictFree(pair, accepted)
    ensures ConflictFree(pair, Accept(pair, accepted, listeners))
  {
    var eligible := Eligible(pair, accepted, listeners);
    var kept := Filter(eligible, Kept(pair, accepted, listeners));
    FilterMember(listeners, Unblocked(pair, accepted));
    FilterMember(eligible, Kept(pair, accepted, listeners));
    forall i, j | 0 <= i < j < |accepted + kept| ensures pair((accepted + kept)[i], (accepted + kept)[j]).None? {
      if j >= |accepted| {
        var l := kept[j - |accepted|];
        assert l in kept;
        if i < |accepted| {
          assert Unblocked(pair, accepted)(l);
          assert pair(accepted[i], l).None?;
        } else {
          var a, b := FilterPair(eligible, Kept(pair, accepted, listeners), i - |accepted|, j - |accepted|);
          assert Kept(pair, accepted, listeners)(l);
          assert !Clashes(pair, eligible, l.name);
        }
      }
    }
  }

  // Elements of a filtered list come from the list, in its order.
  lemma {:induction false} FilterPair<T(!new)>(s: seq<T>, keep: T -> bool, i: nat, j: nat) returns (a: nat, b: nat)
    requires i < j < |Filter(s, keep)|
    ensures a < b < |s| && s[a] == Filter(s, keep)[i] && s[b] == Filter(s, keep)[j]
  {
    var rest, d := Filter(s[1..], keep), if keep(s[0]) then 1 else 0;
    if d > i {
      FilterMember(s[1..], keep);
      assert rest[j - 1] in rest && rest[j - 1] in s[1..];
      b :| 0 <= b < |s[1..]| && s[1..][b] == rest[j - 1];
      a, b := 0, b + 1;
    } else {
      a, b := FilterPair(s[1..], keep, i - d, j - d);
      a, b := a + 1, b + 1;
    }
  }

  // No accepted listener conflicts with one accepted before it.
  lemma {:induction false} AcceptedConflictFree(pair: PairTest, groups: seq<seq<Listener>>)
    ensures ConflictFree(pair, Accepted(pair, groups))
  {
    if groups != [] {
      AcceptedConflictFree(pair, groups[..|groups| - 1]);
      AcceptKeepsConflictFree(pair, Accepted(pair, groups[..|groups| - 1]), groups[|groups| - 1]);
    }
  }

  // Sources of lower precedence change nothing for those above them.
  lemma {:induction false} EarlierSourcesKeepTheirPorts(pair: PairTest, groups: seq<seq<Listener>>, n: nat)
    requires n <= |groups|
    ensures Accepted(pair, groups[..n]) <= Accepted(pair, groups)
  {
    if n == |groups| {
      assert groups[..n] == groups;
    } else {
      EarlierSourcesKeepTheirPorts(pair, groups[..|groups| - 1], n);
      assert groups[..|groups| - 1][..n] == groups[..n];
    }
  }

  predicate ConflictsIn(pair: PairTest, listeners: seq<Listener>, l: Listener) {
    exists i, j | 0 <= i < j < |listeners| && (listeners[i] == l || listeners[j] == l) :: pair(listeners[i], listeners[j]).Some?
  }

  // In a source with distinct names, a listener is refused exactly if it conflicts with a listener accepted before its
  // source, or is eligible and conflicts with another eligible listener of its source.
  lemma RefusedIff(pair: PairTest, accepted: seq<Listener>, listeners: seq<Listener>, k: nat)
    requires k < |listeners| && forall i, j | 0 <= i < j < |listeners| :: listeners[i].name != listeners[j].name
    ensures Refused(pair, accepted, listeners, listeners[k].name)
       <==> Blocked(pair, accepted, listeners[k]) || ConflictsIn(pair, Eligible(pair, accepted, listeners), listeners[k])
  {
    var x, eligible := listeners[k], Eligible(pair, accepted, listeners);
    FilterMember(listeners, Unblocked(pair, accepted));
    forall i | 0 <= i < |eligible| ensures eligible[i].name == x.name <==> eligible[i] == x {
      assert eligible[i] in eligible && eligible[i] in listeners;
    }
  }

  // With the test as it stands, every listener is accepted.
  lemma {:induction false} EveryListenerAccepted(groups: seq<seq<Listener>>)
    ensures Accepted(PairConflict, groups) == FlatMap((g: seq<Listener>) => g, groups)
  {
    if groups != [] {
      EveryListenerAccepted(groups[..|groups| - 1]);
      var accepted, last := Accepted(PairConflict, groups[..|groups| - 1]), groups[|groups| - 1];
      FilterAll(last, Unblocked(PairConflict, accepted));
      FilterAll(last, Kept(PairConflict, accepted, last));
    }
  }

  // ---------- conflicts within a source, and grouping ----------

  // Both names of every clash before the pair (a, b) are recorded.
  ghost predicate AllRecorded(pair: PairTest, listeners: seq<Listener>, conflicts: map<string, string>, a: nat, b: nat) {
    forall i, j, name, reason | ClashesAt(pair, listeners, i, j, name, reason) && (i < a || (i == a && j < b)) :: name in conflicts
  }

  // Every name recorded has the reason of a clash it takes part in.
  ghost predicate OnlyClashes(pair: PairTest, listeners: seq<Listener>, conflicts: map<string, string>) {
    forall name | name in conflicts :: exists i, j :: ClashesAt(pair, listeners, i, j, name, conflicts[name])
  }

  method ConflictsWithinSource(pair: PairTest, listeners: seq<Listener>) returns (conflicts: map<string, string>)
    ensures forall name :: name in conflicts <==> Clashes(pair, listeners, name)
    ensures OnlyClashes(pair, listeners, conflicts)
  {
    conflicts := map[];
    for i := 0 to |listeners|
      invariant AllRecorded(pair, listeners, conflicts, i, 0) && OnlyClashes(pair, listeners, conflicts)
    {
      conflicts := ConflictsOf(pair, listeners, i, conflicts);
    }
    RecordedIsClashes(pair, listeners, conflicts);
  }

  lemma RecordedIsClashes(pair: PairTest, listeners: seq<Listener>, conflicts: map<string, string>)
    requires AllRecorded(pair, listeners, conflicts, |listeners|, 0) && OnlyClashes(pair, listeners, conflicts)
    ensures forall name :: name in conflicts <==> Clashes(pair, listeners, name)
  {
    forall name ensures name in conflicts <==> Clashes(pair, listeners, name) {
      if Clashes(pair, listeners, name) {
        var i, j :| 0 <= i < j < |listeners| && (listeners[i].name == name || listeners[j].name == name) && pair(listeners[i], listeners[j]).Some?;
        assert ClashesAt(pair, listeners, i, j, name, pair(listeners[i], listeners[j]).value);
      }
      if name in conflicts {
        var i, j :| ClashesAt(pair, listeners, i, j, name, conflicts[name]);
      }
    }
  }

  method ConflictsOf(pair: PairTest, listeners: seq<Listener>, i: nat, before: map<string, string>) returns (conflicts: map<string, string>)
    requires i < |listeners| && AllRecorded(pair, listeners, before, i, 0) && OnlyClashes(pair, listeners, before)
    ensures AllRecorded(pair, listeners, conflicts, i + 1, 0) && OnlyClashes(pair, listeners, conflicts)
  {
    conflicts := before;
    for j := i + 1 to |listeners|
      invariant AllRecorded(pair, listeners, conflicts, i, j) && OnlyClashes(pair, listeners, conflicts)
    {
      var reason := pair(listeners[i], listeners[j]);
      if reason.Some? {
        RecordBoth(pair, listeners, conflicts, i, j, reason.value);
        conflicts := conflicts[listeners[i].name := reason.value];
        conflicts := conflicts[listeners[j].name := reason.value];
      } else {
        assert AllRecorded(pair, listeners, conflicts, i, j + 1);
      }
    }
  }

  lemma RecordBoth(pair: PairTest, listeners: seq<Listener>, conflicts: map<string, string>, i: nat, j: nat, reason: string)
    requires i < j < |listeners| && pair(listeners[i], listeners[j]) == Some(reason)
    requires AllRecorded(pair, listeners, conflicts, i, j) && OnlyClashes(pair, listeners, conflicts)
    ensures var next := conflicts[listeners[i].name := reason][listeners[j].name := reason];
      AllRecorded(pair, listeners, next, i, j + 1) && OnlyClashes(pair, listeners, next)
  {
    var next := conflicts[listeners[i].name := reason][listeners[j].name := reason];
    forall name | name in next ensures exists a, b :: ClashesAt(pair, listeners, a, b, name, next[name]) {
      if name == listeners[i].name || name == listeners[j].name {
        assert ClashesAt(pair, listeners, i, j, name, next[name]);
      }
    }
  }

  function OfSource(source: Source): SourcedListener -> bool {
    (l: SourcedListener) => l.source == source
  }

  function ListenerOf(l: SourcedListener): Listener { l.listener }
  function SourceOf(l: SourcedListener): Source { l.source }

  function Group(listeners: seq<SourcedListener>, source: Source): seq<Listener> {
    Map(ListenerOf, Filter(listeners, OfSource(source)))
  }

  function Groups(listeners: seq<SourcedListener>): seq<seq<Listener>> {
    Map(source => Group(listeners, source), Unique(Map(SourceOf, listeners)))
  }

  lemma GroupSnoc(listeners: seq<SourcedListener>, l: SourcedListener, source: Source)
    ensures Group(listeners + [l], source) == if l.source == source then Group(listeners, source) + [l.listener] else Group(listeners, source)
  {
    Merging.FilterSnoc(listeners, l, OfSource(source));
    if l.source == source {
      MapSnoc(ListenerOf, Filter(listeners, OfSource(source)), l);
    }
  }

  ghost predicate Grouped(listeners: seq<SourcedListener>, bySource: map<Source, seq<Listener>>, sources: seq<Source>) {
    && sources == Unique(Map(SourceOf, listeners))
    && SameKeys(bySource, sources)
    && Holds(listeners, bySource)
  }

  ghost predicate SameKeys<K(!new), V>(m: map<K, V>, keys: seq<K>) {
    forall k :: k in m <==> k in keys
  }

  ghost predicate Holds(listeners: seq<SourcedListener>, bySource: map<Source, seq<Listener>>) {
    forall source | source in bySource :: bySource[source] == Group(listeners, source)
  }

  function Appended(bySource: map<Source, seq<Listener>>, l: SourcedListener): map<Source, seq<Listener>> {
    bySource[l.source := (if l.source in bySource then bySource[l.source] else []) + [l.listener]]
  }

  lemma HoldsSnoc(listeners: seq<SourcedListener>, l: SourcedListener, bySource: map<Source, seq<Listener>>)
    requires Holds(listeners, bySource) && (l.source !in bySource ==> l.source !in Map(SourceOf, listeners))
    ensures Holds(listeners + [l], Appended(bySource, l))
  {
    if l.source !in bySource {
      GroupOfUnknown(listeners, l.source);
    }
    forall source | source in Appended(bySource, l) ensures Appended(bySource, l)[source] == Group(listeners + [l], source) {
      GroupSnoc(listeners, l, source);
    }
  }

  lemma GroupOfUnknown(listeners: seq<SourcedListener>, source: Source)
    requires source !in Map(SourceOf, listeners)
    ensures Group(listeners, source) == []
  {
    forall l | l in listeners ensures !OfSource(source)(l) {
      var i :| 0 <= i < |listeners| && listeners[i] == l;
      assert Map(SourceOf, listeners)[i] == l.source;
    }
    FilterNone(listeners, OfSource(source));
  }

  lemma SameKeysSnoc<K(!new), V>(m: map<K, V>, keys: seq<K>, k: K, v: V)
    requires SameKeys(m, keys)
    ensures SameKeys(m[k := v], if k in m then keys else keys + [k])
  {
  }

  lemma GroupedSnoc(listeners: seq<SourcedListener>, l: SourcedListener, bySource: map<Source, seq<Listener>>, sources: seq<Source>)
    requires Grouped(listeners, bySource, sources)
    ensures Grouped(listeners + [l], Appended(bySource, l), if l.source in bySource then sources else sources + [l.source])
  {
    var names := Map(SourceOf, listeners);
    MapSnoc(SourceOf, listeners, l);
    UniqueSnoc(names, l.source);
    assert l.source in bySource <==> l.source in Unique(names);
    assert l.source !in bySource ==> l.source !in names by { UniqueContents(names); }
    SameKeysSnoc(bySource, sources, l.source, Appended(bySource, l)[l.source]);
    HoldsSnoc(listeners, l, bySource);
  }

  method GroupBySource(listeners: seq<SourcedListener>) returns (bySource: map<Source, seq<Listener>>, sources: seq<Source>)
    ensures Grouped(listeners, bySource, sources)
  {
    bySource, sources := map[], [];
    for i := 0 to |listeners|
      invariant Grouped(listeners[..i], bySource, sources)
    {
      var l := listeners[i];
      assert listeners[..i + 1] == listeners[..i] + [l];
      GroupedSnoc(listeners[..i], l, bySource, sources);
      if l.source !in bySource {
        sources := sources + [l.source];
      }
      bySource := Appended(bySource, l);
    }
    assert listeners[..|listeners|] == listeners;
  }
}
