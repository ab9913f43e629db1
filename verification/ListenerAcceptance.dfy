/** Accepting listeners source by source, as the controller does it. */
module ListenerAcceptance {
  import opened Wrappers
  import opened Sorting
  import opened GatewayObjects
  import opened ListenerConflicts
  import Merging

  class AcceptedListeners {
    var listeners: seq<Listener>

    constructor ()
      ensures listeners == []
    {
      listeners := [];
    }

    // The reason of the first conflict, or the empty text.
    method CheckConflict(pair: PairTest, l: Listener) returns (reason: string)
      requires forall a, b :: pair(a, b) != Some("")
      ensures reason != "" <==> Blocked(pair, listeners, l)
      ensures reason != "" ==> exists i | 0 <= i < |listeners| :: pair(listeners[i], l) == Some(reason)
    {
      for i := 0 to |listeners|
        invariant forall j | 0 <= j < i :: pair(listeners[j], l).None?
      {
        var conflict := pair(listeners[i], l);
        if conflict.Some? {
          return conflict.value;
        }
      }
      return "";
    }

    method Accept(l: Listener)
      modifies this
      ensures listeners == old(listeners) + [l]
    {
      listeners := listeners + [l];
    }
  }

  // The listeners of a source that no accepted listener stands in the way of, and the names of the others.
  method CheckAgainstAccepted(pair: PairTest, accepted: AcceptedListeners, listeners: seq<Listener>)
    returns (eligible: seq<Listener>, conflicts: map<string, string>)
    requires forall a, b :: pair(a, b) != Some("")
    ensures eligible == Eligible(pair, accepted.listeners, listeners)
    ensures forall name :: name in conflicts <==>
      exists i | 0 <= i < |listeners| && listeners[i].name == name :: Blocked(pair, accepted.listeners, listeners[i])
    ensures forall name | name in conflicts :: exists i, a :: BlockedBy(pair, accepted.listeners, listeners, i, a, name, conflicts[name])
  {
    eligible, conflicts := [], map[];
    for i := 0 to |listeners|
      invariant eligible == Eligible(pair, accepted.listeners, listeners[..i])
      invariant forall name :: name in conflicts <==>
        exists j | 0 <= j < i && listeners[j].name == name :: Blocked(pair, accepted.listeners, listeners[j])
      invariant forall name | name in conflicts :: exists j, a :: BlockedBy(pair, accepted.listeners, listeners, j, a, name, conflicts[name])
    {
      var l := listeners[i];
      assert listeners[..i + 1] == listeners[..i] + [l];
      Merging.FilterSnoc(listeners[..i], l, Unblocked(pair, accepted.listeners));
      var reason := accepted.CheckConflict(pair, l);
      if reason != "" {
        ghost var a :| 0 <= a < |accepted.listeners| && pair(accepted.listeners[a], l) == Some(reason);
        assert BlockedBy(pair, accepted.listeners, listeners, i, a, l.name, reason);
        conflicts := conflicts[l.name := reason];
      } else {
        eligible := eligible + [l];
      }
    }
    assert listeners[..|listeners|] == listeners;
  }

  method AcceptOthers(accepted: AcceptedListeners, eligible: seq<Listener>, conflicts: map<string, string>, ghost kept: Listener -> bool)
    requires forall l: Listener :: kept(l) <==> l.name !in conflicts
    modifies accepted
    ensures accepted.listeners == old(accepted.listeners) + Filter(eligible, kept)
  {
    for i := 0 to |eligible|
      invariant accepted.listeners == old(accepted.listeners) + Filter(eligible[..i], kept)
    {
      assert eligible[..i + 1] == eligible[..i] + [eligible[i]];
      Merging.FilterSnoc(eligible[..i], eligible[i], kept);
      if eligible[i].name !in conflicts {
        accepted.Accept(eligible[i]);
      }
    }
    assert eligible[..|eligible|] == eligible;
  }

  method CheckSource(pair: PairTest, accepted: AcceptedListeners, listeners: seq<Listener>) returns (conflicts: map<string, string>)
    requires forall a, b :: pair(a, b) != Some("")
    modifies accepted
    ensures accepted.listeners == Accept(pair, old(accepted.listeners), listeners)
    ensures forall name :: name in conflicts <==> Refused(pair, old(accepted.listeners), listeners, name)
    ensures forall name | name in conflicts :: Justified(pair, old(accepted.listeners), listeners, name, conflicts[name])
  {
    var eligible, across := CheckAgainstAccepted(pair, accepted, listeners);
    var within := ConflictsWithinSource(pair, eligible);
    conflicts := across + within;
    AcceptOthers(accepted, eligible, conflicts, Kept(pair, accepted.listeners, listeners));
  }

  // The names that the k-th source loses.
  ghost function Lost(pair: PairTest, groups: seq<seq<Listener>>, k: int): iset<string> {
    iset name | 0 <= k < |groups| && Refused(pair, Accepted(pair, groups[..k]), groups[k], name)
  }

  // The reasons that it may be given for them.
  ghost function Reasons(pair: PairTest, groups: seq<seq<Listener>>, k: int): iset<(string, string)> {
    iset p: (string, string) | 0 <= k < |groups| && Justified(pair, Accepted(pair, groups[..k]), groups[k], p.0, p.1)
  }

  ghost function AllReasons(pair: PairTest, groups: seq<seq<Listener>>): seq<iset<(string, string)>> {
    seq(|groups|, k => Reasons(pair, groups, k))
  }

  ghost function AllLost(pair: PairTest, groups: seq<seq<Listener>>): seq<iset<string>> {
    seq(|groups|, k => Lost(pair, groups, k))
  }

  // The conflicts reported for a source are the names it loses, each with a reason for it, and it has an entry only
  // if there are any.
  ghost predicate Reported(conflicts: map<Source, map<string, string>>, source: Source, lost: iset<string>, reasons: iset<(string, string)>) {
    && (forall name :: name in lost <==> source in conflicts && name in conflicts[source])
    && (source in conflicts ==> conflicts[source] != map[])
    && (source in conflicts ==> forall name | name in conflicts[source] :: (name, conflicts[source][name]) in reasons)
  }

  ghost predicate AllReported(
    conflicts: map<Source, map<string, string>>, sources: seq<Source>, lost: seq<iset<string>>, reasons: seq<iset<(string, string)>>, n: nat)
    requires n <= |sources| == |lost| == |reasons|
  {
    && (forall k | 0 <= k < n :: Reported(conflicts, sources[k], lost[k], reasons[k]))
    && (forall source | source in conflicts :: source in sources[..n])
  }

  lemma ReportedNext(
    conflicts: map<Source, map<string, string>>, sources: seq<Source>, lost: seq<iset<string>>, reasons: seq<iset<(string, string)>>, k: nat,
    found: map<string, string>)
    requires k < |sources| == |lost| == |reasons| && Distinct(sources) && AllReported(conflicts, sources, lost, reasons, k)
    requires forall name :: name in found <==> name in lost[k]
    requires forall name | name in found :: (name, found[name]) in reasons[k]
    ensures AllReported(if found != map[] then conflicts[sources[k] := found] else conflicts, sources, lost, reasons, k + 1)
  {
    assert sources[k] !in sources[..k];
    assert sources[..k + 1] == sources[..k] + [sources[k]];
    assert found == map[] ==> forall name :: name !in found;
  }

  lemma GroupsAt(listeners: seq<SourcedListener>, bySource: map<Source, seq<Listener>>, sources: seq<Source>, k: nat)
    requires Grouped(listeners, bySource, sources) && k < |sources|
    ensures |Groups(listeners)| == |sources| && sources[k] in bySource && bySource[sources[k]] == Groups(listeners)[k]
  {
  }

  method CheckSources(
    pair: PairTest, winners: AcceptedListeners, bySource: map<Source, seq<Listener>>, sources: seq<Source>, ghost groups: seq<seq<Listener>>)
    returns (conflicts: map<Source, map<string, string>>)
    requires forall a, b :: pair(a, b) != Some("")
    requires Distinct(sources) && |groups| == |sources| && winners.listeners == []
    requires forall k | 0 <= k < |sources| :: sources[k] in bySource && bySource[sources[k]] == groups[k]
    modifies winners
    ensures winners.listeners == Accepted(pair, groups)
    ensures AllReported(conflicts, sources, AllLost(pair, groups), AllReasons(pair, groups), |groups|)
  {
    ghost var lost, reasons := AllLost(pair, groups), AllReasons(pair, groups);
    conflicts := map[];
    for k := 0 to |sources|
      invariant winners.listeners == Accepted(pair, groups[..k])
      invariant AllReported(conflicts, sources, lost, reasons, k)
    {
      AcceptedNext(pair, groups, k);
      var found := CheckSource(pair, winners, bySource[sources[k]]);
      assert lost[k] == Lost(pair, groups, k) && reasons[k] == Reasons(pair, groups, k);
      ReportedNext(conflicts, sources, lost, reasons, k, found);
      if found != map[] {
        conflicts := conflicts[sources[k] := found];
      }
    }
    assert groups[..|groups|] == groups;
  }

  method NoneAccepted() returns (winners: AcceptedListeners)
    ensures fresh(winners) && winners.listeners == []
  {
    winners := new AcceptedListeners();
  }

  lemma AcceptedNext(pair: PairTest, groups: seq<seq<Listener>>, k: nat)
    requires k < |groups|
    ensures Accepted(pair, groups[..k + 1]) == Accept(pair, Accepted(pair, groups[..k]), groups[k])
  {
    assert groups[..k + 1][..k] == groups[..k];
  }

  method ConflictsAcrossSources(pair: PairTest, listeners: seq<SourcedListener>)
    returns (conflicts: map<Source, map<string, string>>, accepted: seq<Listener>)
    requires forall a, b :: pair(a, b) != Some("")
    ensures accepted == Accepted(pair, Groups(listeners))
    ensures |Unique(Map(SourceOf, listeners))| == |Groups(listeners)|
    ensures AllReported(conflicts, Unique(Map(SourceOf, listeners)),
                        AllLost(pair, Groups(listeners)), AllReasons(pair, Groups(listeners)), |Groups(listeners)|)
  {
    var bySource, sources := GroupBySource(listeners);
    UniqueContents(Map(SourceOf, listeners));
    forall k | 0 <= k < |sources| ensures sources[k] in bySource && bySource[sources[k]] == Groups(listeners)[k] {
      GroupsAt(listeners, bySource, sources, k);
    }
    var winners := NoneAccepted();
    conflicts := CheckSources(pair, winners, bySource, sources, Groups(listeners));
    accepted := winners.listeners;
  }
}
