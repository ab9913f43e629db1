/** The listener statuses of a Gateway follow its listeners: old ones in their order, then the new ones. */
module ListenerStatus {
  import opened Sorting
  import opened GatewayObjects
  import Merging
  import ListenerChecks

  // Supported kinds, conditions and attached routes, as the checks of one listener find them.
  datatype Report = Report(kinds: seq<ListenerChecks.RouteKind>, conditions: seq<ListenerChecks.Reported>, attachedRoutes: nat)

  // The specs of the listeners, and how many routes are attached to each.
  datatype Specs = Specs(gateway: ListenerChecks.Context, spec: Listener -> ListenerChecks.ListenerSpec, attached: Listener -> nat)

  function ReportOf(specs: Specs): Listener -> Report {
    (l: Listener) =>
      Report(ListenerChecks.KindsOf(specs.spec(l)), ListenerChecks.ConditionsOf(specs.gateway, specs.spec(l)), specs.attached(l))
  }

  datatype Status = Status(name: string, report: Report)

  function NameOf(s: Status): string { s.name }
  function ListenerName(l: Listener): string { l.name }

  function Names(statuses: seq<Status>): seq<string> {
    Map(NameOf, statuses)
  }

  predicate Lists(listeners: seq<Listener>, name: string) {
    exists i | 0 <= i < |listeners| :: listeners[i].name == name
  }

  function Listed(listeners: seq<Listener>): string -> bool {
    name => Lists(listeners, name)
  }

  function Unlisted(names: seq<string>): string -> bool {
    name => name !in names
  }

  // The old names that are still listeners, then the names of the listeners that were not there before.
  function NewNames(old_: seq<string>, listeners: seq<Listener>): seq<string> {
    Filter(old_, Listed(listeners)) + Added(old_, listeners)
  }

  function Added(old_: seq<string>, listeners: seq<Listener>): seq<string> {
    Unique(Filter(Map(ListenerName, listeners), Unlisted(old_)))
  }

  lemma AddedSnoc(old_: seq<string>, listeners: seq<Listener>, l: Listener)
    ensures var added := Added(old_, listeners);
      Added(old_, listeners + [l]) == if l.name in old_ + added then added else added + [l.name]
  {
    var names := Map(ListenerName, listeners);
    MapSnoc(ListenerName, listeners, l);
    Merging.FilterSnoc(names, l.name, Unlisted(old_));
    var unseen := Filter(names, Unlisted(old_));
    assert Filter(names + [l.name], Unlisted(old_)) == if l.name in old_ then unseen else unseen + [l.name];
    UniqueSnoc(unseen, l.name);
    FilterMember(names, Unlisted(old_));
    UniqueContents(unseen);
  }

  lemma AddedNext(old_: seq<string>, listeners: seq<Listener>, i: nat)
    requires i < |listeners|
    ensures var added := Added(old_, listeners[..i]);
      Added(old_, listeners[..i + 1]) == added + if listeners[i].name in old_ + added then [] else [listeners[i].name]
  {
    assert listeners[..i + 1] == listeners[..i] + [listeners[i]];
    AddedSnoc(old_, listeners[..i], listeners[i]);
  }

  lemma AddedContents(old_: seq<string>, listeners: seq<Listener>)
    ensures Distinct(Added(old_, listeners))
    ensures forall name :: name in Added(old_, listeners) <==> Lists(listeners, name) && name !in old_
  {
    UniqueContents(Filter(Map(ListenerName, listeners), Unlisted(old_)));
    FilterMember(Map(ListenerName, listeners), Unlisted(old_));
    forall name ensures name in Map(ListenerName, listeners) <==> Lists(listeners, name) {
      if i :| 0 <= i < |listeners| && listeners[i].name == name {
        assert Map(ListenerName, listeners)[i] == name;
      }
    }
  }

  // For a prior status and a spec with unique names, the new names are those of the listeners, each once.
  lemma NamesCorrespond(old_: seq<string>, listeners: seq<Listener>)
    requires Distinct(old_)
    ensures Distinct(NewNames(old_, listeners))
    ensures forall name :: name in NewNames(old_, listeners) <==> Lists(listeners, name)
  {
    FilterDistinct(old_, Listed(listeners));
    FilterMember(old_, Listed(listeners));
    AddedContents(old_, listeners);
    DistinctConcat(Filter(old_, Listed(listeners)), Added(old_, listeners));
  }

  ghost predicate DistinctNames(listeners: seq<Listener>) {
    forall i, j | 0 <= i < j < |listeners| :: listeners[i].name != listeners[j].name
  }

  // Each listener seen so far has its report in the status of its name.
  ghost predicate UpToDate(statuses: seq<Status>, listeners: seq<Listener>, report: Listener -> Report) {
    forall l | l in listeners :: Status(l.name, report(l)) in statuses
  }

  function Active(listeners: seq<Listener>): Status -> bool {
    (s: Status) => Lists(listeners, s.name)
  }

  lemma UpToDateNext(before: seq<Status>, after: seq<Status>, listeners: seq<Listener>, i: nat, report: Listener -> Report)
    requires i < |listeners| && DistinctNames(listeners) && UpToDate(before, listeners[..i], report)
    requires Status(listeners[i].name, report(listeners[i])) in after
    requires forall s | s in before && s.name != listeners[i].name :: s in after
    ensures UpToDate(after, listeners[..i + 1], report)
  {
    forall l | l in listeners[..i + 1] ensures Status(l.name, report(l)) in after {
      var j :| 0 <= j < |listeners[..i + 1]| && listeners[..i + 1][j] == l;
      if j < i {
        assert listeners[..i][j] == l && listeners[j].name != listeners[i].name;
      }
    }
  }

  lemma {:induction false} ActiveNames(statuses: seq<Status>, listeners: seq<Listener>)
    ensures Names(Filter(statuses, Active(listeners))) == Filter(Names(statuses), Listed(listeners))
  {
    if statuses != [] {
      ActiveNames(statuses[1..], listeners);
      if Active(listeners)(statuses[0]) {
        MapConcat(NameOf, [statuses[0]], Filter(statuses[1..], Active(listeners)));
      }
    }
  }

  lemma ActiveNewNames(old_: seq<string>, statuses: seq<Status>, listeners: seq<Listener>)
    requires Names(statuses) == old_ + Added(old_, listeners)
    ensures Names(Filter(statuses, Active(listeners))) == NewNames(old_, listeners)
  {
    var added := Added(old_, listeners);
    AddedContents(old_, listeners);
    Merging.FilterConcat(old_, added, Listed(listeners));
    FilterAll(added, Listed(listeners));
    ActiveNames(statuses, listeners);
  }

  lemma StaysUpToDate(statuses: seq<Status>, listeners: seq<Listener>, report: Listener -> Report)
    requires UpToDate(statuses, listeners, report)
    ensures UpToDate(Filter(statuses, Active(listeners)), listeners, report)
  {
    FilterMember(statuses, Active(listeners));
    forall l | l in listeners ensures Status(l.name, report(l)) in Filter(statuses, Active(listeners)) {
      var i :| 0 <= i < |listeners| && listeners[i] == l;
      assert Lists(listeners, l.name);
      assert Active(listeners)(Status(l.name, report(l)));
    }
  }

  class Gateway {
    const listeners: seq<Listener>
    var statuses: seq<Status>

    // Write the report into the first status of the name, or append one.
    method Upsert(l: Listener, report: Report)
      modifies this
      ensures Names(statuses) == old(Names(statuses)) + if l.name in old(Names(statuses)) then [] else [l.name]
      ensures Status(l.name, report) in statuses
      ensures forall s | s in old(statuses) && s.name != l.name :: s in statuses
    {
      ghost var names := Names(statuses);
      for i := 0 to |statuses|
        invariant statuses == old(statuses)
        invariant forall j | 0 <= j < i :: statuses[j].name != l.name
      {
        if statuses[i].name == l.name {
          statuses := statuses[i := Status(l.name, report)];
          assert names[i] == l.name;
          assert Names(statuses) == names;
          assert statuses[i] == Status(l.name, report);
          forall s | s in old(statuses) && s.name != l.name ensures s in statuses {
            var j :| 0 <= j < |old(statuses)| && old(statuses)[j] == s;
            assert statuses[j] == s;
          }
          return;
        }
      }
      assert l.name !in names;
      MapSnoc(NameOf, statuses, Status(l.name, report));
      statuses := statuses + [Status(l.name, report)];
    }

    method KeepActive()
      modifies this
      ensures statuses == Filter(old(statuses), Active(listeners))
    {
      ghost var active := Active(listeners);
      var before, next := statuses, [];
      for i := 0 to |before|
        invariant next == Filter(before[..i], active)
      {
        assert before[..i + 1] == before[..i] + [before[i]];
        Merging.FilterSnoc(before[..i], before[i], active);
        var j := 0;
        while j < |listeners| && listeners[j].name != before[i].name
          invariant j <= |listeners| && forall k | 0 <= k < j :: listeners[k].name != before[i].name
        {
          j := j + 1;
        }
        if j < |listeners| {
          next := next + [before[i]];
        }
      }
      assert before[..|before|] == before;
      statuses := next;
    }

    // The names that result, for any prior status and spec; with unique listener names also every report.
    method SetListenerStatus(specs: Specs)
      modifies this
      ensures Names(statuses) == NewNames(old(Names(statuses)), listeners)
      ensures DistinctNames(listeners) ==> UpToDate(statuses, listeners, ReportOf(specs))
    {
      ghost var names, added, report := Names(statuses), [], ReportOf(specs);
      for i := 0 to |listeners|
        invariant added == Added(names, listeners[..i]) && Names(statuses) == names + added
        invariant DistinctNames(listeners) ==> UpToDate(statuses, listeners[..i], report)
      {
        AddedNext(names, listeners, i);
        ghost var before := statuses;
        var kinds, conditions := ListenerChecks.CheckListener(specs.gateway, specs.spec(listeners[i]));
        Upsert(listeners[i], Report(kinds, conditions, specs.attached(listeners[i])));
        added := Added(names, listeners[..i + 1]);
        if DistinctNames(listeners) {
          UpToDateNext(before, statuses, listeners, i, report);
        }
      }
      assert listeners[..|listeners|] == listeners;
      ActiveNewNames(names, statuses, listeners);
      if DistinctNames(listeners) {
        StaysUpToDate(statuses, listeners, report);
      }
      KeepActive();
    }
  }
}
