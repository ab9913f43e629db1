/** Which listeners a route is attached to, and which ones its parent references mean. */
module RouteAttachment {
  import opened Wrappers
  import opened Model
  import opened GatewayObjects
  import opened HTTPIngestion
  import TLSIngestion

  // The reference means the Gateway or ListenerSet.
  predicate PointsTo(ref: ParentReference, namespace: string, source: Resource) {
    && (if source.kind == "Gateway" then IsGateway(ref) else IsListenerSet(ref))
    && NamespaceOr(ref.namespace, namespace) == source.namespace && ref.name == source.name
  }

  function Pointing(namespace: string, source: Resource): ParentReference -> bool {
    ref => PointsTo(ref, namespace, source)
  }

  predicate Covers(ref: ParentReference, listener: string) {
    ref.sectionName.None? || ref.sectionName.value == listener
  }

  // Some of the references that count covers the listener.
  ghost predicate Reaches(refs: seq<ParentReference>, counts: ParentReference -> bool, listener: string) {
    exists ref :: ref in refs && counts(ref) && Covers(ref, listener)
  }

  // A reference that counts covers everything this one covers.
  ghost predicate Backed(refs: seq<ParentReference>, counts: ParentReference -> bool, ref: ParentReference) {
    exists q :: q in refs && counts(q) && (q.sectionName.None? || q.sectionName == ref.sectionName)
  }

  // ---------- a name that no reference gives ----------

  function LongestSection(refs: seq<ParentReference>): nat {
    if refs == [] then 0
    else
      var rest, n := LongestSection(refs[1..]), if refs[0].sectionName.Some? then |refs[0].sectionName.value| else 0;
      if n > rest then n else rest
  }

  lemma {:induction false} SectionsShorter(refs: seq<ParentReference>)
    ensures forall ref | ref in refs && ref.sectionName.Some? :: |ref.sectionName.value| <= LongestSection(refs)
  {
    if refs != [] {
      SectionsShorter(refs[1..]);
      assert refs == [refs[0]] + refs[1..];
    }
  }

  function Fresh(refs: seq<ParentReference>): string {
    seq(LongestSection(refs) + 1, _ => 'x')
  }

  lemma OnlyWhole(refs: seq<ParentReference>, ref: ParentReference)
    requires ref in refs && Covers(ref, Fresh(refs))
    ensures ref.sectionName.None?
  {
    SectionsShorter(refs);
  }

  // ---------- when attachment is right ----------

  // Counting more references than are meant attaches to no other listener if and only if each of them is backed by one
  // that is meant.
  lemma CountedRightIff(refs: seq<ParentReference>, counted: ParentReference -> bool, meant: ParentReference -> bool)
    requires forall ref :: meant(ref) ==> counted(ref)
    ensures (forall listener :: Reaches(refs, counted, listener) <==> Reaches(refs, meant, listener))
       <==> forall ref | ref in refs && counted(ref) :: Backed(refs, meant, ref)
  {
    if forall listener :: Reaches(refs, counted, listener) <==> Reaches(refs, meant, listener) {
      forall ref | ref in refs && counted(ref) ensures Backed(refs, meant, ref) {
        var listener := if ref.sectionName.Some? then ref.sectionName.value else Fresh(refs);
        assert Reaches(refs, counted, listener);
        var q :| q in refs && meant(q) && Covers(q, listener);
        if ref.sectionName.None? {
          OnlyWhole(refs, q);
        }
      }
    }
    if forall ref | ref in refs && counted(ref) :: Backed(refs, meant, ref) {
      forall listener ensures Reaches(refs, counted, listener) <==> Reaches(refs, meant, listener) {
        if ref :| ref in refs && counted(ref) && Covers(ref, listener) {
          var q :| q in refs && meant(q) && (q.sectionName.None? || q.sectionName == ref.sectionName);
          assert Covers(q, listener);
        }
        if ref :| ref in refs && meant(ref) && Covers(ref, listener) {
          assert counted(ref);
        }
      }
    }
  }

  // What the code counts of an HTTPRoute's references, for a listener of a Gateway: those to any Gateway.
  predicate ToSomeGateway(ref: ParentReference) {
    IsGateway(ref) || (ref.kind.None? && ref.group.None?)
  }

  predicate Any(ref: ParentReference) {
    true
  }

  ghost predicate Meant(refs: seq<ParentReference>, namespace: string, source: Resource, l: Listener) {
    Reaches(refs, Pointing(namespace, source), l.name)
  }

  // The listener of a name, whose host and port do not matter here.
  function Named(name: string): Listener {
    Listener(name, None, 0)
  }

  // For a Gateway, an HTTPRoute is attached to just the listeners it means if and only if every reference to another
  // Gateway is backed by one to this Gateway.
  lemma HTTPAttachmentRightIff(r: RouteObject<HTTPMatch>, source: Resource)
    requires source.kind == "Gateway"
    ensures (forall l :: HTTPAttached(r, l, source) <==> Meant(r.parentRefs, r.namespace, source, l))
       <==> forall ref | ref in r.parentRefs && IsGateway(ref) :: Backed(r.parentRefs, Pointing(r.namespace, source), ref)
  {
    var meant := Pointing(r.namespace, source);
    CountedRightIff(r.parentRefs, ToSomeGateway, meant);
    forall l ensures HTTPAttached(r, l, source) <==> Reaches(r.parentRefs, ToSomeGateway, l.name) {
      if ref :| ref in r.parentRefs && RefersTo(ref, r.namespace, l, source) {
        assert ToSomeGateway(ref) && Covers(ref, l.name);
      }
      if ref :| ref in r.parentRefs && ToSomeGateway(ref) && Covers(ref, l.name) {
        assert RefersTo(ref, r.namespace, l, source);
      }
    }
    forall name ensures Named(name).name == name {}
    if forall l :: HTTPAttached(r, l, source) <==> Meant(r.parentRefs, r.namespace, source, l) {
      forall name ensures Reaches(r.parentRefs, ToSomeGateway, name) <==> Reaches(r.parentRefs, meant, name) {
        assert HTTPAttached(r, Named(name), source) <==> Meant(r.parentRefs, r.namespace, source, Named(name));
      }
    }
  }

  // For a ListenerSet it always is.
  lemma SetAttachmentRight(r: RouteObject<HTTPMatch>, source: Resource, l: Listener)
    requires source.kind != "Gateway"
    ensures HTTPAttached(r, l, source) <==> Meant(r.parentRefs, r.namespace, source, l)
  {
    var meant := Pointing(r.namespace, source);
    if ref :| ref in r.parentRefs && RefersTo(ref, r.namespace, l, source) {
      assert meant(ref) && Covers(ref, l.name);
    }
    if ref :| ref in r.parentRefs && meant(ref) && Covers(ref, l.name) {
      assert RefersTo(ref, r.namespace, l, source);
    }
  }

  // Of the references of GRPCRoutes and TLSRoutes only the section is looked at.
  lemma OtherAttachmentRightIff(refs: seq<ParentReference>, namespace: string, source: Resource)
    ensures (forall l :: TLSIngestion.Attached(refs, l) <==> Meant(refs, namespace, source, l))
       <==> forall ref | ref in refs :: Backed(refs, Pointing(namespace, source), ref)
  {
    var meant := Pointing(namespace, source);
    CountedRightIff(refs, Any, meant);
    forall l ensures TLSIngestion.Attached(refs, l) <==> Reaches(refs, Any, l.name) {
      if ref :| ref in refs && (ref.sectionName.None? || ref.sectionName.value == l.name) {
        assert Any(ref) && Covers(ref, l.name);
      }
    }
    if forall l :: TLSIngestion.Attached(refs, l) <==> Meant(refs, namespace, source, l) {
      forall name ensures Reaches(refs, Any, name) <==> Reaches(refs, meant, name) {
        assert TLSIngestion.Attached(refs, Named(name)) <==> Meant(refs, namespace, source, Named(name));
      }
    }
  }

  // A route that refers to one listener of Gateway a and to all of Gateway b is attached to the other listeners of a.
  lemma ForeignSectionless(rules: seq<Rule<HTTPMatch>>, l: Listener)
    requires l.name != "web"
    ensures var refs := [ParentReference(None, None, None, "a", Some("web"), None), ParentReference(None, None, None, "b", None, None)];
      var source := Resource("a", "ns", GATEWAY_GROUP, "v1", "Gateway", "");
      HTTPAttached(RouteObject("ns", refs, [], rules), l, source) && !Meant(refs, "ns", source, l)
  {
    var refs := [ParentReference(None, None, None, "a", Some("web"), None), ParentReference(None, None, None, "b", None, None)];
    var source := Resource("a", "ns", GATEWAY_GROUP, "v1", "Gateway", "");
    assert refs[1] in refs && RefersTo(refs[1], "ns", l, source);
    assert "a"[0] != "b"[0];
  }
}
