/** Intersecting a route's hostnames with a listener's. */
module ComputeHosts {
  import opened Wrappers
  import opened Strings
  import opened Sorting
  import opened Hostnames

  // What one route hostname contributes. The listener's wildcard is tried before the route's.
  function Kept(listener: string): string -> seq<string> {
    route =>
      if listener == "" then [route]
      else if listener == route then [route]
      else if HasPrefix(listener, "*") then
        if MatchesWildcardHostname(route, listener) then [route] else []
      else if HasPrefix(route, "*") then
        if MatchesWildcardHostname(listener, route) then [listener] else []
      else []
  }

  function HostsFor(routes: seq<string>, listener: string): seq<string> {
    if routes == [] then [if listener == "" then "*" else listener]
    else StableSort(FlatMap(Kept(listener), routes), Less)
  }

  // model.ComputeHosts
  method Compute(routeHostnames: seq<string>, listenerHostname: Option<string>) returns (hostnames: seq<string>)
    ensures hostnames == HostsFor(routeHostnames, if listenerHostname.Some? then listenerHostname.value else "")
  {
    var listener := if listenerHostname.Some? then listenerHostname.value else "";
    if |routeHostnames| == 0 {
      if |listener| > 0 {
        return [listener];
      }
      return ["*"];
    }
    hostnames := [];
    for i := 0 to |routeHostnames|
      invariant hostnames == FlatMap(Kept(listener), routeHostnames[..i])
    {
      var route := routeHostnames[i];
      FlatMapSnoc(Kept(listener), routeHostnames, i);
      if |listener| == 0 {
        hostnames := hostnames + [route];
      } else if listener == route {
        hostnames := hostnames + [route];
      } else if HasPrefix(listener, "*") {
        if MatchesWildcardHostname(route, listener) {
          hostnames := hostnames + [route];
        }
      } else if HasPrefix(route, "*") {
        if MatchesWildcardHostname(listener, route) {
          hostnames := hostnames + [listener];
        }
      }
    }
    assert routeHostnames[..|routeHostnames|] == routeHostnames;
    hostnames := StableSort(hostnames, Less);
  }

  // ---------- order and repetition ----------

  lemma OrderInsensitive(a: seq<string>, b: seq<string>, listener: string)
    requires multiset(a) == multiset(b)
    ensures HostsFor(a, listener) == HostsFor(b, listener)
  {
    assert |multiset(a)| == |a| && |multiset(b)| == |b|;
    FlatMapMultiset(Kept(listener), a, b);
    StringOrder();
    SortCanonical(FlatMap(Kept(listener), a), FlatMap(Kept(listener), b), Less);
  }

  lemma KeptAgain(listener: string, route: string)
    ensures forall k | k in Kept(listener)(route) :: Kept(listener)(k) == [k]
  {
  }

  lemma {:induction false} FlatMapIdentity(f: string -> seq<string>, s: seq<string>)
    requires forall x | x in s :: f(x) == [x]
    ensures FlatMap(f, s) == s
  {
    if s != [] {
      var front, last := s[..|s| - 1], s[|s| - 1];
      assert s == front + [last] && last in s;
      FlatMapIdentity(f, front);
    }
  }

  // Once computed, hosts are stable: intersecting them with the same listener again changes nothing.
  lemma Idempotent(routes: seq<string>, listener: string)
    requires HostsFor(routes, listener) != []
    ensures HostsFor(HostsFor(routes, listener), listener) == HostsFor(routes, listener)
  {
    var hosts := HostsFor(routes, listener);
    if routes == [] {
      assert Kept(listener)(hosts[0]) == [hosts[0]];
      FlatMapIdentity(Kept(listener), hosts);
      assert hosts[1..] == [] && StableSort(hosts[1..], Less) == [];
    } else {
      var kept := FlatMap(Kept(listener), routes);
      SortMember(kept, Less);
      forall k | k in hosts ensures Kept(listener)(k) == [k] {
        FlatMapMember(Kept(listener), routes, k);
        var r :| r in routes && k in Kept(listener)(r);
        KeptAgain(listener, r);
      }
      FlatMapIdentity(Kept(listener), hosts);
      StringOrder();
      SortContents(kept, Less);
      SortCanonical(hosts, kept, Less);
    }
  }

  // ---------- meaning ----------

  // A wildcard listener loses a route hostname that is strictly wider than its own.
  ghost predicate Lost(listener: string, route: string) {
    && Wildcard(listener) && listener != route
    && (route == "*" || (Wildcard(route) && EndsWith(Labels(listener[2..]), Labels(route[2..]))))
  }

  // Route hostnames are never empty.
  ghost predicate RoutePattern(p: string) {
    Pattern(p) && p != ""
  }

  lemma WildcardInWildcard(route: string, listener: string)
    requires Wildcard(route) && Wildcard(listener) && route != listener
    ensures MatchesWildcardHostname(route, listener) <==> EndsWith(Labels(route[2..]), Labels(listener[2..]))
  {
    var r, l := route[2..], listener[2..];
    WildcardTail(route);
    WildcardTail(listener);
    PartsSuffix(l, r, '.');
    assert ['.'] + l == "." + l;
    assert route == "*" + ("." + r);
    if HasSuffix(r, "." + l) {
      assert route[|route| - |l| - 1..] == r[|r| - |l| - 1..];
    }
    if HasSuffix(route, "." + l) {
      TailOfWildcard(r, l);
    }
  }

  lemma TailOfWildcard(r: string, l: string)
    requires HasSuffix("*" + ("." + r), "." + l)
    ensures r == l || HasSuffix(r, "." + l)
  {
    var route := "*" + ("." + r);
    var k := |route| - |l| - 1;
    assert |l| <= |r|;
    assert r[|r| - |l|..] == route[k..][1..] == ("." + l)[1..] == l;
    if |l| < |r| {
      assert route[k..] == r[k - 2..];
    }
  }

  // Whatever is kept for a route hostname denotes the hosts it shares with the listener.
  lemma KeptIsIntersection(listener: string, route: string, k: string, h: string)
    requires Pattern(listener) && RoutePattern(route) && k in Kept(listener)(route) && Concrete(h)
    ensures Pattern(k) && (Matches(k, h) <==> Matches(listener, h) && Matches(route, h))
  {
    if listener == "" || listener == route || listener == "*" {
    } else if Wildcard(listener) {
      WildcardTail(listener);
      if Wildcard(route) {
        WildcardTail(route);
        WildcardInWildcard(route, listener);
        if Matches(route, h) {
          NestedSuffix(Labels(h), Labels(route[2..]), Labels(listener[2..]));
        }
      } else if route != "*" {
        WildcardMatchAgrees(route, listener);
      }
    } else {
      ConcreteNotEmpty(listener);
      if Wildcard(route) {
        WildcardTail(route);
        WildcardMatchAgrees(listener, route);
      } else if route != "*" {
        ConcreteNotEmpty(route);
      }
    }
  }

  lemma NestedSuffix(all: seq<string>, s: seq<string>, t: seq<string>)
    requires EndsWith(all, s) && EndsWith(s, t)
    ensures EndsWith(all, t)
  {
    assert all[|all| - |t|..] == all[|all| - |s|..][|s| - |t|..];
  }

  // Nothing is kept only if there is nothing to share, or the route hostname is lost.
  lemma DroppedMeans(listener: string, route: string)
    requires Pattern(listener) && RoutePattern(route) && Kept(listener)(route) == []
    ensures !Meet(listener, route) || Lost(listener, route)
  {
    if Meet(listener, route) {
      if listener == "*" {
        assert TrimPrefix(listener, "*") == "" && TrimSuffix(route, "") == route;
      } else if Wildcard(listener) {
        WildcardTail(listener);
        if Wildcard(route) {
          WildcardTail(route);
          WildcardInWildcard(route, listener);
          WildcardsMeetIff(listener, route);
        } else if route != "*" {
          WildcardMatchAgrees(route, listener);
        }
      } else {
        ConcreteNotEmpty(listener);
        if Wildcard(route) {
          WildcardTail(route);
          WildcardMatchAgrees(listener, route);
        }
      }
    }
  }

  ghost predicate InSome(patterns: seq<string>, h: string) {
    exists p :: p in patterns && Pattern(p) && Matches(p, h)
  }

  // A route without hostnames is for every host.
  ghost predicate RouteMatches(routes: seq<string>, h: string) {
    routes == [] || InSome(routes, h)
  }

  // It takes all the hosts of the listener.
  lemma NoHostnames(listener: string, h: string)
    requires Pattern(listener) && Concrete(h)
    ensures InSome(HostsFor([], listener), h) <==> Matches(listener, h)
  {
    var only := if listener == "" then "*" else listener;
    assert only in HostsFor([], listener) && HostsFor([], listener) == [only];
  }

  lemma ResultOrigin(routes: seq<string>, listener: string, k: string)
    requires routes != []
    ensures k in HostsFor(routes, listener) <==> exists r :: r in routes && k in Kept(listener)(r)
  {
    SortMember(FlatMap(Kept(listener), routes), Less);
    FlatMapMember(Kept(listener), routes, k);
  }

  // Every computed host is a host of the listener and of some route hostname.
  lemma NothingAdded(routes: seq<string>, listener: string, h: string)
    requires Pattern(listener) && (forall r | r in routes :: RoutePattern(r))
    requires Concrete(h) && InSome(HostsFor(routes, listener), h)
    ensures Matches(listener, h) && RouteMatches(routes, h)
  {
    if routes == [] {
      NoHostnames(listener, h);
      return;
    }
    var k :| k in HostsFor(routes, listener) && Pattern(k) && Matches(k, h);
    ResultOrigin(routes, listener, k);
    var r :| r in routes && k in Kept(listener)(r);
    KeptIsIntersection(listener, r, k, h);
  }

  // No host that listener and routes share is missing from the result.
  ghost predicate Complete(routes: seq<string>, listener: string)
    requires Pattern(listener)
  {
    forall h :: Concrete(h) && Matches(listener, h) && RouteMatches(routes, h) ==> InSome(HostsFor(routes, listener), h)
  }

  lemma KeptCovers(routes: seq<string>, listener: string, r: string, h: string)
    requires Pattern(listener) && r in routes && RoutePattern(r) && !Lost(listener, r)
    requires Concrete(h) && Matches(listener, h) && Matches(r, h)
    ensures InSome(HostsFor(routes, listener), h)
  {
    if Kept(listener)(r) == [] {
      DroppedMeans(listener, r);
    }
    var k := Kept(listener)(r)[0];
    KeptIsIntersection(listener, r, k, h);
    ResultOrigin(routes, listener, k);
  }

  function LongestOf(routes: seq<string>): nat {
    if routes == [] then 0
    else var rest := LongestOf(routes[1..]); if |routes[0]| > rest then |routes[0]| else rest
  }

  lemma {:induction false} LongestIsLongest(routes: seq<string>)
    ensures forall r | r in routes :: |r| <= LongestOf(routes)
  {
    if routes != [] {
      LongestIsLongest(routes[1..]);
    }
  }

  // A host of the wildcard with one label in front that is longer than n.
  lemma FreshHost(listener: string, n: nat) returns (h: string)
    requires Wildcard(listener)
    ensures Concrete(h) && |h| > n && |Labels(h)| == |Labels(listener[2..])| + 1 && Labels(h)[1..] == Labels(listener[2..])
  {
    var front := seq(n + 1, i => 'a');
    assert front[0] == 'a';
    h := front + ['.'] + listener[2..];
    SplitAtSeparator(front, '.', listener[2..]);
    SplitWithoutSeparator(front, '.');
    assert Labels(h) == [front] + Labels(listener[2..]);
  }

  // If a route hostname is lost and the listener's own name is not among the routes, some shared host is missing.
  lemma LostHost(routes: seq<string>, listener: string, lost: string)
    requires Pattern(listener) && (forall r | r in routes :: RoutePattern(r))
    requires lost in routes && Lost(listener, lost) && listener !in routes
    ensures !Complete(routes, listener)
  {
    var h := FreshHost(listener, LongestOf(routes));
    SharedByLost(listener, lost, h);
    assert InSome(routes, h);
    if InSome(HostsFor(routes, listener), h) {
      var k :| k in HostsFor(routes, listener) && Pattern(k) && Matches(k, h);
      ResultOrigin(routes, listener, k);
      var r :| r in routes && k in Kept(listener)(r);
      LongestIsLongest(routes);
      NotKept(listener, r, h);
    }
  }

  // A host with one label more than the listener's name is also a host of the lost route hostname.
  lemma SharedByLost(listener: string, lost: string, h: string)
    requires Pattern(listener) && RoutePattern(lost) && Lost(listener, lost) && Wildcard(listener) && Concrete(h)
    requires |Labels(h)| == |Labels(listener[2..])| + 1 && EndsWith(Labels(h), Labels(listener[2..]))
    ensures Matches(listener, h) && Matches(lost, h)
  {
    WildcardTail(listener);
    if lost != "*" {
      WildcardTail(lost);
      NestedSuffix(Labels(h), Labels(listener[2..]), Labels(lost[2..]));
    }
  }

  // A wildcard listener keeps no route hostname but its own that matches such a host.
  lemma NotKept(listener: string, r: string, h: string)
    requires Wildcard(listener) && RoutePattern(r) && r != listener && Concrete(h) && |h| > |r|
    requires |Labels(h)| == |Labels(listener[2..])| + 1 && Kept(listener)(r) != []
    ensures !Matches(r, h) && Kept(listener)(r) == [r]
  {
    WildcardTail(listener);
    if Wildcard(r) {
      WildcardTail(r);
      WildcardInWildcard(r, listener);
      if |Labels(r[2..])| == |Labels(listener[2..])| {
        SplitInjective(r[2..], listener[2..], '.');
      }
    }
  }

  // The result is complete exactly when no route hostname is lost, or the listener's own name is among them.
  lemma CompleteIff(routes: seq<string>, listener: string)
    requires Pattern(listener) && forall r | r in routes :: RoutePattern(r)
    ensures Complete(routes, listener) <==> (forall r | r in routes :: !Lost(listener, r)) || listener in routes
  {
    if routes == [] {
      forall h | Concrete(h) && Matches(listener, h) ensures InSome(HostsFor(routes, listener), h) {
        NoHostnames(listener, h);
      }
    } else if listener in routes {
      forall h | Concrete(h) && Matches(listener, h) ensures InSome(HostsFor(routes, listener), h) {
        KeptCovers(routes, listener, listener, h);
      }
    } else if exists r :: r in routes && Lost(listener, r) {
      var lost :| lost in routes && Lost(listener, lost);
      LostHost(routes, listener, lost);
    } else {
      forall h | Concrete(h) && Matches(listener, h) && RouteMatches(routes, h) ensures InSome(HostsFor(routes, listener), h) {
        var r :| r in routes && Pattern(r) && Matches(r, h);
        KeptCovers(routes, listener, r, h);
      }
    }
  }

  // A wildcard route above a wildcard listener: every host of the listener is shared and none is kept.
  lemma WiderRouteLost(listener: string, route: string)
    requires Wildcard(listener) && Wildcard(route) && listener != route
    requires EndsWith(Labels(listener[2..]), Labels(route[2..]))
    ensures HostsFor([route], listener) == [] && Meet(listener, route)
  {
    CommonHost(listener, route);
    WiderNotKept(listener, route);
    FlatMapSnoc(Kept(listener), [route], 0);
    assert [route][..0] == [] && [route][..1] == [route];
  }

  lemma WiderNotKept(listener: string, route: string)
    requires Wildcard(listener) && Wildcard(route) && listener != route
    requires EndsWith(Labels(listener[2..]), Labels(route[2..]))
    ensures Kept(listener)(route) == []
  {
    WildcardInWildcard(route, listener);
    assert listener == "*." + listener[2..] && route == "*." + route[2..];
    if EndsWith(Labels(route[2..]), Labels(listener[2..])) {
      SplitInjective(listener[2..], route[2..], '.');
    }
  }

  // The listener *.b.c with the route hostname *.c is such a pair.
  lemma WiderRouteExample()
    ensures HostsFor(["*.c"], "*.b.c") == [] && Wildcard("*.b.c") && Wildcard("*.c") && Meet("*.b.c", "*.c")
  {
    SplitWithoutSeparator("b", '.');
    SplitWithoutSeparator("c", '.');
    SplitAtSeparator("b", '.', "c");
    assert "b" + ['.'] + "c" == "b.c" && "*.b.c"[2..] == "b.c" && "*.c"[2..] == "c";
    WiderRouteLost("*.b.c", "*.c");
  }
}
