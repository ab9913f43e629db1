/** Hostname patterns as sets of concrete hosts, and when two of them can match the same host. */
module Hostnames {
  import opened Strings

  // ---------- meaning ----------

  function Labels(h: string): seq<string> {
    Split(h, '.')
  }

  // A host name proper: non-empty labels, no wildcard.
  ghost predicate Concrete(h: string) {
    '*' !in h && forall l | l in Labels(h) :: l != ""
  }

  ghost predicate CatchAll(p: string) {
    p == "" || p == "*"
  }

  // "*." followed by a host name.
  ghost predicate Wildcard(p: string) {
    HasPrefix(p, "*.") && Concrete(p[2..])
  }

  ghost predicate Pattern(p: string) {
    CatchAll(p) || Wildcard(p) || Concrete(p)
  }

  // The concrete hosts of a pattern. The star stands for one or more labels.
  ghost predicate Matches(p: string, h: string)
    requires Pattern(p)
  {
    if CatchAll(p) then true
    else if Wildcard(p) then EndsWith(Labels(h), Labels(p[2..])) && |Labels(h)| > |Labels(p[2..])|
    else h == p
  }

  ghost predicate Meet(a: string, b: string)
    requires Pattern(a) && Pattern(b)
  {
    exists h :: Concrete(h) && Matches(a, h) && Matches(b, h)
  }

  lemma ConcreteNotEmpty(h: string)
    requires Concrete(h)
    ensures h != "" && h[0] != '.' && !HasPrefix(h, "*")
  {
    assert Labels(h)[0] in Labels(h);
  }

  // ---------- the code ----------

  // hostnameMatchesWildcardHostname (both copies)
  predicate MatchesWildcardHostname(hostname: string, wildcard: string) {
    var tail := TrimPrefix(wildcard, "*");
    HasSuffix(hostname, tail) && |TrimSuffix(hostname, tail)| > 0
  }

  function Reverse<T>(s: seq<T>): (r: seq<T>)
    ensures |r| == |s| && forall i | 0 <= i < |s| :: r[i] == s[|s| - 1 - i]
  {
    if s == [] then [] else Reverse(s[1..]) + [s[0]]
  }

  // The labels agree up to the first star on either side, and there was at least one.
  predicate AgreeToStar(x: seq<string>, y: seq<string>, matched: nat)
    decreases |x|
  {
    if x == [] || y == [] || x[0] == "*" || y[0] == "*" then matched > 0
    else x[0] == y[0] && AgreeToStar(x[1..], y[1..], matched + 1)
  }

  predicate WildcardsIntersect(a: string, b: string) {
    || a == "*" || b == "*"
    || (&& HasPrefix(a, "*.") && |a| > 2
        && HasPrefix(b, "*.") && |b| > 2
        && AgreeToStar(Reverse(Labels(a)), Reverse(Labels(b)), 0))
  }

  lemma StarLabelFirst(p: string)
    requires HasPrefix(p, "*.")
    ensures Labels(p) == ["*"] + Labels(p[2..])
  {
    assert p == "*" + ['.'] + p[2..];
    SplitAtSeparator("*", '.', p[2..]);
    SplitWithoutSeparator("*", '.');
  }

  method WildcardHostnamesIntersect(routeHostname: string, listenerHostname: string) returns (meet: bool)
    ensures meet == WildcardsIntersect(routeHostname, listenerHostname)
  {
    if routeHostname == "*" || listenerHostname == "*" {
      return true;
    }
    if !HasPrefix(routeHostname, "*.") || |routeHostname| == 2 || !HasPrefix(listenerHostname, "*.") || |listenerHostname| == 2 {
      return false;
    }
    var route, listener := Reverse(Labels(routeHostname)), Reverse(Labels(listenerHostname));
    StarLabelFirst(routeHostname);
    StarLabelFirst(listenerHostname);
    meet := CompareLabels(route, listener);
  }

  // The loop of wildcardHostnamesIntersect. It runs to the longer length, yet never reads past the shorter list:
  // both end in a star, where it stops.
  method CompareLabels(route: seq<string>, listener: seq<string>) returns (meet: bool)
    requires route != [] && listener != [] && route[|route| - 1] == "*" && listener[|listener| - 1] == "*"
    ensures meet == AgreeToStar(route, listener, 0)
  {
    var maxLength := if |route| > |listener| then |route| else |listener|;
    var matchingLabels := 0;
    for i := 0 to maxLength
      invariant i < |route| && i < |listener| && matchingLabels == i
      invariant AgreeToStar(route, listener, 0) == AgreeToStar(route[i..], listener[i..], matchingLabels)
    {
      if route[i] == "*" || listener[i] == "*" {
        break;
      }
      AgreeNext(route, listener, i);
      if route[i] == listener[i] {
        matchingLabels := matchingLabels + 1;
      } else {
        return false;
      }
    }
    return matchingLabels > 0;
  }

  lemma AgreeNext(x: seq<string>, y: seq<string>, i: nat)
    requires i < |x| && i < |y| && x[i] != "*" && y[i] != "*"
    ensures AgreeToStar(x[i..], y[i..], i) == (x[i] == y[i] && AgreeToStar(x[i + 1..], y[i + 1..], i + 1))
  {
    assert x[i..][1..] == x[i + 1..] && y[i..][1..] == y[i + 1..];
  }

  function Normalize(hostname: string): string {
    if hostname == "" then "*" else hostname
  }

  predicate SNIIntersect(first: string, second: string) {
    var (a, b) := (Normalize(first), Normalize(second));
    if a == "*" || b == "*" || a == b then true
    else
      var (aWildcard, bWildcard) := (HasPrefix(a, "*"), HasPrefix(b, "*"));
      if aWildcard && bWildcard then WildcardsIntersect(a, b)
      else if aWildcard then MatchesWildcardHostname(b, a)
      else if bWildcard then MatchesWildcardHostname(a, b)
      else false
  }

  method SNIHostnamesIntersect(first: string, second: string) returns (meet: bool)
    ensures meet == SNIIntersect(first, second)
  {
    var a, b := Normalize(first), Normalize(second);
    if a == "*" || b == "*" || a == b {
      return true;
    }
    var aWildcard, bWildcard := HasPrefix(a, "*"), HasPrefix(b, "*");
    if aWildcard && bWildcard {
      meet := WildcardHostnamesIntersect(a, b);
    } else if aWildcard {
      meet := MatchesWildcardHostname(b, a);
    } else if bWildcard {
      meet := MatchesWildcardHostname(a, b);
    } else {
      meet := false;
    }
  }

  // ---------- symmetry ----------

  lemma {:induction false} AgreeSymmetric(x: seq<string>, y: seq<string>, matched: nat)
    ensures AgreeToStar(x, y, matched) == AgreeToStar(y, x, matched)
    decreases |x|
  {
    if x != [] && y != [] {
      AgreeSymmetric(x[1..], y[1..], matched + 1);
    }
  }

  // For any two strings, well-formed or not.
  lemma SNISymmetric(a: string, b: string)
    ensures SNIIntersect(a, b) == SNIIntersect(b, a)
  {
    AgreeSymmetric(Reverse(Labels(Normalize(a))), Reverse(Labels(Normalize(b))), 0);
  }

  // ---------- exactness ----------

  lemma WildcardTail(w: string)
    requires Wildcard(w)
    ensures TrimPrefix(w, "*") == "." + w[2..] && w == "*" + "." + w[2..]
    ensures !CatchAll(w) && HasPrefix(w, "*") && |w| > 2
  {
    assert w[..2] == "*.";
    assert w == "*." + w[2..] == "*" + "." + w[2..];
    ConcreteNotEmpty(w[2..]);
  }

  // The suffix test of the code is the label test of the meaning.
  lemma WildcardMatchAgrees(h: string, w: string)
    requires Concrete(h) && Wildcard(w)
    ensures MatchesWildcardHostname(h, w) <==> Matches(w, h)
  {
    var c := w[2..];
    WildcardTail(w);
    PartsSuffix(c, h, '.');
    assert ['.'] + c == "." + c;
    if HasSuffix(h, "." + c) {
      SuffixParts(c, h, '.');
      if |h| == |c| + 1 {
        assert h[0] == '.';
        ConcreteNotEmpty(h);
      }
    }
  }

  lemma {:induction false} AgreeIffNested(x: seq<string>, y: seq<string>, matched: nat)
    requires "*" !in x && "*" !in y && (matched > 0 || (x != [] && y != []))
    ensures AgreeToStar(x + ["*"], y + ["*"], matched) <==> x <= y || y <= x
    decreases |x|
  {
    if x != [] && y != [] {
      assert (x + ["*"])[1..] == x[1..] + ["*"] && (y + ["*"])[1..] == y[1..] + ["*"];
      AgreeIffNested(x[1..], y[1..], matched + 1);
      assert x == [x[0]] + x[1..] && y == [y[0]] + y[1..];
    }
  }

  lemma ReverseNested(s: seq<string>, t: seq<string>)
    ensures Reverse(s) <= Reverse(t) <==> EndsWith(t, s)
  {
    if |s| <= |t| {
      var k := |t| - |s|;
      if Reverse(s) <= Reverse(t) {
        forall i | 0 <= i < |s| ensures t[k..][i] == s[i] {
          assert Reverse(s)[|s| - 1 - i] == Reverse(t)[|s| - 1 - i];
        }
      }
      if EndsWith(t, s) {
        forall i | 0 <= i < |s| ensures Reverse(s)[i] == Reverse(t)[i] {
          assert t[k..][|s| - 1 - i] == t[|t| - 1 - i];
        }
      }
    }
  }

  lemma NoStarLabel(h: string)
    requires Concrete(h)
    ensures "*" !in Labels(h) && Labels(h) != []
  {
    LabelCharacters(h, '.');
  }

  lemma {:induction false} LabelCharacters(h: string, sep: char)
    ensures forall l, c | l in Split(h, sep) && c in l :: c in h
  {
    if h != "" {
      LabelCharacters(h[1..], sep);
      var rest := Split(h[1..], sep);
      forall l, c | l in Split(h, sep) && c in l ensures c in h {
        var i :| 0 <= i < |Split(h, sep)| && Split(h, sep)[i] == l;
        if i > 0 {
          assert l in rest by {
            assert l == rest[if h[0] == sep then i - 1 else i];
          }
        } else if h[0] != sep {
          assert l == [h[0]] + rest[0] && rest[0] in rest;
        }
      }
    }
  }

  lemma ReverseStar(s: seq<string>)
    ensures Reverse(["*"] + s) == Reverse(s) + ["*"]
    ensures "*" in Reverse(s) <==> "*" in s
  {
    assert (["*"] + s)[1..] == s;
    if "*" in s {
      var i :| 0 <= i < |s| && s[i] == "*";
      assert Reverse(s)[|s| - 1 - i] == "*";
    }
  }

  // Two wildcards pass the label loop exactly when one's labels end the other's.
  lemma WildcardsIntersectIff(a: string, b: string)
    requires Wildcard(a) && Wildcard(b)
    ensures WildcardsIntersect(a, b)
       <==> EndsWith(Labels(a[2..]), Labels(b[2..])) || EndsWith(Labels(b[2..]), Labels(a[2..]))
  {
    var s, t := Labels(a[2..]), Labels(b[2..]);
    WildcardTail(a);
    WildcardTail(b);
    StarLabelFirst(a);
    StarLabelFirst(b);
    NoStarLabel(a[2..]);
    NoStarLabel(b[2..]);
    ReverseStar(s);
    ReverseStar(t);
    AgreeIffNested(Reverse(s), Reverse(t), 0);
    ReverseNested(s, t);
    ReverseNested(t, s);
  }

  // One more label in front of a host name.
  lemma LongerHost(c: string)
    requires Concrete(c)
    ensures Concrete("a." + c) && Labels("a." + c) == ["a"] + Labels(c)
  {
    assert "a." + c == "a" + ['.'] + c;
    SplitAtSeparator("a", '.', c);
    SplitWithoutSeparator("a", '.');
    assert forall l | l in ["a"] + Labels(c) :: l == "a" || l in Labels(c);
  }

  lemma WildcardsMeetIff(a: string, b: string)
    requires Wildcard(a) && Wildcard(b)
    ensures Meet(a, b) <==> EndsWith(Labels(a[2..]), Labels(b[2..])) || EndsWith(Labels(b[2..]), Labels(a[2..]))
  {
    var s, t := Labels(a[2..]), Labels(b[2..]);
    WildcardTail(a);
    WildcardTail(b);
    if Meet(a, b) {
      var h :| Concrete(h) && Matches(a, h) && Matches(b, h);
      if |s| >= |t| {
        SuffixesNested(Labels(h), s, t);
      } else {
        SuffixesNested(Labels(h), t, s);
      }
    }
    if EndsWith(s, t) {
      CommonHost(a, b);
    } else if EndsWith(t, s) {
      CommonHost(b, a);
    }
  }

  lemma SuffixesNested(all: seq<string>, s: seq<string>, t: seq<string>)
    requires EndsWith(all, s) && EndsWith(all, t) && |s| >= |t|
    ensures EndsWith(s, t)
  {
    assert s[|s| - |t|..] == all[|all| - |s|..][|s| - |t|..] == all[|all| - |t|..];
  }

  lemma CommonHost(a: string, b: string)
    requires Wildcard(a) && Wildcard(b) && EndsWith(Labels(a[2..]), Labels(b[2..]))
    ensures Meet(a, b)
  {
    var h := "a." + a[2..];
    LongerHost(a[2..]);
    WildcardTail(a);
    WildcardTail(b);
    var s, t := Labels(a[2..]), Labels(b[2..]);
    assert Labels(h)[|Labels(h)| - |s|..] == s;
    assert Labels(h)[|Labels(h)| - |t|..] == s[|s| - |t|..];
    assert Matches(a, h) && Matches(b, h);
  }

  lemma HostExists(p: string) returns (h: string)
    requires Pattern(p)
    ensures Concrete(h) && Matches(p, h)
  {
    if CatchAll(p) {
      h := "a";
      SplitWithoutSeparator("a", '.');
    } else if Wildcard(p) {
      h := "a." + p[2..];
      LongerHost(p[2..]);
      WildcardTail(p);
    } else {
      h := p;
    }
  }

  // SNIHostnamesIntersect answers whether some concrete host matches both patterns.
  lemma SNIExact(a: string, b: string)
    requires Pattern(a) && Pattern(b)
    ensures SNIIntersect(a, b) <==> Meet(a, b)
  {
    if CatchAll(a) {
      var h := HostExists(b);
    } else if CatchAll(b) {
      var h := HostExists(a);
    } else if a == b {
      var h := HostExists(a);
    } else if Wildcard(a) && Wildcard(b) {
      WildcardTail(a);
      WildcardTail(b);
      WildcardsIntersectIff(a, b);
      WildcardsMeetIff(a, b);
    } else if Wildcard(a) {
      WildcardTail(a);
      ConcreteNotEmpty(b);
      WildcardMatchAgrees(b, a);
      assert Matches(b, b);
    } else if Wildcard(b) {
      WildcardTail(b);
      ConcreteNotEmpty(a);
      WildcardMatchAgrees(a, b);
      assert Matches(a, a);
    } else {
      ConcreteNotEmpty(a);
      ConcreteNotEmpty(b);
    }
  }
}
