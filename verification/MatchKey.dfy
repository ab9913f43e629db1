/** The printed match key by which routes are merged: canonical, and injective on ordinary routes. */
module MatchKey {
  import opened Wrappers
  import opened Model
  import opened Sorting
  import Strings

  function StringMatchText(m: StringMatch): string {
    if m.prefix != "" then "prefix:" + m.prefix
    else if m.exact != "" then "exact:" + m.exact
    else if m.regex != "" then "regex:" + m.regex
    else ""
  }

  function KeyValueText(kv: KeyValueMatch): string {
    "kv:" + kv.key + ":" + StringMatchText(kv.value)
  }

  predicate KeyValueLess(a: KeyValueMatch, b: KeyValueMatch) {
    Strings.Less(KeyValueText(a), KeyValueText(b))
  }

  // Each segment followed by a bar.
  function Terminated(segments: seq<string>): string {
    if segments == [] then "" else segments[0] + "|" + Terminated(segments[1..])
  }

  function Tagged(tag: string, texts: seq<string>): seq<string> {
    Map(t => tag + t, texts)
  }

  function SortedTexts(kvs: seq<KeyValueMatch>): seq<string> {
    StableSort(Map(KeyValueText, kvs), Strings.Less)
  }

  function Segments(r: HTTPRoute): seq<string> {
    (if r.verb.Some? then ["method:" + r.verb.value] else [])
    + ["path:" + StringMatchText(r.pathMatch)]
    + Tagged("header:", SortedTexts(r.headersMatch))
    + Tagged("query:", SortedTexts(r.queryParamsMatch))
  }

  function Key(r: HTTPRoute): string {
    Terminated(Segments(r))
  }

  // A route of which only the match is of interest.
  function MatchOnly(verb: Option<string>, pathMatch: StringMatch, headers: seq<KeyValueMatch>, queries: seq<KeyValueMatch>): HTTPRoute {
    HTTPRoute([], pathMatch, headers, queries, verb, [], None, None, None, [], Timeout(None, None))
  }

  // The same match: equal up to the order of the header and query matchers.
  ghost predicate SameMatch(a: HTTPRoute, b: HTTPRoute) {
    && a.verb == b.verb
    && a.pathMatch == b.pathMatch
    && multiset(a.headersMatch) == multiset(b.headersMatch)
    && multiset(a.queryParamsMatch) == multiset(b.queryParamsMatch)
  }

  // At most one of the three texts is set.
  predicate SingleKind(m: StringMatch) {
    (m.prefix == "" || m.exact == "") && (m.prefix == "" || m.regex == "") && (m.exact == "" || m.regex == "")
  }

  predicate OneKind(r: HTTPRoute) {
    && SingleKind(r.pathMatch)
    && (forall kv | kv in r.headersMatch :: SingleKind(kv.value))
    && (forall kv | kv in r.queryParamsMatch :: SingleKind(kv.value))
  }

  // Among these routes, different matches have different keys.
  ghost predicate KeysExact(routes: seq<HTTPRoute>) {
    forall a, b | a in routes && b in routes && Key(a) == Key(b) :: SameMatch(a, b)
  }

  // The tags with which every segment but a method starts.
  predicate StartsTag(s: string) {
    Strings.HasPrefix(s, "path:") || Strings.HasPrefix(s, "header:") || Strings.HasPrefix(s, "query:")
  }

  // No bar is followed by a tag, so the text cannot be taken for two segments.
  predicate Unbroken(s: string) {
    forall i | 0 <= i < |s| :: s[i] == '|' ==> !StartsTag(s[i + 1..])
  }

  // Header names are tokens (section 5.1 of RFC 9110), so they hold no colon.
  predicate Legible(kv: KeyValueMatch) {
    SingleKind(kv.value) && ':' !in kv.key
  }

  predicate CleanKeyValue(kv: KeyValueMatch) {
    Legible(kv) && Unbroken(KeyValueText(kv))
  }

  predicate Clean(r: HTTPRoute) {
    && (r.verb.Some? ==> Unbroken(r.verb.value))
    && SingleKind(r.pathMatch) && Unbroken(StringMatchText(r.pathMatch))
    && (forall kv | kv in r.headersMatch :: CleanKeyValue(kv))
    && (forall kv | kv in r.queryParamsMatch :: CleanKeyValue(kv))
  }

  lemma {:induction false} TerminatedConcat(a: seq<string>, b: seq<string>)
    ensures Terminated(a + b) == Terminated(a) + Terminated(b)
  {
    if a == [] {
      assert a + b == b;
    } else {
      assert (a + b)[1..] == a[1..] + b;
      TerminatedConcat(a[1..], b);
    }
  }

  // A first segment ends at the first bar that a tag or nothing follows.
  lemma FirstSegmentNotLonger(x: string, a: seq<string>, y: string, b: seq<string>)
    requires x + "|" + Terminated(a) == y + "|" + Terminated(b)
    requires Unbroken(y) && forall s | s in a :: StartsTag(s)
    ensures |y| <= |x|
  {
    var text := x + "|" + Terminated(a);
    if |x| < |y| {
      assert y[|x|] == text[|x|] == '|';
      assert text[|x| + 1..] == Terminated(a) == y[|x| + 1..] + "|" + Terminated(b);
      if a != [] {
        assert a[0] in a && Terminated(a) == a[0] + ("|" + Terminated(a[1..]));
        TagInside(a[0], "|" + Terminated(a[1..]), y[|x| + 1..], "|" + Terminated(b));
      }
    }
  }

  // A tag has no bar, so it lies on one side of one.
  lemma TagInside(s: string, rest: string, y: string, after: string)
    requires StartsTag(s) && s + rest == y + after && after != "" && after[0] == '|'
    ensures StartsTag(y)
  {
    var text := s + rest;
    assert text[|y|] == '|';
    assert forall i | 0 <= i < |y| :: text[i] == y[i];
    assert forall i | 0 <= i < |s| :: text[i] == s[i];
    assert '|' !in "path:" && '|' !in "header:" && '|' !in "query:";
    TagShort(s, y, "path:");
    TagShort(s, y, "header:");
    TagShort(s, y, "query:");
  }

  lemma TagShort(s: string, y: string, tag: string)
    requires '|' !in tag && forall i | 0 <= i < |s| && i < |y| :: s[i] == y[i]
    requires |y| < |s| ==> s[|y|] == '|'
    ensures Strings.HasPrefix(s, tag) ==> Strings.HasPrefix(y, tag)
  {
    if Strings.HasPrefix(s, tag) {
      assert forall i | 0 <= i < |tag| :: s[i] == tag[i] != '|';
    }
  }

  // Where segments are unbroken and all but the first start with a tag, the text determines them.
  lemma {:induction false} TerminatedInjective(a: seq<string>, b: seq<string>)
    requires (forall s | s in a :: Unbroken(s)) && (forall s | s in b :: Unbroken(s))
    requires forall i | 1 <= i < |a| :: StartsTag(a[i])
    requires forall i | 1 <= i < |b| :: StartsTag(b[i])
    requires Terminated(a) == Terminated(b)
    ensures a == b
  {
    if a != [] && b != [] {
      var x, y := a[0], b[0];
      assert x in a && y in b;
      assert forall s | s in a[1..] :: s in a && StartsTag(s);
      assert forall s | s in b[1..] :: s in b && StartsTag(s);
      FirstSegmentNotLonger(x, a[1..], y, b[1..]);
      FirstSegmentNotLonger(y, b[1..], x, a[1..]);
      assert x + ("|" + Terminated(a[1..])) == Terminated(a) && y + ("|" + Terminated(b[1..])) == Terminated(b);
      SameSplit(x, "|" + Terminated(a[1..]), y, "|" + Terminated(b[1..]));
      DropPrefix("|", Terminated(a[1..]), Terminated(b[1..]));
      TerminatedInjective(a[1..], b[1..]);
      assert a == [x] + a[1..] && b == [y] + b[1..];
    }
  }

  lemma DropPrefix(p: string, a: string, b: string)
    requires p + a == p + b
    ensures a == b
  {
    assert a == (p + a)[|p|..] && b == (p + b)[|p|..];
  }

  lemma StringMatchTextInjective(a: StringMatch, b: StringMatch)
    requires SingleKind(a) && SingleKind(b) && StringMatchText(a) == StringMatchText(b)
    ensures a == b
  {
    var t := StringMatchText(a);
    assert (a.prefix != "") == (t != [] && t[0] == 'p') == (b.prefix != "");
    assert (a.exact != "") == (t != [] && t[0] == 'e') == (b.exact != "");
    assert (a.regex != "") == (t != [] && t[0] == 'r') == (b.regex != "");
    if a.prefix != "" {
      DropPrefix("prefix:", a.prefix, b.prefix);
    } else if a.exact != "" {
      DropPrefix("exact:", a.exact, b.exact);
    } else if a.regex != "" {
      DropPrefix("regex:", a.regex, b.regex);
    }
  }

  lemma KeyValueTextParts(kv: KeyValueMatch)
    ensures KeyValueText(kv) == "kv:" + (kv.key + ":" + StringMatchText(kv.value))
  {
  }

  lemma KeyValueTextInjective(a: KeyValueMatch, b: KeyValueMatch)
    requires Legible(a) && Legible(b) && KeyValueText(a) == KeyValueText(b)
    ensures a == b
  {
    var x, y := a.key + ":" + StringMatchText(a.value), b.key + ":" + StringMatchText(b.value);
    KeyValueTextParts(a);
    KeyValueTextParts(b);
    DropPrefix("kv:", x, y);
    Strings.CutUnique(a.key, StringMatchText(a.value), b.key, StringMatchText(b.value), ':');
    StringMatchTextInjective(a.value, b.value);
  }

  lemma SortedTextsCanonical(a: seq<KeyValueMatch>, b: seq<KeyValueMatch>)
    requires multiset(a) == multiset(b)
    ensures SortedTexts(a) == SortedTexts(b)
  {
    MapMultiset(KeyValueText, a, b);
    StringOrder();
    SortCanonical(Map(KeyValueText, a), Map(KeyValueText, b), Strings.Less);
  }

  lemma SortedTextsInjective(a: seq<KeyValueMatch>, b: seq<KeyValueMatch>)
    requires forall kv | kv in a :: Legible(kv)
    requires forall kv | kv in b :: Legible(kv)
    requires SortedTexts(a) == SortedTexts(b)
    ensures multiset(a) == multiset(b)
  {
    var s, t := StableSort(a, KeyValueLess), StableSort(b, KeyValueLess);
    SortByKey(KeyValueText, a, KeyValueLess, Strings.Less);
    SortByKey(KeyValueText, b, KeyValueLess, Strings.Less);
    SortContents(a, KeyValueLess);
    SortContents(b, KeyValueLess);
    assert Map(KeyValueText, s) == Map(KeyValueText, t);
    forall i | 0 <= i < |s| ensures s[i] == t[i] {
      assert s[i] in multiset(s) && t[i] in multiset(t);
      assert KeyValueText(s[i]) == Map(KeyValueText, s)[i] == Map(KeyValueText, t)[i] == KeyValueText(t[i]);
      KeyValueTextInjective(s[i], t[i]);
    }
    assert s == t;
  }

  // The key does not see the order of the matchers, so the in-place sort changes no later key.
  lemma KeyCanonical(a: HTTPRoute, b: HTTPRoute)
    requires SameMatch(a, b)
    ensures Key(a) == Key(b)
  {
    SortedTextsCanonical(a.headersMatch, b.headersMatch);
    SortedTextsCanonical(a.queryParamsMatch, b.queryParamsMatch);
  }

  lemma UnbrokenAfterTag(tag: string, text: string)
    requires '|' !in tag && Unbroken(text)
    ensures Unbroken(tag + text)
  {
    var s := tag + text;
    assert forall i | 0 <= i < |tag| :: s[i] == tag[i] != '|';
    forall i | 0 <= i < |s| && s[i] == '|' ensures !StartsTag(s[i + 1..]) {
      assert s[i] == text[i - |tag|] && s[i + 1..] == text[i - |tag| + 1..];
    }
  }

  lemma UnbrokenTexts(tag: string, kvs: seq<KeyValueMatch>)
    requires '|' !in tag && forall kv | kv in kvs :: CleanKeyValue(kv)
    ensures forall s | s in Tagged(tag, SortedTexts(kvs)) :: Unbroken(s)
  {
    var texts := SortedTexts(kvs);
    forall i | 0 <= i < |texts| ensures Unbroken(tag + texts[i]) {
      SortMember(Map(KeyValueText, kvs), Strings.Less);
      assert texts[i] in texts && texts[i] in Map(KeyValueText, kvs);
      var j :| 0 <= j < |kvs| && texts[i] == KeyValueText(kvs[j]);
      assert CleanKeyValue(kvs[j]);
      UnbrokenAfterTag(tag, texts[i]);
    }
  }

  lemma UnbrokenSegments(r: HTTPRoute)
    requires Clean(r)
    ensures forall s | s in Segments(r) :: Unbroken(s)
  {
    if r.verb.Some? {
      UnbrokenAfterTag("method:", r.verb.value);
    }
    UnbrokenAfterTag("path:", StringMatchText(r.pathMatch));
    UnbrokenTexts("header:", r.headersMatch);
    UnbrokenTexts("query:", r.queryParamsMatch);
  }

  lemma SegmentsTagged(r: HTTPRoute)
    ensures forall i | 1 <= i < |Segments(r)| :: StartsTag(Segments(r)[i])
  {
    SegmentsShape(r);
    var n, s := if r.verb.Some? then 1 else 0, Segments(r);
    var h, q := SortedTexts(r.headersMatch), SortedTexts(r.queryParamsMatch);
    forall i | 1 <= i < |s| ensures StartsTag(s[i]) {
      if i > n {
        var j := i - n - 1;
        assert s[i] == s[n + 1..][j] == if j < |h| then "header:" + h[j] else "query:" + q[j - |h|];
      }
    }
  }

  lemma TaggedInjective(tag: string, a: seq<string>, b: seq<string>)
    requires Tagged(tag, a) == Tagged(tag, b)
    ensures a == b
  {
    assert |a| == |Tagged(tag, a)| == |Tagged(tag, b)| == |b|;
    forall i | 0 <= i < |a| ensures a[i] == b[i] {
      assert tag + a[i] == Tagged(tag, a)[i] == Tagged(tag, b)[i] == tag + b[i];
      DropPrefix(tag, a[i], b[i]);
    }
  }

  // Where the headers stop and the queries start is visible in the segments.
  lemma TagBoundary(h: seq<string>, q: seq<string>, h': seq<string>, q': seq<string>)
    requires Tagged("header:", h) + Tagged("query:", q) == Tagged("header:", h') + Tagged("query:", q')
    ensures h == h' && q == q'
  {
    var s := Tagged("header:", h) + Tagged("query:", q);
    HeadersFirst(h, q);
    HeadersFirst(h', q');
    var k := if |h| < |h'| then |h| else |h'|;
    assert |h| == |h'| by { assert k < |s| ==> (s[k][0] == 'h' <==> k < |h|) && (s[k][0] == 'h' <==> k < |h'|); }
    SameSplit(Tagged("header:", h), Tagged("query:", q), Tagged("header:", h'), Tagged("query:", q'));
    TaggedInjective("header:", h, h');
    TaggedInjective("query:", q, q');
  }

  lemma HeadersFirst(h: seq<string>, q: seq<string>)
    ensures var s := Tagged("header:", h) + Tagged("query:", q);
      |s| == |h| + |q| && forall i | 0 <= i < |s| :: s[i] != [] && (s[i][0] == 'h' <==> i < |h|)
  {
    var s := Tagged("header:", h) + Tagged("query:", q);
    forall i | 0 <= i < |s| ensures s[i] != [] && (s[i][0] == 'h' <==> i < |h|) {
      assert s[i] == if i < |h| then "header:" + h[i] else "query:" + q[i - |h|];
    }
  }

  lemma SameSplit<T>(a: seq<T>, b: seq<T>, c: seq<T>, d: seq<T>)
    requires a + b == c + d && |a| == |c|
    ensures a == c && b == d
  {
    assert a == (a + b)[..|a|] && b == (a + b)[|a|..];
    assert c == (c + d)[..|c|] && d == (c + d)[|c|..];
  }

  lemma SegmentsShape(r: HTTPRoute)
    ensures var s := Segments(r);
      var n := if r.verb.Some? then 1 else 0;
      && |s| > n
      && (r.verb.Some? <==> s[0][0] == 'm')
      && (r.verb.Some? ==> s[0] == "method:" + r.verb.value)
      && s[n] == "path:" + StringMatchText(r.pathMatch)
      && s[n + 1..] == Tagged("header:", SortedTexts(r.headersMatch)) + Tagged("query:", SortedTexts(r.queryParamsMatch))
  {
    var m := if r.verb.Some? then ["method:" + r.verb.value] else [];
    var rest := Tagged("header:", SortedTexts(r.headersMatch)) + Tagged("query:", SortedTexts(r.queryParamsMatch));
    assert Segments(r) == m + ["path:" + StringMatchText(r.pathMatch)] + rest;
  }

  lemma SegmentsInjective(a: HTTPRoute, b: HTTPRoute)
    requires Segments(a) == Segments(b)
    ensures a.verb == b.verb
    ensures StringMatchText(a.pathMatch) == StringMatchText(b.pathMatch)
    ensures SortedTexts(a.headersMatch) == SortedTexts(b.headersMatch)
    ensures SortedTexts(a.queryParamsMatch) == SortedTexts(b.queryParamsMatch)
  {
    SegmentsShape(a);
    SegmentsShape(b);
    if a.verb.Some? {
      DropPrefix("method:", a.verb.value, b.verb.value);
    }
    DropPrefix("path:", StringMatchText(a.pathMatch), StringMatchText(b.pathMatch));
    TagBoundary(
      SortedTexts(a.headersMatch), SortedTexts(a.queryParamsMatch),
      SortedTexts(b.headersMatch), SortedTexts(b.queryParamsMatch));
  }

  // Ordinary routes share a key exactly when they have the same match.
  lemma KeyIffSameMatch(a: HTTPRoute, b: HTTPRoute)
    requires Clean(a) && Clean(b)
    ensures Key(a) == Key(b) <==> SameMatch(a, b)
  {
    if SameMatch(a, b) {
      KeyCanonical(a, b);
    }
    if Key(a) == Key(b) {
      UnbrokenSegments(a);
      UnbrokenSegments(b);
      SegmentsTagged(a);
      SegmentsTagged(b);
      TerminatedInjective(Segments(a), Segments(b));
      SegmentsInjective(a, b);
      StringMatchTextInjective(a.pathMatch, b.pathMatch);
      assert forall kv | kv in a.headersMatch :: CleanKeyValue(kv);
      SortedTextsInjective(a.headersMatch, b.headersMatch);
      SortedTextsInjective(a.queryParamsMatch, b.queryParamsMatch);
    }
  }

  lemma CleanIsOneKind(r: HTTPRoute)
    requires Clean(r)
    ensures OneKind(r)
  {
    assert forall kv | kv in r.headersMatch :: CleanKeyValue(kv);
    assert forall kv | kv in r.queryParamsMatch :: CleanKeyValue(kv);
  }

  lemma CleanKeysExact(routes: seq<HTTPRoute>)
    requires forall r | r in routes :: Clean(r)
    ensures KeysExact(routes)
  {
    forall a, b | a in routes && b in routes && Key(a) == Key(b) ensures SameMatch(a, b) {
      KeyIffSameMatch(a, b);
    }
  }

  // In particular texts without a bar are unbroken.
  lemma BarFreeIsUnbroken(s: string)
    requires '|' !in s
    ensures Unbroken(s)
  {
  }

  // Without that proviso different routes can share a key: for any two header matchers, the first exact,
  // one matcher whose value holds a bar and a tag prints like the pair.
  lemma BarCollision(key: string, value: string, second: KeyValueMatch)
    requires value != "" && Strings.Less(KeyValueText(Exactly(key, value)), KeyValueText(second))
    ensures var a := MatchOnly(None, NO_MATCH, [Exactly(key, value + "|header:" + KeyValueText(second))], []);
      var b := MatchOnly(None, NO_MATCH, [Exactly(key, value), second], []);
      Key(a) == Key(b) && !SameMatch(a, b)
  {
    var one, first := Exactly(key, value + "|header:" + KeyValueText(second)), Exactly(key, value);
    var s, t := KeyValueText(first), KeyValueText(second);
    CollidingText(key, value, t);
    OneHeaderKey(one);
    TwoHeaderKey(first, second);
    assert |multiset([one])| == 1 && |multiset([first, second])| == 2;
  }

  lemma CollidingText(key: string, value: string, t: string)
    requires value != ""
    ensures "path:" + "|" + "header:" + KeyValueText(Exactly(key, value + "|header:" + t)) + "|"
         == "path:" + "|" + "header:" + KeyValueText(Exactly(key, value)) + "|" + "header:" + t + "|"
  {
    var front, bar := "kv:" + key + ":" + "exact:", "|header:";
    assert bar == "|" + "header:";
    assert KeyValueText(Exactly(key, value + bar + t)) == front + (value + bar + t);
    assert KeyValueText(Exactly(key, value)) == front + value;
  }

  lemma OneHeaderKey(kv: KeyValueMatch)
    ensures Key(MatchOnly(None, NO_MATCH, [kv], [])) == "path:" + "|" + "header:" + KeyValueText(kv) + "|"
  {
    assert Map(KeyValueText, [kv]) == [KeyValueText(kv)];
    SortedOne(KeyValueText(kv));
    HeaderSegments([kv]);
    assert ["path:"] + Tagged("header:", [KeyValueText(kv)]) == ["path:", "header:" + KeyValueText(kv)];
    TerminatedTwo("path:", "header:" + KeyValueText(kv));
  }

  lemma TwoHeaderKey(a: KeyValueMatch, b: KeyValueMatch)
    requires Strings.Less(KeyValueText(a), KeyValueText(b))
    ensures Key(MatchOnly(None, NO_MATCH, [a, b], []))
         == "path:" + "|" + "header:" + KeyValueText(a) + "|" + "header:" + KeyValueText(b) + "|"
  {
    var s, t := KeyValueText(a), KeyValueText(b);
    assert SortedTexts([a, b]) == [s, t] by {
      assert Map(KeyValueText, [a, b]) == [s, t];
      SortedPair(s, t);
    }
    HeaderSegments([a, b]);
    TerminatedHeaders(s, t);
  }

  lemma TerminatedHeaders(s: string, t: string)
    ensures Terminated(["path:"] + Tagged("header:", [s, t])) == "path:" + "|" + "header:" + s + "|" + "header:" + t + "|"
  {
    assert Tagged("header:", [s, t]) == ["header:" + s, "header:" + t];
    TerminatedConcat(["path:"], ["header:" + s, "header:" + t]);
    TerminatedTwo("header:" + s, "header:" + t);
    assert Terminated(["path:"]) == "path:" + "|";
  }

  function Exactly(key: string, value: string): KeyValueMatch {
    KeyValueMatch(key, StringMatch("", value, ""))
  }

  lemma SortedPair(s: string, t: string)
    requires Strings.Less(s, t)
    ensures StableSort([s, t], Strings.Less) == [s, t]
  {
    Strings.LessAsymmetric(s, t);
    SortedOne(t);
    assert [s, t][1..] == [t];
  }

  lemma SortedOne(s: string)
    ensures StableSort([s], Strings.Less) == [s]
  {
    assert [s][1..] == [];
  }

  lemma HeaderSegments(kvs: seq<KeyValueMatch>)
    ensures Segments(MatchOnly(None, NO_MATCH, kvs, [])) == ["path:"] + Tagged("header:", SortedTexts(kvs))
  {
    assert "path:" + "" == "path:";
  }

  lemma TerminatedTwo(s: string, t: string)
    ensures Terminated([s, t]) == s + "|" + t + "|"
  {
    assert [s, t][1..] == [t] && [t][1..] == [];
    assert Terminated([t]) == t + "|";
  }

  // sort.Slice by printed text. Only order and contents are promised: the sort is not stable.
  method SortByText(kvs: array<KeyValueMatch>)
    modifies kvs
    ensures multiset(kvs[..]) == old(multiset(kvs[..]))
    ensures Ascending(kvs[..], KeyValueLess)
  {
    var sorted := StableSort(kvs[..], KeyValueLess);
    SortContents(kvs[..], KeyValueLess);
    KeyValueOrder();
    SortAscending(kvs[..], KeyValueLess);
    forall i | 0 <= i < kvs.Length {
      kvs[i] := sorted[i];
    }
    assert kvs[..] == sorted;
  }

  lemma KeyValueOrder()
    ensures StrictWeakOrder(KeyValueLess)
  {
    StringOrder();
  }

  // Whatever order the sort leaves tied matchers in, their texts come out the same.
  lemma AscendingTexts(kvs: seq<KeyValueMatch>, sorted: seq<KeyValueMatch>)
    requires multiset(kvs) == multiset(sorted) && Ascending(sorted, KeyValueLess)
    ensures Map(KeyValueText, sorted) == SortedTexts(kvs)
  {
    var texts := Map(KeyValueText, kvs);
    StringOrder();
    MapMultiset(KeyValueText, kvs, sorted);
    SortContents(texts, Strings.Less);
    SortAscending(texts, Strings.Less);
    AscendingUnique(Map(KeyValueText, sorted), SortedTexts(kvs), Strings.Less);
  }

  lemma TerminatedSnoc(segments: seq<string>, i: nat)
    requires i < |segments|
    ensures Terminated(segments[..i + 1]) == Terminated(segments[..i]) + segments[i] + "|"
  {
    assert segments[..i + 1] == segments[..i] + [segments[i]];
    TerminatedConcat(segments[..i], [segments[i]]);
    assert Terminated([segments[i]]) == segments[i] + "|";
  }

  method WriteTexts(tag: string, kvs: array<KeyValueMatch>) returns (text: string)
    ensures text == Terminated(Tagged(tag, Map(KeyValueText, kvs[..])))
  {
    text := "";
    ghost var all := Tagged(tag, Map(KeyValueText, kvs[..]));
    for i := 0 to kvs.Length
      invariant text == Terminated(all[..i])
    {
      text := text + (tag + KeyValueText(kvs[i])) + "|";
      TerminatedSnoc(all, i);
    }
    assert all[..kvs.Length] == all;
  }

  lemma FrontText(verb: Option<string>, pathMatch: StringMatch)
    ensures Terminated((if verb.Some? then ["method:" + verb.value] else []) + ["path:" + StringMatchText(pathMatch)])
         == (if verb.Some? then "method:" + verb.value + "|" else "") + "path:" + StringMatchText(pathMatch) + "|"
  {
    var p := "path:" + StringMatchText(pathMatch);
    if verb.Some? {
      var m := "method:" + verb.value;
      assert [m] + [p] == [m, p];
      TerminatedTwo(m, p);
      assert m + "|" + p + "|" == m + "|" + "path:" + StringMatchText(pathMatch) + "|";
    } else {
      assert [] + [p] == [p];
      assert Terminated([p]) == p + "|";
    }
  }

  // HTTPRoute.GetMatchKey: prints the key and leaves both matcher lists sorted; printing again gives the same key.
  method GetMatchKey(verb: Option<string>, pathMatch: StringMatch, headers: array<KeyValueMatch>, queries: array<KeyValueMatch>)
    returns (key: string)
    requires headers != queries
    modifies headers, queries
    ensures key == Key(MatchOnly(verb, pathMatch, old(headers[..]), old(queries[..])))
    ensures key == Key(MatchOnly(verb, pathMatch, headers[..], queries[..]))
    ensures multiset(headers[..]) == old(multiset(headers[..])) && Ascending(headers[..], KeyValueLess)
    ensures multiset(queries[..]) == old(multiset(queries[..])) && Ascending(queries[..], KeyValueLess)
  {
    ghost var r := MatchOnly(verb, pathMatch, headers[..], queries[..]);
    key := "";
    if verb.Some? {
      key := "method:" + verb.value + "|";
    }
    key := key + "path:" + StringMatchText(pathMatch) + "|";
    ghost var front := (if verb.Some? then ["method:" + verb.value] else []) + ["path:" + StringMatchText(pathMatch)];
    FrontText(verb, pathMatch);

    SortByText(headers);
    AscendingTexts(r.headersMatch, headers[..]);
    var headerText := WriteTexts("header:", headers);
    SortByText(queries);
    AscendingTexts(r.queryParamsMatch, queries[..]);
    var queryText := WriteTexts("query:", queries);
    key := key + headerText + queryText;

    TerminatedConcat(front, Tagged("header:", SortedTexts(r.headersMatch)));
    TerminatedConcat(front + Tagged("header:", SortedTexts(r.headersMatch)), Tagged("query:", SortedTexts(r.queryParamsMatch)));
    KeyCanonical(r, MatchOnly(verb, pathMatch, headers[..], queries[..]));
  }
}
