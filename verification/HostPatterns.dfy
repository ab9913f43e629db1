/** Which authorities a wildcard host accepts, read off the regular expression that the code prints for it. */
module HostPatterns {
  import opened Wrappers
  import opened RouteMatch
  import Strings

  // ---------- the expressions it is about, and how Envoy reads them ----------

  predicate PlainChar(c: char) {
    'a' <= c <= 'z' || 'A' <= c <= 'Z' || '0' <= c <= '9' || c == '-'
  }

  // Made of anchors, "[^.]+", "[.]" and characters that stand for themselves.
  predicate Simple(p: string) {
    if p == "" then true
    else if Strings.HasPrefix(p, "[^.]+") then Simple(p[5..])
    else if Strings.HasPrefix(p, "[.]") then Simple(p[3..])
    else (p[0] in "^$" || PlainChar(p[0])) && Simple(p[1..])
  }

  // The whole text matches; anchors stand at the ends only, where they say nothing more.
  ghost predicate Reads(p: string, t: string)
    decreases |p|
  {
    if p == "" then t == ""
    else if Strings.HasPrefix(p, "[^.]+") then exists k | 0 < k <= |t| :: '.' !in t[..k] && Reads(p[5..], t[k..])
    else if Strings.HasPrefix(p, "[.]") then t != "" && t[0] == '.' && Reads(p[3..], t[1..])
    else if p[0] in "^$" then Reads(p[1..], t)
    else t != "" && t[0] == p[0] && Reads(p[1..], t[1..])
  }

  ghost predicate ReadsPatterns(req: Request) {
    forall p, t | Simple(p) :: req.fullMatch(p, t) <==> Reads(p, t)
  }

  // ---------- one label below a domain ----------

  predicate Domain(d: string) {
    d != "" && forall c | c in d :: PlainChar(c) || c == '.'
  }

  // The host is one non-empty label below the domain.
  ghost predicate OneBelow(host: string, d: string) {
    exists front :: front != "" && '.' !in front && host == front + "." + d
  }

  // ---------- reading one token ----------

  lemma ReadsDot(rest: string, t: string)
    ensures Simple("[.]" + rest) == Simple(rest)
    ensures Reads("[.]" + rest, t) <==> t != "" && t[0] == '.' && Reads(rest, t[1..])
  {
    var p := "[.]" + rest;
    assert p[3..] == rest && p[..3] == "[.]" && p[1] == '.';
  }

  lemma ReadsChar(c: char, rest: string, t: string)
    requires PlainChar(c)
    ensures Simple([c] + rest) == Simple(rest)
    ensures Reads([c] + rest, t) <==> t != "" && t[0] == c && Reads(rest, t[1..])
  {
    var p := [c] + rest;
    assert p[1..] == rest && p[0] == c;
  }

  lemma ReadsAnchor(c: char, rest: string, t: string)
    requires c in "^$"
    ensures Simple([c] + rest) == Simple(rest) && (Reads([c] + rest, t) <==> Reads(rest, t))
  {
    var p := [c] + rest;
    assert p[1..] == rest && p[0] == c;
  }

  lemma ReadsLabel(rest: string, t: string)
    ensures Simple("[^.]+" + rest) == Simple(rest)
    ensures Reads("[^.]+" + rest, t) <==> exists k | 0 < k <= |t| :: '.' !in t[..k] && Reads(rest, t[k..])
  {
    var p := "[^.]+" + rest;
    assert p[5..] == rest && p[..5] == "[^.]+";
  }

  // The printed domain matches just the domain.
  lemma {:induction false} DomainReads(d: string, t: string)
    requires forall c | c in d :: PlainChar(c) || c == '.'
    ensures Simple(DotsQuoted(d) + "$") && (Reads(DotsQuoted(d) + "$", t) <==> t == d)
  {
    if d == "" {
      assert DotsQuoted(d) + "$" == ['$'] + "";
      ReadsAnchor('$', "", t);
    } else {
      var rest, tail := DotsQuoted(d[1..]) + "$", if t == "" then "" else t[1..];
      assert d[0] in d;
      if d[0] == '.' {
        assert DotsQuoted(d) + "$" == "[.]" + rest;
        ReadsDot(rest, t);
      } else {
        assert DotsQuoted(d) + "$" == [d[0]] + rest;
        ReadsChar(d[0], rest, t);
      }
      DomainReads(d[1..], tail);
      assert d == [d[0]] + d[1..] && (t != "" ==> t == [t[0]] + t[1..]);
    }
  }

  lemma WildcardRegex(d: string)
    ensures HostRegex("*." + d) == ['^'] + ("[^.]+" + ("[.]" + (DotsQuoted(d) + "$")))
  {
    var host := "*." + d;
    assert host[2..] == d && Strings.HasPrefix(host, "*.");
    assert "^[^.]+[.]" + DotsQuoted(d) + "$" == ['^'] + ("[^.]+" + ("[.]" + (DotsQuoted(d) + "$")));
  }

  lemma WildcardReads(d: string, t: string)
    requires Domain(d)
    ensures Simple(HostRegex("*." + d)) && (Reads(HostRegex("*." + d), t) <==> OneBelow(t, d))
  {
    var last := DotsQuoted(d) + "$";
    var rest := "[.]" + last;
    WildcardRegex(d);
    ReadsAnchor('^', "[^.]+" + rest, t);
    ReadsLabel(rest, t);
    ReadsDot(last, t);
    DomainReads(d, t);
    forall k | 0 < k <= |t| ensures Reads(rest, t[k..]) <==> k < |t| && t[k] == '.' && t[k + 1..] == d {
      ReadsDot(last, t[k..]);
      if k < |t| {
        assert t[k..][1..] == t[k + 1..];
        DomainReads(d, t[k + 1..]);
      }
    }
    BelowIff(t, d);
  }

  lemma BelowIff(t: string, d: string)
    ensures OneBelow(t, d) <==> exists k | 0 < k <= |t| :: '.' !in t[..k] && k < |t| && t[k] == '.' && t[k + 1..] == d
  {
    if front :| front != "" && '.' !in front && t == front + "." + d {
      assert t[..|front|] == front && t[|front|] == '.' && t[|front| + 1..] == d;
    }
    if k :| 0 < k <= |t| && '.' !in t[..k] && k < |t| && t[k] == '.' && t[k + 1..] == d {
      assert t == t[..k] + "." + d;
    }
  }

  // ---------- acceptance ----------

  // A host that the API server admits: a domain, a domain below a star, or "*".
  predicate HostAdmitted(host: string) {
    host == "*" || Domain(host) || (Strings.HasPrefix(host, "*.") && Domain(host[2..]))
  }

  // A wildcard stands for one label, unless hosts are matched by suffix.
  lemma AcceptedIff(host: string, suffix: bool, req: Request)
    requires HostAdmitted(host) && ReadsPatterns(req)
    ensures AuthorityAccepted(host, suffix, req)
       <==> suffix || !Strings.HasPrefix(host, "*.") || OneBelow(req.authority, host[2..])
  {
    if !suffix && Strings.HasPrefix(host, "*.") {
      var d := host[2..];
      assert host == "*." + d && host[0] == '*' && '*' in host && host != "*";
      WildcardReads(d, req.authority);
      var m := Matcher(":authority", RegexText(HostRegex(host)));
      assert ":authority"[1] != ":method"[1];
      assert AuthorityMatchers(host, suffix) == [m];
      assert HeaderAccepts(m, req) <==> OneBelow(req.authority, d);
    } else if !suffix && host != "*" {
      assert '*' !in host;
      assert AuthorityMatchers(host, suffix) == [];
    }
  }
}
