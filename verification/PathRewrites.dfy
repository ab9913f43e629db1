/** The path that a backend or a redirected client sees, against what a path modifier means in the Gateway API. */
module PathRewrites {
  import opened Wrappers
  import opened Model
  import opened HTTPIngestion
  import opened RouteMatch
  import Strings

  // ---------- what a modifier means ----------

  // A prefix without the slash at its end.
  function Bare(prefix: string): string {
    Strings.TrimSuffix(prefix, "/")
  }

  // What the path has after the prefix.
  function Rest(m: string, path: string): string {
    if |Bare(m)| <= |path| then path[|Bare(m)|..] else ""
  }

  function OrSlash(path: string): string {
    if path == "" then "/" else path
  }

  // The elements of the prefix are replaced by those of the value, and the rest stays.
  function Replaced(m: string, value: string, path: string): string {
    OrSlash(Bare(value) + Rest(m, path))
  }

  // ---------- what Envoy does ----------

  datatype Rewriting = Untouched | Whole(text: string) | Dropped(prefix: string) | Prefixed(text: string)

  // The prefix that Envoy matches and replaces.
  function Matched(m: string): string {
    if m == "/" then "/" else Bare(m)
  }

  // An expression for the prefix, an optional slash and what follows, which is kept behind one slash.
  function DropPrefix(prefix: string, path: string): string {
    if !Strings.HasPrefix(path, prefix) then path
    else var rest := path[|prefix|..]; if Strings.HasPrefix(rest, "/") then rest else "/" + rest
  }

  function Seen(rewriting: Rewriting, m: string, path: string): string {
    match rewriting
    case Untouched => path
    case Whole(text) => text
    case Dropped(prefix) => DropPrefix(prefix, path)
    case Prefixed(text) => if |Matched(m)| <= |path| then text + path[|Matched(m)|..] else path
  }

  // ---------- the code ----------

  // pathPrefixMutation, then pathFullReplaceMutation.
  function RewritingOf(rewrite: Option<RewriteFilter>, m: string): Rewriting {
    if rewrite.None? || rewrite.value.path.None? then Untouched
    else
      var path := rewrite.value.path.value;
      if path.exact != "" then Whole(path.exact)
      else if path.regex != "" then Untouched
      else if path.prefix == "" || path.prefix == "/" then Dropped(m)
      else Prefixed(path.prefix)
  }

  // The path of a redirect: the prefix where there is one, overruled by a whole path.
  function RedirectingOf(path: Option<StringMatch>): Rewriting {
    if path.None? then Untouched
    else if path.value.exact != "" then Whole(path.value.exact)
    else if path.value.prefix != "" then Prefixed(path.value.prefix)
    else Untouched
  }

  // ---------- prefixes ----------

  predicate Slashed(s: string) {
    s != "" && s[|s| - 1] == '/'
  }

  // A prefix as the API server admits it.
  predicate Admitted(m: string) {
    Strings.HasPrefix(m, "/") && m != "//"
  }

  lemma BareIs(s: string)
    ensures s == if Slashed(s) then Bare(s) + "/" else Bare(s)
  {
    if s != "" {
      assert s[|s| - 1..] == [s[|s| - 1]];
    }
  }

  // A path that the prefix matches is the bare prefix, with nothing or a slash behind it.
  lemma MatchedPath(m: string, path: string)
    requires Admitted(m) && Strings.HasPrefix(path, "/") && ElementPrefix(m, path)
    ensures path == Bare(m) + Rest(m, path) && (Rest(m, path) == "" || Rest(m, path)[0] == '/')
    ensures Slashed(m) ==> m == Bare(m) + "/"
    ensures !Slashed(m) ==> m == Bare(m)
    ensures m != "/" ==> Bare(m) != "" && Bare(m) != "/"
  {
    BareIs(m);
    Strings.PartsPrefix(Bare(m), path, '/');
    assert path == Bare(m) || Strings.HasPrefix(path, Bare(m) + "/");
    if path != Bare(m) {
      assert path[..|Bare(m)| + 1] == Bare(m) + "/" && path[|Bare(m)|] == '/';
    }
    assert path == path[..|Bare(m)|] + path[|Bare(m)|..];
    assert m[..1] == "/";
  }

  lemma DropBare(q: string, rest: string)
    requires rest == "" || rest[0] == '/'
    ensures DropPrefix(q, q + rest) == OrSlash(rest)
  {
    assert (q + rest)[..|q|] == q && (q + rest)[|q|..] == rest;
    if rest != "" {
      assert rest[..1] == [rest[0]];
    } else {
      assert "/" + rest == "/";
    }
  }

  lemma DropSlashed(q: string, rest: string)
    requires rest == "" || rest[0] == '/'
    ensures var m := q + "/";
      DropPrefix(m, q + rest) == Left(q, rest)
  {
    var m, path := q + "/", q + rest;
    if rest == "" {
      assert path == q && |path| < |m|;
    } else {
      assert rest == "/" + rest[1..] && path == m + rest[1..];
      assert path[..|m|] == m && path[|m|..] == rest[1..];
      if |rest| > 1 {
        assert rest[1..][..1] == [rest[1]];
      }
    }
  }

  // ---------- rewrites ----------

  // Replacing a prefix does what it means: by something, unless the prefix is "/"; by nothing, unless the prefix has a slash
  // at its end and the path is without it or has two.
  predicate RewritesRight(m: string, value: string, path: string) {
    if Bare(value) == "" then !Slashed(m) || (path != Bare(m) && !Strings.HasPrefix(path, m + "/"))
    else if Bare(value) == "/" then !Slashed(m) && path == m
    else m != "/"
  }

  lemma PrefixRewriteRightIff(r: RewriteSpec, m: string, path: string)
    requires r.path.Some? && r.path.value.PrefixMatch?
    requires Admitted(m) && Strings.HasPrefix(path, "/") && ElementPrefix(m, path)
    ensures Seen(RewritingOf(Some(ToRewrite(r)), m), m, path) == Replaced(m, r.path.value.value, path)
       <==> RewritesRight(m, r.path.value.value, path)
  {
    var v, rest := Bare(r.path.value.value), Rest(m, path);
    MatchedPath(m, path);
    if v == "" || v == "/" {
      if Slashed(m) {
        DropSlashed(Bare(m), rest);
        DroppedRight(m, v, rest, path);
      } else {
        DropBare(m, rest);
        assert "" + rest == rest;
        assert path == m <==> rest == "";
      }
    } else if m == "/" {
      assert Bare(m) == "" && rest == path;
      assert |v + path[1..]| < |v + path|;
    } else {
      assert path[|Bare(m)|..] == rest;
    }
  }

  // What a slashed prefix leaves of a path.
  function Left(q: string, rest: string): string {
    if rest == "" then q else if |rest| > 1 && rest[1] == '/' then rest[1..] else rest
  }

  lemma TwoSlashes(q: string, rest: string)
    requires rest != "" && rest[0] == '/'
    ensures Strings.HasPrefix(q + rest, q + "/" + "/") <==> |rest| > 1 && rest[1] == '/'
  {
    if |rest| > 1 {
      var cut := (q + rest)[..|q| + 2];
      assert cut == q + [rest[0]] + [rest[1]] && cut[|q| + 1] == rest[1] && (q + "/" + "/")[|q| + 1] == '/';
    }
  }

  lemma DroppedRight(m: string, v: string, rest: string, path: string)
    requires Slashed(m) && m == Bare(m) + "/" && path == Bare(m) + rest && (rest == "" || rest[0] == '/') && v in ["", "/"] && path != ""
    requires m != "/" ==> Bare(m) != "" && Bare(m) != "/"
    ensures Left(Bare(m), rest) == OrSlash(v + rest) <==> v == "" && path != Bare(m) && !Strings.HasPrefix(path, m + "/")
  {
    assert |path| == |Bare(m)| + |rest| && |v + rest| == |v| + |rest|;
    if rest == "" {
      assert path == Bare(m) && v + rest == v;
    } else {
      TwoSlashes(Bare(m), rest);
      assert v == "" ==> v + rest == rest;
    }
  }

  // Replacing the whole path does, unless by nothing: then the prefix is dropped, as if that had been asked for.
  lemma FullRewriteRightIff(r: RewriteSpec, m: string, path: string)
    requires r.path.Some? && r.path.value.FullPath? && Admitted(m) && Strings.HasPrefix(path, "/") && ElementPrefix(m, path)
    ensures Seen(RewritingOf(Some(ToRewrite(r)), m), m, path) == OrSlash(r.path.value.value)
       <==> r.path.value.value != "" || path == m || path == m + "/"
  {
    if r.path.value.value == "" {
      var rest := Rest(m, path);
      MatchedPath(m, path);
      if Slashed(m) {
        DropSlashed(Bare(m), rest);
        if rest != "" {
          assert path == m + rest[1..];
          assert path == m <==> rest == "/";
          assert path == m + "/" <==> rest == "//";
        }
      } else {
        DropBare(m, rest);
      }
    }
  }

  // A prefix "/" replaced by "/a": the slash between the two is lost.
  lemma SlashSwallowed()
    ensures var r := RewriteSpec(None, Some(PrefixMatch("/a")));
      Seen(RewritingOf(Some(ToRewrite(r)), "/"), "/", "/b") == "/ab" && Replaced("/", "/a", "/b") == "/a/b"
  {
    BareIs("/a");
    BareIs("/");
    assert "/a"[1] == 'a';
  }

  // ---------- redirects ----------

  // Replacing a prefix in a redirect does what it means: by nothing, only for "/"; else for "/" with a slash at the end of
  // the value, and for others without.
  predicate RedirectsRight(m: string, value: string, path: string) {
    if value == "" then m == "/"
    else if m == "/" then Slashed(value)
    else !Slashed(value) || (value == "/" && path == Bare(m))
  }

  lemma PrefixRedirectRightIff(r: RedirectSpec, port: nat, m: string, path: string)
    requires r.path.Some? && r.path.value.PrefixMatch?
    requires Admitted(m) && Strings.HasPrefix(path, "/") && ElementPrefix(m, path)
    ensures Seen(RedirectingOf(ToRedirect(r, port).path), m, path) == Replaced(m, r.path.value.value, path)
       <==> RedirectsRight(m, r.path.value.value, path)
  {
    var value, rest := r.path.value.value, Rest(m, path);
    MatchedPath(m, path);
    if value == "" {
      assert Bare(value) + rest == rest;
      assert m != "/" ==> |rest| < |path|;
    } else if m == "/" {
      assert Bare(m) == "" && rest == path && path[..1] == "/" && path == "/" + path[1..];
      SlashKept(value, path[1..]);
    } else {
      assert path[|Bare(m)|..] == rest && (path == Bare(m) <==> rest == "");
      SlashAdded(value, rest);
    }
  }

  lemma SlashKept(value: string, rest: string)
    requires value != ""
    ensures value + rest == OrSlash(Bare(value) + ("/" + rest)) <==> Slashed(value)
  {
    BareIs(value);
    var v := Bare(value);
    if Slashed(value) {
      assert v + ("/" + rest) == (v + "/") + rest;
    } else {
      assert |v + ("/" + rest)| == |v + rest| + 1;
    }
  }

  lemma SlashAdded(value: string, rest: string)
    requires value != "" && (rest == "" || rest[0] == '/')
    ensures value + rest == OrSlash(Bare(value) + rest) <==> !Slashed(value) || (value == "/" && rest == "")
  {
    BareIs(value);
    if Slashed(value) {
      assert |value + rest| == |Bare(value) + rest| + 1;
      assert Bare(value) + rest == "" <==> value == "/" && rest == "";
      assert rest == "" ==> value + rest == value;
    }
  }

  // Replacing the whole path does, unless by nothing: then the path stays.
  lemma FullRedirectRightIff(r: RedirectSpec, port: nat, m: string, path: string)
    requires r.path.Some? && r.path.value.FullPath?
    ensures Seen(RedirectingOf(ToRedirect(r, port).path), m, path) == OrSlash(r.path.value.value) <==> r.path.value.value != "" || path == "/"
  {
  }

  // A prefix "/a" redirected to "/b/" has two slashes.
  lemma SlashDoubled(port: nat)
    ensures var r := RedirectSpec(None, None, Some(PrefixMatch("/b/")), None, None);
      Seen(RedirectingOf(ToRedirect(r, port).path), "/a", "/a/c") == "/b//c" && Replaced("/a", "/b/", "/a/c") == "/b/c"
  {
    BareIs("/a");
    BareIs("/b/");
    assert "/a/c"[2..] == "/c" && "/a"[1] == 'a';
    assert Bare("/b/") + "/" == "/b/" && Bare("/b/") == "/b/"[..2];
  }
}
