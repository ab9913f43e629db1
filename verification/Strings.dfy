/** Go strings, one `char` a byte: byte-wise order, prefixes and suffixes, and splitting at a separator. */
module Strings {

  // The order Go's `<` puts on strings.
  predicate Less(a: string, b: string) {
    b != [] && (a == [] || a[0] < b[0] || (a[0] == b[0] && Less(a[1..], b[1..])))
  }

  lemma {:induction false} LessAsymmetric(a: string, b: string)
    requires Less(a, b)
    ensures !Less(b, a)
  {
    if a != [] && a[0] == b[0] {
      LessAsymmetric(a[1..], b[1..]);
    }
  }

  // If a is below c, every string is above a or below c.
  lemma {:induction false} LessCotransitive(a: string, b: string, c: string)
    requires Less(a, c)
    ensures Less(a, b) || Less(b, c)
  {
    if a != [] && b != [] && a[0] == b[0] == c[0] {
      LessCotransitive(a[1..], b[1..], c[1..]);
    }
  }

  lemma {:induction false} LessTotal(a: string, b: string)
    ensures Less(a, b) || Less(b, a) || a == b
  {
    if a != [] && b != [] && a[0] == b[0] {
      LessTotal(a[1..], b[1..]);
      assert a == [a[0]] + a[1..] && b == [b[0]] + b[1..];
    }
  }

  predicate HasPrefix(s: string, p: string) {
    |p| <= |s| && s[..|p|] == p
  }

  predicate HasSuffix(s: string, p: string) {
    |p| <= |s| && s[|s| - |p|..] == p
  }

  function TrimPrefix(s: string, p: string): string {
    if HasPrefix(s, p) then s[|p|..] else s
  }

  function TrimSuffix(s: string, p: string): string {
    if HasSuffix(s, p) then s[..|s| - |p|] else s
  }

  // strings.Split for a one-byte separator: never empty, and no part holds the separator.
  function Split(s: string, sep: char): (parts: seq<string>)
    ensures parts != []
    ensures forall i | 0 <= i < |parts| :: sep !in parts[i]
  {
    if s == [] then [[]]
    else
      var rest := Split(s[1..], sep);
      if s[0] == sep then [[]] + rest else [[s[0]] + rest[0]] + rest[1..]
  }

  lemma {:induction false} SplitAtSeparator(a: string, sep: char, b: string)
    ensures Split(a + [sep] + b, sep) == Split(a, sep) + Split(b, sep)
  {
    if a == [] {
      assert (a + [sep] + b)[1..] == b;
    } else {
      assert (a + [sep] + b)[1..] == a[1..] + [sep] + b;
      SplitAtSeparator(a[1..], sep, b);
    }
  }

  lemma {:induction false} SplitWithoutSeparator(a: string, sep: char)
    requires sep !in a
    ensures Split(a, sep) == [a]
  {
    if a != [] {
      SplitWithoutSeparator(a[1..], sep);
      assert a == [a[0]] + a[1..];
    }
  }

  lemma SplitOfEmpty(s: string, sep: char)
    ensures Split(s, sep) == [[]] <==> s == []
  {
    if s != [] && s[0] != sep {
      assert |Split(s, sep)[0]| > 0;
    }
  }

  // Splitting loses nothing: the parts determine the string.
  lemma {:induction false} SplitInjective(a: string, b: string, sep: char)
    requires Split(a, sep) == Split(b, sep)
    ensures a == b
  {
    SplitOfEmpty(a, sep);
    SplitOfEmpty(b, sep);
    if a != [] {
      var x, y := Split(a[1..], sep), Split(b[1..], sep);
      if a[0] == sep {
        assert Split(a, sep)[0] == [];
        assert b[0] == sep;
        assert Split(a, sep)[1..] == x && Split(b, sep)[1..] == y;
      } else {
        assert Split(a, sep)[0] == [a[0]] + x[0];
        assert b[0] != sep;
        assert Split(b, sep)[0] == [b[0]] + y[0];
        assert a[0] == b[0] && x[0] == y[0] by {
          assert ([a[0]] + x[0])[1..] == x[0] && ([b[0]] + y[0])[1..] == y[0];
        }
        assert Split(a, sep)[1..] == x[1..] && Split(b, sep)[1..] == y[1..];
        assert x == [x[0]] + x[1..] && y == [y[0]] + y[1..];
      }
      SplitInjective(a[1..], b[1..], sep);
      assert a == [a[0]] + a[1..] && b == [b[0]] + b[1..];
    }
  }

  function Join(parts: seq<string>, sep: char): string
    requires parts != []
  {
    if |parts| == 1 then parts[0] else parts[0] + [sep] + Join(parts[1..], sep)
  }

  lemma {:induction false} SplitOfJoin(parts: seq<string>, sep: char)
    requires parts != [] && forall i | 0 <= i < |parts| :: sep !in parts[i]
    ensures Split(Join(parts, sep), sep) == parts
  {
    SplitWithoutSeparator(parts[0], sep);
    if |parts| > 1 {
      SplitOfJoin(parts[1..], sep);
      SplitAtSeparator(parts[0], sep, Join(parts[1..], sep));
      assert parts == [parts[0]] + parts[1..];
    }
  }

  // The parts of p lead the parts of s exactly when s is p, or continues p at a separator.
  lemma PartsPrefix(p: string, s: string, sep: char)
    ensures Split(p, sep) <= Split(s, sep) <==> s == p || HasPrefix(s, p + [sep])
  {
    if HasPrefix(s, p + [sep]) {
      var rest := s[|p| + 1..];
      assert s == p + [sep] + rest;
      SplitAtSeparator(p, sep, rest);
    }
    if Split(p, sep) <= Split(s, sep) {
      PrefixOfParts(p, s, sep);
    }
  }

  lemma PrefixOfParts(p: string, s: string, sep: char)
    requires Split(p, sep) <= Split(s, sep)
    ensures s == p || HasPrefix(s, p + [sep])
  {
    var rest := Split(s, sep)[|Split(p, sep)|..];
    assert Split(s, sep) == Split(p, sep) + rest;
    if rest == [] {
      SplitInjective(p, s, sep);
    } else {
      SplitOfJoin(rest, sep);
      SplitAtSeparator(p, sep, Join(rest, sep));
      SplitInjective(s, p + [sep] + Join(rest, sep), sep);
    }
  }

  predicate EndsWith<T(==)>(s: seq<T>, tail: seq<T>) {
    |tail| <= |s| && s[|s| - |tail|..] == tail
  }

  lemma SuffixParts(p: string, s: string, sep: char)
    requires HasSuffix(s, [sep] + p)
    ensures EndsWith(Split(s, sep), Split(p, sep)) && |Split(s, sep)| > |Split(p, sep)|
  {
    var front := s[..|s| - |p| - 1];
    assert s == front + ([sep] + p) == front + [sep] + p;
    SplitAtSeparator(front, sep, p);
  }

  // The parts of p end the parts of s exactly when s is p, or reaches p at a separator.
  lemma PartsSuffix(p: string, s: string, sep: char)
    ensures EndsWith(Split(s, sep), Split(p, sep)) <==> s == p || HasSuffix(s, [sep] + p)
  {
    if HasSuffix(s, [sep] + p) {
      SuffixParts(p, s, sep);
    }
    if EndsWith(Split(s, sep), Split(p, sep)) {
      SuffixOfParts(p, s, sep);
    }
  }

  lemma SuffixOfParts(p: string, s: string, sep: char)
    requires EndsWith(Split(s, sep), Split(p, sep))
    ensures s == p || HasSuffix(s, [sep] + p)
  {
    var front := Split(s, sep)[..|Split(s, sep)| - |Split(p, sep)|];
    assert Split(s, sep) == front + Split(p, sep);
    if front == [] {
      SplitInjective(p, s, sep);
    } else {
      SplitOfJoin(front, sep);
      SplitAtSeparator(Join(front, sep), sep, p);
      SplitInjective(s, Join(front, sep) + [sep] + p, sep);
      ConcatSuffix(Join(front, sep), [sep], p);
    }
  }

  lemma ConcatSuffix(a: string, b: string, c: string)
    ensures HasSuffix(a + b + c, b + c)
  {
    assert a + b + c == a + (b + c);
  }

  // What precedes the first separator is determined.
  lemma CutUnique(a: string, b: string, c: string, d: string, sep: char)
    requires sep !in a && sep !in c
    requires a + [sep] + b == c + [sep] + d
    ensures a == c && b == d
  {
    var s := a + [sep] + b;
    assert s[|a|] == sep && s[|c|] == sep;
    assert forall i | 0 <= i < |a| :: s[i] == a[i];
    assert forall i | 0 <= i < |c| :: s[i] == c[i];
    assert a == s[..|a|] == c;
    assert b == s[|a| + 1..] == d;
  }

  lemma LastCutUnique(a: string, b: string, c: string, d: string, sep: char)
    requires sep !in b && sep !in d
    requires a + [sep] + b == c + [sep] + d
    ensures a == c && b == d
  {
    var s := a + [sep] + b;
    assert s[|a|] == sep && s[|c|] == sep;
    assert forall i | |a| < i < |s| :: s[i] == b[i - |a| - 1];
    assert forall i | |c| < i < |s| :: s[i] == d[i - |c| - 1];
    assert a == s[..|a|] == c;
    assert b == s[|a| + 1..] == d;
  }

  function ToUpper(s: string): string {
    if s == [] then []
    else [if 'a' <= s[0] <= 'z' then s[0] - 'a' + 'A' else s[0]] + ToUpper(s[1..])
  }

  // strconv.Itoa on the non-negative numbers.
  function Itoa(n: nat): (s: string)
    ensures s != []
  {
    var digit := ['0' + (n % 10) as char];
    if n < 10 then digit else Itoa(n / 10) + digit
  }

  // ---------- reading back ----------

  predicate IsNumber(s: string) {
    s != [] && forall i | 0 <= i < |s| :: '0' <= s[i] <= '9'
  }

  function Number(s: string): nat
    requires forall i | 0 <= i < |s| :: '0' <= s[i] <= '9'
  {
    if s == [] then 0 else 10 * Number(s[..|s| - 1]) + (s[|s| - 1] - '0') as nat
  }

  lemma {:induction false} ItoaReads(n: nat)
    ensures IsNumber(Itoa(n)) && Number(Itoa(n)) == n
  {
    var digit := '0' + (n % 10) as char;
    assert (digit - '0') as nat == n % 10;
    if n < 10 {
      assert Itoa(n) == [digit] && Itoa(n)[..0] == [];
    } else {
      ItoaReads(n / 10);
      assert Itoa(n)[..|Itoa(n)| - 1] == Itoa(n / 10) && Itoa(n)[|Itoa(n)| - 1] == digit;
    }
  }

  // What stands before and after the first separator.
  function CutFirst(s: string, sep: char): (string, string) {
    if s == [] then ([], []) else if s[0] == sep then ([], s[1..])
    else var (a, b) := CutFirst(s[1..], sep); ([s[0]] + a, b)
  }

  // And the last one.
  function CutLast(s: string, sep: char): (string, string) {
    if s == [] then ([], []) else if s[|s| - 1] == sep then (s[..|s| - 1], [])
    else var (a, b) := CutLast(s[..|s| - 1], sep); (a, b + [s[|s| - 1]])
  }

  lemma {:induction false} CutFirstAt(a: string, sep: char, b: string)
    requires sep !in a
    ensures CutFirst(a + [sep] + b, sep) == (a, b)
  {
    var s := a + [sep] + b;
    if a == [] {
      assert s[1..] == b;
    } else {
      assert s[1..] == a[1..] + [sep] + b && s[0] == a[0];
      CutFirstAt(a[1..], sep, b);
      assert a == [a[0]] + a[1..];
    }
  }

  lemma {:induction false} CutLastAt(a: string, sep: char, b: string)
    requires sep !in b
    ensures CutLast(a + [sep] + b, sep) == (a, b)
  {
    var s := a + [sep] + b;
    if b == [] {
      assert s[..|s| - 1] == a;
    } else {
      var front := b[..|b| - 1];
      assert s[..|s| - 1] == a + [sep] + front && s[|s| - 1] == b[|b| - 1];
      CutLastAt(a, sep, front);
      assert b == front + [b[|b| - 1]];
    }
  }
}
