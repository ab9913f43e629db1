/** Sorting and selection over sequences, for comparators given as functions. */
module Sorting {
  import opened Wrappers
  import Strings

  // What sort.Stable and slices.SortStableFunc need of their comparator: x and y are tied when neither is less.
  ghost predicate StrictWeakOrder<T(!new)>(less: (T, T) -> bool) {
    && (forall x, y :: less(x, y) ==> !less(y, x))
    && (forall x, y, z :: less(x, z) ==> less(x, y) || less(y, z))
  }

  // A strict weak order in which only equal values are tied.
  ghost predicate StrictTotalOrder<T(!new)>(less: (T, T) -> bool) {
    && StrictWeakOrder(less)
    && (forall x, y :: !less(x, y) && !less(y, x) ==> x == y)
  }

  ghost predicate Ascending<T>(s: seq<T>, less: (T, T) -> bool) {
    forall i, j | 0 <= i < j < |s| :: !less(s[j], s[i])
  }

  ghost predicate StrictlyAscending<T>(s: seq<T>, less: (T, T) -> bool) {
    forall i, j | 0 <= i < j < |s| :: less(s[i], s[j])
  }

  lemma StringOrder()
    ensures StrictTotalOrder(Strings.Less)
  {
    forall x, y | Strings.Less(x, y) ensures !Strings.Less(y, x) {
      Strings.LessAsymmetric(x, y);
    }
    forall x, y, z | Strings.Less(x, z) ensures Strings.Less(x, y) || Strings.Less(y, z) {
      Strings.LessCotransitive(x, y, z);
    }
    forall x, y | !Strings.Less(x, y) && !Strings.Less(y, x) ensures x == y {
      Strings.LessTotal(x, y);
    }
  }

  function Filter<T>(s: seq<T>, keep: T -> bool): seq<T> {
    if s == [] then [] else (if keep(s[0]) then [s[0]] else []) + Filter(s[1..], keep)
  }

  function Map<T, U>(f: T -> U, s: seq<T>): (r: seq<U>)
    ensures |r| == |s| && forall i | 0 <= i < |s| :: r[i] == f(s[i])
  {
    if s == [] then [] else [f(s[0])] + Map(f, s[1..])
  }

  // The results of f, one after the other.
  function FlatMap<T, U>(f: T -> seq<U>, s: seq<T>): seq<U> {
    if s == [] then [] else FlatMap(f, s[..|s| - 1]) + f(s[|s| - 1])
  }

  lemma FlatMapSnoc<T, U>(f: T -> seq<U>, s: seq<T>, i: nat)
    requires i < |s|
    ensures FlatMap(f, s[..i + 1]) == FlatMap(f, s[..i]) + f(s[i])
  {
    assert s[..i + 1][..i] == s[..i];
  }

  lemma {:induction false} FlatMapMember<T(!new), U>(f: T -> seq<U>, s: seq<T>, y: U)
    ensures y in FlatMap(f, s) <==> exists x :: x in s && y in f(x)
  {
    if s != [] {
      var front, last := s[..|s| - 1], s[|s| - 1];
      assert s == front + [last];
      FlatMapMember(f, front, y);
      if y in FlatMap(f, front) {
        var x :| x in front && y in f(x);
        assert x in s;
      } else if y in f(last) {
        assert last in s;
      }
    }
  }

  lemma {:induction false} SameFlatMap<T, U>(f: T -> seq<U>, g: T -> seq<U>, s: seq<T>)
    requires forall x | x in s :: f(x) == g(x)
    ensures FlatMap(f, s) == FlatMap(g, s)
  {
    if s != [] {
      SameFlatMap(f, g, s[..|s| - 1]);
    }
  }

  lemma {:induction false} FlatMapConcat<T, U>(f: T -> seq<U>, a: seq<T>, b: seq<T>)
    ensures FlatMap(f, a + b) == FlatMap(f, a) + FlatMap(f, b)
  {
    if b == [] {
      assert a + b == a;
    } else {
      assert (a + b)[..|a + b| - 1] == a + b[..|b| - 1];
      FlatMapConcat(f, a, b[..|b| - 1]);
    }
  }

  // The infra package's slices.Unique: the first occurrence of each element.
  function Unique<T(==)>(s: seq<T>): seq<T> {
    if s == [] then []
    else
      var front := Unique(s[..|s| - 1]);
      if s[|s| - 1] in front then front else front + [s[|s| - 1]]
  }

  ghost predicate Distinct<T>(s: seq<T>) {
    forall i, j | 0 <= i < j < |s| :: s[i] != s[j]
  }

  lemma {:induction false} UniqueContents<T>(s: seq<T>)
    ensures Distinct(Unique(s))
    ensures forall x :: x in Unique(s) <==> x in s
  {
    if s != [] {
      UniqueContents(s[..|s| - 1]);
      assert s == s[..|s| - 1] + [s[|s| - 1]];
    }
  }

  lemma UniqueSnoc<T>(s: seq<T>, x: T)
    ensures Unique(s + [x]) == if x in Unique(s) then Unique(s) else Unique(s) + [x]
  {
    assert (s + [x])[..|s|] == s;
  }

  // The first element that satisfies p: how Envoy picks a route from a virtual host.
  function FirstMatch<T>(s: seq<T>, p: T -> bool): Option<T> {
    if s == [] then None else if p(s[0]) then Some(s[0]) else FirstMatch(s[1..], p)
  }

  function Insert<T>(x: T, s: seq<T>, less: (T, T) -> bool): seq<T> {
    if s == [] || !less(s[0], x) then [x] + s else [s[0]] + Insert(x, s[1..], less)
  }

  function StableSort<T>(s: seq<T>, less: (T, T) -> bool): seq<T> {
    if s == [] then [] else Insert(s[0], StableSort(s[1..], less), less)
  }

  // The winner of s: nothing in s is less, and of the tied ones it is the earliest (see BestWins).
  function Best<T>(s: seq<T>, less: (T, T) -> bool): T
    requires s != []
  {
    if |s| == 1 then s[0]
    else
      var b := Best(s[1..], less);
      if less(b, s[0]) then b else s[0]
  }

  lemma {:induction false} InsertContents<T>(x: T, s: seq<T>, less: (T, T) -> bool)
    ensures multiset(Insert(x, s, less)) == multiset([x]) + multiset(s)
  {
    if s != [] && less(s[0], x) {
      InsertContents(x, s[1..], less);
      assert s == [s[0]] + s[1..];
    }
  }

  lemma {:induction false} SortContents<T>(s: seq<T>, less: (T, T) -> bool)
    ensures multiset(StableSort(s, less)) == multiset(s)
    ensures |StableSort(s, less)| == |s|
  {
    if s != [] {
      SortContents(s[1..], less);
      InsertContents(s[0], StableSort(s[1..], less), less);
      assert s == [s[0]] + s[1..];
    }
    assert |multiset(StableSort(s, less))| == |multiset(s)|;
  }

  lemma SortMember<T(!new)>(s: seq<T>, less: (T, T) -> bool)
    ensures forall x :: x in StableSort(s, less) <==> x in s
  {
    SortContents(s, less);
    assert forall x :: x in s <==> x in multiset(s);
    assert forall x :: x in StableSort(s, less) <==> x in multiset(StableSort(s, less));
  }

  lemma MapConcat<T, U>(f: T -> U, a: seq<T>, b: seq<T>)
    ensures Map(f, a + b) == Map(f, a) + Map(f, b)
  {
  }

  lemma TakeSnoc<T>(s: seq<T>, i: nat)
    requires i < |s|
    ensures s[..i + 1] == s[..i] + [s[i]]
  {
  }

  lemma MapSnoc<T, U>(f: T -> U, s: seq<T>, x: T)
    ensures Map(f, s + [x]) == Map(f, s) + [f(x)]
  {
  }

  lemma MapInverse<T, U>(f: T -> U, g: U -> T, s: seq<T>)
    requires forall x | x in s :: g(f(x)) == x
    ensures Map(g, Map(f, s)) == s
  {
  }

  lemma DistinctConcat<T>(a: seq<T>, b: seq<T>)
    requires Distinct(a) && Distinct(b) && forall x | x in a :: x !in b
    ensures Distinct(a + b)
  {
    forall i, j | 0 <= i < j < |a + b| ensures (a + b)[i] != (a + b)[j] {
      if i < |a| <= j {
        assert a[i] in a && b[j - |a|] in b;
      }
    }
  }

  lemma {:induction false} FilterDistinct<T>(s: seq<T>, keep: T -> bool)
    requires Distinct(s)
    ensures Distinct(Filter(s, keep))
  {
    if s != [] {
      FilterDistinct(s[1..], keep);
      FilterMember(s[1..], keep);
    }
  }

  lemma MapMembers<T(!new), U>(f: T -> U, s: seq<T>)
    ensures forall x | x in s :: f(x) in Map(f, s)
    ensures forall y | y in Map(f, s) :: exists x :: x in s && f(x) == y
  {
    forall x | x in s ensures f(x) in Map(f, s) {
      var i :| 0 <= i < |s| && s[i] == x;
      assert Map(f, s)[i] == f(x);
    }
    forall y | y in Map(f, s) ensures exists x :: x in s && f(x) == y {
      var i :| 0 <= i < |s| && Map(f, s)[i] == y;
      assert s[i] in s && f(s[i]) == y;
    }
  }

  lemma {:induction false} InsertAscending<T(!new)>(x: T, s: seq<T>, less: (T, T) -> bool)
    requires StrictWeakOrder(less) && Ascending(s, less)
    ensures Ascending(Insert(x, s, less), less)
  {
    if s == [] {
    } else if less(s[0], x) {
      var rest := Insert(x, s[1..], less);
      InsertAscending(x, s[1..], less);
      InsertContents(x, s[1..], less);
      forall j | 0 <= j < |rest| ensures !less(rest[j], s[0]) {
        assert rest[j] in multiset(rest);
        assert rest[j] == x || rest[j] in s[1..];
      }
    } else {
      forall j | 0 <= j < |s| ensures !less(s[j], x) {
        assert j == 0 || !less(s[j], s[0]);
      }
    }
  }

  lemma {:induction false} SortAscending<T(!new)>(s: seq<T>, less: (T, T) -> bool)
    requires StrictWeakOrder(less)
    ensures Ascending(StableSort(s, less), less)
  {
    if s != [] {
      SortAscending(s[1..], less);
      InsertAscending(s[0], StableSort(s[1..], less), less);
    }
  }

  lemma HeadNotAbove<T(!new)>(s: seq<T>, x: T, less: (T, T) -> bool)
    requires StrictWeakOrder(less) && Ascending(s, less) && x in s
    ensures !less(x, s[0])
  {
    var i :| 0 <= i < |s| && s[i] == x;
    assert i == 0 || !less(s[i], s[0]);
  }

  lemma {:induction false} InsertFilter<T(!new)>(x: T, s: seq<T>, less: (T, T) -> bool, keep: T -> bool)
    requires StrictWeakOrder(less) && Ascending(s, less)
    ensures Filter(Insert(x, s, less), keep)
         == if keep(x) then Insert(x, Filter(s, keep), less) else Filter(s, keep)
  {
    if s == [] {
    } else if less(s[0], x) {
      InsertFilter(x, s[1..], less, keep);
      assert ([s[0]] + Insert(x, s[1..], less))[1..] == Insert(x, s[1..], less);
      if keep(s[0]) {
        assert Filter(s, keep)[1..] == Filter(s[1..], keep);
      } else {
        assert Filter(s, keep) == Filter(s[1..], keep);
      }
    } else {
      assert ([x] + s)[1..] == s;
      FilterMember(s, keep);
      if Filter(s, keep) != [] {
        var y := Filter(s, keep)[0];
        assert y in Filter(s, keep);
        HeadNotAbove(s, y, less);
      }
    }
  }

  lemma {:induction false} FilterMember<T>(s: seq<T>, keep: T -> bool)
    ensures forall x :: x in Filter(s, keep) <==> x in s && keep(x)
  {
    if s != [] {
      FilterMember(s[1..], keep);
    }
  }

  lemma {:induction false} FilterAll<T>(s: seq<T>, keep: T -> bool)
    requires forall x | x in s :: keep(x)
    ensures Filter(s, keep) == s
  {
    if s != [] {
      assert s[0] in s;
      FilterAll(s[1..], keep);
      assert s == [s[0]] + s[1..];
    }
  }

  lemma {:induction false} FilterNone<T>(s: seq<T>, keep: T -> bool)
    requires forall x | x in s :: !keep(x)
    ensures Filter(s, keep) == []
  {
    if s != [] {
      assert s[0] in s;
      FilterNone(s[1..], keep);
    }
  }

  // Stability: sorting commutes with dropping elements, so tied elements keep their order.
  lemma {:induction false} SortFilter<T(!new)>(s: seq<T>, less: (T, T) -> bool, keep: T -> bool)
    requires StrictWeakOrder(less)
    ensures Filter(StableSort(s, less), keep) == StableSort(Filter(s, keep), less)
  {
    if s != [] {
      SortFilter(s[1..], less, keep);
      SortAscending(s[1..], less);
      InsertFilter(s[0], StableSort(s[1..], less), less, keep);
      if keep(s[0]) {
        assert Filter(s, keep)[1..] == Filter(s[1..], keep);
      } else {
        assert Filter(s, keep) == Filter(s[1..], keep);
      }
    }
  }

  lemma {:induction false} BestHeadsSort<T>(s: seq<T>, less: (T, T) -> bool)
    requires s != []
    ensures |StableSort(s, less)| == |s| && StableSort(s, less)[0] == Best(s, less)
  {
    SortContents(s, less);
    SortContents(s[1..], less);
    if |s| > 1 {
      BestHeadsSort(s[1..], less);
    }
  }

  // Best is the element no other is less than, and the earliest of the tied ones.
  lemma {:induction false} BestWins<T(!new)>(s: seq<T>, less: (T, T) -> bool) returns (i: nat)
    requires StrictWeakOrder(less) && s != []
    ensures i < |s| && s[i] == Best(s, less)
    ensures forall j | 0 <= j < |s| :: !less(s[j], s[i])
    ensures forall j | 0 <= j < i :: less(s[i], s[j])
  {
    i := 0;
    if |s| > 1 {
      var k := BestWins(s[1..], less);
      var b := s[1..][k];
      if less(b, s[0]) {
        i := k + 1;
        forall j | 0 <= j < i ensures less(s[i], s[j]) {
          assert j == 0 || s[j] == s[1..][j - 1];
        }
        forall j | 0 <= j < |s| ensures !less(s[j], s[i]) {
          assert j == 0 || s[j] == s[1..][j - 1];
        }
      } else {
        forall j | 0 <= j < |s| ensures !less(s[j], s[i]) {
          assert j == 0 || s[j] == s[1..][j - 1];
        }
      }
    }
  }

  lemma {:induction false} FirstMatchHeadsFilter<T>(s: seq<T>, p: T -> bool)
    ensures FirstMatch(s, p) == if Filter(s, p) == [] then None else Some(Filter(s, p)[0])
  {
    if s != [] && !p(s[0]) {
      FirstMatchHeadsFilter(s[1..], p);
    }
  }

  // First match in a stably sorted list is the best of the matching elements.
  lemma FirstMatchOfSort<T(!new)>(s: seq<T>, less: (T, T) -> bool, p: T -> bool)
    requires StrictWeakOrder(less)
    ensures FirstMatch(StableSort(s, less), p)
         == if Filter(s, p) == [] then None else Some(Best(Filter(s, p), less))
  {
    FirstMatchHeadsFilter(StableSort(s, less), p);
    SortFilter(s, less, p);
    SortContents(Filter(s, p), less);
    if Filter(s, p) != [] {
      BestHeadsSort(Filter(s, p), less);
    }
  }

  // Under a total order an ascending sequence is determined by its contents.
  lemma {:induction false} AscendingUnique<T(!new)>(a: seq<T>, b: seq<T>, less: (T, T) -> bool)
    requires StrictTotalOrder(less)
    requires Ascending(a, less) && Ascending(b, less) && multiset(a) == multiset(b)
    ensures a == b
  {
    SameLength(a, b);
    if a != [] {
      SameHead(a, b, less);
      TailContents(a);
      TailContents(b);
      AscendingUnique(a[1..], b[1..], less);
      assert a == [a[0]] + a[1..] && b == [b[0]] + b[1..];
    }
  }

  lemma SameLength<T>(a: seq<T>, b: seq<T>)
    requires multiset(a) == multiset(b)
    ensures |a| == |b|
  {
    assert |multiset(a)| == |a| && |multiset(b)| == |b|;
  }

  lemma SameHead<T(!new)>(a: seq<T>, b: seq<T>, less: (T, T) -> bool)
    requires StrictTotalOrder(less) && a != [] && b != []
    requires Ascending(a, less) && Ascending(b, less) && multiset(a) == multiset(b)
    ensures a[0] == b[0]
  {
    assert a[0] in multiset(b) && b[0] in multiset(a);
    HeadNotAbove(a, b[0], less);
    HeadNotAbove(b, a[0], less);
  }

  lemma TailContents<T>(s: seq<T>)
    requires s != []
    ensures multiset(s[1..]) == multiset(s) - multiset{s[0]}
  {
    assert s == [s[0]] + s[1..];
  }

  // Sorting under a total order depends on the contents only.
  lemma SortCanonical<T(!new)>(a: seq<T>, b: seq<T>, less: (T, T) -> bool)
    requires StrictTotalOrder(less) && multiset(a) == multiset(b)
    ensures StableSort(a, less) == StableSort(b, less)
  {
    SortContents(a, less);
    SortContents(b, less);
    SortAscending(a, less);
    SortAscending(b, less);
    AscendingUnique(StableSort(a, less), StableSort(b, less), less);
  }

  function Without<T>(s: seq<T>, j: nat): seq<T>
    requires j < |s|
  {
    s[..j] + s[j + 1..]
  }

  lemma WithoutContents<T>(s: seq<T>, j: nat)
    requires j < |s|
    ensures multiset(s) == multiset(Without(s, j)) + multiset{s[j]}
    ensures multiset(Without(s, j)) == multiset(s) - multiset{s[j]}
  {
    assert s == s[..j] + ([s[j]] + s[j + 1..]);
  }

  lemma MapOfWithout<T, U>(f: T -> U, s: seq<T>, j: nat)
    requires j < |s|
    ensures Map(f, Without(s, j)) == Without(Map(f, s), j)
  {
    var t, u := Map(f, Without(s, j)), Without(Map(f, s), j);
    assert |t| == |u|;
    forall i | 0 <= i < |t| ensures t[i] == u[i] {
      WithoutAt(s, j, i);
      WithoutAt(Map(f, s), j, i);
    }
  }

  lemma WithoutAt<T>(s: seq<T>, j: nat, i: nat)
    requires j < |s| && i < |s| - 1
    ensures Without(s, j)[i] == s[if i < j then i else i + 1]
  {
  }

  lemma MapWithout<T, U>(f: T -> U, s: seq<T>, j: nat)
    requires j < |s|
    ensures multiset(Map(f, s)) == multiset(Map(f, Without(s, j))) + multiset{f(s[j])}
  {
    MapOfWithout(f, s, j);
    WithoutContents(Map(f, s), j);
  }

  lemma {:induction false} MapMultiset<T, U>(f: T -> U, a: seq<T>, b: seq<T>)
    requires multiset(a) == multiset(b)
    ensures multiset(Map(f, a)) == multiset(Map(f, b))
    decreases |a|
  {
    if a == [] {
      assert |multiset(b)| == |b|;
    } else {
      assert a[0] in multiset(b);
      var j :| 0 <= j < |b| && b[j] == a[0];
      WithoutContents(a, 0);
      WithoutContents(b, j);
      MapMultiset(f, Without(a, 0), Without(b, j));
      MapWithout(f, a, 0);
      MapWithout(f, b, j);
    }
  }

  lemma FlatMapWithout<T, U>(f: T -> seq<U>, s: seq<T>, j: nat)
    requires j < |s|
    ensures multiset(FlatMap(f, s)) == multiset(FlatMap(f, Without(s, j))) + multiset(f(s[j]))
  {
    FlatMapAround(f, s, j);
    MiddleContents(FlatMap(f, s[..j]), f(s[j]), FlatMap(f, s[j + 1..]));
    FlatMapConcat(f, s[..j], s[j + 1..]);
  }

  lemma FlatMapAround<T, U>(f: T -> seq<U>, s: seq<T>, j: nat)
    requires j < |s|
    ensures FlatMap(f, s) == FlatMap(f, s[..j]) + f(s[j]) + FlatMap(f, s[j + 1..])
  {
    assert s == s[..j + 1] + s[j + 1..];
    FlatMapConcat(f, s[..j + 1], s[j + 1..]);
    FlatMapSnoc(f, s, j);
  }

  lemma MiddleContents<T>(a: seq<T>, m: seq<T>, b: seq<T>)
    ensures multiset(a + m + b) == multiset(a + b) + multiset(m)
  {
  }

  lemma {:induction false} FlatMapMultiset<T, U>(f: T -> seq<U>, a: seq<T>, b: seq<T>)
    requires multiset(a) == multiset(b)
    ensures multiset(FlatMap(f, a)) == multiset(FlatMap(f, b))
    decreases |a|
  {
    if a == [] {
      assert |multiset(b)| == |b|;
    } else {
      assert a[0] in multiset(b);
      var j :| 0 <= j < |b| && b[j] == a[0];
      WithoutContents(a, 0);
      WithoutContents(b, j);
      FlatMapMultiset(f, Without(a, 0), Without(b, j));
      FlatMapWithout(f, a, 0);
      FlatMapWithout(f, b, j);
    }
  }

  lemma {:induction false} InsertByKey<T(!new), U>(f: T -> U, x: T, s: seq<T>, byKey: (T, T) -> bool, less: (U, U) -> bool)
    requires forall a, b :: byKey(a, b) == less(f(a), f(b))
    ensures Map(f, Insert(x, s, byKey)) == Insert(f(x), Map(f, s), less)
  {
    if s != [] && less(f(s[0]), f(x)) {
      InsertByKey(f, x, s[1..], byKey, less);
      assert Map(f, s)[1..] == Map(f, s[1..]);
    }
  }

  // Sorting elements by a key lays the keys out in order.
  lemma {:induction false} SortByKey<T(!new), U>(f: T -> U, s: seq<T>, byKey: (T, T) -> bool, less: (U, U) -> bool)
    requires forall a, b :: byKey(a, b) == less(f(a), f(b))
    ensures Map(f, StableSort(s, byKey)) == StableSort(Map(f, s), less)
  {
    if s != [] {
      SortByKey(f, s[1..], byKey, less);
      InsertByKey(f, s[0], StableSort(s[1..], byKey), byKey, less);
    }
  }

  // Sorting by a key that tells the elements apart leaves the keys strictly ascending.
  lemma SortDistinct<T(!new), U(!new)>(f: T -> U, s: seq<T>, byKey: (T, T) -> bool, less: (U, U) -> bool)
    requires forall a, b :: byKey(a, b) == less(f(a), f(b))
    requires StrictTotalOrder(less) && Distinct(Map(f, s))
    ensures StrictlyAscending(Map(f, StableSort(s, byKey)), less)
    ensures forall x :: x in StableSort(s, byKey) <==> x in s
  {
    SortByKey(f, s, byKey, less);
    SortMember(s, byKey);
    SortAscending(Map(f, s), less);
    SortKeepsDistinct(Map(f, s), less);
  }

  lemma {:induction false} InsertDistinct<T>(x: T, s: seq<T>, less: (T, T) -> bool)
    requires Distinct(s) && x !in s
    ensures Distinct(Insert(x, s, less))
  {
    if s != [] && less(s[0], x) {
      var rest := Insert(x, s[1..], less);
      InsertDistinct(x, s[1..], less);
      InsertContents(x, s[1..], less);
      forall j | 0 <= j < |rest| ensures rest[j] != s[0] {
        assert rest[j] in multiset(rest);
      }
    }
  }

  lemma {:induction false} SortKeepsDistinct<T>(s: seq<T>, less: (T, T) -> bool)
    requires Distinct(s)
    ensures Distinct(StableSort(s, less))
  {
    if s != [] {
      SortKeepsDistinct(s[1..], less);
      SortContents(s[1..], less);
      assert s[0] !in multiset(s[1..]);
      InsertDistinct(s[0], StableSort(s[1..], less), less);
    }
  }

  // Two strictly ascending sequences with the same elements are equal.
  lemma {:induction false} StrictlyAscendingUnique<T(!new)>(a: seq<T>, b: seq<T>, less: (T, T) -> bool)
    requires StrictWeakOrder(less)
    requires StrictlyAscending(a, less) && StrictlyAscending(b, less)
    requires forall x :: x in a <==> x in b
    ensures a == b
  {
    assert (a != [] ==> a[0] in b) && (b != [] ==> b[0] in a);
    if a != [] {
      assert a[0] == b[0];
      forall x ensures x in a[1..] <==> x in b[1..] {
        assert x in a[1..] ==> x in a && less(a[0], x);
        assert x in b[1..] ==> x in b && less(b[0], x);
        assert x in a && x != a[0] ==> x in a[1..];
        assert x in b && x != b[0] ==> x in b[1..];
      }
      StrictlyAscendingUnique(a[1..], b[1..], less);
      assert a == [a[0]] + a[1..] && b == [b[0]] + b[1..];
    }
  }

  // The keys of a map, collected in any order and sorted.
  method SortedKeys<V>(m: map<string, V>) returns (keys: seq<string>)
    ensures StrictlyAscending(keys, Strings.Less)
    ensures forall k :: k in keys <==> k in m
  {
    var list: seq<string> := [];
    var left := m.Keys;
    while left != {}
      invariant left <= m.Keys && Distinct(list)
      invariant forall k :: k in list <==> k in m && k !in left
    {
      var k :| k in left;
      list := list + [k];
      left := left - {k};
    }
    keys := StableSort(list, Strings.Less);
    SortMember(list, Strings.Less);
    SortKeepsDistinct(list, Strings.Less);
    StringOrder();
    SortAscending(list, Strings.Less);
  }
}
