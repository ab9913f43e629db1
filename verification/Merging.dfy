/** Merging a list by key: elements with equal keys become one entry, at the place of the first of them. */
module Merging {
  import opened Wrappers
  import opened Sorting

  function WithKey<T, K(==)>(s: seq<T>, key: T -> K, k: K): seq<T> {
    if s == [] then []
    else
      var front := WithKey(s[..|s| - 1], key, k);
      if key(s[|s| - 1]) == k then front + [s[|s| - 1]] else front
  }

  lemma WithKeySnoc<T, K>(s: seq<T>, key: T -> K, i: nat, k: K)
    requires i < |s|
    ensures WithKey(s[..i + 1], key, k) == WithKey(s[..i], key, k) + (if key(s[i]) == k then [s[i]] else [])
  {
    assert s[..i + 1][..i] == s[..i];
  }

  lemma {:induction false} WithKeyGrows<T, K>(s: seq<T>, key: T -> K, i: nat, k: K)
    requires i <= |s|
    ensures WithKey(s[..i], key, k) <= WithKey(s, key, k)
    decreases |s| - i
  {
    if i < |s| {
      WithKeySnoc(s, key, i, k);
      WithKeyGrows(s, key, i + 1, k);
    } else {
      assert s[..i] == s;
    }
  }

  lemma {:induction false} WithKeyMember<T, K>(s: seq<T>, key: T -> K, k: K)
    ensures forall x :: x in WithKey(s, key, k) <==> x in s && key(x) == k
  {
    if s != [] {
      WithKeyMember(s[..|s| - 1], key, k);
      assert s == s[..|s| - 1] + [s[|s| - 1]];
    }
  }

  // The elements merged with the i-th.
  function GroupAt<T, K(==)>(s: seq<T>, key: T -> K, i: nat): (group: seq<T>)
    requires i < |s|
    ensures group != []
  {
    WithKeySnoc(s, key, i, key(s[i]));
    WithKeyGrows(s, key, i + 1, key(s[i]));
    WithKey(s, key, key(s[i]))
  }

  // The entries the first n elements give rise to. A group is emitted at its first element;
  // a sticky group once more at each of its other elements.
  function Emitted<T, K(==), R>(s: seq<T>, key: T -> K, sticky: seq<T> -> bool, emit: seq<T> -> R, n: nat): seq<R>
    requires n <= |s|
  {
    if n == 0 then []
    else
      var group := GroupAt(s, key, n - 1);
      var before := Emitted(s, key, sticky, emit, n - 1);
      if sticky(group) || WithKey(s[..n - 1], key, key(s[n - 1])) == [] then before + [emit(group)] else before
  }

  lemma {:induction false} MapEmitted<T, K, R, S>(s: seq<T>, key: T -> K, sticky: seq<T> -> bool, emit: seq<T> -> R, h: R -> S, emit': seq<T> -> S, n: nat)
    requires n <= |s| && forall g: seq<T> :: emit'(g) == h(emit(g))
    ensures Map(h, Emitted(s, key, sticky, emit, n)) == Emitted(s, key, sticky, emit', n)
  {
    if n > 0 {
      MapEmitted(s, key, sticky, emit, h, emit', n - 1);
    }
  }

  // Every entry stems from a group of the list.
  lemma {:induction false} EmittedOrigin<T, K, R>(s: seq<T>, key: T -> K, sticky: seq<T> -> bool, emit: seq<T> -> R, n: nat, e: R)
    requires n <= |s| && e in Emitted(s, key, sticky, emit, n)
    ensures exists i: nat :: i < n && e == emit(GroupAt(s, key, i))
  {
    if e in Emitted(s, key, sticky, emit, n - 1) {
      EmittedOrigin(s, key, sticky, emit, n - 1, e);
    } else {
      assert e == emit(GroupAt(s, key, n - 1));
    }
  }

  // And every group has its entry.
  lemma {:induction false} EmittedCovers<T(!new), K(!new), R>(s: seq<T>, key: T -> K, sticky: seq<T> -> bool, emit: seq<T> -> R, n: nat, i: nat)
    requires i < n <= |s|
    ensures emit(GroupAt(s, key, i)) in Emitted(s, key, sticky, emit, n)
  {
    if i < n - 1 {
      EmittedCovers(s, key, sticky, emit, n - 1, i);
    } else if WithKey(s[..i], key, key(s[i])) != [] {
      WithKeyMember(s[..i], key, key(s[i]));
      var y := WithKey(s[..i], key, key(s[i]))[0];
      assert y in WithKey(s[..i], key, key(s[i])) && y in s[..i];
      var j :| 0 <= j < i && s[j] == y;
      EmittedCovers(s, key, sticky, emit, n - 1, j);
    }
  }

  // ---------- the loop over a map of groups ----------

  // The group is still in the map when the i-th element is reached.
  ghost predicate Alive<T, K>(s: seq<T>, key: T -> K, sticky: seq<T> -> bool, i: nat, k: K)
    requires i <= |s|
  {
    WithKey(s, key, k) != [] && (sticky(WithKey(s, key, k)) || WithKey(s[..i], key, k) == [])
  }

  ghost predicate AliveKeys<T, K(!new)>(s: seq<T>, key: T -> K, sticky: seq<T> -> bool, i: nat, keys: set<K>)
    requires i <= |s|
  {
    forall k :: k in keys <==> Alive(s, key, sticky, i, k)
  }

  lemma AliveNext<T, K(!new)>(s: seq<T>, key: T -> K, sticky: seq<T> -> bool, i: nat, keys: set<K>)
    requires i < |s| && AliveKeys(s, key, sticky, i, keys)
    ensures AliveKeys(s, key, sticky, i + 1, if sticky(GroupAt(s, key, i)) then keys else keys - {key(s[i])})
    ensures key(s[i]) in keys <==> sticky(GroupAt(s, key, i)) || WithKey(s[..i], key, key(s[i])) == []
  {
    forall k ensures Alive(s, key, sticky, i + 1, k)
                <==> Alive(s, key, sticky, i, k) && (key(s[i]) != k || sticky(GroupAt(s, key, i)))
    {
      WithKeySnoc(s, key, i, k);
    }
  }

  method CollectByKey<T, K(!new, ==)>(s: seq<T>, key: T -> K) returns (groups: map<K, seq<T>>)
    ensures forall k :: k in groups <==> WithKey(s, key, k) != []
    ensures forall k | k in groups :: groups[k] == WithKey(s, key, k)
  {
    groups := map[];
    for i := 0 to |s|
      invariant forall k :: k in groups <==> WithKey(s[..i], key, k) != []
      invariant forall k | k in groups :: groups[k] == WithKey(s[..i], key, k)
    {
      var k := key(s[i]);
      forall j ensures WithKey(s[..i + 1], key, j) == WithKey(s[..i], key, j) + (if key(s[i]) == j then [s[i]] else []) {
        WithKeySnoc(s, key, i, j);
      }
      groups := groups[k := (if k in groups then groups[k] else []) + [s[i]]];
    }
    assert s[..|s|] == s;
  }

  // The loop both route builders run: collect the groups in a map, then walk the list again, emitting the group of
  // each element that is still in the map and deleting it unless it is sticky.
  method EmitGroups<T, K(!new, ==), R>(s: seq<T>, key: T -> K, sticky: seq<T> -> bool, emit: seq<T> -> R) returns (res: seq<R>)
    ensures res == Emitted(s, key, sticky, emit, |s|)
  {
    var groups := CollectByKey(s, key);
    res := [];
    assert AliveKeys(s, key, sticky, 0, groups.Keys);
    for i := 0 to |s|
      invariant res == Emitted(s, key, sticky, emit, i)
      invariant AliveKeys(s, key, sticky, i, groups.Keys)
      invariant forall k | k in groups :: groups[k] == WithKey(s, key, k)
    {
      var k := key(s[i]);
      ghost var group, keys := GroupAt(s, key, i), groups.Keys;
      AliveNext(s, key, sticky, i, keys);
      if k in groups {
        var members := groups[k];
        res := res + [emit(members)];
        if !sticky(members) {
          groups := groups - {k};
        }
      }
      assert groups.Keys == if sticky(group) then keys else keys - {k};
    }
  }

  // ---------- merging does not change who wins ----------

  lemma {:induction false} BestSnoc<T(!new)>(s: seq<T>, x: T, less: (T, T) -> bool)
    requires StrictWeakOrder(less) && s != []
    ensures Best(s + [x], less) == if less(x, Best(s, less)) then x else Best(s, less)
  {
    assert (s + [x])[1..] == s[1..] + [x];
    if |s| > 1 {
      BestSnoc(s[1..], x, less);
    }
  }

  lemma FilterHead<T>(s: seq<T>, keep: T -> bool)
    requires s != []
    ensures Filter(s, keep) == (if keep(s[0]) then [s[0]] else []) + Filter(s[1..], keep)
  {
  }

  lemma {:induction false} FilterSnoc<T>(s: seq<T>, x: T, keep: T -> bool)
    ensures Filter(s + [x], keep) == Filter(s, keep) + (if keep(x) then [x] else [])
  {
    if s == [] {
      assert s + [x] == [x];
    } else {
      FilterSnoc(s[1..], x, keep);
      FilterHead(s, keep);
      FilterHead(s + [x], keep);
      assert (s + [x])[1..] == s[1..] + [x];
    }
  }

  lemma {:induction false} FilterConcat<T>(a: seq<T>, b: seq<T>, keep: T -> bool)
    ensures Filter(a + b, keep) == Filter(a, keep) + Filter(b, keep)
  {
    if b == [] {
      assert a + b == a;
    } else {
      var front, x := b[..|b| - 1], b[|b| - 1];
      FilterConcat(a, front, keep);
      FilterSnoc(front, x, keep);
      FilterSnoc(a + front, x, keep);
      assert b == front + [x] && a + b == a + front + [x];
    }
  }

  // The entry the i-th element is part of.
  function EntryAt<T, K(==), R>(s: seq<T>, key: T -> K, emit: seq<T> -> R, x: T): R {
    emit(WithKey(s, key, key(x)))
  }

  // The entry's selection and rank are those of any element merged into it.
  ghost predicate Faithful<T(!new), K, R>(
    s: seq<T>, key: T -> K, emit: seq<T> -> R, p: R -> bool, q: T -> bool, less: (R, R) -> bool, rank: (T, T) -> bool)
  {
    && (forall x | x in s :: p(EntryAt(s, key, emit, x)) == q(x))
    && (forall x, y | x in s && y in s :: less(EntryAt(s, key, emit, x), EntryAt(s, key, emit, y)) == rank(x, y))
  }

  ghost predicate SameWinner<T, K, R>(
    s: seq<T>, key: T -> K, emit: seq<T> -> R, less: (R, R) -> bool, rank: (T, T) -> bool, entries: seq<R>, elements: seq<T>)
  {
    && (entries == [] <==> elements == [])
    && (elements != [] ==> Best(entries, less) == EntryAt(s, key, emit, Best(elements, rank)))
  }

  lemma {:induction false} MergedWinner<T(!new), K, R(!new)>(
    s: seq<T>, key: T -> K, sticky: seq<T> -> bool, emit: seq<T> -> R,
    p: R -> bool, q: T -> bool, less: (R, R) -> bool, rank: (T, T) -> bool, n: nat)
    requires n <= |s| && StrictWeakOrder(less) && StrictWeakOrder(rank) && Faithful(s, key, emit, p, q, less, rank)
    ensures SameWinner(s, key, emit, less, rank, Filter(Emitted(s, key, sticky, emit, n), p), Filter(s[..n], q))
  {
    if n > 0 {
      MergedWinner(s, key, sticky, emit, p, q, less, rank, n - 1);
      var x, front := s[n - 1], s[..n - 1];
      var before := Emitted(s, key, sticky, emit, n - 1);
      var entry := EntryAt(s, key, emit, x);
      assert s[..n] == front + [x];
      FilterSnoc(front, x, q);
      FilterSnoc(before, entry, p);
      assert x in s && p(entry) == q(x);
      var emitted := sticky(GroupAt(s, key, n - 1)) || WithKey(front, key, key(x)) == [];
      assert Emitted(s, key, sticky, emit, n) == if emitted then before + [entry] else before;
      if q(x) && emitted {
        FilterMember(front, q);
        WinnerOfMore(s, key, emit, p, q, less, rank, Filter(before, p), Filter(front, q), x);
      } else if q(x) {
        LateElement(s, key, emit, p, q, less, rank, n - 1);
      } else {
        assert Filter(front + [x], q) == Filter(front, q) && Filter(before + [entry], p) == Filter(before, p);
      }
    }
  }

  // A new entry and its element keep the winners in step.
  lemma WinnerOfMore<T(!new), K, R(!new)>(
    s: seq<T>, key: T -> K, emit: seq<T> -> R, p: R -> bool, q: T -> bool, less: (R, R) -> bool, rank: (T, T) -> bool,
    entries: seq<R>, elements: seq<T>, x: T)
    requires StrictWeakOrder(less) && StrictWeakOrder(rank) && Faithful(s, key, emit, p, q, less, rank)
    requires SameWinner(s, key, emit, less, rank, entries, elements) && x in s && forall y | y in elements :: y in s
    ensures SameWinner(s, key, emit, less, rank, entries + [EntryAt(s, key, emit, x)], elements + [x])
  {
    if elements != [] {
      BestSnoc(elements, x, rank);
      BestSnoc(entries, EntryAt(s, key, emit, x), less);
      BestIsElement(elements, rank);
    } else {
      assert elements + [x] == [x] && entries + [EntryAt(s, key, emit, x)] == [EntryAt(s, key, emit, x)];
    }
  }

  // An element merged into an entry that is already there does not beat the winner.
  lemma LateElement<T(!new), K, R(!new)>(
    s: seq<T>, key: T -> K, emit: seq<T> -> R, p: R -> bool, q: T -> bool, less: (R, R) -> bool, rank: (T, T) -> bool, n: nat)
    requires n < |s| && StrictWeakOrder(rank) && Faithful(s, key, emit, p, q, less, rank)
    requires q(s[n]) && WithKey(s[..n], key, key(s[n])) != []
    ensures Filter(s[..n], q) != [] && Best(Filter(s[..n], q) + [s[n]], rank) == Best(Filter(s[..n], q), rank)
  {
    var front, x := s[..n], s[n];
    FilterMember(front, q);
    WithKeyMember(front, key, key(x));
    var y := WithKey(front, key, key(x))[0];
    assert y in WithKey(front, key, key(x)) && y in s && x in s;
    assert EntryAt(s, key, emit, y) == EntryAt(s, key, emit, x) && y in Filter(front, q);
    BestUnbeaten(Filter(front, q), y, rank);
    BestSnoc(Filter(front, q), x, rank);
  }

  lemma BestIsElement<T(!new)>(s: seq<T>, less: (T, T) -> bool)
    requires StrictWeakOrder(less) && s != []
    ensures Best(s, less) in s
  {
    var i := BestWins(s, less);
  }

  lemma BestUnbeaten<T(!new)>(s: seq<T>, x: T, less: (T, T) -> bool)
    requires StrictWeakOrder(less) && x in s
    ensures Best(s, less) in s && !less(x, Best(s, less))
  {
    var i := BestWins(s, less);
  }

  // First match in the sorted entries is the entry of the best matching element.
  lemma FirstMatchOfMerged<T(!new), K, R(!new)>(
    s: seq<T>, key: T -> K, sticky: seq<T> -> bool, emit: seq<T> -> R,
    p: R -> bool, q: T -> bool, less: (R, R) -> bool, rank: (T, T) -> bool)
    requires StrictWeakOrder(less) && StrictWeakOrder(rank) && Faithful(s, key, emit, p, q, less, rank)
    ensures FirstMatch(StableSort(Emitted(s, key, sticky, emit, |s|), less), p)
         == if Filter(s, q) == [] then None else Some(EntryAt(s, key, emit, Best(Filter(s, q), rank)))
  {
    MergedWinner(s, key, sticky, emit, p, q, less, rank, |s|);
    assert s[..|s|] == s;
    FirstMatchOfSort(Emitted(s, key, sticky, emit, |s|), less, p);
  }
}
