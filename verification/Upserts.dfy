/** Lists kept by key: an upsert changes the first element with the key, or appends a new one. */
module Upserts {

  // The list's view of its elements: their key, and the element a key starts from.
  datatype Keyed<!K, !T> = Keyed(key: T -> K, make: K -> T)

  datatype Op<!K, !T> = Op(key: K, change: T -> T)

  ghost predicate Lawful<K(!new), T(!new)>(view: Keyed<K, T>, op: Op<K, T>) {
    && (forall k :: view.key(view.make(k)) == k)
    && (forall x | view.key(x) == op.key :: view.key(op.change(x)) == op.key)
  }

  // The index of the first element with the key, or the length.
  function Find<K(==), T>(s: seq<T>, view: Keyed<K, T>, k: K): (i: nat)
    ensures i <= |s| && (i < |s| ==> view.key(s[i]) == k) && forall j | 0 <= j < i :: view.key(s[j]) != k
  {
    if s == [] then 0 else if view.key(s[0]) == k then 0
    else
      var i := Find(s[1..], view, k);
      assert forall j | 1 <= j < i + 1 :: s[j] == s[1..][j - 1];
      i + 1
  }

  function Get<K(==), T>(s: seq<T>, view: Keyed<K, T>, k: K): T {
    var i := Find(s, view, k);
    if i < |s| then s[i] else view.make(k)
  }

  function Upsert<K(==), T>(s: seq<T>, view: Keyed<K, T>, op: Op<K, T>): seq<T> {
    var i := Find(s, view, op.key);
    if i < |s| then s[i := op.change(s[i])] else s + [op.change(view.make(op.key))]
  }

  function Apply<K(==), T>(s: seq<T>, view: Keyed<K, T>, ops: seq<Op<K, T>>): seq<T> {
    if ops == [] then s else Upsert(Apply(s, view, ops[..|ops| - 1]), view, ops[|ops| - 1])
  }

  // What the operations do to the element of one key.
  function Through<K(==), T>(ops: seq<Op<K, T>>, k: K, x: T): T {
    if ops == [] then x
    else
      var y := Through(ops[..|ops| - 1], k, x);
      if ops[|ops| - 1].key == k then ops[|ops| - 1].change(y) else y
  }

  ghost predicate AllLawful<K(!new), T(!new)>(view: Keyed<K, T>, ops: seq<Op<K, T>>) {
    (forall k :: view.key(view.make(k)) == k) && forall op | op in ops :: Lawful(view, op)
  }

  lemma FindUnique<K, T>(s: seq<T>, view: Keyed<K, T>, k: K, i: nat)
    requires i <= |s| && (i < |s| ==> view.key(s[i]) == k) && forall j | 0 <= j < i :: view.key(s[j]) != k
    ensures Find(s, view, k) == i
  {
  }

  // An upsert reaches the key's element only, and every other element stays as it is.
  lemma UpsertEffect<K(!new), T(!new)>(s: seq<T>, view: Keyed<K, T>, op: Op<K, T>)
    requires Lawful(view, op)
    ensures var s' := Upsert(s, view, op);
      && |s| <= |s'| && (forall i | 0 <= i < |s| :: view.key(s'[i]) == view.key(s[i]))
      && (forall i | 0 <= i < |s| && i != Find(s, view, op.key) :: s'[i] == s[i])
      && (Find(s, view, op.key) < |s| ==> |s'| == |s|)
      && Find(s', view, op.key) < |s'|
  {
    var s', i := Upsert(s, view, op), Find(s, view, op.key);
    FindUnique(s', view, op.key, i);
  }

  lemma UpsertFind<K(!new), T(!new)>(s: seq<T>, view: Keyed<K, T>, op: Op<K, T>, k: K)
    requires Lawful(view, op)
    ensures Find(s, view, k) < |s| ==> Find(Upsert(s, view, op), view, k) == Find(s, view, k)
    ensures Get(Upsert(s, view, op), view, k) == if k == op.key then op.change(Get(s, view, k)) else Get(s, view, k)
  {
    var s', i := Upsert(s, view, op), Find(s, view, k);
    UpsertEffect(s, view, op);
    if i < |s| {
      FindUnique(s', view, k, i);
    } else if k == op.key {
      FindUnique(s', view, k, |s|);
    } else {
      FindUnique(s', view, k, |s'|);
    }
  }

  lemma {:induction false} ApplyEffect<K(!new), T(!new)>(s: seq<T>, view: Keyed<K, T>, ops: seq<Op<K, T>>)
    requires AllLawful(view, ops)
    ensures var s' := Apply(s, view, ops);
      && |s| <= |s'| && (forall i | 0 <= i < |s| :: view.key(s'[i]) == view.key(s[i]))
      && (forall i | 0 <= i < |s| && Find(s, view, view.key(s[i])) != i :: s'[i] == s[i])
    ensures forall k :: Find(s, view, k) < |s| ==> Find(Apply(s, view, ops), view, k) == Find(s, view, k)
    ensures forall k :: Get(Apply(s, view, ops), view, k) == Through(ops, k, Get(s, view, k))
    ensures forall op | op in ops :: Find(Apply(s, view, ops), view, op.key) < |Apply(s, view, ops)|
  {
    if ops != [] {
      var front, last := ops[..|ops| - 1], ops[|ops| - 1];
      assert ops == front + [last] && last in ops;
      ApplyEffect(s, view, front);
      var mid := Apply(s, view, front);
      UpsertEffect(mid, view, last);
      forall k ensures Find(mid, view, k) < |mid| ==> Find(Upsert(mid, view, last), view, k) == Find(mid, view, k)
               ensures Get(Upsert(mid, view, last), view, k) == if k == last.key then last.change(Get(mid, view, k)) else Get(mid, view, k) {
        UpsertFind(mid, view, last, k);
      }
    }
  }

  lemma ApplySnoc<K, T>(s: seq<T>, view: Keyed<K, T>, ops: seq<Op<K, T>>, op: Op<K, T>)
    ensures Apply(s, view, ops + [op]) == Upsert(Apply(s, view, ops), view, op)
  {
    assert (ops + [op])[..|ops|] == ops;
  }

  lemma {:induction false} ApplyConcat<K, T>(s: seq<T>, view: Keyed<K, T>, a: seq<Op<K, T>>, b: seq<Op<K, T>>)
    ensures Apply(s, view, a + b) == Apply(Apply(s, view, a), view, b)
  {
    if b == [] {
      assert a + b == a;
    } else {
      assert a + b == (a + b[..|b| - 1]) + [b[|b| - 1]];
      ApplySnoc(s, view, a + b[..|b| - 1], b[|b| - 1]);
      ApplyConcat(s, view, a, b[..|b| - 1]);
    }
  }

  lemma ThroughSnoc<K, T>(ops: seq<Op<K, T>>, op: Op<K, T>, k: K, x: T)
    ensures Through(ops + [op], k, x) == if op.key == k then op.change(Through(ops, k, x)) else Through(ops, k, x)
  {
    assert (ops + [op])[..|ops|] == ops;
  }

  // Operations whose keys are all there keep the list's length.
  lemma {:induction false} ApplyKeepsLength<K(!new), T(!new)>(s: seq<T>, view: Keyed<K, T>, ops: seq<Op<K, T>>)
    requires AllLawful(view, ops) && forall op | op in ops :: Find(s, view, op.key) < |s|
    ensures |Apply(s, view, ops)| == |s|
  {
    if ops != [] {
      var front, last := ops[..|ops| - 1], ops[|ops| - 1];
      assert ops == front + [last] && last in ops;
      ApplyKeepsLength(s, view, front);
      ApplyEffect(s, view, front);
      UpsertEffect(Apply(s, view, front), view, last);
    }
  }

  // If, key by key, the operations do the same twice as once, then so do they on the list.
  lemma ApplyTwice<K(!new), T(!new)>(s: seq<T>, view: Keyed<K, T>, ops: seq<Op<K, T>>)
    requires AllLawful(view, ops)
    requires forall k :: Through(ops, k, Through(ops, k, Get(s, view, k))) == Through(ops, k, Get(s, view, k))
    ensures Apply(Apply(s, view, ops), view, ops) == Apply(s, view, ops)
  {
    var once := Apply(s, view, ops);
    var twice := Apply(once, view, ops);
    ApplyEffect(s, view, ops);
    ApplyEffect(once, view, ops);
    ApplyKeepsLength(once, view, ops);
    forall i | 0 <= i < |once| ensures twice[i] == once[i] {
      var k := view.key(once[i]);
      if Find(once, view, k) == i {
        assert twice[i] == Get(twice, view, k);
      }
    }
  }
}
