/** Sums over sequences, their invariance under permutation, and the stable sort behind `sorted`. */
module Sorting {
  import opened Sequences

  function SumMap<T>(s: seq<T>, f: T -> real): real {
    if s == [] then 0.0 else f(s[0]) + SumMap(s[1..], f)
  }

  lemma {:induction false} SumMapConcat<T>(a: seq<T>, b: seq<T>, f: T -> real)
    ensures SumMap(a + b, f) == SumMap(a, f) + SumMap(b, f)
  {
    if a == [] {
      Unit(b);
    } else {
      ConsTail(a, b);
      SumMapConcat(a[1..], b, f);
    }
  }

  function Without<T>(s: seq<T>, j: nat): (r: seq<T>)
    requires j < |s|
    ensures |r| == |s| - 1
    ensures multiset(r) == multiset(s) - multiset{s[j]}
  {
    Around(s, j);
    s[..j] + s[j + 1..]
  }

  /** Pair the first element of `a` with an occurrence in its permutation `b`. */
  lemma MatchFirst<T>(a: seq<T>, b: seq<T>) returns (j: nat)
    requires a != [] && multiset(a) == multiset(b)
    ensures j < |b| && b[j] == a[0]
    ensures multiset(Without(a, 0)) == multiset(Without(b, j))
  {
    assert a[0] in multiset(b);
    j :| 0 <= j < |b| && b[j] == a[0];
  }

  lemma SumMapAround<T>(a: seq<T>, x: T, b: seq<T>, f: T -> real)
    ensures SumMap(a + ([x] + b), f) == SumMap(a + b, f) + f(x)
  {
    SumMapConcat(a, [x] + b, f);
    SumMapConcat([x], b, f);
    SumMapConcat(a, b, f);
  }

  lemma SumMapWithout<T>(s: seq<T>, j: nat, f: T -> real)
    requires j < |s|
    ensures SumMap(s, f) == SumMap(Without(s, j), f) + f(s[j])
  {
    Around(s, j);
    SumMapAround(s[..j], s[j], s[j + 1..], f);
  }

  /** A sum does not depend on the order of its terms. */
  lemma {:induction false} SumMapPermutation<T>(a: seq<T>, b: seq<T>, f: T -> real)
    requires multiset(a) == multiset(b)
    ensures SumMap(a, f) == SumMap(b, f)
    decreases |a|
  {
    if a == [] {
      assert |multiset(b)| == 0;
    } else {
      var j := MatchFirst(a, b);
      SumMapWithout(a, 0, f);
      SumMapWithout(b, j, f);
      SumMapPermutation(Without(a, 0), Without(b, j), f);
    }
  }

  lemma {:induction false} SumMapCongruence<T>(s: seq<T>, f: T -> real, g: T -> real)
    requires forall x :: x in s ==> f(x) == g(x)
    ensures SumMap(s, f) == SumMap(s, g)
  {
    if s != [] {
      SumMapCongruence(s[1..], f, g);
    }
  }

  ghost predicate SortedBy<T>(s: seq<T>, key: T -> real) {
    forall i, j :: 0 <= i <= j < |s| ==> key(s[i]) <= key(s[j])
  }

  /** Place `x` after every element whose key is no larger, as a stable sort does. */
  function InsertBy<T>(s: seq<T>, x: T, key: T -> real): (r: seq<T>)
    ensures multiset(r) == multiset(s) + multiset{x}
    decreases |s|
  {
    if s == [] || key(s[|s| - 1]) <= key(x) then s + [x]
    else
      var last := |s| - 1;
      assert s == s[..last] + [s[last]];
      InsertBy(s[..last], x, key) + [s[last]]
  }

  lemma {:induction false} InsertByKeepsOrder<T(!new)>(s: seq<T>, x: T, key: T -> real)
    requires SortedBy(s, key)
    ensures SortedBy(InsertBy(s, x, key), key)
    decreases |s|
  {
    if s != [] && key(s[|s| - 1]) > key(x) {
      var last := |s| - 1;
      var front := InsertBy(s[..last], x, key);
      InsertByKeepsOrder(s[..last], x, key);
      assert SortedBy(front + [s[last]], key) by {
        BoundedByLast(s, x, front, key);
      }
    }
  }

  lemma BoundedByLast<T(!new)>(s: seq<T>, x: T, front: seq<T>, key: T -> real)
    requires s != [] && SortedBy(s, key) && key(x) < key(s[|s| - 1])
    requires multiset(front) == multiset(s[..|s| - 1]) + multiset{x}
    requires SortedBy(front, key)
    ensures SortedBy(front + [s[|s| - 1]], key)
  {
    forall i | 0 <= i < |front| ensures key(front[i]) <= key(s[|s| - 1]) {
      assert front[i] in multiset(front);
      if front[i] != x {
        assert front[i] in multiset(s[..|s| - 1]);
      }
    }
  }

  /** The built-in stable sort: a sorted permutation of its input. */
  function SortBy<T(!new)>(s: seq<T>, key: T -> real): (r: seq<T>)
    ensures multiset(r) == multiset(s)
    ensures SortedBy(r, key)
    ensures |r| == |s|
    decreases |s|
  {
    if s == [] then []
    else
      var last := |s| - 1;
      assert s == s[..last] + [s[last]];
      var front := SortBy(s[..last], key);
      var r := InsertBy(front, s[last], key);
      InsertByKeepsOrder(front, s[last], key);
      assert |multiset(r)| == |multiset(s)|;
      r
  }

  /** The elements with key v, in order. */
  function WithKey<T>(s: seq<T>, key: T -> real, v: real): seq<T> {
    if s == [] then []
    else
      WithKey(s[..|s| - 1], key, v) + (if key(s[|s| - 1]) == v then [s[|s| - 1]] else [])
  }

  lemma WithKeySnoc<T>(s: seq<T>, x: T, key: T -> real, v: real)
    ensures WithKey(s + [x], key, v) == WithKey(s, key, v) + (if key(x) == v then [x] else [])
  {
    assert (s + [x])[..|s|] == s;
  }

  /** Inserting appends to the elements of the same key and leaves the others alone. */
  lemma {:induction false} InsertIsStable<T(!new)>(s: seq<T>, x: T, key: T -> real, v: real)
    requires SortedBy(s, key)
    ensures WithKey(InsertBy(s, x, key), key, v) == WithKey(s, key, v) + (if key(x) == v then [x] else [])
    decreases |s|
  {
    if s == [] || key(s[|s| - 1]) <= key(x) {
      WithKeySnoc(s, x, key, v);
    } else {
      var last := |s| - 1;
      InsertIsStable(s[..last], x, key, v);
      WithKeySnoc(InsertBy(s[..last], x, key), s[last], key, v);
      InsertKeys(WithKey(s[..last], key, v), x, s[last], key, v);
    }
  }

  lemma InsertKeys<T>(front: seq<T>, x: T, last: T, key: T -> real, v: real)
    requires key(last) > key(x)
    ensures (front + (if key(x) == v then [x] else [])) + (if key(last) == v then [last] else [])
         == (front + (if key(last) == v then [last] else [])) + (if key(x) == v then [x] else [])
  {
  }

  /** The sort is stable: elements with equal keys keep their order. */
  lemma {:induction false} SortIsStable<T(!new)>(s: seq<T>, key: T -> real, v: real)
    ensures WithKey(SortBy(s, key), key, v) == WithKey(s, key, v)
    decreases |s|
  {
    if s != [] {
      SortIsStable(s[..|s| - 1], key, v);
      InsertIsStable(SortBy(s[..|s| - 1], key), s[|s| - 1], key, v);
    }
  }

  function Self(x: real): real { x }

  ghost predicate Ascending(s: seq<real>) {
    forall i, j :: 0 <= i <= j < |s| ==> s[i] <= s[j]
  }

  function Sort(s: seq<real>): (r: seq<real>)
    ensures multiset(r) == multiset(s)
    ensures Ascending(r)
    ensures |r| == |s|
  {
    var r := SortBy(s, Self);
    assert forall i :: 0 <= i < |r| ==> Self(r[i]) == r[i];
    r
  }

  lemma LeastFirst(a: seq<real>, x: real)
    requires Ascending(a) && x in multiset(a)
    ensures a != [] && a[0] <= x
  {
    var k :| 0 <= k < |a| && a[k] == x;
    assert a[0] <= a[k];
  }

  lemma TailAscending(a: seq<real>)
    requires Ascending(a) && a != []
    ensures Ascending(a[1..]) && multiset(a[1..]) == multiset(a) - multiset{a[0]}
  {
    assert a == [a[0]] + a[1..];
  }

  lemma ConsEqual(a: seq<real>, b: seq<real>)
    requires a != [] && b != [] && a[0] == b[0] && a[1..] == b[1..]
    ensures a == b
  {
    assert a == [a[0]] + a[1..];
  }

  /** A sorted arrangement of given values is unique. */
  lemma {:induction false} AscendingUnique(a: seq<real>, b: seq<real>)
    requires Ascending(a) && Ascending(b)
    requires multiset(a) == multiset(b)
    ensures a == b
    decreases |a|
  {
    if a == [] {
      assert |multiset(b)| == 0;
    } else {
      LeastFirst(b, a[0]);
      LeastFirst(a, b[0]);
      TailAscending(a);
      TailAscending(b);
      AscendingUnique(a[1..], b[1..]);
      ConsEqual(a, b);
    }
  }
}
