/** Python's `sorted(xs, key=k)` and `sorted(xs, key=k, reverse=True)`:
    a stable sort by a strict "comes before" relation on keys.  Stability
    is built in: an earlier element is placed in front of every later one
    it is not ordered after. */
module Sorting {

  /** The relation never orders a before b and b before a at once. */
  ghost predicate Asymmetric<T(!new)>(less: (T, T) -> bool)
  {
    forall a, b :: less(a, b) ==> !less(b, a)
  }

  /** A strict total order: irreflexive, transitive and total on distinct
      elements, as Python's tuple comparison is on tuples of numbers. */
  ghost predicate StrictTotal<T(!new)>(less: (T, T) -> bool)
  {
    (forall a :: !less(a, a)) &&
    (forall a, b, c :: less(a, b) && less(b, c) ==> less(a, c)) &&
    (forall a, b :: a != b ==> less(a, b) || less(b, a))
  }

  /** No element is ordered before its predecessor. */
  ghost predicate SortedBy<T>(r: seq<T>, less: (T, T) -> bool)
  {
    forall i :: 0 <= i < |r| - 1 ==> !less(r[i + 1], r[i])
  }

  /** Insert x in front of the first element it does not come after. */
  function Insert<T>(x: T, r: seq<T>, less: (T, T) -> bool): (q: seq<T>)
    ensures multiset(q) == multiset(r) + multiset{x}
    ensures |q| == |r| + 1
  {
    if r == [] then [x]
    else if !less(r[0], x) then [x] + r
    else
      assert r == [r[0]] + r[1..];
      [r[0]] + Insert(x, r[1..], less)
  }

  /** `sorted(s, key=...)`, stable. */
  function Sort<T>(s: seq<T>, less: (T, T) -> bool): (r: seq<T>)
    ensures multiset(r) == multiset(s)
    ensures |r| == |s|
  {
    if s == [] then []
    else
      assert s == [s[0]] + s[1..];
      Insert(s[0], Sort(s[1..], less), less)
  }

  /** The relation compares by key: elements with equal keys are never
      ordered either way, as in `sorted(xs, key=k)`. */
  ghost predicate ComparesKeys<T(!new), K>(less: (T, T) -> bool, key: T -> K)
  {
    forall a, b :: less(a, b) ==> key(a) != key(b)
  }

  /** The elements of s whose key is c, in their order in s. */
  ghost function WithKey<T, K>(s: seq<T>, key: T -> K, c: K): seq<T>
  {
    if s == [] then []
    else (if key(s[0]) == c then [s[0]] else []) + WithKey(s[1..], key, c)
  }

  /** Inserting x keeps it in front of everything with its key. */
  lemma {:induction false} InsertStable<T(!new), K>(x: T, r: seq<T>, less: (T, T) -> bool, key: T -> K, c: K)
    requires ComparesKeys(less, key)
    ensures WithKey(Insert(x, r, less), key, c) == WithKey([x] + r, key, c)
  {
    if r != [] && less(r[0], x) {
      InsertStable(x, r[1..], less, key, c);
      PassedStable(x, r[0], r[1..], Insert(x, r[1..], less), key, c);
      assert [r[0]] + r[1..] == r;
    }
  }

  /** Passing an element r0 whose key differs from x's leaves the elements
      with key c in order. */
  lemma PassedStable<T, K>(x: T, r0: T, r1: seq<T>, rest: seq<T>, key: T -> K, c: K)
    requires WithKey(rest, key, c) == WithKey([x] + r1, key, c)
    requires key(r0) != key(x)
    ensures WithKey([r0] + rest, key, c) == WithKey([x] + ([r0] + r1), key, c)
  {
    var tx := if key(x) == c then [x] else [];
    var t0 := if key(r0) == c then [r0] else [];
    calc {
      WithKey([r0] + rest, key, c);
      { WithKeyCons(r0, rest, key, c); }
      t0 + WithKey([x] + r1, key, c);
      { WithKeyCons(x, r1, key, c); }
      t0 + (tx + WithKey(r1, key, c));
      tx + (t0 + WithKey(r1, key, c));
      { WithKeyCons(r0, r1, key, c); }
      tx + WithKey([r0] + r1, key, c);
      { WithKeyCons(x, [r0] + r1, key, c); }
      WithKey([x] + ([r0] + r1), key, c);
    }
  }

  lemma WithKeyCons<T, K>(a: T, t: seq<T>, key: T -> K, c: K)
    ensures WithKey([a] + t, key, c) == (if key(a) == c then [a] else []) + WithKey(t, key, c)
  {
    assert ([a] + t)[1..] == t;
  }

  /** Stability: the elements with any one key come out of the sort in the
      order they went in. */
  lemma {:induction false} SortStable<T(!new), K>(s: seq<T>, less: (T, T) -> bool, key: T -> K, c: K)
    requires ComparesKeys(less, key)
    ensures WithKey(Sort(s, less), key, c) == WithKey(s, key, c)
  {
    if s != [] {
      SortStable(s[1..], less, key, c);
      InsertStable(s[0], Sort(s[1..], less), less, key, c);
      assert s == [s[0]] + s[1..];
    }
  }

  lemma {:induction false} InsertSorted<T(!new)>(x: T, r: seq<T>, less: (T, T) -> bool)
    requires Asymmetric(less)
    requires SortedBy(r, less)
    ensures SortedBy(Insert(x, r, less), less)
    ensures r != [] && less(r[0], x) ==> Insert(x, r, less)[0] == r[0]
  {
    if r != [] && less(r[0], x) {
      InsertSorted(x, r[1..], less);
      var tail := Insert(x, r[1..], less);
      assert tail[0] == x || tail[0] == r[1];
    }
  }

  /** The result is ordered. */
  lemma {:induction false} SortSorted<T(!new)>(s: seq<T>, less: (T, T) -> bool)
    requires Asymmetric(less)
    ensures SortedBy(Sort(s, less), less)
  {
    if s != [] {
      SortSorted(s[1..], less);
      InsertSorted(s[0], Sort(s[1..], less), less);
    }
  }

  /** An element that comes before every other element ends up first. */
  lemma {:induction false} SortLeast<T(!new)>(s: seq<T>, x: T, less: (T, T) -> bool)
    requires Asymmetric(less)
    requires x in s
    requires forall y :: y in s && y != x ==> less(x, y)
    ensures Sort(s, less)[0] == x
  {
    var r := Sort(s[1..], less);
    if s[0] == x {
      assert r != [] ==> r[0] in multiset(s[1..]);
      if r != [] && r[0] != x {
        assert r[0] in s;
      }
    } else {
      assert x in s[1..];
      SortLeast(s[1..], x, less);
      assert s[0] in s;
    }
  }

  lemma {:induction false} SortedPairs<T(!new)>(r: seq<T>, less: (T, T) -> bool, i: nat, j: nat)
    requires StrictTotal(less)
    requires SortedBy(r, less)
    requires i < j < |r|
    ensures r[i] == r[j] || less(r[i], r[j])
    decreases j - i
  {
    if i + 1 < j {
      SortedPairs(r, less, i + 1, j);
    }
  }

  /** Under a strict total order two ordered sequences holding the same
      elements are equal. */
  lemma {:induction false} SortedUnique<T(!new)>(r: seq<T>, q: seq<T>, less: (T, T) -> bool)
    requires StrictTotal(less)
    requires SortedBy(r, less) && SortedBy(q, less)
    requires multiset(r) == multiset(q)
    ensures r == q
  {
    if r != [] {
      SortedHeads(r, q, less);
      TailMultiset(r);
      TailMultiset(q);
      SortedUnique(r[1..], q[1..], less);
    }
  }

  /** Two ordered sequences holding the same elements start alike. */
  lemma SortedHeads<T(!new)>(r: seq<T>, q: seq<T>, less: (T, T) -> bool)
    requires StrictTotal(less)
    requires SortedBy(r, less) && SortedBy(q, less)
    requires multiset(r) == multiset(q)
    requires r != []
    ensures q != [] && r[0] == q[0]
  {
    assert r[0] in multiset(q);
    if r[0] != q[0] {
      var k :| 0 <= k < |q| && q[k] == r[0];
      assert q[0] in multiset(r);
      var m :| 0 <= m < |r| && r[m] == q[0];
      SortedPairs(q, less, 0, k);
      SortedPairs(r, less, 0, m);
      assert false;
    }
  }

  lemma TailMultiset<T>(s: seq<T>)
    requires s != []
    ensures multiset(s[1..]) == multiset(s) - multiset{s[0]}
  {
    assert s == [s[0]] + s[1..];
  }

  /** Under a strict total order the sorted result depends only on the
      multiset of the input, not on its order. */
  lemma SortCanonical<T(!new)>(s: seq<T>, t: seq<T>, less: (T, T) -> bool)
    requires StrictTotal(less)
    requires multiset(s) == multiset(t)
    ensures Sort(s, less) == Sort(t, less)
  {
    SortSorted(s, less);
    SortSorted(t, less);
    SortedUnique(Sort(s, less), Sort(t, less), less);
  }
}
