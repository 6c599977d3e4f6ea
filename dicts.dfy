/** Python dictionaries with string keys, kept as sequences of entries in
    insertion order, the order iteration, `next(iter(d))` and `max` see. */
module Dicts {
  import opened Wrappers

  type Dict<V> = seq<(string, V)>

  function Keys<V>(d: Dict<V>): (ks: seq<string>)
    ensures |ks| == |d|
    ensures forall i :: 0 <= i < |d| ==> ks[i] == d[i].0
  {
    seq(|d|, i requires 0 <= i < |d| => d[i].0)
  }

  /** No key occurs twice, as in every Python dictionary. */
  predicate UniqueKeys<V>(d: Dict<V>)
  {
    forall i, j :: 0 <= i < j < |d| ==> d[i].0 != d[j].0
  }

  /** `d.get(k, default)` */
  function Get<V>(d: Dict<V>, k: string, default: V): (v: V)
    ensures k !in Keys(d) ==> v == default
  {
    if d == [] then default
    else if d[0].0 == k then d[0].1
    else Get(d[1..], k, default)
  }

  /** In a dictionary, the value stored with a key is what `get` returns. */
  lemma {:induction false} GetAt<V>(d: Dict<V>, i: nat, default: V)
    requires UniqueKeys(d)
    requires i < |d|
    ensures Get(d, d[i].0, default) == d[i].1
  {
    if i > 0 {
      GetAt(d[1..], i - 1, default);
    }
  }

  /** `d[k] = v`: a present key keeps its place, a new one goes last. */
  function Assign<V>(d: Dict<V>, k: string, v: V): (r: Dict<V>)
    ensures k in Keys(d) ==> |r| == |d|
    ensures k !in Keys(d) ==> |r| == |d| + 1 && r[|d|] == (k, v)
    ensures forall i :: 0 <= i < |d| ==> r[i] == if d[i].0 == k then (k, v) else d[i]
  {
    if k in Keys(d) then seq(|d|, i requires 0 <= i < |d| => if d[i].0 == k then (k, v) else d[i])
    else d + [(k, v)]
  }

  /** After `d[k] = v` the dictionary still has unique keys, maps k to v
      and every other key to what it did before. */
  lemma AssignGet<V>(d: Dict<V>, k: string, v: V, other: string, default: V)
    requires UniqueKeys(d)
    ensures UniqueKeys(Assign(d, k, v))
    ensures Get(Assign(d, k, v), k, default) == v
    ensures other != k ==> Get(Assign(d, k, v), other, default) == Get(d, other, default)
  {
    var r := Assign(d, k, v);
    assert Keys(r)[..|d|] == Keys(d);
    if k in Keys(d) {
      var i :| 0 <= i < |d| && d[i].0 == k;
      GetAt(r, i, default);
    } else {
      GetAt(r, |d|, default);
    }
    if other in Keys(d) {
      var i :| 0 <= i < |d| && d[i].0 == other;
      GetAt(d, i, default);
      if other != k {
        GetAt(r, i, default);
      }
    } else if other != k {
      assert other !in Keys(r);
    }
  }

  /** `d.get(k)`: the value stored with k, or None when k is absent. */
  function Lookup<V>(d: Dict<V>, k: string): (r: Option<V>)
    ensures r.Some? <==> k in Keys(d)
  {
    if d == [] then None
    else if d[0].0 == k then Some(d[0].1)
    else
      assert Keys(d) == [d[0].0] + Keys(d[1..]);
      Lookup(d[1..], k)
  }

  /** In a dictionary, `get` on the key of the i-th entry finds its value. */
  lemma {:induction false} LookupAt<V>(d: Dict<V>, i: nat)
    requires UniqueKeys(d)
    requires i < |d|
    ensures Lookup(d, d[i].0) == Some(d[i].1)
  {
    if i > 0 {
      LookupAt(d[1..], i - 1);
    }
  }

  /** After `d[k] = v`, `get` finds v under k and what it found before
      under every other key. */
  lemma AssignLookup<V>(d: Dict<V>, k: string, v: V, other: string)
    requires UniqueKeys(d)
    ensures UniqueKeys(Assign(d, k, v))
    ensures Lookup(Assign(d, k, v), k) == Some(v)
    ensures other != k ==> Lookup(Assign(d, k, v), other) == Lookup(d, other)
  {
    var r := Assign(d, k, v);
    AssignGet(d, k, v, k, v);
    var n :| 0 <= n < |r| && r[n].0 == k;
    LookupAt(r, n);
    if other != k {
      if other in Keys(d) {
        var j :| 0 <= j < |d| && d[j].0 == other;
        LookupAt(d, j);
        LookupAt(r, j);
      } else {
        assert other !in Keys(r);
      }
    }
  }

  /** Changing the value of an entry in place keeps the keys. */
  lemma KeysKept<V>(d: Dict<V>, i: nat, v: V)
    requires i < |d|
    ensures Keys(d[i := (d[i].0, v)]) == Keys(d)
  {
    assert forall m :: 0 <= m < |d| ==> Keys(d[i := (d[i].0, v)])[m] == Keys(d)[m];
  }

  /** With unique keys, `d[k] = v` on the key of the i-th entry replaces
      that entry and nothing else. */
  lemma AssignAt<V>(d: Dict<V>, i: nat, v: V)
    requires UniqueKeys(d) && i < |d|
    ensures Assign(d, d[i].0, v) == d[i := (d[i].0, v)]
  {
    var r := Assign(d, d[i].0, v);
    assert Keys(d)[i] == d[i].0;
    forall m | 0 <= m < |d|
      ensures r[m] == d[i := (d[i].0, v)][m]
    {
      if m != i {
        assert d[m].0 != d[i].0;
      }
    }
  }

  /** Rebinding a present key changes the total by the difference. */
  lemma TotalAssign(d: Dict<int>, k: string, v: int)
    requires UniqueKeys(d)
    requires k in Keys(d)
    ensures Total(Assign(d, k, v)) == Total(d) - Get(d, k, 0) + v
  {
    var i :| 0 <= i < |d| && Keys(d)[i] == k;
    GetAt(d, i, 0);
    AssignAt(d, i, v);
    TotalUpdate(d, i, (k, v));
  }

  /** A reordering of a dictionary's entries still has unique keys. */
  lemma PermutedUniqueKeys<V>(d: Dict<V>, e: Dict<V>)
    requires UniqueKeys(d)
    requires multiset(d) == multiset(e)
    ensures UniqueKeys(e)
  {
    forall a, b | 0 <= a < b < |e|
      ensures e[a].0 != e[b].0
    {
      if e[a].0 == e[b].0 {
        assert e[a] in multiset(d) && e[b] in multiset(d);
        var ia :| 0 <= ia < |d| && d[ia] == e[a];
        var ib :| 0 <= ib < |d| && d[ib] == e[b];
        assert ia == ib;
        assert e == e[..b] + e[b..];
        assert e[a] in e[..b] && e[b] in e[b..];
        assert multiset(e)[e[a]] >= 2;
        EntryOccursOnce(d, ia);
        assert false;
      }
    }
  }

  /** Unique keys depend on the keys alone. */
  lemma SameKeysUnique<V, W>(d: Dict<V>, e: Dict<W>)
    requires UniqueKeys(d)
    requires Keys(d) == Keys(e)
    ensures UniqueKeys(e)
  {
    forall a, b | 0 <= a < b < |e|
      ensures e[a].0 != e[b].0
    {
      assert Keys(e)[a] == Keys(d)[a] && Keys(e)[b] == Keys(d)[b];
    }
  }

  /** With unique keys no entry occurs twice. */
  lemma EntryOccursOnce<V>(d: Dict<V>, i: nat)
    requires UniqueKeys(d)
    requires i < |d|
    ensures multiset(d)[d[i]] == 1
  {
    assert d == d[..i] + [d[i]] + d[i + 1..];
    assert d[i] !in d[..i];
    assert d[i] !in d[i + 1..];
  }

  /** Counts that are all zero add up to zero. */
  lemma {:induction false} ZeroTotal(d: Dict<int>)
    requires forall i :: 0 <= i < |d| ==> d[i].1 == 0
    ensures Total(d) == 0
  {
    if d != [] {
      ZeroTotal(d[1..]);
    }
  }

  /** `sum(d.values())` */
  function Total(d: Dict<int>): int
  {
    if d == [] then 0 else d[0].1 + Total(d[1..])
  }

  /** Replacing one entry changes the total by the difference. */
  lemma {:induction false} TotalUpdate(d: Dict<int>, i: nat, x: (string, int))
    requires i < |d|
    ensures Total(d[i := x]) == Total(d) - d[i].1 + x.1
    decreases i
  {
    if i == 0 {
      assert d[i := x][1..] == d[1..];
    } else {
      TotalUpdate(d[1..], i - 1, x);
      assert d[i := x][1..] == d[1..][i - 1 := x];
    }
  }

  /** `sum(d.values())` of a dictionary of floats. */
  function TotalReal(d: Dict<real>): real
  {
    if d == [] then 0.0 else d[0].1 + TotalReal(d[1..])
  }

  predicate NonNegative(d: Dict<int>)
  {
    forall i :: 0 <= i < |d| ==> d[i].1 >= 0
  }

  /** Every value of a dictionary of floats is at least 0. */
  predicate NonNegativeReal(d: Dict<real>)
  {
    forall i :: 0 <= i < |d| ==> d[i].1 >= 0.0
  }

  /** Non-negative counts sum to at least any single one of them. */
  lemma {:induction false} TotalBounds(d: Dict<int>, i: nat)
    requires NonNegative(d)
    requires i < |d|
    ensures 0 <= d[i].1 <= Total(d)
  {
    TotalNonNegative(d[1..]);
    if i > 0 {
      TotalBounds(d[1..], i - 1);
    }
  }

  lemma {:induction false} TotalNonNegative(d: Dict<int>)
    requires NonNegative(d)
    ensures Total(d) >= 0
  {
    if d != [] {
      TotalNonNegative(d[1..]);
    }
  }

  /** Two different keys of a dictionary of non-negative counts together
      hold no more than the total. */
  lemma {:induction false} GetPairBound(d: Dict<int>, a: string, b: string)
    requires NonNegative(d)
    requires a != b
    ensures 0 <= Get(d, a, 0) && 0 <= Get(d, b, 0)
    ensures Get(d, a, 0) + Get(d, b, 0) <= Total(d)
  {
    if d != [] {
      GetPairBound(d[1..], a, b);
      if d[0].0 == a || d[0].0 == b {
        GetOneBound(d[1..], if d[0].0 == a then b else a);
      }
    }
  }

  lemma {:induction false} GetOneBound(d: Dict<int>, a: string)
    requires NonNegative(d)
    ensures 0 <= Get(d, a, 0) <= Total(d)
  {
    if d != [] {
      TotalNonNegative(d[1..]);
      if d[0].0 != a {
        GetOneBound(d[1..], a);
      }
    }
  }

  /** `{k: c / total for k, c in d.items()}` */
  function Normalized(d: Dict<int>, total: int): (r: Dict<real>)
    requires total != 0
    ensures Keys(r) == Keys(d)
    ensures forall i :: 0 <= i < |d| ==> r[i].1 == d[i].1 as real / total as real
  {
    seq(|d|, i requires 0 <= i < |d| => (d[i].0, d[i].1 as real / total as real))
  }

  /** Normalising divides the total by the divisor; by the dictionary's
      own total it gives 1. */
  lemma {:induction false} NormalizedTotal(d: Dict<int>, total: int)
    requires total != 0
    ensures TotalReal(Normalized(d, total)) == Total(d) as real / total as real
  {
    if d != [] {
      var n, t := Normalized(d, total), total as real;
      NormalizedTotal(d[1..], total);
      assert n[1..] == Normalized(d[1..], total);
      assert TotalReal(n) == d[0].1 as real / t + Total(d[1..]) as real / t;
      DivAdd(d[0].1 as real, Total(d[1..]) as real, t);
    }
  }

  /** Normalising by the dictionary's own non-zero total gives a
      distribution: the values add up to 1. */
  lemma NormalizedSumsToOne(d: Dict<int>)
    requires Total(d) != 0
    ensures TotalReal(Normalized(d, Total(d))) == 1.0
  {
    NormalizedTotal(d, Total(d));
    var t := Total(d) as real;
    assert t / t == 1.0;
  }

  /** The dictionary display `{a: x, b: y}`: a repeated key keeps its first
      place and its last value. */
  lemma PairDisplay<V>(a: string, x: V, b: string, y: V)
    ensures a != b ==> Assign(Assign([], a, x), b, y) == [(a, x), (b, y)]
    ensures a == b ==> Assign(Assign([], a, x), b, y) == [(a, y)]
  {
    var first := Assign([], a, x);
    assert first == [(a, x)];
    assert Keys(first) == [a];
  }

  // ------------------------------------------------ measurement counts

  /** Qiskit's `get_counts()`: outcome bit strings and their counts. */
  type Counts = Dict<int>

  /** `lambda x: x[1]`: the sort key of a counts entry. */
  function EntryCount(e: (string, int)): int
  {
    e.1
  }

  /** The index `max(counts, key=counts.get)` scans to: starting from
      `best`, an entry replaces the best one only when its count is strictly
      larger, so ties keep the earlier entry. */
  function ScanMax(counts: Counts, best: nat, i: nat): (j: nat)
    requires best < |counts| && best < i <= |counts|
    ensures best <= j < |counts|
    decreases |counts| - i
  {
    if i == |counts| then best
    else if counts[i].1 > counts[best].1 then ScanMax(counts, i, i + 1)
    else ScanMax(counts, best, i + 1)
  }

  /** The position of `max(counts, key=counts.get)`. */
  function MostFrequentIndex(counts: Counts): (j: nat)
    requires |counts| > 0
    ensures j < |counts|
  {
    ScanMax(counts, 0, 1)
  }

  /** The scan ends on the first entry whose count no other entry beats. */
  lemma {:induction false} ScanMaxIsFirstMaximum(counts: Counts, best: nat, i: nat)
    requires best < |counts| && best < i <= |counts|
    requires forall t :: 0 <= t < i ==> counts[t].1 <= counts[best].1
    requires forall t :: 0 <= t < best ==> counts[t].1 < counts[best].1
    ensures var j := ScanMax(counts, best, i);
      (forall t :: 0 <= t < |counts| ==> counts[t].1 <= counts[j].1) &&
      (forall t :: 0 <= t < j ==> counts[t].1 < counts[j].1)
    decreases |counts| - i
  {
    if i < |counts| {
      if counts[i].1 > counts[best].1 {
        ScanMaxIsFirstMaximum(counts, i, i + 1);
      } else {
        ScanMaxIsFirstMaximum(counts, best, i + 1);
      }
    }
  }

  /** `max(counts, key=counts.get)` picks the first entry of largest count. */
  lemma MostFrequentIsFirstMaximum(counts: Counts)
    requires |counts| > 0
    ensures var j := MostFrequentIndex(counts);
      (forall t :: 0 <= t < |counts| ==> counts[t].1 <= counts[j].1) &&
      (forall t :: 0 <= t < j ==> counts[t].1 < counts[j].1)
  {
    ScanMaxIsFirstMaximum(counts, 0, 1);
  }

  /** `c * n` for a one-character string c */
  function Replicated(c: char, n: nat): (s: string)
    ensures |s| == n && forall i :: 0 <= i < n ==> s[i] == c
  {
    seq(n, _ => c)
  }

  /** `'0' * n` */
  function Zeros(n: nat): string
  {
    Replicated('0', n)
  }

  /** `'1' * n` */
  function Ones(n: nat): string
  {
    Replicated('1', n)
  }

  /** `int(prob * factor)` */
  function ScaledCount(prob: real, factor: real): int
  {
    PyInt(prob * factor)
  }

  /** `{state: int(prob * factor) for state, prob in probs.items()}` */
  function Scaled(probs: Dict<real>, factor: real): (counts: Counts)
    ensures Keys(counts) == Keys(probs)
    ensures forall i :: 0 <= i < |probs| ==> counts[i].1 == ScaledCount(probs[i].1, factor)
  {
    var counts := seq(|probs|, i requires 0 <= i < |probs| => (probs[i].0, ScaledCount(probs[i].1, factor)));
    assert forall i :: 0 <= i < |probs| ==> Keys(counts)[i] == Keys(probs)[i];
    counts
  }

  /** Division distributes over a sum. */
  lemma DivAdd(a: real, b: real, t: real)
    requires t != 0.0
    ensures (a + b) / t == a / t + b / t
  {
  }

  /** A part of a non-negative whole, as a fraction, lies in [0, 1]. */
  lemma ShareBounds(part: int, whole: int)
    requires 0 <= part <= whole && whole > 0
    ensures 0.0 <= part as real / whole as real <= 1.0
  {
    var p, w := part as real, whole as real;
    assert p / w * w == p;
  }
}
