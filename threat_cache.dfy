/** The threat detection result cache of the bat defensive grid: detection
    results stored under an MD5 key of the rounded, sorted threat signals,
    with first-in-first-out eviction, hit and miss counters and a record of
    successive threat positions. */
module ThreatCache {
  import opened Wrappers
  import opened BitVector
  import opened Encoding
  import opened Crypto
  import opened Dicts
  import Sorting

  /** `ThreatSignal(direction, distance, bearing, signal_strength, timestamp)` */
  datatype ThreatSignal = ThreatSignal(direction: int, distance: real, bearing: real,
                                       signalStrength: real, timestamp: real)

  /** A signal as the key sees it: (direction, distance, bearing, strength). */
  type SignalTuple = (int, real, real, real)

  /** A threat position `(pos.x, pos.y, pos.z)`. */
  type Coord = (real, real, real)

  /** The detection result dictionary.  Only the two entries the cache
      reads or writes are modelled: `threat_position`, absent or present,
      and `cache_hit`; the rest of the dictionary is carried as `payload`. */
  datatype Detection = Detection(threatPosition: Option<Coord>, cacheHit: bool, payload: string)

  /** What the key is computed with: Python's `round(x, n)` on floats,
      `str()` of a list of tuples, and MD5. */
  datatype KeyHash = KeyHash(round: (real, nat) -> real, render: seq<SignalTuple> -> string, md5: Md5)

  /** The tuple of one signal: distance to one decimal, bearing and
      strength to three; the timestamp plays no part. */
  function Rounded(s: ThreatSignal, h: KeyHash): SignalTuple
  {
    (s.direction, h.round(s.distance, 1), h.round(s.bearing, 3), h.round(s.signalStrength, 3))
  }

  function RoundedAll(signals: seq<ThreatSignal>, h: KeyHash): (r: seq<SignalTuple>)
    ensures |r| == |signals|
    ensures forall i :: 0 <= i < |signals| ==> r[i] == Rounded(signals[i], h)
  {
    seq(|signals|, i requires 0 <= i < |signals| => Rounded(signals[i], h))
  }

  /** Python's comparison of such tuples: lexicographic. */
  predicate TupleLess(a: SignalTuple, b: SignalTuple)
  {
    a.0 < b.0 || (a.0 == b.0 && (a.1 < b.1 || (a.1 == b.1 && (a.2 < b.2 || (a.2 == b.2 && a.3 < b.3)))))
  }

  /** Tuple comparison is a strict total order. */
  lemma TupleOrder()
    ensures Sorting.StrictTotal(TupleLess)
  {
    forall a: SignalTuple, b: SignalTuple, c: SignalTuple | TupleLess(a, b) && TupleLess(b, c)
      ensures TupleLess(a, c)
    {
    }
    forall a: SignalTuple, b: SignalTuple | a != b
      ensures TupleLess(a, b) || TupleLess(b, a)
    {
    }
  }

  /** `_hash_threat_signals`: the hex MD5 digest of the UTF-8 text of the
      sorted tuples. */
  function SignalKey(signals: seq<ThreatSignal>, h: KeyHash): (key: string)
    ensures |key| == 32
    ensures forall i :: 0 <= i < |key| ==> IsHexDigit(key[i])
  {
    ToHex(h.md5(Utf8(h.render(Sorting.Sort(RoundedAll(signals, h), TupleLess)))))
  }

  /** The key depends only on the multiset of rounded tuples. */
  lemma KeyOfTuples(s: seq<ThreatSignal>, t: seq<ThreatSignal>, h: KeyHash)
    requires multiset(RoundedAll(s, h)) == multiset(RoundedAll(t, h))
    ensures SignalKey(s, h) == SignalKey(t, h)
  {
    TupleOrder();
    Sorting.SortCanonical(RoundedAll(s, h), RoundedAll(t, h), TupleLess);
  }

  /** Reordering the signals does not change the key. */
  lemma KeyIgnoresOrder(s: seq<ThreatSignal>, t: seq<ThreatSignal>, h: KeyHash)
    requires multiset(s) == multiset(t)
    ensures SignalKey(s, h) == SignalKey(t, h)
  {
    RoundedPermutation(s, t, h);
    KeyOfTuples(s, t, h);
  }

  /** Signals that differ only in their timestamps have the same key. */
  lemma KeyIgnoresTimestamps(s: seq<ThreatSignal>, t: seq<ThreatSignal>, h: KeyHash)
    requires |s| == |t|
    requires forall i :: 0 <= i < |s| ==> s[i].(timestamp := 0.0) == t[i].(timestamp := 0.0)
    ensures SignalKey(s, h) == SignalKey(t, h)
  {
    assert RoundedAll(s, h) == RoundedAll(t, h) by {
      forall i | 0 <= i < |s|
        ensures Rounded(s[i], h) == Rounded(t[i], h)
      {
        assert s[i].(timestamp := 0.0).distance == t[i].(timestamp := 0.0).distance;
      }
    }
  }

  lemma {:induction false} RoundedPermutation(s: seq<ThreatSignal>, t: seq<ThreatSignal>, h: KeyHash)
    requires multiset(s) == multiset(t)
    ensures multiset(RoundedAll(s, h)) == multiset(RoundedAll(t, h))
    decreases |s|
  {
    if s == [] {
      assert |t| == |multiset(t)| == 0;
    } else {
      assert s[0] in multiset(t);
      var k :| 0 <= k < |t| && t[k] == s[0];
      var rest := t[..k] + t[k + 1..];
      Sorting.TailMultiset(s);
      RemoveAt(t, k);
      RoundedPermutation(s[1..], rest, h);
      RoundedSplit(s, 0, h);
      RoundedSplit(t, k, h);
    }
  }

  /** Removing entry k takes one copy of it out of the multiset. */
  lemma RemoveAt<T>(t: seq<T>, k: nat)
    requires k < |t|
    ensures multiset(t) == multiset(t[..k] + t[k + 1..]) + multiset{t[k]}
  {
    assert t == t[..k] + [t[k]] + t[k + 1..];
  }

  /** The tuples of a sequence are those of the sequence without entry k,
      plus the tuple of entry k. */
  lemma RoundedSplit(t: seq<ThreatSignal>, k: nat, h: KeyHash)
    requires k < |t|
    ensures multiset(RoundedAll(t, h))
      == multiset(RoundedAll(t[..k] + t[k + 1..], h)) + multiset{Rounded(t[k], h)}
    ensures k == 0 ==> t[..k] + t[k + 1..] == t[1..]
  {
    var a, x, b := t[..k], [t[k]], t[k + 1..];
    assert t == a + (x + b);
    RoundedAppend(a, x + b, h);
    RoundedAppend(x, b, h);
    RoundedAppend(a, b, h);
    var ra, rx, rb := RoundedAll(a, h), RoundedAll(x, h), RoundedAll(b, h);
    assert rx == [Rounded(t[k], h)];
    calc {
      multiset(RoundedAll(t, h));
      multiset(ra + (rx + rb));
      multiset(ra) + multiset(rx) + multiset(rb);
      multiset(ra + rb) + multiset{Rounded(t[k], h)};
    }
  }

  /** The tuples of a concatenation are the concatenated tuples. */
  lemma RoundedAppend(a: seq<ThreatSignal>, b: seq<ThreatSignal>, h: KeyHash)
    ensures RoundedAll(a + b, h) == RoundedAll(a, h) + RoundedAll(b, h)
  {
  }

  // ------------------------------------------------------------ the cache

  /** The cache after the eviction step of `set`: when it holds max_size
      entries or more, the first-inserted one goes; an empty cache at that
      point makes `next(iter(cache))` raise StopIteration. */
  function Evicted(cache: Dict<Detection>, maxSize: int): (r: Result<Dict<Detection>>)
    ensures r.Failure? <==> cache == [] && maxSize <= 0
    ensures r.Failure? ==> r.error == StopIteration
    ensures r.Success? ==> (|cache| < maxSize && r.value == cache) ||
                           (|cache| >= maxSize && cache != [] && r.value == cache[1..])
  {
    if |cache| >= maxSize then
      if cache == [] then Failure(StopIteration) else Success(cache[1..])
    else Success(cache)
  }

  /** The entries of `coordinate_patterns` (a defaultdict of lists). */
  type Patterns = map<Coord, seq<Coord>>

  /** The transformation patterns after storing a result: a result with a
      threat position appends it to the list of the previous position. */
  function Tracked(patterns: Patterns, last: Option<Coord>, result: Detection): (r: Patterns)
    ensures result.threatPosition.None? || last.None? ==> r == patterns
    ensures result.threatPosition.Some? && last.Some? ==>
      r.Keys == patterns.Keys + {last.value} &&
      r[last.value] == (if last.value in patterns then patterns[last.value] else []) + [result.threatPosition.value] &&
      forall c :: c in patterns && c != last.value ==> r[c] == patterns[c]
  {
    if result.threatPosition.Some? && last.Some? then
      var previous := if last.value in patterns then patterns[last.value] else [];
      patterns[last.value := previous + [result.threatPosition.value]]
    else patterns
  }

  /** The last position after storing a result. */
  function NextLast(last: Option<Coord>, result: Detection): (r: Option<Coord>)
    ensures result.threatPosition.Some? ==> r == result.threatPosition
    ensures result.threatPosition.None? ==> r == last
  {
    if result.threatPosition.Some? then result.threatPosition else last
  }

  /** `get_stats()` */
  datatype CacheStats = CacheStats(size: nat, hits: nat, misses: nat, hitRate: real, patterns: nat)

  /** The size bound `set` keeps: at most max_size entries, and none at
      all when max_size is 0 or negative. */
  predicate Bounded(cache: Dict<Detection>, maxSize: int)
  {
    |cache| <= maxSize || cache == []
  }

  /** `set` keeps keys unique and the size within max_size. */
  lemma SetKeepsBound(cache: Dict<Detection>, maxSize: int, key: string, result: Detection)
    requires UniqueKeys(cache) && Bounded(cache, maxSize)
    requires Evicted(cache, maxSize).Success?
    ensures var stored := Assign(Evicted(cache, maxSize).value, key, result);
      UniqueKeys(stored) && Bounded(stored, maxSize) && maxSize >= 1
  {
    var e := Evicted(cache, maxSize).value;
    assert UniqueKeys(e) by {
      if e != cache {
        forall a, b | 0 <= a < b < |e|
          ensures e[a].0 != e[b].0
        {
          assert e[a] == cache[a + 1] && e[b] == cache[b + 1];
        }
      }
    }
    AssignGet(e, key, result, key, result);
  }

  /** Once full, `set` evicts the oldest entry even when the key it stores
      is already present, so the cache shrinks by one. */
  lemma FullSetOfPresentKey(cache: Dict<Detection>, maxSize: int, key: string, result: Detection)
    requires UniqueKeys(cache) && |cache| == maxSize >= 2
    requires key in Keys(cache[1..])
    ensures |Assign(Evicted(cache, maxSize).value, key, result)| == maxSize - 1
  {
  }

  /** Once full, `set` drops the first-inserted key. */
  lemma EvictsOldest(cache: Dict<Detection>, maxSize: int, key: string, result: Detection)
    requires UniqueKeys(cache) && |cache| >= maxSize && cache != []
    requires key != cache[0].0
    ensures Lookup(Assign(Evicted(cache, maxSize).value, key, result), cache[0].0) == None
  {
    var e := cache[1..];
    forall i | 0 <= i < |e|
      ensures e[i].0 != cache[0].0
    {
      assert e[i] == cache[i + 1];
    }
    assert cache[0].0 !in Keys(e);
    var r := Assign(e, key, result);
    assert cache[0].0 !in Keys(r);
  }

  /** `ThreatDetectionCache` */
  class ThreatDetectionCache {
    var cache: Dict<Detection>
    var coordinatePatterns: Patterns
    const maxSize: int
    var hits: nat
    var misses: nat
    var lastPosition: Option<Coord>
    const keyHash: KeyHash

    ghost predicate Valid()
      reads this
    {
      UniqueKeys(cache) && Bounded(cache, maxSize)
    }

    /** `ThreatDetectionCache(max_size)`: empty, with both counters at 0. */
    constructor (maxSize: int, keyHash: KeyHash)
      ensures Valid()
      ensures this.maxSize == maxSize && this.keyHash == keyHash
      ensures cache == [] && coordinatePatterns == map[] && hits == 0 && misses == 0 && lastPosition == None
    {
      cache := [];
      coordinatePatterns := map[];
      this.maxSize := maxSize;
      hits := 0;
      misses := 0;
      lastPosition := None;
      this.keyHash := keyHash;
    }

    /** `get`: on a hit the stored result and one more hit, on a miss None
        and one more miss; nothing else changes. */
    method Get(signals: seq<ThreatSignal>) returns (r: Option<Detection>)
      requires Valid()
      modifies this
      ensures Valid()
      ensures r == Lookup(cache, SignalKey(signals, keyHash))
      ensures r.Some? ==> hits == old(hits) + 1 && misses == old(misses)
      ensures r.None? ==> hits == old(hits) && misses == old(misses) + 1
      ensures cache == old(cache) && coordinatePatterns == old(coordinatePatterns) && lastPosition == old(lastPosition)
    {
      var key := SignalKey(signals, keyHash);
      r := Lookup(cache, key);
      if r.Some? {
        hits := hits + 1;
      } else {
        misses := misses + 1;
      }
    }

    /** `set`: evict the first-inserted entry when full, store the result
        under the signals' key, and track its threat position. */
    method Set(signals: seq<ThreatSignal>, result: Detection) returns (r: Result<()>)
      requires Valid()
      modifies this
      ensures Valid()
      ensures hits == old(hits) && misses == old(misses)
      ensures var e := Evicted(old(cache), maxSize);
        (e.Failure? ==>
           r == Failure(StopIteration) && cache == old(cache) &&
           coordinatePatterns == old(coordinatePatterns) && lastPosition == old(lastPosition)) &&
        (e.Success? ==>
           r == Success(()) &&
           cache == Assign(e.value, SignalKey(signals, keyHash), result) &&
           coordinatePatterns == Tracked(old(coordinatePatterns), old(lastPosition), result) &&
           lastPosition == NextLast(old(lastPosition), result))
    {
      if |cache| >= maxSize {
        if cache == [] {
          return Failure(StopIteration);
        }
        cache := cache[1..];
      }
      ghost var evicted := cache;
      var key := SignalKey(signals, keyHash);
      SetKeepsBound(old(cache), maxSize, key, result);
      cache := Assign(cache, key, result);
      if result.threatPosition.Some? {
        var coord := result.threatPosition.value;
        if lastPosition.Some? {
          var previous := if lastPosition.value in coordinatePatterns then coordinatePatterns[lastPosition.value] else [];
          coordinatePatterns := coordinatePatterns[lastPosition.value := previous + [coord]];
        }
        lastPosition := Some(coord);
      }
      r := Success(());
    }

    /** `has`: whether the signals' key is stored. */
    function Has(signals: seq<ThreatSignal>): (b: bool)
      reads this
      ensures b <==> Lookup(cache, SignalKey(signals, keyHash)).Some?
    {
      SignalKey(signals, keyHash) in Keys(cache)
    }

    /** `clear`: no entries, no patterns, both counters at 0, no last
        position. */
    method Clear()
      modifies this
      ensures Valid()
      ensures cache == [] && coordinatePatterns == map[] && hits == 0 && misses == 0 && lastPosition == None
    {
      cache := [];
      coordinatePatterns := map[];
      hits := 0;
      misses := 0;
      lastPosition := None;
    }

    /** `get_stats`: the hit rate is the percentage of lookups that hit,
        0 before any lookup. */
    function GetStats(): (s: CacheStats)
      reads this
      ensures s.size == |cache| && s.hits == hits && s.misses == misses
      ensures s.patterns == |coordinatePatterns.Keys|
      ensures 0.0 <= s.hitRate <= 100.0
      ensures s.hitRate == 100.0 <==> hits > 0 && misses == 0
      ensures s.hitRate == 0.0 <==> hits == 0
    {
      var total := hits + misses;
      var rate := if total > 0 then hits as real / total as real * 100.0 else 0.0;
      HitRateBounds(hits, misses);
      CacheStats(|cache|, hits, misses, rate, |coordinatePatterns.Keys|)
    }

    /** The cache step of `execute_bat_defensive_grid`: with caching on, a
        hit returns the stored result marked `cache_hit` (the stored
        dictionary itself is marked, being the same object); otherwise the
        freshly computed result, marked as no hit, is returned and, with
        caching on, stored. */
    method Execute(signals: seq<ThreatSignal>, useCache: bool, computed: Detection) returns (r: Result<Detection>)
      requires Valid()
      modifies this
      ensures Valid()
      ensures var key := SignalKey(signals, keyHash);
        var found := Lookup(old(cache), key);
        var unhit := computed.(cacheHit := false);
        var e := Evicted(old(cache), maxSize);
        (useCache && found.Some? ==>
          r == Success(found.value.(cacheHit := true)) &&
          cache == Assign(old(cache), key, found.value.(cacheHit := true)) &&
          hits == old(hits) + 1 && misses == old(misses) &&
          coordinatePatterns == old(coordinatePatterns) && lastPosition == old(lastPosition)) &&
        (useCache && found.None? ==>
          hits == old(hits) && misses == old(misses) + 1 &&
          (e.Failure? ==> r == Failure(StopIteration) && cache == old(cache) &&
                          coordinatePatterns == old(coordinatePatterns) && lastPosition == old(lastPosition)) &&
          (e.Success? ==>
             r == Success(unhit) && cache == Assign(e.value, key, unhit) &&
             coordinatePatterns == Tracked(old(coordinatePatterns), old(lastPosition), unhit) &&
             lastPosition == NextLast(old(lastPosition), unhit))) &&
        (!useCache ==>
          r == Success(unhit) && cache == old(cache) && hits == old(hits) && misses == old(misses) &&
          coordinatePatterns == old(coordinatePatterns) && lastPosition == old(lastPosition))
    {
      if useCache {
        var cached := Get(signals);
        if cached.Some? {
          var hit := cached.value.(cacheHit := true);
          var key := SignalKey(signals, keyHash);
          AssignLookup(cache, key, hit, key);
          cache := Assign(cache, key, hit);
          return Success(hit);
        }
      }
      var result := computed.(cacheHit := false);
      if useCache {
        var stored := Set(signals, result);
        if stored.Failure? {
          return Failure(stored.error);
        }
      }
      r := Success(result);
    }

    /** The discovery script's scenario: the first run on new signals
        misses and computes, a second run on the same signals in any order
        is a hit returning the computed result marked as a hit. */
    method MissThenHit(signals: seq<ThreatSignal>, reordered: seq<ThreatSignal>, computed: Detection, other: Detection)
      returns (first: Result<Detection>, second: Result<Detection>)
      requires Valid() && maxSize >= 1
      requires multiset(reordered) == multiset(signals)
      requires !Has(signals)
      modifies this
      ensures first == Success(computed.(cacheHit := false))
      ensures second == Success(computed.(cacheHit := true))
      ensures hits == old(hits) + 1 && misses == old(misses) + 1
    {
      first := Execute(signals, true, computed);
      KeyIgnoresOrder(reordered, signals, keyHash);
      AssignLookup(Evicted(old(cache), maxSize).value, SignalKey(signals, keyHash), computed.(cacheHit := false), SignalKey(signals, keyHash));
      second := Execute(reordered, true, other);
    }
  }

  /** The hit rate lies between 0 and 100, is 100 exactly when every
      lookup hit and 0 exactly when none did. */
  lemma HitRateBounds(hits: nat, misses: nat)
    ensures var total := hits + misses;
      var rate := if total > 0 then hits as real / total as real * 100.0 else 0.0;
      0.0 <= rate <= 100.0 && (rate == 100.0 <==> hits > 0 && misses == 0) && (rate == 0.0 <==> hits == 0)
  {
    var total := hits + misses;
    if total > 0 {
      var h, t := hits as real, total as real;
      assert 0.0 <= h / t <= 1.0 by {
        ShareBounds(hits, total);
      }
      if h / t == 1.0 {
        assert h == t;
      }
    }
  }
}
