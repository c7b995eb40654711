/**
 * The in-memory response cache: a keyed store of time-stamped entries with
 * lazy expiry, hit/miss counters, bulk invalidation by substring and a size
 * bound enforced by evicting the oldest entries.
 *
 * The clock is the parameter `now` (milliseconds). The store keeps its keys in
 * a JavaScript `Map`, whose iteration order is insertion order: overwriting a
 * key keeps its place, deleting it removes it. `order` records that order.
 */
module Cache {
  import opened Wrappers
  import Config

  /** A lifetime in milliseconds, or `Infinity`. */
  datatype Ttl = Finite(ms: int) | Never

  /** The lifetime tiers callers choose from. */
  const SHORT: Ttl := Finite(Config.TTL_SHORT)
  const MEDIUM: Ttl := Finite(Config.TTL_MEDIUM)
  const LONG: Ttl := Finite(Config.TTL_LONG)
  const EXTRA_LONG: Ttl := Finite(Config.TTL_EXTRA_LONG)
  const NEVER: Ttl := Never

  datatype Entry<T> = Entry(data: T, timestamp: int, ttl: Ttl, url: string)

  datatype CacheStats = CacheStats(hits: nat, misses: nat, size: nat)

  /** An entry is valid while its age is below its lifetime; no finite age reaches `Infinity`. */
  predicate IsLive<T>(e: Entry<T>, now: int)
    ensures now == e.timestamp ==> (IsLive(e, now) <==> (e.ttl.Finite? ==> e.ttl.ms > 0))
  {
    match e.ttl
    case Never => true
    case Finite(ms) => now - e.timestamp < ms
  }

  /** Validity only runs out: an entry valid at some time was valid at every earlier time. */
  lemma ExpiryIsFinal<T>(e: Entry<T>, earlier: int, later: int)
    requires earlier <= later && IsLive(e, later)
    ensures IsLive(e, earlier)
  {
  }

  /** `ttl || defaultTTL`: an absent or zero lifetime falls back to the default. */
  function EffectiveTtl(ttl: Option<Ttl>, default: Ttl): (r: Ttl)
    ensures ttl == None || ttl == Some(Finite(0)) ==> r == default
    ensures ttl != None && ttl != Some(Finite(0)) ==> r == ttl.value
  {
    match ttl
    case None => default
    case Some(t) => if t == Finite(0) then default else t
  }

  /** `Math.ceil(max * 0.2)`, the number of entries one eviction removes. */
  function EvictionCount(max: nat): (r: nat)
    ensures 5 * r >= max
    ensures r == 0 || 5 * (r - 1) < max
    ensures r <= max && (max >= 1 ==> 1 <= r)
  {
    (max + 4) / 5
  }

  // ---------------------------------------------------------------------------
  // Key sequences: the iteration order of the underlying Map.

  /** No key occurs twice. */
  predicate Distinct(s: seq<string>) {
    |s| == 0 || (s[0] !in s[1..] && Distinct(s[1..]))
  }

  function Elems(s: seq<string>): (r: set<string>)
    ensures forall x :: x in r <==> x in s
  {
    set x | x in s
  }

  /** `s` with the elements of `dead` deleted, the rest in their original order. */
  function Without(s: seq<string>, dead: set<string>): (r: seq<string>)
    ensures Elems(r) == Elems(s) - dead
    ensures |r| <= |s|
  {
    if s == [] then []
    else (if s[0] in dead then [] else [s[0]]) + Without(s[1..], dead)
  }

  lemma {:induction false} WithoutDistinct(s: seq<string>, dead: set<string>)
    requires Distinct(s)
    ensures Distinct(Without(s, dead))
  {
    if s != [] {
      var rest := Without(s[1..], dead);
      WithoutDistinct(s[1..], dead);
      if s[0] !in dead {
        assert s[0] !in Elems(rest);
        assert Without(s, dead) == [s[0]] + rest;
        assert ([s[0]] + rest)[1..] == rest;
      } else {
        assert Without(s, dead) == [] + rest == rest;
      }
    }
  }

  lemma {:induction false} WithoutNothing(s: seq<string>, dead: set<string>)
    requires Elems(s) !! dead
    ensures Without(s, dead) == s
  {
    if s != [] {
      assert s[0] in Elems(s);
      assert Elems(s[1..]) <= Elems(s);
      WithoutNothing(s[1..], dead);
    }
  }

  lemma {:induction false} WithoutWithout(s: seq<string>, a: set<string>, b: set<string>)
    ensures Without(Without(s, a), b) == Without(s, a + b)
  {
    if s != [] {
      var rest := Without(s[1..], a);
      WithoutWithout(s[1..], a, b);
      var t := Without(s, a);
      if s[0] !in a {
        assert t == [s[0]] + rest;
        assert t[0] == s[0] && t[1..] == rest;
        assert Without(t, b) == (if s[0] in b then [] else [s[0]]) + Without(rest, b);
      } else {
        assert t == [] + rest == rest;
      }
    }
  }

  /** Deleting one present key of a duplicate-free order shortens it by one. */
  lemma {:induction false} WithoutOneLength(s: seq<string>, x: string)
    requires Distinct(s) && x in s
    ensures |Without(s, {x})| == |s| - 1
  {
    if s[0] == x {
      assert x !in Elems(s[1..]);
      WithoutNothing(s[1..], {x});
    } else {
      WithoutOneLength(s[1..], x);
    }
  }

  lemma {:induction false} DistinctAppend(s: seq<string>, x: string)
    requires Distinct(s) && x !in s
    ensures Distinct(s + [x])
  {
    if s != [] {
      assert (s + [x])[1..] == s[1..] + [x];
      DistinctAppend(s[1..], x);
    }
  }

  /** The elements of one more prefix position. */
  lemma ElemsSnoc(s: seq<string>, i: nat)
    requires i < |s|
    ensures Elems(s[..i + 1]) == Elems(s[..i]) + {s[i]}
  {
    assert s[..i + 1] == s[..i] + [s[i]];
  }

  /** Deleting the distinct present keys of `keys` removes exactly `|keys|` entries. */
  lemma DeletedCount<V>(m: map<string, V>, keys: seq<string>)
    requires Distinct(keys) && Elems(keys) <= m.Keys
    ensures |Elems(keys)| == |keys|
    ensures |m - Elems(keys)| == |m| - |keys|
    ensures keys == [] ==> m - Elems(keys) == m
  {
    DistinctCard(keys);
    var rest := m - Elems(keys);
    assert rest.Keys == m.Keys - Elems(keys);
    assert |m.Keys| == |rest.Keys| + |Elems(keys)|;
  }

  /** Deleting two key sets in turn deletes their union. */
  lemma MapMinusMinus<V>(m: map<string, V>, a: set<string>, b: set<string>)
    ensures (m - a) - b == m - (a + b)
  {
  }

  /** In a duplicate-free sequence no element occurs before its own position. */
  lemma {:induction false} DistinctAt(s: seq<string>, i: nat)
    requires Distinct(s) && i < |s|
    ensures s[i] !in s[..i]
  {
    if i > 0 {
      DistinctAt(s[1..], i - 1);
      assert s[..i] == [s[0]] + s[1..][..i - 1];
      assert s[i] in s[1..];
    }
  }

  lemma {:induction false} DistinctPrefix(s: seq<string>, k: nat)
    requires Distinct(s) && k <= |s|
    ensures Distinct(s[..k])
  {
    if k > 0 {
      assert s[..k][1..] == s[1..][..k - 1];
      assert Elems(s[1..][..k - 1]) <= Elems(s[1..]);
      DistinctPrefix(s[1..], k - 1);
    }
  }

  /** A duplicate-free sequence has as many distinct elements as positions. */
  lemma {:induction false} DistinctCard(s: seq<string>)
    requires Distinct(s)
    ensures |Elems(s)| == |s|
  {
    if s != [] {
      DistinctCard(s[1..]);
      assert Elems(s) == {s[0]} + Elems(s[1..]);
      assert s[0] !in Elems(s[1..]);
    }
  }

  // ---------------------------------------------------------------------------
  // What the sweep, the pattern invalidation and the eviction remove.

  /** The keys whose entries are no longer valid at `now`. */
  function ExpiredKeys<T>(cache: map<string, Entry<T>>, now: int): set<string> {
    set k | k in cache && !IsLive(cache[k], now)
  }

  /** `p` occurs in `s` starting at position `i`. */
  predicate OccursAt(s: string, p: string, i: nat) {
    i + |p| <= |s| && s[i..i + |p|] == p
  }

  /** JavaScript `s.includes(p)`: scans `s` from the left for an occurrence of `p`. */
  predicate Includes(s: string, p: string)
    ensures Includes(s, p) <==> exists i: nat :: OccursAt(s, p, i)
  {
    if |p| > |s| then false
    else if s[..|p|] == p then assert OccursAt(s, p, 0); true
    else
      var rest := Includes(s[1..], p);
      assert forall i: nat :: OccursAt(s, p, i + 1) <==> OccursAt(s[1..], p, i) by {
        forall i: nat ensures OccursAt(s, p, i + 1) <==> OccursAt(s[1..], p, i) {
          if i + 1 + |p| <= |s| {
            assert s[1..][i..i + |p|] == s[i + 1..i + 1 + |p|];
          }
        }
      }
      assert !OccursAt(s, p, 0);
      assert (exists i: nat :: OccursAt(s, p, i)) ==> exists i: nat :: OccursAt(s[1..], p, i) by {
        if exists i: nat :: OccursAt(s, p, i) {
          var i: nat :| OccursAt(s, p, i);
          assert i > 0;
          assert OccursAt(s[1..], p, i - 1);
        }
      }
      rest
  }

  /** The keys whose entry's url contains `pattern`. */
  function MatchingKeys<T>(cache: map<string, Entry<T>>, pattern: string): set<string> {
    set k | k in cache && Includes(cache[k].url, pattern)
  }

  /** Entries listed by `s` appear in ascending timestamp order. */
  ghost predicate SortedByAge<T>(s: seq<string>, cache: map<string, Entry<T>>)
    requires Elems(s) <= cache.Keys
  {
    forall i, j :: 0 <= i < j < |s| ==> cache[s[i]].timestamp <= cache[s[j]].timestamp
  }

  /** Puts `x` in front of the first element of `s` that is not older than it. */
  function InsertByAge<T>(x: string, s: seq<string>, cache: map<string, Entry<T>>): (r: seq<string>)
    requires x in cache && Elems(s) <= cache.Keys
    ensures multiset(r) == multiset(s) + multiset{x}
    ensures Elems(r) == Elems(s) + {x}
    ensures |r| == |s| + 1
  {
    if s == [] || cache[x].timestamp <= cache[s[0]].timestamp then [x] + s
    else
      assert s == [s[0]] + s[1..];
      [s[0]] + InsertByAge(x, s[1..], cache)
  }

  /**
   * `entries.sort((a, b) => a[1].timestamp - b[1].timestamp)`: the keys in
   * ascending timestamp order; the sort is stable, so equal timestamps keep
   * their iteration order.
   */
  function SortByAge<T>(s: seq<string>, cache: map<string, Entry<T>>): (r: seq<string>)
    requires Elems(s) <= cache.Keys
    ensures multiset(r) == multiset(s)
    ensures Elems(r) == Elems(s)
    ensures |r| == |s|
  {
    if s == [] then []
    else
      assert s == [s[0]] + s[1..];
      InsertByAge(s[0], SortByAge(s[1..], cache), cache)
  }

  /** A sorted sequence stays sorted when an entry no newer than all of it goes in front. */
  lemma SortedCons<T>(x: string, s: seq<string>, cache: map<string, Entry<T>>)
    requires x in cache && Elems(s) <= cache.Keys
    requires SortedByAge(s, cache)
    requires forall y :: y in s ==> cache[x].timestamp <= cache[y].timestamp
    ensures SortedByAge([x] + s, cache)
  {
    var r := [x] + s;
    assert Elems(r) <= cache.Keys;
    forall i, j | 0 <= i < j < |r| ensures cache[r[i]].timestamp <= cache[r[j]].timestamp {
      assert r[j] == s[j - 1];
      if i > 0 {
        assert r[i] == s[i - 1];
      }
    }
  }

  lemma {:induction false} InsertByAgeSorted<T>(x: string, s: seq<string>, cache: map<string, Entry<T>>)
    requires x in cache && Elems(s) <= cache.Keys
    requires SortedByAge(s, cache)
    ensures SortedByAge(InsertByAge(x, s, cache), cache)
  {
    if s == [] || cache[x].timestamp <= cache[s[0]].timestamp {
      forall y | y in s ensures cache[x].timestamp <= cache[y].timestamp {
        var j :| 0 <= j < |s| && s[j] == y;
        assert j == 0 || cache[s[0]].timestamp <= cache[s[j]].timestamp;
      }
      SortedCons(x, s, cache);
    } else {
      var rest := InsertByAge(x, s[1..], cache);
      InsertByAgeSorted(x, s[1..], cache);
      assert SortedByAge(s[1..], cache) by {
        forall i, j | 0 <= i < j < |s[1..]|
          ensures cache[s[1..][i]].timestamp <= cache[s[1..][j]].timestamp
        {
          assert s[1..][i] == s[i + 1] && s[1..][j] == s[j + 1];
        }
      }
      forall y | y in rest ensures cache[s[0]].timestamp <= cache[y].timestamp {
        assert y in Elems(rest);
        if y != x {
          var j :| 0 <= j < |s[1..]| && s[1..][j] == y;
          assert s[j + 1] == y;
        }
      }
      SortedCons(s[0], rest, cache);
    }
  }

  /** The sort really orders by timestamp. */
  lemma {:induction false} SortByAgeSorted<T>(s: seq<string>, cache: map<string, Entry<T>>)
    requires Elems(s) <= cache.Keys
    ensures SortedByAge(SortByAge(s, cache), cache)
  {
    if s != [] {
      SortByAgeSorted(s[1..], cache);
      InsertByAgeSorted(s[0], SortByAge(s[1..], cache), cache);
    }
  }

  lemma {:induction false} InsertByAgeDistinct<T>(x: string, s: seq<string>, cache: map<string, Entry<T>>)
    requires x in cache && Elems(s) <= cache.Keys
    requires Distinct(s) && x !in s
    ensures Distinct(InsertByAge(x, s, cache))
  {
    var r := InsertByAge(x, s, cache);
    if s == [] || cache[x].timestamp <= cache[s[0]].timestamp {
      assert r == [x] + s && r[1..] == s;
    } else {
      var rest := InsertByAge(x, s[1..], cache);
      InsertByAgeDistinct(x, s[1..], cache);
      assert s[0] !in Elems(rest);
      assert r == [s[0]] + rest && r[1..] == rest;
    }
  }

  /** Sorting a duplicate-free order leaves it duplicate-free. */
  lemma {:induction false} SortByAgeDistinct<T>(s: seq<string>, cache: map<string, Entry<T>>)
    requires Elems(s) <= cache.Keys && Distinct(s)
    ensures Distinct(SortByAge(s, cache))
  {
    if s != [] {
      SortByAgeDistinct(s[1..], cache);
      assert s[0] !in Elems(SortByAge(s[1..], cache));
      InsertByAgeDistinct(s[0], SortByAge(s[1..], cache), cache);
    }
  }

  /** The keys of `s` whose entries were stored at time `t`, in the order of `s`. */
  function SameAge<T>(s: seq<string>, cache: map<string, Entry<T>>, t: int): (r: seq<string>)
    requires Elems(s) <= cache.Keys
    ensures |r| <= |s|
  {
    if s == [] then []
    else
      assert s == [s[0]] + s[1..];
      (if cache[s[0]].timestamp == t then [s[0]] else []) + SameAge(s[1..], cache, t)
  }

  /** Insertion passes over only strictly older keys, so it puts `x` first among the keys of its own age. */
  lemma {:induction false} InsertByAgeStable<T>(x: string, s: seq<string>, cache: map<string, Entry<T>>, t: int)
    requires x in cache && Elems(s) <= cache.Keys
    ensures SameAge(InsertByAge(x, s, cache), cache, t)
            == (if cache[x].timestamp == t then [x] else []) + SameAge(s, cache, t)
  {
    var r := InsertByAge(x, s, cache);
    var mine: seq<string> := if cache[x].timestamp == t then [x] else [];
    if s == [] || cache[x].timestamp <= cache[s[0]].timestamp {
      assert r == [x] + s && r[1..] == s;
    } else {
      var head: seq<string> := if cache[s[0]].timestamp == t then [s[0]] else [];
      assert r[0] == s[0] && r[1..] == InsertByAge(x, s[1..], cache);
      calc {
        SameAge(r, cache, t);
        head + SameAge(r[1..], cache, t);
        { InsertByAgeStable(x, s[1..], cache, t); }
        head + (mine + SameAge(s[1..], cache, t));
        { assert head == [] || mine == []; }
        mine + (head + SameAge(s[1..], cache, t));
        mine + SameAge(s, cache, t);
      }
    }
  }

  /**
   * The age sort is stable: for every timestamp, the keys stored at that
   * time come out in iteration order, so eviction breaks ties by insertion
   * order.
   */
  lemma {:induction false} SortByAgeStable<T>(s: seq<string>, cache: map<string, Entry<T>>, t: int)
    requires Elems(s) <= cache.Keys
    ensures SameAge(SortByAge(s, cache), cache, t) == SameAge(s, cache, t)
  {
    if s != [] {
      assert s == [s[0]] + s[1..];
      SortByAgeStable(s[1..], cache, t);
      InsertByAgeStable(s[0], SortByAge(s[1..], cache), cache, t);
    }
  }

  /**
   * The keys an eviction of `k` entries deletes: the first `k` of the keys
   * sorted by age.
   */
  function Evicted<T>(order: seq<string>, cache: map<string, Entry<T>>, k: nat): (r: seq<string>)
    requires Elems(order) <= cache.Keys
    ensures |r| == if k <= |order| then k else |order|
  {
    var sorted := SortByAge(order, cache);
    if k <= |sorted| then sorted[..k] else sorted
  }

  /**
   * The keys `manageCacheSize` deletes from a Map with iteration order
   * `order`: none while it is within `max`, otherwise the oldest
   * `EvictionCount(max)`.
   */
  function Victims<T>(order: seq<string>, cache: map<string, Entry<T>>, max: nat): (r: set<string>)
    requires Elems(order) <= cache.Keys
    ensures r <= Elems(order)
    ensures |cache| <= max ==> r == {}
  {
    if |cache| <= max then {} else Elems(Evicted(order, cache, EvictionCount(max)))
  }

  /** No entry an eviction deletes is newer than any entry it keeps. */
  lemma EvictedAreOldest<T>(order: seq<string>, cache: map<string, Entry<T>>, k: nat, e: string, s: string)
    requires Elems(order) <= cache.Keys
    requires e in Evicted(order, cache, k)
    requires s in order && s !in Evicted(order, cache, k)
    ensures cache[e].timestamp <= cache[s].timestamp
  {
    var sorted := SortByAge(order, cache);
    SortByAgeSorted(order, cache);
    assert s in Elems(sorted);
    var j :| 0 <= j < |sorted| && sorted[j] == s;
    var prefix := Evicted(order, cache, k);
    var i :| 0 <= i < |prefix| && prefix[i] == e;
    assert forall m :: 0 <= m < |prefix| ==> prefix[m] == sorted[m];
    assert sorted[i] == e && i < j;
  }

  /**
   * The Map after `set` files `e` under `url` and `manageCacheSize` has run:
   * the entry goes in (a new key at the end of the iteration order, an old
   * key keeps its place), then the victims of the enlarged Map come out.
   */
  function AfterSet<T>(cache: map<string, Entry<T>>, order: seq<string>, url: string, e: Entry<T>, max: nat)
    : (r: (map<string, Entry<T>>, seq<string>))
    requires Elems(order) == cache.Keys
  {
    var stored := cache[url := e];
    var storedOrder := if url in cache then order else order + [url];
    var gone := Victims(storedOrder, stored, max);
    (stored - gone, Without(storedOrder, gone))
  }

  /** `set` changes no entry but the one it stores, which it stores as given unless it is evicted at once. */
  lemma AfterSetChangesOnlyUrl<T>(cache: map<string, Entry<T>>, order: seq<string>, url: string, e: Entry<T>, max: nat)
    requires Elems(order) == cache.Keys
    ensures var after := AfterSet(cache, order, url, e, max).0;
            && after.Keys <= cache.Keys + {url}
            && (url in after ==> after[url] == e)
            && (forall k :: k in after && k != url ==> after[k] == cache[k])
  {
  }

  /**
   * When every other entry is older than the one `set` stores (the clock
   * has moved on since they were stored) and `max >= 1`, eviction spares
   * the new entry: `set` leaves it in the Map.
   */
  lemma AfterSetKeepsNewest<T>(cache: map<string, Entry<T>>, order: seq<string>, url: string, e: Entry<T>, max: nat)
    requires Distinct(order) && Elems(order) == cache.Keys && max >= 1
    requires forall k :: k in cache && k != url ==> cache[k].timestamp < e.timestamp
    ensures url in AfterSet(cache, order, url, e, max).0
  {
    var stored := cache[url := e];
    var storedOrder := if url in cache then order else order + [url];
    if |stored| > max {
      StoredOrder(cache, order, url, e);
      var count := EvictionCount(max);
      var gone := Evicted(storedOrder, stored, count);
      var s := Survivor(storedOrder, stored, count);
      if s != url {
        forall x | x in gone
          ensures x != url
        {
          EvictedAreOldest(storedOrder, stored, count, x, s);
        }
      }
      assert url !in Victims(storedOrder, stored, max);
    }
  }

  /** Filing an entry keeps the iteration order duplicate-free and in step with the keys. */
  lemma StoredOrder<T>(cache: map<string, Entry<T>>, order: seq<string>, url: string, e: Entry<T>)
    requires Distinct(order) && Elems(order) == cache.Keys
    ensures var stored := cache[url := e];
            var storedOrder := if url in cache then order else order + [url];
            && Distinct(storedOrder) && Elems(storedOrder) == stored.Keys && |storedOrder| == |stored|
  {
    var stored := cache[url := e];
    var storedOrder := if url in cache then order else order + [url];
    if url !in cache {
      DistinctAppend(order, url);
    }
    assert stored.Keys == Elems(storedOrder);
    DistinctCard(storedOrder);
    assert |storedOrder| == |stored.Keys| == |stored|;
  }

  /** An eviction of fewer keys than there are leaves one of them in place. */
  lemma Survivor<T>(order: seq<string>, cache: map<string, Entry<T>>, k: nat) returns (s: string)
    requires Distinct(order) && Elems(order) <= cache.Keys && k < |order|
    ensures s in order && s !in Evicted(order, cache, k)
  {
    var sorted := SortByAge(order, cache);
    SortByAgeDistinct(order, cache);
    DistinctAt(sorted, k);
    s := sorted[k];
    assert Evicted(order, cache, k) == sorted[..k];
    assert s in Elems(sorted);
  }

  // ---------------------------------------------------------------------------

  class CacheService<T> {
    var cache: map<string, Entry<T>>
    /** The Map's iteration order over `cache`'s keys. */
    var order: seq<string>
    var hits: nat
    var misses: nat
    var size: nat
    const defaultTTL: Ttl
    const maxCacheSize: nat

    /** The Map itself is consistent: its order lists each key once, and each entry is filed under its own url. */
    ghost predicate MapValid()
      reads this`cache, this`order
    {
      && Distinct(order)
      && cache.Keys == Elems(order)
      && (forall k :: k in cache ==> cache[k].url == k)
    }

    /** Between public operations `stats.size` also agrees with the Map. */
    ghost predicate Valid()
      reads this`cache, this`order, this`size
    {
      MapValid() && size == |cache|
    }

    /** The size bound the eviction policy maintains. */
    ghost predicate Bounded()
      reads this`cache
    {
      |cache| <= maxCacheSize
    }

    constructor (defaultTTL: Ttl, maxCacheSize: nat)
      ensures Valid() && Bounded()
      ensures cache == map[] && order == [] && hits == 0 && misses == 0
      ensures this.defaultTTL == defaultTTL && this.maxCacheSize == maxCacheSize
    {
      cache := map[];
      order := [];
      hits, misses, size := 0, 0, 0;
      this.defaultTTL := defaultTTL;
      this.maxCacheSize := maxCacheSize;
    }

    lemma SizeIsOrderLength()
      requires MapValid()
      ensures |cache| == |order|
    {
      DistinctCard(order);
      assert cache.Keys == Elems(order);
    }

    /** True iff a valid entry is stored under `url`: the entry a sweep at `now` would keep. */
    function Has(url: string, now: int): (r: bool)
      reads this`cache
      ensures r <==> url in cache - ExpiredKeys(cache, now)
    {
      url in cache && IsLive(cache[url], now)
    }

    /** The percentage of lookups that hit; 0 before any lookup. */
    function HitRate(): (r: real)
      reads this
      ensures hits + misses == 0 ==> r == 0.0
      ensures hits + misses > 0 ==> r * (hits + misses) as real == 100.0 * hits as real
      ensures 0.0 <= r <= 100.0
    {
      var total := hits + misses;
      if total == 0 then 0.0
      else
        var frac := hits as real / total as real;
        assert frac * total as real == hits as real;
        assert 0.0 <= frac <= 1.0;
        frac * 100.0
    }

    /** `Map.delete`: removes `key` and its place in the iteration order; the stats are not touched. */
    method Delete(key: string) returns (deleted: bool)
      requires MapValid()
      modifies this`cache, this`order
      ensures MapValid()
      ensures deleted == (key in old(cache))
      ensures cache == old(cache) - {key}
      ensures order == Without(old(order), {key})
      ensures deleted ==> |order| == |old(order)| - 1
    {
      deleted := key in cache;
      if deleted {
        WithoutDistinct(order, {key});
        WithoutOneLength(order, key);
        cache := cache - {key};
        order := Without(order, {key});
      } else {
        WithoutNothing(order, {key});
      }
    }

    /** Deletes every key of `keys`, in turn. */
    method DeleteAll(keys: seq<string>) returns (count: nat)
      requires MapValid()
      requires Distinct(keys) && Elems(keys) <= cache.Keys
      modifies this`cache, this`order
      ensures MapValid()
      ensures cache == old(cache) - Elems(keys)
      ensures order == Without(old(order), Elems(keys))
      ensures count == |keys| && |order| == |old(order)| - |keys|
    {
      count := 0;
      WithoutNothing(order, {});
      assert Elems(keys[..0]) == {};
      while count < |keys|
        invariant count <= |keys|
        invariant MapValid()
        invariant cache == old(cache) - Elems(keys[..count])
        invariant order == Without(old(order), Elems(keys[..count]))
        invariant |order| == |old(order)| - count
      {
        var key := keys[count];
        DistinctAt(keys, count);
        ElemsSnoc(keys, count);
        WithoutWithout(old(order), Elems(keys[..count]), {key});
        MapMinusMinus(old(cache), Elems(keys[..count]), {key});
        var deleted := Delete(key);
        count := count + 1;
      }
      assert keys[..count] == keys;
    }

    /** `updateStats`: `stats.size` takes the Map's size. */
    method UpdateStats()
      modifies this`size
      ensures size == |cache|
    {
      size := |cache|;
    }

    /** The keys a sweep at `now` deletes, collected in iteration order. */
    method ExpiredInOrder(now: int) returns (keys: seq<string>)
      requires MapValid()
      ensures Distinct(keys) && Elems(keys) == ExpiredKeys(cache, now)
    {
      var all, entries := order, cache;
      keys := [];
      var i := 0;
      while i < |all|
        invariant i <= |all|
        invariant Distinct(keys)
        invariant forall k :: k in keys <==> k in all[..i] && k in entries && !IsLive(entries[k], now)
      {
        var key := all[i];
        DistinctAt(all, i);
        if !IsLive(entries[key], now) {
          DistinctAppend(keys, key);
          keys := keys + [key];
        }
        assert all[..i + 1] == all[..i] + [key];
        i := i + 1;
      }
      assert all[..i] == all;
      assert Elems(keys) == ExpiredKeys(cache, now) by {
        forall k | k in cache ensures k in all {
          assert k in Elems(order);
        }
      }
    }

    /** The keys whose url contains `pattern`, collected in iteration order. */
    method MatchingInOrder(pattern: string) returns (keys: seq<string>)
      requires MapValid()
      ensures Distinct(keys) && Elems(keys) == MatchingKeys(cache, pattern)
    {
      var all, entries := order, cache;
      keys := [];
      var i := 0;
      while i < |all|
        invariant i <= |all|
        invariant Distinct(keys)
        invariant forall k :: k in keys <==> k in all[..i] && k in entries && Includes(entries[k].url, pattern)
      {
        var key := all[i];
        DistinctAt(all, i);
        if Includes(entries[key].url, pattern) {
          DistinctAppend(keys, key);
          keys := keys + [key];
        }
        assert all[..i + 1] == all[..i] + [key];
        i := i + 1;
      }
      assert all[..i] == all;
      assert Elems(keys) == MatchingKeys(cache, pattern) by {
        forall k | k in cache ensures k in all {
          assert k in Elems(order);
        }
      }
    }

    /** Deletes every entry that is no longer valid at `now`. */
    method CleanupExpired(now: int)
      requires Valid()
      modifies this`cache, this`order, this`size
      ensures Valid()
      ensures cache == old(cache) - ExpiredKeys(old(cache), now)
      ensures order == Without(old(order), ExpiredKeys(old(cache), now))
      ensures forall k :: k in cache ==> IsLive(cache[k], now)
    {
      var keysToDelete := ExpiredInOrder(now);
      var _ := DeleteAll(keysToDelete);
      UpdateStats();
    }

    /**
     * When the Map holds more than `maxCacheSize` entries, sorts them by age
     * and deletes the first `ceil(maxCacheSize * 0.2)`.
     */
    method ManageCacheSize()
      requires MapValid()
      modifies this`cache, this`order, this`size
      ensures MapValid()
      ensures cache == old(cache) - Victims(old(order), old(cache), maxCacheSize)
      ensures order == Without(old(order), Victims(old(order), old(cache), maxCacheSize))
      ensures |old(cache)| <= maxCacheSize ==> size == old(size)
      ensures |old(cache)| > maxCacheSize ==>
                |cache| == |old(cache)| - EvictionCount(maxCacheSize) && size == |cache|
    {
      SizeIsOrderLength();
      if |cache| <= maxCacheSize {
        WithoutNothing(order, {});
        return;
      }
      EvictOldest(EvictionCount(maxCacheSize));
      UpdateStats();
    }

    /** Sorts the keys by age and deletes the first `count` of them. */
    method EvictOldest(count: nat)
      requires MapValid() && count <= |order|
      modifies this`cache, this`order
      ensures MapValid()
      ensures cache == old(cache) - Elems(Evicted(old(order), old(cache), count))
      ensures order == Without(old(order), Elems(Evicted(old(order), old(cache), count)))
      ensures |cache| == |old(cache)| - count
    {
      SizeIsOrderLength();
      var entries := SortByAge(order, cache);
      SortByAgeDistinct(order, cache);
      assert entries[..count] + entries[count..] == entries;
      DistinctPrefix(entries, count);
      var _ := DeleteAll(entries[..count]);
      SizeIsOrderLength();
    }

    /**
     * Looks `url` up after sweeping out expired entries: a valid entry is a
     * hit and yields its data, anything else is a miss.
     */
    method Get(url: string, now: int) returns (r: Option<T>)
      requires Valid()
      modifies this`cache, this`order, this`size, this`hits, this`misses
      ensures Valid()
      ensures cache == old(cache) - ExpiredKeys(old(cache), now)
      ensures order == Without(old(order), ExpiredKeys(old(cache), now))
      ensures r == if old(Has(url, now)) then Some(old(cache)[url].data) else None
      ensures r.Some? ==> hits == old(hits) + 1 && misses == old(misses)
      ensures r.None? ==> hits == old(hits) && misses == old(misses) + 1
    {
      CleanupExpired(now);
      if url in cache && IsLive(cache[url], now) {
        hits := hits + 1;
        return Some(cache[url].data);
      }
      misses := misses + 1;
      return None;
    }

    /**
     * Stores `data` under `url`, stamped `now`, replacing any entry there
     * (which keeps its place in the iteration order), then evicts if the Map
     * has grown past `maxCacheSize`.
     */
    method Set(url: string, data: T, ttl: Option<Ttl>, now: int)
      requires Valid()
      modifies this`cache, this`order, this`size
      ensures Valid()
      ensures (cache, order) == AfterSet(old(cache), old(order), url, Entry(data, now, EffectiveTtl(ttl, defaultTTL), url), maxCacheSize)
      ensures url in cache ==> cache[url] == Entry(data, now, EffectiveTtl(ttl, defaultTTL), url)
      ensures old(Bounded()) && maxCacheSize >= 1 ==> Bounded()
    {
      var entry := Entry(data, now, EffectiveTtl(ttl, defaultTTL), url);
      Store(url, entry);
      UpdateStats();
    }

    /** `Map.set` followed by `manageCacheSize`, before the stats are updated. */
    method Store(url: string, entry: Entry<T>)
      requires MapValid() && entry.url == url
      modifies this`cache, this`order, this`size
      ensures MapValid()
      ensures (cache, order) == AfterSet(old(cache), old(order), url, entry, maxCacheSize)
      ensures url in cache ==> cache[url] == entry
      ensures |old(cache)| <= maxCacheSize && maxCacheSize >= 1 ==> |cache| <= maxCacheSize
      ensures |old(cache)[url := entry]| <= maxCacheSize ==> size == old(size)
      ensures |old(cache)[url := entry]| > maxCacheSize ==> size == |cache|
    {
      ghost var before := |cache|;
      Put(url, entry);
      ghost var stored := |cache|;
      ManageCacheSize();
      assert stored <= maxCacheSize ==> |cache| == stored;
      assert stored > maxCacheSize ==> |cache| == stored - EvictionCount(maxCacheSize);
    }

    /** `Map.set`: files `entry` under `url`; a new key goes to the end of the iteration order. */
    method Put(url: string, entry: Entry<T>)
      requires MapValid() && entry.url == url
      modifies this`cache, this`order
      ensures MapValid()
      ensures cache == old(cache)[url := entry]
      ensures order == if url in old(cache) then old(order) else old(order) + [url]
      ensures |cache| <= |old(cache)| + 1
    {
      SizeIsOrderLength();
      if url !in cache {
        DistinctAppend(order, url);
        order := order + [url];
      }
      cache := cache[url := entry];
      assert MapValid();
      SizeIsOrderLength();
    }

    /** Deletes the entry stored under `url`; true iff there was one. */
    method Invalidate(url: string) returns (deleted: bool)
      requires Valid()
      modifies this`cache, this`order, this`size
      ensures Valid()
      ensures deleted == (url in old(cache))
      ensures cache == old(cache) - {url}
      ensures order == Without(old(order), {url})
    {
      deleted := Delete(url);
      if deleted {
        UpdateStats();
      }
    }

    /** Deletes every entry whose url contains `pattern` and returns how many it deleted. */
    method InvalidatePattern(pattern: string) returns (count: nat)
      requires Valid()
      modifies this`cache, this`order, this`size
      ensures Valid()
      ensures cache == old(cache) - MatchingKeys(old(cache), pattern)
      ensures order == Without(old(order), MatchingKeys(old(cache), pattern))
      ensures count == |old(cache)| - |cache|
      ensures count == |MatchingKeys(old(cache), pattern)|
    {
      var keysToDelete := MatchingInOrder(pattern);
      ghost var before := cache;
      DeletedCount(before, keysToDelete);
      count := DeleteAll(keysToDelete);
      if count > 0 {
        UpdateStats();
      }
    }

    /** Empties the Map and resets every counter. */
    method Clear()
      modifies this`cache, this`order, this`size, this`hits, this`misses
      ensures Valid() && Bounded()
      ensures cache == map[] && order == []
      ensures hits == 0 && misses == 0 && size == 0
    {
      cache := map[];
      order := [];
      hits := 0;
      misses := 0;
      UpdateStats();
    }

    /** Sweeps, then reports the counters and the post-sweep size. */
    method GetStats(now: int) returns (s: CacheStats)
      requires Valid()
      modifies this`cache, this`order, this`size
      ensures Valid()
      ensures cache == old(cache) - ExpiredKeys(old(cache), now)
      ensures order == Without(old(order), ExpiredKeys(old(cache), now))
      ensures s == CacheStats(hits, misses, |cache|)
    {
      CleanupExpired(now);
      s := CacheStats(hits, misses, size);
    }

    /** The `url` field of every entry, in iteration order. */
    method Urls() returns (urls: seq<string>)
      requires MapValid()
      ensures urls == order
    {
      var keys, entries := order, cache;
      urls := [];
      var i := 0;
      while i < |keys|
        invariant i <= |keys|
        invariant urls == keys[..i]
      {
        assert keys[i] in Elems(keys);
        urls := urls + [entries[keys[i]].url];
        i := i + 1;
      }
    }

    /** Sweeps, then lists the url of every remaining entry in iteration order. */
    method GetCachedUrls(now: int) returns (urls: seq<string>)
      requires Valid()
      modifies this`cache, this`order, this`size
      ensures Valid()
      ensures cache == old(cache) - ExpiredKeys(old(cache), now)
      ensures urls == Without(old(order), ExpiredKeys(old(cache), now))
      ensures forall u :: u in urls ==> u in cache && IsLive(cache[u], now)
      ensures |urls| == |cache|
    {
      CleanupExpired(now);
      urls := Urls();
      SizeIsOrderLength();
    }
  }
}
