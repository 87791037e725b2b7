/**
  The cache of distance matrices: services/ortools_distance_cache.py, `ORToolsDistanceCache`.

  The calls run in one event loop and a call is suspended only while its matrix is computed, so that a
  request is two atomic steps: the lookup, and after a miss the save.  Between them other calls may run.
 */
module DistanceCache {
  import opened Wrappers
  import opened Sequences
  import opened Sorting
  import opened MatrixFill

  // ---------- Keys ----------

  /** A place as the key sees it: coordinates in millionths of a degree, and its name. */
  datatype Spot = Spot(lat: int, lon: int, name: string)

  type Key = seq<Spot>

  /** Python's `round(x, 6)`, counted in millionths: to the nearest, halves to the even one. */
  function Millionths(x: real): (m: int)
    ensures -0.5 <= x * 1000000.0 - m as real <= 0.5
    ensures x * 1000000.0 - m as real == 0.5 || x * 1000000.0 - m as real == -0.5 ==> m % 2 == 0
  {
    var scaled := x * 1000000.0;
    var down := scaled.Floor;
    var rest := scaled - down as real;
    if rest < 0.5 || (rest == 0.5 && down % 2 == 0) then down else down + 1
  }

  function SpotOf(place: Place): (spot: Spot)
    ensures spot.name == place.name
    ensures -0.5 <= place.lat * 1000000.0 - spot.lat as real <= 0.5 && -0.5 <= place.lon * 1000000.0 - spot.lon as real <= 0.5
  {
    Spot(Millionths(place.lat), Millionths(place.lon), place.name)
  }

  function Spots(places: seq<Place>): (spots: seq<Spot>)
    ensures |spots| == |places| && forall i | 0 <= i < |places| :: spots[i] == SpotOf(places[i])
  {
    seq(|places|, i requires 0 <= i < |places| => SpotOf(places[i]))
  }

  predicate Before(a: Spot, b: Spot) {
    a.lat < b.lat || (a.lat == b.lat && a.lon < b.lon)
  }

  /** A stable insertion: spots with equal coordinates keep their order. */
  function InsertSpot(sorted: seq<Spot>, spot: Spot): (longer: seq<Spot>)
    ensures multiset(longer) == multiset(sorted) + multiset{spot}
  {
    if sorted != [] && Before(spot, sorted[|sorted| - 1]) then
      assert sorted == sorted[..|sorted| - 1] + [sorted[|sorted| - 1]];
      InsertSpot(sorted[..|sorted| - 1], spot) + [sorted[|sorted| - 1]]
    else sorted + [spot]
  }

  function SortSpots(spots: seq<Spot>): (sorted: seq<Spot>)
    ensures multiset(sorted) == multiset(spots)
  {
    if spots == [] then []
    else
      assert spots == spots[..|spots| - 1] + [spots[|spots| - 1]];
      InsertSpot(SortSpots(spots[..|spots| - 1]), spots[|spots| - 1])
  }

  /**
    The key is made of the places alone, although the matrix also depends on the preference of the request.
    The documentation promises a key that keeps the order of the places; the code sorts them.
   */
  datatype KeyRule = InOrder | Sorted

  function KeyOf(rule: KeyRule, places: seq<Place>): Key {
    if rule == InOrder then Spots(places) else SortSpots(Spots(places))
  }

  // ---------- The state ----------

  datatype Entry = Entry(matrix: Matrix, source: Source, timestamp: int)

  datatype State = State(cache: map<Key, Entry>, hits: nat, misses: nat, size: nat, saved: nat)

  datatype Config = Config(rule: KeyRule, maxSize: nat, ttl: int)

  predicate Expired(config: Config, entry: Entry, now: int) {
    now > entry.timestamp + config.ttl
  }

  function Live(config: Config, cache: map<Key, Entry>, now: int): map<Key, Entry> {
    map key | key in cache && !Expired(config, cache[key], now) :: cache[key]
  }

  function Found(config: Config, s: State, places: seq<Place>, now: int): Option<Entry> {
    var key := KeyOf(config.rule, places);
    if key in s.cache && !Expired(config, s.cache[key], now) then Some(s.cache[key]) else None
  }

  function LookedUp(config: Config, s: State, places: seq<Place>, now: int): State {
    var key := KeyOf(config.rule, places);
    if key !in s.cache then s.(misses := s.misses + 1)
    else if Expired(config, s.cache[key], now) then
      s.(cache := s.cache - {key}, size := |s.cache - {key}|, misses := s.misses + 1)
    else s.(hits := s.hits + 1)
  }

  function EvictedCount(live: nat): (count: nat)
    ensures if live < 5 then count == 1 else 5 * count <= live < 5 * count + 5
  {
    if live / 5 > 1 then live / 5 else 1
  }

  /** Expired entries are gone; if that is not enough, a fifth of the others, none younger than one kept. */
  ghost predicate Cleaned(config: Config, cache: map<Key, Entry>, now: int, after: map<Key, Entry>) {
    var live := Live(config, cache, now);
    if |live| < config.maxSize then after == live
    else
      && after.Keys <= live.Keys && (forall key | key in after :: after[key] == live[key])
      && |after| == |live| - EvictedCount(|live|)
      && forall evicted, kept | evicted in live && evicted !in after && kept in after ::
          live[evicted].timestamp <= live[kept].timestamp
  }

  /** A save into a full cache cleans it up first. */
  ghost predicate SavedOver(config: Config, s: State, key: Key, entry: Entry, base: map<Key, Entry>, t: State) {
    && (if |s.cache| >= config.maxSize then Cleaned(config, s.cache, entry.timestamp, base) else base == s.cache)
    && t == s.(cache := base[key := entry], size := |base[key := entry]|, saved := s.saved + 1)
  }

  ghost predicate Saved(config: Config, s: State, key: Key, entry: Entry, t: State) {
    exists base :: SavedOver(config, s, key, entry, base, t)
  }

  function Invalidated(s: State, key: Option<Key>): State {
    match key
    case Some(k) => s.(cache := s.cache - {k})
    case None => s.(cache := map[], size := 0)
  }

  // ---------- The class ----------

  class ORToolsDistanceCache {
    const config: Config
    var cache: map<Key, Entry>
    var hits: nat
    var misses: nat
    var size: nat
    var saved: nat

    function Snapshot(): State
      reads this
    {
      State(cache, hits, misses, size, saved)
    }

    constructor (config: Config)
      ensures this.config == config && Snapshot() == State(map[], 0, 0, 0, 0)
    {
      this.config := config;
      cache, hits, misses, size, saved := map[], 0, 0, 0, 0;
    }

    /** The first step of a request: a hit, or a miss that the caller must compute and save. */
    method LookUp(places: seq<Place>, now: int) returns (entry: Option<Entry>)
      modifies this
      ensures entry == Found(config, old(Snapshot()), places, now)
      ensures Snapshot() == LookedUp(config, old(Snapshot()), places, now)
    {
      var key := KeyOf(config.rule, places);
      entry := GetFromCache(key, now);
      if entry.Some? {
        hits := hits + 1;
      } else {
        misses := misses + 1;
      }
    }

    method GetFromCache(key: Key, now: int) returns (entry: Option<Entry>)
      modifies this`cache, this`size
      ensures entry == if key in old(cache) && !Expired(config, old(cache)[key], now) then Some(old(cache)[key]) else None
      ensures key in old(cache) && Expired(config, old(cache)[key], now) ==> cache == old(cache) - {key} && size == |cache|
      ensures entry.Some? || key !in old(cache) ==> cache == old(cache) && size == old(size)
    {
      if key !in cache {
        return None;
      }
      if Expired(config, cache[key], now) {
        cache := cache - {key};
        size := |cache|;
        return None;
      }
      return Some(cache[key]);
    }

    method SaveToCache(key: Key, matrix: Matrix, source: Source, now: int)
      requires config.maxSize >= 1
      modifies this
      ensures Saved(config, old(Snapshot()), key, Entry(matrix, source, now), Snapshot())
    {
      ghost var before := Snapshot();
      if |cache| >= config.maxSize {
        CleanupCache(now);
      }
      ghost var base := cache;
      cache := cache[key := Entry(matrix, source, now)];
      size := |cache|;
      saved := saved + 1;
      assert SavedOver(config, before, key, Entry(matrix, source, now), base, Snapshot());
    }

    /** A whole request that no other call interrupts; `later` is the time when the matrix is ready. */
    method GetDistanceMatrix(request: Request, services: Services, fails: Pair -> bool, now: int, later: int)
        returns (matrix: Matrix)
      requires config.maxSize >= 1
      modifies this
      ensures
        var found := Found(config, old(Snapshot()), request.places, now);
        var looked := LookedUp(config, old(Snapshot()), request.places, now);
        if found.Some? then matrix == found.value.matrix && Snapshot() == looked
        else
          && matrix == Computed(services, request, fails)
          && Saved(config, looked, KeyOf(config.rule, request.places), Entry(matrix, services.SourceFor(request), later), Snapshot())
    {
      var found := LookUp(request.places, now);
      if found.Some? {
        return found.value.matrix;
      }
      var source;
      matrix, source := CalculateDistanceMatrix(request, services, fails);
      SaveToCache(KeyOf(config.rule, request.places), matrix, source, later);
    }

    method CleanupCache(now: int)
      requires config.maxSize >= 1
      modifies this`cache, this`size
      ensures Cleaned(config, old(cache), now, cache) && size == |cache|
    {
      DropExpired(now);
      if |cache| >= config.maxSize {
        DropOldest();
      }
      size := |cache|;
    }

    method DropExpired(now: int)
      modifies this`cache
      ensures cache == Live(config, old(cache), now)
    {
      var expired := set key | key in cache && Expired(config, cache[key], now);
      var keys := expired;
      while keys != {}
        invariant keys <= expired && cache == old(cache) - (expired - keys)
        decreases keys
      {
        var key :| key in keys;
        cache := cache - {key};
        keys := keys - {key};
      }
    }

    method DropOldest()
      requires |cache| >= 1
      modifies this`cache
      ensures cache.Keys <= old(cache).Keys && forall key | key in cache :: cache[key] == old(cache)[key]
      ensures |cache| == |old(cache)| - EvictedCount(|old(cache)|)
      ensures forall evicted, kept | evicted in old(cache) && evicted !in cache && kept in cache ::
        old(cache)[evicted].timestamp <= old(cache)[kept].timestamp
    {
      ghost var before := cache;
      var sorted := KeysByAge(cache);
      var count := EvictedCount(|sorted|);
      for i := 0 to count
        invariant Dropped(before, sorted, i, cache)
      {
        OneMoreDropped(before, sorted, i, cache);
        cache := cache - {sorted[i]};
      }
      OldestDropped(before, sorted, count, cache);
    }
  }

  ghost predicate ListedByAge(cache: map<Key, Entry>, sorted: seq<Key>) {
    && Distinct(sorted) && |sorted| == |cache| && (forall key :: key in sorted <==> key in cache)
    && forall i, j | 0 <= i < j < |sorted| :: Age(cache, sorted[i]) <= Age(cache, sorted[j])
  }

  /** What is left of a cache after its first k keys by age are deleted. */
  ghost predicate Dropped(before: map<Key, Entry>, sorted: seq<Key>, k: nat, cache: map<Key, Entry>) {
    && k <= |sorted| && |cache| == |before| - k
    && (forall i | 0 <= i < |sorted| :: sorted[i] in cache <==> i >= k)
    && forall key | key in cache :: key in before && cache[key] == before[key]
  }

  lemma OneMoreDropped(before: map<Key, Entry>, sorted: seq<Key>, k: nat, cache: map<Key, Entry>)
    requires ListedByAge(before, sorted) && Dropped(before, sorted, k, cache) && k < |sorted|
    ensures Dropped(before, sorted, k + 1, cache - {sorted[k]})
  {
  }

  lemma OldestDropped(before: map<Key, Entry>, sorted: seq<Key>, k: nat, cache: map<Key, Entry>)
    requires ListedByAge(before, sorted) && Dropped(before, sorted, k, cache)
    ensures forall evicted, kept | evicted in before && evicted !in cache && kept in cache ::
      before[evicted].timestamp <= before[kept].timestamp
  {
    forall evicted, kept | evicted in before && evicted !in cache && kept in cache
      ensures before[evicted].timestamp <= before[kept].timestamp
    {
      assert evicted in sorted && kept in sorted;
      var i :| 0 <= i < |sorted| && sorted[i] == evicted;
      var j :| 0 <= j < |sorted| && sorted[j] == kept;
      assert Age(before, sorted[i]) <= Age(before, sorted[j]);
    }
  }

  function Age(cache: map<Key, Entry>, key: Key): int {
    if key in cache then cache[key].timestamp else 0
  }

  lemma ListsEachOnce(s: seq<Key>, keys: set<Key>)
    requires multiset(s) == multiset(keys)
    ensures Distinct(s) && |s| == |keys| && forall key :: key in s <==> key in keys
  {
    assert |multiset(s)| == |multiset(keys)|;
    forall i, j | 0 <= i < j < |s| ensures s[i] != s[j] {
      MultisetSplits(s, i);
      assert Without(s, i)[j - 1] == s[j];
      assert multiset(keys)[s[i]] <= 1 && s[j] in multiset(Without(s, i));
    }
    forall key ensures key in s <==> key in keys {
      assert key in multiset(s) <==> key in multiset(keys);
    }
  }

  method KeysByAge(cache: map<Key, Entry>) returns (sorted: seq<Key>)
    ensures ListedByAge(cache, sorted)
  {
    var keys := [];
    var left := cache.Keys;
    while left != {}
      invariant left <= cache.Keys && |keys| + |left| == |cache|
      invariant multiset(keys) == multiset(cache.Keys - left)
      decreases left
    {
      var key :| key in left;
      keys := keys + [key];
      left := left - {key};
    }
    sorted := SortBy(keys, key => Age(cache, key));
    assert cache.Keys - {} == cache.Keys;
    ListsEachOnce(sorted, cache.Keys);
  }
}
