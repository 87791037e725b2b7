/**
  What the key of the cache leaves out: the order of the places and the preference of the request, and what a
  hit is worth without them.
 */
module DistanceCacheKeys {
  import opened Wrappers
  import opened Sequences
  import opened MatrixFill
  import opened DistanceCache
  import opened DistanceCacheTheorems

  // ---------- Distances the key can see ----------

  /** Distances that depend on places only as far as the key tells them apart. */
  ghost predicate BySpot(d: Distance) {
    forall a, b, x, y {:trigger d(a, x), d(b, y)} | SpotOf(a) == SpotOf(b) && SpotOf(x) == SpotOf(y) :: d(a, x) == d(b, y)
  }

  lemma SameSpotsSameMatrix(a: seq<Place>, b: seq<Place>, d: Distance)
    requires Spots(a) == Spots(b) && BySpot(d)
    ensures Direct(a, d) == Direct(b, d)
  {
    assert |a| == |Spots(a)| == |b|;
    forall i | 0 <= i < |a| ensures Direct(a, d)[i] == Direct(b, d)[i] {
      forall j | 0 <= j < |a| ensures Direct(a, d)[i][j] == Direct(b, d)[i][j] {
        assert SpotOf(a[i]) == Spots(a)[i] == SpotOf(b[i]) && SpotOf(a[j]) == Spots(a)[j] == SpotOf(b[j]);
      }
    }
  }

  /** m is n with rows and columns rearranged by one permutation. */
  ghost predicate Permuted(m: Matrix, n: Matrix, p: seq<int>) {
    && Permutation(p, |n|) && |m| == |n|
    && (forall i | 0 <= i < |n| :: |m[i]| == |n[i]| == |n|)
    && forall i, j | 0 <= i < |n| && 0 <= j < |n| :: m[i][j] == n[p[i]][p[j]]
  }

  lemma SameKeySamePlaces(a: seq<Place>, b: seq<Place>, d: Distance) returns (p: seq<int>)
    requires SortSpots(Spots(a)) == SortSpots(Spots(b)) && BySpot(d)
    ensures Permuted(Direct(a, d), Direct(b, d), p)
  {
    SameKeySameSize(a, b);
    p := Rearrangement(Spots(b), Spots(a));
    PermutedPlaces(a, b, d, p);
  }

  /** Place i of a is, to the key, place p[i] of b. */
  ghost predicate Arranged(a: seq<Place>, b: seq<Place>, p: seq<int>) {
    |a| == |b| && Permutation(p, |b|) && forall i | 0 <= i < |a| :: Spots(a)[i] == Spots(b)[p[i]]
  }

  lemma PermutedPlaces(a: seq<Place>, b: seq<Place>, d: Distance, p: seq<int>)
    requires BySpot(d) && Arranged(a, b, p)
    ensures Permuted(Direct(a, d), Direct(b, d), p)
  {
    var m, n := Direct(a, d), Direct(b, d);
    forall i, j | 0 <= i < |n| && 0 <= j < |n| ensures m[i][j] == n[p[i]][p[j]] {
      ArrangedCell(a, b, d, p, i, j);
    }
  }

  lemma ArrangedCell(a: seq<Place>, b: seq<Place>, d: Distance, p: seq<int>, i: nat, j: nat)
    requires BySpot(d) && Arranged(a, b, p) && i < |a| && j < |a|
    ensures Direct(a, d)[i][j] == Direct(b, d)[p[i]][p[j]]
  {
    assert i != j ==> p[i] != p[j];
    PermutedCell(a, b, d, i, j, p[i], p[j]);
  }

  lemma PermutedCell(a: seq<Place>, b: seq<Place>, d: Distance, i: nat, j: nat, k: nat, l: nat)
    requires BySpot(d) && i < |a| && j < |a| && k < |b| && l < |b| && (i == j <==> k == l)
    requires Spots(a)[i] == Spots(b)[k] && Spots(a)[j] == Spots(b)[l]
    ensures Direct(a, d)[i][j] == Direct(b, d)[k][l]
  {
    assert SpotOf(a[i]) == SpotOf(b[k]) && SpotOf(a[j]) == SpotOf(b[l]);
  }

  // ---------- When the sorted key is right ----------

  /** No two spots share their coordinates. */
  predicate Apart(spots: seq<Spot>) {
    forall i, j | 0 <= i < |spots| && 0 <= j < |spots| && i != j :: Before(spots[i], spots[j]) || Before(spots[j], spots[i])
  }

  predicate InSpotOrder(spots: seq<Spot>) {
    forall i, j | 0 <= i < j < |spots| :: !Before(spots[j], spots[i])
  }

  lemma {:induction false} InsertKeepsOrder(sorted: seq<Spot>, spot: Spot)
    requires InSpotOrder(sorted)
    ensures InSpotOrder(InsertSpot(sorted, spot))
  {
    if sorted != [] && Before(spot, sorted[|sorted| - 1]) {
      var init, last := sorted[..|sorted| - 1], sorted[|sorted| - 1];
      InsertKeepsOrder(init, spot);
      var longer := InsertSpot(init, spot);
      forall i | 0 <= i < |longer| ensures !Before(last, longer[i]) {
        assert longer[i] in multiset(longer);
        assert longer[i] in multiset(init) || longer[i] == spot;
      }
    } else if sorted != [] {
      assert forall i | 0 <= i < |sorted| :: !Before(sorted[|sorted| - 1], sorted[i]);
    }
  }

  /** The sorted key lists the places from south to north, and from west to east on the same latitude. */
  lemma {:induction false} SortOrders(spots: seq<Spot>)
    ensures InSpotOrder(SortSpots(spots))
    ensures var sorted := SortSpots(spots); forall i, j | 0 <= i < j < |sorted| ::
      sorted[i].lat < sorted[j].lat || (sorted[i].lat == sorted[j].lat && sorted[i].lon <= sorted[j].lon)
  {
    if spots != [] {
      SortOrders(spots[..|spots| - 1]);
      InsertKeepsOrder(SortSpots(spots[..|spots| - 1]), spots[|spots| - 1]);
    }
  }

  /** The spots with the given coordinates, in order. */
  function SpotsAt(spots: seq<Spot>, lat: int, lon: int): seq<Spot> {
    if spots == [] then []
    else
      var last := spots[|spots| - 1];
      SpotsAt(spots[..|spots| - 1], lat, lon) + if last.lat == lat && last.lon == lon then [last] else []
  }

  lemma {:induction false} InsertKeepsSpotsAt(sorted: seq<Spot>, spot: Spot, lat: int, lon: int)
    ensures SpotsAt(InsertSpot(sorted, spot), lat, lon) == SpotsAt(sorted + [spot], lat, lon)
  {
    if sorted != [] && Before(spot, sorted[|sorted| - 1]) {
      var init, last := sorted[..|sorted| - 1], sorted[|sorted| - 1];
      InsertKeepsSpotsAt(init, spot, lat, lon);
      SpotsAtAppend(init, spot, lat, lon);
      SpotsAtAppend(InsertSpot(init, spot), last, lat, lon);
      SpotsAtAppend(sorted, spot, lat, lon);
    }
  }

  lemma SpotsAtAppend(spots: seq<Spot>, spot: Spot, lat: int, lon: int)
    ensures SpotsAt(spots + [spot], lat, lon) == SpotsAt(spots, lat, lon) + if spot.lat == lat && spot.lon == lon then [spot] else []
  {
    assert (spots + [spot])[..|spots|] == spots;
  }

  /** Sorting keeps the order of the places that share their coordinates. */
  lemma {:induction false} SortIsStable(spots: seq<Spot>, lat: int, lon: int)
    ensures SpotsAt(SortSpots(spots), lat, lon) == SpotsAt(spots, lat, lon)
  {
    if spots != [] {
      var init, last := spots[..|spots| - 1], spots[|spots| - 1];
      SortIsStable(init, lat, lon);
      InsertKeepsSpotsAt(SortSpots(init), last, lat, lon);
      SpotsAtAppend(SortSpots(init), last, lat, lon);
    }
  }

  /** In a sorted sequence, the spots at the coordinates of its last one end with it. */
  lemma SpotsAtLast(spots: seq<Spot>)
    requires spots != []
    ensures var last := spots[|spots| - 1]; var at := SpotsAt(spots, last.lat, last.lon); at != [] && at[|at| - 1] == last
  {
  }

  lemma {:induction false} SpotsAtAre(spots: seq<Spot>, lat: int, lon: int, spot: Spot)
    requires spot in SpotsAt(spots, lat, lon)
    ensures spot in spots && spot.lat == lat && spot.lon == lon
  {
    var init, last := spots[..|spots| - 1], spots[|spots| - 1];
    if spot in SpotsAt(init, lat, lon) {
      SpotsAtAre(init, lat, lon, spot);
    }
  }

  /** The last spot of one sorted sequence is not after that of another that holds it. */
  lemma LastIsLast(a: seq<Spot>, b: seq<Spot>)
    requires InSpotOrder(b) && a != [] && b != []
    requires SameSpots(a, b)
    ensures !Before(b[|b| - 1], a[|a| - 1])
  {
    var last := a[|a| - 1];
    SpotsAtLast(a);
    SpotsAtAre(b, last.lat, last.lon, last);
    var i :| 0 <= i < |b| && b[i] == last;
    assert i < |b| - 1 ==> !Before(b[|b| - 1], b[i]);
  }

  lemma {:induction false} SortedByCoordinates(a: seq<Spot>, b: seq<Spot>)
    requires InSpotOrder(a) && InSpotOrder(b) && SameSpots(a, b)
    ensures a == b
    decreases |a|
  {
    if a == [] || b == [] {
      if a != [] {
        SpotsAtLast(a);
      } else if b != [] {
        SpotsAtLast(b);
      }
    } else {
      var x, y := a[|a| - 1], b[|b| - 1];
      LastIsLast(a, b);
      LastIsLast(b, a);
      SpotsAtLast(a);
      SpotsAtLast(b);
      assert x == y;
      assert a == a[..|a| - 1] + [x] && b == b[..|b| - 1] + [x];
      WithoutLastSpot(a[..|a| - 1], b[..|b| - 1], x);
      SortedByCoordinates(a[..|a| - 1], b[..|b| - 1]);
    }
  }

  lemma WithoutLastSpot(a: seq<Spot>, b: seq<Spot>, x: Spot)
    requires SameSpots(a + [x], b + [x])
    ensures SameSpots(a, b)
  {
    forall lat, lon ensures SpotsAt(a, lat, lon) == SpotsAt(b, lat, lon) {
      var at, bt, end := SpotsAt(a, lat, lon), SpotsAt(b, lat, lon), if x.lat == lat && x.lon == lon then [x] else [];
      SpotsAtAppend(a, x, lat, lon);
      SpotsAtAppend(b, x, lat, lon);
      assert SpotsAt(a + [x], lat, lon) == SpotsAt(b + [x], lat, lon);
      SameEndSameStart(at, bt, end);
    }
  }

  lemma SameEndSameStart(a: seq<Spot>, b: seq<Spot>, end: seq<Spot>)
    requires a + end == b + end
    ensures a == b
  {
    assert |a + end| == |b + end|;
    assert a == (a + end)[..|a|] && b == (b + end)[..|b|];
  }

  /** At every pair of coordinates there are the same spots in the same order. */
  ghost predicate SameSpots(a: seq<Spot>, b: seq<Spot>) {
    forall lat, lon :: SpotsAt(a, lat, lon) == SpotsAt(b, lat, lon)
  }

  lemma SortKeepsSpots(spots: seq<Spot>)
    ensures SameSpots(SortSpots(spots), spots)
  {
    forall lat, lon ensures SpotsAt(SortSpots(spots), lat, lon) == SpotsAt(spots, lat, lon) {
      SortIsStable(spots, lat, lon);
    }
  }

  lemma SameSpotsSortAlike(a: seq<Spot>, b: seq<Spot>)
    requires SameSpots(a, b)
    ensures SortSpots(a) == SortSpots(b)
  {
    SortOrders(a);
    SortOrders(b);
    SortKeepsSpots(a);
    SortKeepsSpots(b);
    SortedByCoordinates(SortSpots(a), SortSpots(b));
  }

  /** Two requests share the sorted key if and only if, at every pair of coordinates, they have the same places in the same order. */
  lemma SortedKeyIff(a: seq<Spot>, b: seq<Spot>)
    ensures SortSpots(a) == SortSpots(b) <==> SameSpots(a, b)
  {
    SortKeepsSpots(a);
    SortKeepsSpots(b);
    if SameSpots(a, b) {
      SameSpotsSortAlike(a, b);
    }
  }

  lemma {:induction false} OneSpotOrder(a: seq<Spot>, b: seq<Spot>)
    requires InSpotOrder(a) && InSpotOrder(b) && Apart(a) && multiset(a) == multiset(b)
    ensures a == b
    decreases |a|
  {
    assert |a| == |multiset(a)| == |multiset(b)| == |b|;
    if a != [] {
      var last := |a| - 1;
      assert a[last] in multiset(b) && b[last] in multiset(a);
      var i := IndexOf(b, a[last]);
      var j := IndexOf(a, b[last]);
      assert a[last] == b[last];
      SameWithoutLast(a, b, last);
      OneSpotOrder(a[..last], b[..last]);
    }
  }

  lemma ApartIsKept(a: seq<Spot>, b: seq<Spot>)
    requires Apart(a) && multiset(a) == multiset(b)
    ensures Apart(b)
  {
    var p := Rearrangement(a, b);
  }

  /** Requests for the same places in different orders share the sorted key, if no two places share coordinates. */
  lemma ReorderingsShareKey(a: seq<Place>, b: seq<Place>)
    requires Apart(Spots(a)) && multiset(Spots(a)) == multiset(Spots(b))
    ensures SortSpots(Spots(a)) == SortSpots(Spots(b))
  {
    SortOrders(Spots(a));
    SortOrders(Spots(b));
    ApartIsKept(Spots(a), SortSpots(Spots(a)));
    OneSpotOrder(SortSpots(Spots(a)), SortSpots(Spots(b)));
  }

  lemma SameKeySameSize(a: seq<Place>, b: seq<Place>)
    requires SortSpots(Spots(a)) == SortSpots(Spots(b))
    ensures |a| == |b| && multiset(Spots(a)) == multiset(Spots(b))
  {
    assert |multiset(Spots(a))| == |multiset(SortSpots(Spots(b)))| == |multiset(Spots(b))|;
  }

  /** A lopsided distance: 1 from one spot to any other place, and 0 otherwise. */
  function From(spot: Spot): Distance {
    (a, b) => if SpotOf(a) == spot then 1.0 else 0.0
  }

  /** For one-way distances, the matrix saved for one order serves another order of two or more places only if they are the same order. */
  lemma OneOrderOnly(a: seq<Place>, b: seq<Place>)
    requires SortSpots(Spots(a)) == SortSpots(Spots(b)) && |a| >= 2
    ensures (forall d: Distance | BySpot(d) :: Direct(a, d) == Direct(b, d)) <==> Spots(a) == Spots(b)
  {
    SameKeySameSize(a, b);
    if Spots(a) == Spots(b) {
      forall d: Distance | BySpot(d) ensures Direct(a, d) == Direct(b, d) {
        SameSpotsSameMatrix(a, b, d);
      }
    } else {
      var i :| 0 <= i < |a| && Spots(a)[i] != Spots(b)[i];
      FromTellsApart(a, b, i);
    }
  }

  lemma FromTellsApart(a: seq<Place>, b: seq<Place>, i: nat)
    requires i < |a| == |b| && |a| >= 2 && Spots(a)[i] != Spots(b)[i]
    ensures BySpot(From(Spots(a)[i])) && Direct(a, From(Spots(a)[i])) != Direct(b, From(Spots(a)[i]))
  {
    var d, j := From(Spots(a)[i]), if i == 0 then 1 else 0;
    assert Direct(a, d)[i][j] == 1.0 && Direct(b, d)[i][j] == 0.0;
  }

  // ---------- Metrics ----------

  /** What geodesic distances are: symmetric, zero on a spot, and subject to the triangle inequality. */
  ghost predicate Metric(d: Distance) {
    && BySpot(d) && TwoWay(d)
    && (forall a, b {:trigger d(a, b)} :: d(a, b) >= 0.0 && (SpotOf(a) == SpotOf(b) ==> d(a, b) == 0.0))
    && forall a, b, c {:trigger d(a, b), d(b, c)} :: d(a, c) <= d(a, b) + d(b, c)
  }

  ghost predicate TwoWay(d: Distance) {
    forall a, b {:trigger d(a, b)} :: d(a, b) == d(b, a)
  }

  /** Two spots are 1 apart, all others 2. */
  function Tagged(p: Spot, q: Spot): Distance {
    (a, b) => if SpotOf(a) == SpotOf(b) then 0.0
      else if (SpotOf(a) == p && SpotOf(b) == q) || (SpotOf(a) == q && SpotOf(b) == p) then 1.0 else 2.0
  }

  lemma TaggedIsMetric(p: Spot, q: Spot)
    ensures Metric(Tagged(p, q))
  {
  }

  predicate SamePair(s: seq<Spot>, t: seq<Spot>, i: nat, j: nat)
    requires i < |s| == |t| && j < |s|
  {
    (s[i] == t[i] && s[j] == t[j]) || (s[i] == t[j] && s[j] == t[i])
  }

  /** Two orders of three or more distinct spots differ in the pair at some two positions. */
  lemma DifferentPair(s: seq<Spot>, t: seq<Spot>) returns (i: nat, j: nat)
    requires |s| == |t| >= 3 && s != t && Distinct(s)
    ensures i < |s| && j < |s| && i != j && !SamePair(s, t, i, j)
  {
    i :| 0 <= i < |s| && s[i] != t[i];
    j := if i == 0 then 1 else 0;
    if SamePair(s, t, i, j) {
      var k := if i <= 1 && j <= 1 then 2 else if i == 2 || j == 2 then 1 else 2;
      assert k != i && k != j;
      if SamePair(s, t, i, k) {
        assert false;
      }
      j := k;
    }
  }

  lemma {:induction false} DistinctIsKept(s: seq<Spot>, t: seq<Spot>)
    requires Distinct(s) && multiset(s) == multiset(t)
    ensures Distinct(t)
  {
    var p := Rearrangement(s, t);
  }

  lemma TaggedTellsApart(a: seq<Place>, b: seq<Place>, i: nat, j: nat)
    requires i < |a| == |b| && j < |a| && i != j && Distinct(Spots(a)) && Distinct(Spots(b))
    requires !SamePair(Spots(a), Spots(b), i, j)
    ensures Direct(a, Tagged(Spots(a)[i], Spots(a)[j])) != Direct(b, Tagged(Spots(a)[i], Spots(a)[j]))
  {
    var d := Tagged(Spots(a)[i], Spots(a)[j]);
    assert Direct(a, d)[i][j] == 1.0 && Direct(b, d)[i][j] == 2.0;
  }

  lemma SamePairSameDistance(d: Distance, x: Place, y: Place, u: Place, v: Place)
    requires BySpot(d) && TwoWay(d)
    requires (SpotOf(x) == SpotOf(u) && SpotOf(y) == SpotOf(v)) || (SpotOf(x) == SpotOf(v) && SpotOf(y) == SpotOf(u))
    ensures d(x, y) == d(u, v)
  {
    assert d(u, v) == d(v, u);
  }

  lemma OnePairOnly(s: seq<Spot>, t: seq<Spot>, i: nat, j: nat)
    requires |s| == |t| <= 2 && multiset(s) == multiset(t) && i < |s| && j < |s| && i != j
    ensures SamePair(s, t, i, j)
  {
    var p := Rearrangement(s, t);
  }

  lemma PairsSwap(a: seq<Place>, b: seq<Place>, d: Distance)
    requires |a| == |b| <= 2 && multiset(Spots(a)) == multiset(Spots(b)) && BySpot(d) && TwoWay(d)
    ensures Direct(a, d) == Direct(b, d)
  {
    forall i, j | 0 <= i < |a| && 0 <= j < |a| ensures Direct(a, d)[i][j] == Direct(b, d)[i][j] {
      if i != j {
        OnePairOnly(Spots(a), Spots(b), i, j);
        SamePairSameDistance(d, a[i], a[j], b[i], b[j]);
      }
    }
    assert forall i | 0 <= i < |a| :: Direct(a, d)[i] == Direct(b, d)[i];
  }

  /**
    For metrics such as geodesic distance, the matrix saved for one order of different spots serves another
    order if and only if there are at most two of them or the orders are the same.
   */
  lemma OneOrderOnlyForMetrics(a: seq<Place>, b: seq<Place>)
    requires SortSpots(Spots(a)) == SortSpots(Spots(b)) && Distinct(Spots(a))
    ensures (forall d: Distance | Metric(d) :: Direct(a, d) == Direct(b, d)) <==> |a| <= 2 || Spots(a) == Spots(b)
  {
    SameKeySameSize(a, b);
    DistinctIsKept(Spots(a), Spots(b));
    if |a| <= 2 || Spots(a) == Spots(b) {
      forall d: Distance | Metric(d) ensures Direct(a, d) == Direct(b, d) {
        if |a| <= 2 {
          PairsSwap(a, b, d);
        } else {
          SameSpotsSameMatrix(a, b, d);
        }
      }
    } else {
      var i, j := DifferentPair(Spots(a), Spots(b));
      TaggedIsMetric(Spots(a)[i], Spots(a)[j]);
      TaggedTellsApart(a, b, i, j);
    }
  }

  // ---------- What computations give ----------

  ghost predicate NoneFails(fails: Pair -> bool) {
    forall pair :: !fails(pair)
  }

  /** The matrices computed with the given services; tasks of the parallel fill may be allowed to fail. */
  ghost function By(services: Services, mayFail: bool): Compute {
    (request: Request, matrix, source) =>
      source == services.SourceFor(request)
      && exists fails :: (mayFail || NoneFails(fails)) && matrix == Computed(services, request, fails)
  }

  const NEVER: Pair -> bool := pair => false

  const ALWAYS: Pair -> bool := pair => true

  lemma GivesComputed(services: Services, mayFail: bool, request: Request, fails: Pair -> bool)
    requires mayFail || NoneFails(fails)
    ensures By(services, mayFail)(request, Computed(services, request, fails), services.SourceFor(request))
    ensures Gives(By(services, mayFail), request, Computed(services, request, fails))
  {
  }

  lemma GeodesicGives(services: Services, mayFail: bool, places: seq<Place>, matrix: Matrix)
    ensures Gives(By(services, mayFail), Request(places, PreferGeodesic), matrix)
      <==> matrix == Direct(places, services.geodesic)
  {
    GivesComputed(services, mayFail, Request(places, PreferGeodesic), NEVER);
  }

  // ---------- The preference ----------

  /** Both sources agree, so that the preference does not matter, and neither does the parallel fill. */
  ghost predicate SourcesAgree(services: Services, mayFail: bool) {
    services.hasOsrm ==>
      && (forall a, b :: services.Road()(a, b) == services.geodesic(a, b))
      && (services.parallel ==> TwoWay(services.geodesic) && (mayFail ==> AllZero(services.geodesic)))
  }

  ghost predicate AllZero(d: Distance) {
    forall a, b :: d(a, b) == 0.0
  }

  ghost predicate AllEqual(d: Distance) {
    forall a, b, x, y {:trigger d(a, b), d(x, y)} :: d(a, b) == d(x, y)
  }

  /** The distances that a key of the given kind is enough for. */
  ghost predicate KeySuits(rule: KeyRule, d: Distance) {
    if rule == InOrder then BySpot(d) else AllEqual(d)
  }

  /**
    Over all runs, hits are what a fresh computation of the request gives if and only if the two sources agree
    and distances are such that the key is enough for them: for the documented key those that depend on places
    as the key sees them, for the key of the code only those that are all equal.
   */
  lemma ServicesAreFreshIff(config: Config, services: Services, mayFail: bool)
    requires config.maxSize >= 1 && config.ttl >= 0
    ensures HitsAreFresh(config, By(services, mayFail))
      <==> KeySuits(config.rule, services.geodesic) && SourcesAgree(services, mayFail)
  {
    HitsAreFreshIff(config, By(services, mayFail));
    if KeyDecides(config, By(services, mayFail)) {
      GeodesicNeedsKey(config, services, mayFail);
      SourcesMustAgree(config, services, mayFail);
    }
    if KeySuits(config.rule, services.geodesic) && SourcesAgree(services, mayFail) {
      AgreeingIsEnough(config, services, mayFail);
    }
  }

  lemma AgreeingComputation(services: Services, mayFail: bool, request: Request, fails: Pair -> bool)
    requires SourcesAgree(services, mayFail) && (mayFail || NoneFails(fails))
    ensures Computed(services, request, fails) == Direct(request.places, services.geodesic)
  {
    ComputedIsDirectIff(services, request, fails);
    if services.TakesRoads(request) {
      SameDistanceSameMatrix(request.places, services.Road(), services.geodesic);
    }
  }

  lemma SameDistanceSameMatrix(places: seq<Place>, d: Distance, e: Distance)
    requires forall a, b :: d(a, b) == e(a, b)
    ensures Direct(places, d) == Direct(places, e)
  {
    SameCells(Direct(places, d), Direct(places, e));
  }

  lemma AgreeingIsEnough(config: Config, services: Services, mayFail: bool)
    requires KeySuits(config.rule, services.geodesic) && SourcesAgree(services, mayFail)
    ensures KeyDecides(config, By(services, mayFail))
  {
    forall a: Request, b: Request, matrix
      | KeyOf(config.rule, a.places) == KeyOf(config.rule, b.places) && Gives(By(services, mayFail), a, matrix)
      ensures Gives(By(services, mayFail), b, matrix)
    {
      var fails :| (mayFail || NoneFails(fails)) && matrix == Computed(services, a, fails);
      AgreeingComputation(services, mayFail, a, fails);
      AgreeingComputation(services, mayFail, b, NEVER);
      SuitedKey(config.rule, a.places, b.places, services.geodesic);
      GivesComputed(services, mayFail, b, NEVER);
    }
  }

  lemma SuitedKey(rule: KeyRule, a: seq<Place>, b: seq<Place>, d: Distance)
    requires KeySuits(rule, d) && KeyOf(rule, a) == KeyOf(rule, b)
    ensures Direct(a, d) == Direct(b, d)
  {
    if rule == InOrder {
      SameSpotsSameMatrix(a, b, d);
    } else {
      SameKeySameSize(a, b);
      SameCells(Direct(a, d), Direct(b, d));
    }
  }

  lemma SameKeySameGeodesic(config: Config, services: Services, mayFail: bool, a: seq<Place>, b: seq<Place>)
    requires KeyDecides(config, By(services, mayFail)) && KeyOf(config.rule, a) == KeyOf(config.rule, b)
    ensures Direct(a, services.geodesic) == Direct(b, services.geodesic)
  {
    GeodesicGives(services, mayFail, a, Direct(a, services.geodesic));
    GeodesicGives(services, mayFail, b, Direct(a, services.geodesic));
  }

  lemma GeodesicNeedsKey(config: Config, services: Services, mayFail: bool)
    requires KeyDecides(config, By(services, mayFail))
    ensures KeySuits(config.rule, services.geodesic)
  {
    var d := services.geodesic;
    if config.rule == InOrder {
      forall a, b, x, y {:trigger d(a, x), d(b, y)} | SpotOf(a) == SpotOf(b) && SpotOf(x) == SpotOf(y)
        ensures d(a, x) == d(b, y)
      {
        assert Spots([a, x]) == Spots([b, y]);
        SameKeySameGeodesic(config, services, mayFail, [a, x], [b, y]);
        assert Direct([a, x], d)[0][1] == Direct([b, y], d)[0][1];
      }
    } else {
      forall a, b, x, y {:trigger d(a, b), d(x, y)} ensures d(a, b) == d(x, y) {
        SortedKeyLevels(config, services, mayFail, a, b, x, y);
      }
    }
  }

  /** A place north of both. */
  function NorthOf(a: Place, b: Place): (c: Place)
    ensures Before(SpotOf(a), SpotOf(c)) && Before(SpotOf(b), SpotOf(c))
  {
    Place((if a.lat > b.lat then a.lat else b.lat) + 1.0, 0.0, "")
  }

  lemma InsertBelow(s: seq<Spot>, z: Spot, y: Spot)
    requires Before(y, z)
    ensures InsertSpot(s + [z], y) == InsertSpot(s, y) + [z]
  {
    assert (s + [z])[..|s|] == s;
  }

  lemma InsertAbove(s: seq<Spot>, z: Spot)
    requires s == [] || !Before(z, s[|s| - 1])
    ensures InsertSpot(s, z) == s + [z]
  {
  }

  function TwoSorted(x: Spot, y: Spot): (pair: seq<Spot>)
    ensures |pair| == 2
  {
    if Before(y, x) then [y] + [x] else [x] + [y]
  }

  lemma InsertSecond(x: Spot, y: Spot)
    ensures InsertSpot([x], y) == TwoSorted(x, y)
  {
    assert [] + [x] == [x];
    InsertAbove([], y);
    if Before(y, x) {
      InsertBelow([], x, y);
    } else {
      InsertAbove([x], y);
    }
  }

  lemma NorthernmostThird(x: Spot, y: Spot, z: Spot)
    requires Before(x, z) && Before(y, z)
    ensures InsertSpot(InsertSpot([x], y), z) == TwoSorted(x, y) + [z]
  {
    InsertSecond(x, y);
    InsertAbove(TwoSorted(x, y), z);
  }

  lemma NorthernmostSecond(x: Spot, y: Spot, z: Spot)
    requires Before(x, z) && Before(y, z)
    ensures InsertSpot(InsertSpot([x], z), y) == TwoSorted(x, y) + [z]
  {
    InsertSecond(x, z);
    InsertBelow([x], z, y);
    InsertSecond(x, y);
  }

  lemma NorthernmostFirst(x: Spot, y: Spot, z: Spot)
    requires Before(x, z) && Before(y, z)
    ensures InsertSpot(InsertSpot([z], x), y) == TwoSorted(x, y) + [z]
  {
    InsertSecond(z, x);
    InsertBelow([x], z, y);
    InsertSecond(x, y);
  }

  lemma SortAppend(s: seq<Spot>, x: Spot)
    ensures SortSpots(s + [x]) == InsertSpot(SortSpots(s), x)
  {
    assert (s + [x])[..|s|] == s;
  }

  lemma SpotsOfThree(a: Place, b: Place, c: Place)
    ensures Spots([a, b, c]) == [SpotOf(a)] + [SpotOf(b)] + [SpotOf(c)]
  {
  }

  lemma SortTwo(x: Spot, y: Spot)
    ensures SortSpots([x] + [y]) == InsertSpot([x], y)
  {
    assert [] + [x] == [x];
    SortAppend([], x);
    InsertAbove([], x);
    SortAppend([x], y);
  }

  lemma KeyOfThree(a: Place, b: Place, c: Place)
    ensures KeyOf(Sorted, [a, b, c]) == InsertSpot(InsertSpot([SpotOf(a)], SpotOf(b)), SpotOf(c))
  {
    SpotsOfThree(a, b, c);
    SortTwo(SpotOf(a), SpotOf(b));
    SortAppend([SpotOf(a)] + [SpotOf(b)], SpotOf(c));
  }

  /** Wherever the northernmost of three places stands, the sorted key is the same if the other two keep their order. */
  lemma OneNorthernmostKey(a: Place, b: Place, c: Place)
    requires Before(SpotOf(a), SpotOf(c)) && Before(SpotOf(b), SpotOf(c))
    ensures KeyOf(Sorted, [a, b, c]) == KeyOf(Sorted, [a, c, b]) == KeyOf(Sorted, [c, a, b])
  {
    KeyOfThree(a, b, c);
    KeyOfThree(a, c, b);
    KeyOfThree(c, a, b);
    NorthernmostThird(SpotOf(a), SpotOf(b), SpotOf(c));
    NorthernmostSecond(SpotOf(a), SpotOf(b), SpotOf(c));
    NorthernmostFirst(SpotOf(a), SpotOf(b), SpotOf(c));
  }

  lemma SortedKeyLevels(config: Config, services: Services, mayFail: bool, a: Place, b: Place, x: Place, y: Place)
    requires KeyDecides(config, By(services, mayFail)) && config.rule == Sorted
    ensures services.geodesic(a, b) == services.geodesic(x, y)
  {
    var d := services.geodesic;
    var c := NorthOf(NorthOf(a, b), NorthOf(x, y));
    ThreeLevel(config, services, mayFail, a, b, c);
    ThreeLevel(config, services, mayFail, x, y, c);
    ThreeLevel(config, services, mayFail, a, x, c);
  }

  /** Among three places of which one is the northernmost, some distances must be equal. */
  lemma ThreeLevel(config: Config, services: Services, mayFail: bool, a: Place, b: Place, c: Place)
    requires KeyDecides(config, By(services, mayFail)) && config.rule == Sorted
    requires Before(SpotOf(a), SpotOf(c)) && Before(SpotOf(b), SpotOf(c))
    ensures var d := services.geodesic; d(a, b) == d(a, c) == d(c, b) == d(c, a) == d(b, c)
  {
    OneNorthernmostKey(a, b, c);
    SameKeySameGeodesic(config, services, mayFail, [a, b, c], [a, c, b]);
    SameKeySameGeodesic(config, services, mayFail, [a, b, c], [c, a, b]);
    FirstRows(a, b, c, services.geodesic);
    FirstRows(a, c, b, services.geodesic);
    FirstRows(c, a, b, services.geodesic);
  }

  lemma FirstRows(a: Place, b: Place, c: Place, d: Distance)
    ensures Direct([a, b, c], d)[0][1] == d(a, b) && Direct([a, b, c], d)[1][2] == d(b, c)
  {
  }

  lemma SourcesMustAgree(config: Config, services: Services, mayFail: bool)
    requires KeyDecides(config, By(services, mayFail))
    ensures SourcesAgree(services, mayFail)
  {
    if services.hasOsrm {
      forall a, b ensures services.Road()(a, b) == services.geodesic(a, b) {
        RoadMustAgree(config, services, mayFail, [a, b], NEVER);
        assert Direct([a, b], services.Road())[0][1] == Direct([a, b], services.geodesic)[0][1];
      }
      if services.parallel {
        forall a, b ensures services.geodesic(a, b) == services.geodesic(b, a) {
          FillMustAgree(config, services, mayFail, a, b, NEVER);
        }
        if mayFail {
          forall a, b ensures services.geodesic(a, b) == 0.0 {
            FillMustAgree(config, services, mayFail, a, b, ALWAYS);
          }
        }
      }
    }
  }

  lemma RoadMustAgree(config: Config, services: Services, mayFail: bool, places: seq<Place>, fails: Pair -> bool)
    requires KeyDecides(config, By(services, mayFail)) && services.hasOsrm && (mayFail || NoneFails(fails))
    ensures Computed(services, Request(places, PreferOsrm), fails) == Direct(places, services.geodesic)
  {
    var request := Request(places, PreferOsrm);
    GivesComputed(services, mayFail, request, fails);
    assert Gives(By(services, mayFail), Request(places, PreferGeodesic), Computed(services, request, fails));
    GeodesicGives(services, mayFail, places, Computed(services, request, fails));
  }

  /** Enough places for the parallel fill, beginning with the two given ones. */
  function Eleven(a: Place, b: Place): (places: seq<Place>)
    ensures |places| == 11 && places[0] == a && places[1] == b
  {
    [a, b, b, b, b, b, b, b, b, b, b]
  }

  lemma FillMustAgree(config: Config, services: Services, mayFail: bool, a: Place, b: Place, fails: Pair -> bool)
    requires KeyDecides(config, By(services, mayFail)) && services.hasOsrm && services.parallel
    requires mayFail || NoneFails(fails)
    requires forall a, b :: services.Road()(a, b) == services.geodesic(a, b)
    ensures services.geodesic(a, b) == services.geodesic(b, a)
    ensures fails(Pair(0, 1)) ==> services.geodesic(a, b) == 0.0
  {
    var places := Eleven(a, b);
    var request := Request(places, PreferOsrm);
    RoadMustAgree(config, services, mayFail, places, fails);
    SameDistanceSameMatrix(places, services.Road(), services.geodesic);
    ComputedIsDirectIff(services, request, fails);
    assert services.InParallel(request) && Harmless(places, services.Road(), fails);
    assert services.Road()(places[0], places[1]) == services.Road()(places[1], places[0]);
  }

  /**
    A request for geodesic distances is answered with road distances that a request for the same places left
    behind, whichever of the two keys is used, wherever the two differ.
   */
  lemma PreferenceIsForgotten(config: Config, services: Services, mayFail: bool, places: seq<Place>)
    requires config.maxSize >= 1 && config.ttl >= 0 && services.hasOsrm
    requires Computed(services, Request(places, PreferOsrm), NEVER) != Direct(places, services.geodesic)
    ensures
      var roads := Computed(services, Request(places, PreferOsrm), NEVER);
      var actions := [Save(Request(places, PreferOsrm), roads, Osrm, 0)];
      var s := AfterOneSave(config, Request(places, PreferOsrm), roads, Osrm);
      && Honest(By(services, mayFail), actions) && Reaches(config, actions, s)
      && Found(config, s, places, 0) == Some(Entry(roads, Osrm, 0))
      && !HitIsFresh(config, By(services, mayFail), s, Request(places, PreferGeodesic), 0)
  {
    var request := Request(places, PreferOsrm);
    var roads := Computed(services, request, NEVER);
    GivesComputed(services, mayFail, request, NEVER);
    OneSave(config, request, roads, Osrm);
    GeodesicGives(services, mayFail, places, roads);
  }

  /** For example where roads are twice as long as the straight line. */
  lemma TwoKilometresForOne(config: Config, mayFail: bool)
    requires config.maxSize >= 1 && config.ttl >= 0
    ensures !HitsAreFresh(config, By(TwoForOne(), mayFail))
  {
    ServicesAreFreshIff(config, TwoForOne(), mayFail);
    var x := Place(0.0, 0.0, "");
    assert TwoForOne().Road()(x, x) == 2.0 && TwoForOne().geodesic(x, x) == 1.0;
  }

  // ---------- Rearrangements ----------

  /** The positions where a matrix holds a value. */
  function Cells(m: Matrix, v: real): set<(int, int)> {
    set i, j | 0 <= i < |m| && 0 <= j < |m[i]| && m[i][j] == v :: (i, j)
  }

  function Moved(cells: set<(int, int)>, p: seq<int>): set<(int, int)>
    requires forall c | c in cells :: 0 <= c.0 < |p| && 0 <= c.1 < |p|
  {
    set c | c in cells :: (p[c.0], p[c.1])
  }

  lemma {:induction false} MovedKeepsSize(cells: set<(int, int)>, p: seq<int>)
    requires Distinct(p) && forall c | c in cells :: 0 <= c.0 < |p| && 0 <= c.1 < |p|
    ensures |Moved(cells, p)| == |cells|
  {
    if cells != {} {
      var c :| c in cells;
      MovedKeepsSize(cells - {c}, p);
      MovedSplits(cells, c, p);
    }
  }

  lemma MovedSplits(cells: set<(int, int)>, c: (int, int), p: seq<int>)
    requires Distinct(p) && c in cells && forall c | c in cells :: 0 <= c.0 < |p| && 0 <= c.1 < |p|
    ensures |Moved(cells, p)| == |Moved(cells - {c}, p)| + 1
  {
    var rest, moved := Moved(cells - {c}, p), (p[c.0], p[c.1]);
    forall e | e in cells - {c} ensures (p[e.0], p[e.1]) != moved {
      assert e.0 != c.0 || e.1 != c.1;
    }
    assert Moved(cells, p) == rest + {moved} && moved !in rest;
  }

  /** A rearranged matrix holds every value as often. */
  lemma PermutedKeepsCounts(m: Matrix, n: Matrix, p: seq<int>, v: real)
    requires Permuted(m, n, p)
    ensures |Cells(m, v)| == |Cells(n, v)|
  {
    forall c | c in Cells(n, v) ensures c in Moved(Cells(m, v), p) {
      var i := PositionOf(p, |n|, c.0);
      var j := PositionOf(p, |n|, c.1);
      assert (i, j) in Cells(m, v);
    }
    assert Moved(Cells(m, v), p) == Cells(n, v);
    MovedKeepsSize(Cells(m, v), p);
  }

  ghost predicate Rearranges(m: Matrix, n: Matrix) {
    exists p :: Permuted(m, n, p)
  }

  lemma PermutedSymmetry(m: Matrix, n: Matrix, p: seq<int>)
    requires Permuted(m, n, p) && forall i, j | 0 <= i < |m| && 0 <= j < |m| :: m[i][j] == m[j][i]
    ensures forall k, l | 0 <= k < |n| && 0 <= l < |n| :: n[k][l] == n[l][k]
  {
    forall k, l | 0 <= k < |n| && 0 <= l < |n| ensures n[k][l] == n[l][k] {
      var i := PositionOf(p, |n|, k);
      var j := PositionOf(p, |n|, l);
      assert m[i][j] == m[j][i];
    }
  }

  /**
    The parallel matrix of a request is, up to any rearrangement at all, the direct matrix of a request with
    the same sorted key if and only if the roads between its places are symmetric and the failures harmless.
   */
  lemma FillPermutesIff(a: seq<Place>, b: seq<Place>, d: Distance, fails: Pair -> bool)
    requires KeyOf(Sorted, a) == KeyOf(Sorted, b) && BySpot(d)
    ensures Rearranges(Fill(a, d, fails), Direct(b, d)) <==> Harmless(a, d, fails)
  {
    var q := SameKeySamePlaces(a, b, d);
    if Harmless(a, d, fails) {
      FillIsDirectIff(a, d, fails);
      assert Permuted(Fill(a, d, fails), Direct(b, d), q);
    }
    if Rearranges(Fill(a, d, fails), Direct(b, d)) {
      var p :| Permuted(Fill(a, d, fails), Direct(b, d), p);
      PermutedIsHarmless(a, b, d, fails, p, q);
    }
  }

  lemma PermutedIsHarmless(a: seq<Place>, b: seq<Place>, d: Distance, fails: Pair -> bool, p: seq<int>, q: seq<int>)
    requires Permuted(Fill(a, d, fails), Direct(b, d), p) && Permuted(Direct(a, d), Direct(b, d), q)
    ensures Harmless(a, d, fails)
  {
    var m, n := Fill(a, d, fails), Direct(a, d);
    PermutedSymmetry(m, Direct(b, d), p);
    forall i, j | 0 <= i < j < |a| ensures d(a[i], a[j]) == d(a[j], a[i]) {
      assert n[i][j] == Direct(b, d)[q[i]][q[j]] == Direct(b, d)[q[j]][q[i]] == n[j][i];
    }
    PermutedKeepsCounts(m, Direct(b, d), p, 0.0);
    PermutedKeepsCounts(n, Direct(b, d), q, 0.0);
    ZerosAreKept(a, d, fails);
    SameCardinality(Cells(n, 0.0), Cells(m, 0.0));
    forall i, j | 0 <= i < j < |a| && fails(Pair(i, j)) ensures d(a[i], a[j]) == 0.0 {
      assert (i, j) in Cells(m, 0.0);
      assert (i, j) in Cells(n, 0.0);
    }
  }

  lemma ZerosAreKept(places: seq<Place>, d: Distance, fails: Pair -> bool)
    requires SymmetricOn(places, d)
    ensures Cells(Direct(places, d), 0.0) <= Cells(Fill(places, d, fails), 0.0)
  {
  }

  /**
    Hit by hit, under the sorted key: it is the matrix of some earlier request for the same places, and it is a
    rearrangement of the direct matrix its own source has for this request's places if and only if it was not
    filled in parallel, or the roads are symmetric and its failures harmless.  Whether that source is the one
    this request would choose is another matter: see HitsPermuteIff.
   */
  lemma SortedKeyPermutesIff(config: Config, services: Services, mayFail: bool, actions: seq<Action>, s: State,
      request: Request, now: int) returns (saved: Request, fails: Pair -> bool)
    requires config.rule == Sorted && config.maxSize >= 1 && BySpot(services.Road()) && BySpot(services.geodesic)
    requires Reaches(config, actions, s) && Honest(By(services, mayFail), actions)
    requires Found(config, s, request.places, now).Some?
    ensures var hit := Found(config, s, request.places, now).value;
      && SaveOf(saved, hit) in actions && KeyOf(Sorted, saved.places) == KeyOf(Sorted, request.places)
      && hit.matrix == Computed(services, saved, fails) && (mayFail || NoneFails(fails))
      && (Rearranges(hit.matrix, Direct(request.places, services.By(hit.source)))
        <==> (services.InParallel(saved) ==> Harmless(saved.places, services.Road(), fails)))
  {
    var hit := Found(config, s, request.places, now).value;
    saved, fails := HitIsComputed(config, services, mayFail, actions, s, request, now);
    ComputedPermutesIff(services, saved, fails, request.places);
  }

  lemma HitIsComputed(config: Config, services: Services, mayFail: bool, actions: seq<Action>, s: State,
      request: Request, now: int) returns (saved: Request, fails: Pair -> bool)
    requires Reaches(config, actions, s) && Honest(By(services, mayFail), actions) && config.maxSize >= 1
    requires Found(config, s, request.places, now).Some?
    ensures var hit := Found(config, s, request.places, now).value;
      && SaveOf(saved, hit) in actions && KeyOf(config.rule, saved.places) == KeyOf(config.rule, request.places)
      && hit.matrix == Computed(services, saved, fails) && hit.source == services.SourceFor(saved)
      && (mayFail || NoneFails(fails))
  {
    var hit := Found(config, s, request.places, now).value;
    saved := HitStems(config, By(services, mayFail), actions, s, request, now);
    fails :| (mayFail || NoneFails(fails)) && hit.matrix == Computed(services, saved, fails);
  }

  lemma ComputedPermutesIff(services: Services, saved: Request, fails: Pair -> bool, places: seq<Place>)
    requires KeyOf(Sorted, saved.places) == KeyOf(Sorted, places)
    requires BySpot(services.Road()) && BySpot(services.geodesic)
    ensures Rearranges(Computed(services, saved, fails), Direct(places, services.By(services.SourceFor(saved))))
      <==> (services.InParallel(saved) ==> Harmless(saved.places, services.Road(), fails))
  {
    if services.InParallel(saved) {
      FillPermutesIff(saved.places, places, services.Road(), fails);
    } else {
      var p := SameKeySamePlaces(saved.places, places, services.By(services.SourceFor(saved)));
    }
  }

  // ---------- Hits up to a rearrangement ----------

  /** A hit is, up to a rearrangement, a matrix that computing this very request, with its own preference, might give. */
  ghost predicate HitPermutes(config: Config, compute: Compute, s: State, request: Request, now: int) {
    var hit := Found(config, s, request.places, now);
    hit.Some? ==> exists matrix :: Gives(compute, request, matrix) && Rearranges(hit.value.matrix, matrix)
  }

  ghost predicate HitsPermute(config: Config, compute: Compute) {
    forall actions, s, request, now | Reaches(config, actions, s) && Honest(compute, actions) ::
      HitPermutes(config, compute, s, request, now)
  }

  /**
    Over all runs, hits are rearrangements of what a fresh computation of the request gives if and only if
    distances depend on places as the key sees them and the two sources agree.  For the documented key that is
    when hits are fresh outright: forgetting the order costs a rearrangement and nothing else.
   */
  lemma HitsPermuteIff(config: Config, services: Services, mayFail: bool)
    requires config.maxSize >= 1 && config.ttl >= 0
    ensures HitsPermute(config, By(services, mayFail)) <==> BySpot(services.geodesic) && SourcesAgree(services, mayFail)
    ensures HitsPermute(config, By(services, mayFail)) <==> HitsAreFresh(config.(rule := InOrder), By(services, mayFail))
  {
    ServicesAreFreshIff(config.(rule := InOrder), services, mayFail);
    if BySpot(services.geodesic) && SourcesAgree(services, mayFail) {
      forall actions, s, request, now | Reaches(config, actions, s) && Honest(By(services, mayFail), actions)
        ensures HitPermutes(config, By(services, mayFail), s, request, now)
      {
        AgreeingHitPermutes(config, services, mayFail, actions, s, request, now);
      }
    }
    if HitsPermute(config, By(services, mayFail)) {
      PermutedGeodesic(config, services, mayFail);
      PermutedSources(config, services, mayFail);
    }
  }

  lemma SameKeyRearranges(rule: KeyRule, a: seq<Place>, b: seq<Place>, d: Distance)
    requires KeyOf(rule, a) == KeyOf(rule, b) && BySpot(d)
    ensures Rearranges(Direct(a, d), Direct(b, d))
  {
    var p := SameKeySamePlaces(a, b, d);
  }

  lemma AgreeingHitPermutes(config: Config, services: Services, mayFail: bool, actions: seq<Action>, s: State, request: Request, now: int)
    requires BySpot(services.geodesic) && SourcesAgree(services, mayFail) && config.maxSize >= 1
    requires Reaches(config, actions, s) && Honest(By(services, mayFail), actions)
    ensures HitPermutes(config, By(services, mayFail), s, request, now)
  {
    if Found(config, s, request.places, now).Some? {
      var saved, fails := HitIsComputed(config, services, mayFail, actions, s, request, now);
      AgreeingComputation(services, mayFail, saved, fails);
      AgreeingComputation(services, mayFail, request, NEVER);
      GivesComputed(services, mayFail, request, NEVER);
      SameKeyRearranges(config.rule, saved.places, request.places, services.geodesic);
    }
  }

  lemma PermutesAfter(config: Config, compute: Compute, saved: Request, matrix: Matrix, source: Source, request: Request)
    requires HitsPermute(config, compute) && compute(saved, matrix, source)
    requires var s := AfterOneSave(config, saved, matrix, source);
      Reaches(config, [Save(saved, matrix, source, 0)], s) && Found(config, s, request.places, 0) == Some(Entry(matrix, source, 0))
    ensures exists m :: Gives(compute, request, m) && Rearranges(matrix, m)
  {
    assert HitPermutes(config, compute, AfterOneSave(config, saved, matrix, source), request, 0);
  }

  /** What one request computes is a rearrangement of what a geodesic request with the same key computes. */
  lemma SavedPermutes(config: Config, services: Services, mayFail: bool, saved: Request, fails: Pair -> bool, places: seq<Place>)
    requires HitsPermute(config, By(services, mayFail)) && config.maxSize >= 1 && config.ttl >= 0
    requires KeyOf(config.rule, saved.places) == KeyOf(config.rule, places) && (mayFail || NoneFails(fails))
    ensures Rearranges(Computed(services, saved, fails), Direct(places, services.geodesic))
  {
    var matrix, source := Computed(services, saved, fails), services.SourceFor(saved);
    GivesComputed(services, mayFail, saved, fails);
    OneSave(config, saved, matrix, source);
    OneSaveIsFound(config, saved, matrix, source, places);
    PermutesAfter(config, By(services, mayFail), saved, matrix, source, Request(places, PreferGeodesic));
    var m :| Gives(By(services, mayFail), Request(places, PreferGeodesic), m) && Rearranges(matrix, m);
    GeodesicGives(services, mayFail, places, m);
  }

  /** One place and twice another: however its matrix is rearranged, the distance between the two shows. */
  lemma PairShows(a: Place, x: Place, d: Distance, b: Place, y: Place, e: Distance)
    requires Rearranges(Direct([a, x, x], d), Direct([b, y, y], e))
    ensures d(a, x) == e(b, y)
  {
    var m, n := Direct([a, x, x], d), Direct([b, y, y], e);
    var p :| Permuted(m, n, p);
    assert m[0][1] == d(a, x) == m[0][2] && m[1][0] == m[2][0];
    assert n[0][1] == n[0][2] == e(b, y) && n[1][2] == n[2][1] == e(y, y);
    assert m[0][1] == n[p[0]][p[1]] && m[0][2] == n[p[0]][p[2]];
    assert m[1][0] == n[p[1]][p[0]] && m[2][0] == n[p[2]][p[0]];
  }

  lemma PermutedGeodesic(config: Config, services: Services, mayFail: bool)
    requires HitsPermute(config, By(services, mayFail)) && config.maxSize >= 1 && config.ttl >= 0
    ensures BySpot(services.geodesic)
  {
    var d := services.geodesic;
    forall a, b, x, y {:trigger d(a, x), d(b, y)} | SpotOf(a) == SpotOf(b) && SpotOf(x) == SpotOf(y)
      ensures d(a, x) == d(b, y)
    {
      assert Spots([a, x, x]) == Spots([b, y, y]);
      SavedPermutes(config, services, mayFail, Request([a, x, x], PreferGeodesic), NEVER, [b, y, y]);
      PairShows(a, x, d, b, y, d);
    }
  }

  lemma PermutedSources(config: Config, services: Services, mayFail: bool)
    requires HitsPermute(config, By(services, mayFail)) && config.maxSize >= 1 && config.ttl >= 0
    requires BySpot(services.geodesic)
    ensures SourcesAgree(services, mayFail)
  {
    if services.hasOsrm {
      forall a, b ensures services.Road()(a, b) == services.geodesic(a, b) {
        SavedPermutes(config, services, mayFail, Request([a, b, b], PreferOsrm), NEVER, [a, b, b]);
        PairShows(a, b, services.Road(), a, b, services.geodesic);
      }
      if services.parallel {
        forall a, b ensures services.geodesic(a, b) == services.geodesic(b, a) {
          PermutedFill(config, services, mayFail, a, b, NEVER);
        }
        if mayFail {
          forall a, b ensures services.geodesic(a, b) == 0.0 {
            PermutedFill(config, services, mayFail, a, b, ALWAYS);
          }
        }
      }
    }
  }

  lemma PermutedFill(config: Config, services: Services, mayFail: bool, a: Place, b: Place, fails: Pair -> bool)
    requires HitsPermute(config, By(services, mayFail)) && config.maxSize >= 1 && config.ttl >= 0
    requires services.hasOsrm && services.parallel && (mayFail || NoneFails(fails)) && BySpot(services.geodesic)
    requires forall a, b :: services.Road()(a, b) == services.geodesic(a, b)
    ensures services.geodesic(a, b) == services.geodesic(b, a)
    ensures fails(Pair(0, 1)) ==> services.geodesic(a, b) == 0.0
  {
    var places, d := Eleven(a, b), services.Road();
    SavedPermutes(config, services, mayFail, Request(places, PreferOsrm), fails, places);
    SameDistanceSameMatrix(places, d, services.geodesic);
    FillPermutesIff(places, places, d, fails);
    assert d(places[0], places[1]) == d(places[1], places[0]);
  }

  /** Roads of 2 km between places that are 1 km apart. */
  function TwoForOne(): Services {
    Services((a, b) => Some(2.0), (a, b) => 1.0, true, true)
  }

  /**
    The input on which the sorted key fails even up to a rearrangement, with two places and no parallel fill: a
    request for geodesic distances finds the roads' matrix, which is no rearrangement of its own.
   */
  lemma WrongSourceNoRearrangement(config: Config, mayFail: bool, x: Place, y: Place)
    requires config.maxSize >= 1 && config.ttl >= 0
    ensures
      var saved, matrix := Request([x, y], PreferOsrm), Direct([x, y], TwoForOne().Road());
      var s := AfterOneSave(config, saved, matrix, Osrm);
      && !TwoForOne().InParallel(saved)
      && Honest(By(TwoForOne(), mayFail), [Save(saved, matrix, Osrm, 0)]) && Reaches(config, [Save(saved, matrix, Osrm, 0)], s)
      && Found(config, s, [x, y], 0) == Some(Entry(matrix, Osrm, 0))
      && !HitPermutes(config, By(TwoForOne(), mayFail), s, Request([x, y], PreferGeodesic), 0)
  {
    var saved, matrix := Request([x, y], PreferOsrm), Direct([x, y], TwoForOne().Road());
    GivesComputed(TwoForOne(), mayFail, saved, NEVER);
    OneSave(config, saved, matrix, Osrm);
    forall m | Gives(By(TwoForOne(), mayFail), Request([x, y], PreferGeodesic), m) ensures !Rearranges(matrix, m) {
      GeodesicGives(TwoForOne(), mayFail, [x, y], m);
      NoOnesAmongTwos(x, y);
    }
  }

  lemma NoOnesAmongTwos(x: Place, y: Place)
    ensures !Rearranges(Direct([x, y], TwoForOne().Road()), Direct([x, y], TwoForOne().geodesic))
  {
    var m, n := Direct([x, y], TwoForOne().Road()), Direct([x, y], TwoForOne().geodesic);
    assert m[0][1] == 2.0 && (0, 1) in Cells(m, 2.0);
    assert Cells(n, 2.0) == {};
    forall p ensures !Permuted(m, n, p) {
      if Permuted(m, n, p) {
        PermutedKeepsCounts(m, n, p, 2.0);
      }
    }
  }

  // ---------- Parallel matrices of different orders ----------

  ghost predicate Reordered(a: seq<Place>, b: seq<Place>) {
    multiset(a) == multiset(b)
  }

  /** The parallel matrices of every order of the same places are rearrangements of the one of this order. */
  ghost predicate OrdersAgree(places: seq<Place>, d: Distance) {
    forall other | Reordered(places, other) :: FillsAgree(places, other, d)
  }

  ghost predicate FillsAgree(a: seq<Place>, b: seq<Place>, d: Distance) {
    Rearranges(Fill(a, d, NEVER), Fill(b, d, NEVER))
  }

  /** Even if no task fails, the parallel matrices of all orders of some places are rearrangements iff the roads are symmetric. */
  lemma OrdersAgreeIff(places: seq<Place>, d: Distance)
    ensures OrdersAgree(places, d) <==> SymmetricOn(places, d)
  {
    if SymmetricOn(places, d) {
      forall other | Reordered(places, other) ensures FillsAgree(places, other, d) {
        SymmetricFillsAgree(places, other, d);
      }
    }
    if OrdersAgree(places, d) {
      forall i, j | 0 <= i < j < |places| ensures d(places[i], places[j]) == d(places[j], places[i]) {
        SwappedFills(places, d, i, j);
      }
    }
  }

  lemma SymmetricFillsAgree(a: seq<Place>, b: seq<Place>, d: Distance)
    requires Reordered(a, b) && SymmetricOn(a, d)
    ensures FillsAgree(a, b, d)
  {
    var p := Rearrangement(b, a);
    var q := Rearrangement(a, b);
    forall i, j | 0 <= i < j < |b| ensures d(b[i], b[j]) == d(b[j], b[i]) {
      assert q[i] != q[j];
    }
    forall i, j | 0 <= i < |a| && 0 <= j < |a| ensures Fill(a, d, NEVER)[i][j] == Fill(b, d, NEVER)[p[i]][p[j]] {
      assert i != j ==> p[i] != p[j];
    }
    assert Permuted(Fill(a, d, NEVER), Fill(b, d, NEVER), p);
  }

  /** Two of the places moved to the front. */
  function Front(places: seq<Place>, i: nat, j: nat): (moved: seq<Place>)
    requires i < |places| && j < |places| && i != j
    ensures |moved| == |places| && moved[0] == places[i] && moved[1] == places[j]
  {
    var rest := Without(places, i);
    [places[i], places[j]] + Without(rest, if j < i then j else j - 1)
  }

  lemma FrontReorders(places: seq<Place>, i: nat, j: nat)
    requires i < |places| && j < |places| && i != j
    ensures Reordered(places, Front(places, i, j))
  {
    var rest, k := Without(places, i), if j < i then j else j - 1;
    MultisetSplits(places, i);
    MultisetSplits(rest, k);
    assert rest[k] == places[j];
    assert multiset([places[i], places[j]] + Without(rest, k)) == multiset{places[i]} + (multiset{places[j]} + multiset(Without(rest, k)));
  }

  lemma SwappedFills(places: seq<Place>, d: Distance, i: nat, j: nat)
    requires OrdersAgree(places, d) && i < j < |places|
    ensures d(places[i], places[j]) == d(places[j], places[i])
  {
    var there := Front(places, i, j);
    var back := [places[j], places[i]] + there[2..];
    FrontReorders(places, i, j);
    assert there == [places[i], places[j]] + there[2..];
    assert Reordered(places, back);
    var v := d(places[i], places[j]);
    SameCounts(places, there, d, v);
    SameCounts(places, back, d, v);
    if d(places[j], places[i]) != v {
      FewerCells(there, back, d);
    }
  }

  lemma SameCounts(places: seq<Place>, other: seq<Place>, d: Distance, v: real)
    requires OrdersAgree(places, d) && Reordered(places, other)
    ensures |Cells(Fill(other, d, NEVER), v)| == |Cells(Fill(places, d, NEVER), v)|
  {
    assert FillsAgree(places, other, d);
    var p :| Permuted(Fill(places, d, NEVER), Fill(other, d, NEVER), p);
    PermutedKeepsCounts(Fill(places, d, NEVER), Fill(other, d, NEVER), p, v);
  }

  /** Swapping the first two places changes the two cells between them and, elsewhere, only the order. */
  lemma FewerCells(there: seq<Place>, back: seq<Place>, d: Distance)
    requires |there| >= 2 && back == [there[1], there[0]] + there[2..] && d(there[1], there[0]) != d(there[0], there[1])
    ensures |Cells(Fill(back, d, NEVER), d(there[0], there[1]))| < |Cells(Fill(there, d, NEVER), d(there[0], there[1]))|
  {
    var v := d(there[0], there[1]);
    var p := [1, 0] + UpTo(|there|)[2..];
    var before, after := Cells(Fill(there, d, NEVER), v), Cells(Fill(back, d, NEVER), v);
    forall c | c in after ensures (p[c.0], p[c.1]) in before && (p[c.0], p[c.1]) != (0, 1) {
      SwappedCell(there, back, d, p, c.0, c.1);
    }
    MovedKeepsSize(after, p);
    assert (0, 1) in before;
    assert Moved(after, p) <= before - {(0, 1)};
    PartIsSmaller(Moved(after, p), before - {(0, 1)});
  }

  lemma SwappedCell(there: seq<Place>, back: seq<Place>, d: Distance, p: seq<int>, i: nat, j: nat)
    requires |there| >= 2 && back == [there[1], there[0]] + there[2..] && i < |there| && j < |there|
    requires p == [1, 0] + UpTo(|there|)[2..]
    ensures {p[i], p[j]} != {0, 1} ==> Cell(back, d, NEVER, i, j) == Cell(there, d, NEVER, p[i], p[j])
    ensures {p[i], p[j]} == {0, 1} ==> Cell(back, d, NEVER, i, j) == d(there[1], there[0])
  {
    assert back[i] == there[p[i]] && back[j] == there[p[j]];
  }

  /** Roads that take 1 km to a place further north or east, and 2 km back. */
  function Uphill(): Services {
    Services((a, b) => Some(if Before(SpotOf(a), SpotOf(b)) then 1.0 else 2.0), (a, b) => 1.0, true, true)
  }

  lemma UphillRun(config: Config, places: seq<Place>, other: seq<Place>)
    requires config.maxSize >= 1 && config.ttl >= 0 && |places| > 10 && KeyOf(config.rule, places) == KeyOf(config.rule, other)
    ensures
      var request, matrix := Request(places, PreferOsrm), Fill(places, Uphill().Road(), NEVER);
      var s := AfterOneSave(config, request, matrix, Osrm);
      && Honest(By(Uphill(), false), [Save(request, matrix, Osrm, 0)]) && Reaches(config, [Save(request, matrix, Osrm, 0)], s)
      && Found(config, s, other, 0) == Some(Entry(matrix, Osrm, 0))
  {
    var request := Request(places, PreferOsrm);
    GivesComputed(Uphill(), false, request, NEVER);
    OneSave(config, request, Fill(places, Uphill().Road(), NEVER), Osrm);
  }

  /**
    The input on which rearranging does not help: more than ten places with one-way roads.  No other order of
    the request finds a rearrangement of its direct matrix, and the orders' own parallel matrices differ by
    more than a rearrangement.
   */
  lemma OneWayRoads(config: Config, places: seq<Place>, other: seq<Place>)
    requires config.rule == Sorted && config.maxSize >= 1 && config.ttl >= 0 && |places| > 10
    requires Apart(Spots(places)) && multiset(Spots(places)) == multiset(Spots(other))
    ensures
      var request, matrix := Request(places, PreferOsrm), Fill(places, Uphill().Road(), NEVER);
      var s := AfterOneSave(config, request, matrix, Osrm);
      && Honest(By(Uphill(), false), [Save(request, matrix, Osrm, 0)]) && Reaches(config, [Save(request, matrix, Osrm, 0)], s)
      && Found(config, s, other, 0) == Some(Entry(matrix, Osrm, 0))
      && !Rearranges(matrix, Direct(other, Uphill().Road()))
    ensures !OrdersAgree(places, Uphill().Road())
  {
    ReorderingsShareKey(places, other);
    UphillRun(config, places, other);
    UphillIsOneWay(places);
    FillPermutesIff(places, other, Uphill().Road(), NEVER);
    OrdersAgreeIff(places, Uphill().Road());
  }

  lemma UphillIsOneWay(places: seq<Place>)
    requires Apart(Spots(places)) && |places| >= 2
    ensures BySpot(Uphill().Road()) && !SymmetricOn(places, Uphill().Road())
  {
    var d := Uphill().Road();
    assert Before(Spots(places)[0], Spots(places)[1]) || Before(Spots(places)[1], Spots(places)[0]);
    assert d(places[0], places[1]) != d(places[1], places[0]);
  }

  // ---------- The sorted key and order ----------

  /** Services without roads. */
  function ByAir(d: Distance): Services {
    Services((a, b) => None, d, false, false)
  }

  lemma WrongMatrixWrongHit(config: Config, d: Distance, a: seq<Place>, b: seq<Place>)
    requires config.maxSize >= 1 && config.ttl >= 0
    requires KeyOf(config.rule, a) == KeyOf(config.rule, b) && Direct(a, d) != Direct(b, d)
    ensures !HitsAreFresh(config, By(ByAir(d), false))
  {
    HitsAreFreshIff(config, By(ByAir(d), false));
    if KeyDecides(config, By(ByAir(d), false)) {
      SameKeySameGeodesic(config, ByAir(d), false, a, b);
    }
  }

  lemma MetricTellsApart(a: seq<Place>, b: seq<Place>) returns (d: Distance)
    requires Apart(Spots(a)) && multiset(Spots(a)) == multiset(Spots(b)) && Spots(a) != Spots(b) && |a| >= 3
    ensures SortSpots(Spots(a)) == SortSpots(Spots(b)) && Metric(d) && Direct(a, d) != Direct(b, d)
  {
    ReorderingsShareKey(a, b);
    OneOrderOnlyForMetrics(a, b);
    d :| Metric(d) && Direct(a, d) != Direct(b, d);
  }

  /**
    With the sorted key, as in the code, asking for three or more places again in another order is answered
    with a wrong matrix for some metric, although the documented key would answer every request exactly.
   */
  lemma SortedKeyIsNotExact(config: Config, a: seq<Place>, b: seq<Place>) returns (d: Distance)
    requires config.rule == Sorted && config.maxSize >= 1 && config.ttl >= 0
    requires Apart(Spots(a)) && multiset(Spots(a)) == multiset(Spots(b)) && Spots(a) != Spots(b) && |a| >= 3
    ensures Metric(d) && !HitsAreFresh(config, By(ByAir(d), false))
    ensures HitsAreFresh(config.(rule := InOrder), By(ByAir(d), false))
  {
    d := MetricTellsApart(a, b);
    WrongMatrixWrongHit(config, d, a, b);
    ServicesAreFreshIff(config.(rule := InOrder), ByAir(d), false);
  }
}
