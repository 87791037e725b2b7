/**
  The A* heuristic and the totals of a path: services/optimized_city2graph_service_clean.py, `route`.
 */
module AStarHeuristic {
  import opened Wrappers
  import opened SpeedProfile
  import opened RoadGraph

  type Roads = map<(int, int), Road>

  /** The distance between two points on the ground, as the haversine formula answers it. */
  type Ground = (Coordinates, Coordinates) -> real

  ghost predicate IsMetric(ground: Ground) {
    && (forall a, b {:trigger ground(a, b)} :: ground(a, b) >= 0.0)
    && (forall a :: ground(a, a) == 0.0)
    && forall a, b, c :: NoShorterVia(ground, a, b, c)
  }

  ghost predicate NoShorterVia(ground: Ground, a: Coordinates, b: Coordinates, c: Coordinates) {
    ground(a, c) <= ground(a, b) + ground(b, c)
  }

  /** The heuristic: seconds to the destination at 120 km/h, and 0 for a node without known coordinates. */
  function Heuristic(coords: map<int, Coordinates>, ground: Ground, dest: Coordinates, u: int): real {
    if u in coords then ground(coords[u], dest) / (120.0 / 3.6) else 0.0
  }

  predicate IsPath(roads: Roads, path: seq<int>) {
    path != [] && forall i | 0 <= i < |path| - 1 :: (path[i], path[i + 1]) in roads
  }

  function Time(roads: Roads, path: seq<int>): real
    requires IsPath(roads, path)
  {
    if |path| == 1 then 0.0
    else Time(roads, path[..|path| - 1]) + roads[(path[|path| - 2], path[|path| - 1])].travelTime
  }

  function Metres(roads: Roads, path: seq<int>): real
    requires IsPath(roads, path)
  {
    if |path| == 1 then 0.0
    else Metres(roads, path[..|path| - 1]) + roads[(path[|path| - 2], path[|path| - 1])].distance
  }

  // ---------- Lower bounds ----------

  /** Where every node lies; the service knows the coordinates of some nodes. */
  type Places = int -> Coordinates

  ghost predicate Knows(coords: map<int, Coordinates>, places: Places) {
    forall u | u in coords :: coords[u] == places(u)
  }

  /** No road is shorter than the straight line between its ends, and none is faster than 120 km/h. */
  ghost predicate Plausible(roads: Roads, places: Places, ground: Ground) {
    forall u, v | (u, v) in roads :: PlausibleRoad(roads[(u, v)], ground(places(u), places(v)))
  }

  predicate PlausibleRoad(road: Road, straight: real) {
    && road.distance >= straight && 0.0 < Speed(Clean, road.highway, road.maxspeed) <= 120.0
    && road.travelTime == TravelTime(Clean, road.distance, road.highway, road.maxspeed)
  }

  /** A plausible road takes at least as long as the straight line at 120 km/h. */
  lemma RoadIsSlower(road: Road, straight: real)
    requires PlausibleRoad(road, straight) && straight >= 0.0
    ensures straight / (120.0 / 3.6) <= road.travelTime
  {
    var fast, speed := 120.0 / 3.6, Speed(Clean, road.highway, road.maxspeed) / 3.6;
    Slower(road.distance, speed, fast);
    DivideLe(straight, road.distance, fast);
  }

  lemma MulLt(a: real, b: real, c: real)
    requires a < b && c > 0.0
    ensures a * c < b * c
  {
  }

  lemma CancelLe(a: real, b: real, c: real)
    requires a * c <= b * c && c > 0.0
    ensures a <= b
  {
    if b < a {
      MulLt(b, a, c);
    }
  }

  lemma CancelLt(a: real, b: real, c: real)
    requires a * c < b * c && c > 0.0
    ensures a < b
  {
    if b <= a {
      MulLe(b, a, c);
    }
  }

  lemma Quotient(a: real, c: real)
    requires c > 0.0
    ensures a / c * c == a
  {
  }

  lemma DivideLe(a: real, b: real, c: real)
    requires a <= b && c > 0.0
    ensures a / c <= b / c
  {
    Quotient(a, c);
    Quotient(b, c);
    CancelLe(a / c, b / c, c);
  }

  /** Times for the same distance at two speeds. */
  lemma TimesCompare(distance: real, x: real, fast: real, y: real, slow: real)
    requires x * fast == distance == y * slow && y >= 0.0 && 0.0 < slow <= fast
    ensures x <= y && (y > 0.0 && slow < fast ==> x < y)
  {
    MulLe(slow, fast, y);
    assert slow * y == y * slow && fast * y == y * fast;
    CancelLe(x, y, fast);
    if y > 0.0 && slow < fast {
      MulLt(slow, fast, y);
      CancelLt(x, y, fast);
    }
  }

  /** Driving slower takes no less time, and more over a distance that is not zero. */
  lemma Slower(distance: real, slow: real, fast: real)
    requires distance >= 0.0 && 0.0 < slow <= fast
    ensures distance / fast <= distance / slow
    ensures distance > 0.0 && slow < fast ==> distance / fast < distance / slow
  {
    Quotient(distance, fast);
    Quotient(distance, slow);
    NotNegative(distance, slow);
    if distance > 0.0 {
      Positive(distance, slow);
    }
    TimesCompare(distance, distance / fast, fast, distance / slow, slow);
  }

  lemma NotNegative(a: real, c: real)
    requires a >= 0.0 && c > 0.0
    ensures a / c >= 0.0
  {
  }

  lemma Positive(a: real, c: real)
    requires a > 0.0 && c > 0.0
    ensures a / c > 0.0
  {
  }

  lemma DivideAdd(a: real, b: real, c: real)
    requires c > 0.0
    ensures (a + b) / c == a / c + b / c
  {
  }

  /** No road takes less time than the straight line between its ends at 120 km/h. */
  ghost predicate NotFaster(roads: Roads, places: Places, ground: Ground) {
    forall u, v | (u, v) in roads :: AtMostFast(roads, places, ground, u, v)
  }

  ghost predicate AtMostFast(roads: Roads, places: Places, ground: Ground, u: int, v: int)
    requires (u, v) in roads
  {
    ground(places(u), places(v)) / (120.0 / 3.6) <= roads[(u, v)].travelTime
  }

  lemma PlausibleIsNotFaster(roads: Roads, places: Places, ground: Ground)
    requires IsMetric(ground) && Plausible(roads, places, ground)
    ensures NotFaster(roads, places, ground)
  {
    forall u, v | (u, v) in roads ensures AtMostFast(roads, places, ground, u, v) {
      assert PlausibleRoad(roads[(u, v)], ground(places(u), places(v)));
      assert ground(places(u), places(v)) >= 0.0;
      RoadIsSlower(roads[(u, v)], ground(places(u), places(v)));
    }
  }

  /** Every path takes at least as long as the straight line between its ends at 120 km/h. */
  lemma {:induction false} PathIsSlower(roads: Roads, places: Places, ground: Ground, path: seq<int>)
    requires IsMetric(ground) && NotFaster(roads, places, ground) && IsPath(roads, path)
    ensures ground(places(path[0]), places(path[|path| - 1])) / (120.0 / 3.6) <= Time(roads, path)
  {
    if |path| > 1 {
      var init := path[..|path| - 1];
      PathIsSlower(roads, places, ground, init);
      var a, b, c := places(path[0]), places(init[|init| - 1]), places(path[|path| - 1]);
      assert NoShorterVia(ground, a, b, c);
      assert AtMostFast(roads, places, ground, path[|path| - 2], path[|path| - 1]);
      DivideLe(ground(a, c), ground(a, b) + ground(b, c), 120.0 / 3.6);
      DivideAdd(ground(a, b), ground(b, c), 120.0 / 3.6);
    }
  }

  // ---------- Admissibility ----------

  /** The heuristic never exceeds the time of any path to the destination. */
  ghost predicate Admissible(roads: Roads, coords: map<int, Coordinates>, places: Places, ground: Ground) {
    forall path | IsPath(roads, path) :: NotAbove(roads, coords, places, ground, path)
  }

  ghost predicate NotAbove(roads: Roads, coords: map<int, Coordinates>, places: Places, ground: Ground, path: seq<int>)
    requires IsPath(roads, path)
  {
    Heuristic(coords, ground, places(path[|path| - 1]), path[0]) <= Time(roads, path)
  }

  /** The heuristic is admissible if no road beats the straight line, even where coordinates are unknown. */
  lemma HeuristicIsAdmissible(roads: Roads, coords: map<int, Coordinates>, places: Places, ground: Ground)
    requires IsMetric(ground) && NotFaster(roads, places, ground) && Knows(coords, places)
    ensures Admissible(roads, coords, places, ground)
  {
    forall path | IsPath(roads, path) ensures NotAbove(roads, coords, places, ground, path) {
      PathIsSlower(roads, places, ground, path);
      DivideLe(0.0, ground(places(path[0]), places(path[|path| - 1])), 120.0 / 3.6);
    }
  }

  /**
    Where the coordinates of all nodes are known that roads leave from, the heuristic is admissible for all paths
    if and only if no road takes less time than the straight line between its ends at 120 km/h.
   */
  lemma HeuristicIsAdmissibleIff(roads: Roads, coords: map<int, Coordinates>, places: Places, ground: Ground)
    requires IsMetric(ground) && Knows(coords, places) && forall u, v | (u, v) in roads :: u in coords
    ensures Admissible(roads, coords, places, ground) <==> NotFaster(roads, places, ground)
  {
    if NotFaster(roads, places, ground) {
      HeuristicIsAdmissible(roads, coords, places, ground);
    }
    if Admissible(roads, coords, places, ground) {
      forall u, v | (u, v) in roads ensures AtMostFast(roads, places, ground, u, v) {
        OneHop(roads, u, v);
        assert NotAbove(roads, coords, places, ground, [u, v]);
      }
    }
  }

  lemma OneHop(roads: Roads, u: int, v: int)
    requires (u, v) in roads
    ensures IsPath(roads, [u, v]) && Time(roads, [u, v]) == roads[(u, v)].travelTime
  {
    assert [u, v][..1] == [u];
  }

  /** A built road beats the straight line exactly if its speed is above 120 km/h by more than its detour makes up for. */
  lemma BuiltRoadIff(row: EdgeRow, straight: real)
    requires Speed(Clean, row.highway, row.maxspeed) > 0.0
    ensures straight / (120.0 / 3.6) <= RoadOf(Clean, row).travelTime
      <==> straight * Speed(Clean, row.highway, row.maxspeed) <= 120.0 * row.distance
  {
    var speed := Speed(Clean, row.highway, row.maxspeed);
    QuotientsCompare(straight, 120.0 / 3.6, row.distance, speed / 3.6);
    ScaledCompare(straight * speed, 120.0 * row.distance);
    assert straight * (speed / 3.6) == straight * speed / 3.6 && row.distance * (120.0 / 3.6) == 120.0 * row.distance / 3.6;
  }

  lemma QuotientsCompare(a: real, c: real, b: real, d: real)
    requires c > 0.0 && d > 0.0
    ensures a / c <= b / d <==> a * d <= b * c
  {
    var x, y := a / c, b / d;
    Quotient(a, c);
    Quotient(b, d);
    assert a * d == x * (c * d) && b * c == y * (c * d);
    if x <= y {
      MulLe(x, y, c * d);
    } else {
      MulLt(y, x, c * d);
    }
  }

  lemma ScaledCompare(a: real, b: real)
    ensures a / 3.6 <= b / 3.6 <==> a <= b
  {
  }

  /** A path the heuristic overestimates: a straight raceway between any two places. */
  lemma RacewayIsInadmissible(row: EdgeRow, coords: map<int, Coordinates>, places: Places, ground: Ground)
    requires row.highway == "raceway" && row.maxspeed == Absent && row.from in coords && Knows(coords, places)
    requires IsMetric(ground) && row.distance == ground(places(row.from), places(row.to)) > 0.0
    ensures var roads := map[(row.from, row.to) := RoadOf(Clean, row)];
      IsPath(roads, [row.from, row.to]) && !NotAbove(roads, coords, places, ground, [row.from, row.to])
  {
    var roads := map[(row.from, row.to) := RoadOf(Clean, row)];
    assert Speed(Clean, row.highway, row.maxspeed) == 200.0;
    OneHop(roads, row.from, row.to);
    BuiltRoadIff(row, row.distance);
  }

  // ---------- Consistency ----------

  /** Along a road, the heuristic to a destination falls by no more than the road's time. */
  ghost predicate FallsSlowly(roads: Roads, coords: map<int, Coordinates>, ground: Ground, dest: Coordinates, u: int, v: int)
    requires (u, v) in roads
  {
    Heuristic(coords, ground, dest, u) <= roads[(u, v)].travelTime + Heuristic(coords, ground, dest, v)
  }

  /** Along every road, and to every known destination. */
  ghost predicate Consistent(roads: Roads, coords: map<int, Coordinates>, ground: Ground) {
    forall u, v, d | (u, v) in roads && d in coords :: FallsSlowly(roads, coords, ground, coords[d], u, v)
  }

  /** The straight line at 120 km/h between two known nodes takes no more than so many seconds. */
  predicate Within(coords: map<int, Coordinates>, ground: Ground, u: int, v: int, seconds: real) {
    u in coords && v in coords ==> ground(coords[u], coords[v]) / (120.0 / 3.6) <= seconds
  }

  /** The road takes as long as the straight line to its end, or to any destination if its end is unknown. */
  ghost predicate SlowEnough(roads: Roads, coords: map<int, Coordinates>, ground: Ground, u: int, v: int)
    requires (u, v) in roads
  {
    && Within(coords, ground, u, v, roads[(u, v)].travelTime)
    && (v !in coords ==> forall d | d in coords :: Within(coords, ground, u, d, roads[(u, v)].travelTime))
  }

  /**
    The heuristic is consistent if and only if no road between known nodes beats the straight line, and a road
    from a known node into an unknown one takes as long as the straight line from there to any destination.
   */
  lemma HeuristicIsConsistentIff(roads: Roads, coords: map<int, Coordinates>, ground: Ground)
    requires IsMetric(ground) && forall u, v | (u, v) in roads :: roads[(u, v)].travelTime >= 0.0
    ensures Consistent(roads, coords, ground) <==> forall u, v | (u, v) in roads :: SlowEnough(roads, coords, ground, u, v)
  {
    forall u, v | (u, v) in roads
      ensures (forall d | d in coords :: FallsSlowly(roads, coords, ground, coords[d], u, v)) <==> SlowEnough(roads, coords, ground, u, v)
    {
      RoadIsConsistentIff(roads, coords, ground, u, v);
    }
  }

  lemma RoadIsConsistentIff(roads: Roads, coords: map<int, Coordinates>, ground: Ground, u: int, v: int)
    requires IsMetric(ground) && (u, v) in roads && roads[(u, v)].travelTime >= 0.0
    ensures (forall d | d in coords :: FallsSlowly(roads, coords, ground, coords[d], u, v)) <==> SlowEnough(roads, coords, ground, u, v)
  {
    if u !in coords {
      forall d | d in coords ensures FallsSlowly(roads, coords, ground, coords[d], u, v) {
        HeuristicIsNotNegative(coords, ground, coords[d], v);
      }
    } else if v in coords {
      if Within(coords, ground, u, v, roads[(u, v)].travelTime) {
        forall d | d in coords ensures FallsSlowly(roads, coords, ground, coords[d], u, v) {
          StraightLineIsConsistent(coords, ground, coords[d], u, v);
        }
      }
      if FallsSlowly(roads, coords, ground, coords[v], u, v) {
        assert ground(coords[v], coords[v]) == 0.0;
      }
    } else {
      forall d | d in coords
        ensures FallsSlowly(roads, coords, ground, coords[d], u, v) <==> Within(coords, ground, u, d, roads[(u, v)].travelTime)
      {
      }
    }
  }

  lemma HeuristicIsNotNegative(coords: map<int, Coordinates>, ground: Ground, dest: Coordinates, u: int)
    requires IsMetric(ground)
    ensures Heuristic(coords, ground, dest, u) >= 0.0
  {
    if u in coords {
      DivideLe(0.0, ground(coords[u], dest), 120.0 / 3.6);
    }
  }

  lemma StraightLineIsConsistent(coords: map<int, Coordinates>, ground: Ground, dest: Coordinates, u: int, v: int)
    requires IsMetric(ground) && u in coords && v in coords
    ensures Heuristic(coords, ground, dest, u) <= ground(coords[u], coords[v]) / (120.0 / 3.6) + Heuristic(coords, ground, dest, v)
  {
    var a, b := coords[u], coords[v];
    assert NoShorterVia(ground, a, b, dest);
    DivideLe(ground(a, dest), ground(a, b) + ground(b, dest), 120.0 / 3.6);
    DivideAdd(ground(a, b), ground(b, dest), 120.0 / 3.6);
  }

  /** Plausible roads between known nodes are consistent. */
  lemma HeuristicIsConsistent(roads: Roads, coords: map<int, Coordinates>, places: Places, ground: Ground)
    requires IsMetric(ground) && Plausible(roads, places, ground) && Knows(coords, places)
    requires forall u, v | (u, v) in roads :: v in coords
    ensures Consistent(roads, coords, ground)
  {
    PlausibleIsNotFaster(roads, places, ground);
    forall u, v | (u, v) in roads
      ensures roads[(u, v)].travelTime >= 0.0 && SlowEnough(roads, coords, ground, u, v)
    {
      assert AtMostFast(roads, places, ground, u, v) && ground(places(u), places(v)) >= 0.0;
      DivideLe(0.0, ground(places(u), places(v)), 120.0 / 3.6);
    }
    HeuristicIsConsistentIff(roads, coords, ground);
  }

  // ---------- The totals of a path ----------

  datatype RouteResult = RouteResult(path: seq<int>, distance: real, travelTime: real, highways: seq<string>, speed: real)

  /** Kilometres per hour over a whole path; zero for a path that takes no time. */
  function AverageSpeed(metres: real, seconds: real): real {
    if seconds > 0.0 then metres / 1000.0 / (seconds / 3600.0) else 0.0
  }

  method Measure(roads: Roads, path: seq<int>) returns (result: RouteResult)
    requires IsPath(roads, path)
    ensures result.path == path && result.distance == Metres(roads, path) && result.travelTime == Time(roads, path)
    ensures |result.highways| == |path| - 1
    ensures forall i | 0 <= i < |path| - 1 :: result.highways[i] == roads[(path[i], path[i + 1])].highway
    ensures result.speed == AverageSpeed(result.distance, result.travelTime)
  {
    var distance, time := 0.0, 0.0;
    var highways := [];
    for i := 0 to |path| - 1
      invariant distance == Metres(roads, path[..i + 1]) && time == Time(roads, path[..i + 1])
      invariant |highways| == i
      invariant forall j | 0 <= j < i :: highways[j] == roads[(path[j], path[j + 1])].highway
    {
      assert path[..i + 2][..i + 1] == path[..i + 1];
      var road := roads[(path[i], path[i + 1])];
      distance := distance + road.distance;
      time := time + road.travelTime;
      highways := highways + [road.highway];
    }
    assert path[..|path|] == path;
    result := RouteResult(path, distance, time, highways, AverageSpeed(distance, time));
  }

  /** Every road on the path is as fast as its time says, between two speeds. */
  ghost predicate SpeedsBetween(roads: Roads, path: seq<int>, low: real, high: real)
    requires IsPath(roads, path)
  {
    forall i | 0 <= i < |path| - 1 :: RoadBetween(roads[(path[i], path[i + 1])], low, high)
  }

  predicate RoadBetween(road: Road, low: real, high: real) {
    && 0.0 < low <= Speed(Clean, road.highway, road.maxspeed) <= high && road.distance >= 0.0
    && road.travelTime == TravelTime(Clean, road.distance, road.highway, road.maxspeed)
  }

  lemma RoadCovers(road: Road, low: real, high: real)
    requires RoadBetween(road, low, high)
    ensures Covers(road.distance, road.travelTime, low, high)
  {
    var speed, time := Speed(Clean, road.highway, road.maxspeed) / 3.6, road.travelTime;
    Quotient(road.distance, speed);
    NotNegative(road.distance, speed);
    MulLe(low / 3.6, speed, time);
    MulLe(speed, high / 3.6, time);
  }

  lemma MulLe(a: real, b: real, x: real)
    requires a <= b && x >= 0.0
    ensures a * x <= b * x
  {
  }

  /** So many metres are driven in so many seconds between two speeds. */
  predicate Covers(metres: real, seconds: real, low: real, high: real) {
    seconds >= 0.0 && low / 3.6 * seconds <= metres <= high / 3.6 * seconds
  }

  lemma CoversBoth(a: real, s: real, b: real, t: real, low: real, high: real)
    requires Covers(a, s, low, high) && Covers(b, t, low, high)
    ensures Covers(a + b, s + t, low, high)
  {
  }

  lemma {:induction false} PathCovers(roads: Roads, path: seq<int>, low: real, high: real)
    requires IsPath(roads, path) && SpeedsBetween(roads, path, low, high)
    ensures Covers(Metres(roads, path), Time(roads, path), low, high)
  {
    if |path| > 1 {
      var init := path[..|path| - 1];
      var road := roads[(path[|path| - 2], path[|path| - 1])];
      PathCovers(roads, init, low, high);
      RoadCovers(road, low, high);
      CoversBoth(Metres(roads, init), Time(roads, init), road.distance, road.travelTime, low, high);
    }
  }

  /** The reported speed of a path lies between its slowest and its fastest road. */
  lemma SpeedIsBetween(roads: Roads, path: seq<int>, low: real, high: real)
    requires IsPath(roads, path) && SpeedsBetween(roads, path, low, high) && Time(roads, path) > 0.0
    ensures low <= AverageSpeed(Metres(roads, path), Time(roads, path)) <= high
  {
    PathCovers(roads, path, low, high);
    SpeedOf(Metres(roads, path), Time(roads, path), low, high);
  }

  lemma SpeedOf(metres: real, seconds: real, low: real, high: real)
    requires seconds > 0.0 && Covers(metres, seconds, low, high)
    ensures low <= AverageSpeed(metres, seconds) <= high
  {
    var hours, km := seconds / 3600.0, metres / 1000.0;
    var speed := AverageSpeed(metres, seconds);
    Quotient(km, hours);
    assert speed == km / hours;
    assert low * hours <= km <= high * hours;
    CancelLe(low, speed, hours);
    CancelLe(speed, high, hours);
  }
}
