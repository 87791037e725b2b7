/**
  The nearest-neighbour tour: services/hybrid_architecture_integrator.py, `_optimize_tsp_basic`, and how far
  it can be from the shortest way through all places.
 */
module NearestNeighbourTour {
  import opened Sequences
  import opened Sets

  /** A distance or duration; places without a connection are infinitely far apart. */
  datatype Measure = Finite(value: real) | Infinite

  type Matrix = seq<seq<Measure>>

  predicate Square(m: Matrix, n: nat) {
    |m| == n && forall i | 0 <= i < n :: |m[i]| == n
  }

  predicate Less(a: Measure, b: Measure) {
    a.Finite? && (b.Infinite? || a.value < b.value)
  }

  function Plus(a: Measure, b: Measure): Measure {
    if a.Finite? && b.Finite? then Finite(a.value + b.value) else Infinite
  }

  /** An infinite total is reported as zero. */
  function Clean(total: Measure): real {
    if total.Finite? then total.value else 0.0
  }

  predicate InRange(route: seq<int>, n: nat) {
    forall i | 0 <= i < |route| :: 0 <= route[i] < n
  }

  /** The total along a route. */
  function Along(m: Matrix, route: seq<int>): Measure
    requires Square(m, |m|) && InRange(route, |m|)
  {
    if |route| <= 1 then Finite(0.0)
    else Plus(Along(m, route[..|route| - 1]), m[route[|route| - 2]][route[|route| - 1]])
  }

  /** Two parts of a route take as much as each of them and the hop between them; a hop without a connection makes it infinite. */
  lemma {:induction false} AlongJoins(m: Matrix, a: seq<int>, b: seq<int>)
    requires Square(m, |m|) && InRange(a, |m|) && InRange(b, |m|) && a != [] && b != []
    ensures InRange(a + b, |m|)
    ensures Along(m, a + b) == Plus(Plus(Along(m, a), m[a[|a| - 1]][b[0]]), Along(m, b))
    ensures |b| == 1 ==> Along(m, b) == Finite(0.0)
    decreases |b|
  {
    var whole := a + b;
    if |b| == 1 {
      assert whole[..|whole| - 1] == a;
    } else {
      AlongJoins(m, a, b[..|b| - 1]);
      assert whole[..|whole| - 1] == a + b[..|b| - 1];
    }
  }

  /** From every place the route goes on to one that none of the places still unvisited is nearer than. */
  predicate Greedy(m: Matrix, route: seq<int>)
    requires Square(m, |m|) && InRange(route, |m|)
  {
    forall i, j | 0 <= i < i + 1 < j < |route| :: !Less(m[route[i]][route[j]], m[route[i]][route[i + 1]])
  }

  datatype Tour = Tour(route: seq<int>, distance: real, time: real)

  method Nearest(row: seq<Measure>, unvisited: set<int>) returns (nearest: int)
    requires unvisited != {} && forall x | x in unvisited :: 0 <= x < |row|
    ensures nearest in unvisited && forall x | x in unvisited :: !Less(row[x], row[nearest])
  {
    ghost var some := Pick(unvisited);
    nearest :| nearest in unvisited;
    var left := unvisited - {nearest};
    while left != {}
      invariant left <= unvisited && nearest in unvisited
      invariant forall x | x in unvisited && x !in left :: !Less(row[x], row[nearest])
      decreases left
    {
      ghost var next := Pick(left);
      var x :| x in left;
      if Less(row[x], row[nearest]) {
        nearest := x;
      }
      left := left - {x};
    }
  }

  /** No place still unvisited was nearer than the hops taken. */
  ghost predicate NoneNearer(m: Matrix, route: seq<int>, unvisited: set<int>)
    requires Square(m, |m|) && InRange(route, |m|)
  {
    forall i, x | 0 <= i < |route| - 1 && x in unvisited && 0 <= x < |m| :: !Less(m[route[i]][x], m[route[i]][route[i + 1]])
  }

  /** The places of a route and those unvisited are all places, each once. */
  ghost predicate Splits(n: nat, route: seq<int>, unvisited: set<int>) {
    && InRange(route, n) && Distinct(route) && |route| >= 1 && route[0] == 0
    && |route| + |unvisited| == n && forall x :: x in unvisited <==> 0 <= x < n && x !in route
  }

  /** A walk from place 0 and the places it has yet to visit, none of them nearer than the hops taken. */
  ghost predicate Walk(m: Matrix, route: seq<int>, unvisited: set<int>) {
    Square(m, |m|) && Splits(|m|, route, unvisited) && Greedy(m, route) && NoneNearer(m, route, unvisited)
  }

  lemma SplitsOn(n: nat, route: seq<int>, unvisited: set<int>, nearest: int)
    requires Splits(n, route, unvisited) && nearest in unvisited
    ensures Splits(n, route + [nearest], unvisited - {nearest})
  {
    var longer := route + [nearest];
    forall x ensures x in unvisited - {nearest} <==> 0 <= x < n && x !in longer {
      assert x in longer <==> x in route || x == nearest;
    }
  }

  lemma GreedyOn(m: Matrix, route: seq<int>, unvisited: set<int>, nearest: int)
    requires Walk(m, route, unvisited) && nearest in unvisited && InRange(route + [nearest], |m|)
    ensures Greedy(m, route + [nearest])
  {
    var longer := route + [nearest];
    forall i, j | 0 <= i < i + 1 < j < |longer| ensures !Less(m[longer[i]][longer[j]], m[longer[i]][longer[i + 1]]) {
      assert longer[i] == route[i] && longer[i + 1] == route[i + 1];
      assert longer[j] == if j < |route| then route[j] else nearest;
    }
  }

  lemma NoneNearerOn(m: Matrix, route: seq<int>, unvisited: set<int>, nearest: int)
    requires Walk(m, route, unvisited) && nearest in unvisited && InRange(route + [nearest], |m|)
    requires forall x | x in unvisited :: !Less(m[route[|route| - 1]][x], m[route[|route| - 1]][nearest])
    ensures NoneNearer(m, route + [nearest], unvisited - {nearest})
  {
    var longer := route + [nearest];
    forall i, x | 0 <= i < |longer| - 1 && x in unvisited - {nearest} && 0 <= x < |m|
      ensures !Less(m[longer[i]][x], m[longer[i]][longer[i + 1]])
    {
      assert longer[i] == route[i];
      assert longer[i + 1] == if i + 1 < |route| then route[i + 1] else nearest;
    }
  }

  lemma WalkOn(m: Matrix, route: seq<int>, unvisited: set<int>, nearest: int)
    requires Walk(m, route, unvisited) && nearest in unvisited
    requires forall x | x in unvisited :: !Less(m[route[|route| - 1]][x], m[route[|route| - 1]][nearest])
    ensures Walk(m, route + [nearest], unvisited - {nearest})
  {
    SplitsOn(|m|, route, unvisited, nearest);
    GreedyOn(m, route, unvisited, nearest);
    NoneNearerOn(m, route, unvisited, nearest);
  }

  lemma AlongMore(m: Matrix, route: seq<int>, next: int)
    requires Square(m, |m|) && InRange(route, |m|) && route != [] && 0 <= next < |m|
    ensures Along(m, route + [next]) == Plus(Along(m, route), m[route[|route| - 1]][next])
  {
    assert (route + [next])[..|route|] == route;
  }

  lemma WalkEnds(m: Matrix, route: seq<int>)
    requires Walk(m, route, {})
    ensures Permutation(route, |m|) && route[0] == 0 && Greedy(m, route)
  {
  }

  function OtherPlaces(n: nat): (places: set<int>)
    requires n >= 1
    ensures |places| == n - 1 && forall x :: x in places <==> 1 <= x < n
  {
    if n == 1 then {} else OtherPlaces(n - 1) + {n - 1}
  }

  /** The totals kept beside a route. */
  ghost predicate Measured(distances: Matrix, durations: Matrix, route: seq<int>, distance: Measure, time: Measure) {
    && Square(distances, |distances|) && Square(durations, |distances|) && InRange(route, |distances|)
    && distance == Along(distances, route) && time == Along(durations, route)
  }

  lemma MeasuredOn(distances: Matrix, durations: Matrix, route: seq<int>, distance: Measure, time: Measure, next: int)
    requires Measured(distances, durations, route, distance, time) && route != [] && 0 <= next < |distances|
    ensures var last := route[|route| - 1];
      Measured(distances, durations, route + [next], Plus(distance, distances[last][next]), Plus(time, durations[last][next]))
  {
    AlongMore(distances, route, next);
    AlongMore(durations, route, next);
  }

  method OptimizeTspBasic(distances: Matrix, durations: Matrix) returns (tour: Tour)
    requires Square(distances, |distances|) && Square(durations, |distances|)
    ensures |distances| == 0 ==> tour == Tour([0], 0.0, 0.0)
    ensures |distances| > 0 ==> Permutation(tour.route, |distances|) && tour.route[0] == 0 && Greedy(distances, tour.route)
    ensures |distances| > 0 ==> tour.distance == Clean(Along(distances, tour.route))
    ensures |distances| > 0 ==> tour.time == Clean(Along(durations, tour.route))
  {
    var n := |distances|;
    if n <= 1 {
      return Tour([0], 0.0, 0.0);
    }
    var unvisited := OtherPlaces(n);
    var route, current := [0], 0;
    var distance, time := Finite(0.0), Finite(0.0);
    while unvisited != {}
      invariant Walk(distances, route, unvisited) && current == route[|route| - 1]
      invariant Measured(distances, durations, route, distance, time)
      decreases unvisited
    {
      var nearest := Nearest(distances[current], unvisited);
      WalkOn(distances, route, unvisited, nearest);
      MeasuredOn(distances, durations, route, distance, time, nearest);
      route := route + [nearest];
      distance := Plus(distance, distances[current][nearest]);
      time := Plus(time, durations[current][nearest]);
      current := nearest;
      unvisited := unvisited - {nearest};
    }
    WalkEnds(distances, route);
    return Tour(route, Clean(distance), Clean(time));
  }

  // ---------- Lengths of paths ----------

  type Metric = (int, int) -> real

  /** Distances between the first n places that are symmetric and obey the triangle inequality. */
  ghost predicate IsMetric(d: Metric, n: nat) {
    && (forall i, j | 0 <= i < n && 0 <= j < n :: TwoWay(d, i, j))
    && forall i, j, k | 0 <= i < n && 0 <= j < n && 0 <= k < n :: NoShorterVia(d, i, j, k)
  }

  ghost predicate TwoWay(d: Metric, i: int, j: int) {
    0.0 <= d(i, j) == d(j, i)
  }

  ghost predicate NoShorterVia(d: Metric, i: int, j: int, k: int) {
    d(i, k) <= d(i, j) + d(j, k)
  }

  function Length(d: Metric, path: seq<int>): real {
    if |path| <= 1 then 0.0 else Length(d, path[..|path| - 1]) + d(path[|path| - 2], path[|path| - 1])
  }

  function SumOf(f: int -> real, s: seq<int>): real {
    if s == [] then 0.0 else SumOf(f, s[..|s| - 1]) + f(s[|s| - 1])
  }

  lemma {:induction false} SumOfWithout(f: int -> real, s: seq<int>, i: nat)
    requires i < |s|
    ensures SumOf(f, s) == f(s[i]) + SumOf(f, Without(s, i))
  {
    var init := s[..|s| - 1];
    if i < |init| {
      SumOfWithout(f, init, i);
      assert Without(s, i)[..|s| - 2] == Without(init, i);
    } else {
      assert Without(s, i) == init;
    }
  }

  lemma {:induction false} SumOfSame(f: int -> real, a: seq<int>, b: seq<int>)
    requires multiset(a) == multiset(b)
    ensures SumOf(f, a) == SumOf(f, b)
    decreases |a|
  {
    assert |a| == |multiset(a)| == |multiset(b)| == |b|;
    if a != [] {
      var last := |a| - 1;
      assert a[last] in multiset(b);
      var k := IndexOf(b, a[last]);
      SameWithout(a, last, b, k);
      SumOfSame(f, a[..last], Without(b, k));
      SumOfWithout(f, b, k);
    }
  }

  lemma {:induction false} LengthNonNegative(d: Metric, n: nat, path: seq<int>)
    requires IsMetric(d, n) && InRange(path, n)
    ensures Length(d, path) >= 0.0
  {
    if |path| > 1 {
      LengthNonNegative(d, n, path[..|path| - 1]);
      assert TwoWay(d, path[|path| - 2], path[|path| - 1]);
    }
  }

  /** A shortcut past one place is no longer. */
  lemma {:induction false} Shortcut(d: Metric, n: nat, path: seq<int>, i: nat)
    requires IsMetric(d, n) && InRange(path, n) && i < |path|
    ensures Length(d, Without(path, i)) <= Length(d, path)
  {
    var last := |path| - 1;
    var init := path[..last];
    if i < last - 1 {
      Shortcut(d, n, init, i);
      assert Without(path, i)[..last - 1] == Without(init, i);
    } else if i == last && last > 0 {
      assert Without(path, i) == init && TwoWay(d, path[last - 1], path[last]);
    } else if i == last - 1 && i > 0 {
      assert Without(path, i)[..last - 1] == init[..i] && NoShorterVia(d, path[i - 1], path[i], path[last]);
    } else if i == last - 1 {
      assert TwoWay(d, path[0], path[1]);
    }
  }

  /** No two places on a path are farther apart than the path is long. */
  lemma {:induction false} EndsAreNearer(d: Metric, n: nat, path: seq<int>, i: nat, j: nat)
    requires IsMetric(d, n) && InRange(path, n) && i < j < |path|
    ensures d(path[i], path[j]) <= Length(d, path)
  {
    var init := path[..|path| - 1];
    LengthNonNegative(d, n, init);
    assert TwoWay(d, path[|path| - 2], path[|path| - 1]);
    if j < |init| {
      EndsAreNearer(d, n, init, i, j);
    } else if i < |init| - 1 {
      EndsAreNearer(d, n, init, i, |init| - 1);
      assert NoShorterVia(d, path[i], path[j - 1], path[j]);
    }
  }

  // ---------- The bound ----------

  /** The bound for m hops: (1 + 1 + 1/2 + ... + 1/(m-1)) times the length. */
  function Bound(m: nat, length: real): real {
    if m == 0 then 0.0
    else if m == 1 then length
    else Bound(m - 1, length) + length / (m - 1) as real
  }

  /** Two places are at least as far apart as the shorter of the hops from them. */
  ghost predicate Spread(d: Metric, hop: int -> real, q: seq<int>) {
    forall i, j | 0 <= i < |q| && 0 <= j < |q| && i != j :: Separate(d, hop, q[i], q[j])
  }

  ghost predicate Separate(d: Metric, hop: int -> real, x: int, y: int) {
    d(x, y) >= hop(x) || d(x, y) >= hop(y)
  }

  lemma ShortestHop(hop: int -> real, q: seq<int>) returns (k: nat)
    requires q != []
    ensures k < |q| && forall i | 0 <= i < |q| :: hop(q[k]) <= hop(q[i])
  {
    k := 0;
    for m := 1 to |q|
      invariant k < m && forall i | 0 <= i < m :: hop(q[k]) <= hop(q[i])
    {
      if hop(q[m]) < hop(q[k]) {
        k := m;
      }
    }
  }

  function Times(k: nat, x: real): real {
    if k == 0 then 0.0 else Times(k - 1, x) + x
  }

  lemma {:induction false} TimesIsProduct(k: nat, x: real)
    ensures Times(k, x) == k as real * x
  {
    if k > 0 {
      TimesIsProduct(k - 1, x);
    }
  }

  lemma DivideBy(k: nat, x: real, y: real)
    requires k >= 1 && Times(k, x) <= y
    ensures x <= y / k as real
  {
    TimesIsProduct(k, x);
    assert y / k as real * k as real == y;
  }

  /** A path through spread places is at least as long as the shortest hop once for each leg. */
  lemma {:induction false} LegsAreLong(d: Metric, hop: int -> real, q: seq<int>, least: real)
    requires Spread(d, hop, q) && q != [] && forall i | 0 <= i < |q| :: least <= hop(q[i])
    ensures Times(|q| - 1, least) <= Length(d, q)
  {
    if |q| > 1 {
      LegsAreLong(d, hop, q[..|q| - 1], least);
      assert Separate(d, hop, q[|q| - 2], q[|q| - 1]);
    }
  }

  lemma ShortHop(d: Metric, hop: int -> real, q: seq<int>, length: real) returns (k: nat)
    requires Spread(d, hop, q) && |q| > 1 && Length(d, q) <= length
    ensures k < |q| && hop(q[k]) <= length / (|q| - 1) as real
  {
    k := ShortestHop(hop, q);
    LegsAreLong(d, hop, q, hop(q[k]));
    DivideBy(|q| - 1, hop(q[k]), length);
  }

  lemma {:induction false} HopsAreBounded(d: Metric, n: nat, hop: int -> real, q: seq<int>, length: real)
    requires IsMetric(d, n) && InRange(q, n) && Spread(d, hop, q) && Length(d, q) <= length
    requires forall i | 0 <= i < |q| :: hop(q[i]) <= length
    ensures SumOf(hop, q) <= Bound(|q|, length)
    decreases |q|
  {
    if |q| == 1 {
      assert q[..0] == [];
    } else if |q| > 1 {
      var k := ShortHop(d, hop, q, length);
      Shortcut(d, n, q, k);
      HopsAreBounded(d, n, hop, Without(q, k), length);
      SumOfWithout(hop, q, k);
    }
  }

  // ---------- From places to their positions on the route ----------

  /** The distance between the places at two positions of a route. */
  function OnRoute(d: Metric, route: seq<int>): Metric {
    (i, j) => if 0 <= i < |route| && 0 <= j < |route| then d(route[i], route[j]) else 0.0
  }

  /** The hop from a position of a route to the next one. */
  function HopOf(d: Metric, route: seq<int>): int -> real {
    k => if 0 <= k < |route| - 1 then d(route[k], route[k + 1]) else 0.0
  }

  ghost predicate HopsAreNearest(d: Metric, route: seq<int>) {
    forall i, j | 0 <= i < i + 1 < j < |route| :: d(route[i], route[i + 1]) <= d(route[i], route[j])
  }

  lemma RouteIsMetric(d: Metric, n: nat, route: seq<int>)
    requires IsMetric(d, n) && Permutation(route, n)
    ensures IsMetric(OnRoute(d, route), n)
  {
    var e := OnRoute(d, route);
    forall i, j | 0 <= i < n && 0 <= j < n ensures TwoWay(e, i, j) {
      assert TwoWay(d, route[i], route[j]);
    }
    forall i, j, k | 0 <= i < n && 0 <= j < n && 0 <= k < n ensures NoShorterVia(e, i, j, k) {
      assert NoShorterVia(d, route[i], route[j], route[k]);
    }
  }

  /** The greedy choice spreads the positions apart: the earlier of two places was left by a hop no longer than their distance. */
  lemma GreedySpreads(d: Metric, n: nat, route: seq<int>, q: seq<int>)
    requires IsMetric(d, n) && Permutation(route, n) && HopsAreNearest(d, route)
    requires Distinct(q) && forall i | 0 <= i < |q| :: 0 <= q[i] < n - 1
    ensures Spread(OnRoute(d, route), HopOf(d, route), q)
  {
    forall i, j | 0 <= i < |q| && 0 <= j < |q| && i != j ensures Separate(OnRoute(d, route), HopOf(d, route), q[i], q[j]) {
      var x, y := q[i], q[j];
      assert x != y && TwoWay(d, route[x], route[y]);
      if x < y {
        assert d(route[x], route[x + 1]) <= d(route[x], route[y]);
      } else {
        assert d(route[y], route[y + 1]) <= d(route[y], route[x]);
      }
    }
  }

  lemma {:induction false} LengthIsHops(d: Metric, route: seq<int>, k: nat)
    requires k < |route|
    ensures Length(d, route[..k + 1]) == SumOf(HopOf(d, route), UpTo(k))
  {
    if k > 0 {
      LengthIsHops(d, route, k - 1);
      assert route[..k + 1][..k] == route[..k];
      assert UpTo(k)[..k - 1] == UpTo(k - 1);
    }
  }

  lemma {:induction false} SameLength(d: Metric, route: seq<int>, path: seq<int>, q: seq<int>)
    requires Reindexed(route, path, q)
    ensures Length(d, path) == Length(OnRoute(d, route), q)
  {
    if |path| > 1 {
      SameLength(d, route, path[..|path| - 1], q[..|q| - 1]);
    }
  }

  /** Every hop of the route is at most as long as any path through all places. */
  lemma HopsAtMostPath(d: Metric, n: nat, route: seq<int>, path: seq<int>, q: seq<int>, x: nat)
    requires IsMetric(d, n) && Permutation(route, n) && Permutation(q, n) && x < n - 1 && Reindexed(route, path, q)
    ensures HopOf(d, route)(x) <= Length(d, path)
  {
    var i := PositionOf(q, n, x);
    var j := PositionOf(q, n, x + 1);
    assert path[i] == route[x] && path[j] == route[x + 1];
    assert TwoWay(d, route[x], route[x + 1]);
    if i < j {
      EndsAreNearer(d, n, path, i, j);
    } else {
      EndsAreNearer(d, n, path, j, i);
    }
  }

  lemma WithoutLastPlace(q: seq<int>, n: nat) returns (k: nat)
    requires Permutation(q, n) && n >= 1
    ensures k < n && q[k] == n - 1 && multiset(Without(q, k)) == multiset(UpTo(n - 1))
    ensures Distinct(Without(q, k)) && InRange(Without(q, k), n - 1)
  {
    k := PositionOf(q, n, n - 1);
    DropLargest(q, n, k);
    PermutationListsAll(Without(q, k), n - 1);
  }

  lemma DropLargest(q: seq<int>, n: nat, k: nat)
    requires Permutation(q, n) && n >= 1 && k < n && q[k] == n - 1
    ensures Permutation(Without(q, k), n - 1)
  {
  }

  /**
    A nearest-neighbour route of n places, which does not return to its start, is at most 1 + 1 + 1/2 + ... + 1/(n-2) times
    as long as any path through all of them, and each of its hops is at most as long as that path.
   */
  lemma RouteIsBounded(d: Metric, n: nat, route: seq<int>, path: seq<int>)
    requires n >= 1 && IsMetric(d, n) && Permutation(route, n) && Permutation(path, n) && HopsAreNearest(d, route)
    ensures Length(d, route) <= Bound(n - 1, Length(d, path))
    ensures HopsAtMost(d, n, route, Length(d, path))
  {
    PermutationListsAll(route, n);
    PermutationListsAll(path, n);
    var q := Rearrangement(route, path);
    forall x | 0 <= x < n - 1 ensures HopOf(d, route)(x) <= Length(d, path) {
      HopsAtMostPath(d, n, route, path, q, x);
    }
    var rest := RestOfPath(d, n, route, path, q);
    RouteLength(d, n, route, rest, Length(d, path));
  }

  /** The path visits the places at the given positions of the route. */
  ghost predicate Reindexed(route: seq<int>, path: seq<int>, q: seq<int>) {
    |path| == |q| && InRange(q, |route|) && forall i | 0 <= i < |path| :: path[i] == route[q[i]]
  }

  lemma RestIsShort(d: Metric, n: nat, route: seq<int>, path: seq<int>, q: seq<int>, k: nat)
    requires IsMetric(d, n) && Permutation(route, n) && |q| == n && k < n && Reindexed(route, path, q)
    ensures Length(OnRoute(d, route), Without(q, k)) <= Length(d, path)
  {
    RouteIsMetric(d, n, route);
    SameLength(d, route, path, q);
    Shortcut(OnRoute(d, route), n, q, k);
  }

  /** No hop of the route is longer. */
  ghost predicate HopsAtMost(d: Metric, n: nat, route: seq<int>, length: real) {
    forall x | 0 <= x < n - 1 :: HopOf(d, route)(x) <= length
  }

  lemma RestIsBounded(d: Metric, n: nat, route: seq<int>, rest: seq<int>, length: real)
    requires n >= 1 && IsMetric(d, n) && Permutation(route, n) && HopsAreNearest(d, route) && HopsAtMost(d, n, route, length)
    requires Distinct(rest) && InRange(rest, n - 1) && Length(OnRoute(d, route), rest) <= length
    ensures SumOf(HopOf(d, route), rest) <= Bound(|rest|, length)
  {
    RouteIsMetric(d, n, route);
    GreedySpreads(d, n, route, rest);
    HopsAreBounded(OnRoute(d, route), n, HopOf(d, route), rest, length);
  }

  lemma RouteIsHops(d: Metric, n: nat, route: seq<int>, rest: seq<int>)
    requires n >= 1 && |route| == n && multiset(rest) == multiset(UpTo(n - 1))
    ensures Length(d, route) == SumOf(HopOf(d, route), rest) && |rest| == n - 1
  {
    assert |rest| == |multiset(rest)| == |multiset(UpTo(n - 1))|;
    SumOfSame(HopOf(d, route), rest, UpTo(n - 1));
    LengthIsHops(d, route, n - 1);
    assert route[..n] == route;
  }

  /** The positions of a route but the last, in the order of a path. */
  ghost predicate RestOf(d: Metric, n: nat, route: seq<int>, rest: seq<int>, length: real)
    requires n >= 1
  {
    && Distinct(rest) && InRange(rest, n - 1) && multiset(rest) == multiset(UpTo(n - 1))
    && Length(OnRoute(d, route), rest) <= length
  }

  lemma RestOfPath(d: Metric, n: nat, route: seq<int>, path: seq<int>, q: seq<int>) returns (rest: seq<int>)
    requires n >= 1 && IsMetric(d, n) && Permutation(route, n) && Permutation(q, n) && Reindexed(route, path, q)
    ensures RestOf(d, n, route, rest, Length(d, path))
  {
    var k := WithoutLastPlace(q, n);
    RestIsShort(d, n, route, path, q, k);
    rest := Without(q, k);
  }

  lemma RouteLength(d: Metric, n: nat, route: seq<int>, rest: seq<int>, length: real)
    requires n >= 1 && IsMetric(d, n) && Permutation(route, n) && HopsAreNearest(d, route)
    requires HopsAtMost(d, n, route, length) && RestOf(d, n, route, rest, length)
    ensures Length(d, route) <= Bound(n - 1, length)
  {
    RouteIsHops(d, n, route, rest);
    RestIsBounded(d, n, route, rest, length);
  }

  // ---------- The bound in closed form ----------

  /** 1 + 1/2 + ... + 1/k */
  function Harmonic(k: nat): real {
    if k == 0 then 0.0 else Harmonic(k - 1) + 1.0 / k as real
  }

  lemma {:induction false} BoundIsHarmonic(m: nat, length: real)
    requires m >= 1
    ensures Bound(m, length) == (1.0 + Harmonic(m - 1)) * length
  {
    if m > 1 {
      BoundIsHarmonic(m - 1, length);
      Share(m - 1, length);
      Distribute(1.0 + Harmonic(m - 2), 1.0 / (m - 1) as real, length);
    }
  }

  lemma Share(k: nat, x: real)
    requires k >= 1
    ensures x / k as real == 1.0 / k as real * x
  {
  }

  lemma Distribute(a: real, b: real, x: real)
    ensures (a + b) * x == a * x + b * x
  {
  }

  lemma {:induction false} HarmonicIsSmall(k: nat)
    ensures Harmonic(k) <= k as real
  {
    if k > 0 {
      HarmonicIsSmall(k - 1);
      assert 1.0 / k as real <= 1.0;
    }
  }

  // ---------- The tour the code computes ----------

  function AsMetric(m: Matrix): Metric {
    (i, j) => if 0 <= i < |m| && 0 <= j < |m[i]| && m[i][j].Finite? then m[i][j].value else 0.0
  }

  /** Every distance is known, and together they are a metric. */
  ghost predicate MetricMatrix(m: Matrix) {
    && Square(m, |m|) && (forall i, j | 0 <= i < |m| && 0 <= j < |m| :: m[i][j].Finite?)
    && IsMetric(AsMetric(m), |m|)
  }

  lemma {:induction false} AlongIsLength(m: Matrix, route: seq<int>)
    requires MetricMatrix(m) && InRange(route, |m|)
    ensures Along(m, route) == Finite(Length(AsMetric(m), route))
  {
    if |route| > 1 {
      AlongIsLength(m, route[..|route| - 1]);
    }
  }

  /** So long a route of n places is at most 1 + H(n-2) times the best, hence at most n - 1 times. */
  ghost predicate NearOptimal(n: nat, route: real, best: real)
    requires n >= 2
  {
    route <= (1.0 + Harmonic(n - 2)) * best <= (n - 1) as real * best
  }

  lemma RouteIsNearOptimal(d: Metric, n: nat, route: seq<int>, path: seq<int>)
    requires n >= 2 && IsMetric(d, n) && Permutation(route, n) && Permutation(path, n) && HopsAreNearest(d, route)
    ensures NearOptimal(n, Length(d, route), Length(d, path))
  {
    RouteIsBounded(d, n, route, path);
    LengthNonNegative(d, n, path);
    BoundIsNear(n, Length(d, route), Length(d, path));
  }

  lemma BoundIsNear(n: nat, route: real, best: real)
    requires n >= 2 && best >= 0.0 && route <= Bound(n - 1, best)
    ensures NearOptimal(n, route, best)
  {
    BoundIsSmall(n - 1, best);
  }

  /** The distance reported for places with known metric distances, against the length of any path through all of them. */
  lemma TourIsNearOptimal(m: Matrix, tour: Tour, path: seq<int>)
    requires MetricMatrix(m) && |m| >= 2 && Permutation(tour.route, |m|) && Greedy(m, tour.route)
    requires tour.distance == Clean(Along(m, tour.route)) && Permutation(path, |m|)
    ensures NearOptimal(|m|, tour.distance, Clean(Along(m, path)))
  {
    AlongIsLength(m, tour.route);
    AlongIsLength(m, path);
    GreedyIsNearest(m, tour.route);
    RouteIsNearOptimal(AsMetric(m), |m|, tour.route, path);
  }

  lemma GreedyIsNearest(m: Matrix, route: seq<int>)
    requires MetricMatrix(m) && InRange(route, |m|) && Greedy(m, route)
    ensures HopsAreNearest(AsMetric(m), route)
  {
    forall i, j | 0 <= i < i + 1 < j < |route| ensures AsMetric(m)(route[i], route[i + 1]) <= AsMetric(m)(route[i], route[j]) {
      assert !Less(m[route[i]][route[j]], m[route[i]][route[i + 1]]);
    }
  }

  lemma BoundIsSmall(m: nat, length: real)
    requires m >= 1 && length >= 0.0
    ensures Bound(m, length) == (1.0 + Harmonic(m - 1)) * length <= m as real * length
  {
    BoundIsHarmonic(m, length);
    HarmonicIsSmall(m - 1);
    MulLe(1.0 + Harmonic(m - 1), m as real, length);
  }

  lemma MulLe(a: real, b: real, x: real)
    requires a <= b && x >= 0.0
    ensures a * x <= b * x
  {
  }
}
