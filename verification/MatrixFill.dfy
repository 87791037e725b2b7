/**
  Distance matrices: services/ortools_distance_cache.py, the choice of a source and the sequential and
  parallel fills.
 */
module MatrixFill {
  import opened Wrappers

  datatype Place = Place(lat: real, lon: real, name: string)

  type Distance = (Place, Place) -> real

  /** What the road service answers for a pair of places; None when the call raises. */
  type RoadService = (Place, Place) -> Option<real>

  /** Rows of distances, in the order of the request. */
  type Matrix = seq<seq<real>>

  function Direct(places: seq<Place>, d: Distance): (m: Matrix)
    ensures |m| == |places| && forall i | 0 <= i < |m| :: m[i] == Row(places, d, i, |places|)
  {
    seq(|places|, i requires 0 <= i < |places| => Row(places, d, i, |places|))
  }

  function Row(places: seq<Place>, d: Distance, i: nat, n: nat): (row: seq<real>)
    requires i < |places| && n <= |places|
    ensures |row| == n
    ensures forall j | 0 <= j < n :: row[j] == if i == j then 0.0 else d(places[i], places[j])
  {
    seq(n, j requires 0 <= j < n => if i == j then 0.0 else d(places[i], places[j]))
  }

  /** A road distance where the service gives a positive one, the geodesic distance elsewhere. */
  function ByRoad(osrm: RoadService, geodesic: Distance): Distance {
    (a, b) => if osrm(a, b).Some? && osrm(a, b).value > 0.0 then osrm(a, b).value else geodesic(a, b)
  }

  /** Nothing from a place to itself; else what the road service answers, if it answers more than zero, or the geodesic distance. */
  predicate IsTravelled(answer: Option<real>, geodesic: real, same: bool, distance: real) {
    if same then distance == 0.0
    else if answer == None || answer.value <= 0.0 then distance == geodesic
    else Some(distance) == answer
  }

  method OsrmDistance(osrm: RoadService, geodesic: Distance, a: Place, b: Place) returns (distance: real)
    ensures distance == ByRoad(osrm, geodesic)(a, b)
  {
    var answer := osrm(a, b);
    if answer.Some? && answer.value > 0.0 {
      return answer.value;
    }
    return geodesic(a, b);
  }

  method CalculateOsrmSequential(places: seq<Place>, osrm: RoadService, geodesic: Distance) returns (matrix: Matrix)
    ensures matrix == Direct(places, ByRoad(osrm, geodesic))
    ensures forall i, j | 0 <= i < |places| && 0 <= j < |places| ::
      IsTravelled(osrm(places[i], places[j]), geodesic(places[i], places[j]), i == j, matrix[i][j])
  {
    ghost var d := ByRoad(osrm, geodesic);
    matrix := [];
    for i := 0 to |places|
      invariant matrix == Direct(places, d)[..i]
    {
      var row := [];
      for j := 0 to |places|
        invariant row == Row(places, d, i, j)
      {
        var distance := 0.0;
        if i != j {
          distance := OsrmDistance(osrm, geodesic, places[i], places[j]);
        }
        row := row + [distance];
      }
      matrix := matrix + [row];
    }
  }

  method CalculateGeodesicMatrix(places: seq<Place>, geodesic: Distance) returns (matrix: Matrix)
    ensures matrix == Direct(places, geodesic)
  {
    matrix := [];
    for i := 0 to |places|
      invariant matrix == Direct(places, geodesic)[..i]
    {
      var row := [];
      for j := 0 to |places|
        invariant row == Row(places, geodesic, i, j)
      {
        row := row + [if i == j then 0.0 else geodesic(places[i], places[j])];
      }
      matrix := matrix + [row];
    }
  }

  // ---------- The parallel fill ----------

  /** What a task answers: its distance and indices, or nothing if it raised. */
  datatype TaskResult = Done(distance: real, i: nat, j: nat) | Failed

  datatype Pair = Pair(i: nat, j: nat)

  /** The value the task of a pair delivers; a failed task leaves the initial zero. */
  function Delivered(places: seq<Place>, d: Distance, fails: Pair -> bool, i: nat, j: nat): real
    requires i < |places| && j < |places|
  {
    if fails(Pair(i, j)) then 0.0 else d(places[i], places[j])
  }

  /** The cell of the parallel matrix: both triangles hold what the task of the upper one delivered. */
  function Cell(places: seq<Place>, d: Distance, fails: Pair -> bool, i: nat, j: nat): real
    requires i < |places| && j < |places|
  {
    if i == j then 0.0
    else if i < j then Delivered(places, d, fails, i, j)
    else Delivered(places, d, fails, j, i)
  }

  ghost predicate ParallelMatrix(places: seq<Place>, d: Distance, fails: Pair -> bool, matrix: array2<real>)
    reads matrix
  {
    && matrix.Length0 == matrix.Length1 == |places|
    && forall i, j | 0 <= i < |places| && 0 <= j < |places| :: matrix[i, j] == Cell(places, d, fails, i, j)
  }

  /** The tasks: each pair of the upper triangle once. */
  ghost predicate UpperTriangle(pairs: seq<Pair>, rows: nat, n: nat) {
    && (forall k | 0 <= k < |pairs| :: pairs[k].i < pairs[k].j < n && pairs[k].i < rows)
    && forall i, j | 0 <= i < j < n && i < rows :: Pair(i, j) in pairs
  }

  method CreateTasks(n: nat) returns (pairs: seq<Pair>)
    ensures UpperTriangle(pairs, n, n)
  {
    pairs := [];
    for i := 0 to n
      invariant UpperTriangle(pairs, i, n)
    {
      ghost var before := pairs;
      for j := i + 1 to n
        invariant forall k | 0 <= k < |pairs| :: pairs[k].i < pairs[k].j < n && pairs[k].i <= i
        invariant forall p | p in before :: p in pairs
        invariant forall k | i < k < j :: Pair(i, k) in pairs
      {
        pairs := pairs + [Pair(i, j)];
      }
    }
  }

  method CalculateOsrmParallel(places: seq<Place>, osrm: RoadService, geodesic: Distance, fails: Pair -> bool)
      returns (matrix: array2<real>)
    ensures fresh(matrix) && ParallelMatrix(places, ByRoad(osrm, geodesic), fails, matrix)
  {
    var pairs := CreateTasks(|places|);
    var results := RunTasks(places, osrm, geodesic, fails, pairs);
    matrix := new real[|places|, |places|]((i, j) => 0.0);
    FillMatrix(matrix, places, ByRoad(osrm, geodesic), fails, pairs, results);
  }

  function Answer(places: seq<Place>, d: Distance, fails: Pair -> bool, pair: Pair): TaskResult
    requires pair.i < |places| && pair.j < |places|
  {
    if fails(pair) then Failed else Done(d(places[pair.i], places[pair.j]), pair.i, pair.j)
  }

  method RunTasks(places: seq<Place>, osrm: RoadService, geodesic: Distance, fails: Pair -> bool, pairs: seq<Pair>)
      returns (results: seq<TaskResult>)
    requires forall k | 0 <= k < |pairs| :: pairs[k].i < |places| && pairs[k].j < |places|
    ensures |results| == |pairs|
    ensures forall k | 0 <= k < |pairs| :: results[k] == Answer(places, ByRoad(osrm, geodesic), fails, pairs[k])
  {
    results := [];
    for k := 0 to |pairs|
      invariant |results| == k
      invariant forall m | 0 <= m < k :: results[m] == Answer(places, ByRoad(osrm, geodesic), fails, pairs[m])
    {
      if fails(pairs[k]) {
        results := results + [Failed];
      } else {
        var distance := OsrmDistance(osrm, geodesic, places[pairs[k].i], places[pairs[k].j]);
        results := results + [Done(distance, pairs[k].i, pairs[k].j)];
      }
    }
  }

  /** The cells written by the first k results; the others still hold zero. */
  ghost predicate Filled(matrix: array2<real>, places: seq<Place>, d: Distance, fails: Pair -> bool, pairs: seq<Pair>, k: nat)
    requires matrix.Length0 == matrix.Length1 == |places| && k <= |pairs|
    reads matrix
  {
    && (forall i | 0 <= i < |places| :: matrix[i, i] == 0.0)
    && forall i, j | 0 <= i < j < |places| :: matrix[i, j] == matrix[j, i]
        == if Pair(i, j) in pairs[..k] then Delivered(places, d, fails, i, j) else 0.0
  }

  method FillMatrix(matrix: array2<real>, places: seq<Place>, ghost d: Distance, ghost fails: Pair -> bool,
      ghost pairs: seq<Pair>, results: seq<TaskResult>)
    requires matrix.Length0 == matrix.Length1 == |places| && |results| == |pairs| && UpperTriangle(pairs, |places|, |places|)
    requires forall i, j | 0 <= i < |places| && 0 <= j < |places| :: matrix[i, j] == 0.0
    requires forall k | 0 <= k < |pairs| :: results[k] == Answer(places, d, fails, pairs[k])
    modifies matrix
    ensures ParallelMatrix(places, d, fails, matrix)
  {
    for k := 0 to |results|
      invariant Filled(matrix, places, d, fails, pairs, k)
    {
      assert pairs[..k + 1] == pairs[..k] + [pairs[k]];
      match results[k]
      case Failed =>
      case Done(distance, i, j) =>
        matrix[i, j] := distance;
        matrix[j, i] := distance;
    }
    assert pairs[..|pairs|] == pairs;
  }

  // ---------- What the matrices promise ----------

  /** A distance that is the same in both directions, on the given places. */
  predicate SymmetricOn(places: seq<Place>, d: Distance) {
    forall i, j | 0 <= i < j < |places| :: d(places[i], places[j]) == d(places[j], places[i])
  }

  /** The roads are as long in both directions, and tasks fail between places at distance zero only. */
  ghost predicate Harmless(places: seq<Place>, d: Distance, fails: Pair -> bool) {
    && SymmetricOn(places, d)
    && forall i, j | 0 <= i < j < |places| && fails(Pair(i, j)) :: d(places[i], places[j]) == 0.0
  }

  /** A parallel matrix is symmetric with a zero diagonal, whatever tasks fail and however lopsided the roads. */
  lemma ParallelIsSymmetric(places: seq<Place>, d: Distance, fails: Pair -> bool, i: nat, j: nat)
    requires i < |places| && j < |places|
    ensures Cell(places, d, fails, i, j) == Cell(places, d, fails, j, i)
    ensures i == j ==> Cell(places, d, fails, i, j) == 0.0
  {
  }

  /**
    The parallel matrix is the sequential one if and only if the roads are as long in both directions and
    tasks fail between places at distance zero only.
   */
  lemma ParallelIsDirectIff(places: seq<Place>, d: Distance, fails: Pair -> bool)
    ensures (forall i, j | 0 <= i < |places| && 0 <= j < |places| :: Cell(places, d, fails, i, j) == Direct(places, d)[i][j])
      <==> Harmless(places, d, fails)
  {
    if forall i, j | 0 <= i < |places| && 0 <= j < |places| :: Cell(places, d, fails, i, j) == Direct(places, d)[i][j] {
      forall i, j | 0 <= i < j < |places|
        ensures d(places[i], places[j]) == d(places[j], places[i])
        ensures fails(Pair(i, j)) ==> d(places[i], places[j]) == 0.0
      {
        assert Cell(places, d, fails, i, j) == Direct(places, d)[i][j];
        assert Cell(places, d, fails, j, i) == Direct(places, d)[j][i];
      }
    }
  }

  /** A failed task spoils its own two cells and no other. */
  lemma FailureIsLocal(places: seq<Place>, d: Distance, fails: Pair -> bool, more: Pair -> bool, failed: Pair, i: nat, j: nat)
    requires i < |places| && j < |places| && failed.i < failed.j < |places|
    requires forall p: Pair :: more(p) <==> fails(p) || p == failed
    ensures Cell(places, d, more, i, j) ==
      if Pair(i, j) == failed || Pair(j, i) == failed then 0.0 else Cell(places, d, fails, i, j)
  {
  }

  // ---------- The choice of a source ----------

  datatype Preference = Auto | PreferOsrm | PreferGeodesic | Other

  datatype Source = Osrm | Geodesic

  datatype Request = Request(places: seq<Place>, preference: Preference)

  /** What computations rely on: the road service if there is one, geodesic distances, and the setting for the parallel fill. */
  datatype Services = Services(osrm: RoadService, geodesic: Distance, hasOsrm: bool, parallel: bool) {
    function Road(): Distance {
      ByRoad(osrm, geodesic)
    }

    /** The distance a source stands for. */
    function By(source: Source): Distance {
      if source == Osrm then Road() else geodesic
    }

    predicate TakesRoads(request: Request) {
      hasOsrm && (request.preference == PreferOsrm || (request.preference == Auto && |request.places| > 5))
    }

    function SourceFor(request: Request): Source {
      if TakesRoads(request) then Osrm else Geodesic
    }

    predicate InParallel(request: Request) {
      TakesRoads(request) && |request.places| > 10 && parallel
    }
  }

  /** The parallel matrix, row by row. */
  function Fill(places: seq<Place>, d: Distance, fails: Pair -> bool): (m: Matrix)
    ensures |m| == |places| && forall i | 0 <= i < |m| :: |m[i]| == |places|
    ensures forall i, j | 0 <= i < |places| && 0 <= j < |places| :: m[i][j] == Cell(places, d, fails, i, j)
  {
    seq(|places|, i requires 0 <= i < |places| =>
      seq(|places|, j requires 0 <= j < |places| => Cell(places, d, fails, i, j)))
  }

  /** The matrix computed for a request when the given tasks fail. */
  function Computed(services: Services, request: Request, fails: Pair -> bool): Matrix {
    if services.InParallel(request) then Fill(request.places, services.Road(), fails)
    else Direct(request.places, services.By(services.SourceFor(request)))
  }

  /**
    Which matrix a request gets: roads are taken when they are preferred, or from the sixth place on when the choice
    is left open; from the eleventh place on their matrix is filled in parallel if that is switched on.
   */
  lemma WhichMatrix(services: Services, request: Request, fails: Pair -> bool)
    ensures var count, road := |request.places|, ByRoad(services.osrm, services.geodesic);
      var roads := services.hasOsrm && (request.preference == PreferOsrm || (request.preference == Auto && count >= 6));
      Computed(services, request, fails) ==
        if !roads then Direct(request.places, services.geodesic)
        else if count >= 11 && services.parallel then Fill(request.places, road, fails)
        else Direct(request.places, road)
  {
  }

  method ChooseSource(count: nat, preference: Preference, hasOsrm: bool) returns (source: Source)
    ensures source == Osrm <==> hasOsrm && (preference == PreferOsrm || (preference == Auto && count > 5))
  {
    var preferred := preference;
    if preferred == Auto {
      if count <= 5 {
        preferred := PreferGeodesic;
      } else if hasOsrm {
        preferred := PreferOsrm;
      } else {
        preferred := PreferGeodesic;
      }
    }
    if preferred == PreferOsrm && hasOsrm {
      return Osrm;
    }
    return Geodesic;
  }

  function RowsOf(cells: array2<real>): (m: Matrix)
    reads cells
    ensures |m| == cells.Length0
    ensures forall i | 0 <= i < |m| :: |m[i]| == cells.Length1 && forall j | 0 <= j < |m[i]| :: m[i][j] == cells[i, j]
  {
    seq(cells.Length0, i requires 0 <= i < cells.Length0 reads cells =>
      seq(cells.Length1, j requires 0 <= j < cells.Length1 reads cells => cells[i, j]))
  }

  method CalculateDistanceMatrix(request: Request, services: Services, fails: Pair -> bool)
      returns (matrix: Matrix, source: Source)
    ensures source == services.SourceFor(request) && matrix == Computed(services, request, fails)
  {
    var places := request.places;
    source := ChooseSource(|places|, request.preference, services.hasOsrm);
    if source == Geodesic {
      matrix := CalculateGeodesicMatrix(places, services.geodesic);
    } else if |places| > 10 && services.parallel {
      var cells := CalculateOsrmParallel(places, services.osrm, services.geodesic, fails);
      matrix := RowsOf(cells);
      SameCells(matrix, Fill(places, services.Road(), fails));
    } else {
      matrix := CalculateOsrmSequential(places, services.osrm, services.geodesic);
    }
  }

  lemma SameCells(m: Matrix, n: Matrix)
    requires |m| == |n| && forall i | 0 <= i < |m| :: |m[i]| == |n[i]|
    requires forall i, j | 0 <= i < |m| && 0 <= j < |m[i]| :: m[i][j] == n[i][j]
    ensures m == n
  {
    forall i | 0 <= i < |m| ensures m[i] == n[i] {
      assert forall j | 0 <= j < |m[i]| :: m[i][j] == n[i][j];
    }
  }

  /** The parallel matrix is the direct one iff the roads are symmetric and the failures harmless. */
  lemma FillIsDirectIff(places: seq<Place>, d: Distance, fails: Pair -> bool)
    ensures Fill(places, d, fails) == Direct(places, d) <==> Harmless(places, d, fails)
  {
    ParallelIsDirectIff(places, d, fails);
    if Harmless(places, d, fails) {
      SameCells(Fill(places, d, fails), Direct(places, d));
    } else {
      var i, j :| 0 <= i < |places| && 0 <= j < |places| && Cell(places, d, fails, i, j) != Direct(places, d)[i][j];
      assert Fill(places, d, fails)[i][j] != Direct(places, d)[i][j];
    }
  }

  /** A request gets the direct matrix of its source unless the parallel fill meets one-way roads or loses tasks. */
  lemma ComputedIsDirectIff(services: Services, request: Request, fails: Pair -> bool)
    ensures Computed(services, request, fails) == Direct(request.places, services.By(services.SourceFor(request)))
      <==> (services.InParallel(request) ==> Harmless(request.places, services.Road(), fails))
  {
    FillIsDirectIff(request.places, services.Road(), fails);
  }
}
