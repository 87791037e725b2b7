/**
  The road graph loaded cell by cell: services/optimized_city2graph_service_clean.py, `_load_partitions`, and
  the eager build of services/hybrid_city2graph_service.py, `_build_optimized_graph`, whose speeds are different.
 */
module RoadGraph {
  import opened Wrappers
  import opened Sequences
  import opened SpeedProfile

  datatype Coordinates = Coordinates(lat: real, lon: real)

  datatype NodeRow = NodeRow(id: int, at: Coordinates)

  datatype EdgeData = EdgeData(from: int, to: int, distance: real, highway: string, maxspeed: MaxSpeed, oneway: bool)

  /** Edges whose limit is not zero. */
  type EdgeRow = e: EdgeData | Moves(e.maxspeed)
    witness EdgeData(0, 0, 0.0, "road", Absent, true)

  /** The two files of a cell; either may be missing. */
  datatype Partition = Partition(nodes: Option<seq<NodeRow>>, edges: Option<seq<EdgeRow>>)

  type Disk = string -> Partition

  datatype Road = Road(distance: real, travelTime: real, highway: string, maxspeed: MaxSpeed)

  /** The road a service makes of a row: the travel time is by its own speeds. */
  function RoadOf(profile: Profile, row: EdgeRow): Road {
    Road(row.distance, TravelTime(profile, row.distance, row.highway, row.maxspeed), row.highway, row.maxspeed)
  }

  /** At this speed in km/h the road takes the time it is given, in seconds for metres. */
  predicate TakesAt(road: Road, speed: real) {
    road.travelTime * speed == 3.6 * road.distance
  }

  /**
    The time the lazy service gives a road: at the posted limit, with 1.60934 km/h to a mile per hour, and the time of
    a road without a limit if it cannot be read.
   */
  lemma LazyRoadTime(row: EdgeRow)
    ensures var road := RoadOf(Clean, row);
      match row.maxspeed
      case Kmh(limit) => TakesAt(road, limit)
      case Mph(limit) => TakesAt(road, 1.60934 * limit)
      case CapitalMph(limit) => TakesAt(road, 1.60934 * limit)
      case Unreadable => road.travelTime == RoadOf(Clean, row.(maxspeed := Absent)).travelTime
      case Absent => TakesAt(road, if row.highway in CLEAN_PROFILES then CLEAN_PROFILES[row.highway] else 50.0)
  {
    TimeTimesSpeed(Clean, row.distance, row.highway, row.maxspeed);
  }

  /** The time the hybrid service gives a road: no limit counts for more than 150 km/h, and one in capital letters not at all. */
  lemma HybridRoadTime(row: EdgeRow)
    ensures var road := RoadOf(Hybrid, row);
      match row.maxspeed
      case Kmh(limit) => TakesAt(road, if limit < 150.0 then limit else 150.0)
      case Mph(limit) => TakesAt(road, if 1.60934 * limit < 150.0 then 1.60934 * limit else 150.0)
      case CapitalMph(_) => road.travelTime == RoadOf(Hybrid, row.(maxspeed := Absent)).travelTime
      case Unreadable => road.travelTime == RoadOf(Hybrid, row.(maxspeed := Absent)).travelTime
      case Absent => TakesAt(road, if row.highway in HYBRID_PROFILES then HYBRID_PROFILES[row.highway] else 40.0)
  {
    TimeTimesSpeed(Hybrid, row.distance, row.highway, row.maxspeed);
  }

  /** A node without coordinates is one that only edges have mentioned. */
  datatype Graph = Graph(nodes: map<int, Option<Coordinates>>, edges: map<(int, int), Road>, coords: map<int, Coordinates>)

  // ---------- Writes ----------

  datatype Write = AddNode(id: int, at: Coordinates) | AddEdge(from: int, to: int, road: Road)

  function WithNode(nodes: map<int, Option<Coordinates>>, id: int): map<int, Option<Coordinates>> {
    if id in nodes then nodes else nodes[id := None]
  }

  function Written(g: Graph, w: Write): Graph {
    match w
    case AddNode(id, at) => Graph(g.nodes[id := Some(at)], g.edges, g.coords[id := at])
    case AddEdge(from, to, road) => Graph(WithNode(WithNode(g.nodes, from), to), g.edges[(from, to) := road], g.coords)
  }

  function NodeWrites(rows: seq<NodeRow>): seq<Write> {
    if rows == [] then []
    else NodeWrites(rows[..|rows| - 1]) + [AddNode(rows[|rows| - 1].id, rows[|rows| - 1].at)]
  }

  /** An edge that is not one-way is written in both directions. */
  function EdgeWrite(profile: Profile, row: EdgeRow): seq<Write> {
    [AddEdge(row.from, row.to, RoadOf(profile, row))] + if row.oneway then [] else [AddEdge(row.to, row.from, RoadOf(profile, row))]
  }

  function EdgeWrites(profile: Profile, rows: seq<EdgeRow>): seq<Write> {
    if rows == [] then [] else EdgeWrites(profile, rows[..|rows| - 1]) + EdgeWrite(profile, rows[|rows| - 1])
  }

  function NodeRows(p: Partition): seq<NodeRow> {
    if p.nodes.Some? then p.nodes.value else []
  }

  function EdgeRows(p: Partition): seq<EdgeRow> {
    if p.edges.Some? then p.edges.value else []
  }

  function CellWrites(profile: Profile, p: Partition): seq<Write> {
    NodeWrites(NodeRows(p)) + EdgeWrites(profile, EdgeRows(p))
  }

  /** The writes of cells in the order they are read. */
  function Writes(profile: Profile, disk: Disk, order: seq<string>): seq<Write> {
    if order == [] then [] else Writes(profile, disk, order[..|order| - 1]) + CellWrites(profile, disk(order[|order| - 1]))
  }

  /** The graph after some writes, from a graph with the coordinates of the spatial index only. */
  function Built(index: map<int, Coordinates>, writes: seq<Write>): Graph {
    if writes == [] then Graph(map[], map[], index)
    else Written(Built(index, writes[..|writes| - 1]), writes[|writes| - 1])
  }

  function Elements(order: seq<string>): set<string> {
    set cell | cell in order
  }

  lemma {:induction false} BuiltOneMore(index: map<int, Coordinates>, writes: seq<Write>, w: Write)
    ensures Built(index, writes + [w]) == Written(Built(index, writes), w)
  {
    assert (writes + [w])[..|writes|] == writes;
  }

  /** The order lists the loaded cells, each once. */
  ghost predicate Listed(order: seq<string>, loaded: set<string>) {
    loaded == Elements(order) && Distinct(order)
  }

  function CountNodes(disk: Disk, order: seq<string>): int {
    if order == [] then 0 else CountNodes(disk, order[..|order| - 1]) + |NodeRows(disk(order[|order| - 1]))|
  }

  function CountEdges(disk: Disk, order: seq<string>): int {
    if order == [] then 0 else CountEdges(disk, order[..|order| - 1]) + |EdgeRows(disk(order[|order| - 1]))|
  }

  /** So many rows of nodes and of edges were read since the order was `before`. */
  ghost predicate Counted(disk: Disk, before: seq<string>, after: seq<string>, nodes: nat, edges: nat) {
    && before <= after
    && nodes == CountNodes(disk, after) - CountNodes(disk, before)
    && edges == CountEdges(disk, after) - CountEdges(disk, before)
  }

  lemma OneMoreListed(order: seq<string>, loaded: set<string>, cell: string)
    requires Listed(order, loaded) && cell !in loaded
    ensures Listed(order + [cell], loaded + {cell})
  {
  }

  lemma OneMoreCounted(disk: Disk, order: seq<string>, cell: string)
    ensures Counted(disk, order, order + [cell], |NodeRows(disk(cell))|, |EdgeRows(disk(cell))|)
  {
    assert (order + [cell])[..|order|] == order;
  }

  lemma WritesOfOneMore(profile: Profile, disk: Disk, order: seq<string>, cell: string)
    ensures Writes(profile, disk, order + [cell]) == Writes(profile, disk, order) + CellWrites(profile, disk(cell))
  {
    assert (order + [cell])[..|order|] == order;
  }

  lemma AppendBoth<T>(a: seq<T>, b: seq<T>, c: seq<T>)
    ensures a + (b + c) == a + b + c
  {
  }

  lemma OneMoreCell(profile: Profile, disk: Disk, order: seq<string>, cell: string)
    ensures Writes(profile, disk, order + [cell])
      == Writes(profile, disk, order) + NodeWrites(NodeRows(disk(cell))) + EdgeWrites(profile, EdgeRows(disk(cell)))
  {
    WritesOfOneMore(profile, disk, order, cell);
    AppendBoth(Writes(profile, disk, order), NodeWrites(NodeRows(disk(cell))), EdgeWrites(profile, EdgeRows(disk(cell))));
  }

  /** The effect of reading a cell's rows, as far as the list of loaded cells is concerned. */
  lemma CellLoaded(disk: Disk, index: map<int, Coordinates>, order: seq<string>, loaded: set<string>, cell: string,
      g: Graph, nodes: nat, edges: nat)
    requires Listed(order, loaded) && cell !in loaded
    requires g == Built(index, Writes(Clean, disk, order) + NodeWrites(NodeRows(disk(cell))) + EdgeWrites(Clean, EdgeRows(disk(cell))))
    requires nodes == |NodeRows(disk(cell))| && edges == |EdgeRows(disk(cell))|
    ensures g == Built(index, Writes(Clean, disk, order + [cell])) && Listed(order + [cell], loaded + {cell})
    ensures Counted(disk, order, order + [cell], nodes, edges)
  {
    OneMoreCell(Clean, disk, order, cell);
    OneMoreListed(order, loaded, cell);
    OneMoreCounted(disk, order, cell);
  }

  lemma CountedTwice(disk: Disk, a: seq<string>, b: seq<string>, c: seq<string>, m: nat, n: nat, k: nat, l: nat)
    requires Counted(disk, a, b, m, n) && Counted(disk, b, c, k, l)
    ensures Counted(disk, a, c, m + k, n + l)
  {
  }

  // ---------- The service ----------

  class OptimizedService {
    const disk: Disk
    const index: map<int, Coordinates>
    var nodes: map<int, Option<Coordinates>>
    var edges: map<(int, int), Road>
    var coords: map<int, Coordinates>
    var loaded: set<string>
    var cellsCache: map<set<string>, (nat, nat)>
    /** The cells in the order they were read. */
    ghost var order: seq<string>

    function Roads(): Graph
      reads this
    {
      Graph(nodes, edges, coords)
    }

    /** The graph is what the loaded cells write, each of them read once. */
    ghost predicate Current()
      reads this
    {
      Roads() == Built(index, Writes(Clean, disk, order)) && Listed(order, loaded)
    }

    /** Besides, a request remembered in the cache is loaded. */
    ghost predicate Valid()
      reads this
    {
      Current() && forall cells | cells in cellsCache :: cells <= loaded
    }

    constructor (disk: Disk, index: map<int, Coordinates>)
      ensures Valid() && this.disk == disk && this.index == index && order == [] && cellsCache == map[]
    {
      this.disk, this.index := disk, index;
      nodes, edges, coords, loaded, cellsCache, order := map[], map[], index, {}, map[], [];
    }

    method LoadPartitions(cells: set<string>) returns (nodesLoaded: nat, edgesLoaded: nat)
      requires Valid()
      modifies this
      ensures Valid() && loaded == old(loaded) + cells && old(order) <= order
      ensures cells in cellsCache && cellsCache == old(cellsCache)[cells := (nodesLoaded, edgesLoaded)]
      ensures cells in old(cellsCache) ==> order == old(order) && Roads() == old(Roads())
      ensures cells !in old(cellsCache) ==> Counted(disk, old(order), order, nodesLoaded, edgesLoaded)
    {
      if cells in cellsCache {
        return cellsCache[cells].0, cellsCache[cells].1;
      }
      nodesLoaded, edgesLoaded := LoadMissing(cells);
      cellsCache := cellsCache[cells := (nodesLoaded, edgesLoaded)];
    }

    method LoadMissing(cells: set<string>) returns (nodesLoaded: nat, edgesLoaded: nat)
      requires Current()
      modifies this`nodes, this`edges, this`coords, this`loaded, this`order
      ensures Current() && loaded == old(loaded) + cells && Counted(disk, old(order), order, nodesLoaded, edgesLoaded)
    {
      nodesLoaded, edgesLoaded := 0, 0;
      var left := cells;
      while left != {}
        invariant Current() && left <= cells && cells - left <= loaded
        invariant old(loaded) <= loaded <= old(loaded) + cells
        invariant Counted(disk, old(order), order, nodesLoaded, edgesLoaded)
        decreases left
      {
        var cell :| cell in left;
        left := left - {cell};
        ghost var before := order;
        var n, e := LoadIfMissing(cell);
        CountedTwice(disk, old(order), before, order, nodesLoaded, edgesLoaded, n, e);
        nodesLoaded, edgesLoaded := nodesLoaded + n, edgesLoaded + e;
      }
    }

    method LoadIfMissing(cell: string) returns (nodesLoaded: nat, edgesLoaded: nat)
      requires Current()
      modifies this`nodes, this`edges, this`coords, this`loaded, this`order
      ensures Current() && loaded == old(loaded) + {cell} && Counted(disk, old(order), order, nodesLoaded, edgesLoaded)
    {
      if cell in loaded {
        return 0, 0;
      }
      nodesLoaded, edgesLoaded := LoadCell(cell);
    }

    method LoadCell(cell: string) returns (nodesLoaded: nat, edgesLoaded: nat)
      requires Current() && cell !in loaded
      modifies this`nodes, this`edges, this`coords, this`loaded, this`order
      ensures Current() && loaded == old(loaded) + {cell} && Counted(disk, old(order), order, nodesLoaded, edgesLoaded)
    {
      nodesLoaded, edgesLoaded := LoadRows(NodeRows(disk(cell)), EdgeRows(disk(cell)), Writes(Clean, disk, order));
      CellLoaded(disk, index, order, loaded, cell, Roads(), nodesLoaded, edgesLoaded);
      loaded := loaded + {cell};
      order := order + [cell];
    }

    method LoadRows(nodeRows: seq<NodeRow>, edgeRows: seq<EdgeRow>, ghost before: seq<Write>)
        returns (nodesLoaded: nat, edgesLoaded: nat)
      requires Roads() == Built(index, before)
      modifies this`nodes, this`edges, this`coords
      ensures Roads() == Built(index, before + NodeWrites(nodeRows) + EdgeWrites(Clean, edgeRows))
      ensures nodesLoaded == |nodeRows| && edgesLoaded == |edgeRows|
    {
      nodesLoaded := LoadNodes(nodeRows, before);
      edgesLoaded := LoadEdges(edgeRows, before + NodeWrites(nodeRows));
    }

    method LoadNodes(rows: seq<NodeRow>, ghost before: seq<Write>) returns (count: nat)
      requires Roads() == Built(index, before)
      modifies this`nodes, this`coords
      ensures Roads() == Built(index, before + NodeWrites(rows)) && count == |rows|
    {
      count := 0;
      assert before + [] == before;
      for i := 0 to |rows|
        invariant count == i && edges == old(edges)
        invariant Roads() == Built(index, before + NodeWrites(rows[..i]))
      {
        assert rows[..i + 1][..i] == rows[..i];
        nodes := nodes[rows[i].id := Some(rows[i].at)];
        coords := coords[rows[i].id := rows[i].at];
        count := count + 1;
        BuiltOneMore(index, before + NodeWrites(rows[..i]), AddNode(rows[i].id, rows[i].at));
        assert before + NodeWrites(rows[..i + 1]) == before + NodeWrites(rows[..i]) + [AddNode(rows[i].id, rows[i].at)];
      }
      assert rows[..|rows|] == rows;
    }

    method LoadEdges(rows: seq<EdgeRow>, ghost before: seq<Write>) returns (count: nat)
      requires Roads() == Built(index, before)
      modifies this`nodes, this`edges
      ensures Roads() == Built(index, before + EdgeWrites(Clean, rows)) && count == |rows|
    {
      count := 0;
      assert before + [] == before;
      for i := 0 to |rows|
        invariant count == i
        invariant Roads() == Built(index, before + EdgeWrites(Clean, rows[..i]))
      {
        assert before + EdgeWrites(Clean, rows[..i + 1]) == before + EdgeWrites(Clean, rows[..i]) + EdgeWrite(Clean, rows[i]) by {
          assert rows[..i + 1][..i] == rows[..i];
        }
        LoadEdge(rows[i], before + EdgeWrites(Clean, rows[..i]));
        count := count + 1;
      }
      assert rows[..|rows|] == rows;
    }

    method LoadEdge(row: EdgeRow, ghost before: seq<Write>)
      requires Roads() == Built(index, before)
      modifies this`nodes, this`edges
      ensures Roads() == Built(index, before + EdgeWrite(Clean, row))
    {
      Connect(row.from, row.to, RoadOf(Clean, row), before);
      if !row.oneway {
        Connect(row.to, row.from, RoadOf(Clean, row), before + [AddEdge(row.from, row.to, RoadOf(Clean, row))]);
        assert before + EdgeWrite(Clean, row)
          == before + [AddEdge(row.from, row.to, RoadOf(Clean, row))] + [AddEdge(row.to, row.from, RoadOf(Clean, row))];
      } else {
        assert before + EdgeWrite(Clean, row) == before + [AddEdge(row.from, row.to, RoadOf(Clean, row))];
      }
    }

    /** The library's `add_edge`: unknown ends become nodes without coordinates. */
    method Connect(from: int, to: int, road: Road, ghost before: seq<Write>)
      requires Roads() == Built(index, before)
      modifies this`nodes, this`edges
      ensures Roads() == Built(index, before + [AddEdge(from, to, road)])
    {
      nodes := WithNode(WithNode(nodes, from), to);
      edges := edges[(from, to) := road];
      BuiltOneMore(index, before, AddEdge(from, to, road));
    }
  }

  // ---------- Lazy loading is eager loading ----------

  predicate NodeWritten(writes: seq<Write>, id: int) {
    exists w | w in writes :: w.AddNode? && w.id == id
  }

  predicate Mentioned(writes: seq<Write>, id: int) {
    exists w | w in writes :: w.AddEdge? && (w.from == id || w.to == id)
  }

  predicate EdgeWritten(writes: seq<Write>, from: int, to: int) {
    exists w | w in writes :: w.AddEdge? && w.from == from && w.to == to
  }

  ghost predicate ReflectsNodes(writes: seq<Write>, nodes: map<int, Option<Coordinates>>) {
    && (forall id :: id in nodes <==> NodeWritten(writes, id) || Mentioned(writes, id))
    && (forall id | id in nodes :: nodes[id].Some? <==> NodeWritten(writes, id))
    && (forall id | id in nodes && nodes[id].Some? :: AddNode(id, nodes[id].value) in writes)
  }

  ghost predicate ReflectsEdges(writes: seq<Write>, edges: map<(int, int), Road>) {
    && (forall from, to :: (from, to) in edges <==> EdgeWritten(writes, from, to))
    && (forall from, to | (from, to) in edges :: AddEdge(from, to, edges[(from, to)]) in writes)
  }

  ghost predicate ReflectsCoordinates(index: map<int, Coordinates>, writes: seq<Write>, coords: map<int, Coordinates>) {
    && (forall id :: id in coords <==> id in index || NodeWritten(writes, id))
    && (forall id | id in coords ::
        if NodeWritten(writes, id) then AddNode(id, coords[id]) in writes else coords[id] == index[id])
  }

  /** What a graph holds is what some write put there. */
  ghost predicate Reflects(index: map<int, Coordinates>, writes: seq<Write>, g: Graph) {
    ReflectsNodes(writes, g.nodes) && ReflectsEdges(writes, g.edges) && ReflectsCoordinates(index, writes, g.coords)
  }

  lemma OneMoreWrite(writes: seq<Write>, w: Write)
    ensures forall v :: v in writes + [w] <==> v in writes || v == w
    ensures forall id :: NodeWritten(writes + [w], id) <==> NodeWritten(writes, id) || (w.AddNode? && w.id == id)
    ensures forall id :: Mentioned(writes + [w], id) <==> Mentioned(writes, id) || (w.AddEdge? && (w.from == id || w.to == id))
    ensures forall from, to :: EdgeWritten(writes + [w], from, to) <==>
      EdgeWritten(writes, from, to) || (w.AddEdge? && w.from == from && w.to == to)
  {
    assert forall v :: v in writes + [w] <==> v in writes || v == w;
  }

  lemma WriteKeepsNodes(index: map<int, Coordinates>, writes: seq<Write>, w: Write, g: Graph)
    requires ReflectsNodes(writes, g.nodes)
    ensures ReflectsNodes(writes + [w], Written(g, w).nodes)
  {
    OneMoreWrite(writes, w);
  }

  lemma WriteKeepsEdges(writes: seq<Write>, w: Write, g: Graph)
    requires ReflectsEdges(writes, g.edges)
    ensures ReflectsEdges(writes + [w], Written(g, w).edges)
  {
    OneMoreWrite(writes, w);
  }

  lemma WriteKeepsCoordinates(index: map<int, Coordinates>, writes: seq<Write>, w: Write, g: Graph)
    requires ReflectsCoordinates(index, writes, g.coords)
    ensures ReflectsCoordinates(index, writes + [w], Written(g, w).coords)
  {
    OneMoreWrite(writes, w);
  }

  lemma {:induction false} BuiltReflects(index: map<int, Coordinates>, writes: seq<Write>)
    ensures Reflects(index, writes, Built(index, writes))
  {
    if writes != [] {
      var init, last := writes[..|writes| - 1], writes[|writes| - 1];
      BuiltReflects(index, init);
      assert writes == init + [last];
      WriteKeepsNodes(index, init, last, Built(index, init));
      WriteKeepsEdges(init, last, Built(index, init));
      WriteKeepsCoordinates(index, init, last, Built(index, init));
    }
  }

  /** No two writes disagree on the coordinates of a node or on the data of an edge. */
  ghost predicate Agree(writes: seq<Write>) {
    && (forall id, a, b | AddNode(id, a) in writes && AddNode(id, b) in writes :: a == b)
    && (forall from, to, a, b | AddEdge(from, to, a) in writes && AddEdge(from, to, b) in writes :: a == b)
  }

  /** The same writes in any order make the same graph, if they agree; the same nodes and edges in any case. */
  lemma SameWritesSameGraph(index: map<int, Coordinates>, a: seq<Write>, b: seq<Write>)
    requires forall w :: w in a <==> w in b
    ensures Built(index, a).nodes.Keys == Built(index, b).nodes.Keys && Built(index, a).edges.Keys == Built(index, b).edges.Keys
    ensures Agree(a) ==> Built(index, a) == Built(index, b)
  {
    BuiltReflects(index, a);
    BuiltReflects(index, b);
    SameNodes(a, Built(index, a).nodes, b, Built(index, b).nodes);
    SameEdges(a, Built(index, a).edges, b, Built(index, b).edges);
    SameCoordinates(index, a, Built(index, a).coords, b, Built(index, b).coords);
  }

  lemma SameNodes(a: seq<Write>, m: map<int, Option<Coordinates>>, b: seq<Write>, n: map<int, Option<Coordinates>>)
    requires ReflectsNodes(a, m) && ReflectsNodes(b, n) && forall w :: w in a <==> w in b
    ensures m.Keys == n.Keys && (Agree(a) ==> m == n)
  {
    forall id ensures NodeWritten(a, id) == NodeWritten(b, id) && Mentioned(a, id) == Mentioned(b, id) {}
    forall id ensures id in m <==> id in n {
      assert NodeWritten(a, id) == NodeWritten(b, id) && Mentioned(a, id) == Mentioned(b, id);
    }
    if Agree(a) {
      forall id | id in m ensures m[id] == n[id] {
        assert NodeWritten(a, id) == NodeWritten(b, id);
      }
      assert m == n;
    }
  }

  lemma SameEdges(a: seq<Write>, m: map<(int, int), Road>, b: seq<Write>, n: map<(int, int), Road>)
    requires ReflectsEdges(a, m) && ReflectsEdges(b, n) && forall w :: w in a <==> w in b
    ensures m.Keys == n.Keys && (Agree(a) ==> m == n)
  {
    forall from, to ensures EdgeWritten(a, from, to) == EdgeWritten(b, from, to) {}
    forall key: (int, int) ensures key in m <==> key in n {
      SameEdge(a, m, b, n, key.0, key.1);
    }
    if Agree(a) {
      forall key: (int, int) | key in m ensures m[key] == n[key] {
        SameEdge(a, m, b, n, key.0, key.1);
      }
      assert m == n;
    }
  }

  lemma SameEdge(a: seq<Write>, m: map<(int, int), Road>, b: seq<Write>, n: map<(int, int), Road>, from: int, to: int)
    requires ReflectsEdges(a, m) && ReflectsEdges(b, n) && forall w :: w in a <==> w in b
    requires EdgeWritten(a, from, to) == EdgeWritten(b, from, to)
    ensures (from, to) in m <==> (from, to) in n
    ensures Agree(a) && (from, to) in m ==> m[(from, to)] == n[(from, to)]
  {
    if (from, to) in m && (from, to) in n {
      assert AddEdge(from, to, m[(from, to)]) in a && AddEdge(from, to, n[(from, to)]) in b;
    }
  }

  lemma SameCoordinates(index: map<int, Coordinates>, a: seq<Write>, m: map<int, Coordinates>, b: seq<Write>, n: map<int, Coordinates>)
    requires ReflectsCoordinates(index, a, m) && ReflectsCoordinates(index, b, n) && forall w :: w in a <==> w in b
    ensures m.Keys == n.Keys && (Agree(a) ==> m == n)
  {
    forall id ensures NodeWritten(a, id) == NodeWritten(b, id) {}
    forall id ensures id in m <==> id in n {
      assert NodeWritten(a, id) == NodeWritten(b, id);
    }
    if Agree(a) {
      forall id | id in m ensures m[id] == n[id] {}
      assert m == n;
    }
  }

  lemma {:induction false} CellIsWritten(profile: Profile, disk: Disk, order: seq<string>, cell: string, w: Write)
    requires cell in order && w in CellWrites(profile, disk(cell))
    ensures w in Writes(profile, disk, order)
  {
    if cell != order[|order| - 1] {
      CellIsWritten(profile, disk, order[..|order| - 1], cell, w);
    }
  }

  lemma {:induction false} WriteHasCell(profile: Profile, disk: Disk, order: seq<string>, w: Write) returns (cell: string)
    requires w in Writes(profile, disk, order)
    ensures cell in order && w in CellWrites(profile, disk(cell))
  {
    if w in CellWrites(profile, disk(order[|order| - 1])) {
      cell := order[|order| - 1];
    } else {
      cell := WriteHasCell(profile, disk, order[..|order| - 1], w);
    }
  }

  lemma MoreCellsMoreWrites(profile: Profile, disk: Disk, a: seq<string>, b: seq<string>)
    requires forall cell | cell in a :: cell in b
    ensures forall w | w in Writes(profile, disk, a) :: w in Writes(profile, disk, b)
  {
    forall w | w in Writes(profile, disk, a) ensures w in Writes(profile, disk, b) {
      var cell := WriteHasCell(profile, disk, a, w);
      CellIsWritten(profile, disk, b, cell, w);
    }
  }

  /**
    However the cells were requested, the graph has the nodes and edges of one eager build from all of them,
    and is that graph if the cells' files agree where they overlap.
   */
  lemma LazyIsEager(profile: Profile, disk: Disk, index: map<int, Coordinates>, lazy: seq<string>, eager: seq<string>)
    requires Elements(lazy) == Elements(eager)
    ensures var a, b := Built(index, Writes(profile, disk, lazy)), Built(index, Writes(profile, disk, eager));
      && a.nodes.Keys == b.nodes.Keys && a.edges.Keys == b.edges.Keys
      && (Agree(Writes(profile, disk, eager)) ==> a == b)
  {
    assert forall cell :: cell in lazy <==> cell in Elements(lazy);
    assert forall cell :: cell in eager <==> cell in Elements(eager);
    MoreCellsMoreWrites(profile, disk, lazy, eager);
    MoreCellsMoreWrites(profile, disk, eager, lazy);
    SameWritesSameGraph(index, Writes(profile, disk, eager), Writes(profile, disk, lazy));
  }

  // ---------- When the order of loading does not matter ----------

  /** What a cell's own rows leave behind. */
  function OfCell(profile: Profile, disk: Disk, cell: string): Graph {
    Built(map[], CellWrites(profile, disk(cell)))
  }

  function RoadsOf(profile: Profile, disk: Disk): string -> map<(int, int), Road> {
    cell => OfCell(profile, disk, cell).edges
  }

  function PlacesOf(profile: Profile, disk: Disk): string -> map<int, Coordinates> {
    cell => OfCell(profile, disk, cell).coords
  }

  /** Maps laid over each other, the last one on top. */
  function Layered<K, V>(order: seq<string>, f: string -> map<K, V>): map<K, V> {
    if order == [] then map[] else Layered(order[..|order| - 1], f) + f(order[|order| - 1])
  }

  /** Two maps do not disagree on any key. */
  ghost predicate Compatible<K(!new), V>(m: map<K, V>, n: map<K, V>) {
    forall key | key in m && key in n :: m[key] == n[key]
  }

  ghost predicate AllCompatible<K(!new), V>(order: seq<string>, f: string -> map<K, V>) {
    forall a, b | a in order && b in order :: Compatible(f(a), f(b))
  }

  ghost predicate SameInAnyOrder<K, V>(order: seq<string>, f: string -> map<K, V>) {
    forall other | multiset(other) == multiset(order) :: Layered(other, f) == Layered(order, f)
  }

  lemma {:induction false} LayeredHolds<K, V>(order: seq<string>, f: string -> map<K, V>, key: K)
    ensures key in Layered(order, f) <==> exists cell | cell in order :: key in f(cell)
    ensures key in Layered(order, f) ==> exists cell | cell in order :: key in f(cell) && f(cell)[key] == Layered(order, f)[key]
  {
    if order != [] {
      var init, last := order[..|order| - 1], order[|order| - 1];
      LayeredHolds(init, f, key);
      assert order == init + [last];
    }
  }

  lemma CompatibleLayers<K(!new), V>(order: seq<string>, other: seq<string>, f: string -> map<K, V>)
    requires AllCompatible(order, f) && multiset(other) == multiset(order)
    ensures Layered(other, f) == Layered(order, f)
  {
    var m, n := Layered(order, f), Layered(other, f);
    forall cell ensures cell in order <==> cell in other {
      assert cell in multiset(order) <==> cell in multiset(other);
    }
    forall key ensures (key in m <==> key in n) && (key in m ==> m[key] == n[key]) {
      LayeredHolds(order, f, key);
      LayeredHolds(other, f, key);
      if key in m {
        var a :| a in order && key in f(a) && f(a)[key] == m[key];
        var b :| b in other && key in f(b) && f(b)[key] == n[key];
        assert Compatible(f(a), f(b));
      }
    }
  }

  lemma LastLayer<K, V>(order: seq<string>, cell: string, f: string -> map<K, V>)
    ensures Layered(order + [cell], f) == Layered(order, f) + f(cell)
  {
    assert (order + [cell])[..|order|] == order;
  }

  lemma TwoAtTheEnd(order: seq<string>, a: string, b: string) returns (others: seq<string>)
    requires a in order && b in order && a != b
    ensures multiset(others + [a] + [b]) == multiset(order) && multiset(others + [b] + [a]) == multiset(order)
  {
    var i :| 0 <= i < |order| && order[i] == a;
    var rest := Without(order, i);
    MultisetSplits(order, i);
    assert b in multiset(order);
    var j := IndexOf(rest, b);
    others := Without(rest, j);
    MultisetSplits(rest, j);
  }

  /** Cells that come last leave their own values. */
  lemma LastShows<K(!new), V>(order: seq<string>, a: string, b: string, f: string -> map<K, V>)
    requires SameInAnyOrder(order, f) && a in order && b in order && a != b
    ensures Compatible(f(a), f(b))
  {
    var others := TwoAtTheEnd(order, a, b);
    LastLayer(others + [a], b, f);
    LastLayer(others + [b], a, f);
    assert Layered(others + [a] + [b], f) == Layered(order, f) == Layered(others + [b] + [a], f);
    SameTop(Layered(others + [a], f), f(b), Layered(others + [b], f), f(a));
  }

  lemma SameTop<K(!new), V>(m: map<K, V>, top: map<K, V>, n: map<K, V>, other: map<K, V>)
    requires m + top == n + other
    ensures Compatible(other, top)
  {
    forall key | key in other && key in top ensures other[key] == top[key] {
      assert (m + top)[key] == top[key] && (n + other)[key] == other[key];
    }
  }

  lemma SameInAnyOrderIff<K(!new), V>(order: seq<string>, f: string -> map<K, V>)
    ensures SameInAnyOrder(order, f) <==> AllCompatible(order, f)
  {
    if AllCompatible(order, f) {
      forall other | multiset(other) == multiset(order) ensures Layered(other, f) == Layered(order, f) {
        CompatibleLayers(order, other, f);
      }
    }
    if SameInAnyOrder(order, f) {
      forall a, b | a in order && b in order ensures Compatible(f(a), f(b)) {
        if a != b {
          LastShows(order, a, b, f);
        }
      }
    }
  }

  /** Writing on top of a graph lays the written edges and coordinates over its own. */
  lemma {:induction false} WritesLayer(index: map<int, Coordinates>, a: seq<Write>, b: seq<Write>)
    ensures Built(index, a + b).edges == Built(index, a).edges + Built(map[], b).edges
    ensures Built(index, a + b).coords == Built(index, a).coords + Built(map[], b).coords
  {
    if b == [] {
      assert a + b == a;
    } else {
      var init, last := b[..|b| - 1], b[|b| - 1];
      WritesLayer(index, a, init);
      assert (a + b)[..|a + b| - 1] == a + init;
      WriteLayers(Built(index, a), Built(map[], init), Built(index, a + init), last);
    }
  }

  lemma WriteLayers(g: Graph, h: Graph, both: Graph, w: Write)
    requires both.edges == g.edges + h.edges && both.coords == g.coords + h.coords
    ensures Written(both, w).edges == g.edges + Written(h, w).edges && Written(both, w).coords == g.coords + Written(h, w).coords
  {
    match w
    case AddNode(id, at) =>
      assert (g.coords + h.coords)[id := at] == g.coords + h.coords[id := at];
    case AddEdge(from, to, road) =>
      assert (g.edges + h.edges)[(from, to) := road] == g.edges + h.edges[(from, to) := road];
  }

  lemma {:induction false} CellsLayer(profile: Profile, disk: Disk, order: seq<string>)
    ensures Built(map[], Writes(profile, disk, order)).edges == Layered(order, RoadsOf(profile, disk))
    ensures Built(map[], Writes(profile, disk, order)).coords == Layered(order, PlacesOf(profile, disk))
  {
    if order != [] {
      CellsLayer(profile, disk, order[..|order| - 1]);
      WritesLayer(map[], Writes(profile, disk, order[..|order| - 1]), CellWrites(profile, disk(order[|order| - 1])));
    }
  }

  /** Any two of the cells leave the same coordinates and the same roads where they overlap. */
  ghost predicate CellsAgree(profile: Profile, disk: Disk, order: seq<string>) {
    && AllCompatible(order, RoadsOf(profile, disk))
    && AllCompatible(order, PlacesOf(profile, disk))
  }

  /** A node has coordinates in the graph exactly if they are known. */
  ghost predicate NodesMatch(g: Graph) {
    forall id :: (id in g.coords <==> id in g.nodes && g.nodes[id].Some?) && (id in g.coords ==> g.nodes[id] == Some(g.coords[id]))
  }

  lemma WriteKeepsMatch(g: Graph, w: Write)
    requires NodesMatch(g)
    ensures NodesMatch(Written(g, w))
  {
  }

  lemma {:induction false} NodesHaveCoordinates(writes: seq<Write>)
    ensures NodesMatch(Built(map[], writes))
  {
    if writes != [] {
      NodesHaveCoordinates(writes[..|writes| - 1]);
      WriteKeepsMatch(Built(map[], writes[..|writes| - 1]), writes[|writes| - 1]);
    }
  }

  lemma MatchingGraphs(g: Graph, h: Graph)
    requires NodesMatch(g) && NodesMatch(h) && g.nodes.Keys == h.nodes.Keys
    ensures g.nodes == h.nodes <==> g.coords == h.coords
  {
    if g.coords == h.coords {
      forall id | id in g.nodes ensures g.nodes[id] == h.nodes[id] {
        assert id in g.coords <==> id in h.coords;
      }
      assert g.nodes == h.nodes;
    }
    if g.nodes == h.nodes {
      forall id ensures id in g.coords <==> id in h.coords {
        assert id in g.coords <==> id in g.nodes && g.nodes[id].Some?;
      }
      forall id | id in g.coords ensures g.coords[id] == h.coords[id] {
        assert g.nodes[id] == Some(g.coords[id]) && h.nodes[id] == Some(h.coords[id]);
      }
      assert g.coords == h.coords;
    }
  }

  /** Whatever coordinates the index has brought, the graph is the same in whatever order the given cells are loaded. */
  ghost predicate OrderIsFree(profile: Profile, disk: Disk, index: map<int, Coordinates>, order: seq<string>) {
    forall other | multiset(other) == multiset(order) :: SameGraph(profile, disk, index, other, order)
  }

  ghost predicate SameGraph(profile: Profile, disk: Disk, index: map<int, Coordinates>, a: seq<string>, b: seq<string>) {
    Built(index, Writes(profile, disk, a)) == Built(index, Writes(profile, disk, b))
  }

  lemma SameGraphIff(index: map<int, Coordinates>, a: seq<Write>, b: seq<Write>)
    requires Built(index, a).nodes.Keys == Built(index, b).nodes.Keys
    ensures Built(index, a) == Built(index, b)
      <==> Built(map[], a).edges == Built(map[], b).edges && Built(map[], a).coords == Built(map[], b).coords
  {
    IndexIsKept(index, a);
    IndexIsKept(index, b);
    NodesHaveCoordinates(a);
    NodesHaveCoordinates(b);
    MatchingGraphs(Built(map[], a), Built(map[], b));
  }

  /** The same roads and places are on top in both orders. */
  ghost predicate SameLayers(profile: Profile, disk: Disk, a: seq<string>, b: seq<string>) {
    && Layered(a, RoadsOf(profile, disk)) == Layered(b, RoadsOf(profile, disk))
    && Layered(a, PlacesOf(profile, disk)) == Layered(b, PlacesOf(profile, disk))
  }

  lemma SameOrderIff(profile: Profile, disk: Disk, index: map<int, Coordinates>, a: seq<string>, b: seq<string>)
    requires multiset(a) == multiset(b)
    ensures SameGraph(profile, disk, index, a, b) <==> SameLayers(profile, disk, a, b)
  {
    forall cell ensures cell in a <==> cell in b {
      assert cell in multiset(a) <==> cell in multiset(b);
    }
    assert Elements(a) == Elements(b);
    LazyIsEager(profile, disk, index, a, b);
    SameGraphIff(index, Writes(profile, disk, a), Writes(profile, disk, b));
    CellsLayer(profile, disk, a);
    CellsLayer(profile, disk, b);
  }

  /** The whole graph is the same in every order of loading if and only if any two cells agree on what each leaves behind. */
  lemma OrderIsFreeIff(profile: Profile, disk: Disk, index: map<int, Coordinates>, order: seq<string>)
    ensures OrderIsFree(profile, disk, index, order) <==> CellsAgree(profile, disk, order)
  {
    SameInAnyOrderIff(order, RoadsOf(profile, disk));
    SameInAnyOrderIff(order, PlacesOf(profile, disk));
    forall other | multiset(other) == multiset(order)
      ensures SameGraph(profile, disk, index, other, order) <==> SameLayers(profile, disk, other, order)
    {
      SameOrderIff(profile, disk, index, other, order);
    }
    FreeLayersIff(profile, disk, order);
  }

  ghost predicate LayersAreFree(profile: Profile, disk: Disk, order: seq<string>) {
    forall other | multiset(other) == multiset(order) :: SameLayers(profile, disk, other, order)
  }

  lemma FreeLayersIff(profile: Profile, disk: Disk, order: seq<string>)
    ensures LayersAreFree(profile, disk, order)
      <==> SameInAnyOrder(order, RoadsOf(profile, disk)) && SameInAnyOrder(order, PlacesOf(profile, disk))
  {
    if LayersAreFree(profile, disk, order) {
      forall other | multiset(other) == multiset(order)
        ensures Layered(other, RoadsOf(profile, disk)) == Layered(order, RoadsOf(profile, disk))
        ensures Layered(other, PlacesOf(profile, disk)) == Layered(order, PlacesOf(profile, disk))
      {
        assert SameLayers(profile, disk, other, order);
      }
    }
  }

  // ---------- The eager build ----------

  lemma BuiltOneRow(profile: Profile, index: map<int, Coordinates>, before: seq<Write>, row: EdgeRow)
    ensures var there := Written(Built(index, before), AddEdge(row.from, row.to, RoadOf(profile, row)));
      Built(index, before + EdgeWrite(profile, row)) == if row.oneway then there else Written(there, AddEdge(row.to, row.from, RoadOf(profile, row)))
  {
    var there, back := AddEdge(row.from, row.to, RoadOf(profile, row)), AddEdge(row.to, row.from, RoadOf(profile, row));
    BuiltOneMore(index, before, there);
    BuiltOneMore(index, before + [there], back);
    assert before + EdgeWrite(profile, row) == if row.oneway then before + [there] else before + [there] + [back];
  }

  /** The writes of an eager build: all nodes of a country, then all its edges. */
  function Tables(profile: Profile, nodeRows: seq<NodeRow>, edgeRows: seq<EdgeRow>): seq<Write> {
    NodeWrites(nodeRows) + EdgeWrites(profile, edgeRows)
  }

  /** The hybrid service builds the whole country, with its own speeds. */
  method BuildOptimizedGraph(nodeRows: seq<NodeRow>, edgeRows: seq<EdgeRow>) returns (g: Graph)
    ensures g == Built(map[], Tables(Hybrid, nodeRows, edgeRows))
  {
    g := Graph(map[], map[], map[]);
    for i := 0 to |nodeRows|
      invariant g == Built(map[], NodeWrites(nodeRows[..i]))
    {
      assert nodeRows[..i + 1][..i] == nodeRows[..i];
      BuiltOneMore(map[], NodeWrites(nodeRows[..i]), AddNode(nodeRows[i].id, nodeRows[i].at));
      g := Written(g, AddNode(nodeRows[i].id, nodeRows[i].at));
    }
    assert nodeRows[..|nodeRows|] == nodeRows;
    ghost var before := NodeWrites(nodeRows);
    assert before + [] == before;
    for i := 0 to |edgeRows|
      invariant g == Built(map[], before + EdgeWrites(Hybrid, edgeRows[..i]))
    {
      var row := edgeRows[i];
      assert before + EdgeWrites(Hybrid, edgeRows[..i + 1]) == before + EdgeWrites(Hybrid, edgeRows[..i]) + EdgeWrite(Hybrid, row) by {
        assert edgeRows[..i + 1][..i] == edgeRows[..i];
      }
      BuiltOneRow(Hybrid, map[], before + EdgeWrites(Hybrid, edgeRows[..i]), row);
      g := Written(g, AddEdge(row.from, row.to, RoadOf(Hybrid, row)));
      if !row.oneway {
        g := Written(g, AddEdge(row.to, row.from, RoadOf(Hybrid, row)));
      }
    }
    assert edgeRows[..|edgeRows|] == edgeRows;
  }

  /** The tables of a country hold the rows of its cells. */
  ghost predicate SameRows(disk: Disk, cells: seq<string>, nodeRows: seq<NodeRow>, edgeRows: seq<EdgeRow>) {
    && (forall row :: row in nodeRows <==> exists cell | cell in cells :: row in NodeRows(disk(cell)))
    && (forall row :: row in edgeRows <==> exists cell | cell in cells :: row in EdgeRows(disk(cell)))
  }

  lemma {:induction false} NodeRowsWritten(rows: seq<NodeRow>, w: Write)
    ensures w in NodeWrites(rows) <==> w.AddNode? && NodeRow(w.id, w.at) in rows
  {
    if rows != [] {
      NodeRowsWritten(rows[..|rows| - 1], w);
      assert rows == rows[..|rows| - 1] + [rows[|rows| - 1]];
    }
  }

  lemma {:induction false} EdgeRowIsWritten(profile: Profile, rows: seq<EdgeRow>, row: EdgeRow, w: Write)
    requires row in rows && w in EdgeWrite(profile, row)
    ensures w in EdgeWrites(profile, rows)
  {
    if row != rows[|rows| - 1] {
      EdgeRowIsWritten(profile, rows[..|rows| - 1], row, w);
    }
  }

  lemma {:induction false} EdgeWriteHasRow(profile: Profile, rows: seq<EdgeRow>, w: Write) returns (row: EdgeRow)
    requires w in EdgeWrites(profile, rows)
    ensures row in rows && w in EdgeWrite(profile, row)
  {
    if w in EdgeWrite(profile, rows[|rows| - 1]) {
      row := rows[|rows| - 1];
    } else {
      row := EdgeWriteHasRow(profile, rows[..|rows| - 1], w);
    }
  }

  lemma CellsWriteTables(profile: Profile, disk: Disk, cells: seq<string>, nodeRows: seq<NodeRow>, edgeRows: seq<EdgeRow>, w: Write)
    requires SameRows(disk, cells, nodeRows, edgeRows) && w in Writes(profile, disk, cells)
    ensures w in Tables(profile, nodeRows, edgeRows)
  {
    var cell := WriteHasCell(profile, disk, cells, w);
    if w in NodeWrites(NodeRows(disk(cell))) {
      NodeRowsWritten(NodeRows(disk(cell)), w);
      NodeRowsWritten(nodeRows, w);
    } else {
      var row := EdgeWriteHasRow(profile, EdgeRows(disk(cell)), w);
      EdgeRowIsWritten(profile, edgeRows, row, w);
    }
  }

  lemma TablesWriteCells(profile: Profile, disk: Disk, cells: seq<string>, nodeRows: seq<NodeRow>, edgeRows: seq<EdgeRow>, w: Write)
    requires SameRows(disk, cells, nodeRows, edgeRows) && w in Tables(profile, nodeRows, edgeRows)
    ensures w in Writes(profile, disk, cells)
  {
    if w in NodeWrites(nodeRows) {
      NodeRowsWritten(nodeRows, w);
      var cell :| cell in cells && NodeRow(w.id, w.at) in NodeRows(disk(cell));
      NodeRowsWritten(NodeRows(disk(cell)), w);
      CellIsWritten(profile, disk, cells, cell, w);
    } else {
      var row := EdgeWriteHasRow(profile, edgeRows, w);
      var cell :| cell in cells && row in EdgeRows(disk(cell));
      EdgeRowIsWritten(profile, EdgeRows(disk(cell)), row, w);
      CellIsWritten(profile, disk, cells, cell, w);
    }
  }

  lemma LoadedWritesTables(profile: Profile, disk: Disk, order: seq<string>, cells: seq<string>, nodeRows: seq<NodeRow>, edgeRows: seq<EdgeRow>)
    requires Elements(order) == Elements(cells) && SameRows(disk, cells, nodeRows, edgeRows)
    ensures forall w :: w in Tables(profile, nodeRows, edgeRows) <==> w in Writes(profile, disk, order)
  {
    assert forall cell :: cell in order <==> cell in Elements(order);
    assert forall cell :: cell in cells <==> cell in Elements(cells);
    MoreCellsMoreWrites(profile, disk, order, cells);
    MoreCellsMoreWrites(profile, disk, cells, order);
    forall w ensures w in Tables(profile, nodeRows, edgeRows) <==> w in Writes(profile, disk, order) {
      if w in Writes(profile, disk, cells) {
        CellsWriteTables(profile, disk, cells, nodeRows, edgeRows, w);
      }
      if w in Tables(profile, nodeRows, edgeRows) {
        TablesWriteCells(profile, disk, cells, nodeRows, edgeRows, w);
      }
    }
  }

  // ---------- The same roads with other speeds ----------

  /** The same road, with the travel time of a service. */
  function Retime(profile: Profile, road: Road): Road {
    road.(travelTime := if Moves(road.maxspeed) then TravelTime(profile, road.distance, road.highway, road.maxspeed) else 0.0)
  }

  function Retimed(profile: Profile, g: Graph): Graph {
    g.(edges := map key | key in g.edges :: Retime(profile, g.edges[key]))
  }

  function RetimedWrite(profile: Profile, w: Write): Write {
    match w
    case AddNode(id, at) => w
    case AddEdge(from, to, road) => AddEdge(from, to, Retime(profile, road))
  }

  function RetimedWrites(profile: Profile, writes: seq<Write>): (retimed: seq<Write>)
    ensures |retimed| == |writes| && forall i | 0 <= i < |writes| :: retimed[i] == RetimedWrite(profile, writes[i])
  {
    seq(|writes|, i requires 0 <= i < |writes| => RetimedWrite(profile, writes[i]))
  }

  lemma RetimeOneMore(profile: Profile, g: Graph, w: Write)
    ensures Written(Retimed(profile, g), RetimedWrite(profile, w)) == Retimed(profile, Written(g, w))
  {
  }

  lemma {:induction false} BuiltRetimed(profile: Profile, index: map<int, Coordinates>, writes: seq<Write>)
    ensures Built(index, RetimedWrites(profile, writes)) == Retimed(profile, Built(index, writes))
  {
    if writes != [] {
      var init, last := writes[..|writes| - 1], writes[|writes| - 1];
      BuiltRetimed(profile, index, init);
      assert RetimedWrites(profile, writes) == RetimedWrites(profile, init) + [RetimedWrite(profile, last)];
      BuiltOneMore(index, RetimedWrites(profile, init), RetimedWrite(profile, last));
      RetimeOneMore(profile, Built(index, init), last);
    }
  }

  lemma {:induction false} EdgesRetimed(profile: Profile, other: Profile, rows: seq<EdgeRow>)
    ensures RetimedWrites(profile, EdgeWrites(other, rows)) == EdgeWrites(profile, rows)
  {
    if rows != [] {
      var init, last := rows[..|rows| - 1], rows[|rows| - 1];
      EdgesRetimed(profile, other, init);
      assert RetimedWrites(profile, EdgeWrite(other, last)) == EdgeWrite(profile, last);
      assert RetimedWrites(profile, EdgeWrites(other, init) + EdgeWrite(other, last))
        == RetimedWrites(profile, EdgeWrites(other, init)) + RetimedWrites(profile, EdgeWrite(other, last));
    }
  }

  lemma {:induction false} NodesRetimed(profile: Profile, rows: seq<NodeRow>)
    ensures RetimedWrites(profile, NodeWrites(rows)) == NodeWrites(rows)
  {
    if rows != [] {
      NodesRetimed(profile, rows[..|rows| - 1]);
    }
  }

  /** The graph of one service is that of the other with its own travel times. */
  lemma ServicesDifferInTimes(profile: Profile, other: Profile, index: map<int, Coordinates>, nodeRows: seq<NodeRow>, edgeRows: seq<EdgeRow>)
    ensures Built(index, Tables(profile, nodeRows, edgeRows)) == Retimed(profile, Built(index, Tables(other, nodeRows, edgeRows)))
  {
    NodesRetimed(profile, nodeRows);
    EdgesRetimed(profile, other, edgeRows);
    assert RetimedWrites(profile, Tables(other, nodeRows, edgeRows)) == Tables(profile, nodeRows, edgeRows);
    BuiltRetimed(profile, index, Tables(other, nodeRows, edgeRows));
  }

  /** Coordinates known beforehand stay unless they are written. */
  lemma {:induction false} IndexIsKept(index: map<int, Coordinates>, writes: seq<Write>)
    ensures var g := Built(map[], writes);
      Built(index, writes) == g.(coords := index + g.coords)
  {
    if writes != [] {
      var init, last := writes[..|writes| - 1], writes[|writes| - 1];
      IndexIsKept(index, init);
      WriteKeepsIndex(index, Built(map[], init), last);
    } else {
      assert index + map[] == index;
    }
  }

  lemma WriteKeepsIndex(index: map<int, Coordinates>, g: Graph, w: Write)
    ensures var after := Written(g, w); Written(g.(coords := index + g.coords), w) == after.(coords := index + after.coords)
  {
    if w.AddNode? {
      assert (index + g.coords)[w.id := w.at] == index + g.coords[w.id := w.at];
    }
  }

  /** On every row written, the two services drive at the same speed, or there is no distance to drive. */
  predicate SpeedsAgree(edgeRows: seq<EdgeRow>) {
    forall row | row in edgeRows ::
      row.distance == 0.0 || Speed(Clean, row.highway, row.maxspeed) == Speed(Hybrid, row.highway, row.maxspeed)
  }

  /** The spatial index, which the lazy service reads at its start, knows only nodes of the country. */
  ghost predicate Indexes(index: map<int, Coordinates>, nodeRows: seq<NodeRow>) {
    forall id | id in index :: exists at :: NodeRow(id, at) in nodeRows
  }

  lemma RetimedRow(row: EdgeRow)
    ensures Retime(Hybrid, RoadOf(Clean, row)) == RoadOf(Hybrid, row)
    ensures RoadOf(Hybrid, row) == RoadOf(Clean, row)
      <==> row.distance == 0.0 || Speed(Clean, row.highway, row.maxspeed) == Speed(Hybrid, row.highway, row.maxspeed)
  {
    SameTimeIff(row.distance, row.highway, row.maxspeed);
  }

  lemma EdgeStemsFromRow(nodeRows: seq<NodeRow>, edgeRows: seq<EdgeRow>, from: int, to: int, road: Road) returns (row: EdgeRow)
    requires AddEdge(from, to, road) in Tables(Clean, nodeRows, edgeRows)
    ensures row in edgeRows && road == RoadOf(Clean, row)
  {
    NodeRowsWritten(nodeRows, AddEdge(from, to, road));
    row := EdgeWriteHasRow(Clean, edgeRows, AddEdge(from, to, road));
  }

  /** If the files agree, the two services' times are the same exactly where their speeds are. */
  lemma SameTimesIff(nodeRows: seq<NodeRow>, edgeRows: seq<EdgeRow>)
    requires Agree(Tables(Clean, nodeRows, edgeRows))
    ensures var g := Built(map[], Tables(Clean, nodeRows, edgeRows)); Retimed(Hybrid, g) == g <==> SpeedsAgree(edgeRows)
  {
    var tables := Tables(Clean, nodeRows, edgeRows);
    var g := Built(map[], tables);
    BuiltReflects(map[], tables);
    if SpeedsAgree(edgeRows) {
      forall key: (int, int) | key in g.edges ensures Retime(Hybrid, g.edges[key]) == g.edges[key] {
        var row := EdgeStemsFromRow(nodeRows, edgeRows, key.0, key.1, g.edges[key]);
        RetimedRow(row);
      }
      assert Retimed(Hybrid, g).edges == g.edges;
    }
    if Retimed(Hybrid, g) == g {
      forall row | row in edgeRows
        ensures row.distance == 0.0 || Speed(Clean, row.highway, row.maxspeed) == Speed(Hybrid, row.highway, row.maxspeed)
      {
        RowIsKept(nodeRows, edgeRows, row);
        assert Retimed(Hybrid, g).edges[(row.from, row.to)] == g.edges[(row.from, row.to)];
        RetimedRow(row);
      }
    }
  }

  lemma RowIsKept(nodeRows: seq<NodeRow>, edgeRows: seq<EdgeRow>, row: EdgeRow)
    requires Agree(Tables(Clean, nodeRows, edgeRows)) && row in edgeRows
    ensures var g := Built(map[], Tables(Clean, nodeRows, edgeRows));
      (row.from, row.to) in g.edges && g.edges[(row.from, row.to)] == RoadOf(Clean, row)
  {
    var tables, w := Tables(Clean, nodeRows, edgeRows), AddEdge(row.from, row.to, RoadOf(Clean, row));
    BuiltReflects(map[], tables);
    EdgeRowIsWritten(Clean, edgeRows, row, w);
    assert w in tables && EdgeWritten(tables, row.from, row.to);
  }

  lemma KnownNodesIff(index: map<int, Coordinates>, nodeRows: seq<NodeRow>, edgeRows: seq<EdgeRow>)
    ensures var g := Built(map[], Tables(Clean, nodeRows, edgeRows)); index + g.coords == g.coords <==> Indexes(index, nodeRows)
  {
    var tables := Tables(Clean, nodeRows, edgeRows);
    var coords := Built(map[], tables).coords;
    BuiltReflects(map[], tables);
    forall id ensures id in coords <==> exists at :: NodeRow(id, at) in nodeRows {
      NodeIsWrittenIff(nodeRows, edgeRows, id);
    }
    MergeIsRightIff(index, coords);
    if index.Keys <= coords.Keys {
      forall id | id in index ensures exists at :: NodeRow(id, at) in nodeRows {
        assert id in coords.Keys;
      }
    }
    if Indexes(index, nodeRows) {
      assert forall id | id in index :: id in coords;
    }
  }

  lemma MergeIsRightIff(m: map<int, Coordinates>, n: map<int, Coordinates>)
    ensures m + n == n <==> m.Keys <= n.Keys
  {
    assert (m + n).Keys == m.Keys + n.Keys;
    if m.Keys <= n.Keys {
      assert forall id | id in n :: (m + n)[id] == n[id];
    }
  }

  lemma NodeIsWrittenIff(nodeRows: seq<NodeRow>, edgeRows: seq<EdgeRow>, id: int)
    ensures NodeWritten(Tables(Clean, nodeRows, edgeRows), id) <==> exists at :: NodeRow(id, at) in nodeRows
  {
    var tables := Tables(Clean, nodeRows, edgeRows);
    if at :| NodeRow(id, at) in nodeRows {
      NodeRowsWritten(nodeRows, AddNode(id, at));
      assert AddNode(id, at) in tables;
    }
    if NodeWritten(tables, id) {
      var w :| w in tables && w.AddNode? && w.id == id;
      if w in EdgeWrites(Clean, edgeRows) {
        var row := EdgeWriteHasRow(Clean, edgeRows, w);
      }
      NodeRowsWritten(nodeRows, w);
    }
  }

  /**
    A lazy service that has loaded all cells of a country, and the hybrid service that has built the country's
    tables, have the same nodes and edges.  If the files agree, the nodes' coordinates and the roads but for
    their travel times are the same, too; and everything is, if and only if the two services' speeds agree on the
    roads written and the lazy service's index knows no node from elsewhere.
   */
  lemma LoadedIsBuilt(service: OptimizedService, cells: seq<string>, nodeRows: seq<NodeRow>, edgeRows: seq<EdgeRow>)
    requires service.Valid() && service.loaded == Elements(cells) && SameRows(service.disk, cells, nodeRows, edgeRows)
    ensures var built := Built(map[], Tables(Hybrid, nodeRows, edgeRows));
      && service.nodes.Keys == built.nodes.Keys && service.edges.Keys == built.edges.Keys
      && (Agree(Tables(Clean, nodeRows, edgeRows)) ==>
          && service.nodes == built.nodes && service.coords == service.index + built.coords
          && (forall key | key in built.edges :: built.edges[key] == Retime(Hybrid, service.edges[key]))
          && (service.Roads() == built <==> SpeedsAgree(edgeRows) && Indexes(service.index, nodeRows)))
  {
    var tables := Tables(Clean, nodeRows, edgeRows);
    var g := Built(map[], tables);
    LoadedWritesTables(Clean, service.disk, service.order, cells, nodeRows, edgeRows);
    SameWritesSameGraph(service.index, tables, Writes(Clean, service.disk, service.order));
    IndexIsKept(service.index, tables);
    ServicesDifferInTimes(Hybrid, Clean, map[], nodeRows, edgeRows);
    assert Retimed(Hybrid, g).edges.Keys == g.edges.Keys;
    if Agree(tables) {
      KnownNodesIff(service.index, nodeRows, edgeRows);
      SameTimesIff(nodeRows, edgeRows);
    }
  }

  /** The types of road on which, without limits, the two services agree. */
  const AGREEING := {"motorway", "motorway_link", "trunk", "primary", "residential", "service", "footway", "cycleway", "steps"}

  /** They agree on no other. */
  lemma AgreeingTypes(highway: string)
    ensures highway in AGREEING ==> ByType(Clean, highway) == ByType(Hybrid, highway)
    ensures highway !in AGREEING ==> ByType(Clean, highway) != ByType(Hybrid, highway)
  {
    if highway in HYBRID_PROFILES {
      assert highway in CLEAN_PROFILES;
    }
  }
}
