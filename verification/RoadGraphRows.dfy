/** What is in a road graph, told by the rows of the files it was read from. */
module RoadGraphRows {
  import opened Wrappers
  import opened SpeedProfile
  import opened RoadGraph

  /** A row leads from one node to another, and back unless it is one-way. */
  predicate Leads(row: EdgeRow, from: int, to: int) {
    (row.from == from && row.to == to) || (!row.oneway && row.to == from && row.from == to)
  }

  /** A row of one of the cells leads from one node to the other, and the road is made of it. */
  ghost predicate RowLeads(profile: Profile, disk: Disk, order: seq<string>, from: int, to: int, road: Road) {
    exists cell, row | cell in order && row in EdgeRows(disk(cell)) :: Leads(row, from, to) && IsRoadOf(profile, row, road)
  }

  predicate IsRoadOf(profile: Profile, row: EdgeRow, road: Road) {
    && road.distance == row.distance && road.highway == row.highway && road.maxspeed == row.maxspeed
    && road.travelTime == TravelTime(profile, row.distance, row.highway, row.maxspeed)
  }

  /** A row of one of the cells gives the node these coordinates. */
  ghost predicate RowPlaces(disk: Disk, order: seq<string>, id: int, at: Coordinates) {
    exists cell | cell in order :: NodeRow(id, at) in NodeRows(disk(cell))
  }

  /** A row of one of the cells begins or ends at the node. */
  ghost predicate RowMentions(disk: Disk, order: seq<string>, id: int) {
    exists cell, row | cell in order && row in EdgeRows(disk(cell)) :: row.from == id || row.to == id
  }

  lemma RowWritesIff(profile: Profile, row: EdgeRow, from: int, to: int, road: Road)
    ensures AddEdge(from, to, road) in EdgeWrite(profile, row) <==> Leads(row, from, to) && IsRoadOf(profile, row, road)
  {
    assert IsRoadOf(profile, row, road) <==> road == RoadOf(profile, row);
  }

  lemma WrittenEdgeHasRow(profile: Profile, disk: Disk, order: seq<string>, from: int, to: int, road: Road)
    requires AddEdge(from, to, road) in Writes(profile, disk, order)
    ensures RowLeads(profile, disk, order, from, to, road)
  {
    var w := AddEdge(from, to, road);
    var cell := WriteHasCell(profile, disk, order, w);
    NodeRowsWritten(NodeRows(disk(cell)), w);
    var row := EdgeWriteHasRow(profile, EdgeRows(disk(cell)), w);
    RowWritesIff(profile, row, from, to, road);
  }

  lemma RowIsWritten(profile: Profile, disk: Disk, order: seq<string>, from: int, to: int, road: Road)
    requires RowLeads(profile, disk, order, from, to, road)
    ensures AddEdge(from, to, road) in Writes(profile, disk, order)
  {
    var cell, row :| cell in order && row in EdgeRows(disk(cell)) && Leads(row, from, to) && IsRoadOf(profile, row, road);
    RowWritesIff(profile, row, from, to, road);
    EdgeRowIsWritten(profile, EdgeRows(disk(cell)), row, AddEdge(from, to, road));
    CellIsWritten(profile, disk, order, cell, AddEdge(from, to, road));
  }

  lemma EdgeIsWrittenIff(profile: Profile, disk: Disk, order: seq<string>, from: int, to: int, road: Road)
    ensures AddEdge(from, to, road) in Writes(profile, disk, order) <==> RowLeads(profile, disk, order, from, to, road)
  {
    if AddEdge(from, to, road) in Writes(profile, disk, order) {
      WrittenEdgeHasRow(profile, disk, order, from, to, road);
    }
    if RowLeads(profile, disk, order, from, to, road) {
      RowIsWritten(profile, disk, order, from, to, road);
    }
  }

  lemma NodeIsWrittenIff(profile: Profile, disk: Disk, order: seq<string>, id: int, at: Coordinates)
    ensures AddNode(id, at) in Writes(profile, disk, order) <==> RowPlaces(disk, order, id, at)
  {
    var w := AddNode(id, at);
    if w in Writes(profile, disk, order) {
      var cell := WriteHasCell(profile, disk, order, w);
      if w in EdgeWrites(profile, EdgeRows(disk(cell))) {
        var row := EdgeWriteHasRow(profile, EdgeRows(disk(cell)), w);
      }
      NodeRowsWritten(NodeRows(disk(cell)), w);
    }
    if cell :| cell in order && NodeRow(id, at) in NodeRows(disk(cell)) {
      NodeRowsWritten(NodeRows(disk(cell)), w);
      CellIsWritten(profile, disk, order, cell, w);
    }
  }

  lemma MentionedIff(profile: Profile, disk: Disk, order: seq<string>, id: int)
    ensures Mentioned(Writes(profile, disk, order), id) <==> RowMentions(disk, order, id)
  {
    var writes := Writes(profile, disk, order);
    if w :| w in writes && w.AddEdge? && (w.from == id || w.to == id) {
      EdgeIsWrittenIff(profile, disk, order, w.from, w.to, w.road);
    }
    if cell, row :| cell in order && row in EdgeRows(disk(cell)) && (row.from == id || row.to == id) {
      var road := RoadOf(profile, row);
      assert Leads(row, row.from, row.to) && IsRoadOf(profile, row, road);
      EdgeIsWrittenIff(profile, disk, order, row.from, row.to, road);
    }
  }

  /** The roads of a graph read from some cells are those that the rows of the cells lead along, each made of one of its rows. */
  lemma RoadsAreRows(profile: Profile, disk: Disk, index: map<int, Coordinates>, order: seq<string>, from: int, to: int)
    ensures var edges := Built(index, Writes(profile, disk, order)).edges;
      && ((from, to) in edges <==> exists road :: RowLeads(profile, disk, order, from, to, road))
      && ((from, to) in edges ==> RowLeads(profile, disk, order, from, to, edges[(from, to)]))
  {
    var writes := Writes(profile, disk, order);
    BuiltReflects(index, writes);
    forall road ensures AddEdge(from, to, road) in writes <==> RowLeads(profile, disk, order, from, to, road) {
      EdgeIsWrittenIff(profile, disk, order, from, to, road);
    }
    assert ReflectsEdges(writes, Built(index, writes).edges);
    if road :| RowLeads(profile, disk, order, from, to, road) {
      assert AddEdge(from, to, road) in writes;
    }
  }

  /**
    Its nodes are those that a row gives coordinates or that a road begins or ends at; only the former know their
    coordinates, and besides them the coordinates of the index are known.
   */
  lemma NodesAreRows(profile: Profile, disk: Disk, index: map<int, Coordinates>, order: seq<string>, id: int)
    ensures var g := Built(index, Writes(profile, disk, order));
      var placed := exists at :: RowPlaces(disk, order, id, at);
      && (id in g.nodes <==> placed || RowMentions(disk, order, id))
      && (id in g.nodes && g.nodes[id].Some? <==> placed)
      && (id in g.nodes && g.nodes[id].Some? ==> RowPlaces(disk, order, id, g.nodes[id].value))
      && (id in g.coords <==> placed || id in index)
      && (placed ==> RowPlaces(disk, order, id, g.coords[id])) && (!placed && id in index ==> g.coords[id] == index[id])
  {
    var writes := Writes(profile, disk, order);
    var g := Built(index, writes);
    BuiltReflects(index, writes);
    MentionedIff(profile, disk, order, id);
    forall at ensures AddNode(id, at) in writes <==> RowPlaces(disk, order, id, at) {
      NodeIsWrittenIff(profile, disk, order, id, at);
    }
    PlacedIff(profile, disk, order, id);
    assert ReflectsNodes(writes, g.nodes) && ReflectsCoordinates(index, writes, g.coords);
  }

  lemma PlacedIff(profile: Profile, disk: Disk, order: seq<string>, id: int)
    ensures NodeWritten(Writes(profile, disk, order), id) <==> exists at :: RowPlaces(disk, order, id, at)
  {
    var writes := Writes(profile, disk, order);
    if w :| w in writes && w.AddNode? && w.id == id {
      NodeIsWrittenIff(profile, disk, order, id, w.at);
    }
    if at :| RowPlaces(disk, order, id, at) {
      NodeIsWrittenIff(profile, disk, order, id, at);
    }
  }
}
