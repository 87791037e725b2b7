/**
  Snapping a point to the road: services/hybrid_city2graph_service.py, `find_nearest_node` with and without an
  index, and the memoised search of services/optimized_city2graph_service_clean.py.
 */
module NearestNode {
  import opened Wrappers
  import opened RoadGraph

  datatype Node = Node(id: int, at: Coordinates)

  /** Metres from the point asked for. */
  type Away = Coordinates -> real

  datatype Hit = Hit(id: int, distance: real, at: Coordinates)

  /** The first of the nearest nodes; none in an empty list. */
  function FirstNearest(nodes: seq<Node>, away: Away): (best: Option<Node>)
    ensures best.None? <==> nodes == []
    ensures best.Some? ==> best.value in nodes
  {
    if nodes == [] then None
    else
      var before, last := FirstNearest(nodes[..|nodes| - 1], away), nodes[|nodes| - 1];
      if before.Some? && !(away(last.at) < away(before.value.at)) then before else Some(last)
  }

  /** Nodes strictly within the radius. */
  function Inside(nodes: seq<Node>, away: Away, radius: real): seq<Node> {
    if nodes == [] then []
    else
      var last := nodes[|nodes| - 1];
      Inside(nodes[..|nodes| - 1], away, radius) + if away(last.at) < radius then [last] else []
  }

  /** A nearest node counts if it lies within the radius, and if its number is not taken for "no node". */
  function Accepted(best: Option<Node>, away: Away, radius: real): Option<Hit> {
    if best.Some? && best.value.id != 0 && away(best.value.at) <= radius
    then Some(Hit(best.value.id, away(best.value.at), best.value.at)) else None
  }

  method FindByIndex(candidates: seq<Node>, away: Away, radius: real) returns (hit: Option<Hit>)
    ensures hit == Accepted(FirstNearest(candidates, away), away, radius)
  {
    if candidates == [] {
      return None;
    }
    var nearest: Option<Node> := None;
    for i := 0 to |candidates|
      invariant nearest == FirstNearest(candidates[..i], away)
    {
      assert candidates[..i + 1][..i] == candidates[..i];
      if nearest.None? || away(candidates[i].at) < away(nearest.value.at) {
        nearest := Some(candidates[i]);
      }
    }
    assert candidates[..|candidates|] == candidates;
    hit := Accepted(nearest, away, radius);
  }

  method FindByScan(nodes: seq<Node>, away: Away, radius: real) returns (hit: Option<Hit>)
    ensures hit == Accepted(FirstNearest(Inside(nodes, away, radius), away), away, radius)
  {
    var nearest: Option<Node> := None;
    for i := 0 to |nodes|
      invariant nearest == FirstNearest(Inside(nodes[..i], away, radius), away)
    {
      assert nodes[..i + 1][..i] == nodes[..i];
      ghost var inside := Inside(nodes[..i], away, radius);
      assert (inside + [nodes[i]])[..|inside|] == inside && inside + [] == inside;
      if away(nodes[i].at) < radius && (nearest.None? || away(nodes[i].at) < away(nearest.value.at)) {
        nearest := Some(nodes[i]);
      }
    }
    assert nodes[..|nodes|] == nodes;
    hit := Accepted(nearest, away, radius);
  }

  // ---------- The two branches agree ----------

  lemma {:induction false} FirstNearestIsNearest(nodes: seq<Node>, away: Away)
    requires nodes != []
    ensures forall n | n in nodes :: away(FirstNearest(nodes, away).value.at) <= away(n.at)
  {
    var init, last := nodes[..|nodes| - 1], nodes[|nodes| - 1];
    assert nodes == init + [last];
    if init != [] {
      FirstNearestIsNearest(init, away);
    }
  }

  /** Of several nearest nodes the first in the list is taken. */
  lemma {:induction false} FirstNearestIsFirst(nodes: seq<Node>, away: Away) returns (k: nat)
    requires nodes != []
    ensures k < |nodes| && FirstNearest(nodes, away) == Some(nodes[k])
    ensures forall j | 0 <= j < k :: away(nodes[k].at) < away(nodes[j].at)
    ensures forall j | k < j < |nodes| :: away(nodes[k].at) <= away(nodes[j].at)
  {
    var init, last := nodes[..|nodes| - 1], nodes[|nodes| - 1];
    k := |init|;
    if init != [] {
      var before := FirstNearestIsFirst(init, away);
      if !(away(last.at) < away(init[before].at)) {
        k := before;
      }
    }
  }

  lemma {:induction false} InsideAre(nodes: seq<Node>, away: Away, radius: real)
    ensures forall n :: n in Inside(nodes, away, radius) <==> n in nodes && away(n.at) < radius
  {
    if nodes != [] {
      InsideAre(nodes[..|nodes| - 1], away, radius);
      assert nodes == nodes[..|nodes| - 1] + [nodes[|nodes| - 1]];
    }
  }

  /** Some node lies exactly on the radius and none within it. */
  ghost predicate OnTheRadius(nodes: seq<Node>, away: Away, radius: real) {
    (exists n | n in nodes :: away(n.at) == radius) && forall n | n in nodes :: away(n.at) >= radius
  }

  function Distance(hit: Option<Hit>): Option<real> {
    if hit.Some? then Some(hit.value.distance) else None
  }

  /** The first of the nearest nodes is the one with number 0, which the code takes for "no node". */
  predicate ZeroWins(nodes: seq<Node>, away: Away) {
    nodes != [] && FirstNearest(nodes, away).value.id == 0
  }

  /** The index and the scan find the same distance, or both none. */
  ghost predicate BranchesAgree(nodes: seq<Node>, candidates: seq<Node>, away: Away, radius: real) {
    Distance(Accepted(FirstNearest(candidates, away), away, radius))
      == Distance(Accepted(FirstNearest(Inside(nodes, away, radius), away), away, radius))
  }

  /** The box searched in the index holds nodes only, and every node within the radius. */
  ghost predicate BoxHoldsBall(nodes: seq<Node>, candidates: seq<Node>, away: Away, radius: real) {
    && (forall n | n in candidates :: n in nodes)
    && forall n | n in nodes && away(n.at) <= radius :: n in candidates
  }

  /**
    When the box holds the ball, the two branches agree in exactly these cases: some node is strictly within the
    radius and number 0 is the first of the nearest in both orders or in neither; or none is, and no node lies
    exactly on the radius, or number 0 is the first of those that do.
   */
  lemma BranchesAgreeIff(nodes: seq<Node>, candidates: seq<Node>, away: Away, radius: real)
    requires BoxHoldsBall(nodes, candidates, away, radius)
    ensures BranchesAgree(nodes, candidates, away, radius) <==>
      var inside := Inside(nodes, away, radius);
      if inside != [] then ZeroWins(candidates, away) <==> ZeroWins(inside, away)
      else !OnTheRadius(nodes, away, radius) || ZeroWins(candidates, away)
  {
    var inside := Inside(nodes, away, radius);
    InsideAre(nodes, away, radius);
    if inside != [] {
      SomethingInside(nodes, candidates, inside, away, radius);
    } else {
      NothingInside(nodes, candidates, away, radius);
    }
  }

  /** Without a number 0 they agree unless the nearest node lies exactly on the radius. */
  lemma BranchesAgreeWithoutZero(nodes: seq<Node>, candidates: seq<Node>, away: Away, radius: real)
    requires BoxHoldsBall(nodes, candidates, away, radius) && forall n | n in nodes :: n.id != 0
    ensures BranchesAgree(nodes, candidates, away, radius) <==> !OnTheRadius(nodes, away, radius)
  {
    var inside := Inside(nodes, away, radius);
    InsideAre(nodes, away, radius);
    BranchesAgreeIff(nodes, candidates, away, radius);
    if inside != [] {
      assert inside[0] in nodes;
    }
  }

  lemma SomethingInside(nodes: seq<Node>, candidates: seq<Node>, inside: seq<Node>, away: Away, radius: real)
    requires inside != [] && forall n | n in inside :: n in candidates && away(n.at) < radius
    requires forall n | n in candidates :: away(n.at) < radius ==> n in inside
    ensures Distance(Accepted(FirstNearest(candidates, away), away, radius)) == Distance(Accepted(FirstNearest(inside, away), away, radius))
      <==> (ZeroWins(candidates, away) <==> ZeroWins(inside, away))
  {
    assert inside[0] in candidates;
    FirstNearestIsNearest(candidates, away);
    FirstNearestIsNearest(inside, away);
  }

  lemma NothingInside(nodes: seq<Node>, candidates: seq<Node>, away: Away, radius: real)
    requires BoxHoldsBall(nodes, candidates, away, radius) && forall n | n in nodes :: away(n.at) >= radius
    ensures Accepted(FirstNearest(candidates, away), away, radius).None?
      <==> !OnTheRadius(nodes, away, radius) || ZeroWins(candidates, away)
  {
    if candidates != [] {
      FirstNearestIsNearest(candidates, away);
      var best := FirstNearest(candidates, away).value;
      assert best in nodes;
    }
  }

  /** What the index finds is a node of the box within the radius, and none of the box is nearer. */
  lemma IndexFindsNearest(candidates: seq<Node>, away: Away, radius: real)
    ensures var hit := Accepted(FirstNearest(candidates, away), away, radius);
      hit.Some? ==>
        && Node(hit.value.id, hit.value.at) in candidates && hit.value.distance == away(hit.value.at) <= radius
        && forall n | n in candidates :: hit.value.distance <= away(n.at)
  {
    if candidates != [] {
      FirstNearestIsNearest(candidates, away);
    }
  }

  /** The node with number 0 is never found, even where it is the nearest. */
  lemma NodeZeroIsLost(candidates: seq<Node>, away: Away, radius: real)
    requires candidates != [] && forall n | n in candidates && n.id != 0 :: exists z | z in candidates :: z.id == 0 && away(z.at) < away(n.at)
    ensures Accepted(FirstNearest(candidates, away), away, radius) == None
  {
    FirstNearestIsNearest(candidates, away);
  }

  // ---------- The memo of the lazy service ----------

  datatype Query = Query(at: Coordinates, radius: real)

  type Ground = (Coordinates, Coordinates) -> real

  /** The index's ten nearest entries to a point; it is built once and does not change. */
  type Index = Coordinates -> seq<int>

  /** The first nearest of the candidates with known coordinates that are within the radius. */
  function Search(ids: seq<int>, coords: map<int, Coordinates>, ground: Ground, q: Query): Option<Hit> {
    if ids == [] then None
    else
      var before, id := Search(ids[..|ids| - 1], coords, ground, q), ids[|ids| - 1];
      if id in coords && ground(q.at, coords[id]) <= q.radius
        && (before.None? || ground(q.at, coords[id]) < before.value.distance)
      then Some(Hit(id, ground(q.at, coords[id]), coords[id])) else before
  }

  method SearchCandidates(ids: seq<int>, coords: map<int, Coordinates>, ground: Ground, q: Query) returns (best: Option<Hit>)
    ensures best == Search(ids, coords, ground, q)
  {
    best := None;
    for i := 0 to |ids|
      invariant best == Search(ids[..i], coords, ground, q)
    {
      assert ids[..i + 1][..i] == ids[..i];
      if ids[i] in coords {
        var distance := ground(q.at, coords[ids[i]]);
        if (best.None? || distance < best.value.distance) && distance <= q.radius {
          best := Some(Hit(ids[i], distance, coords[ids[i]]));
        }
      }
    }
    assert ids[..|ids|] == ids;
  }

  /** What is found is a known candidate within the radius, and no known candidate is nearer. */
  lemma {:induction false} SearchFindsNearest(ids: seq<int>, coords: map<int, Coordinates>, ground: Ground, q: Query)
    ensures var hit := Search(ids, coords, ground, q);
      && (hit.Some? ==>
        && hit.value.id in ids && hit.value.id in coords && hit.value.at == coords[hit.value.id]
        && hit.value.distance == ground(q.at, hit.value.at) <= q.radius)
      && forall id | id in ids && id in coords && ground(q.at, coords[id]) <= q.radius ::
          hit.Some? && hit.value.distance <= ground(q.at, coords[id])
  {
    if ids != [] {
      SearchFindsNearest(ids[..|ids| - 1], coords, ground, q);
      assert ids == ids[..|ids| - 1] + [ids[|ids| - 1]];
    }
  }

  /** Of several nearest candidates the first is found. */
  lemma {:induction false} SearchFindsFirst(ids: seq<int>, coords: map<int, Coordinates>, ground: Ground, q: Query) returns (k: nat)
    requires Search(ids, coords, ground, q).Some?
    ensures k < |ids| && Search(ids, coords, ground, q).value.id == ids[k]
    ensures forall j | 0 <= j < k && ids[j] in coords && ground(q.at, coords[ids[j]]) <= q.radius ::
      Search(ids, coords, ground, q).value.distance < ground(q.at, coords[ids[j]])
  {
    var init := ids[..|ids| - 1];
    SearchFindsNearest(init, coords, ground, q);
    assert forall j | 0 <= j < |init| :: ids[j] == init[j] && ids[j] in init;
    if Search(ids, coords, ground, q) == Search(init, coords, ground, q) {
      k := SearchFindsFirst(init, coords, ground, q);
    } else {
      k := |init|;
    }
  }

  /** The coordinates of the candidates are known and stay the same. */
  ghost predicate Extends(index: Index, before: map<int, Coordinates>, after: map<int, Coordinates>) {
    forall at, id | id in index(at) :: id in before && id in after && after[id] == before[id]
  }

  lemma {:induction false} SearchUnchanged(ids: seq<int>, before: map<int, Coordinates>, after: map<int, Coordinates>, ground: Ground, q: Query)
    requires forall id | id in ids :: (id in before <==> id in after) && (id in before ==> after[id] == before[id])
    ensures Search(ids, before, ground, q) == Search(ids, after, ground, q)
  {
    if ids != [] {
      SearchUnchanged(ids[..|ids| - 1], before, after, ground, q);
    }
  }

  class Snapper {
    const index: Index
    const ground: Ground
    var coords: map<int, Coordinates>
    var memo: map<Query, Option<Hit>>

    /** Every remembered answer is the one a search would give now. */
    ghost predicate Valid()
      reads this
    {
      forall q | q in memo :: memo[q] == Search(index(q.at), coords, ground, q)
    }

    constructor (index: Index, ground: Ground, coords: map<int, Coordinates>)
      ensures Valid() && this.index == index && this.ground == ground && this.coords == coords
    {
      this.index, this.ground, this.coords := index, ground, coords;
      memo := map[];
    }

    /** `forget` is the answer that makes room in a full memo, if any. */
    method FindNearestNode(q: Query, forget: Option<Query>) returns (hit: Option<Hit>)
      requires Valid()
      modifies this`memo
      ensures Valid() && hit == Search(index(q.at), coords, ground, q)
    {
      if q in memo {
        return memo[q];
      }
      hit := SearchCandidates(index(q.at), coords, ground, q);
      if forget.Some? {
        memo := memo - {forget.value};
      }
      memo := memo[q := hit];
    }

    /** Loading partitions replaces the known coordinates; answers stay right if the index's nodes agree. */
    method Load(more: map<int, Coordinates>)
      requires Valid() && Extends(index, coords, more)
      modifies this`coords
      ensures Valid() && coords == more
    {
      forall q | q in memo ensures memo[q] == Search(index(q.at), more, ground, q) {
        SearchUnchanged(index(q.at), coords, more, ground, q);
      }
      coords := more;
    }
  }

  /**
    Loading cells whose nodes agree with the index leaves the coordinates of every indexed node as they were,
    so that the memo of a service stays right through any sequence of loads.
   */
  lemma LoadsAgree(index: Index, known: map<int, Coordinates>, writes: seq<Write>)
    requires forall at, id | id in index(at) :: id in known
    requires forall id, at | AddNode(id, at) in writes && id in known :: at == known[id]
    ensures Extends(index, known, Built(known, writes).coords)
  {
    BuiltReflects(known, writes);
  }

  /** No distance is negative, and only a place itself is at distance zero from it. */
  ghost predicate Definite(ground: Ground) {
    forall a, b {:trigger ground(a, b)} :: ground(a, b) >= 0.0 && (ground(a, b) == 0.0 <==> a == b)
  }

  /** The index answers nodes with known coordinates, and each of them for its own place. */
  ghost predicate Answers(index: Index, known: map<int, Coordinates>) {
    forall at, id | id in index(at) :: id in known && id in index(known[id])
  }

  /** No two nodes of the index share a place. */
  ghost predicate Spread(index: Index, known: map<int, Coordinates>) {
    forall at, bt, id, other | id in index(at) && other in index(bt) && id in known && other in known && known[id] == known[other] ::
      id == other
  }

  /** Every answer the memo may hold is the one a search would give after some writes. */
  ghost predicate MemoStaysRight(index: Index, known: map<int, Coordinates>, writes: seq<Write>, ground: Ground) {
    forall q: Query :: Search(index(q.at), known, ground, q) == Search(index(q.at), Built(known, writes).coords, ground, q)
  }

  /** Loads keep all answers right if and only if they leave the coordinates of every indexed node as they were. */
  lemma MemoStaysRightIff(index: Index, known: map<int, Coordinates>, writes: seq<Write>, ground: Ground)
    requires Definite(ground) && Answers(index, known) && Spread(index, known)
    ensures MemoStaysRight(index, known, writes, ground) <==> Extends(index, known, Built(known, writes).coords)
  {
    var after := Built(known, writes).coords;
    if Extends(index, known, after) {
      forall q: Query ensures Search(index(q.at), known, ground, q) == Search(index(q.at), after, ground, q) {
        SearchUnchanged(index(q.at), known, after, ground, q);
      }
    }
    if MemoStaysRight(index, known, writes, ground) {
      forall at, id | id in index(at) ensures id in known && id in after && after[id] == known[id] {
        NodeStays(index, known, after, ground, id);
      }
    }
  }

  /** Asked for at its own place, with no radius, a node is found there and only there. */
  lemma NodeStays(index: Index, known: map<int, Coordinates>, after: map<int, Coordinates>, ground: Ground, id: int)
    requires Definite(ground) && Spread(index, known) && id in known && id in index(known[id])
    requires var q := Query(known[id], 0.0); Search(index(q.at), known, ground, q) == Search(index(q.at), after, ground, q)
    ensures id in after && after[id] == known[id]
  {
    var q := Query(known[id], 0.0);
    assert ground(q.at, known[id]) == 0.0;
    SearchFindsNearest(index(q.at), known, ground, q);
    SearchFindsNearest(index(q.at), after, ground, q);
    var hit := Search(index(q.at), known, ground, q).value;
    assert ground(q.at, hit.at) == 0.0 && hit.at == known[hit.id] == known[id];
  }

  /**
    For example, a node whose coordinates a loaded cell changes is remembered where it was, although a search
    would now find it elsewhere or not at all.
   */
  lemma MemoGoesStale(id: int, known: Coordinates, loaded: Coordinates, ground: Ground, q: Query)
    requires known != loaded && ground(q.at, known) <= q.radius
    ensures var before := map[id := known];
      Search([id], before, ground, q) != Search([id], Built(before, [AddNode(id, loaded)]).coords, ground, q)
  {
    assert [AddNode(id, loaded)][..0] == [];
    assert [id][..0] == [];
  }
}
