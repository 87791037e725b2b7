/** Concrete runs of the lazy graph cache that show which guarantees the code does not give. */
module LazyGraphCacheWitnesses {
  import opened Wrappers
  import opened LazyGraphCache

  /** The Drive cell and where threads 0, 1 and 2 stand; every other thread is idle. */
  datatype Scene = Scene(c: Cell, p0: Pc, p1: Pc, p2: Pc)

  function Stand(v: Scene, t: Tid): Pc {
    if t == 0 then v.p0 else if t == 1 then v.p1 else v.p2
  }

  predicate Valid(v: Scene) {
    (Resting(v.p0) || v.p0.m == Drive) && (Resting(v.p1) || v.p1.m == Drive) && (Resting(v.p2) || v.p2.m == Drive)
  }

  function At(v: Scene): State {
    State(INIT.cells[Drive := v.c], map[0 := v.p0, 1 := v.p1, 2 := v.p2])
  }

  /** Thread t steps; a disk read delivers graph 7. */
  function Next(v: Scene, t: Tid): Scene
    requires Valid(v) && t < 3 && !Resting(Stand(v, t))
  {
    var move := MoveOf(v.c, t, Stand(v, t), Some(7));
    if t == 0 then v.(c := move.cell, p0 := move.pc)
    else if t == 1 then v.(c := move.cell, p1 := move.pc)
    else v.(c := move.cell, p2 := move.pc)
  }

  lemma NextIsStep(v: Scene, t: Tid)
    requires Valid(v) && t < 3 && !Resting(Stand(v, t))
    ensures Apply(At(v), Step(t, Some(7))) == At(Next(v, t))
  {
  }

  predicate Follows(v: Scene, t: Tid, w: Scene) {
    Valid(v) && t < 3 && !Resting(Stand(v, t)) && w == Next(v, t) && Valid(w)
  }

  /** The threads in `order` step one after the other, passing through `scenes`. */
  predicate Plays(scenes: seq<Scene>, order: seq<Tid>) {
    && |scenes| == |order| + 1
    && forall i | 0 <= i < |order| :: Follows(scenes[i], order[i], scenes[i + 1])
  }

  lemma {:induction false} PlayIsRun(run: seq<Action>, scenes: seq<Scene>, order: seq<Tid>) returns (longer: seq<Action>)
    requires Plays(scenes, order) && Valid(scenes[0]) && Exec(run) == At(scenes[0])
    ensures Valid(scenes[|order|]) && Exec(longer) == At(scenes[|order|])
    decreases order
  {
    longer := run;
    if order != [] {
      var step := Step(order[0], Some(7));
      assert Follows(scenes[0], order[0], scenes[1]);
      NextIsStep(scenes[0], order[0]);
      ExecSnoc(run, step);
      forall i | 0 <= i < |order[1..]| ensures Follows(scenes[1..][i], order[1..][i], scenes[1..][i + 1]) {
        assert Follows(scenes[i + 1], order[i + 1], scenes[i + 2]);
      }
      longer := PlayIsRun(run + [step], scenes[1..], order[1..]);
    }
  }

  lemma PlayOn(a: seq<Scene>, order: seq<Tid>, b: seq<Scene>, more: seq<Tid>)
    requires Plays(a, order) && Plays(b, more) && a[|order|] == b[0]
    ensures Plays(a + b[1..], order + more)
  {
    var all, both := a + b[1..], order + more;
    forall i | 0 <= i < |both| ensures Follows(all[i], both[i], all[i + 1]) {
      if i >= |order| {
        assert Follows(b[i - |order|], more[i - |order|], b[i - |order| + 1]);
      }
    }
  }

  const LOADED := Cell(Slot(Some(7), true, 0, 0), None, 1, 0, 0)
  const FETCHED := Done(Got(Drive, Some(7)))

  /** Thread 0 loads the graph while the calls of threads 1 and 2 have not moved yet. */
  lemma Loading(pc1: Pc, pc2: Pc) returns (scenes: seq<Scene>)
    requires Valid(Scene(FRESH, FastCheck(Drive), pc1, pc2))
    ensures Plays(scenes, [0, 0, 0, 0, 0, 0, 0])
    ensures scenes[0] == Scene(FRESH, FastCheck(Drive), pc1, pc2) && scenes[7] == Scene(LOADED, FETCHED, pc1, pc2)
  {
    var locked := FRESH.(owner := Some(0));
    var entering := [
      Scene(FRESH, FastCheck(Drive), pc1, pc2),
      Scene(FRESH, LoadWait(Drive), pc1, pc2),
      Scene(locked, SlowCheck(Drive), pc1, pc2),
      Scene(locked, DiskRead(Drive), pc1, pc2)];
    var storing := Storing(pc1, pc2);
    PlayOn(entering, [0, 0, 0], storing, [0, 0, 0, 0]);
    scenes := entering + storing[1..];
    assert [0, 0, 0] + [0, 0, 0, 0] == [0, 0, 0, 0, 0, 0, 0];
  }

  lemma Storing(pc1: Pc, pc2: Pc) returns (scenes: seq<Scene>)
    requires Valid(Scene(FRESH, FastCheck(Drive), pc1, pc2))
    ensures Plays(scenes, [0, 0, 0, 0])
    ensures scenes[0] == Scene(FRESH.(owner := Some(0)), DiskRead(Drive), pc1, pc2) && scenes[4] == Scene(LOADED, FETCHED, pc1, pc2)
  {
    var reading := Reading(pc1, pc2);
    var leaving := Leaving(pc1, pc2);
    PlayOn(reading, [0, 0], leaving, [0, 0]);
    scenes := reading + leaving[1..];
    assert [0, 0] + [0, 0] == [0, 0, 0, 0];
  }

  const HALF := Cell(Slot(Some(7), false, 0, 0), Some(0), 1, 0, 0)

  lemma Reading(pc1: Pc, pc2: Pc) returns (scenes: seq<Scene>)
    requires Valid(Scene(FRESH, FastCheck(Drive), pc1, pc2))
    ensures Plays(scenes, [0, 0])
    ensures scenes[0] == Scene(FRESH.(owner := Some(0)), DiskRead(Drive), pc1, pc2)
    ensures scenes[2] == Scene(HALF, StoreFlag(Drive, 7), pc1, pc2)
  {
    var locked := FRESH.(owner := Some(0));
    scenes := [
      Scene(locked, DiskRead(Drive), pc1, pc2),
      Scene(locked, StoreData(Drive, 7), pc1, pc2),
      Scene(HALF, StoreFlag(Drive, 7), pc1, pc2)];
  }

  lemma Leaving(pc1: Pc, pc2: Pc) returns (scenes: seq<Scene>)
    requires Valid(Scene(FRESH, FastCheck(Drive), pc1, pc2))
    ensures Plays(scenes, [0, 0])
    ensures scenes[0] == Scene(HALF, StoreFlag(Drive, 7), pc1, pc2) && scenes[2] == Scene(LOADED, FETCHED, pc1, pc2)
  {
    scenes := [
      Scene(HALF, StoreFlag(Drive, 7), pc1, pc2),
      Scene(LOADED.(owner := Some(0)), LoadExit(Drive, Some(7)), pc1, pc2),
      Scene(LOADED, FETCHED, pc1, pc2)];
  }

  lemma StartedRun(op1: Op, op2: Op) returns (run: seq<Action>)
    requires op1 in {Load(Drive), Clear(Drive)} && op2 in {Load(Drive), Clear(Drive)}
    ensures Exec(run) == At(Scene(FRESH, FastCheck(Drive), StartPc(op1), StartPc(op2)))
  {
    run := [Start(0, Load(Drive))];
    assert run == [] + [Start(0, Load(Drive))];
    ExecSnoc([], Start(0, Load(Drive)));
    ExecSnoc(run, Start(1, op1));
    run := run + [Start(1, op1)];
    ExecSnoc(run, Start(2, op2));
    run := run + [Start(2, op2)];
    assert INIT.cells[Drive := FRESH] == INIT.cells;
  }

  /** Thread 0 loads the graph, then the calls of threads 1 and 2 play the given scenes. */
  lemma Staged(op1: Op, op2: Op, scenes: seq<Scene>, order: seq<Tid>) returns (run: seq<Action>)
    requires op1 in {Load(Drive), Clear(Drive)} && op2 in {Load(Drive), Clear(Drive)}
    requires Plays(scenes, order) && scenes[0] == Scene(LOADED, FETCHED, StartPc(op1), StartPc(op2))
    ensures Exec(run) == At(scenes[|order|])
  {
    run := StartedRun(op1, op2);
    var loading := Loading(StartPc(op1), StartPc(op2));
    run := PlayIsRun(run, loading, [0, 0, 0, 0, 0, 0, 0]);
    run := PlayIsRun(run, scenes, order);
  }

  lemma OverlappingHits() returns (scenes: seq<Scene>)
    ensures Plays(scenes, [1, 2, 1, 2, 1, 2])
    ensures scenes[0] == Scene(LOADED, FETCHED, FastCheck(Drive), FastCheck(Drive))
    ensures scenes[6].c == Cell(Slot(Some(7), true, 1, 0), None, 1, 0, 2)
  {
    var start, hit, write, get := FastCheck(Drive), FastHitRead(Drive, 0, false), FastHitWrite(Drive, 0, false, 0), FastGet(Drive, 0, false);
    scenes := [
      Scene(LOADED, FETCHED, start, start),
      Scene(LOADED, FETCHED, hit, start),
      Scene(LOADED, FETCHED, hit, hit),
      Scene(LOADED, FETCHED, write, hit),
      Scene(LOADED, FETCHED, write, write),
      Scene(Cell(Slot(Some(7), true, 1, 0), None, 1, 0, 1), FETCHED, get, write),
      Scene(Cell(Slot(Some(7), true, 1, 0), None, 1, 0, 2), FETCHED, get, get)];
  }

  /** Threads 1 and 2 hit the cache at the same time, and one hit is counted. */
  lemma LostHit() returns (run: seq<Action>)
    ensures Exec(run).cells[Drive].hitsDone == 2 && Exec(run).cells[Drive].slot.hits == 1
  {
    var scenes := OverlappingHits();
    run := Staged(Load(Drive), Load(Drive), scenes, [1, 2, 1, 2, 1, 2]);
  }

  lemma OvertakingClear() returns (scenes: seq<Scene>)
    ensures Plays(scenes, [1, 2, 2, 2, 1, 1, 1])
    ensures scenes[0] == Scene(LOADED, FETCHED, FastCheck(Drive), ClearTest(Drive))
    ensures scenes[7].c.slot.hits == 1 && scenes[7].p1 == Done(Got(Drive, None))
  {
    var hit := FastHitRead(Drive, 0, false);
    var clearing := [
      Scene(LOADED, FETCHED, FastCheck(Drive), ClearTest(Drive)),
      Scene(LOADED, FETCHED, hit, ClearTest(Drive)),
      Scene(LOADED, FETCHED, hit, ClearWait(Drive)),
      Scene(LOADED.(owner := Some(2)), FETCHED, hit, ClearDelete(Drive)),
      Scene(GONE, FETCHED, hit, ClearUnflag(Drive))];
    var reading := ReadingLate();
    PlayOn(clearing, [1, 2, 2, 2], reading, [1, 1, 1]);
    scenes := clearing + reading[1..];
    assert [1, 2, 2, 2] + [1, 1, 1] == [1, 2, 2, 2, 1, 1, 1];
  }

  const GONE := Cell(Slot(None, true, 0, 0), Some(2), 1, 1, 0)

  lemma ReadingLate() returns (scenes: seq<Scene>)
    ensures Plays(scenes, [1, 1, 1])
    ensures scenes[0] == Scene(GONE, FETCHED, FastHitRead(Drive, 0, false), ClearUnflag(Drive))
    ensures scenes[3].c.slot.hits == 1 && scenes[3].p1 == Done(Got(Drive, None))
  {
    var counted := Cell(Slot(None, true, 1, 0), Some(2), 1, 1, 1);
    scenes := [
      Scene(GONE, FETCHED, FastHitRead(Drive, 0, false), ClearUnflag(Drive)),
      Scene(GONE, FETCHED, FastHitWrite(Drive, 0, false, 0), ClearUnflag(Drive)),
      Scene(counted, FETCHED, FastGet(Drive, 0, false), ClearUnflag(Drive)),
      Scene(counted, FETCHED, Done(Got(Drive, None)), ClearUnflag(Drive))];
  }

  /** Thread 1 passes the unlocked check, thread 2 clears, and thread 1 counts a hit but gets nothing. */
  lemma FastReaderGetsNothing() returns (run: seq<Action>)
    ensures PcOf(Exec(run), 1) == Done(Got(Drive, None)) && Exec(run).cells[Drive].slot.hits == 1
  {
    var scenes := OvertakingClear();
    run := Staged(Load(Drive), Clear(Drive), scenes, [1, 2, 2, 2, 1, 1, 1]);
  }

  lemma TwoClears() returns (scenes: seq<Scene>)
    ensures Plays(scenes, [1, 2, 1, 1, 1, 1, 2, 2, 2])
    ensures scenes[0] == Scene(LOADED, FETCHED, ClearTest(Drive), ClearTest(Drive))
    ensures scenes[9] == Scene(Cell(Slot(None, false, 0, 0), None, 1, 1, 0), FETCHED, Done(Cleared), Done(KeyError))
  {
    var test, wait := ClearTest(Drive), ClearWait(Drive);
    var winning := [
      Scene(LOADED, FETCHED, test, test),
      Scene(LOADED, FETCHED, wait, test),
      Scene(LOADED, FETCHED, wait, wait),
      Scene(LOADED.(owner := Some(1)), FETCHED, ClearDelete(Drive), wait),
      Scene(GONE.(owner := Some(1)), FETCHED, ClearUnflag(Drive), wait)];
    var losing := Losing();
    PlayOn(winning, [1, 2, 1, 1], losing, [1, 1, 2, 2, 2]);
    scenes := winning + losing[1..];
    assert [1, 2, 1, 1] + [1, 1, 2, 2, 2] == [1, 2, 1, 1, 1, 1, 2, 2, 2];
  }

  const CLEAN := Cell(Slot(None, false, 0, 0), None, 1, 1, 0)

  lemma Losing() returns (scenes: seq<Scene>)
    ensures Plays(scenes, [1, 1, 2, 2, 2])
    ensures scenes[0] == Scene(GONE.(owner := Some(1)), FETCHED, ClearUnflag(Drive), ClearWait(Drive))
    ensures scenes[5] == Scene(CLEAN, FETCHED, Done(Cleared), Done(KeyError))
  {
    var ending := [
      Scene(GONE.(owner := Some(1)), FETCHED, ClearUnflag(Drive), ClearWait(Drive)),
      Scene(CLEAN.(owner := Some(1)), FETCHED, ClearExit(Drive, Cleared), ClearWait(Drive)),
      Scene(CLEAN, FETCHED, Done(Cleared), ClearWait(Drive))];
    var raising := Raising();
    PlayOn(ending, [1, 1], raising, [2, 2, 2]);
    scenes := ending + raising[1..];
    assert [1, 1] + [2, 2, 2] == [1, 1, 2, 2, 2];
  }

  lemma Raising() returns (scenes: seq<Scene>)
    ensures Plays(scenes, [2, 2, 2])
    ensures scenes[0] == Scene(CLEAN, FETCHED, Done(Cleared), ClearWait(Drive))
    ensures scenes[3] == Scene(CLEAN, FETCHED, Done(Cleared), Done(KeyError))
  {
    scenes := [
      Scene(CLEAN, FETCHED, Done(Cleared), ClearWait(Drive)),
      Scene(CLEAN.(owner := Some(2)), FETCHED, Done(Cleared), ClearDelete(Drive)),
      Scene(CLEAN.(owner := Some(2)), FETCHED, Done(Cleared), ClearExit(Drive, KeyError)),
      Scene(CLEAN, FETCHED, Done(Cleared), Done(KeyError))];
  }

  /** Threads 1 and 2 pass the membership test; the second to delete leaves through a KeyError. */
  lemma LoserRaises() returns (run: seq<Action>)
    ensures PcOf(Exec(run), 1) == Done(Cleared) && PcOf(Exec(run), 2) == Done(KeyError)
    ensures Exec(run).cells[Drive].slot == Slot(None, false, 0, 0) && Exec(run).cells[Drive].owner == None
  {
    var scenes := TwoClears();
    run := Staged(Clear(Drive), Clear(Drive), scenes, [1, 2, 1, 1, 1, 1, 2, 2, 2]);
  }
}
