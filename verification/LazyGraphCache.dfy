/**
  The concurrent lazy graph cache of services/chile_multimodal_router.py.

  Any number of threads call get_route, preload_cache and clear_memory_cache.  The model takes one
  atomic step for every read or write of shared data; `cache_hits += 1` and `requests += 1` are a
  read followed by a write.  A run is a sequence of actions, each naming the thread that moves; an
  action that is not enabled (a wait for a held lock) leaves the state unchanged.
 */
module LazyGraphCache {
  import opened Wrappers

  datatype Mode = Drive | Walk | Bike

  /** Identity of a graph object unpickled from disk. */
  type Graph = nat
  type Tid = nat

  /** What the router stores for one mode. */
  datatype Slot = Slot(
    data: Option<Graph>,  // _memory_cache.get(mode)
    flag: bool,           // _cache_loaded[mode]
    hits: nat,            // _usage_stats[mode]['cache_hits']
    requests: nat)        // _usage_stats[mode]['requests']

  /** A mode's slot, the holder of its lock, and counts of past events that the code does not keep. */
  datatype Cell = Cell(
    slot: Slot,
    owner: Option<Tid>,
    loads: nat,     // graphs stored in memory so far
    clears: nat,    // graphs deleted from memory so far
    hitsDone: nat)  // completed `cache_hits += 1` statements

  type Cells = c: map<Mode, Cell> | forall m: Mode :: m in c witness FreshCells()

  datatype Op = Route(m: Mode) | Load(m: Mode) | Clear(m: Mode) | ClearAll

  datatype Outcome =
    | Got(m: Mode, graph: Option<Graph>)
    | Cleared
    | KeyError  // `del` of a key that another clearer removed first

  /** Where a thread stands: the shared access it performs next. */
  datatype Pc =
    | Idle
    | Done(out: Outcome)
    // get_route
    | ReqRead(m: Mode)
    | ReqWrite(m: Mode, tmp: nat)
    // _load_cache_for_mode, without the lock; `seen` and `torn` remember how many deletions had
    // happened, and whether data was missing, when the flag was found set
    | FastCheck(m: Mode)
    | FastHitRead(m: Mode, seen: nat, torn: bool)
    | FastHitWrite(m: Mode, seen: nat, torn: bool, tmp: nat)
    | FastGet(m: Mode, seen: nat, torn: bool)
    | LoadWait(m: Mode)
    // _load_cache_for_mode, holding the lock
    | SlowCheck(m: Mode)
    | SlowHitRead(m: Mode)
    | SlowHitWrite(m: Mode, tmp: nat)
    | SlowGet(m: Mode)
    | DiskRead(m: Mode)
    | StoreData(m: Mode, graph: Graph)
    | StoreFlag(m: Mode, graph: Graph)
    | LoadExit(m: Mode, result: Option<Graph>)
    // clear_memory_cache(mode)
    | ClearTest(m: Mode)
    | ClearWait(m: Mode)
    | ClearDelete(m: Mode)
    | ClearUnflag(m: Mode)
    | ClearExit(m: Mode, out: Outcome)
    // clear_memory_cache(), one mode after the other
    | AllWait(m: Mode)
    | AllTest(m: Mode)
    | AllDelete(m: Mode)
    | AllUnflag(m: Mode)
    | AllExit(m: Mode)

  datatype State = State(cells: Cells, pcs: map<Tid, Pc>)

  datatype Action =
    | Start(t: Tid, op: Op)
    | Step(t: Tid, disk: Option<Graph>)  // disk: what a disk read would deliver now, None if it fails

  const FRESH := Cell(Slot(None, false, 0, 0), None, 0, 0, 0)

  const INIT := State(FreshCells(), map[])

  function FreshCells(): (cells: map<Mode, Cell>)
    ensures forall m: Mode :: m in cells && cells[m] == FRESH
  {
    var cells := map[Drive := FRESH, Walk := FRESH, Bike := FRESH];
    EveryModeListed(cells);
    cells
  }

  lemma EveryModeListed(cells: map<Mode, Cell>)
    requires forall m: Mode | m == Drive || m == Walk || m == Bike :: m in cells && cells[m] == FRESH
    ensures forall m: Mode :: m in cells && cells[m] == FRESH
  {
    forall m: Mode ensures m in cells && cells[m] == FRESH {
      match m case Drive => case Walk => case Bike =>
    }
  }

  function PcOf(s: State, t: Tid): Pc {
    if t in s.pcs then s.pcs[t] else Idle
  }

  predicate Resting(pc: Pc) {
    pc.Idle? || pc.Done?
  }

  /** The effect of one step on the only mode it touches and on the thread that makes it. */
  datatype Move = Move(cell: Cell, pc: Pc)

  /** Thread t takes the lock and moves to pc, or waits where it is. */
  function Lock(c: Cell, t: Tid, here: Pc, pc: Pc): Move {
    if c.owner.None? then Move(c.(owner := Some(t)), pc) else Move(c, here)
  }

  function Unlock(c: Cell, pc: Pc): Move {
    Move(c.(owner := None), pc)
  }

  function WriteHit(c: Cell, tmp: nat): Cell {
    c.(slot := c.slot.(hits := tmp + 1), hitsDone := c.hitsDone + 1)
  }

  function WriteData(c: Cell, g: Graph): Cell {
    c.(slot := c.slot.(data := Some(g)), loads := c.loads + 1)
  }

  function DeleteData(c: Cell): Cell {
    c.(slot := c.slot.(data := None), clears := c.clears + 1)
  }

  function WriteFlag(c: Cell, flag: bool): Cell {
    c.(slot := c.slot.(flag := flag))
  }

  /** get_route's request counting and _load_cache_for_mode. */
  function MoveLoad(c: Cell, t: Tid, pc: Pc, disk: Option<Graph>): Move {
    match pc
    case ReqRead(m) => Move(c, ReqWrite(m, c.slot.requests))
    case ReqWrite(m, tmp) => Move(c.(slot := c.slot.(requests := tmp + 1)), FastCheck(m))
    case FastCheck(m) => Move(c, if c.slot.flag then FastHitRead(m, c.clears, c.slot.data.None?) else LoadWait(m))
    case FastHitRead(m, seen, torn) => Move(c, FastHitWrite(m, seen, torn, c.slot.hits))
    case FastHitWrite(m, seen, torn, tmp) => Move(WriteHit(c, tmp), FastGet(m, seen, torn))
    case FastGet(m, seen, torn) => Move(c, Done(Got(m, c.slot.data)))
    case LoadWait(m) => Lock(c, t, pc, SlowCheck(m))
    case SlowCheck(m) => Move(c, if c.slot.flag then SlowHitRead(m) else DiskRead(m))
    case SlowHitRead(m) => Move(c, SlowHitWrite(m, c.slot.hits))
    case SlowHitWrite(m, tmp) => Move(WriteHit(c, tmp), SlowGet(m))
    case SlowGet(m) => Move(c, LoadExit(m, c.slot.data))
    case DiskRead(m) => Move(c, if disk.Some? then StoreData(m, disk.value) else LoadExit(m, None))
    case StoreData(m, g) => Move(WriteData(c, g), StoreFlag(m, g))
    case StoreFlag(m, g) => Move(WriteFlag(c, true), LoadExit(m, Some(g)))
    case LoadExit(m, r) => Unlock(c, Done(Got(m, r)))
    case _ => Move(c, pc)
  }

  /** clear_memory_cache(mode): the membership test is made before the lock is taken. */
  function MoveClear(c: Cell, t: Tid, pc: Pc): Move {
    match pc
    case ClearTest(m) => Move(c, if c.slot.data.Some? then ClearWait(m) else Done(Cleared))
    case ClearWait(m) => Lock(c, t, pc, ClearDelete(m))
    case ClearDelete(m) =>
      if c.slot.data.Some? then Move(DeleteData(c), ClearUnflag(m)) else Move(c, ClearExit(m, KeyError))
    case ClearUnflag(m) => Move(WriteFlag(c, false), ClearExit(m, Cleared))
    case ClearExit(m, out) => Unlock(c, Done(out))
    case _ => Move(c, pc)
  }

  /** clear_memory_cache(): every mode in turn, each under its own lock. */
  function MoveAll(c: Cell, t: Tid, pc: Pc): Move {
    match pc
    case AllWait(m) => Lock(c, t, pc, AllTest(m))
    case AllTest(m) => Move(c, if c.slot.data.Some? then AllDelete(m) else AllUnflag(m))
    case AllDelete(m) =>
      if c.slot.data.Some? then Move(DeleteData(c), AllUnflag(m)) else Unlock(c, Done(KeyError))
    case AllUnflag(m) => Move(WriteFlag(c, false), AllExit(m))
    case AllExit(m) => Unlock(c, NextMode(m))
    case _ => Move(c, pc)
  }

  function NextMode(m: Mode): Pc {
    match m
    case Drive => AllWait(Walk)
    case Walk => AllWait(Bike)
    case Bike => Done(Cleared)
  }

  predicate ClearingOne(pc: Pc) {
    pc.ClearTest? || pc.ClearWait? || pc.ClearDelete? || pc.ClearUnflag? || pc.ClearExit?
  }

  predicate ClearingAll(pc: Pc) {
    pc.AllWait? || pc.AllTest? || pc.AllDelete? || pc.AllUnflag? || pc.AllExit?
  }

  function MoveOf(c: Cell, t: Tid, pc: Pc, disk: Option<Graph>): Move {
    if ClearingOne(pc) then MoveClear(c, t, pc)
    else if ClearingAll(pc) then MoveAll(c, t, pc)
    else MoveLoad(c, t, pc, disk)
  }

  /** One step of thread t. */
  function StepOf(s: State, t: Tid, disk: Option<Graph>): State {
    var pc := PcOf(s, t);
    if Resting(pc) then s
    else
      var move := MoveOf(s.cells[pc.m], t, pc, disk);
      State(s.cells[pc.m := move.cell], s.pcs[t := move.pc])
  }

  function StartPc(op: Op): Pc {
    match op
    case Route(m) => ReqRead(m)
    case Load(m) => FastCheck(m)
    case Clear(m) => ClearTest(m)
    case ClearAll => AllWait(Drive)
  }

  function Apply(s: State, a: Action): State {
    match a
    case Start(t, op) =>
      if Resting(PcOf(s, t)) then s.(pcs := s.pcs[t := StartPc(op)]) else s
    case Step(t, disk) => StepOf(s, t, disk)
  }

  /** The state after a run of actions. */
  function Exec(run: seq<Action>): State {
    if run == [] then INIT else Apply(Exec(run[..|run| - 1]), run[|run| - 1])
  }

  lemma ExecSnoc(run: seq<Action>, a: Action)
    ensures Exec(run + [a]) == Apply(Exec(run), a)
  {
    assert (run + [a])[..|run|] == run;
  }

  // ---------- The inductive invariant ----------

  /** The thread at pc holds the lock of the mode it works on. */
  predicate HoldsLock(pc: Pc) {
    || pc.SlowCheck? || pc.SlowHitRead? || pc.SlowHitWrite? || pc.SlowGet?
    || pc.DiskRead? || pc.StoreData? || pc.StoreFlag? || pc.LoadExit?
    || pc.ClearDelete? || pc.ClearUnflag? || pc.ClearExit?
    || pc.AllTest? || pc.AllDelete? || pc.AllUnflag? || pc.AllExit?
  }

  /** The thread at pc is inside the `with` block of m's lock. */
  predicate Inside(pc: Pc, m: Mode) {
    HoldsLock(pc) && pc.m == m
  }

  /** What holds of a mode's data and flag while the lock's owner stands at pc (Idle: lock free). */
  predicate SlotOk(slot: Slot, pc: Pc) {
    match pc
    case SlowHitRead(_) => slot.flag && slot.data.Some?
    case SlowHitWrite(_, _) => slot.flag && slot.data.Some?
    case SlowGet(_) => slot.flag && slot.data.Some?
    case DiskRead(_) => !slot.flag && slot.data.None?
    case StoreData(_, _) => !slot.flag && slot.data.None?
    case StoreFlag(_, g) => !slot.flag && slot.data == Some(g)
    case ClearUnflag(_) => slot.flag && slot.data.None?
    case AllDelete(_) => slot.flag && slot.data.Some?
    case AllUnflag(_) => slot.data.None?
    case _ => slot.flag == slot.data.Some?
  }

  predicate CountsOk(c: Cell) {
    && c.loads == c.clears + (if c.slot.data.Some? then 1 else 0)
    && c.slot.hits <= c.hitsDone
  }

  /** What the thread at pc relies on, about the mode it names, beyond the lock's protection. */
  predicate LocalOk(c: Cell, pc: Pc) {
    match pc
    case FastHitRead(_, seen, torn) => StillThere(c, seen, torn)
    case FastHitWrite(_, seen, torn, tmp) => StillThere(c, seen, torn) && tmp <= c.hitsDone
    case FastGet(_, seen, torn) => StillThere(c, seen, torn)
    case SlowHitWrite(_, tmp) => tmp <= c.hitsDone
    case ClearExit(_, out) => out == Cleared || out == KeyError
    case _ => true
  }

  predicate StillThere(c: Cell, seen: nat, torn: bool) {
    seen <= c.clears && (c.clears == seen && !torn ==> c.slot.data.Some?)
  }

  function OwnerPc(s: State, m: Mode): Pc {
    if s.cells[m].owner.Some? then PcOf(s, s.cells[m].owner.value) else Idle
  }

  ghost predicate Inv(s: State) {
    && (forall t: Tid, m: Mode :: Inside(PcOf(s, t), m) <==> s.cells[m].owner == Some(t))
    && (forall m: Mode :: SlotOk(s.cells[m].slot, OwnerPc(s, m)) && CountsOk(s.cells[m]))
    && (forall t: Tid :: !Resting(PcOf(s, t)) ==> LocalOk(s.cells[PcOf(s, t).m], PcOf(s, t)))
  }

  /** From c to c' the counts only grow, and data disappears only if `clears` grows. */
  predicate Grows(c: Cell, c': Cell) {
    && c.clears <= c'.clears && c.hitsDone <= c'.hitsDone
    && (c'.clears == c.clears && c.slot.data.Some? ==> c'.slot.data.Some?)
  }

  /** The move of thread t from pc keeps the invariant of the cell; `owner` is where the lock's owner stands. */
  predicate GoodMove(c: Cell, t: Tid, pc: Pc, owner: Pc, move: Move)
    requires !Resting(pc)
  {
    var inside := Inside(move.pc, pc.m);
    && move.cell.owner == (if inside then Some(t) else if c.owner == Some(t) then None else c.owner)
    && SlotOk(move.cell.slot, if inside then move.pc else if c.owner == Some(t) then Idle else owner)
    && (inside ==> c.owner == None || c.owner == Some(t))
    && (!Resting(move.pc) && move.pc.m != pc.m ==> !Inside(move.pc, move.pc.m) && LocalOk(FRESH, move.pc) && move.pc.AllWait?)
    && (!Resting(move.pc) && move.pc.m == pc.m ==> LocalOk(move.cell, move.pc))
    && CountsOk(move.cell)
    && Grows(c, move.cell)
  }

  /** What a mover may assume: the invariant of the cell it is about to touch. */
  predicate CellOk(c: Cell, t: Tid, pc: Pc, owner: Pc)
    requires !Resting(pc)
  {
    && (HoldsLock(pc) <==> c.owner == Some(t))
    && (c.owner == Some(t) ==> owner == pc)
    && (c.owner == None ==> owner == Idle)
    && SlotOk(c.slot, owner) && CountsOk(c) && LocalOk(c, pc)
  }

  lemma UnlockedLoadMovesAreGood(c: Cell, t: Tid, pc: Pc, disk: Option<Graph>, owner: Pc)
    requires !Resting(pc) && !ClearingOne(pc) && !ClearingAll(pc) && !HoldsLock(pc) && CellOk(c, t, pc, owner)
    ensures GoodMove(c, t, pc, owner, MoveLoad(c, t, pc, disk))
  {
  }

  lemma LockedLoadMovesAreGood(c: Cell, t: Tid, pc: Pc, disk: Option<Graph>, owner: Pc)
    requires HoldsLock(pc) && !ClearingOne(pc) && !ClearingAll(pc) && CellOk(c, t, pc, owner)
    ensures GoodMove(c, t, pc, owner, MoveLoad(c, t, pc, disk))
  {
  }

  lemma ClearMovesAreGood(c: Cell, t: Tid, pc: Pc, owner: Pc)
    requires ClearingOne(pc) && CellOk(c, t, pc, owner)
    ensures GoodMove(c, t, pc, owner, MoveClear(c, t, pc))
  {
  }

  lemma ClearAllMovesAreGood(c: Cell, t: Tid, pc: Pc, owner: Pc)
    requires ClearingAll(pc) && CellOk(c, t, pc, owner)
    ensures GoodMove(c, t, pc, owner, MoveAll(c, t, pc))
  {
  }

  lemma MovesAreGood(c: Cell, t: Tid, pc: Pc, disk: Option<Graph>, owner: Pc)
    requires !Resting(pc) && CellOk(c, t, pc, owner)
    ensures GoodMove(c, t, pc, owner, MoveOf(c, t, pc, disk))
  {
    if ClearingOne(pc) {
      ClearMovesAreGood(c, t, pc, owner);
    } else if ClearingAll(pc) {
      ClearAllMovesAreGood(c, t, pc, owner);
    } else if HoldsLock(pc) {
      LockedLoadMovesAreGood(c, t, pc, disk, owner);
    } else {
      UnlockedLoadMovesAreGood(c, t, pc, disk, owner);
    }
  }

  lemma GoodMoveKeepsInv(s: State, t: Tid, move: Move, s': State)
    requires Inv(s)
    requires !Resting(PcOf(s, t))
    requires var pc := PcOf(s, t); GoodMove(s.cells[pc.m], t, pc, OwnerPc(s, pc.m), move)
    requires s' == State(s.cells[PcOf(s, t).m := move.cell], s.pcs[t := move.pc])
    ensures Inv(s')
  {
    forall u: Tid, m: Mode ensures Inside(PcOf(s', u), m) <==> s'.cells[m].owner == Some(u) {
      GoodMoveKeepsOwner(s, t, move, s', u, m);
    }
    forall m: Mode ensures SlotOk(s'.cells[m].slot, OwnerPc(s', m)) && CountsOk(s'.cells[m]) {
      GoodMoveKeepsSlot(s, t, move, s', m);
    }
    forall u: Tid | !Resting(PcOf(s', u)) ensures LocalOk(s'.cells[PcOf(s', u).m], PcOf(s', u)) {
      GoodMoveKeepsLocal(s, t, move, s', u);
    }
  }

  lemma GoodMoveKeepsOwner(s: State, t: Tid, move: Move, s': State, u: Tid, m: Mode)
    requires Inv(s)
    requires !Resting(PcOf(s, t))
    requires var pc := PcOf(s, t); GoodMove(s.cells[pc.m], t, pc, OwnerPc(s, pc.m), move)
    requires s' == State(s.cells[PcOf(s, t).m := move.cell], s.pcs[t := move.pc])
    ensures Inside(PcOf(s', u), m) <==> s'.cells[m].owner == Some(u)
  {
    assert Inside(PcOf(s, u), m) <==> s.cells[m].owner == Some(u);
    assert Inside(PcOf(s, t), m) <==> s.cells[m].owner == Some(t);
    if u == t {
      assert PcOf(s', u) == move.pc;
    } else {
      assert PcOf(s', u) == PcOf(s, u);
    }
  }

  lemma GoodMoveKeepsSlot(s: State, t: Tid, move: Move, s': State, m: Mode)
    requires Inv(s)
    requires !Resting(PcOf(s, t))
    requires var pc := PcOf(s, t); GoodMove(s.cells[pc.m], t, pc, OwnerPc(s, pc.m), move)
    requires s' == State(s.cells[PcOf(s, t).m := move.cell], s.pcs[t := move.pc])
    ensures SlotOk(s'.cells[m].slot, OwnerPc(s', m)) && CountsOk(s'.cells[m])
  {
    assert SlotOk(s.cells[m].slot, OwnerPc(s, m)) && CountsOk(s.cells[m]);
    assert Inside(PcOf(s, t), m) <==> s.cells[m].owner == Some(t);
  }

  lemma GoodMoveKeepsLocal(s: State, t: Tid, move: Move, s': State, u: Tid)
    requires Inv(s)
    requires !Resting(PcOf(s, t))
    requires var pc := PcOf(s, t); GoodMove(s.cells[pc.m], t, pc, OwnerPc(s, pc.m), move)
    requires s' == State(s.cells[PcOf(s, t).m := move.cell], s.pcs[t := move.pc])
    requires !Resting(PcOf(s', u))
    ensures LocalOk(s'.cells[PcOf(s', u).m], PcOf(s', u))
  {
    if u != t {
      assert LocalOk(s.cells[PcOf(s, u).m], PcOf(s, u));
    }
  }

  lemma StepKeepsInv(s: State, a: Action)
    requires Inv(s)
    ensures Inv(Apply(s, a))
  {
    var pc := PcOf(s, a.t);
    if a.Step? && !Resting(pc) {
      assert Inside(pc, pc.m) <==> s.cells[pc.m].owner == Some(a.t);
      MovesAreGood(s.cells[pc.m], a.t, pc, a.disk, OwnerPc(s, pc.m));
      GoodMoveKeepsInv(s, a.t, MoveOf(s.cells[pc.m], a.t, pc, a.disk), Apply(s, a));
    } else if a.Start? && Resting(pc) {
      StartKeepsInv(s, a.t, a.op);
    }
  }

  lemma StartKeepsInv(s: State, t: Tid, op: Op)
    requires Inv(s) && Resting(PcOf(s, t))
    ensures Inv(s.(pcs := s.pcs[t := StartPc(op)]))
  {
    var s' := s.(pcs := s.pcs[t := StartPc(op)]);
    forall u: Tid, m: Mode ensures Inside(PcOf(s', u), m) <==> s'.cells[m].owner == Some(u) {
      assert Inside(PcOf(s, u), m) <==> s.cells[m].owner == Some(u);
    }
    forall m: Mode ensures SlotOk(s'.cells[m].slot, OwnerPc(s', m)) && CountsOk(s'.cells[m]) {
      assert Inside(PcOf(s, t), m) <==> s.cells[m].owner == Some(t);
      assert SlotOk(s.cells[m].slot, OwnerPc(s, m));
    }
    forall u: Tid | !Resting(PcOf(s', u)) ensures LocalOk(s'.cells[PcOf(s', u).m], PcOf(s', u)) {
      assert u != t ==> LocalOk(s.cells[PcOf(s, u).m], PcOf(s, u));
    }
  }

  lemma {:induction false} RunsKeepInv(run: seq<Action>)
    ensures Inv(Exec(run))
  {
    if run != [] {
      RunsKeepInv(run[..|run| - 1]);
      StepKeepsInv(Exec(run[..|run| - 1]), run[|run| - 1]);
    }
  }
}
