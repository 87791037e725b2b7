/** Progress of the lazy graph cache: no deadlock, and every call returns under every schedule. */
module LazyGraphCacheProgress {
  import opened Wrappers
  import opened LazyGraphCache

  predicate Waiting(pc: Pc) {
    pc.LoadWait? || pc.ClearWait? || pc.AllWait?
  }

  /** An upper bound on the number of moves a thread at pc still makes before it returns. */
  function Rank(pc: Pc): nat {
    match pc
    case ReqRead(_) => 11
    case ReqWrite(_, _) => 10
    case FastCheck(_) => 9
    case FastHitRead(_, _, _) => 3
    case FastHitWrite(_, _, _, _) => 2
    case FastGet(_, _, _) => 1
    case LoadWait(_) => 8
    case SlowCheck(_) => 7
    case SlowHitRead(_) => 4
    case SlowHitWrite(_, _) => 3
    case SlowGet(_) => 2
    case DiskRead(_) => 6
    case StoreData(_, _) => 5
    case StoreFlag(_, _) => 4
    case LoadExit(_, _) => 1
    case ClearTest(_) => 5
    case ClearWait(_) => 4
    case ClearDelete(_) => 3
    case ClearUnflag(_) => 2
    case ClearExit(_, _) => 1
    case AllWait(m) => 5 * ModesFrom(m)
    case AllTest(m) => 5 * ModesFrom(m) - 1
    case AllDelete(m) => 5 * ModesFrom(m) - 2
    case AllUnflag(m) => 5 * ModesFrom(m) - 3
    case AllExit(m) => 5 * ModesFrom(m) - 4
    case Idle => 0
    case Done(_) => 0
  }

  function ModesFrom(m: Mode): nat {
    match m
    case Drive => 3
    case Walk => 2
    case Bike => 1
  }

  /** A thread that is not resting moves closer to its return, unless it waits for a held lock. */
  lemma MovesAdvance(c: Cell, t: Tid, pc: Pc, disk: Option<Graph>)
    requires !Resting(pc)
    ensures var move := MoveOf(c, t, pc, disk);
      if Waiting(pc) && c.owner.Some? then move == Move(c, pc) else Rank(move.pc) < Rank(pc)
  {
  }

  lemma StepAdvances(s: State, t: Tid, disk: Option<Graph>)
    requires !Resting(PcOf(s, t))
    requires Waiting(PcOf(s, t)) ==> s.cells[PcOf(s, t).m].owner.None?
    ensures Moves(s, t, disk)
  {
    MovesAdvance(s.cells[PcOf(s, t).m], t, PcOf(s, t), disk);
  }

  predicate Moves(s: State, t: Tid, disk: Option<Graph>) {
    Rank(PcOf(StepOf(s, t, disk), t)) < Rank(PcOf(s, t))
  }

  /** The thread that the thread at pc depends on: the lock's holder if it waits for one, else itself. */
  function Awaited(s: State, t: Tid): Tid {
    var pc := PcOf(s, t);
    if Waiting(pc) && s.cells[pc.m].owner.Some? then s.cells[pc.m].owner.value else t
  }

  lemma AwaitedIsBusy(s: State, t: Tid)
    requires Inv(s) && !Resting(PcOf(s, t))
    ensures var u := Awaited(s, t); !Resting(PcOf(s, u)) && (u != t ==> !Waiting(PcOf(s, u)))
  {
    var pc := PcOf(s, t);
    if Waiting(pc) && s.cells[pc.m].owner.Some? {
      assert Inside(PcOf(s, s.cells[pc.m].owner.value), pc.m);
    }
  }

  /**
    No deadlock: in every reachable state every unfinished call can move, or waits for a lock whose
    holder can move.
   */
  lemma NoDeadlock(run: seq<Action>, t: Tid, disk: Option<Graph>)
    requires !Resting(PcOf(Exec(run), t))
    ensures Moves(Exec(run), Awaited(Exec(run), t), disk)
  {
    RunsKeepInv(run);
    AwaitedIsBusy(Exec(run), t);
    StepAdvances(Exec(run), Awaited(Exec(run), t), disk);
  }

  /** Moves still to be made by all threads together. */
  ghost function Work(pcs: map<Tid, Pc>): nat {
    if pcs == map[] then 0
    else
      var t :| t in pcs;
      Rank(pcs[t]) + Work(pcs - {t})
  }

  lemma {:induction false} WorkSplits(pcs: map<Tid, Pc>, t: Tid)
    requires t in pcs
    ensures Work(pcs) == Rank(pcs[t]) + Work(pcs - {t})
    decreases |pcs|
  {
    var u :| u in pcs && Work(pcs) == Rank(pcs[u]) + Work(pcs - {u});
    if u != t {
      WorkSplits(pcs - {u}, t);
      WorkSplits(pcs - {t}, u);
      assert pcs - {u} - {t} == pcs - {t} - {u};
    }
  }

  lemma StepDoesWork(s: State, t: Tid, disk: Option<Graph>)
    ensures StepOf(s, t, disk) == s || Work(StepOf(s, t, disk).pcs) < Work(s.pcs)
  {
    var pc := PcOf(s, t);
    if !Resting(pc) {
      var move := MoveOf(s.cells[pc.m], t, pc, disk);
      MovesAdvance(s.cells[pc.m], t, pc, disk);
      assert s.cells[pc.m := s.cells[pc.m]] == s.cells && s.pcs[t := s.pcs[t]] == s.pcs;
      WorkSplits(s.pcs, t);
      WorkSplits(s.pcs[t := move.pc], t);
      assert s.pcs[t := move.pc] - {t} == s.pcs - {t};
    }
  }

  /** Number of actions in `more` that change the state when run after `run`. */
  ghost function Effective(run: seq<Action>, more: seq<Action>): nat
    decreases more
  {
    if more == [] then 0
    else (if Apply(Exec(run), more[0]) != Exec(run) then 1 else 0) + Effective(run + [more[0]], more[1..])
  }

  /**
    Once no further call is started, any schedule makes at most `Work` further moves, however the
    threads interleave and whatever the disk delivers.
   */
  lemma {:induction false} EveryScheduleEnds(run: seq<Action>, more: seq<Action>)
    requires forall i | 0 <= i < |more| :: more[i].Step?
    ensures Effective(run, more) + Work(Exec(run + more).pcs) <= Work(Exec(run).pcs)
    decreases more
  {
    if more == [] {
      assert run + more == run;
    } else {
      ExecSnoc(run, more[0]);
      StepDoesWork(Exec(run), more[0].t, more[0].disk);
      EveryScheduleEnds(run + [more[0]], more[1..]);
      assert run + [more[0]] + more[1..] == run + more;
    }
  }

  /** A schedule that can go no further has let every call return. */
  lemma StuckMeansFinished(run: seq<Action>)
    requires forall t: Tid :: StepOf(Exec(run), t, None) == Exec(run)
    ensures forall t: Tid :: Resting(PcOf(Exec(run), t))
  {
    forall t: Tid ensures Resting(PcOf(Exec(run), t)) {
      if !Resting(PcOf(Exec(run), t)) {
        NoDeadlock(run, t, None);
      }
    }
  }
}
