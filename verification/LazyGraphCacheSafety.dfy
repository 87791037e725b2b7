/** Safety of the lazy graph cache: what holds after every run, and what fails in which runs. */
module LazyGraphCacheSafety {
  import opened Wrappers
  import opened LazyGraphCache

  /** The thread that is about to drop the flag of m after deleting its data. */
  predicate MidClear(pc: Pc, m: Mode) {
    pc == ClearUnflag(m) || pc == AllUnflag(m)
  }

  predicate MidLoad(pc: Pc, m: Mode) {
    pc.StoreFlag? && pc.m == m
  }

  /** At most one thread is inside the `with` block of a mode. */
  lemma MutualExclusion(run: seq<Action>, t: Tid, u: Tid, m: Mode)
    ensures Inside(PcOf(Exec(run), t), m) && Inside(PcOf(Exec(run), u), m) ==> t == u
  {
    RunsKeepInv(run);
    var s := Exec(run);
    assert Inside(PcOf(s, t), m) <==> s.cells[m].owner == Some(t);
    assert Inside(PcOf(s, u), m) <==> s.cells[m].owner == Some(u);
  }

  /** Only the lock's owner changes a mode's data or flag. */
  lemma OnlyTheOwnerWrites(run: seq<Action>, a: Action, m: Mode)
    ensures var s, s' := Exec(run), Apply(Exec(run), a);
      s'.cells[m].slot.data != s.cells[m].slot.data || s'.cells[m].slot.flag != s.cells[m].slot.flag
      ==> a.Step? && s.cells[m].owner == Some(a.t)
  {
    RunsKeepInv(run);
    var s := Exec(run);
    var pc := PcOf(s, a.t);
    if a.Step? && !Resting(pc) {
      assert Inside(pc, pc.m) <==> s.cells[pc.m].owner == Some(a.t);
      WritersAreInside(s.cells[pc.m], a.t, pc, a.disk);
    }
  }

  lemma WritersAreInside(c: Cell, t: Tid, pc: Pc, disk: Option<Graph>)
    requires !Resting(pc)
    ensures var c' := MoveOf(c, t, pc, disk).cell;
      c'.slot.data != c.slot.data || c'.slot.flag != c.slot.flag ==> Inside(pc, pc.m)
  {
  }

  /**
    With the lock free, flag and data agree.  They disagree only while the owner stands between its
    two writes: flag without data in a clear, data without flag in a load.
   */
  lemma FlagMatchesData(run: seq<Action>, m: Mode)
    ensures var c := Exec(run).cells[m];
      && (c.owner.None? ==> (c.slot.flag <==> c.slot.data.Some?))
      && (c.slot.flag && c.slot.data.None? ==> c.owner.Some? && MidClear(PcOf(Exec(run), c.owner.value), m))
      && (!c.slot.flag && c.slot.data.Some? ==> c.owner.Some? && MidLoad(PcOf(Exec(run), c.owner.value), m))
  {
    RunsKeepInv(run);
    var s := Exec(run);
    var c := s.cells[m];
    assert SlotOk(c.slot, OwnerPc(s, m));
    if c.owner.Some? {
      assert Inside(PcOf(s, c.owner.value), m);
    }
  }

  /** Graphs stored minus graphs deleted is 1 when the mode is in memory and 0 when it is not. */
  lemma LoadsMinusClears(run: seq<Action>, m: Mode)
    ensures var c := Exec(run).cells[m];
      c.loads == c.clears + (if c.slot.data.Some? then 1 else 0)
  {
    RunsKeepInv(run);
    assert CountsOk(Exec(run).cells[m]);
  }

  /** Counter `cache_hits` never exceeds the number of completed hits. */
  lemma HitsNeverExceedCompleted(run: seq<Action>, m: Mode)
    ensures Exec(run).cells[m].slot.hits <= Exec(run).cells[m].hitsDone
  {
    RunsKeepInv(run);
    assert CountsOk(Exec(run).cells[m]);
  }

  // ---------- Clearing ----------

  /**
    A single-mode clear raises exactly when, under the lock, it finds the data gone.  The losing clearer then
    changes nothing, and its next step leaves the `with` block: the lock is free and the error escapes.
   */
  lemma LosingClearer(run: seq<Action>, t: Tid, m: Mode, disk: Option<Graph>)
    requires PcOf(Exec(run), t) == ClearDelete(m)
    ensures var s, s' := Exec(run), Exec(run + [Step(t, disk)]);
      && (PcOf(s', t) == ClearExit(m, KeyError) <==> s.cells[m].loads == s.cells[m].clears)
      && (PcOf(s', t) == ClearExit(m, KeyError) ==> s'.cells == s.cells)
      && (PcOf(s', t) != ClearExit(m, KeyError) ==> s'.cells[m].clears == s.cells[m].clears + 1)
    ensures PcOf(Exec(run + [Step(t, disk)]), t) == ClearExit(m, KeyError) ==>
      var left := Exec(run + [Step(t, disk)] + [Step(t, disk)]);
      PcOf(left, t) == Done(KeyError) && left.cells == Exec(run).cells[m := Exec(run).cells[m].(owner := None)]
  {
    LoadsMinusClears(run, m);
    ExecSnoc(run, Step(t, disk));
    var s, s' := Exec(run), Exec(run + [Step(t, disk)]);
    assert s.cells[m := s.cells[m]] == s.cells;
    if PcOf(s', t) == ClearExit(m, KeyError) {
      LoserLeaves(run + [Step(t, disk)], t, m, disk);
    }
  }

  /** The end of the `with` block releases the lock, whether or not the block has raised. */
  lemma LoserLeaves(run: seq<Action>, t: Tid, m: Mode, disk: Option<Graph>)
    requires PcOf(Exec(run), t) == ClearExit(m, KeyError)
    ensures var s, s' := Exec(run), Exec(run + [Step(t, disk)]);
      PcOf(s', t) == Done(KeyError) && s'.cells == s.cells[m := s.cells[m].(owner := None)]
  {
    ExecSnoc(run, Step(t, disk));
  }

  /** Whether the mode is in memory, before each action of a run and at its end. */
  function Presence(run: seq<Action>, m: Mode): (present: seq<bool>)
    ensures |present| == |run| + 1
    ensures forall k | 0 <= k <= |run| :: present[k] == Exec(run[..k]).cells[m].slot.data.Some?
  {
    seq(|run| + 1, k requires 0 <= k <= |run| => Exec(run[..k]).cells[m].slot.data.Some?)
  }

  predicate DeletedAt(present: seq<bool>, k: nat)
    requires k + 1 < |present|
  {
    present[k] && !present[k + 1]
  }

  predicate StoredAt(present: seq<bool>, k: nat)
    requires k + 1 < |present|
  {
    !present[k] && present[k + 1]
  }

  /** Between two moments, some deletion is not followed by a store. */
  predicate DeletedForGood(present: seq<bool>, start: nat, end: nat)
    requires end < |present|
  {
    exists j | start <= j < end :: DeletedAt(present, j) && forall k | j < k < end :: !StoredAt(present, k)
  }

  lemma {:induction false} StoreBetween(present: seq<bool>, start: nat, end: nat) returns (k: nat)
    requires start <= end < |present| && !present[start] && present[end]
    ensures start <= k < end && StoredAt(present, k)
    decreases end
  {
    if present[end - 1] {
      k := StoreBetween(present, start, end - 1);
    } else {
      k := end - 1;
    }
  }

  lemma {:induction false} LastDeletion(present: seq<bool>, start: nat, end: nat) returns (j: nat)
    requires start <= end < |present| && present[start] && !present[end]
    ensures start <= j < end && DeletedAt(present, j) && forall k | j < k < end :: !StoredAt(present, k)
    decreases end
  {
    if present[end - 1] {
      j := end - 1;
    } else {
      j := LastDeletion(present, start, end - 1);
    }
  }

  lemma GoneIff(present: seq<bool>, start: nat, end: nat)
    requires start <= end < |present| && present[start]
    ensures !present[end] <==> DeletedForGood(present, start, end)
  {
    if present[end] {
      forall j | start <= j < end && DeletedAt(present, j) ensures exists k | j < k < end :: StoredAt(present, k) {
        var k := StoreBetween(present, j + 1, end);
      }
    } else {
      var j := LastDeletion(present, start, end);
    }
  }

  /**
    Which clearer loses, told by the run: one that has found the mode in memory and now holds its lock raises if
    and only if, since then, a deletion has not been followed by a store.
   */
  lemma LosesIff(run: seq<Action>, t: Tid, m: Mode, tested: nat, disk: Option<Graph>)
    requires tested <= |run| && Presence(run, m)[tested] && PcOf(Exec(run), t) == ClearDelete(m)
    ensures PcOf(Exec(run + [Step(t, disk)]), t) == ClearExit(m, KeyError) <==> DeletedForGood(Presence(run, m), tested, |run|)
  {
    GoneIff(Presence(run, m), tested, |run|);
    assert run[..|run|] == run;
    RaisesIff(run, t, m, disk);
  }

  lemma RaisesIff(run: seq<Action>, t: Tid, m: Mode, disk: Option<Graph>)
    requires PcOf(Exec(run), t) == ClearDelete(m)
    ensures PcOf(Exec(run + [Step(t, disk)]), t) == ClearExit(m, KeyError) <==> Exec(run).cells[m].slot.data.None?
  {
    ExecSnoc(run, Step(t, disk));
  }

  /** Clearing all modes never raises: its membership test is made under the lock. */
  lemma ClearAllNeverRaises(run: seq<Action>, t: Tid, m: Mode)
    requires PcOf(Exec(run), t) == AllDelete(m)
    ensures Exec(run).cells[m].slot.data.Some?
  {
    OwnersSlot(run, t);
  }

  /** Where the owner of a lock stands decides what holds of the mode's data and flag. */
  lemma OwnersSlot(run: seq<Action>, t: Tid)
    requires HoldsLock(PcOf(Exec(run), t))
    ensures var s, pc := Exec(run), PcOf(Exec(run), t);
      s.cells[pc.m].owner == Some(t) && SlotOk(s.cells[pc.m].slot, pc)
  {
    RunsKeepInv(run);
    var s := Exec(run);
    var m := PcOf(s, t).m;
    assert Inside(PcOf(s, t), m) <==> s.cells[m].owner == Some(t);
    assert SlotOk(s.cells[m].slot, OwnerPc(s, m));
  }

  // ---------- The unlocked fast path ----------

  /**
    What a reader gets that found the flag set without taking the lock: nothing, exactly when every
    graph stored so far has been deleted.  It gets the data unless some thread deleted it after the
    check, or stood between the two writes of a clear at the check.
   */
  lemma FastReader(run: seq<Action>, t: Tid, disk: Option<Graph>)
    requires PcOf(Exec(run), t).FastGet?
    ensures var s, pc := Exec(run), PcOf(Exec(run), t);
      var out := PcOf(Exec(run + [Step(t, disk)]), t);
      && out == Done(Got(pc.m, s.cells[pc.m].slot.data))
      && (out.out.graph.None? <==> s.cells[pc.m].loads == s.cells[pc.m].clears)
      && (s.cells[pc.m].clears == pc.seen && !pc.torn ==> out.out.graph.Some?)
  {
    RunsKeepInv(run);
    var s, pc := Exec(run), PcOf(Exec(run), t);
    ExecSnoc(run, Step(t, disk));
    assert LocalOk(s.cells[pc.m], pc);
    assert CountsOk(s.cells[pc.m]);
  }

  /** `seen` and `torn` are what the unlocked check saw; torn means a clear stood between its writes. */
  lemma FastCheckRecords(run: seq<Action>, t: Tid, m: Mode, disk: Option<Graph>)
    requires PcOf(Exec(run), t) == FastCheck(m)
    ensures var s, out := Exec(run), PcOf(Exec(run + [Step(t, disk)]), t);
      && (out.FastHitRead? <==> s.cells[m].slot.flag)
      && (out.FastHitRead? ==> out.seen == s.cells[m].clears)
      && (out.FastHitRead? ==> (out.torn <==> s.cells[m].owner.Some? && MidClear(PcOf(s, s.cells[m].owner.value), m)))
  {
    FlagMatchesData(run, m);
    ExecSnoc(run, Step(t, disk));
    TornMeansMidClear(run, m);
  }

  lemma TornMeansMidClear(run: seq<Action>, m: Mode)
    ensures var s := Exec(run);
      s.cells[m].slot.flag ==>
        (s.cells[m].slot.data.None? <==> s.cells[m].owner.Some? && MidClear(PcOf(s, s.cells[m].owner.value), m))
  {
    RunsKeepInv(run);
    var s := Exec(run);
    assert SlotOk(s.cells[m].slot, OwnerPc(s, m));
    FlagMatchesData(run, m);
  }

  // ---------- Runs without clearing ----------

  predicate ClearFree(run: seq<Action>) {
    forall i | 0 <= i < |run| :: run[i].Start? ==> run[i].op.Route? || run[i].op.Load?
  }

  predicate Calm(pc: Pc) {
    && !ClearingOne(pc) && !ClearingAll(pc)
    && (pc.FastHitRead? || pc.FastHitWrite? || pc.FastGet? ==> !pc.torn)
  }

  /** The graph of mode m that the thread at pc has in hand or has returned. */
  function InHand(pc: Pc, m: Mode): Option<Graph> {
    match pc
    case StoreFlag(k, g) => if k == m then Some(g) else None
    case LoadExit(k, r) => if k == m then r else None
    case Done(Got(k, r)) => if k == m then r else None
    case _ => None
  }

  ghost predicate CalmState(s: State) {
    && (forall t: Tid :: Calm(PcOf(s, t)))
    && (forall m: Mode :: s.cells[m].clears == 0)
    && (forall t: Tid, m: Mode :: InHand(PcOf(s, t), m).Some? ==> InHand(PcOf(s, t), m) == s.cells[m].slot.data)
  }

  lemma CalmMove(c: Cell, t: Tid, pc: Pc, disk: Option<Graph>, owner: Pc)
    requires !Resting(pc) && Calm(pc) && Calm(owner)
    requires Inside(pc, pc.m) <==> c.owner == Some(t)
    requires c.owner == Some(t) ==> owner == pc
    requires SlotOk(c.slot, owner)
    requires InHand(pc, pc.m).Some? ==> InHand(pc, pc.m) == c.slot.data
    ensures var move := MoveOf(c, t, pc, disk);
      && Calm(move.pc)
      && move.cell.clears == c.clears
      && (c.slot.data.Some? ==> move.cell.slot.data == c.slot.data)
      && (InHand(move.pc, pc.m).Some? ==> InHand(move.pc, pc.m) == move.cell.slot.data)
      && (forall m: Mode :: m != pc.m ==> InHand(move.pc, m).None?)
  {
  }

  lemma CalmMoveKeeps(s: State, t: Tid, move: Move, s': State)
    requires CalmState(s)
    requires !Resting(PcOf(s, t)) && Calm(move.pc)
    requires s' == State(s.cells[PcOf(s, t).m := move.cell], s.pcs[t := move.pc])
    requires move.cell.clears == 0
    requires s.cells[PcOf(s, t).m].slot.data.Some? ==> move.cell.slot.data == s.cells[PcOf(s, t).m].slot.data
    requires InHand(move.pc, PcOf(s, t).m).Some? ==> InHand(move.pc, PcOf(s, t).m) == move.cell.slot.data
    requires forall m: Mode :: m != PcOf(s, t).m ==> InHand(move.pc, m).None?
    ensures CalmState(s')
  {
    assert forall u: Tid :: PcOf(s', u) == if u == t then s'.pcs[t] else PcOf(s, u);
    forall u: Tid, m: Mode | InHand(PcOf(s', u), m).Some?
      ensures InHand(PcOf(s', u), m) == s'.cells[m].slot.data
    {
      assert InHand(PcOf(s, u), m).Some? ==> InHand(PcOf(s, u), m) == s.cells[m].slot.data;
    }
  }

  lemma CalmStep(s: State, a: Action)
    requires CalmState(s) && Inv(s)
    requires a.Start? ==> a.op.Route? || a.op.Load?
    ensures CalmState(Apply(s, a))
  {
    var pc := PcOf(s, a.t);
    if a.Step? && !Resting(pc) {
      assert Inside(pc, pc.m) <==> s.cells[pc.m].owner == Some(a.t);
      assert SlotOk(s.cells[pc.m].slot, OwnerPc(s, pc.m));
      assert InHand(pc, pc.m).Some? ==> InHand(pc, pc.m) == s.cells[pc.m].slot.data;
      CalmMove(s.cells[pc.m], a.t, pc, a.disk, OwnerPc(s, pc.m));
      CalmMoveKeeps(s, a.t, MoveOf(s.cells[pc.m], a.t, pc, a.disk), Apply(s, a));
    } else if a.Start? && Resting(pc) {
      CalmStart(s, a.t, a.op);
    }
  }

  lemma CalmStart(s: State, t: Tid, op: Op)
    requires CalmState(s) && (op.Route? || op.Load?)
    ensures CalmState(s.(pcs := s.pcs[t := StartPc(op)]))
  {
    var s' := s.(pcs := s.pcs[t := StartPc(op)]);
    assert forall u: Tid :: PcOf(s', u) == if u == t then s'.pcs[t] else PcOf(s, u);
    forall u: Tid, m: Mode | InHand(PcOf(s', u), m).Some?
      ensures InHand(PcOf(s', u), m) == s'.cells[m].slot.data
    {
      assert InHand(PcOf(s, u), m) == s.cells[m].slot.data;
    }
  }

  lemma {:induction false} ClearFreeRunsAreCalm(run: seq<Action>)
    requires ClearFree(run)
    ensures CalmState(Exec(run))
  {
    if run != [] {
      ClearFreeRunsAreCalm(run[..|run| - 1]);
      RunsKeepInv(run[..|run| - 1]);
      CalmStep(Exec(run[..|run| - 1]), run[|run| - 1]);
    }
  }

  /** Without clearing, a mode is read from disk into memory at most once. */
  lemma ClearFreeLoadsOnce(run: seq<Action>, m: Mode)
    requires ClearFree(run)
    ensures Exec(run).cells[m].loads <= 1
  {
    ClearFreeRunsAreCalm(run);
    LoadsMinusClears(run, m);
  }

  /** Without clearing, a reader that passes the unlocked check gets the data. */
  lemma ClearFreeFastReader(run: seq<Action>, t: Tid, disk: Option<Graph>)
    requires ClearFree(run) && PcOf(Exec(run), t).FastGet?
    ensures PcOf(Exec(run + [Step(t, disk)]), t).out.graph.Some?
  {
    ClearFreeRunsAreCalm(run);
    RunsKeepInv(run);
    FastReader(run, t, disk);
    var s, pc := Exec(run), PcOf(Exec(run), t);
    assert LocalOk(s.cells[pc.m], pc);
    assert Calm(pc);
  }

  /** Without clearing, all callers that get a graph of a mode get the same object, the one in memory. */
  lemma ClearFreeCallersShare(run: seq<Action>, t: Tid, u: Tid, m: Mode, g: Graph, h: Graph)
    requires ClearFree(run)
    requires PcOf(Exec(run), t) == Done(Got(m, Some(g)))
    requires PcOf(Exec(run), u) == Done(Got(m, Some(h)))
    ensures g == h && Exec(run).cells[m].slot.data == Some(g)
  {
    ClearFreeRunsAreCalm(run);
    var s := Exec(run);
    assert InHand(PcOf(s, t), m) == s.cells[m].slot.data;
    assert InHand(PcOf(s, u), m) == s.cells[m].slot.data;
  }

  // ---------- Lost updates of cache_hits ----------

  predicate Counting(pc: Pc, m: Mode) {
    (pc.FastHitWrite? || pc.SlowHitWrite?) && pc.m == m
  }

  /** In no state passed by the run are two threads between reading and writing the same counter. */
  ghost predicate Serialised(run: seq<Action>) {
    forall i, t: Tid, u: Tid, m: Mode | 0 <= i <= |run| ::
      Counting(PcOf(Exec(run[..i]), t), m) && Counting(PcOf(Exec(run[..i]), u), m) ==> t == u
  }

  ghost predicate HitsExact(s: State) {
    && (forall m: Mode :: s.cells[m].slot.hits == s.cells[m].hitsDone)
    && (forall t: Tid, m: Mode :: Counting(PcOf(s, t), m) ==> PcOf(s, t).tmp == s.cells[m].slot.hits)
  }

  lemma CountingMove(c: Cell, t: Tid, pc: Pc, disk: Option<Graph>)
    requires !Resting(pc)
    requires c.slot.hits == c.hitsDone
    requires Counting(pc, pc.m) ==> pc.tmp == c.slot.hits
    ensures var move := MoveOf(c, t, pc, disk);
      && move.cell.slot.hits == move.cell.hitsDone
      && (!Counting(pc, pc.m) ==> move.cell.slot.hits == c.slot.hits)
      && (Counting(move.pc, pc.m) ==> move.pc.tmp == move.cell.slot.hits)
      && (forall m: Mode :: m != pc.m ==> !Counting(move.pc, m))
  {
  }

  lemma CountingStep(s: State, a: Action)
    requires HitsExact(s)
    requires forall t: Tid, u: Tid, m: Mode :: Counting(PcOf(s, t), m) && Counting(PcOf(s, u), m) ==> t == u
    ensures HitsExact(Apply(s, a))
  {
    var pc := PcOf(s, a.t);
    if a.Step? && !Resting(pc) {
      CountingMove(s.cells[pc.m], a.t, pc, a.disk);
      CountingKeeps(s, a.t, MoveOf(s.cells[pc.m], a.t, pc, a.disk), Apply(s, a));
    } else if a.Start? && Resting(pc) {
      assert forall t: Tid :: PcOf(Apply(s, a), t) == if t == a.t then StartPc(a.op) else PcOf(s, t);
    }
  }

  lemma CountingKeeps(s: State, t: Tid, move: Move, s': State)
    requires HitsExact(s) && !Resting(PcOf(s, t))
    requires forall t: Tid, u: Tid, m: Mode :: Counting(PcOf(s, t), m) && Counting(PcOf(s, u), m) ==> t == u
    requires s' == State(s.cells[PcOf(s, t).m := move.cell], s.pcs[t := move.pc])
    requires move.cell.slot.hits == move.cell.hitsDone
    requires !Counting(PcOf(s, t), PcOf(s, t).m) ==> move.cell.slot.hits == s.cells[PcOf(s, t).m].slot.hits
    requires Counting(move.pc, PcOf(s, t).m) ==> move.pc.tmp == move.cell.slot.hits
    requires forall m: Mode :: m != PcOf(s, t).m ==> !Counting(move.pc, m)
    ensures HitsExact(s')
  {
    forall u: Tid, m: Mode | Counting(PcOf(s', u), m) ensures PcOf(s', u).tmp == s'.cells[m].slot.hits {
      if u != t {
        assert Counting(PcOf(s, u), m);
        assert Counting(PcOf(s, t), m) ==> t == u;
      }
    }
  }

  /** When increments never overlap, `cache_hits` is exact. */
  lemma {:induction false} SerialisedHitsAreExact(run: seq<Action>)
    requires Serialised(run)
    ensures HitsExact(Exec(run))
  {
    if run != [] {
      var prefix := run[..|run| - 1];
      assert forall i | 0 <= i <= |prefix| :: prefix[..i] == run[..i];
      SerialisedHitsAreExact(prefix);
      CountingStep(Exec(prefix), run[|run| - 1]);
    }
  }

  // ---------- Exactly when an update is lost ----------

  /** A step that writes the counter of m finds there what the thread's own read found. */
  predicate WriteIsExact(s: State, a: Action, m: Mode) {
    a.Step? && Counting(PcOf(s, a.t), m) ==> PcOf(s, a.t).tmp == s.cells[m].slot.hits
  }

  ghost predicate WritesAreExact(run: seq<Action>, m: Mode) {
    forall i | 0 <= i < |run| :: WriteIsExact(Exec(run[..i]), run[i], m)
  }

  /**
    As long as all writes have been exact, the counter is.  Afterwards it is behind for good: no thread between
    its read and its write has in hand what would make up for the loss.
   */
  ghost predicate CounterTells(s: State, m: Mode, exact: bool) {
    var c := s.cells[m];
    if exact then c.slot.hits == c.hitsDone
    else c.slot.hits < c.hitsDone && forall t: Tid :: Counting(PcOf(s, t), m) ==> PcOf(s, t).tmp < c.hitsDone
  }

  lemma MoveTells(c: Cell, t: Tid, pc: Pc, disk: Option<Graph>)
    requires !Resting(pc) && (Counting(pc, pc.m) ==> pc.tmp <= c.hitsDone)
    ensures var c', pc' := MoveOf(c, t, pc, disk).cell, MoveOf(c, t, pc, disk).pc;
      && (if Counting(pc, pc.m) then c'.slot.hits == pc.tmp + 1 && c'.hitsDone == c.hitsDone + 1
          else c'.slot.hits == c.slot.hits && c'.hitsDone == c.hitsDone)
      && (Counting(pc', pc.m) ==> !Counting(pc, pc.m) && pc'.tmp == c.slot.hits)
      && forall m: Mode :: m != pc.m ==> !Counting(pc', m)
  {
  }

  lemma InHandIsBounded(s: State, t: Tid, m: Mode)
    requires Inv(s) && Counting(PcOf(s, t), m)
    ensures PcOf(s, t).tmp <= s.cells[m].hitsDone
  {
    assert LocalOk(s.cells[PcOf(s, t).m], PcOf(s, t));
  }

  lemma StepTells(s: State, a: Action, m: Mode, exact: bool)
    requires Inv(s) && CounterTells(s, m, exact)
    ensures CounterTells(Apply(s, a), m, exact && WriteIsExact(s, a, m))
  {
    var pc, s' := PcOf(s, a.t), Apply(s, a);
    if a.Step? && !Resting(pc) {
      if Counting(pc, pc.m) {
        InHandIsBounded(s, a.t, pc.m);
      }
      MoveTells(s.cells[pc.m], a.t, pc, a.disk);
      forall u: Tid | Counting(PcOf(s', u), m) && !(exact && WriteIsExact(s, a, m)) ensures PcOf(s', u).tmp < s'.cells[m].hitsDone {
        if u != a.t {
          assert Counting(PcOf(s, u), m);
          InHandIsBounded(s, u, m);
        }
      }
    } else if a.Start? && Resting(pc) {
      assert forall u: Tid :: PcOf(s', u) == if u == a.t then StartPc(a.op) else PcOf(s, u);
    }
  }

  ghost predicate ExactSoFar(run: seq<Action>, m: Mode) {
    run == [] || (ExactSoFar(run[..|run| - 1], m) && WriteIsExact(Exec(run[..|run| - 1]), run[|run| - 1], m))
  }

  lemma {:induction false} RunsTell(run: seq<Action>, m: Mode)
    ensures CounterTells(Exec(run), m, ExactSoFar(run, m))
  {
    if run != [] {
      var init, last := run[..|run| - 1], run[|run| - 1];
      RunsTell(init, m);
      RunsKeepInv(init);
      StepTells(Exec(init), last, m, ExactSoFar(init, m));
    }
  }

  lemma {:induction false} ExactSoFarIff(run: seq<Action>, m: Mode)
    ensures ExactSoFar(run, m) <==> WritesAreExact(run, m)
  {
    if run != [] {
      ExactSoFarIff(run[..|run| - 1], m);
      assert run == run[..|run| - 1] + [run[|run| - 1]];
      OneMoreWrite(run[..|run| - 1], run[|run| - 1], m);
    }
  }

  lemma OneMoreWrite(init: seq<Action>, last: Action, m: Mode)
    ensures WritesAreExact(init + [last], m) <==> WritesAreExact(init, m) && WriteIsExact(Exec(init), last, m)
  {
    var run := init + [last];
    assert run[..|init|] == init;
    assert forall i | 0 <= i < |init| :: init[..i] == run[..i] && init[i] == run[i];
    assert WritesAreExact(run, m) ==> WriteIsExact(Exec(run[..|init|]), run[|init|], m);
    assert WritesAreExact(run, m) ==> forall i | 0 <= i < |init| :: WriteIsExact(Exec(run[..i]), run[i], m);
  }

  /** After any run, the stored hits of a mode are the completed ones if and only if every write of its counter found the value its own read had found. */
  lemma HitsAreExactIff(run: seq<Action>, m: Mode)
    ensures Exec(run).cells[m].slot.hits == Exec(run).cells[m].hitsDone <==> WritesAreExact(run, m)
  {
    RunsTell(run, m);
    ExactSoFarIff(run, m);
  }
}
