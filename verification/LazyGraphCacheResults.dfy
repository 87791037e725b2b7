/** What the calls of the lazy graph cache return, and why, over every run. */
module LazyGraphCacheResults {
  import opened Wrappers
  import opened LazyGraphCache
  import opened LazyGraphCacheSafety

  /** The action starts a call of thread t: a thread that is inside a call does not start another one. */
  predicate StartsCall(s: State, a: Action, t: Tid) {
    a.Start? && a.t == t && Resting(PcOf(s, t))
  }

  /** From the given moment of the run on, no call of thread t starts. */
  predicate SameCall(run: seq<Action>, start: nat, t: Tid) {
    |run| > start ==>
      SameCall(run[..|run| - 1], start, t) && !StartsCall(Exec(run[..|run| - 1]), run[|run| - 1], t)
  }

  /** How one action moves thread t. */
  lemma PcAfter(s: State, a: Action, t: Tid)
    ensures var pc, pc' := PcOf(s, t), PcOf(Apply(s, a), t);
      if StartsCall(s, a, t) then pc' == StartPc(a.op)
      else if a.Step? && a.t == t && !Resting(pc) then
        pc' == MoveOf(s.cells[pc.m], t, pc, a.disk).pc && Apply(s, a).cells[pc.m] == MoveOf(s.cells[pc.m], t, pc, a.disk).cell
      else pc' == pc
  {
  }

  lemma ClearsGetNothing(run: seq<Action>, t: Tid)
    ensures PcOf(Exec(run), t).ClearExit? ==> !PcOf(Exec(run), t).out.Got?
  {
    RunsKeepInv(run);
    var s := Exec(run);
    assert PcOf(s, t).ClearExit? ==> LocalOk(s.cells[PcOf(s, t).m], PcOf(s, t));
  }

  // ---------- Under the lock ----------

  /**
    A load that stands at pc is bound to return r as the graph of mode m: it holds the lock and r is what the
    memory holds or what it is about to store, or it has left with r.
   */
  predicate BoundFor(slot: Slot, pc: Pc, m: Mode, r: Option<Graph>) {
    match pc
    case SlowCheck(k) => k == m && slot.flag && slot.data == r
    case SlowHitRead(k) => k == m && slot.data == r
    case SlowHitWrite(k, _) => k == m && slot.data == r
    case SlowGet(k) => k == m && slot.data == r
    case StoreData(k, g) => k == m && r == Some(g)
    case StoreFlag(k, g) => k == m && r == Some(g)
    case LoadExit(k, x) => k == m && r == x
    case Done(out) => out == Got(m, r)
    case _ => false
  }

  lemma MoveStaysBound(c: Cell, t: Tid, pc: Pc, disk: Option<Graph>, m: Mode, r: Option<Graph>)
    requires BoundFor(c.slot, pc, m, r) && !Resting(pc)
    ensures pc.m == m && BoundFor(MoveOf(c, t, pc, disk).cell.slot, MoveOf(c, t, pc, disk).pc, m, r)
  {
  }

  lemma ActionStaysBound(run: seq<Action>, a: Action, t: Tid, m: Mode, r: Option<Graph>)
    requires BoundFor(Exec(run).cells[m].slot, PcOf(Exec(run), t), m, r) && !StartsCall(Exec(run), a, t)
    ensures BoundFor(Apply(Exec(run), a).cells[m].slot, PcOf(Apply(Exec(run), a), t), m, r)
  {
    var s := Exec(run);
    PcAfter(s, a, t);
    if a.Step? && a.t == t && !Resting(PcOf(s, t)) {
      MoveStaysBound(s.cells[m], t, PcOf(s, t), a.disk, m, r);
    } else if HoldsLock(PcOf(s, t)) {
      OwnersSlot(run, t);
      OnlyTheOwnerWrites(run, a, m);
    }
  }

  lemma {:induction false} StaysBound(run: seq<Action>, start: nat, t: Tid, m: Mode, r: Option<Graph>)
    requires start <= |run| && SameCall(run, start, t)
    requires BoundFor(Exec(run[..start]).cells[m].slot, PcOf(Exec(run[..start]), t), m, r)
    ensures BoundFor(Exec(run).cells[m].slot, PcOf(Exec(run), t), m, r)
  {
    if start == |run| {
      assert run[..start] == run;
    } else {
      var init := run[..|run| - 1];
      assert init[..start] == run[..start];
      StaysBound(init, start, t, m, r);
      ActionStaysBound(init, run[|run| - 1], t, m, r);
    }
  }

  lemma BoundReturns(run: seq<Action>, before: seq<Action>, t: Tid, m: Mode, r: Option<Graph>)
    requires before <= run && SameCall(run, |before|, t) && PcOf(Exec(run), t).Done?
    requires BoundFor(Exec(before).cells[m].slot, PcOf(Exec(before), t), m, r)
    ensures PcOf(Exec(run), t) == Done(Got(m, r))
  {
    assert run[..|before|] == before;
    StaysBound(run, |before|, t, m, r);
  }

  /**
    A load that holds the lock and finds the flag set returns exactly the graph that is in memory then, and there
    is one, whatever other threads do until it returns.
   */
  lemma FlagUnderLockReturns(run: seq<Action>, before: seq<Action>, t: Tid, m: Mode)
    requires before <= run && PcOf(Exec(before), t) == SlowCheck(m) && Exec(before).cells[m].slot.flag
    requires SameCall(run, |before|, t) && PcOf(Exec(run), t).Done?
    ensures var data := Exec(before).cells[m].slot.data;
      data.Some? && PcOf(Exec(run), t) == Done(Got(m, data))
  {
    OwnersSlot(before, t);
    BoundReturns(run, before, t, m, Exec(before).cells[m].slot.data);
  }

  /** What a load finds in memory after it has counted its hit under the lock is what it returns. */
  lemma SlowGetReturns(run: seq<Action>, before: seq<Action>, t: Tid, m: Mode)
    requires before <= run && PcOf(Exec(before), t) == SlowGet(m)
    requires SameCall(run, |before|, t) && PcOf(Exec(run), t).Done?
    ensures var data := Exec(before).cells[m].slot.data;
      data.Some? && PcOf(Exec(run), t) == Done(Got(m, data))
  {
    OwnersSlot(before, t);
    BoundReturns(run, before, t, m, Exec(before).cells[m].slot.data);
  }

  /** A load that goes to the disk returns exactly what that read delivers. */
  lemma DiskReadReturns(run: seq<Action>, before: seq<Action>, t: Tid, m: Mode, disk: Option<Graph>)
    requires PcOf(Exec(before), t) == DiskRead(m) && before + [Step(t, disk)] <= run
    requires SameCall(run, |before| + 1, t) && PcOf(Exec(run), t).Done?
    ensures PcOf(Exec(run), t) == Done(Got(m, disk))
  {
    ReadIsBound(before, t, m, disk);
    BoundReturns(run, before + [Step(t, disk)], t, m, disk);
  }

  lemma ReadIsBound(run: seq<Action>, t: Tid, m: Mode, disk: Option<Graph>)
    requires PcOf(Exec(run), t) == DiskRead(m)
    ensures var s := Exec(run + [Step(t, disk)]); BoundFor(s.cells[m].slot, PcOf(s, t), m, disk)
  {
    ExecSnoc(run, Step(t, disk));
    PcAfter(Exec(run), Step(t, disk), t);
  }

  // ---------- When a call returns nothing ----------

  predicate FailsToRead(s: State, a: Action, t: Tid, m: Mode) {
    a == Step(t, None) && PcOf(s, t) == DiskRead(m)
  }

  /** In its present or last call, thread t's own read of the disk for mode m has failed. */
  predicate ReadFailed(run: seq<Action>, t: Tid, m: Mode) {
    run != [] &&
    var s, a := Exec(run[..|run| - 1]), run[|run| - 1];
    FailsToRead(s, a, t, m) || (ReadFailed(run[..|run| - 1], t, m) && !StartsCall(s, a, t))
  }

  predicate FindsGone(s: State, a: Action, t: Tid, m: Mode) {
    a.Step? && a.t == t && PcOf(s, t).FastGet? && PcOf(s, t).m == m && s.cells[m].slot.data.None?
  }

  /** In its present or last call, thread t has passed the unlocked check and then found mode m gone from memory. */
  predicate FoundGone(run: seq<Action>, t: Tid, m: Mode) {
    run != [] &&
    var s, a := Exec(run[..|run| - 1]), run[|run| - 1];
    FindsGone(s, a, t, m) || (FoundGone(run[..|run| - 1], t, m) && !StartsCall(s, a, t))
  }

  predicate HasNothing(pc: Pc, m: Mode) {
    pc == LoadExit(m, None) || pc == Done(Got(m, None))
  }

  /** A thread has nothing to show after a failed read of its own, or an unlocked read of absent data. */
  lemma NothingMove(c: Cell, t: Tid, pc: Pc, disk: Option<Graph>, m: Mode)
    requires !Resting(pc) && (pc.SlowGet? ==> c.slot.data.Some?) && (pc.ClearExit? ==> !pc.out.Got?)
    ensures HasNothing(MoveOf(c, t, pc, disk).pc, m) <==>
      HasNothing(pc, m) || (pc.m == m && ((pc.DiskRead? && disk.None?) || (pc.FastGet? && c.slot.data.None?)))
  {
  }

  lemma NothingAfter(s: State, a: Action, t: Tid, m: Mode)
    requires ReadyForMove(s, t)
    ensures HasNothing(PcOf(Apply(s, a), t), m) <==>
      FailsToRead(s, a, t, m) || FindsGone(s, a, t, m) || (HasNothing(PcOf(s, t), m) && !StartsCall(s, a, t))
  {
    PcAfter(s, a, t);
    if a.Step? && a.t == t && !Resting(PcOf(s, t)) {
      NothingMove(s.cells[PcOf(s, t).m], t, PcOf(s, t), a.disk, m);
    }
  }

  predicate ReadyForMove(s: State, t: Tid) {
    var pc := PcOf(s, t);
    (pc.SlowGet? ==> s.cells[pc.m].slot.data.Some?) && (pc.ClearExit? ==> !pc.out.Got?)
  }

  lemma RunsAreReady(run: seq<Action>, t: Tid)
    ensures ReadyForMove(Exec(run), t)
  {
    ClearsGetNothing(run, t);
    if PcOf(Exec(run), t).SlowGet? {
      OwnersSlot(run, t);
    }
  }

  lemma {:induction false} NothingHasAReason(run: seq<Action>, t: Tid, m: Mode)
    ensures HasNothing(PcOf(Exec(run), t), m) <==> ReadFailed(run, t, m) || FoundGone(run, t, m)
  {
    if run != [] {
      NothingHasAReason(run[..|run| - 1], t, m);
      RunsAreReady(run[..|run| - 1], t);
      NothingAfter(Exec(run[..|run| - 1]), run[|run| - 1], t, m);
    }
  }

  /**
    After any run, a call that has returned has nothing to show if and only if its own read of the disk failed,
    or it passed the unlocked check and then found the mode gone.
   */
  lemma ReturnsNothingIff(run: seq<Action>, t: Tid, m: Mode, r: Option<Graph>)
    requires PcOf(Exec(run), t) == Done(Got(m, r))
    ensures r.None? <==> ReadFailed(run, t, m) || FoundGone(run, t, m)
  {
    NothingHasAReason(run, t, m);
  }

  lemma {:induction false} ClearFreeFindsAll(run: seq<Action>, t: Tid, m: Mode)
    requires ClearFree(run)
    ensures !FoundGone(run, t, m)
  {
    if run != [] {
      var init := run[..|run| - 1];
      ClearFreeFindsAll(init, t, m);
      if PcOf(Exec(init), t).FastGet? {
        FastReader(init, t, None);
        ClearFreeFastReader(init, t, None);
      }
    }
  }

  /** Without clearing, a call returns nothing if and only if its own read of the disk failed. */
  lemma ClearFreeReturnsNothingIff(run: seq<Action>, t: Tid, m: Mode, r: Option<Graph>)
    requires ClearFree(run) && PcOf(Exec(run), t) == Done(Got(m, r))
    ensures r.None? <==> ReadFailed(run, t, m)
  {
    NothingHasAReason(run, t, m);
    ClearFreeFindsAll(run, t, m);
  }

  // ---------- Where a returned graph was ----------

  predicate InMemory(s: State, m: Mode, g: Graph) {
    s.cells[m].slot.data == Some(g)
  }

  /** At some moment of thread t's present or last call, graph g of mode m was in memory. */
  predicate WasInMemory(run: seq<Action>, t: Tid, m: Mode, g: Graph) {
    InMemory(Exec(run), m, g) ||
    (run != [] && WasInMemory(run[..|run| - 1], t, m, g) && !StartsCall(Exec(run[..|run| - 1]), run[|run| - 1], t))
  }

  predicate HasGraph(pc: Pc, m: Mode, g: Graph) {
    pc == StoreFlag(m, g) || pc == LoadExit(m, Some(g)) || pc == Done(Got(m, Some(g)))
  }

  lemma LoadMoveHasGraph(c: Cell, t: Tid, pc: Pc, disk: Option<Graph>, m: Mode, g: Graph)
    requires !Resting(pc) && !ClearingOne(pc) && !ClearingAll(pc) && HasGraph(MoveLoad(c, t, pc, disk).pc, m, g)
    ensures pc.m == m && (HasGraph(pc, m, g) || c.slot.data == Some(g) || MoveLoad(c, t, pc, disk).cell.slot.data == Some(g))
  {
  }

  lemma GraphMove(c: Cell, t: Tid, pc: Pc, disk: Option<Graph>, m: Mode, g: Graph)
    requires !Resting(pc) && (pc.ClearExit? ==> !pc.out.Got?) && HasGraph(MoveOf(c, t, pc, disk).pc, m, g)
    ensures pc.m == m && (HasGraph(pc, m, g) || c.slot.data == Some(g) || MoveOf(c, t, pc, disk).cell.slot.data == Some(g))
  {
    if !ClearingOne(pc) && !ClearingAll(pc) {
      LoadMoveHasGraph(c, t, pc, disk, m, g);
    }
  }

  /** The graph a call returns was in memory at some moment of the call. */
  lemma {:induction false} ReturnedGraphWasInMemory(run: seq<Action>, t: Tid, m: Mode, g: Graph)
    requires HasGraph(PcOf(Exec(run), t), m, g)
    ensures WasInMemory(run, t, m, g)
  {
    if run != [] {
      var init, a := run[..|run| - 1], run[|run| - 1];
      var s := Exec(init);
      PcAfter(s, a, t);
      if HasGraph(PcOf(s, t), m, g) {
        ReturnedGraphWasInMemory(init, t, m, g);
      } else {
        ClearsGetNothing(init, t);
        GraphMove(s.cells[PcOf(s, t).m], t, PcOf(s, t), a.disk, m, g);
        assert InMemory(s, m, g) ==> WasInMemory(init, t, m, g);
      }
    }
  }

  // ---------- Hits ----------

  /** A load finds the flag of m set, with the lock or without. */
  predicate FindsFlag(s: State, a: Action, m: Mode) {
    a.Step? && (PcOf(s, a.t) == FastCheck(m) || PcOf(s, a.t) == SlowCheck(m)) && s.cells[m].slot.flag
  }

  function Finds(run: seq<Action>, m: Mode): nat {
    if run == [] then 0
    else Finds(run[..|run| - 1], m) + if FindsFlag(Exec(run[..|run| - 1]), run[|run| - 1], m) then 1 else 0
  }

  predicate AboutToCount(pc: Pc, m: Mode) {
    (pc.FastHitRead? || pc.FastHitWrite? || pc.SlowHitRead? || pc.SlowHitWrite?) && pc.m == m
  }

  /** The threads that have found the flag of m set and not yet completed their count of a hit. */
  function Pending(s: State, m: Mode): (pending: set<Tid>)
    ensures forall t: Tid :: t in pending <==> AboutToCount(PcOf(s, t), m)
  {
    set t | t in s.pcs && AboutToCount(s.pcs[t], m)
  }

  lemma OthersStay(s: State, a: Action, u: Tid)
    requires u != a.t
    ensures PcOf(Apply(s, a), u) == PcOf(s, u)
  {
  }

  /** One action changes at most whether its own thread is pending. */
  lemma PendingAfter(s: State, a: Action, m: Mode)
    ensures var before, after := AboutToCount(PcOf(s, a.t), m), AboutToCount(PcOf(Apply(s, a), a.t), m);
      |Pending(Apply(s, a), m)| == |Pending(s, m)| + (if after then 1 else 0) - if before then 1 else 0
  {
    var p, p' := Pending(s, m), Pending(Apply(s, a), m);
    forall u: Tid | u != a.t ensures u in p' <==> u in p {
      OthersStay(s, a, u);
    }
    assert p' - {a.t} == p - {a.t};
    SizeWithout(p, a.t);
    SizeWithout(p', a.t);
  }

  lemma SizeWithout(s: set<Tid>, t: Tid)
    ensures |s| == |s - {t}| + if t in s then 1 else 0
  {
    if t !in s {
      assert s - {t} == s;
    }
  }

  lemma FindMove(c: Cell, t: Tid, pc: Pc, disk: Option<Graph>, m: Mode)
    requires !Resting(pc)
    ensures var move := MoveOf(c, t, pc, disk);
      var finds := pc.m == m && (pc.FastCheck? || pc.SlowCheck?) && c.slot.flag;
      var counts := if pc.m == m then move.cell.hitsDone - c.hitsDone else 0;
      && 0 <= counts <= 1 && !(finds && AboutToCount(pc, m))
      && (AboutToCount(move.pc, m) <==> finds || (AboutToCount(pc, m) && counts == 0))
      && (counts == 1 ==> AboutToCount(pc, m))
  {
  }

  lemma OneMoreFind(s: State, a: Action, m: Mode)
    ensures var s' := Apply(s, a);
      s'.cells[m].hitsDone + |Pending(s', m)|
      == s.cells[m].hitsDone + |Pending(s, m)| + if FindsFlag(s, a, m) then 1 else 0
  {
    var s', pc := Apply(s, a), PcOf(s, a.t);
    PcAfter(s, a, a.t);
    HitsAfter(s, a, m);
    if a.Step? && !Resting(pc) {
      FindMove(s.cells[pc.m], a.t, pc, a.disk, m);
    }
    PendingAfter(s, a, m);
  }

  lemma HitsAfter(s: State, a: Action, m: Mode)
    ensures var pc := PcOf(s, a.t);
      Apply(s, a).cells[m].hitsDone == if a.Step? && !Resting(pc) && pc.m == m then MoveOf(s.cells[m], a.t, pc, a.disk).cell.hitsDone else s.cells[m].hitsDone
  {
  }

  /** Every load that finds the flag set counts one hit: finds are the completed counts and those under way. */
  lemma {:induction false} EveryFindCountsOnce(run: seq<Action>, m: Mode)
    ensures Finds(run, m) == Exec(run).cells[m].hitsDone + |Pending(Exec(run), m)|
  {
    if run != [] {
      EveryFindCountsOnce(run[..|run| - 1], m);
      OneMoreFind(Exec(run[..|run| - 1]), run[|run| - 1], m);
    }
  }

  // ---------- Clearing all modes ----------

  predicate DropsAt(s: State, t: Tid, m: Mode) {
    s.cells[m].owner == Some(t) && s.cells[m].slot.data.None? && !s.cells[m].slot.flag
  }

  /** At some moment since the given one, thread t held the lock of m with data and flag dropped. */
  predicate DroppedBy(run: seq<Action>, start: nat, t: Tid, m: Mode) {
    |run| > start && (DropsAt(Exec(run), t, m) || DroppedBy(run[..|run| - 1], start, t, m))
  }

  predicate Earlier(k: Mode, m: Mode) {
    match m
    case Drive => false
    case Walk => k == Drive
    case Bike => k == Drive || k == Walk
  }

  /** Mode k is behind a thread that clears all modes. */
  predicate Behind(pc: Pc, k: Mode) {
    match pc
    case AllWait(m) => Earlier(k, m)
    case AllTest(m) => Earlier(k, m)
    case AllDelete(m) => Earlier(k, m)
    case AllUnflag(m) => Earlier(k, m)
    case AllExit(m) => k == m || Earlier(k, m)
    case _ => true
  }

  predicate InClearAll(pc: Pc) {
    ClearingAll(pc) || pc == Done(Cleared)
  }

  lemma TurnMove(c: Cell, t: Tid, pc: Pc, k: Mode)
    requires ClearingAll(pc) && (pc.AllDelete? ==> c.slot.data.Some?) && (pc.AllUnflag? ==> c.slot.data.None?)
    ensures var move := MoveAll(c, t, pc);
      && InClearAll(move.pc)
      && (Behind(move.pc, k) ==> Behind(pc, k) || (k == pc.m && pc.AllUnflag? && move.cell.slot.data.None? && !move.cell.slot.flag))
  {
  }

  lemma ClearAllAfter(s: State, a: Action, t: Tid, k: Mode)
    requires InClearAll(PcOf(s, t)) && !StartsCall(s, a, t)
    requires HoldsLock(PcOf(s, t)) ==> var c := s.cells[PcOf(s, t).m]; c.owner == Some(t) && SlotOk(c.slot, PcOf(s, t))
    ensures var s' := Apply(s, a);
      InClearAll(PcOf(s', t)) && (Behind(PcOf(s', t), k) ==> Behind(PcOf(s, t), k) || DropsAt(s', t, k))
  {
    PcAfter(s, a, t);
    if a.Step? && a.t == t && !Resting(PcOf(s, t)) {
      TurnMove(s.cells[PcOf(s, t).m], t, PcOf(s, t), k);
    }
  }

  lemma {:induction false} ClearAllGoesOn(run: seq<Action>, start: nat, t: Tid, k: Mode)
    requires start <= |run| && PcOf(Exec(run[..start]), t) == StartPc(ClearAll) && SameCall(run, start, t)
    ensures var pc := PcOf(Exec(run), t); InClearAll(pc) && (Behind(pc, k) ==> DroppedBy(run, start, t, k))
  {
    if start == |run| {
      assert run[..start] == run;
    } else {
      var init := run[..|run| - 1];
      assert init[..start] == run[..start];
      ClearAllGoesOn(init, start, t, k);
      if HoldsLock(PcOf(Exec(init), t)) {
        OwnersSlot(init, t);
      }
      ClearAllAfter(Exec(init), run[|run| - 1], t, k);
    }
  }

  /** Clearing all modes returns without an error, and by then has dropped data and flag of every mode under its lock. */
  lemma ClearAllDropsAll(run: seq<Action>, start: nat, t: Tid)
    requires start <= |run| && PcOf(Exec(run[..start]), t) == StartPc(ClearAll)
    requires SameCall(run, start, t) && PcOf(Exec(run), t).Done?
    ensures PcOf(Exec(run), t) == Done(Cleared) && forall m: Mode :: DroppedBy(run, start, t, m)
  {
    forall m: Mode ensures PcOf(Exec(run), t) == Done(Cleared) && DroppedBy(run, start, t, m) {
      ClearAllGoesOn(run, start, t, m);
    }
    ClearAllGoesOn(run, start, t, Drive);
  }
}
