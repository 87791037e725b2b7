/**
  The router of services/chile_multimodal_router.py called from one thread: its methods over its
  dictionaries, and the proof that an uninterrupted run of the interleaved protocol is such a call.
 */
module GraphRouter {
  import opened Wrappers
  import opened LazyGraphCache

  /** What an uninterrupted load leaves behind and returns. */
  function LoadAlone(slot: Slot, disk: Option<Graph>): (Slot, Option<Graph>) {
    if slot.flag then (slot.(hits := slot.hits + 1), slot.data)
    else if disk.None? then (slot, None)
    else (slot.(data := disk, flag := true), disk)
  }

  /** What an uninterrupted clear of one mode leaves behind: a mode that is not in memory is left alone. */
  function ClearAlone(slot: Slot): Slot {
    if slot.data.None? then slot else slot.(data := None, flag := false)
  }

  /** optimize_memory drops a loaded mode with fewer than 5 requests and a hit ratio below one half. */
  predicate Unloads(slot: Slot) {
    slot.requests < 5 && slot.flag && (slot.requests == 0 || 2 * slot.hits < slot.requests)
  }

  /**
    Which modes stay: all that are not in memory, that at least 5 requests have asked for, or that were found in
    memory by at least every other request of one or more.
   */
  lemma StaysIff(slot: Slot)
    ensures !Unloads(slot) <==>
      !slot.flag || slot.requests >= 5 || (slot.requests >= 1 && slot.hits as real / slot.requests as real >= 0.5)
  {
    if slot.requests >= 1 {
      assert slot.hits as real == slot.hits as real / slot.requests as real * slot.requests as real;
    }
  }

  class Router {
    var memoryCache: map<Mode, Graph>
    var cacheLoaded: map<Mode, bool>
    var hits: map<Mode, nat>
    var requests: map<Mode, nat>

    /** A mode is flagged as loaded exactly if it is in memory. */
    ghost predicate Valid()
      reads this
    {
      forall m: Mode :: m in cacheLoaded && m in hits && m in requests && (cacheLoaded[m] <==> m in memoryCache)
    }

    ghost function View(m: Mode): Slot
      requires Valid()
      reads this
    {
      Slot(if m in memoryCache then Some(memoryCache[m]) else None, cacheLoaded[m], hits[m], requests[m])
    }

    constructor ()
      ensures Valid() && forall m: Mode :: View(m) == FRESH.slot
    {
      memoryCache := map[];
      cacheLoaded := map[Drive := false, Walk := false, Bike := false];
      hits := map[Drive := 0, Walk := 0, Bike := 0];
      requests := map[Drive := 0, Walk := 0, Bike := 0];
      new;
      forall m: Mode ensures m in cacheLoaded && m in hits && m in requests
                             && !cacheLoaded[m] && hits[m] == 0 && requests[m] == 0 {
        match m case Drive => case Walk => case Bike =>
      }
    }

    method LoadCacheForMode(mode: Mode, disk: Option<Graph>) returns (r: Option<Graph>)
      requires Valid()
      modifies this
      ensures Valid()
      ensures (View(mode), r) == LoadAlone(old(View(mode)), disk)
      ensures forall m: Mode :: m != mode ==> View(m) == old(View(m))
    {
      if cacheLoaded[mode] {
        hits := hits[mode := hits[mode] + 1];
        return Get(mode);
      }
      // With the lock taken the code checks again; no other thread has changed the flag here.
      assert !cacheLoaded[mode];
      if disk.None? {
        return None;
      }
      memoryCache := memoryCache[mode := disk.value];
      cacheLoaded := cacheLoaded[mode := true];
      return disk;
    }

    function Get(mode: Mode): Option<Graph>
      reads this
    {
      if mode in memoryCache then Some(memoryCache[mode]) else None
    }

    /** preload_cache */
    method PreloadCache(mode: Mode, disk: Option<Graph>) returns (available: bool)
      requires Valid()
      modifies this
      ensures Valid()
      ensures View(mode) == LoadAlone(old(View(mode)), disk).0
      ensures available <==> View(mode).data.Some?
      ensures available <==> old(View(mode)).data.Some? || disk.Some?
      ensures forall m: Mode :: m != mode ==> View(m) == old(View(m))
    {
      var r := LoadCacheForMode(mode, disk);
      return r.Some?;
    }

    /** The counting and loading part of get_route; `cached` tells which calculation answers. */
    method GetRoute(mode: Mode, disk: Option<Graph>) returns (cached: bool)
      requires Valid()
      modifies this
      ensures Valid()
      ensures var before := old(View(mode)).(requests := old(View(mode)).requests + 1);
        View(mode) == LoadAlone(before, disk).0 && (cached <==> View(mode).data.Some?)
      ensures forall m: Mode :: m != mode ==> View(m) == old(View(m))
    {
      requests := requests[mode := requests[mode] + 1];
      var r := LoadCacheForMode(mode, disk);
      return r.Some?;
    }

    method ClearMemoryCache(mode: Mode)
      requires Valid()
      modifies this
      ensures Valid()
      ensures View(mode) == ClearAlone(old(View(mode)))
      ensures forall m: Mode :: m != mode ==> View(m) == old(View(m))
    {
      if mode in memoryCache {
        memoryCache := memoryCache - {mode};
        cacheLoaded := cacheLoaded[mode := false];
      }
    }

    /** One mode's turn in clearing all modes. */
    method DropMode(mode: Mode)
      requires Valid()
      modifies this
      ensures Valid()
      ensures View(mode) == old(View(mode)).(data := None, flag := false)
      ensures forall m: Mode :: m != mode ==> View(m) == old(View(m))
    {
      if mode in memoryCache {
        memoryCache := memoryCache - {mode};
      }
      cacheLoaded := cacheLoaded[mode := false];
    }

    method ClearAll()
      requires Valid()
      modifies this
      ensures Valid()
      ensures forall m: Mode :: View(m) == old(View(m)).(data := None, flag := false)
    {
      var modes := [Drive, Walk, Bike];
      for i := 0 to 3
        invariant Valid()
        invariant forall j | 0 <= j < 3 ::
          View(modes[j]) == if j < i then old(View(modes[j])).(data := None, flag := false) else old(View(modes[j]))
      {
        DropMode(modes[i]);
      }
      forall m: Mode ensures View(m) == old(View(m)).(data := None, flag := false) {
        match m
        case Drive => assert View(modes[0]) == View(Drive);
        case Walk => assert View(modes[1]) == View(Walk);
        case Bike => assert View(modes[2]) == View(Bike);
      }
    }

    method UnloadIfRare(mode: Mode) returns (rare: bool)
      requires Valid()
      modifies this
      ensures Valid() && rare == Unloads(old(View(mode)))
      ensures View(mode) == if rare then ClearAlone(old(View(mode))) else old(View(mode))
      ensures forall m: Mode :: m != mode ==> View(m) == old(View(m))
    {
      rare := requests[mode] < 5 && cacheLoaded[mode] && (requests[mode] == 0 || 2 * hits[mode] < requests[mode]);
      if rare {
        ClearMemoryCache(mode);
      }
    }

    /** The unloading loop of optimize_memory: exactly the rarely used modes leave memory. */
    method OptimizeMemory() returns (unloaded: set<Mode>)
      requires Valid()
      modifies this
      ensures Valid()
      ensures forall m: Mode :: m in unloaded <==> Unloads(old(View(m)))
      ensures forall m: Mode :: View(m) == if m in unloaded then ClearAlone(old(View(m))) else old(View(m))
    {
      unloaded := {};
      var modes := [Drive, Walk, Bike];
      for i := 0 to 3
        invariant Valid()
        invariant forall j | 0 <= j < 3 :: modes[j] in unloaded <==> j < i && Unloads(old(View(modes[j])))
        invariant forall j | 0 <= j < 3 ::
          View(modes[j]) == if modes[j] in unloaded then ClearAlone(old(View(modes[j]))) else old(View(modes[j]))
      {
        var rare := UnloadIfRare(modes[i]);
        if rare {
          unloaded := unloaded + {modes[i]};
        }
      }
      forall m: Mode
        ensures m in unloaded <==> Unloads(old(View(m)))
        ensures View(m) == if m in unloaded then ClearAlone(old(View(m))) else old(View(m))
      {
        match m
        case Drive => assert modes[0] == Drive;
        case Walk => assert modes[1] == Walk;
        case Bike => assert modes[2] == Bike;
      }
    }
  }

  // ---------- An uninterrupted run of the protocol is a sequential call ----------

  /** At most n steps of thread t in a row, as long as it works on mode m. */
  function Alone(c: Cell, t: Tid, pc: Pc, m: Mode, disk: Option<Graph>, n: nat): Move
    decreases n
  {
    if n == 0 || Resting(pc) || pc.m != m then Move(c, pc)
    else
      var move := MoveOf(c, t, pc, disk);
      Alone(move.cell, t, move.pc, m, disk, n - 1)
  }

  /** One of the steps of thread t in a row. */
  lemma AloneStep(c: Cell, t: Tid, pc: Pc, m: Mode, disk: Option<Graph>, n: nat)
    requires n > 0 && !Resting(pc) && pc.m == m
    ensures var move := MoveOf(c, t, pc, disk); Alone(c, t, pc, m, disk, n) == Alone(move.cell, t, move.pc, m, disk, n - 1)
  {
  }

  lemma HitRunsAsCall(c: Cell, t: Tid, m: Mode, disk: Option<Graph>)
    requires c.slot.flag
    ensures Alone(c, t, FastCheck(m), m, disk, 7) == Move(WriteHit(c, c.slot.hits), Done(Got(m, c.slot.data)))
  {
    var seen, torn := c.clears, c.slot.data.None?;
    AloneStep(c, t, FastCheck(m), m, disk, 7);
    AloneStep(c, t, FastHitRead(m, seen, torn), m, disk, 6);
    HitIsCounted(c, t, m, seen, torn, disk);
  }

  lemma HitIsCounted(c: Cell, t: Tid, m: Mode, seen: nat, torn: bool, disk: Option<Graph>)
    ensures Alone(c, t, FastHitWrite(m, seen, torn, c.slot.hits), m, disk, 5) == Move(WriteHit(c, c.slot.hits), Done(Got(m, c.slot.data)))
  {
    AloneStep(c, t, FastHitWrite(m, seen, torn, c.slot.hits), m, disk, 5);
    AloneStep(WriteHit(c, c.slot.hits), t, FastGet(m, seen, torn), m, disk, 4);
  }

  lemma DiskRunsAsCall(held: Cell, t: Tid, m: Mode, disk: Option<Graph>)
    requires held.owner == Some(t)
    ensures Alone(held, t, DiskRead(m), m, disk, 4) == Move(
      (if disk.Some? then WriteFlag(WriteData(held, disk.value), true) else held).(owner := None), Done(Got(m, disk)))
  {
    if disk.Some? {
      var stored := WriteFlag(WriteData(held, disk.value), true);
      assert Alone(held, t, DiskRead(m), m, disk, 4) == Alone(WriteData(held, disk.value), t, StoreFlag(m, disk.value), m, disk, 2);
      assert Alone(WriteData(held, disk.value), t, StoreFlag(m, disk.value), m, disk, 2) == Alone(stored, t, LoadExit(m, disk), m, disk, 1);
    }
  }

  /** A load that starts with the lock free and is not interrupted does what LoadCacheForMode does. */
  lemma LoadRunsAsCall(c: Cell, t: Tid, m: Mode, disk: Option<Graph>)
    requires c.owner.None?
    ensures var end := Alone(c, t, StartPc(Load(m)), m, disk, 7);
      && end.cell.slot == LoadAlone(c.slot, disk).0
      && end.pc == Done(Got(m, LoadAlone(c.slot, disk).1))
      && end.cell.owner.None?
  {
    if c.slot.flag {
      HitRunsAsCall(c, t, m, disk);
    } else {
      var held := c.(owner := Some(t));
      assert Alone(c, t, FastCheck(m), m, disk, 7) == Alone(held, t, SlowCheck(m), m, disk, 5);
      assert Alone(held, t, SlowCheck(m), m, disk, 5) == Alone(held, t, DiskRead(m), m, disk, 4);
      DiskRunsAsCall(held, t, m, disk);
    }
  }

  /** A request that is not interrupted is counted, and then does what LoadCacheForMode does. */
  lemma RouteRunsAsCall(c: Cell, t: Tid, m: Mode, disk: Option<Graph>)
    requires c.owner.None?
    ensures var end := Alone(c, t, StartPc(Route(m)), m, disk, 9);
      var counted := c.slot.(requests := c.slot.requests + 1);
      && end.cell.slot == LoadAlone(counted, disk).0
      && end.pc == Done(Got(m, LoadAlone(counted, disk).1))
      && end.cell.owner.None?
  {
    RequestIsCounted(c, t, m, disk, 7);
    LoadRunsAsCall(c.(slot := c.slot.(requests := c.slot.requests + 1)), t, m, disk);
  }

  lemma RequestIsCounted(c: Cell, t: Tid, m: Mode, disk: Option<Graph>, n: nat)
    ensures var counted := c.(slot := c.slot.(requests := c.slot.requests + 1));
      Alone(c, t, StartPc(Route(m)), m, disk, n + 2) == Alone(counted, t, StartPc(Load(m)), m, disk, n)
  {
    AloneStep(c, t, ReqRead(m), m, disk, n + 2);
    AloneStep(c, t, ReqWrite(m, c.slot.requests), m, disk, n + 1);
  }

  /** A single-mode clear that is not interrupted does what ClearMemoryCache does, and never raises. */
  lemma ClearRunsAsCall(c: Cell, t: Tid, m: Mode, disk: Option<Graph>)
    requires c.owner.None?
    ensures var end := Alone(c, t, StartPc(Clear(m)), m, disk, 5);
      end.cell.slot == ClearAlone(c.slot) && end.pc == Done(Cleared) && end.cell.owner.None?
  {
    if c.slot.data.Some? {
      ClearTakesLock(c, t, m, disk, 3);
      ClearsUnderLock(c.(owner := Some(t)), t, m, disk);
    } else {
      AloneStep(c, t, ClearTest(m), m, disk, 5);
    }
  }

  lemma ClearTakesLock(c: Cell, t: Tid, m: Mode, disk: Option<Graph>, n: nat)
    requires c.owner.None? && c.slot.data.Some?
    ensures Alone(c, t, StartPc(Clear(m)), m, disk, n + 2) == Alone(c.(owner := Some(t)), t, ClearDelete(m), m, disk, n)
  {
    AloneStep(c, t, ClearTest(m), m, disk, n + 2);
    AloneStep(c, t, ClearWait(m), m, disk, n + 1);
  }

  lemma ClearsUnderLock(held: Cell, t: Tid, m: Mode, disk: Option<Graph>)
    requires held.slot.data.Some?
    ensures Alone(held, t, ClearDelete(m), m, disk, 3) == Move(WriteFlag(DeleteData(held), false).(owner := None), Done(Cleared))
  {
    AloneStep(held, t, ClearDelete(m), m, disk, 3);
    AloneStep(DeleteData(held), t, ClearUnflag(m), m, disk, 2);
  }

  lemma ClearLoadedRunsAsCall(c: Cell, t: Tid, m: Mode, disk: Option<Graph>)
    requires c.owner.None? && c.slot.data.Some?
    ensures Alone(c, t, AllWait(m), m, disk, 5) == Move(WriteFlag(DeleteData(c), false), NextMode(m))
  {
    AloneStep(c, t, AllWait(m), m, disk, 5);
    DropsUnderLock(c.(owner := Some(t)), t, m, disk);
  }

  lemma DropsUnderLock(held: Cell, t: Tid, m: Mode, disk: Option<Graph>)
    requires held.slot.data.Some?
    ensures Alone(held, t, AllTest(m), m, disk, 4) == Move(WriteFlag(DeleteData(held), false).(owner := None), NextMode(m))
  {
    AloneStep(held, t, AllTest(m), m, disk, 4);
    AloneStep(held, t, AllDelete(m), m, disk, 3);
    UnflagsUnderLock(DeleteData(held), t, m, disk);
  }

  lemma UnflagsUnderLock(held: Cell, t: Tid, m: Mode, disk: Option<Graph>)
    ensures Alone(held, t, AllUnflag(m), m, disk, 2) == Move(WriteFlag(held, false).(owner := None), NextMode(m))
  {
    AloneStep(held, t, AllUnflag(m), m, disk, 2);
    AloneStep(WriteFlag(held, false), t, AllExit(m), m, disk, 1);
  }

  lemma ClearAbsentRunsAsCall(c: Cell, t: Tid, m: Mode, disk: Option<Graph>)
    requires c.owner.None? && c.slot.data.None?
    ensures Alone(c, t, AllWait(m), m, disk, 5) == Move(WriteFlag(c, false), NextMode(m))
  {
    var held := c.(owner := Some(t));
    assert Alone(c, t, AllWait(m), m, disk, 5) == Alone(held, t, AllUnflag(m), m, disk, 3);
    TurnEnds(held, t, m, disk);
  }

  /** The next mode's turn is not part of this one. */
  lemma TurnEnds(held: Cell, t: Tid, m: Mode, disk: Option<Graph>)
    ensures Alone(held, t, AllUnflag(m), m, disk, 3) == Move(WriteFlag(held, false).(owner := None), NextMode(m))
  {
    assert Alone(held, t, AllUnflag(m), m, disk, 3) == Alone(WriteFlag(held, false), t, AllExit(m), m, disk, 2);
  }

  /** One mode's turn in clearing all modes, uninterrupted, is one iteration of ClearAll's loop. */
  lemma ClearAllRunsAsCall(c: Cell, t: Tid, m: Mode, disk: Option<Graph>)
    requires c.owner.None?
    ensures var end := Alone(c, t, AllWait(m), m, disk, 5);
      end.cell.slot == c.slot.(data := None, flag := false) && end.pc == NextMode(m) && end.cell.owner.None?
  {
    if c.slot.data.Some? {
      ClearLoadedRunsAsCall(c, t, m, disk);
    } else {
      ClearAbsentRunsAsCall(c, t, m, disk);
    }
  }
}
