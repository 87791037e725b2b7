/** What a hit in the cache of distance matrices is worth, over every run. */
module DistanceCacheTheorems {
  import opened Wrappers
  import opened Sequences
  import opened MatrixFill
  import opened DistanceCache

  /** The atomic steps of overlapping calls: look up, save what a miss computed, invalidate. */
  datatype Action =
    | Look(request: Request, now: int)
    | Save(request: Request, matrix: Matrix, source: Source, now: int)
    | Invalidate(key: Option<Key>)

  ghost predicate Step(config: Config, s: State, action: Action, t: State) {
    match action
    case Look(request, now) => t == LookedUp(config, s, request.places, now)
    case Save(request, matrix, source, now) =>
      Saved(config, s, KeyOf(config.rule, request.places), Entry(matrix, source, now), t)
    case Invalidate(key) => t == Invalidated(s, key)
  }

  const INITIAL := State(map[], 0, 0, 0, 0)

  /** The states a run of actions, in the order they happen, may end in. */
  ghost predicate Reaches(config: Config, actions: seq<Action>, s: State) {
    if actions == [] then s == INITIAL
    else
      var init, last := actions[..|actions| - 1], actions[|actions| - 1];
      exists before :: Reaches(config, init, before) && Step(config, before, last, s)
  }

  // ---------- Where entries stem from ----------

  /** An entry was saved in the run, by a request with its key. */
  ghost predicate Stems(config: Config, actions: seq<Action>, key: Key, entry: Entry) {
    exists request: Request :: KeyOf(config.rule, request.places) == key && SaveOf(request, entry) in actions
  }

  function SaveOf(request: Request, entry: Entry): Action {
    Save(request, entry.matrix, entry.source, entry.timestamp)
  }

  ghost predicate Provenance(config: Config, actions: seq<Action>, s: State) {
    forall key | key in s.cache :: Stems(config, actions, key, s.cache[key])
  }

  ghost predicate Bounded(config: Config, s: State) {
    |s.cache| <= config.maxSize
  }

  lemma LiveIsPart(config: Config, cache: map<Key, Entry>, now: int)
    ensures |Live(config, cache, now)| <= |cache|
  {
    PartIsSmaller(Live(config, cache, now).Keys, cache.Keys);
  }

  lemma {:induction false} PartIsSmaller<T>(a: set<T>, b: set<T>)
    requires a <= b
    ensures |a| <= |b|
  {
    assert |b| == |a| + |b - a| by {
      assert b == a + (b - a);
    }
  }

  /** A cleanup of a cache within its bound leaves room for one more, and invents nothing. */
  lemma CleanupMakesRoom(config: Config, cache: map<Key, Entry>, now: int, after: map<Key, Entry>)
    requires Cleaned(config, cache, now, after) && config.maxSize >= 1 && |cache| <= config.maxSize
    ensures |after| < config.maxSize
    ensures forall key | key in after :: key in cache && after[key] == cache[key] && now <= cache[key].timestamp + config.ttl
  {
    LiveIsPart(config, cache, now);
  }

  lemma LongerRunsKnowMore(config: Config, init: seq<Action>, last: Action, s: State)
    requires Provenance(config, init, s)
    ensures Provenance(config, init + [last], s)
  {
    forall key | key in s.cache ensures Stems(config, init + [last], key, s.cache[key]) {
      assert Stems(config, init, key, s.cache[key]);
      var request: Request :| KeyOf(config.rule, request.places) == key && SaveOf(request, s.cache[key]) in init;
      assert SaveOf(request, s.cache[key]) in init + [last];
    }
  }

  lemma RoomForOne(config: Config, s: State, key: Key, entry: Entry, base: map<Key, Entry>, t: State)
    requires SavedOver(config, s, key, entry, base, t) && config.maxSize >= 1 && Bounded(config, s)
    ensures |base| < config.maxSize && forall k | k in base :: k in s.cache && base[k] == s.cache[k]
  {
    if |s.cache| >= config.maxSize {
      CleanupMakesRoom(config, s.cache, entry.timestamp, base);
    }
  }

  lemma SavesKeepInvariants(config: Config, actions: seq<Action>, s: State, request: Request, entry: Entry, t: State)
    requires Saved(config, s, KeyOf(config.rule, request.places), entry, t) && config.maxSize >= 1
    requires SaveOf(request, entry) in actions && Provenance(config, actions, s) && Bounded(config, s)
    ensures Provenance(config, actions, t) && Bounded(config, t)
  {
    var key := KeyOf(config.rule, request.places);
    assert Stems(config, actions, key, entry);
    var base :| SavedOver(config, s, key, entry, base, t);
    RoomForOne(config, s, key, entry, base, t);
    assert t.cache == base[key := entry];
  }

  lemma StepsKeepInvariants(config: Config, actions: seq<Action>, s: State, action: Action, t: State)
    requires Step(config, s, action, t) && config.maxSize >= 1
    requires action in actions && Provenance(config, actions, s) && Bounded(config, s)
    ensures Provenance(config, actions, t) && Bounded(config, t)
  {
    match action
    case Look(request, now) =>
      PartIsSmaller(t.cache.Keys, s.cache.Keys);
    case Save(request, matrix, source, now) =>
      SavesKeepInvariants(config, actions, s, request, Entry(matrix, source, now), t);
    case Invalidate(key) =>
      PartIsSmaller(t.cache.Keys, s.cache.Keys);
  }

  /** Over every run the cache is within its bound, and every entry was saved in the run under its own key. */
  lemma {:induction false} RunsKeepInvariants(config: Config, actions: seq<Action>, s: State)
    requires Reaches(config, actions, s) && config.maxSize >= 1
    ensures Provenance(config, actions, s) && Bounded(config, s)
  {
    if actions != [] {
      var init, last := actions[..|actions| - 1], actions[|actions| - 1];
      var before :| Reaches(config, init, before) && Step(config, before, last, s);
      RunsKeepInvariants(config, init, before);
      assert init + [last] == actions;
      NextKeepsInvariants(config, init, before, last, s);
    }
  }

  lemma NextKeepsInvariants(config: Config, init: seq<Action>, before: State, last: Action, s: State)
    requires Provenance(config, init, before) && Bounded(config, before) && Step(config, before, last, s) && config.maxSize >= 1
    ensures Provenance(config, init + [last], s) && Bounded(config, s)
  {
    LongerRunsKnowMore(config, init, last, before);
    StepsKeepInvariants(config, init + [last], before, last, s);
  }

  // ---------- Fresh hits ----------

  /** The matrices, with their sources, that a computation may give for a request. */
  type Compute = (Request, Matrix, Source) -> bool

  /** Only computed matrices are saved. */
  ghost predicate Honest(compute: Compute, actions: seq<Action>) {
    forall i | 0 <= i < |actions| && actions[i].Save? ::
      compute(actions[i].request, actions[i].matrix, actions[i].source)
  }

  ghost predicate Gives(compute: Compute, request: Request, matrix: Matrix) {
    exists source :: compute(request, matrix, source)
  }

  /** Requests with the same key, whatever their preferences, are computed alike. */
  ghost predicate KeyDecides(config: Config, compute: Compute) {
    forall a: Request, b: Request, matrix | KeyOf(config.rule, a.places) == KeyOf(config.rule, b.places) && Gives(compute, a, matrix) ::
      Gives(compute, b, matrix)
  }

  /** A hit is a matrix that computing this very request, with its own preference, might give now. */
  ghost predicate HitIsFresh(config: Config, compute: Compute, s: State, request: Request, now: int) {
    var hit := Found(config, s, request.places, now);
    hit.Some? ==> Gives(compute, request, hit.value.matrix)
  }

  ghost predicate HitsAreFresh(config: Config, compute: Compute) {
    forall actions, s, request, now | Reaches(config, actions, s) && Honest(compute, actions) ::
      HitIsFresh(config, compute, s, request, now)
  }

  /**
    Over all requests, expiries, evictions and invalidations, hits are what a fresh computation gives if and
    only if any two requests with the same key, preferences included, are computed alike.
   */
  lemma HitsAreFreshIff(config: Config, compute: Compute)
    requires config.maxSize >= 1 && config.ttl >= 0
    ensures HitsAreFresh(config, compute) <==> KeyDecides(config, compute)
  {
    if KeyDecides(config, compute) {
      forall actions, s, request, now | Reaches(config, actions, s) && Honest(compute, actions)
        ensures HitIsFresh(config, compute, s, request, now)
      {
        DecidedHitIsFresh(config, compute, actions, s, request, now);
      }
    }
    if HitsAreFresh(config, compute) {
      forall a: Request, b: Request, matrix
        | KeyOf(config.rule, a.places) == KeyOf(config.rule, b.places) && Gives(compute, a, matrix)
        ensures Gives(compute, b, matrix)
      {
        FreshHitsDecide(config, compute, a, b, matrix);
      }
    }
  }

  lemma DecidedHitIsFresh(config: Config, compute: Compute, actions: seq<Action>, s: State, request: Request, now: int)
    requires KeyDecides(config, compute) && Reaches(config, actions, s) && Honest(compute, actions) && config.maxSize >= 1
    ensures HitIsFresh(config, compute, s, request, now)
  {
    if Found(config, s, request.places, now).Some? {
      var saved := HitStems(config, compute, actions, s, request, now);
      assert Gives(compute, saved, Found(config, s, request.places, now).value.matrix);
    }
  }

  lemma FreshHitsDecide(config: Config, compute: Compute, a: Request, b: Request, matrix: Matrix)
    requires HitsAreFresh(config, compute) && config.maxSize >= 1 && config.ttl >= 0
    requires KeyOf(config.rule, a.places) == KeyOf(config.rule, b.places) && Gives(compute, a, matrix)
    ensures Gives(compute, b, matrix)
  {
    var source :| compute(a, matrix, source);
    OneSave(config, a, matrix, source);
    OneSaveIsFound(config, a, matrix, source, b.places);
    FreshAfter(config, compute, a, matrix, source, b);
  }

  lemma FreshAfter(config: Config, compute: Compute, saved: Request, matrix: Matrix, source: Source, request: Request)
    requires HitsAreFresh(config, compute) && compute(saved, matrix, source)
    requires var s := AfterOneSave(config, saved, matrix, source);
      Reaches(config, [Save(saved, matrix, source, 0)], s) && Found(config, s, request.places, 0) == Some(Entry(matrix, source, 0))
    ensures Gives(compute, request, matrix)
  {
    assert HitIsFresh(config, compute, AfterOneSave(config, saved, matrix, source), request, 0);
  }

  /** The request whose computation a hit hands out. */
  lemma HitStems(config: Config, compute: Compute, actions: seq<Action>, s: State, request: Request, now: int)
      returns (saved: Request)
    requires Reaches(config, actions, s) && Honest(compute, actions) && config.maxSize >= 1
    requires Found(config, s, request.places, now).Some?
    ensures var hit := Found(config, s, request.places, now).value;
      && SaveOf(saved, hit) in actions && KeyOf(config.rule, saved.places) == KeyOf(config.rule, request.places)
      && compute(saved, hit.matrix, hit.source)
  {
    RunsKeepInvariants(config, actions, s);
    var key := KeyOf(config.rule, request.places);
    assert Stems(config, actions, key, s.cache[key]);
    saved :| KeyOf(config.rule, saved.places) == key && SaveOf(saved, s.cache[key]) in actions;
    var i :| 0 <= i < |actions| && actions[i] == SaveOf(saved, s.cache[key]);
  }

  function AfterOneSave(config: Config, request: Request, matrix: Matrix, source: Source): State {
    State(map[KeyOf(config.rule, request.places) := Entry(matrix, source, 0)], 0, 0, 1, 1)
  }

  lemma OneSave(config: Config, request: Request, matrix: Matrix, source: Source)
    requires config.maxSize >= 1
    ensures Reaches(config, [Save(request, matrix, source, 0)], AfterOneSave(config, request, matrix, source))
  {
    var key, entry := KeyOf(config.rule, request.places), Entry(matrix, source, 0);
    var save, saved := Save(request, matrix, source, 0), AfterOneSave(config, request, matrix, source);
    assert SavedOver(config, INITIAL, key, entry, map[], saved);
    assert Step(config, INITIAL, save, saved);
    assert [save][..0] == [] && Reaches(config, [], INITIAL);
  }

  lemma OneSaveIsFound(config: Config, saved: Request, matrix: Matrix, source: Source, places: seq<Place>)
    requires KeyOf(config.rule, saved.places) == KeyOf(config.rule, places) && config.ttl >= 0
    ensures Found(config, AfterOneSave(config, saved, matrix, source), places, 0) == Some(Entry(matrix, source, 0))
  {
  }

  // ---------- Counts ----------

  function Looks(actions: seq<Action>): nat {
    if actions == [] then 0
    else Looks(actions[..|actions| - 1]) + if actions[|actions| - 1].Look? then 1 else 0
  }

  function Saves(actions: seq<Action>): nat {
    if actions == [] then 0
    else Saves(actions[..|actions| - 1]) + if actions[|actions| - 1].Save? then 1 else 0
  }

  /** How much an action puts the size statistic out of step: a keyed invalidation does not update it. */
  function DriftOf(config: Config, s: State, action: Action, drift: nat): nat {
    match action
    case Look(request, now) =>
      var key := KeyOf(config.rule, request.places);
      if key in s.cache && Expired(config, s.cache[key], now) then 0 else drift
    case Save(request, matrix, source, now) => 0
    case Invalidate(Some(key)) => if key in s.cache then drift + 1 else drift
    case Invalidate(None) => 0
  }

  /** The run ends in s, with so many effective keyed invalidations since the size was last brought up to date. */
  ghost predicate Drifts(config: Config, actions: seq<Action>, s: State, drift: nat) {
    if actions == [] then s == INITIAL && drift == 0
    else
      var init, last := actions[..|actions| - 1], actions[|actions| - 1];
      exists before, d :: Drifts(config, init, before, d) && Step(config, before, last, s) && drift == DriftOf(config, before, last, d)
  }

  lemma {:induction false} EveryRunDrifts(config: Config, actions: seq<Action>, s: State) returns (drift: nat)
    requires Reaches(config, actions, s)
    ensures Drifts(config, actions, s, drift)
  {
    if actions == [] {
      drift := 0;
    } else {
      var init, last := actions[..|actions| - 1], actions[|actions| - 1];
      var before :| Reaches(config, init, before) && Step(config, before, last, s);
      var d := EveryRunDrifts(config, init, before);
      drift := DriftOf(config, before, last, d);
    }
  }

  /**
    After any run, hits and misses add up to the lookups, saves are counted, and the reported size is the real
    one plus the keyed invalidations it has not noticed yet.
   */
  lemma {:induction false} StatisticsAreExact(config: Config, actions: seq<Action>, s: State, drift: nat)
    requires Drifts(config, actions, s, drift)
    ensures s.hits + s.misses == Looks(actions) && s.saved == Saves(actions)
    ensures s.size == |s.cache| + drift
  {
    if actions != [] {
      var init, last := actions[..|actions| - 1], actions[|actions| - 1];
      var before, d :| Drifts(config, init, before, d) && Step(config, before, last, s) && drift == DriftOf(config, before, last, d);
      StatisticsAreExact(config, init, before, d);
      StepKeepsStatistics(config, before, last, s, d);
    }
  }

  lemma StepKeepsStatistics(config: Config, s: State, action: Action, t: State, drift: nat)
    requires Step(config, s, action, t) && s.size == |s.cache| + drift
    ensures t.size == |t.cache| + DriftOf(config, s, action, drift)
    ensures t.hits + t.misses == s.hits + s.misses + if action.Look? then 1 else 0
    ensures t.saved == s.saved + if action.Save? then 1 else 0
  {
    match action
    case Look(request, now) =>
    case Save(request, matrix, source, now) =>
      var key, entry := KeyOf(config.rule, request.places), Entry(matrix, source, now);
      var base :| SavedOver(config, s, key, entry, base, t);
    case Invalidate(Some(key)) =>
      assert key in s.cache ==> (s.cache - {key}).Keys == s.cache.Keys - {key};
      assert key !in s.cache ==> s.cache - {key} == s.cache;
    case Invalidate(None) =>
  }
}
