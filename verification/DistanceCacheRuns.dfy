/** When a lookup in the cache of distance matrices hits, told by the actions of a run and their times. */
module DistanceCacheRuns {
  import opened Wrappers
  import opened DistanceCache
  import opened DistanceCacheTheorems

  /** The states that a run of actions passes, from the first one on. */
  ghost predicate Passes(config: Config, actions: seq<Action>, states: seq<State>) {
    && |states| == |actions| + 1 && states[0] == INITIAL
    && forall i | 0 <= i < |actions| :: Step(config, states[i], actions[i], states[i + 1])
  }

  /** Every state that a run reaches ends a sequence of states that it passes. */
  lemma {:induction false} ReachedByPassing(config: Config, actions: seq<Action>, s: State) returns (states: seq<State>)
    requires Reaches(config, actions, s)
    ensures Passes(config, actions, states) && states[|actions|] == s
  {
    if actions == [] {
      states := [s];
    } else {
      var init, last := actions[..|actions| - 1], actions[|actions| - 1];
      var before :| Reaches(config, init, before) && Step(config, before, last, s);
      var earlier := ReachedByPassing(config, init, before);
      states := earlier + [s];
      assert actions == init + [last];
      PassesOneMore(config, init, earlier, last, s);
    }
  }

  lemma PassesOneMore(config: Config, init: seq<Action>, states: seq<State>, last: Action, s: State)
    requires Passes(config, init, states) && Step(config, states[|init|], last, s)
    ensures Passes(config, init + [last], states + [s])
  {
    var actions, longer := init + [last], states + [s];
    forall i | 0 <= i < |actions| ensures Step(config, longer[i], actions[i], longer[i + 1]) {
      if i < |init| {
        assert Step(config, states[i], init[i], states[i + 1]);
      }
    }
  }

  predicate SavesKey(config: Config, action: Action, key: Key) {
    action.Save? && KeyOf(config.rule, action.request.places) == key
  }

  /**
    The action leaves alone what was saved under the key at the given time: it does not look the key up later than the
    time to live allows, save it anew, invalidate it, or evict it while it saves another.
   */
  predicate Spares(config: Config, action: Action, after: State, key: Key, saved: int) {
    match action
    case Look(request, now) => KeyOf(config.rule, request.places) == key ==> now <= saved + config.ttl
    case Save(request, _, _, _) => KeyOf(config.rule, request.places) != key && key in after.cache
    case Invalidate(Some(k)) => k != key
    case Invalidate(None) => false
  }

  /** The i-th action saved the key, and the actions since then have spared it. */
  predicate StillSaved(config: Config, actions: seq<Action>, states: seq<State>, key: Key, i: nat, k: nat)
    requires i < k <= |actions| < |states|
  {
    && SavesKey(config, actions[i], key)
    && forall j | i < j < k :: SparesAt(config, actions, states, key, actions[i].now, j)
  }

  predicate SparesAt(config: Config, actions: seq<Action>, states: seq<State>, key: Key, saved: int, j: nat)
    requires j < |actions| < |states|
  {
    Spares(config, actions[j], states[j + 1], key, saved)
  }

  lemma SparedOnce(config: Config, actions: seq<Action>, states: seq<State>, key: Key, i: nat, k: nat)
    requires i + 1 < k <= |actions| < |states|
    ensures StillSaved(config, actions, states, key, i, k) <==>
      StillSaved(config, actions, states, key, i, k - 1) && SparesAt(config, actions, states, key, actions[i].now, k - 1)
  {
  }

  /** The save of the key that has been spared until the k-th action, if there is one. */
  function LastSave(config: Config, actions: seq<Action>, states: seq<State>, key: Key, k: nat): (i: Option<nat>)
    requires k <= |actions| < |states|
    ensures i.Some? ==> i.value < k && SavesKey(config, actions[i.value], key)
  {
    if k == 0 then None
    else if SavesKey(config, actions[k - 1], key) then Some(k - 1)
    else
      var i := LastSave(config, actions, states, key, k - 1);
      if i.Some? && SparesAt(config, actions, states, key, actions[i.value].now, k - 1) then i else None
  }

  lemma SavedAnew(config: Config, actions: seq<Action>, states: seq<State>, key: Key, i: nat, k: nat)
    requires i + 1 < k <= |actions| < |states| && SavesKey(config, actions[k - 1], key)
    ensures !StillSaved(config, actions, states, key, i, k)
  {
    assert StillSaved(config, actions, states, key, i, k) ==> !SparesAt(config, actions, states, key, actions[i].now, k - 1);
  }

  lemma LastSaveNext(config: Config, actions: seq<Action>, states: seq<State>, key: Key, k: nat, i: nat)
    requires i + 1 < k <= |actions| < |states|
    ensures SavesKey(config, actions[k - 1], key) ==> LastSave(config, actions, states, key, k) != Some(i)
    ensures !SavesKey(config, actions[k - 1], key) ==>
      (LastSave(config, actions, states, key, k) == Some(i) <==>
        LastSave(config, actions, states, key, k - 1) == Some(i)
        && SparesAt(config, actions, states, key, actions[LastSave(config, actions, states, key, k - 1).value].now, k - 1))
  {
  }

  lemma LastSaveNow(config: Config, actions: seq<Action>, states: seq<State>, key: Key, k: nat)
    requires k < |actions| < |states|
    ensures LastSave(config, actions, states, key, k + 1) == Some(k) <==> StillSaved(config, actions, states, key, k, k + 1)
  {
  }

  lemma {:induction false} LastSaveIff(config: Config, actions: seq<Action>, states: seq<State>, key: Key, k: nat, i: nat)
    requires i < k <= |actions| < |states|
    ensures LastSave(config, actions, states, key, k) == Some(i) <==> StillSaved(config, actions, states, key, i, k)
  {
    if i == k - 1 {
      LastSaveNow(config, actions, states, key, i);
    } else {
      LastSaveIff(config, actions, states, key, k - 1, i);
      LastSaveNext(config, actions, states, key, k, i);
      SavedAnewOrSpared(config, actions, states, key, i, k);
    }
  }

  lemma SavedAnewOrSpared(config: Config, actions: seq<Action>, states: seq<State>, key: Key, i: nat, k: nat)
    requires i + 1 < k <= |actions| < |states|
    ensures StillSaved(config, actions, states, key, i, k) <==>
      && !SavesKey(config, actions[k - 1], key)
      && StillSaved(config, actions, states, key, i, k - 1) && SparesAt(config, actions, states, key, actions[i].now, k - 1)
  {
    SparedOnce(config, actions, states, key, i, k);
    if SavesKey(config, actions[k - 1], key) {
      SavedAnew(config, actions, states, key, i, k);
    }
  }

  lemma SpareKeeps(config: Config, s: State, action: Action, t: State, key: Key)
    requires Step(config, s, action, t) && key in s.cache && !SavesKey(config, action, key)
    ensures key in t.cache <==> Spares(config, action, t, key, s.cache[key].timestamp)
    ensures key in t.cache ==> t.cache[key] == s.cache[key]
  {
    if action.Save? {
      var entry := Entry(action.matrix, action.source, action.now);
      var base :| SavedOver(config, s, KeyOf(config.rule, action.request.places), entry, base, t);
    }
  }

  lemma OnlySavesAdd(config: Config, s: State, action: Action, t: State, key: Key)
    requires Step(config, s, action, t) && key !in s.cache && !SavesKey(config, action, key)
    ensures key !in t.cache
  {
    if action.Save? {
      var entry := Entry(action.matrix, action.source, action.now);
      var base :| SavedOver(config, s, KeyOf(config.rule, action.request.places), entry, base, t);
    }
  }

  lemma SaveAdds(config: Config, s: State, action: Action, t: State, key: Key)
    requires Step(config, s, action, t) && SavesKey(config, action, key)
    ensures key in t.cache && t.cache[key] == Entry(action.matrix, action.source, action.now)
  {
    var entry := Entry(action.matrix, action.source, action.now);
    var base :| SavedOver(config, s, key, entry, base, t);
  }

  /** What an action does to the entry of a key. */
  ghost predicate Follows(config: Config, before: map<Key, Entry>, action: Action, after: State, key: Key) {
    if SavesKey(config, action, key) then
      key in after.cache && after.cache[key] == Entry(action.matrix, action.source, action.now)
    else if key !in before then key !in after.cache
    else
      && (key in after.cache <==> Spares(config, action, after, key, before[key].timestamp))
      && (key in after.cache ==> after.cache[key] == before[key])
  }

  lemma StepFollows(config: Config, s: State, action: Action, t: State, key: Key)
    requires Step(config, s, action, t)
    ensures Follows(config, s.cache, action, t, key)
  {
    if SavesKey(config, action, key) {
      SaveAdds(config, s, action, t, key);
    } else if key in s.cache {
      SpareKeeps(config, s, action, t, key);
    } else {
      OnlySavesAdd(config, s, action, t, key);
    }
  }

  ghost predicate FollowsAt(config: Config, actions: seq<Action>, states: seq<State>, key: Key, k: nat)
    requires k < |actions| < |states|
  {
    Follows(config, states[k].cache, actions[k], states[k + 1], key)
  }

  ghost predicate FollowsAll(config: Config, actions: seq<Action>, states: seq<State>, key: Key)
    requires |actions| < |states|
  {
    key !in states[0].cache && forall k | 0 <= k < |actions| :: FollowsAt(config, actions, states, key, k)
  }

  lemma RunFollows(config: Config, actions: seq<Action>, states: seq<State>, key: Key)
    requires Passes(config, actions, states)
    ensures FollowsAll(config, actions, states, key)
  {
    forall k | 0 <= k < |actions| ensures FollowsAt(config, actions, states, key, k) {
      StepFollows(config, states[k], actions[k], states[k + 1], key);
    }
  }

  /** What the cache holds under a key is what was saved last, if it has been spared since then. */
  ghost predicate Holds(actions: seq<Action>, cache: map<Key, Entry>, key: Key, last: Option<nat>)
    requires last.Some? ==> last.value < |actions| && actions[last.value].Save?
  {
    if last.None? then key !in cache
    else
      var save := actions[last.value];
      key in cache && cache[key] == Entry(save.matrix, save.source, save.now)
  }

  lemma HoldsNext(config: Config, actions: seq<Action>, states: seq<State>, key: Key, k: nat)
    requires k < |actions| < |states| && FollowsAt(config, actions, states, key, k)
    requires Holds(actions, states[k].cache, key, LastSave(config, actions, states, key, k))
    ensures Holds(actions, states[k + 1].cache, key, LastSave(config, actions, states, key, k + 1))
  {
  }

  lemma {:induction false} HoldsLast(config: Config, actions: seq<Action>, states: seq<State>, key: Key, k: nat)
    requires k <= |actions| < |states| && FollowsAll(config, actions, states, key)
    ensures Holds(actions, states[k].cache, key, LastSave(config, actions, states, key, k))
  {
    if k > 0 {
      HoldsLast(config, actions, states, key, k - 1);
      assert FollowsAt(config, actions, states, key, k - 1);
      HoldsNext(config, actions, states, key, k - 1);
    }
  }

  lemma HoldsLastSave(config: Config, actions: seq<Action>, states: seq<State>, key: Key, k: nat)
    requires Passes(config, actions, states) && k <= |actions|
    ensures Holds(actions, states[k].cache, key, LastSave(config, actions, states, key, k))
  {
    RunFollows(config, actions, states, key);
    HoldsLast(config, actions, states, key, k);
  }

  // ---------- Hits ----------

  /**
    Over every run: a lookup is counted as a hit if and only if its key was saved at a time no longer ago than the
    time to live, and has since then been neither saved anew, nor invalidated, nor evicted, nor looked up too late;
    every other lookup is counted as a miss.
   */
  lemma HitIff(config: Config, actions: seq<Action>, states: seq<State>, k: nat)
    requires Passes(config, actions, states) && k < |actions| && actions[k].Look?
    ensures var key, now := KeyOf(config.rule, actions[k].request.places), actions[k].now;
      var hits := exists i | 0 <= i < k :: StillSaved(config, actions, states, key, i, k) && now <= actions[i].now + config.ttl;
      && states[k + 1].hits == states[k].hits + (if hits then 1 else 0)
      && states[k + 1].misses == states[k].misses + (if hits then 0 else 1)
  {
    var key := KeyOf(config.rule, actions[k].request.places);
    var last := LastSave(config, actions, states, key, k);
    HoldsLastSave(config, actions, states, key, k);
    forall i | 0 <= i < k ensures StillSaved(config, actions, states, key, i, k) <==> last == Some(i) {
      LastSaveIff(config, actions, states, key, k, i);
    }
    assert Step(config, states[k], actions[k], states[k + 1]);
  }

  /** The entry that a lookup answers is the one that was saved last under its key. */
  lemma HitAnswersSaved(config: Config, actions: seq<Action>, states: seq<State>, k: nat, i: nat)
    requires Passes(config, actions, states) && i < k < |actions| && actions[k].Look?
    requires StillSaved(config, actions, states, KeyOf(config.rule, actions[k].request.places), i, k)
    requires actions[k].now <= actions[i].now + config.ttl
    ensures Found(config, states[k], actions[k].request.places, actions[k].now)
      == Some(Entry(actions[i].matrix, actions[i].source, actions[i].now))
  {
    var key := KeyOf(config.rule, actions[k].request.places);
    HoldsLastSave(config, actions, states, key, k);
    LastSaveIff(config, actions, states, key, k, i);
  }

  // ---------- Evictions ----------

  function Unexpired(config: Config, cache: map<Key, Entry>, now: int): set<Key> {
    set key | key in cache && now <= cache[key].timestamp + config.ttl
  }

  lemma LiveIsUnexpired(config: Config, cache: map<Key, Entry>, now: int)
    ensures Live(config, cache, now).Keys == Unexpired(config, cache, now)
  {
  }

  /**
    What a save into a full cache drops: all that is older than the time to live, and if as many as the cache may
    hold are left, of those the oldest.
   */
  lemma SaveDrops(config: Config, s: State, action: Action, t: State, key: Key)
    requires Step(config, s, action, t) && action.Save? && key in s.cache && !SavesKey(config, action, key)
    ensures var unexpired, full := Unexpired(config, s.cache, action.now), |s.cache| >= config.maxSize;
      && (full && key !in unexpired ==> key !in t.cache)
      && (key !in t.cache ==> full && (key in unexpired ==> |unexpired| >= config.maxSize))
      && (key !in t.cache && key in unexpired ==> forall kept | kept in t.cache && kept in s.cache && !SavesKey(config, action, kept) ::
        s.cache[key].timestamp <= s.cache[kept].timestamp)
  {
    var entry := Entry(action.matrix, action.source, action.now);
    var base :| SavedOver(config, s, KeyOf(config.rule, action.request.places), entry, base, t);
    LiveIsUnexpired(config, s.cache, action.now);
  }

  /** How many it drops: with less than the bound unexpired only the expired ones, else a fifth, and at least one. */
  lemma SaveLeaves(config: Config, s: State, action: Action, t: State) returns (evicted: nat)
    requires Step(config, s, action, t) && action.Save? && |s.cache| >= config.maxSize
    requires KeyOf(config.rule, action.request.places) !in s.cache
    ensures |t.cache| == |Unexpired(config, s.cache, action.now)| - evicted + 1
    ensures IsPart(evicted, |Unexpired(config, s.cache, action.now)|, config.maxSize)
  {
    var key, entry := KeyOf(config.rule, action.request.places), Entry(action.matrix, action.source, action.now);
    var base :| SavedOver(config, s, key, entry, base, t);
    LiveIsUnexpired(config, s.cache, action.now);
    assert t.cache.Keys == base.Keys + {key} && key !in base.Keys;
    evicted := |Live(config, s.cache, action.now)| - |base|;
  }

  /** Nothing below the bound, else one of every five, and at least one. */
  predicate IsPart(evicted: nat, live: nat, bound: nat) {
    if live < bound then evicted == 0
    else if live < 5 then evicted == 1
    else 5 * evicted <= live < 5 * evicted + 5
  }
}
