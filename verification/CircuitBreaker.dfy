/**
  The circuit breaker around the optimiser: services/city2graph_ortools_service.py, `ORToolsCircuitBreaker`.

  A call is suspended while the optimiser works, so that calls overlap: a call is one step when it begins and
  one step when the optimiser answers, raises, or the call is cancelled.
 */
module CircuitBreaker {
  import opened Wrappers

  datatype Mode = Closed | Open | HalfOpen

  datatype Config = Config(threshold: nat, timeout: int)

  datatype Breaker = Breaker(mode: Mode, failures: nat, lastFailure: Option<int>, successes: nat, total: nat)

  /** How an admitted call ends. The monitor runs after a success is recorded and may raise in its turn. */
  datatype Outcome = Succeeds | MonitorRaises | Fails | IsCancelled

  predicate Admits(config: Config, b: Breaker, now: int) {
    b.mode != Open || (b.lastFailure.Some? && now - b.lastFailure.value > config.timeout)
  }

  function Began(config: Config, b: Breaker, now: int): Breaker {
    if !Admits(config, b, now) then b
    else b.(mode := if b.mode == Open then HalfOpen else b.mode, total := b.total + 1)
  }

  function Succeeded(b: Breaker): Breaker {
    if b.mode == HalfOpen then b.(mode := Closed, failures := 0, successes := b.successes + 1)
    else b.(successes := b.successes + 1)
  }

  function Failed(config: Config, b: Breaker, now: int): Breaker {
    b.(failures := b.failures + 1, lastFailure := Some(now),
      mode := if b.failures + 1 >= config.threshold then Open else b.mode)
  }

  function Ended(config: Config, b: Breaker, outcome: Outcome, now: int): Breaker {
    match outcome
    case Succeeds => Succeeded(b)
    case MonitorRaises => Failed(config, Succeeded(b), now)
    case Fails => Failed(config, b, now)
    case IsCancelled => b
  }

  const INITIAL := Breaker(Closed, 0, None, 0, 0)

  // ---------- The class ----------

  datatype Answer = Answered | Refused | Raised | Cancelled

  class ORToolsCircuitBreaker {
    const config: Config
    var mode: Mode
    var failures: nat
    var lastFailure: Option<int>
    var successes: nat
    var total: nat

    function Snapshot(): Breaker
      reads this
    {
      Breaker(mode, failures, lastFailure, successes, total)
    }

    /** An open breaker knows when it last failed. */
    ghost predicate Valid()
      reads this
    {
      mode == Open ==> lastFailure.Some?
    }

    constructor (config: Config)
      ensures this.config == config && Snapshot() == INITIAL && Valid()
    {
      this.config := config;
      mode, failures, lastFailure, successes, total := Closed, 0, None, 0, 0;
    }

    method Begin(now: int) returns (admitted: bool)
      requires Valid()
      modifies this`mode, this`total
      ensures Valid() && admitted == Admits(config, old(Snapshot()), now)
      ensures Snapshot() == Began(config, old(Snapshot()), now)
    {
      if mode == Open {
        if now - lastFailure.value > config.timeout {
          mode := HalfOpen;
        } else {
          return false;
        }
      }
      total := total + 1;
      return true;
    }

    method Succeed()
      requires Valid()
      modifies this`mode, this`failures, this`successes
      ensures Valid() && Snapshot() == Succeeded(old(Snapshot()))
    {
      if mode == HalfOpen {
        mode := Closed;
        failures := 0;
      }
      successes := successes + 1;
    }

    method Fail(now: int)
      requires Valid()
      modifies this`mode, this`failures, this`lastFailure
      ensures Valid() && Snapshot() == Failed(config, old(Snapshot()), now)
    {
      failures := failures + 1;
      lastFailure := Some(now);
      if failures >= config.threshold {
        mode := Open;
      }
    }

    /** What follows the optimiser's answer; nothing suspends it. */
    method End(outcome: Outcome, now: int) returns (answer: Answer)
      requires Valid()
      modifies this
      ensures Valid() && Snapshot() == Ended(config, old(Snapshot()), outcome, now)
      ensures answer == match outcome case Succeeds => Answered case IsCancelled => Cancelled case _ => Raised
    {
      match outcome
      case Succeeds =>
        Succeed();
        return Answered;
      case MonitorRaises =>
        Succeed();
        Fail(now);
        return Raised;
      case Fails =>
        Fail(now);
        return Raised;
      case IsCancelled =>
        return Cancelled;
    }

    /** A whole call that no other call overlaps. */
    method ExecuteOrtools(now: int, outcome: Outcome, later: int) returns (answer: Answer)
      requires Valid()
      modifies this
      ensures Valid() && (answer == Refused <==> !Admits(config, old(Snapshot()), now))
      ensures answer == Refused ==> Snapshot() == old(Snapshot())
      ensures answer != Refused ==> Snapshot() == Ended(config, Began(config, old(Snapshot()), now), outcome, later)
    {
      var admitted := Begin(now);
      if !admitted {
        return Refused;
      }
      answer := End(outcome, later);
    }
  }

  // ---------- Runs of overlapping calls ----------

  datatype Action = Begin(now: int) | End(call: nat, outcome: Outcome, now: int)

  /** The breaker and the calls waiting for the optimiser; admitted calls are numbered in order. */
  datatype System = System(breaker: Breaker, inFlight: set<nat>)

  /** An end of a call that is not in flight does not happen. */
  predicate Happens(s: System, action: Action) {
    action.End? ==> action.call in s.inFlight
  }

  function Stepped(config: Config, s: System, action: Action): System {
    match action
    case Begin(now) =>
      System(Began(config, s.breaker, now), if Admits(config, s.breaker, now) then s.inFlight + {s.breaker.total} else s.inFlight)
    case End(call, outcome, now) =>
      if call in s.inFlight then System(Ended(config, s.breaker, outcome, now), s.inFlight - {call}) else s
  }

  /** The system after a run of actions, in the order they happen. */
  function After(config: Config, actions: seq<Action>): System {
    if actions == [] then System(INITIAL, {})
    else Stepped(config, After(config, actions[..|actions| - 1]), actions[|actions| - 1])
  }

  function Ends(config: Config, actions: seq<Action>, outcome: Outcome): nat {
    if actions == [] then 0
    else
      var init, last := actions[..|actions| - 1], actions[|actions| - 1];
      Ends(config, init, outcome) + EndsBy(After(config, init), last, outcome)
  }

  function EndsBy(s: System, action: Action, outcome: Outcome): nat {
    if action.End? && action.outcome == outcome && Happens(s, action) then 1 else 0
  }

  lemma StepsConserveCalls(config: Config, s: System, action: Action)
    requires Numbered(s)
    ensures var t := Stepped(config, s, action);
      && t.breaker.total - |t.inFlight| == s.breaker.total - |s.inFlight|
        + EndsBy(s, action, Succeeds) + EndsBy(s, action, MonitorRaises) + EndsBy(s, action, Fails) + EndsBy(s, action, IsCancelled)
      && t.breaker.successes == s.breaker.successes + EndsBy(s, action, Succeeds) + EndsBy(s, action, MonitorRaises)
  {
  }

  predicate IsFailure(s: System, action: Action) {
    action.End? && action.outcome in {Fails, MonitorRaises} && Happens(s, action)
  }

  predicate IsRecovery(s: System, action: Action) {
    action.End? && action.outcome in {Succeeds, MonitorRaises} && s.breaker.mode == HalfOpen && Happens(s, action)
  }

  /** Failures since the breaker last recovered; the monitor may fail in the very step that recovers. */
  function FailuresSinceRecovery(config: Config, actions: seq<Action>): nat {
    if actions == [] then 0
    else
      var init, last := actions[..|actions| - 1], actions[|actions| - 1];
      var s := After(config, init);
      (if IsRecovery(s, last) then 0 else FailuresSinceRecovery(config, init)) + if IsFailure(s, last) then 1 else 0
  }

  function LatestFailure(config: Config, actions: seq<Action>): Option<int> {
    if actions == [] then None
    else
      var init, last := actions[..|actions| - 1], actions[|actions| - 1];
      if IsFailure(After(config, init), last) then Some(last.now) else LatestFailure(config, init)
  }

  /** In every reachable state the breaker is closed if and only if it counts fewer failures than the threshold. */
  lemma {:induction false} ClosedIff(config: Config, actions: seq<Action>)
    requires config.threshold >= 1
    ensures var b := After(config, actions).breaker;
      (b.mode == Closed <==> b.failures < config.threshold) && (b.mode != Closed ==> b.lastFailure.Some?)
  {
    if actions != [] {
      ClosedIff(config, actions[..|actions| - 1]);
    }
  }

  predicate Numbered(s: System) {
    forall call | call in s.inFlight :: call < s.breaker.total
  }

  lemma StepsKeepNumbers(config: Config, s: System, action: Action)
    requires Numbered(s)
    ensures Numbered(Stepped(config, s, action))
  {
    if action.End? {
      assert Ended(config, s.breaker, action.outcome, action.now).total == s.breaker.total;
    }
  }

  /** The numbers of calls in flight are below the number of executions. */
  lemma {:induction false} InFlightAreBegun(config: Config, actions: seq<Action>)
    ensures Numbered(After(config, actions))
  {
    if actions != [] {
      InFlightAreBegun(config, actions[..|actions| - 1]);
      StepsKeepNumbers(config, After(config, actions[..|actions| - 1]), actions[|actions| - 1]);
    }
  }

  /**
    Every admitted call is in flight or has ended in one of four ways.  A success whose monitor raises is
    counted as a success and as a failure, a cancelled call as neither.
   */
  lemma {:induction false} CallsAreConserved(config: Config, actions: seq<Action>)
    ensures var s := After(config, actions);
      && s.breaker.total == Ends(config, actions, Succeeds) + Ends(config, actions, MonitorRaises)
        + Ends(config, actions, Fails) + Ends(config, actions, IsCancelled) + |s.inFlight|
      && s.breaker.successes == Ends(config, actions, Succeeds) + Ends(config, actions, MonitorRaises)
  {
    if actions != [] {
      CallsAreConserved(config, actions[..|actions| - 1]);
      InFlightAreBegun(config, actions[..|actions| - 1]);
      StepsConserveCalls(config, After(config, actions[..|actions| - 1]), actions[|actions| - 1]);
    }
  }

  /** Successes, failures and calls in flight add up to the executions iff no call is cancelled or counted twice on balance. */
  lemma SuccessesAndFailures(config: Config, actions: seq<Action>)
    ensures var s, failures := After(config, actions), Ends(config, actions, Fails) + Ends(config, actions, MonitorRaises);
      s.breaker.successes + failures + |s.inFlight| == s.breaker.total <==>
      Ends(config, actions, MonitorRaises) == Ends(config, actions, IsCancelled)
  {
    CallsAreConserved(config, actions);
  }

  /** The counter of failures and the time of the latest are what the run says. */
  lemma {:induction false} FailuresAreCounted(config: Config, actions: seq<Action>)
    ensures After(config, actions).breaker.failures == FailuresSinceRecovery(config, actions)
    ensures After(config, actions).breaker.lastFailure == LatestFailure(config, actions)
  {
    if actions != [] {
      FailuresAreCounted(config, actions[..|actions| - 1]);
    }
  }

  /** A closed breaker opens at exactly the failure that makes the failures since the last recovery reach the threshold. */
  lemma TripsAtThreshold(config: Config, actions: seq<Action>)
    requires config.threshold >= 1 && actions != []
    requires After(config, actions[..|actions| - 1]).breaker.mode == Closed
    ensures After(config, actions).breaker.mode == Open <==>
      IsFailure(After(config, actions[..|actions| - 1]), actions[|actions| - 1])
      && FailuresSinceRecovery(config, actions) == config.threshold
    ensures After(config, actions).breaker.mode != HalfOpen
  {
    ClosedIff(config, actions[..|actions| - 1]);
    FailuresAreCounted(config, actions);
    FailuresAreCounted(config, actions[..|actions| - 1]);
  }

  /** An open breaker is left only by a call that begins more than the timeout after the latest failure, and then half-opens. */
  lemma OpenIsLeftLate(config: Config, actions: seq<Action>)
    requires config.threshold >= 1 && actions != []
    requires After(config, actions[..|actions| - 1]).breaker.mode == Open && After(config, actions).breaker.mode != Open
    ensures var last, latest := actions[|actions| - 1], LatestFailure(config, actions[..|actions| - 1]);
      && After(config, actions).breaker.mode == HalfOpen
      && last.Begin? && latest.Some? && last.now - latest.value > config.timeout
  {
    ClosedIff(config, actions[..|actions| - 1]);
    FailuresAreCounted(config, actions[..|actions| - 1]);
  }

  /**
    An open breaker admits a call, and half-opens, if and only if the call begins more than the timeout after the
    latest failure of the run; otherwise the call changes nothing.
   */
  lemma OpenAdmitsIff(config: Config, actions: seq<Action>, now: int)
    requires config.threshold >= 1 && After(config, actions).breaker.mode == Open
    ensures LatestFailure(config, actions).Some?
    ensures var s, t := After(config, actions), After(config, actions + [Begin(now)]);
      var late := now - LatestFailure(config, actions).value > config.timeout;
      && (t.breaker.mode == HalfOpen <==> late)
      && (late ==> t == System(s.breaker.(mode := HalfOpen, total := s.breaker.total + 1), s.inFlight + {s.breaker.total}))
      && (!late ==> t == s)
  {
    ClosedIff(config, actions);
    FailuresAreCounted(config, actions);
    assert (actions + [Begin(now)])[..|actions|] == actions;
  }

  /** A breaker that is not open admits every call, and its mode stays as it is. */
  lemma OthersAdmitAll(config: Config, actions: seq<Action>, now: int)
    requires After(config, actions).breaker.mode != Open
    ensures var s := After(config, actions);
      After(config, actions + [Begin(now)]) == System(s.breaker.(total := s.breaker.total + 1), s.inFlight + {s.breaker.total})
  {
    assert (actions + [Begin(now)])[..|actions|] == actions;
  }

  /**
    A half-open breaker opens again exactly when a call in flight fails, or succeeds with a monitor that raises
    under a threshold of 1.
   */
  lemma ReopensIff(config: Config, actions: seq<Action>, action: Action)
    requires config.threshold >= 1 && After(config, actions).breaker.mode == HalfOpen
    ensures After(config, actions + [action]).breaker.mode == Open <==>
      IsFailure(After(config, actions), action) && (action.outcome == Fails || config.threshold == 1)
  {
    assert (actions + [action])[..|actions|] == actions;
    ClosedIff(config, actions);
  }

  /** The clock does not run backwards. */
  predicate Timed(actions: seq<Action>) {
    forall i, j | 0 <= i < j < |actions| :: actions[i].now <= actions[j].now
  }

  lemma {:induction false} LatestIsLast(config: Config, actions: seq<Action>, i: nat)
    requires Timed(actions) && i < |actions| && IsFailure(After(config, actions[..i]), actions[i])
    ensures LatestFailure(config, actions).Some? && actions[i].now <= LatestFailure(config, actions).value
  {
    var init, last := actions[..|actions| - 1], actions[|actions| - 1];
    if i < |init| {
      assert init[..i] == actions[..i];
      LatestIsLast(config, init, i);
    }
    LatestIsPast(config, actions);
  }

  lemma {:induction false} LatestIsPast(config: Config, actions: seq<Action>)
    ensures LatestFailure(config, actions).Some? ==> exists i | 0 <= i < |actions| :: LatestFailure(config, actions) == Some(actions[i].now)
  {
    if actions != [] {
      LatestIsPast(config, actions[..|actions| - 1]);
    }
  }

  /** While the breaker is open, no call is admitted within the timeout after any failure so far. */
  lemma NoCallSoonAfterFailure(config: Config, actions: seq<Action>, now: int, i: nat)
    requires config.threshold >= 1 && Timed(actions) && After(config, actions).breaker.mode == Open
    requires i < |actions| && IsFailure(After(config, actions[..i]), actions[i])
    requires Admits(config, After(config, actions).breaker, now)
    ensures now - actions[i].now > config.timeout
  {
    LatestIsLast(config, actions, i);
    FailuresAreCounted(config, actions);
  }

  /** The success rate reported is a ratio between 0 and 1. */
  function SuccessRate(b: Breaker): real {
    b.successes as real / (if b.total > 1 then b.total else 1) as real
  }

  /** It is the share of the admitted calls that succeeded, whether or not their monitor raised, and 0 before any call. */
  lemma RateIsRatio(config: Config, actions: seq<Action>)
    ensures var b := After(config, actions).breaker;
      IsRatio(SuccessRate(b), Ends(config, actions, Succeeds) + Ends(config, actions, MonitorRaises), b.total)
  {
    CallsAreConserved(config, actions);
    RateOf(After(config, actions).breaker);
  }

  predicate IsRatio(rate: real, part: nat, whole: nat) {
    0.0 <= rate <= 1.0 && rate * whole as real == part as real && (whole == 0 ==> rate == 0.0)
  }

  lemma RateOf(b: Breaker)
    requires b.successes <= b.total
    ensures IsRatio(SuccessRate(b), b.successes, b.total)
  {
    var most := if b.total > 1 then b.total else 1;
    Ratio(b.successes as real, most as real);
    assert b.total == 0 ==> b.successes == 0;
  }

  lemma Ratio(a: real, b: real)
    requires 0.0 <= a <= b && b >= 1.0
    ensures 0.0 <= a / b <= 1.0 && a / b * b == a
  {
  }

  // ---------- Which call closes a half-open breaker ----------

  /** A half-open breaker closes exactly when any call in flight succeeds and is not the threshold's only failure at once. */
  lemma HalfOpenCloses(config: Config, actions: seq<Action>, action: Action)
    requires config.threshold >= 1 && After(config, actions).breaker.mode == HalfOpen
    ensures After(config, actions + [action]).breaker.mode == Closed <==>
      && Happens(After(config, actions), action) && action.End?
      && (action.outcome == Succeeds || (action.outcome == MonitorRaises && config.threshold > 1))
  {
    assert (actions + [action])[..|actions|] == actions;
    ClosedIff(config, actions);
  }

  /** The last action is the call that tests recovery: it turns the open breaker half-open. */
  predicate HalfOpens(config: Config, actions: seq<Action>) {
    && actions != [] && After(config, actions[..|actions| - 1]).breaker.mode == Open
    && After(config, actions).breaker.mode == HalfOpen
  }

  /** The number of the call begun last. */
  function NewestCall(config: Config, actions: seq<Action>): int {
    After(config, actions).breaker.total - 1
  }

  /** After some further actions, during which the breaker is half-open, the end of a call closes it. */
  ghost predicate ClosesBy(config: Config, actions: seq<Action>, more: seq<Action>, call: nat) {
    && more != [] && After(config, actions + more).breaker.mode == Closed
    && (forall i | 0 <= i < |more| :: After(config, actions + more[..i]).breaker.mode == HalfOpen)
    && more[|more| - 1].End? && more[|more| - 1].call == call
  }

  predicate NoneBegins(actions: seq<Action>) {
    forall i | 0 <= i < |actions| :: actions[i].End?
  }

  /** Calls in flight later on are those in flight now, or begin later. */
  lemma {:induction false} InFlightLater(config: Config, actions: seq<Action>, more: seq<Action>, call: nat)
    requires call in After(config, actions + more).inFlight
    ensures call in After(config, actions).inFlight || (call > NewestCall(config, actions) && !NoneBegins(more))
    ensures After(config, actions).breaker.total <= After(config, actions + more).breaker.total
  {
    if more == [] {
      assert actions + more == actions;
    } else {
      var init, last := more[..|more| - 1], more[|more| - 1];
      assert (actions + more)[..|actions + init|] == actions + init;
      TotalsGrow(config, actions, init);
      if call in After(config, actions + init).inFlight {
        InFlightLater(config, actions, init, call);
      } else {
        assert last.Begin? && more[|init|] == last;
      }
    }
  }

  lemma {:induction false} TotalsGrow(config: Config, actions: seq<Action>, more: seq<Action>)
    ensures After(config, actions).breaker.total <= After(config, actions + more).breaker.total
  {
    if more == [] {
      assert actions + more == actions;
    } else {
      TotalsGrow(config, actions, more[..|more| - 1]);
      assert (actions + more)[..|actions + more| - 1] == actions + more[..|more| - 1];
    }
  }

  /** Only calls that begin with or after the test of recovery can close the breaker, and the test alone if none begins after it. */
  ghost predicate TestDecides(config: Config, actions: seq<Action>) {
    forall more, call: nat | ClosesBy(config, actions, more, call) ::
      call >= NewestCall(config, actions) && (NoneBegins(more) ==> call == NewestCall(config, actions))
  }

  /** That is so if and only if no other call is in flight when the breaker half-opens. */
  lemma TestDecidesIff(config: Config, actions: seq<Action>)
    requires config.threshold >= 1 && HalfOpens(config, actions)
    ensures NewestCall(config, actions) in After(config, actions).inFlight
    ensures TestDecides(config, actions) <==> After(config, actions).inFlight == {NewestCall(config, actions)}
  {
    var s, test := After(config, actions), NewestCall(config, actions);
    InFlightAreBegun(config, actions);
    if s.inFlight == {test} {
      forall more, call: nat | ClosesBy(config, actions, more, call)
        ensures call >= test && (NoneBegins(more) ==> call == test)
      {
        CloserWasInFlight(config, actions, more, call);
        InFlightLater(config, actions, more[..|more| - 1], call);
      }
    } else {
      var stale :| stale in s.inFlight && stale != test;
      OneEndCloses(config, actions, stale);
      assert NoneBegins([End(stale, Succeeds, 0)]);
    }
  }

  lemma CloserWasInFlight(config: Config, actions: seq<Action>, more: seq<Action>, call: nat)
    requires config.threshold >= 1 && ClosesBy(config, actions, more, call)
    ensures call in After(config, actions + more[..|more| - 1]).inFlight
    ensures NoneBegins(more) ==> NoneBegins(more[..|more| - 1])
  {
    var init, last := more[..|more| - 1], more[|more| - 1];
    assert actions + more == actions + init + [last];
    HalfOpenCloses(config, actions + init, last);
  }

  lemma OneEndCloses(config: Config, actions: seq<Action>, call: nat)
    requires config.threshold >= 1 && After(config, actions).breaker.mode == HalfOpen && call in After(config, actions).inFlight
    ensures ClosesBy(config, actions, [End(call, Succeeds, 0)], call)
  {
    var more := [End(call, Succeeds, 0)];
    HalfOpenCloses(config, actions, End(call, Succeeds, 0));
    assert more[..0] == [] && actions + [] == actions;
  }

  /** A half-open breaker admits every further call, and any of them may close it before the test ends. */
  lemma LaterCallCloses(config: Config, actions: seq<Action>, now: int)
    requires config.threshold >= 1 && After(config, actions).breaker.mode == HalfOpen
    ensures var next := After(config, actions).breaker.total;
      ClosesBy(config, actions, [Begin(now), End(next, Succeeds, now)], next)
  {
    var next := After(config, actions).breaker.total;
    var begin, end := Begin(now), End(next, Succeeds, now);
    assert (actions + [begin])[..|actions|] == actions;
    HalfOpenCloses(config, actions + [begin], end);
    assert actions + [begin, end] == actions + [begin] + [end];
    assert [begin, end][..0] == [] && actions + [] == actions && [begin, end][..1] == [begin];
  }

  /**
    A half-open breaker is closed by any success, even that of a call begun before it opened, while the call
    that tests the recovery is still in flight.
   */
  lemma StaleCallCloses()
    ensures var config := Config(1, 60);
      var actions := [Begin(0), Begin(0), End(0, Fails, 1), Begin(62), End(1, Succeeds, 63)];
      && After(config, actions[..3]).breaker.mode == Open && After(config, actions[..4]).breaker.mode == HalfOpen
      && After(config, actions).breaker.mode == Closed && After(config, actions).inFlight == {2}
  {
    var config := Config(1, 60);
    var a0, a1, a2, a3, a4 := Begin(0), Begin(0), End(0, Fails, 1), Begin(62), End(1, Succeeds, 63);
    assert [a0][..0] == [] && [a0, a1][..1] == [a0] && [a0, a1, a2][..2] == [a0, a1];
    assert [a0, a1, a2, a3][..3] == [a0, a1, a2] && [a0, a1, a2, a3, a4][..4] == [a0, a1, a2, a3];
    assert [a0, a1, a2, a3, a4][..3] == [a0, a1, a2];
    assert After(config, [a0]) == System(Breaker(Closed, 0, None, 0, 1), {0});
    assert After(config, [a0, a1]) == System(Breaker(Closed, 0, None, 0, 2), {0, 1});
    assert After(config, [a0, a1, a2]) == System(Breaker(Open, 1, Some(1), 0, 2), {1});
    assert After(config, [a0, a1, a2, a3]) == System(Breaker(HalfOpen, 1, Some(1), 0, 3), {1, 2});
  }
}
