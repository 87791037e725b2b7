/**
  Batches of optimisations and their running statistics: services/ortools_parallel_optimizer.py,
  `optimize_parallel` and what it calls.  Between a batch's results and its statistics no other call runs.
 */
module ParallelStats {
  import opened Wrappers

  datatype Task = Task(id: string)

  /** Where a result comes from. */
  datatype Source = Parallel | Sequential

  datatype Result = Result(task: string, success: bool, time: real, worker: string, source: Source)

  /** What becomes of a task: the optimiser succeeds or raises in a worker, or the wait for it ends otherwise. */
  datatype Outcome = Worked(success: bool, time: real, worker: string) | TimedOut | Broken

  // ---------- One result for every task ----------

  function ParallelResult(task: Task, outcome: Outcome): Result {
    match outcome
    case Worked(success, time, worker) => Result(task.id, success, time, worker, Parallel)
    case TimedOut => Result(task.id, false, 30000.0, "timeout", Parallel)
    case Broken => Result(task.id, false, 0.0, "error", Parallel)
  }

  function SequentialResult(task: Task, outcome: Outcome): Result {
    match outcome
    case Worked(success, time, _) => Result(task.id, success, time, "main_thread", Sequential)
    case _ => Result(task.id, false, 0.0, "main_thread", Sequential)
  }

  /** One result for each task, in the order of the tasks. */
  ghost predicate Answers(tasks: seq<Task>, results: seq<Result>, source: Source) {
    && |results| == |tasks|
    && forall i | 0 <= i < |tasks| :: results[i].task == tasks[i].id && results[i].source == source
  }

  /** The time and the worker of a result: what the worker says, half a minute after a timeout, nothing after an error. */
  predicate IsTimed(result: Result, outcome: Outcome) {
    && (outcome.Worked? ==> result.time == outcome.time && result.worker == outcome.worker)
    && (outcome.TimedOut? ==> result.time == 30000.0 && result.worker == "timeout")
    && (outcome.Broken? ==> result.time == 0.0 && result.worker == "error")
  }

  method ProcessParallel(tasks: seq<Task>, outcomes: seq<Outcome>) returns (results: seq<Result>)
    requires |outcomes| == |tasks|
    ensures Answers(tasks, results, Parallel)
    ensures forall i | 0 <= i < |tasks| :: results[i] == ParallelResult(tasks[i], outcomes[i])
    ensures forall i | 0 <= i < |tasks| :: results[i].success <==> outcomes[i].Worked? && outcomes[i].success
    ensures forall i | 0 <= i < |tasks| :: IsTimed(results[i], outcomes[i])
  {
    results := [];
    for i := 0 to |tasks|
      invariant |results| == i
      invariant forall j | 0 <= j < i :: results[j] == ParallelResult(tasks[j], outcomes[j])
    {
      match outcomes[i]
      case Worked(success, time, worker) =>
        results := results + [Result(tasks[i].id, success, time, worker, Parallel)];
      case TimedOut =>
        results := results + [Result(tasks[i].id, false, 30000.0, "timeout", Parallel)];
      case Broken =>
        results := results + [Result(tasks[i].id, false, 0.0, "error", Parallel)];
    }
  }

  /** Without a working optimiser every task is answered with an error. */
  method ProcessSequential(tasks: seq<Task>, outcomes: seq<Outcome>, ready: bool) returns (results: seq<Result>)
    requires |outcomes| == |tasks|
    ensures Answers(tasks, results, Sequential)
    ensures forall i | 0 <= i < |tasks| :: results[i] == SequentialResult(tasks[i], if ready then outcomes[i] else Broken)
    ensures forall i | 0 <= i < |tasks| :: results[i].success <==> ready && outcomes[i].Worked? && outcomes[i].success
    ensures forall i | 0 <= i < |tasks| :: results[i].worker == "main_thread"
    ensures forall i | 0 <= i < |tasks| :: results[i].time == if ready && outcomes[i].Worked? then outcomes[i].time else 0.0
  {
    results := [];
    for i := 0 to |tasks|
      invariant |results| == i
      invariant forall j | 0 <= j < i :: results[j] == SequentialResult(tasks[j], if ready then outcomes[j] else Broken)
    {
      if ready && outcomes[i].Worked? {
        results := results + [Result(tasks[i].id, outcomes[i].success, outcomes[i].time, "main_thread", Sequential)];
      } else {
        results := results + [Result(tasks[i].id, false, 0.0, "main_thread", Sequential)];
      }
    }
  }

  // ---------- History ----------

  function Successes(h: seq<Result>): nat {
    if h == [] then 0 else Successes(h[..|h| - 1]) + if h[|h| - 1].success then 1 else 0
  }

  function TotalTime(h: seq<Result>): real {
    if h == [] then 0.0 else TotalTime(h[..|h| - 1]) + h[|h| - 1].time
  }

  /** The results of one worker. */
  function By(h: seq<Result>, worker: string): seq<Result> {
    if h == [] then []
    else By(h[..|h| - 1], worker) + if h[|h| - 1].worker == worker then [h[|h| - 1]] else []
  }

  lemma OneMore(h: seq<Result>, r: Result)
    ensures Successes(h + [r]) == Successes(h) + if r.success then 1 else 0
    ensures TotalTime(h + [r]) == TotalTime(h) + r.time
    ensures forall worker :: By(h + [r], worker) == By(h, worker) + if r.worker == worker then [r] else []
  {
    assert (h + [r])[..|h|] == h;
  }

  lemma {:induction false} SuccessesAppend(a: seq<Result>, b: seq<Result>)
    ensures Successes(a + b) == Successes(a) + Successes(b)
  {
    if b == [] {
      assert a + b == a;
    } else {
      SuccessesAppend(a, b[..|b| - 1]);
      assert (a + b)[..|a + b| - 1] == a + b[..|b| - 1];
    }
  }

  // ---------- Running averages ----------

  datatype WorkerStats = WorkerStats(completed: nat, avgTime: real, successRate: real)

  const NO_STATS := WorkerStats(0, 0.0, 1.0)

  datatype Health = Health(healthy: bool, failures: nat)

  function Updated(w: WorkerStats, r: Result): WorkerStats {
    var n := w.completed + 1;
    WorkerStats(n, (w.avgTime * (n - 1) as real + r.time) / n as real,
      (w.successRate * (n - 1) as real + if r.success then 1.0 else 0.0) / n as real)
  }

  /** The statistics are the exact averages over a worker's results. */
  ghost predicate Exact(w: WorkerStats, h: seq<Result>) {
    && w.completed == |h|
    && (if h == [] then w == NO_STATS
        else w.avgTime == TotalTime(h) / |h| as real && w.successRate == Successes(h) as real / |h| as real)
  }

  lemma MeanOfMore(mean: real, sum: real, n: nat, x: real)
    requires n > 0 ==> mean == sum / n as real
    requires n == 0 ==> sum == 0.0
    ensures (mean * n as real + x) / (n + 1) as real == (sum + x) / (n + 1) as real
  {
    if n > 0 {
      assert mean * n as real == sum;
    }
  }

  lemma UpdatedIsExact(w: WorkerStats, h: seq<Result>, r: Result)
    requires Exact(w, h)
    ensures Exact(Updated(w, r), h + [r])
  {
    OneMore(h, r);
    MeanOfMore(w.avgTime, TotalTime(h), |h|, r.time);
    MeanOfMore(w.successRate, Successes(h) as real, |h|, if r.success then 1.0 else 0.0);
  }

  /** The statistics after a worker's results, updated one result after the other. */
  function Running(h: seq<Result>): WorkerStats {
    if h == [] then NO_STATS else Updated(Running(h[..|h| - 1]), h[|h| - 1])
  }

  lemma RunningOneMore(h: seq<Result>, r: Result)
    ensures Running(h + [r]) == Updated(Running(h), r)
  {
    assert (h + [r])[..|h|] == h;
  }

  /** Updating one result after the other gives the exact averages. */
  lemma {:induction false} RunningIsExact(h: seq<Result>)
    ensures Exact(Running(h), h)
  {
    if h != [] {
      var init, last := h[..|h| - 1], h[|h| - 1];
      RunningIsExact(init);
      UpdatedIsExact(Running(init), init, last);
      assert init + [last] == h;
    }
  }

  ghost predicate WorkersExact(workers: map<string, WorkerStats>, h: seq<Result>) {
    forall id :: WorkerExact(workers, h, id)
  }

  ghost predicate WorkerExact(workers: map<string, WorkerStats>, h: seq<Result>, id: string) {
    if id in workers then workers[id] == Running(By(h, id)) else By(h, id) == []
  }

  function Failures(h: seq<Result>): int {
    |h| - Successes(h)
  }

  ghost predicate HealthExact(health: map<string, Health>, h: seq<Result>) {
    forall id | id in health :: FailuresExact(health[id], By(h, id))
  }

  /** A worker is healthy until its fourth failure. */
  ghost predicate FailuresExact(health: Health, h: seq<Result>) {
    health.failures == Failures(h) && (health.healthy <==> health.failures <= 3)
  }

  /** The statistics of the workers after one more result. */
  function Counted(workers: map<string, WorkerStats>, r: Result): map<string, WorkerStats> {
    workers[r.worker := Updated(if r.worker in workers then workers[r.worker] else NO_STATS, r)]
  }

  function Hurt(health: map<string, Health>, r: Result): map<string, Health> {
    if r.success || r.worker !in health then health
    else
      var failures := health[r.worker].failures + 1;
      health[r.worker := Health(health[r.worker].healthy && failures <= 3, failures)]
  }

  lemma ByOneMore(h: seq<Result>, r: Result, id: string)
    ensures By(h + [r], id) == if r.worker == id then By(h, id) + [r] else By(h, id)
  {
    OneMore(h, r);
    assert By(h, id) + [] == By(h, id);
  }

  lemma ItsWorkerOneMore(workers: map<string, WorkerStats>, h: seq<Result>, r: Result)
    requires WorkerExact(workers, h, r.worker)
    ensures WorkerExact(Counted(workers, r), h + [r], r.worker)
  {
    ByOneMore(h, r, r.worker);
    RunningOneMore(By(h, r.worker), r);
  }

  lemma OtherWorkerOneMore(workers: map<string, WorkerStats>, h: seq<Result>, r: Result, id: string)
    requires WorkerExact(workers, h, id) && id != r.worker
    ensures WorkerExact(Counted(workers, r), h + [r], id)
  {
    ByOneMore(h, r, id);
    assert id in Counted(workers, r) <==> id in workers;
  }

  lemma WorkersOneMore(workers: map<string, WorkerStats>, h: seq<Result>, r: Result)
    requires WorkersExact(workers, h)
    ensures WorkersExact(Counted(workers, r), h + [r])
  {
    forall id ensures WorkerExact(Counted(workers, r), h + [r], id) {
      assert WorkerExact(workers, h, id);
      if id == r.worker {
        ItsWorkerOneMore(workers, h, r);
      } else {
        OtherWorkerOneMore(workers, h, r, id);
      }
    }
  }

  lemma FailuresOneMore(health: Health, h: seq<Result>, r: Result)
    requires FailuresExact(health, h)
    ensures FailuresExact(if r.success then health else Health(health.healthy && health.failures < 3, health.failures + 1), h + [r])
  {
    OneMore(h, r);
  }

  lemma HealthOneMore(health: map<string, Health>, h: seq<Result>, r: Result)
    requires HealthExact(health, h)
    ensures HealthExact(Hurt(health, r), h + [r])
  {
    forall id | id in health ensures FailuresExact(Hurt(health, r)[id], By(h + [r], id)) {
      ByOneMore(h, r, id);
      if id == r.worker {
        FailuresOneMore(health[id], By(h, id), r);
      }
    }
  }

  /** What the workers' statistics say are the exact averages of their results over all history. */
  lemma WorkersAreExact(workers: map<string, WorkerStats>, h: seq<Result>, id: string)
    requires WorkersExact(workers, h) && id in workers
    ensures Exact(workers[id], By(h, id))
  {
    assert WorkerExact(workers, h, id);
    RunningIsExact(By(h, id));
  }

  // ---------- The optimiser ----------

  class ParallelOptimizer {
    var total: nat
    var parallel: nat
    var sequential: nat
    var avgTime: real
    var totalTime: real
    var successRate: real
    var workers: map<string, WorkerStats>
    var health: map<string, Health>
    /** Every result ever delivered, and the time all batches took. */
    ghost var history: seq<Result>
    ghost var elapsed: real

    /** The global statistics are the exact counts and ratios over all history. */
    ghost predicate GlobalExact()
      reads this
    {
      && total == |history| && totalTime == elapsed
      && (if total == 0 then successRate == 0.0 && avgTime == 0.0 && elapsed == 0.0
          else successRate == Successes(history) as real / total as real && avgTime == elapsed / total as real)
    }

    ghost predicate Valid()
      reads this
    {
      GlobalExact() && parallel + sequential == total && WorkersExact(workers, history) && HealthExact(health, history)
    }

    constructor (ids: seq<string>)
      ensures Valid() && history == [] && health.Keys == set id | id in ids
      ensures forall id | id in health :: health[id].healthy
      ensures forall id | id in ids :: id in workers && workers[id] == WorkerStats(0, 0.0, 1.0)
    {
      total, parallel, sequential := 0, 0, 0;
      avgTime, totalTime, successRate := 0.0, 0.0, 0.0;
      workers := map id | id in ids :: NO_STATS;
      health := map id | id in ids :: Health(true, 0);
      history, elapsed := [], 0.0;
    }

    /** Each batch is answered task by task and adds its results to the history, whatever becomes of its tasks. */
    method OptimizeParallel(tasks: seq<Task>, outcomes: seq<Outcome>, enabled: bool, executor: bool, ready: bool, time: real)
        returns (results: seq<Result>)
      requires Valid() && |outcomes| == |tasks|
      modifies this
      ensures Valid()
      ensures Answers(tasks, results, if |tasks| > 1 && enabled && executor then Parallel else Sequential)
      ensures history == old(history) + results && elapsed == old(elapsed) + if tasks == [] then 0.0 else time
      ensures parallel == old(parallel) + if |tasks| > 1 && enabled && executor then |tasks| else 0
    {
      if tasks == [] {
        return [];
      }
      if |tasks| > 1 && enabled && executor {
        results := ProcessParallel(tasks, outcomes);
        parallel := parallel + |tasks|;
      } else {
        results := ProcessSequential(tasks, outcomes, ready);
        sequential := sequential + |tasks|;
      }
      UpdateGlobalStats(results, time);
    }

    method UpdateGlobalStats(results: seq<Result>, time: real)
      requires GlobalExact() && WorkersExact(workers, history) && HealthExact(health, history)
      requires total > 0 || results != []
      modifies this`total, this`successRate, this`totalTime, this`avgTime, this`workers, this`health, this`history, this`elapsed
      ensures GlobalExact() && WorkersExact(workers, history) && HealthExact(health, history)
      ensures total == old(total) + |results| && history == old(history) + results && elapsed == old(elapsed) + time
    {
      total := total + |results|;
      var successful := CountSuccesses(results);
      successRate := WeighRates(successRate, total, successful, |results|, Successes(history));
      totalTime := totalTime + time;
      avgTime := totalTime / total as real;
      UpdateWorkers(results, history);
      SuccessesAppend(history, results);
      history, elapsed := history + results, elapsed + time;
    }

    method UpdateWorkers(results: seq<Result>, ghost before: seq<Result>)
      requires WorkersExact(workers, before) && HealthExact(health, before)
      modifies this`workers, this`health
      ensures WorkersExact(workers, before + results) && HealthExact(health, before + results)
    {
      assert before + results[..0] == before;
      for i := 0 to |results|
        invariant WorkersExact(workers, before + results[..i]) && HealthExact(health, before + results[..i])
      {
        assert before + results[..i] + [results[i]] == before + results[..i + 1];
        label Before:
        UpdateWorkerStats(results[i]);
        WorkersOneMore(old@Before(workers), before + results[..i], results[i]);
        HealthOneMore(old@Before(health), before + results[..i], results[i]);
      }
      assert results[..|results|] == results;
    }

    method UpdateWorkerStats(r: Result)
      modifies this`workers, this`health
      ensures workers == Counted(old(workers), r) && health == Hurt(old(health), r)
    {
      if r.worker !in workers {
        workers := workers[r.worker := NO_STATS];
      }
      var stats := workers[r.worker];
      var completed := stats.completed + 1;
      assert stats == if r.worker in old(workers) then old(workers)[r.worker] else NO_STATS;
      var avg := (stats.avgTime * (completed - 1) as real + r.time) / completed as real;
      var rate := (stats.successRate * (completed - 1) as real + if r.success then 1.0 else 0.0) / completed as real;
      assert WorkerStats(completed, avg, rate) == Updated(stats, r);
      workers := workers[r.worker := WorkerStats(completed, avg, rate)];
      if !r.success {
        if r.worker in health {
          var failures := health[r.worker].failures + 1;
          var healthy := health[r.worker].healthy;
          if failures > 3 {
            healthy := false;
          }
          health := health[r.worker := Health(healthy, failures)];
        }
      }
    }
  }

  /** The success rate of all `total` results, weighed from the rate before a batch and the batch's own. */
  method WeighRates(rate: real, total: nat, successful: nat, batch: nat, ghost before: nat) returns (all: real)
    requires total > 0 && batch <= total && successful <= batch
    requires if total > batch then rate == before as real / (total - batch) as real else before == 0 && rate == 0.0
    ensures all == (before + successful) as real / total as real
  {
    var current := if batch > 0 then successful as real / batch as real else 0.0;
    var prevWeight := (total - batch) as real / total as real;
    var newWeight := batch as real / total as real;
    WeightedRate(rate, before, total - batch, current, successful, batch);
    all := rate * prevWeight + current * newWeight;
  }

  method CountSuccesses(results: seq<Result>) returns (count: nat)
    ensures count == Successes(results) && count <= |results|
  {
    count := 0;
    for i := 0 to |results|
      invariant count == Successes(results[..i]) && count <= i
    {
      assert results[..i + 1][..i] == results[..i];
      if results[i].success {
        count := count + 1;
      }
    }
    assert results[..|results|] == results;
  }

  /** Weighting two rates by their counts gives the rate of both together. */
  lemma WeightedRate(before: real, a: nat, n: nat, current: real, b: nat, k: nat)
    requires n + k > 0 && (n > 0 ==> before == a as real / n as real) && (n == 0 ==> a == 0 && before == 0.0)
    requires if k > 0 then current == b as real / k as real else b == 0 && current == 0.0
    ensures before * (n as real / (n + k) as real) + current * (k as real / (n + k) as real) == (a + b) as real / (n + k) as real
  {
    var all := (n + k) as real;
    RatePart(before, a, n, all);
    RatePart(current, b, k, all);
    AddFractions(a as real, b as real, all);
  }

  lemma RatePart(rate: real, a: nat, n: nat, all: real)
    requires all > 0.0 && if n > 0 then rate == a as real / n as real else a == 0 && rate == 0.0
    ensures rate * (n as real / all) == a as real / all
  {
    if n > 0 {
      assert rate * n as real == a as real;
      Regroup(rate, n as real, all);
    }
  }

  lemma Regroup(x: real, y: real, z: real)
    requires z > 0.0
    ensures x * (y / z) == x * y / z
  {
  }

  lemma AddFractions(a: real, b: real, c: real)
    requires c > 0.0
    ensures a / c + b / c == (a + b) / c
  {
  }

  /**
    Health is kept for the numbered workers the pool starts with; results carry other names, and then no worker
    is ever found unhealthy, however many optimisations fail.
   */
  lemma OthersHurtNoWorker(health: map<string, Health>, h: seq<Result>, id: string)
    requires HealthExact(health, h) && id in health && forall i | 0 <= i < |h| :: h[i].worker != id
    ensures health[id] == Health(true, 0)
  {
    NoneBy(h, id);
  }

  /** A worker for which health is kept is found unhealthy from its fourth failure on. */
  lemma UnhealthyIff(health: map<string, Health>, h: seq<Result>, id: string)
    requires HealthExact(health, h) && id in health
    ensures !health[id].healthy <==> |By(h, id)| >= Successes(By(h, id)) + 4
  {
    assert FailuresExact(health[id], By(h, id));
  }

  lemma {:induction false} NoneBy(h: seq<Result>, id: string)
    requires forall i | 0 <= i < |h| :: h[i].worker != id
    ensures By(h, id) == []
  {
    if h != [] {
      NoneBy(h[..|h| - 1], id);
    }
  }
}
