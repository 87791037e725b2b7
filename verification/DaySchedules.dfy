/**
  Day schedules: slicing the points of interest of a city into days
  (`_simple_daily_distribution`), and laying the schedules of several stays one after the other.
 */
module DaySchedules {
  import opened Wrappers
  import opened Sequences
  import opened Sets
  import opened Cities

  /** The points of interest of each day, by day number. */
  type Schedule = map<int, seq<Poi>>

  /** `schedule.get(day, [])` */
  function DayOf(schedule: Schedule, day: int): seq<Poi> {
    if day in schedule then schedule[day] else []
  }

  /** The days first, ..., first + n - 1 of a schedule, concatenated. */
  function Concat(schedule: Schedule, first: int, n: int): seq<Poi>
    decreases n
  {
    if n <= 0 then [] else Concat(schedule, first, n - 1) + DayOf(schedule, first + n - 1)
  }

  /** Python's `s[a:b]` for a, b >= 0. */
  function Slice<T>(s: seq<T>, a: nat, b: nat): seq<T> {
    var end := if b < |s| then b else |s|;
    if a < end then s[a..end] else []
  }

  function PerDay(n: nat, days: int): (perDay: nat)
    requires days > 0
    ensures perDay >= 1
  {
    if n / days < 1 then 1 else n / days
  }

  /** The points of interest of one day: the last day takes all that is left. */
  function DayPois(pois: seq<Poi>, days: int, day: int): seq<Poi>
    requires 1 <= day <= days
  {
    var perDay := PerDay(|pois|, days);
    var start := (day - 1) * perDay;
    Slice(pois, start, if day < days then start + perDay else |pois|)
  }

  /** The slices of the first n days of a stay. */
  function FirstSlices(pois: seq<Poi>, days: int, n: int): Schedule
    requires n <= days
    decreases n
  {
    if n <= 0 then map[] else FirstSlices(pois, days, n - 1)[n := DayPois(pois, days, n)]
  }

  lemma {:induction false} FirstSlicesAre(pois: seq<Poi>, days: int, n: int, day: int)
    requires n <= days
    ensures day in FirstSlices(pois, days, n) <==> 1 <= day <= n
    ensures 1 <= day <= n ==> DayOf(FirstSlices(pois, days, n), day) == DayPois(pois, days, day)
    decreases n
  {
    if n > 0 {
      FirstSlicesAre(pois, days, n - 1, day);
    }
  }

  function Sliced(pois: seq<Poi>, days: int): Schedule {
    FirstSlices(pois, days, days)
  }

  datatype Failure = ZeroDivision

  /** The version of services/multi_city_optimizer_simple.py:255. */
  method SimpleDailyDistribution(pois: seq<Poi>, days: int) returns (schedule: Schedule)
    ensures schedule == if pois == [] then map[] else Sliced(pois, days)
  {
    if pois == [] {
      return map[];
    }
    schedule := SliceDays(pois, days);
  }

  /** The version of services/multi_city_optimizer.py:445, which divides by the days first. */
  method DailyDistribution(pois: seq<Poi>, days: int) returns (schedule: Result<Schedule, Failure>)
    ensures schedule == if days == 0 then Err(ZeroDivision) else Ok(Sliced(pois, days))
  {
    if days == 0 {
      return Err(ZeroDivision);
    }
    var slices := SliceDays(pois, days);
    return Ok(slices);
  }

  method SliceDays(pois: seq<Poi>, days: int) returns (schedule: Schedule)
    ensures schedule == Sliced(pois, days)
  {
    schedule := map[];
    if days <= 0 {
      return;
    }
    var perDay := PerDay(|pois|, days);
    for day := 1 to days + 1
      invariant schedule == FirstSlices(pois, days, day - 1)
    {
      var start := (day - 1) * perDay;
      schedule := schedule[day := Slice(pois, start, if day < days then start + perDay else |pois|)];
    }
  }

  lemma SliceOfDay(pois: seq<Poi>, days: int, day: int)
    requires 1 <= day <= days
    ensures DayOf(Sliced(pois, days), day) == DayPois(pois, days, day)
  {
    FirstSlicesAre(pois, days, days, day);
  }

  /** A stay is sliced into the days 1, ..., days, without a gap. */
  lemma SlicesAreFull(pois: seq<Poi>, days: int)
    ensures Full(Sliced(pois, days), days) && Within(Sliced(pois, days), days)
  {
    forall day ensures day in Sliced(pois, days) <==> 1 <= day <= days {
      FirstSlicesAre(pois, days, days, day);
    }
  }

  /** The first k slices put together, as a function of k. */
  function SlicesUpTo(pois: seq<Poi>, days: int, k: nat): seq<Poi>
    requires k <= days
  {
    if k == 0 then [] else SlicesUpTo(pois, days, k - 1) + DayPois(pois, days, k)
  }

  lemma {:induction false} ConcatSlices(pois: seq<Poi>, days: int, k: nat)
    requires k <= days
    ensures Concat(Sliced(pois, days), 1, k) == SlicesUpTo(pois, days, k)
  {
    if k > 0 {
      ConcatSlices(pois, days, k - 1);
      SliceOfDay(pois, days, k);
    }
  }

  lemma SlicesMeet<T>(s: seq<T>, b: nat, c: nat)
    requires b <= c
    ensures Slice(s, 0, b) + Slice(s, b, c) == Slice(s, 0, c)
    ensures Slice(s, 0, b) + Slice(s, b, |s|) == s
  {
  }

  lemma Step(k: nat, perDay: nat)
    requires k > 0
    ensures (k - 1) * perDay >= 0 && (k - 1) * perDay + perDay == k * perDay
  {
  }

  /** The days before the last hold the first k * perDay points, or all of them. */
  lemma {:induction false} FirstDays(pois: seq<Poi>, days: int, k: nat)
    requires k < days
    ensures k * PerDay(|pois|, days) >= 0
    ensures SlicesUpTo(pois, days, k) == Slice(pois, 0, k * PerDay(|pois|, days))
  {
    if k > 0 {
      FirstDays(pois, days, k - 1);
      Step(k, PerDay(|pois|, days));
      SlicesMeet(pois, (k - 1) * PerDay(|pois|, days), k * PerDay(|pois|, days));
    }
  }

  /** The day slices of a stay of at least one day are the points of interest, in order, each once. */
  lemma SlicesCover(pois: seq<Poi>, days: int)
    requires days >= 1
    ensures Concat(Sliced(pois, days), 1, days) == pois
  {
    ConcatSlices(pois, days, days);
    FirstDays(pois, days, days - 1);
    var start := (days - 1) * PerDay(|pois|, days);
    SlicesMeet(pois, start, start);
  }

  /**
    With at least as many points as days, every day but the last has the same number of them, and the
    last at most days - 1 more.
   */
  lemma SlicesAreEven(pois: seq<Poi>, days: int, day: int)
    requires 1 <= day <= days <= |pois|
    ensures var n := |DayPois(pois, days, day)|;
      if day < days then n == |pois| / days else |pois| / days <= n < |pois| / days + days
  {
    var q := |pois| / days;
    QuotientOf(|pois|, days, q);
    StartsFit(|pois|, days, q, day);
  }

  /** With more days than points of interest, each of the first days holds the next one, and the others none. */
  lemma OnePoiADay(pois: seq<Poi>, days: int, day: int)
    requires 1 <= day <= days && |pois| < days
    ensures DayOf(Sliced(pois, days), day) == if day <= |pois| then [pois[day - 1]] else []
  {
    SliceOfDay(pois, days, day);
    OnePerDay(|pois|, days);
  }

  lemma OnePerDay(n: nat, days: int)
    requires n < days
    ensures PerDay(n, days) == 1
  {
    SmallQuotient(n, days, n / days);
  }

  lemma SmallQuotient(n: nat, days: int, q: int)
    requires n < days && q == n / days
    ensures q == 0
  {
    assert n == q * days + n % days;
    assert q >= 1 ==> q * days >= days;
  }

  lemma QuotientOf(n: nat, days: int, q: int)
    requires 1 <= days <= n && q == n / days
    ensures q >= 1 && q * days <= n < q * days + days
  {
    assert n == q * days + n % days;
    assert q < 1 ==> q * days <= 0;
  }

  lemma StartsFit(n: nat, days: int, q: int, day: int)
    requires 1 <= day <= days && q >= 1 && q * days <= n
    ensures 0 <= (day - 1) * q && (day - 1) * q + q == day * q <= days * q <= n
    ensures day == days ==> (day - 1) * q + q == q * days
  {
    assert (days - day) * q >= 0;
  }

  // ---------- Laying stays one after the other ----------

  /** The schedule moved by `offset` days. */
  ghost function Shift(schedule: Schedule, offset: int): Schedule {
    if schedule.Keys == {} then map[]
    else
      var day := Pick(schedule.Keys);
      Shift(schedule - {day}, offset)[day + offset := schedule[day]]
  }

  lemma {:induction false} ShiftMoves(schedule: Schedule, offset: int, day: int)
    ensures DayOf(Shift(schedule, offset), day + offset) == DayOf(schedule, day)
    ensures day + offset in Shift(schedule, offset) <==> day in schedule
    decreases |schedule|
  {
    if schedule.Keys != {} {
      var d := Pick(schedule.Keys);
      ShiftMoves(schedule - {d}, offset, day);
      ShiftMovesOne(schedule - {d}, Shift(schedule - {d}, offset), offset, d, schedule[d], day);
      assert schedule == (schedule - {d})[d := schedule[d]];
    }
  }

  lemma ShiftMovesOne(rest: Schedule, shifted: Schedule, offset: int, d: int, pois: seq<Poi>, day: int)
    requires DayOf(shifted, day + offset) == DayOf(rest, day) && (day + offset in shifted <==> day in rest)
    ensures DayOf(shifted[d + offset := pois], day + offset) == DayOf(rest[d := pois], day)
    ensures day + offset in shifted[d + offset := pois] <==> day in rest[d := pois]
  {
  }

  /** A day more in a schedule is a day more in the moved schedule. */
  lemma ShiftAdds(schedule: Schedule, offset: int, day: int, pois: seq<Poi>)
    ensures Shift(schedule[day := pois], offset) == Shift(schedule, offset)[day + offset := pois]
  {
    var after, before := Shift(schedule[day := pois], offset), Shift(schedule, offset);
    forall d ensures d in after <==> d in before[day + offset := pois]
             ensures d in after ==> after[d] == before[day + offset := pois][d] {
      ShiftMoves(schedule[day := pois], offset, d - offset);
      ShiftMoves(schedule, offset, d - offset);
    }
  }

  /** The day on which stay i begins when the stays follow each other from day 1. */
  function StartOf(lengths: seq<int>, i: nat): int
    requires i <= |lengths|
  {
    if i == 0 then 1 else StartOf(lengths, i - 1) + lengths[i - 1]
  }

  /** The first k stays, one after the other; a later stay overwrites days it shares. */
  ghost function LayFirst(stays: seq<Schedule>, lengths: seq<int>, k: nat): Schedule
    requires k <= |stays| == |lengths|
  {
    if k == 0 then map[]
    else LayFirst(stays, lengths, k - 1) + Shift(stays[k - 1], StartOf(lengths, k - 1) - 1)
  }

  ghost function Lay(stays: seq<Schedule>, lengths: seq<int>): Schedule
    requires |stays| == |lengths|
  {
    LayFirst(stays, lengths, |stays|)
  }

  lemma LayNext(stays: seq<Schedule>, lengths: seq<int>, i: nat)
    requires i < |stays| == |lengths|
    ensures LayFirst(stays, lengths, i + 1) == LayFirst(stays, lengths, i) + Shift(stays[i], StartOf(lengths, i) - 1)
    ensures StartOf(lengths, i + 1) == StartOf(lengths, i) + lengths[i]
  {
  }

  lemma {:induction false} StartAfterAll(lengths: seq<int>, i: nat)
    requires i <= |lengths|
    ensures StartOf(lengths, i) == 1 + Sum(lengths[..i])
  {
    if i > 0 {
      StartAfterAll(lengths, i - 1);
      assert lengths[..i][..i - 1] == lengths[..i - 1];
    }
  }

  /** The schedule uses only days 1, ..., length. */
  ghost predicate Within(schedule: Schedule, length: int) {
    forall day | day in schedule :: 1 <= day <= length
  }

  /** From day `first` on, n days of a are those of b that come `offset` days later. */
  ghost predicate SameDays(a: Schedule, b: Schedule, first: int, offset: int, n: int) {
    forall day | first <= day < first + n :: DayOf(a, day) == DayOf(b, offset + day)
  }

  lemma {:induction false} ConcatFrame(a: Schedule, b: Schedule, first: int, offset: int, n: int)
    requires SameDays(a, b, first, offset, n)
    ensures Concat(a, first, n) == Concat(b, offset + first, n)
    decreases n
  {
    if n > 0 {
      ConcatFrame(a, b, first, offset, n - 1);
      assert DayOf(a, first + n - 1) == DayOf(b, offset + (first + n - 1));
    }
  }

  lemma {:induction false} ConcatSplits(schedule: Schedule, first: int, m: nat, n: nat)
    ensures Concat(schedule, first, m + n) == Concat(schedule, first, m) + Concat(schedule, first + m, n)
    decreases n
  {
    if n > 0 {
      ConcatSplits(schedule, first, m, n - 1);
      assert first + (m + n) - 1 == first + m + n - 1;
    }
  }

  /** What the first k stays hold over their own lengths, concatenated. */
  function ContentsFirst(stays: seq<Schedule>, lengths: seq<int>, k: nat): seq<Poi>
    requires k <= |stays| == |lengths|
  {
    if k == 0 then [] else ContentsFirst(stays, lengths, k - 1) + Concat(stays[k - 1], 1, lengths[k - 1])
  }

  /** The stays keep to their lengths. */
  ghost predicate Fitting(stays: seq<Schedule>, lengths: seq<int>) {
    |stays| == |lengths| && forall i | 0 <= i < |stays| :: lengths[i] >= 0 && Within(stays[i], lengths[i])
  }

  lemma {:induction false} FirstStaysFit(stays: seq<Schedule>, lengths: seq<int>, k: nat)
    requires Fitting(stays, lengths) && k <= |stays|
    ensures StartOf(lengths, k) >= 1 && Within(LayFirst(stays, lengths, k), StartOf(lengths, k) - 1)
  {
    if k > 0 {
      FirstStaysFit(stays, lengths, k - 1);
      assert Within(stays[k - 1], lengths[k - 1]);
      LastStayWithin(LayFirst(stays, lengths, k - 1), stays[k - 1], StartOf(lengths, k - 1) - 1, lengths[k - 1]);
    }
  }

  /** The days of the first k stays, laid one after the other. */
  ghost function LaidFirst(stays: seq<Schedule>, lengths: seq<int>, k: nat): seq<Poi>
    requires k <= |stays| == |lengths|
  {
    Concat(LayFirst(stays, lengths, k), 1, StartOf(lengths, k) - 1)
  }

  /** One more stay adds its own days to those before it. */
  lemma OneMoreStay(stays: seq<Schedule>, lengths: seq<int>, i: nat)
    requires Fitting(stays, lengths) && i < |stays|
    ensures LaidFirst(stays, lengths, i + 1) == LaidFirst(stays, lengths, i) + Concat(stays[i], 1, lengths[i])
  {
    FirstStaysFit(stays, lengths, i);
    assert Within(stays[i], lengths[i]);
    LaidConcat(LayFirst(stays, lengths, i), stays[i], StartOf(lengths, i) - 1, lengths[i]);
  }

  lemma {:induction false} FirstStaysInOrder(stays: seq<Schedule>, lengths: seq<int>, k: nat)
    requires Fitting(stays, lengths) && k <= |stays|
    ensures LaidFirst(stays, lengths, k) == ContentsFirst(stays, lengths, k)
  {
    if k == 0 {
      NoStays(stays, lengths);
    } else {
      FirstStaysInOrder(stays, lengths, k - 1);
      NextInOrder(stays, lengths, k - 1);
    }
  }

  lemma NoStays(stays: seq<Schedule>, lengths: seq<int>)
    requires |stays| == |lengths|
    ensures LaidFirst(stays, lengths, 0) == ContentsFirst(stays, lengths, 0) == []
  {
  }

  lemma NextInOrder(stays: seq<Schedule>, lengths: seq<int>, k: nat)
    requires Fitting(stays, lengths) && k < |stays|
    requires LaidFirst(stays, lengths, k) == ContentsFirst(stays, lengths, k)
    ensures LaidFirst(stays, lengths, k + 1) == ContentsFirst(stays, lengths, k + 1)
  {
    OneMoreStay(stays, lengths, k);
    OneMoreContent(stays, lengths, k + 1);
  }

  lemma OneMoreContent(stays: seq<Schedule>, lengths: seq<int>, k: nat)
    requires 0 < k <= |stays| == |lengths|
    ensures ContentsFirst(stays, lengths, k) == ContentsFirst(stays, lengths, k - 1) + Concat(stays[k - 1], 1, lengths[k - 1])
  {
  }

  /** Stays that keep to their lengths, laid one after the other, are their contents in order. */
  lemma LaidInOrder(stays: seq<Schedule>, lengths: seq<int>)
    requires Fitting(stays, lengths)
    ensures Sum(lengths) >= 0 && Within(Lay(stays, lengths), Sum(lengths))
    ensures Concat(Lay(stays, lengths), 1, Sum(lengths)) == ContentsFirst(stays, lengths, |stays|)
  {
    FirstStaysFit(stays, lengths, |stays|);
    FirstStaysInOrder(stays, lengths, |stays|);
    EndOfAll(lengths);
  }

  lemma EndOfAll(lengths: seq<int>)
    ensures StartOf(lengths, |lengths|) - 1 == Sum(lengths)
  {
    StartAfterAll(lengths, |lengths|);
    assert lengths[..|lengths|] == lengths;
  }

  lemma {:induction false} StartsGrow(stays: seq<Schedule>, lengths: seq<int>, i: nat, k: nat)
    requires Fitting(stays, lengths) && i <= k <= |stays|
    ensures StartOf(lengths, i) <= StartOf(lengths, k)
    decreases k
  {
    if i < k {
      assert lengths[k - 1] >= 0;
      StartsGrow(stays, lengths, i, k - 1);
    }
  }

  /** Days before stay i are not touched by it or by later stays. */
  lemma {:induction false} DaysKept(stays: seq<Schedule>, lengths: seq<int>, i: nat, k: nat, day: int)
    requires Fitting(stays, lengths) && i <= k <= |stays| && 1 <= day < StartOf(lengths, i)
    ensures DayOf(LayFirst(stays, lengths, k), day) == DayOf(LayFirst(stays, lengths, i), day)
    decreases k
  {
    if i < k {
      DaysKept(stays, lengths, i, k - 1, day);
      StartsGrow(stays, lengths, i, k - 1);
      assert Within(stays[k - 1], lengths[k - 1]);
      EarlierDay(LayFirst(stays, lengths, k - 1), stays[k - 1], StartOf(lengths, k - 1) - 1, lengths[k - 1], day);
    }
  }

  /** Each stay owns the block of days that begins after those before it, day by day. */
  lemma StayOwnsItsDays(stays: seq<Schedule>, lengths: seq<int>, i: nat, day: int)
    requires Fitting(stays, lengths) && i < |stays| && 1 <= day <= lengths[i]
    ensures DayOf(Lay(stays, lengths), StartOf(lengths, i) - 1 + day) == DayOf(stays[i], day)
  {
    FirstStaysFit(stays, lengths, i);
    OwnDay(LayFirst(stays, lengths, i), stays[i], StartOf(lengths, i) - 1, day);
    DaysKept(stays, lengths, i + 1, |stays|, StartOf(lengths, i) - 1 + day);
  }

  lemma EarlierDay(before: Schedule, stay: Schedule, sum: int, length: int, day: int)
    requires Within(stay, length) && day <= sum
    ensures DayOf(before + Shift(stay, sum), day) == DayOf(before, day)
  {
    ShiftMoves(stay, sum, day - sum);
  }

  lemma OwnDay(before: Schedule, stay: Schedule, sum: int, day: int)
    requires Within(before, sum) && 1 <= day
    ensures DayOf(before + Shift(stay, sum), sum + day) == DayOf(stay, day)
  {
    ShiftMoves(stay, sum, day);
  }

  lemma ShiftedWithin(stay: Schedule, sum: int, length: int)
    requires Within(stay, length)
    ensures forall day | day in Shift(stay, sum) :: sum < day <= sum + length
  {
    forall day | day in Shift(stay, sum) ensures sum < day <= sum + length {
      ShiftMoves(stay, sum, day - sum);
    }
  }

  lemma LastStayWithin(before: Schedule, stay: Schedule, sum: int, length: int)
    requires sum >= 0 && length >= 0 && Within(before, sum) && Within(stay, length)
    ensures Within(before + Shift(stay, sum), sum + length)
  {
    ShiftedWithin(stay, sum, length);
  }

  lemma LaidConcat(before: Schedule, stay: Schedule, sum: int, length: int)
    requires sum >= 0 && length >= 0 && Within(before, sum) && Within(stay, length)
    ensures Concat(before + Shift(stay, sum), 1, sum + length) == Concat(before, 1, sum) + Concat(stay, 1, length)
  {
    var all := before + Shift(stay, sum);
    forall day | 1 <= day < 1 + sum ensures DayOf(before, day) == DayOf(all, 0 + day) {
      EarlierDay(before, stay, sum, length, day);
    }
    ConcatFrame(before, all, 1, 0, sum);
    forall day | 1 <= day < 1 + length ensures DayOf(stay, day) == DayOf(all, sum + day) {
      OwnDay(before, stay, sum, day);
    }
    ConcatFrame(stay, all, 1, sum, length);
    ConcatSplits(all, 1, sum, length);
  }

  /** The schedule uses exactly the days 1, ..., length. */
  ghost predicate Full(schedule: Schedule, length: int) {
    forall day :: day in schedule <==> 1 <= day <= length
  }

  lemma LastStayFull(before: Schedule, stay: Schedule, sum: int, length: int)
    requires sum >= 0 && length >= 0 && Full(before, sum) && Full(stay, length)
    ensures Full(before + Shift(stay, sum), sum + length)
  {
    forall day ensures day in Shift(stay, sum) <==> sum < day <= sum + length {
      ShiftMoves(stay, sum, day - sum);
    }
  }

  /** Stays without gaps, laid one after the other, leave no gap. */
  lemma {:induction false} FirstStaysFull(stays: seq<Schedule>, lengths: seq<int>, k: nat)
    requires k <= |stays| == |lengths|
    requires forall i | 0 <= i < |stays| :: lengths[i] >= 0 && Full(stays[i], lengths[i])
    ensures StartOf(lengths, k) >= 1 && Full(LayFirst(stays, lengths, k), StartOf(lengths, k) - 1)
  {
    if k > 0 {
      FirstStaysFull(stays, lengths, k - 1);
      assert Full(stays[k - 1], lengths[k - 1]);
      LastStayFull(LayFirst(stays, lengths, k - 1), stays[k - 1], StartOf(lengths, k - 1) - 1, lengths[k - 1]);
    }
  }

  // ---------- Counting what a schedule holds ----------

  /** Number of points of interest in a schedule. */
  ghost function Total(schedule: Schedule): nat {
    if schedule.Keys == {} then 0
    else
      var day := Pick(schedule.Keys);
      |schedule[day]| + Total(schedule - {day})
  }

  lemma {:induction false} TotalSplits(schedule: Schedule, day: int)
    requires day in schedule
    ensures Total(schedule) == |schedule[day]| + Total(schedule - {day})
    decreases |schedule|
  {
    var d := Pick(schedule.Keys);
    if d != day {
      TotalSplits(schedule - {d}, day);
      TotalSplits(schedule - {day}, d);
      assert schedule - {d} - {day} == schedule - {day} - {d};
    }
  }

  lemma {:induction false} TotalOfMerge(a: Schedule, b: Schedule)
    ensures Total(a + b) <= Total(a) + Total(b)
    decreases |b|
  {
    if b.Keys == {} {
      assert a + b == a;
    } else {
      var day := Pick(b.Keys);
      TotalSplits(b, day);
      TotalSplits(a + b, day);
      TotalOfMerge(a - {day}, b - {day});
      MergeWithout(a, b, day);
      TotalOfPart(a, day);
    }
  }

  lemma MergeWithout(a: Schedule, b: Schedule, day: int)
    ensures (a + b) - {day} == (a - {day}) + (b - {day})
  {
  }

  lemma TotalOfPart(a: Schedule, day: int)
    ensures Total(a - {day}) <= Total(a)
  {
    if day in a {
      TotalSplits(a, day);
    } else {
      assert a - {day} == a;
    }
  }

  /** A schedule of consecutive days holds as many points as its concatenation. */
  lemma {:induction false} TotalOfDays(schedule: Schedule, first: int, n: nat)
    requires forall day :: day in schedule <==> first <= day < first + n
    ensures Total(schedule) == |Concat(schedule, first, n)|
    decreases n
  {
    if n > 0 {
      var last := first + n - 1;
      TotalSplits(schedule, last);
      TotalOfDays(schedule - {last}, first, n - 1);
      ConcatFrame(schedule - {last}, schedule, first, 0, n - 1);
    } else if schedule.Keys != {} {
      var day := Pick(schedule.Keys);
    }
  }

  lemma {:induction false} ConcatAtMostTotal(schedule: Schedule, first: int, n: nat)
    ensures |Concat(schedule, first, n)| <= Total(schedule)
    decreases n
  {
    if n > 0 {
      var last := first + n - 1;
      if last in schedule {
        TotalSplits(schedule, last);
        ConcatAtMostTotal(schedule - {last}, first, n - 1);
        ConcatFrame(schedule - {last}, schedule, first, 0, n - 1);
      } else {
        ConcatAtMostTotal(schedule, first, n - 1);
      }
    }
  }

  lemma TotalAdds(schedule: Schedule, day: int, pois: seq<Poi>)
    requires day !in schedule
    ensures Total(schedule[day := pois]) == Total(schedule) + |pois|
  {
    TotalSplits(schedule[day := pois], day);
    assert schedule[day := pois] - {day} == schedule;
  }

  lemma {:induction false} TotalOfShift(schedule: Schedule, offset: int)
    ensures Total(Shift(schedule, offset)) == Total(schedule)
    decreases |schedule|
  {
    if schedule.Keys != {} {
      var day := Pick(schedule.Keys);
      var rest := schedule - {day};
      TotalOfShift(rest, offset);
      TotalSplits(schedule, day);
      assert rest[day := schedule[day]] == schedule;
      ShiftAdds(rest, offset, day, schedule[day]);
      ShiftMoves(rest, offset, day);
      TotalAdds(Shift(rest, offset), day + offset, schedule[day]);
    }
  }

  /** What the first k stays hold, added up. */
  ghost function TotalOfFirst(stays: seq<Schedule>, k: nat): nat
    requires k <= |stays|
  {
    if k == 0 then 0 else TotalOfFirst(stays, k - 1) + Total(stays[k - 1])
  }

  /** Laying stays one after the other never adds a point of interest. */
  lemma {:induction false} LayingAddsNothing(stays: seq<Schedule>, lengths: seq<int>, k: nat)
    requires k <= |stays| == |lengths|
    ensures Total(LayFirst(stays, lengths, k)) <= TotalOfFirst(stays, k)
  {
    if k > 0 {
      LayingAddsNothing(stays, lengths, k - 1);
      var offset := StartOf(lengths, k - 1) - 1;
      TotalOfMerge(LayFirst(stays, lengths, k - 1), Shift(stays[k - 1], offset));
      TotalOfShift(stays[k - 1], offset);
    }
  }
}
