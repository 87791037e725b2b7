/**
  The multi-city pipeline of services/multi_city_optimizer_simple.py: order the cities, apportion the
  days, slice each city's points of interest into its days.
 */
module Itinerary {
  import opened Wrappers
  import opened Sequences
  import opened Cities
  import opened Apportionment
  import opened DayDistribution
  import opened DaySchedules
  import opened CitySequence

  /** The cities' own schedules: the slices of their points of interest. */
  function Stays(cities: seq<City>, days: seq<int>): (stays: seq<Schedule>)
    requires |cities| == |days|
    ensures |stays| == |cities| && forall i | 0 <= i < |cities| :: stays[i] == Sliced(cities[i].pois, days[i])
  {
    seq(|cities|, i requires 0 <= i < |cities| => Sliced(cities[i].pois, days[i]))
  }

  /** The days given to each city of a sequence. */
  function DaysOf(sequence: seq<City>, days: map<string, int>): (ds: seq<int>)
    requires forall i | 0 <= i < |sequence| :: sequence[i].name in days
    ensures |ds| == |sequence| && forall i | 0 <= i < |sequence| :: ds[i] == days[sequence[i].name]
  {
    seq(|sequence|, i requires 0 <= i < |sequence| => days[sequence[i].name])
  }

  /** Total length of the hops between consecutive cities. */
  function Length(sequence: seq<City>, dist: Distance): real {
    if |sequence| <= 1 then 0.0
    else Length(sequence[..|sequence| - 1], dist) + dist(sequence[|sequence| - 2], sequence[|sequence| - 1])
  }

  /** Two parts of a trip are as long as each of them and the hop between them. */
  lemma {:induction false} LengthJoins(a: seq<City>, b: seq<City>, dist: Distance)
    requires a != [] && b != []
    ensures Length(a + b, dist) == Length(a, dist) + dist(a[|a| - 1], b[0]) + Length(b, dist)
    ensures |b| == 1 ==> Length(b, dist) == 0.0
    decreases |b|
  {
    var whole := a + b;
    if |b| == 1 {
      assert whole[..|whole| - 1] == a;
    } else {
      LengthJoins(a, b[..|b| - 1], dist);
      assert whole[..|whole| - 1] == a + b[..|b| - 1];
    }
  }

  method LayOutDays(sequence: seq<City>, days: map<string, int>) returns (schedule: Schedule)
    requires forall i | 0 <= i < |sequence| :: sequence[i].name in days
    ensures schedule == Lay(Stays(sequence, DaysOf(sequence, days)), DaysOf(sequence, days))
  {
    ghost var ds := DaysOf(sequence, days);
    ghost var stays := Stays(sequence, ds);
    schedule := map[];
    var currentDay := 1;
    for i := 0 to |sequence|
      invariant currentDay == StartOf(ds, i)
      invariant schedule == LayFirst(stays, ds, i)
    {
      var cityDays := days[sequence[i].name];
      var citySchedule := SimpleDailyDistribution(sequence[i].pois, cityDays);
      schedule := PutDays(schedule, currentDay, cityDays, citySchedule, sequence[i].pois);
      assert stays[i] == Sliced(sequence[i].pois, cityDays);
      LayNext(stays, ds, i);
      currentDay := currentDay + cityDays;
    }
  }

  /** A city's first n days, put at their places. */
  ghost predicate Put(before: Schedule, pois: seq<Poi>, days: int, n: int, offset: int, schedule: Schedule)
    requires n <= days
  {
    schedule == before + Shift(FirstSlices(pois, days, n), offset)
  }

  lemma OneDayMore(before: Schedule, pois: seq<Poi>, days: int, n: int, offset: int, schedule: Schedule, at: int)
    requires 0 <= n < days && Put(before, pois, days, n, offset, schedule) && at == n + 1 + offset
    ensures Put(before, pois, days, n + 1, offset, schedule[at := DayPois(pois, days, n + 1)])
  {
    ShiftAdds(FirstSlices(pois, days, n), offset, n + 1, DayPois(pois, days, n + 1));
    MergeAdds(before, Shift(FirstSlices(pois, days, n), offset), n + 1 + offset, DayPois(pois, days, n + 1));
  }

  lemma MergeAdds(before: Schedule, stay: Schedule, day: int, pois: seq<Poi>)
    ensures (before + stay)[day := pois] == before + stay[day := pois]
  {
  }

  lemma NextDayPut(before: Schedule, pois: seq<Poi>, days: int, n: int, offset: int, schedule: Schedule, citySchedule: Schedule)
    requires citySchedule == (if pois == [] then map[] else Sliced(pois, days)) && 0 <= n < days
    requires Put(before, pois, days, n, offset, schedule)
    ensures Put(before, pois, days, n + 1, offset, schedule[offset + n + 1 := DayOf(citySchedule, n + 1)])
  {
    DayOfSlices(citySchedule, pois, days, n + 1);
    OneDayMore(before, pois, days, n, offset, schedule, offset + n + 1);
  }

  /** Copies a city's days to their places in the trip. */
  method PutDays(before: Schedule, currentDay: int, cityDays: int, citySchedule: Schedule, ghost pois: seq<Poi>)
      returns (schedule: Schedule)
    requires citySchedule == if pois == [] then map[] else Sliced(pois, cityDays)
    ensures schedule == before + Shift(Sliced(pois, cityDays), currentDay - 1)
  {
    if cityDays > 0 {
      schedule := PutFirst(before, currentDay, cityDays, citySchedule, pois);
    } else {
      schedule := before;
      NothingPut(before, pois, cityDays, cityDays, currentDay - 1);
    }
    AllPut(before, pois, cityDays, currentDay - 1, schedule);
  }

  method PutFirst(before: Schedule, currentDay: int, cityDays: int, citySchedule: Schedule, ghost pois: seq<Poi>)
      returns (schedule: Schedule)
    requires citySchedule == (if pois == [] then map[] else Sliced(pois, cityDays)) && cityDays > 0
    ensures Put(before, pois, cityDays, cityDays, currentDay - 1, schedule)
  {
    schedule := before;
    NothingPut(before, pois, cityDays, 0, currentDay - 1);
    for offset := 0 to cityDays
      invariant Put(before, pois, cityDays, offset, currentDay - 1, schedule)
    {
      NextDayPut(before, pois, cityDays, offset, currentDay - 1, schedule, citySchedule);
      schedule := schedule[currentDay + offset := DayOf(citySchedule, offset + 1)];
    }
  }

  lemma AllPut(before: Schedule, pois: seq<Poi>, days: int, offset: int, schedule: Schedule)
    requires Put(before, pois, days, days, offset, schedule)
    ensures schedule == before + Shift(Sliced(pois, days), offset)
  {
  }

  lemma NothingPut(before: Schedule, pois: seq<Poi>, days: int, n: int, offset: int)
    requires n <= 0 && n <= days
    ensures Put(before, pois, days, n, offset, before)
  {
    assert FirstSlices(pois, days, n) == map[];
  }

  lemma DayOfSlices(citySchedule: Schedule, pois: seq<Poi>, days: int, day: int)
    requires citySchedule == (if pois == [] then map[] else Sliced(pois, days)) && 1 <= day <= days
    ensures DayOf(citySchedule, day) == DayPois(pois, days, day)
  {
    if pois != [] {
      SliceOfDay(pois, days, day);
    }
  }

  method TourLength(sequence: seq<City>, dist: Distance) returns (distance: real)
    ensures distance == Length(sequence, dist)
  {
    distance := 0.0;
    if sequence == [] {
      return;
    }
    for i := 1 to |sequence|
      invariant distance == Length(sequence[..i], dist)
    {
      distance := distance + dist(sequence[i - 1], sequence[i]);
      assert sequence[..i + 1][..i] == sequence[..i];
    }
    assert sequence[..|sequence|] == sequence;
  }

  method OptimizeIntercityHybridSimple(cities: seq<City>, days: int, start: Option<string>, dist: Distance)
      returns (sequence: seq<City>, daysPerCity: map<string, int>, schedule: Schedule, distance: real)
    ensures Sequenced(cities, start, dist, sequence)
    ensures Distributed(sequence, days, false, daysPerCity)
    ensures forall i | 0 <= i < |sequence| :: sequence[i].name in daysPerCity
    ensures schedule == Lay(Stays(sequence, DaysOf(sequence, daysPerCity)), DaysOf(sequence, daysPerCity))
    ensures distance == Length(sequence, dist)
  {
    sequence := FindOptimalCitySequence(cities, start, dist);
    daysPerCity := DistributeDaysAmongCities(sequence, days, false);
    assert forall i | 0 <= i < |sequence| :: sequence[i].name in Keys(sequence);
    schedule := LayOutDays(sequence, daysPerCity);
    distance := TourLength(sequence, dist);
  }

  // ---------- What the pipeline guarantees ----------

  lemma {:induction false} StaysHoldPois(cities: seq<City>, ds: seq<int>, k: nat)
    requires k <= |cities| == |ds| && forall i | 0 <= i < |ds| :: ds[i] >= 1
    ensures ContentsFirst(Stays(cities, ds), ds, k) == Flatten(PoisOf(cities)[..k])
  {
    if k > 0 {
      StaysHoldPois(cities, ds, k - 1);
      SlicesCover(cities[k - 1].pois, ds[k - 1]);
      assert PoisOf(cities)[..k][..k - 1] == PoisOf(cities)[..k - 1];
    }
  }

  /** Days 1, ..., total hold every city's points of interest, city after city, in order and once each. */
  ghost predicate Complete(cities: seq<City>, total: int, schedule: Schedule) {
    Full(schedule, total) && Concat(schedule, 1, total) == Flatten(PoisOf(cities))
  }

  lemma SlicedStays(cities: seq<City>, ds: seq<int>)
    requires |cities| == |ds| && forall i | 0 <= i < |ds| :: ds[i] >= 1
    ensures Fitting(Stays(cities, ds), ds) && forall i | 0 <= i < |ds| :: ds[i] >= 0 && Full(Stays(cities, ds)[i], ds[i])
  {
    forall i | 0 <= i < |ds| ensures Full(Stays(cities, ds)[i], ds[i]) && Within(Stays(cities, ds)[i], ds[i]) {
      SlicesAreFull(cities[i].pois, ds[i]);
    }
  }

  /** When every city has a day the schedule is complete. */
  lemma DaysForAllIsComplete(cities: seq<City>, ds: seq<int>)
    requires |cities| == |ds| && forall i | 0 <= i < |ds| :: ds[i] >= 1
    ensures Complete(cities, Sum(ds), Lay(Stays(cities, ds), ds))
  {
    var stays := Stays(cities, ds);
    SlicedStays(cities, ds);
    FirstStaysFull(stays, ds, |ds|);
    StartAfterAll(ds, |ds|);
    assert ds[..|ds|] == ds && PoisOf(cities)[..|ds|] == PoisOf(cities);
    LaidInOrder(stays, ds);
    StaysHoldPois(cities, ds, |ds|);
  }

  /** City i owns the days from its start on; its n-th day holds its n-th slice. */
  lemma CityOwnsItsDays(cities: seq<City>, ds: seq<int>, i: nat, day: int)
    requires |cities| == |ds| && forall i | 0 <= i < |ds| :: ds[i] >= 1
    requires i < |cities| && 1 <= day <= ds[i]
    ensures DayOf(Lay(Stays(cities, ds), ds), StartOf(ds, i) - 1 + day) == DayPois(cities[i].pois, ds[i], day)
  {
    SlicedStays(cities, ds);
    StayOwnsItsDays(Stays(cities, ds), ds, i, day);
    SliceOfDay(cities[i].pois, ds[i], day);
  }

  // ---------- When days are missing ----------

  /** The points of interest of the first k cities that have at least one day. */
  function Placed(cities: seq<City>, ds: seq<int>, k: nat): nat
    requires k <= |cities| == |ds|
  {
    if k == 0 then 0 else Placed(cities, ds, k - 1) + (if ds[k - 1] >= 1 then |cities[k - 1].pois| else 0)
  }

  lemma TotalOfSlices(pois: seq<Poi>, days: int)
    ensures Total(Sliced(pois, days)) == if days >= 1 then |pois| else 0
  {
    if days >= 1 {
      SlicesAreFull(pois, days);
      TotalOfDays(Sliced(pois, days), 1, days);
      SlicesCover(pois, days);
    } else {
      assert Sliced(pois, days) == map[];
    }
  }

  lemma {:induction false} TotalIsPlaced(cities: seq<City>, ds: seq<int>, k: nat)
    requires k <= |cities| == |ds|
    ensures TotalOfFirst(Stays(cities, ds), k) == Placed(cities, ds, k)
  {
    if k > 0 {
      TotalIsPlaced(cities, ds, k - 1);
      TotalOfSlices(cities[k - 1].pois, ds[k - 1]);
    }
  }

  lemma {:induction false} PlacedAtMost(cities: seq<City>, ds: seq<int>, k: nat)
    requires k <= |cities| == |ds|
    ensures Placed(cities, ds, k) <= |Flatten(PoisOf(cities)[..k])|
    ensures (exists i | 0 <= i < k :: ds[i] < 1 && cities[i].pois != []) ==> Placed(cities, ds, k) < |Flatten(PoisOf(cities)[..k])|
  {
    if k > 0 {
      PlacedAtMost(cities, ds, k - 1);
      assert PoisOf(cities)[..k][..k - 1] == PoisOf(cities)[..k - 1];
    }
  }

  /**
    When every city has points of interest, the schedule is complete if and only if every city has at
    least one day.
   */
  lemma CompleteIffDaysForAll(cities: seq<City>, ds: seq<int>)
    requires |cities| == |ds| && forall i | 0 <= i < |cities| :: cities[i].pois != []
    ensures Complete(cities, Sum(ds), Lay(Stays(cities, ds), ds)) <==> forall i | 0 <= i < |ds| :: ds[i] >= 1
  {
    var schedule := Lay(Stays(cities, ds), ds);
    if forall i | 0 <= i < |ds| :: ds[i] >= 1 {
      DaysForAllIsComplete(cities, ds);
    } else if Complete(cities, Sum(ds), schedule) {
      LayingAddsNothing(Stays(cities, ds), ds, |ds|);
      TotalIsPlaced(cities, ds, |ds|);
      PlacedAtMost(cities, ds, |ds|);
      assert PoisOf(cities)[..|ds|] == PoisOf(cities);
      if Sum(ds) >= 0 {
        ConcatAtMostTotal(schedule, 1, Sum(ds));
      }
    }
  }

  lemma ApportionedDays(sequence: seq<City>, total: int, bonus: bool, days: map<string, int>)
    requires sequence != [] && Distinct(NamesOf(sequence)) && Distributed(sequence, total, bonus, days)
    requires forall i | 0 <= i < |sequence| :: sequence[i].name in days
    ensures DaysOf(sequence, days) == Apportion(Weights(sequence, bonus), total)
  {
    DistinctKeys(sequence);
    forall i | 0 <= i < |sequence| ensures DaysOf(sequence, days)[i] == Apportion(Weights(sequence, bonus), total)[i] {
      assert Keys(sequence)[i] == sequence[i].name;
    }
  }

  /** The days given add up to the total, and every city has one when the others leave one for the heaviest. */
  lemma DaysGiven(sequence: seq<City>, total: int, days: map<string, int>)
    requires sequence != [] && Distinct(NamesOf(sequence)) && Distributed(sequence, total, false, days)
    requires forall i | 0 <= i < |sequence| :: sequence[i].name in days
    ensures Sum(DaysOf(sequence, days)) == total
    ensures (forall i | 0 <= i < |sequence| :: DaysOf(sequence, days)[i] >= 1) <==> OthersTotal(Weights(sequence, false), total) < total
    ensures 2 * total > |sequence| * (|sequence| - 1) ==> OthersTotal(Weights(sequence, false), total) < total
  {
    var ws := Weights(sequence, false);
    DistinctKeys(sequence);
    ApportionedDays(sequence, total, false, days);
    ApportionSums(ws, total);
    AllGetADay(ws, total);
    if 2 * total > |sequence| * (|sequence| - 1) {
      EnoughDays(ws, total);
    }
  }

  lemma TripVisitsAll(cities: seq<City>, start: Option<string>, dist: Distance, sequence: seq<City>)
    requires Distinct(NamesOf(cities)) && Sequenced(cities, start, dist, sequence)
    ensures multiset(sequence) == multiset(cities) && |sequence| == |cities| && Distinct(NamesOf(sequence))
    ensures (forall i | 0 <= i < |cities| :: cities[i].pois != []) ==> forall i | 0 <= i < |sequence| :: sequence[i].pois != []
  {
    SequenceVisitsAll(cities, start, dist, sequence);
    forall i | 0 <= i < |sequence| ensures exists j :: 0 <= j < |cities| && cities[j] == sequence[i] {
      assert sequence[i] in multiset(cities);
    }
  }

  /** A trip with enough days is complete, and no other trip between cities with points of interest is. */
  lemma EnoughDecides(sequence: seq<City>, total: int, ds: seq<int>, enough: bool)
    requires |ds| == |sequence| && Sum(ds) == total
    requires enough <==> forall i | 0 <= i < |sequence| :: ds[i] >= 1
    ensures enough ==> Complete(sequence, total, Lay(Stays(sequence, ds), ds))
    ensures (forall i | 0 <= i < |sequence| :: sequence[i].pois != []) ==>
      (Complete(sequence, total, Lay(Stays(sequence, ds), ds)) <==> enough)
  {
    if enough {
      DaysForAllIsComplete(sequence, ds);
    }
    if forall i | 0 <= i < |sequence| :: sequence[i].pois != [] {
      CompleteIffDaysForAll(sequence, ds);
    }
  }

  /**
    What a trip of n cities with apportioned days promises.  Its schedule is complete over exactly the
    asked number of days when the other cities' shares leave a day for the heaviest one, which more
    than n(n-1)/2 days ensure; and only then, if every city has points of interest.
   */
  ghost predicate TripPromise(sequence: seq<City>, total: int, days: map<string, int>)
    requires sequence != [] && forall i | 0 <= i < |sequence| :: sequence[i].name in days
  {
    var ds := DaysOf(sequence, days);
    var schedule := Lay(Stays(sequence, ds), ds);
    var enough := OthersTotal(Weights(sequence, false), total) < total;
    && (2 * total > |sequence| * (|sequence| - 1) ==> enough)
    && (enough ==> Complete(sequence, total, schedule))
    && ((forall i | 0 <= i < |sequence| :: sequence[i].pois != []) ==> (Complete(sequence, total, schedule) <==> enough))
  }

  lemma PromiseKept(sequence: seq<City>, total: int, days: map<string, int>)
    requires sequence != [] && forall i | 0 <= i < |sequence| :: sequence[i].name in days
    requires Sum(DaysOf(sequence, days)) == total
    requires (forall i | 0 <= i < |sequence| :: DaysOf(sequence, days)[i] >= 1) <==> OthersTotal(Weights(sequence, false), total) < total
    requires 2 * total > |sequence| * (|sequence| - 1) ==> OthersTotal(Weights(sequence, false), total) < total
    ensures TripPromise(sequence, total, days)
  {
    EnoughDecides(sequence, total, DaysOf(sequence, days), OthersTotal(Weights(sequence, false), total) < total);
  }

  lemma DaysDecide(sequence: seq<City>, total: int, days: map<string, int>)
    requires sequence != [] && Distinct(NamesOf(sequence)) && Distributed(sequence, total, false, days)
    requires forall i | 0 <= i < |sequence| :: sequence[i].name in days
    ensures TripPromise(sequence, total, days)
  {
    DaysGiven(sequence, total, days);
    PromiseKept(sequence, total, days);
  }

  /** The pipeline end to end, for cities with distinct names: it visits each once and keeps the promise. */
  lemma TripIsComplete(cities: seq<City>, total: int, start: Option<string>, dist: Distance,
                       sequence: seq<City>, days: map<string, int>)
    requires cities != [] && Distinct(NamesOf(cities))
    requires Sequenced(cities, start, dist, sequence) && Distributed(sequence, total, false, days)
    requires forall i | 0 <= i < |sequence| :: sequence[i].name in days
    ensures multiset(sequence) == multiset(cities) && |sequence| == |cities|
    ensures TripPromise(sequence, total, days)
  {
    TripVisitsAll(cities, start, dist, sequence);
    DaysDecide(sequence, total, days);
  }
}
