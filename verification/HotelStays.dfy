/**
  Hotel stays of a multi-city trip: services/hotel_recommender.py, `MultiCityAccommodationPlan`,
  `plan_multi_city_accommodations` and `optimize_accommodation_sequence`.
 */
module HotelStays {
  import opened Wrappers
  import opened Sequences
  import opened Sorting
  import DaySchedules

  datatype Stay = Stay(city: string, nights: int, checkIn: int, checkOut: int)

  function DaysAt(cities: seq<string>, days: map<string, int>): (ds: seq<int>)
    ensures |ds| == |cities|
    ensures forall k | 0 <= k < |cities| :: ds[k] == if cities[k] in days then days[cities[k]] else 1
  {
    seq(|cities|, k requires 0 <= k < |cities| => if cities[k] in days then days[cities[k]] else 1)
  }

  function CitiesOf(stays: seq<Stay>): (cities: seq<string>)
    ensures |cities| == |stays| && forall i | 0 <= i < |stays| :: cities[i] == stays[i].city
  {
    seq(|stays|, i requires 0 <= i < |stays| => stays[i].city)
  }

  function NightsOf(stays: seq<Stay>): (nights: seq<int>)
    ensures |nights| == |stays| && forall i | 0 <= i < |stays| :: nights[i] == stays[i].nights
  {
    seq(|stays|, i requires 0 <= i < |stays| => stays[i].nights)
  }

  // ---------- Planning ----------

  /** The planner's day when it reaches city k: cities of one day are skipped before the day advances. */
  function Clock(ds: seq<int>, k: nat): int
    requires k <= |ds|
  {
    if k == 0 then 1 else Clock(ds, k - 1) + if ds[k - 1] <= 1 then 0 else ds[k - 1]
  }

  /** A city is booked if it is stayed in overnight and a hotel is known there. */
  predicate Booked(cities: seq<string>, ds: seq<int>, hotels: string -> bool, k: nat)
    requires k < |cities| == |ds|
  {
    ds[k] > 1 && hotels(cities[k])
  }

  /** The stays planned for the first k cities. */
  function Planned(cities: seq<string>, ds: seq<int>, hotels: string -> bool, k: nat): (stays: seq<Stay>)
    requires k <= |cities| == |ds|
    ensures |stays| <= k
  {
    if k == 0 then []
    else
      Planned(cities, ds, hotels, k - 1) + if Booked(cities, ds, hotels, k - 1) then
        [Stay(cities[k - 1], ds[k - 1] - 1, Clock(ds, k - 1), Clock(ds, k - 1) + ds[k - 1] - 1)] else []
  }

  class AccommodationPlan {
    var accommodations: seq<Stay>
    var totalNights: int
    var totalCities: nat

    constructor (accommodations: seq<Stay>, totalNights: int, totalCities: nat)
      ensures this.accommodations == accommodations
      ensures this.totalNights == totalNights && this.totalCities == totalCities
    {
      this.accommodations, this.totalNights, this.totalCities := accommodations, totalNights, totalCities;
    }

    /** A further stay keeps the plan disjoint exactly if it begins at least a day after every one so far has ended. */
    method AddCityAccommodation(city: string, nights: int, checkIn: int)
      modifies this`accommodations
      ensures accommodations == old(accommodations) + [Stay(city, nights, checkIn, checkIn + nights)]
      ensures Disjoint() <==> old(Disjoint()) && forall i | 0 <= i < |old(accommodations)| :: checkIn >= old(accommodations)[i].checkOut + 1
      ensures Hosted(accommodations) <==> Hosted(old(accommodations)) && nights >= 1
    {
      OneMoreStay(accommodations, Stay(city, nights, checkIn, checkIn + nights));
      accommodations := accommodations + [Stay(city, nights, checkIn, checkIn + nights)];
    }

    /** Every stay ends at least a day before a later one begins. */
    ghost predicate Disjoint()
      reads this
    {
      Apart(accommodations)
    }

    method AccommodationSequence() returns (sequence: seq<string>)
      ensures exists sorted: seq<Stay> :: SortedByCheckIn(accommodations, sorted) && sequence == CitiesOf(sorted)
      ensures Disjoint() && Hosted(accommodations) ==> sequence == CitiesOf(accommodations)
    {
      var sorted := SortBy(accommodations, CHECK_IN);
      sequence := CitiesOf(sorted);
      if Apart(accommodations) && Hosted(accommodations) {
        OnlyOneOrder(accommodations, sorted);
      }
    }
  }

  const CHECK_IN: Stay -> int := (stay: Stay) => stay.checkIn

  /** The same stays in the order of their check-in days; those of the same day keep their order. */
  ghost predicate SortedByCheckIn(stays: seq<Stay>, sorted: seq<Stay>) {
    InCheckInOrder(sorted) && multiset(sorted) == multiset(stays) && SameOrder(sorted, stays, CHECK_IN)
  }

  lemma OneMoreStay(stays: seq<Stay>, stay: Stay)
    ensures Apart(stays + [stay]) <==> Apart(stays) && forall i | 0 <= i < |stays| :: stay.checkIn >= stays[i].checkOut + 1
    ensures Hosted(stays + [stay]) <==> Hosted(stays) && stay.nights >= 1 && stay.checkOut == stay.checkIn + stay.nights
  {
    var more := stays + [stay];
    assert forall i | 0 <= i < |stays| :: more[i] == stays[i];
    assert more[|stays|] == stay;
  }

  predicate Apart(stays: seq<Stay>) {
    forall i, j | 0 <= i < j < |stays| :: stays[j].checkIn >= stays[i].checkOut + 1
  }

  /** Every stay is overnight and as long as its nights. */
  predicate Hosted(stays: seq<Stay>) {
    forall i | 0 <= i < |stays| :: stays[i].nights >= 1 && stays[i].checkOut == stays[i].checkIn + stays[i].nights
  }

  predicate InCheckInOrder(stays: seq<Stay>) {
    forall i, j | 0 <= i < j < |stays| :: stays[i].checkIn <= stays[j].checkIn
  }

  /** Disjoint stays have one check-in order only: their own. */
  lemma {:induction false} OnlyOneOrder(stays: seq<Stay>, sorted: seq<Stay>)
    requires Apart(stays) && Hosted(stays) && InCheckInOrder(sorted) && multiset(sorted) == multiset(stays)
    ensures sorted == stays
    decreases |stays|
  {
    assert |stays| == |multiset(stays)| == |multiset(sorted)| == |sorted|;
    if stays != [] {
      var last := |stays| - 1;
      assert stays[last] in multiset(sorted) && sorted[last] in multiset(stays);
      var i := IndexOf(sorted, stays[last]);
      var j := IndexOf(stays, sorted[last]);
      assert sorted[last] == stays[last];
      SameWithoutLast(sorted, stays, last);
      OnlyOneOrder(stays[..last], sorted[..last]);
    }
  }

  method PlanMultiCityAccommodations(cities: seq<string>, days: map<string, int>, hotels: string -> bool)
      returns (plan: AccommodationPlan)
    ensures fresh(plan)
    ensures plan.accommodations == Planned(cities, DaysAt(cities, days), hotels, |cities|)
    ensures plan.totalNights == Sum(NightsOf(plan.accommodations)) && plan.totalCities == |plan.accommodations|
    ensures plan.Disjoint() && Hosted(plan.accommodations)
  {
    plan := new AccommodationPlan([], 0, 0);
    ghost var ds := DaysAt(cities, days);
    var currentDay := 1;
    for k := 0 to |cities|
      invariant fresh(plan) && currentDay == Clock(ds, k)
      invariant plan.accommodations == Planned(cities, ds, hotels, k)
    {
      var cityDays := if cities[k] in days then days[cities[k]] else 1;
      if cityDays <= 1 {
        continue;
      }
      if hotels(cities[k]) {
        plan.AddCityAccommodation(cities[k], cityDays - 1, currentDay);
      }
      currentDay := currentDay + cityDays;
    }
    plan.totalNights := TotalNights(plan.accommodations);
    plan.totalCities := |plan.accommodations|;
    PlannedStaysApart(cities, ds, hotels, |cities|);
  }

  method TotalNights(stays: seq<Stay>) returns (total: int)
    ensures total == Sum(NightsOf(stays))
  {
    total := 0;
    for i := 0 to |stays|
      invariant total == Sum(NightsOf(stays)[..i])
    {
      assert NightsOf(stays)[..i + 1][..i] == NightsOf(stays)[..i];
      total := total + stays[i].nights;
    }
    assert NightsOf(stays)[..|stays|] == NightsOf(stays);
  }

  /** Planned stays never overlap: a stay begins at least one day after the one before has ended. */
  lemma {:induction false} PlannedStaysApart(cities: seq<string>, ds: seq<int>, hotels: string -> bool, k: nat)
    requires k <= |cities| == |ds|
    ensures Apart(Planned(cities, ds, hotels, k)) && Hosted(Planned(cities, ds, hotels, k))
    ensures forall i | 0 <= i < |Planned(cities, ds, hotels, k)| ::
      1 <= Planned(cities, ds, hotels, k)[i].checkIn && Planned(cities, ds, hotels, k)[i].checkOut + 1 <= Clock(ds, k)
    ensures Clock(ds, k) >= 1
  {
    if k > 0 {
      PlannedStaysApart(cities, ds, hotels, k - 1);
    }
  }

  /** The nights spent in a city: one less than its days, if it is booked. */
  function CityNights(cities: seq<string>, ds: seq<int>, hotels: string -> bool, k: nat): int
    requires k <= |cities| == |ds|
  {
    if k == 0 then 0
    else CityNights(cities, ds, hotels, k - 1) + if Booked(cities, ds, hotels, k - 1) then ds[k - 1] - 1 else 0
  }

  ghost predicate HasStay(stays: seq<Stay>, city: string, nights: int) {
    exists i | 0 <= i < |stays| :: stays[i].city == city && stays[i].nights == nights
  }

  /** One of the first k cities has the name, and as many nights between its first and its last day. */
  ghost predicate HasNights(cities: seq<string>, ds: seq<int>, k: nat, city: string, nights: int)
    requires k <= |cities| == |ds|
  {
    exists i | 0 <= i < k :: cities[i] == city && ds[i] == nights + 1
  }

  /** The plan has a stay exactly in the cities with a hotel and at least one night, for as many nights. */
  lemma {:induction false} PlannedIff(cities: seq<string>, ds: seq<int>, hotels: string -> bool, k: nat, city: string, nights: int)
    requires k <= |cities| == |ds|
    ensures HasStay(Planned(cities, ds, hotels, k), city, nights) <==> HasNights(cities, ds, k, city, nights) && nights >= 1 && hotels(city)
  {
    if k > 0 {
      PlannedIff(cities, ds, hotels, k - 1, city, nights);
      OneMorePlanned(cities, ds, hotels, k - 1, city, nights);
      assert HasNights(cities, ds, k, city, nights) <==>
        HasNights(cities, ds, k - 1, city, nights) || (cities[k - 1] == city && ds[k - 1] == nights + 1);
    }
  }

  lemma OneMorePlanned(cities: seq<string>, ds: seq<int>, hotels: string -> bool, k: nat, city: string, nights: int)
    requires k < |cities| == |ds|
    ensures HasStay(Planned(cities, ds, hotels, k + 1), city, nights) <==>
      HasStay(Planned(cities, ds, hotels, k), city, nights)
      || (cities[k] == city && ds[k] == nights + 1 && nights >= 1 && hotels(city))
  {
    var before, after := Planned(cities, ds, hotels, k), Planned(cities, ds, hotels, k + 1);
    assert forall i | 0 <= i < |before| :: after[i] == before[i];
    if ds[k] > 1 && hotels(cities[k]) {
      assert after[|before|].city == cities[k] && after[|before|].nights == ds[k] - 1;
    }
  }

  /** The nights of a plan are the days of its booked cities less one each. */
  lemma {:induction false} NightsOfPlan(cities: seq<string>, ds: seq<int>, hotels: string -> bool, k: nat)
    requires k <= |cities| == |ds|
    ensures Sum(NightsOf(Planned(cities, ds, hotels, k))) == CityNights(cities, ds, hotels, k)
  {
    if k > 0 {
      NightsOfPlan(cities, ds, hotels, k - 1);
      var before, stays := Planned(cities, ds, hotels, k - 1), Planned(cities, ds, hotels, k);
      assert NightsOf(stays)[..|before|] == NightsOf(before);
      assert |stays| == |before| ==> NightsOf(stays) == NightsOf(before);
    }
  }

  // ---------- Check-in days and the itinerary ----------

  /** The days of the cities the planner skips before it reaches city k. */
  function Skipped(ds: seq<int>, k: nat): int
    requires k <= |ds|
  {
    if k == 0 then 0 else Skipped(ds, k - 1) + if ds[k - 1] <= 1 then ds[k - 1] else 0
  }

  lemma {:induction false} ClockLags(ds: seq<int>, k: nat)
    requires k <= |ds|
    ensures Clock(ds, k) == DaySchedules.StartOf(ds, k) - Skipped(ds, k)
  {
    if k > 0 {
      ClockLags(ds, k - 1);
    }
  }

  lemma {:induction false} SkippedNothing(ds: seq<int>, k: nat)
    requires k <= |ds| && forall j | 0 <= j < |ds| :: ds[j] >= 1
    ensures Skipped(ds, k) >= 0
    ensures Skipped(ds, k) == 0 <==> forall j | 0 <= j < k :: ds[j] > 1
  {
    if k > 0 {
      SkippedNothing(ds, k - 1);
    }
  }

  /** Where the stay of a booked city is found in the plan. */
  lemma {:induction false} StayOfCity(cities: seq<string>, ds: seq<int>, hotels: string -> bool, k: nat, n: nat)
    requires k < n <= |cities| == |ds| && Booked(cities, ds, hotels, k)
    ensures |Planned(cities, ds, hotels, k)| < |Planned(cities, ds, hotels, n)|
    ensures Planned(cities, ds, hotels, n)[|Planned(cities, ds, hotels, k)|]
      == Stay(cities[k], ds[k] - 1, Clock(ds, k), Clock(ds, k) + ds[k] - 1)
  {
    if n > k + 1 {
      StayOfCity(cities, ds, hotels, k, n - 1);
    }
  }

  /**
    A booked city is checked into on the first day the itinerary gives it, if and only if no city of a
    single day comes before it: the planner's day does not advance over such a city.
   */
  lemma CheckInDays(cities: seq<string>, ds: seq<int>, hotels: string -> bool, k: nat)
    requires k < |cities| == |ds| && Booked(cities, ds, hotels, k) && forall j | 0 <= j < |ds| :: ds[j] >= 1
    ensures var stays, at := Planned(cities, ds, hotels, |cities|), |Planned(cities, ds, hotels, k)|;
      && at < |stays| && stays[at].city == cities[k]
      && stays[at].checkIn == DaySchedules.StartOf(ds, k) - Skipped(ds, k)
      && (stays[at].checkIn == DaySchedules.StartOf(ds, k) <==> forall j | 0 <= j < k :: ds[j] > 1)
  {
    StayOfCity(cities, ds, hotels, k, |cities|);
    ClockLags(ds, k);
    SkippedNothing(ds, k);
  }

  // ---------- Re-sequencing ----------

  /** The nights a plan keeps for each city; a later stay in the same city replaces an earlier one. */
  function NightsByCity(stays: seq<Stay>): (nights: map<string, int>)
    ensures nights.Keys == set city | city in CitiesOf(stays)
  {
    if stays == [] then map[]
    else
      var init, last := stays[..|stays| - 1], stays[|stays| - 1];
      assert CitiesOf(stays) == CitiesOf(init) + [last.city];
      NightsByCity(init)[last.city := last.nights]
  }

  /** The day reached after the first k names of a travel sequence. */
  function DayAfter(sequence: seq<string>, nights: map<string, int>, k: nat): int
    requires k <= |sequence|
  {
    if k == 0 then 1
    else DayAfter(sequence, nights, k - 1) + if sequence[k - 1] in nights then nights[sequence[k - 1]] + 1 else 0
  }

  /** The stays of the first k names of a travel sequence. */
  function Resequenced(sequence: seq<string>, nights: map<string, int>, k: nat): seq<Stay>
    requires k <= |sequence|
  {
    if k == 0 then []
    else
      var city, day := sequence[k - 1], DayAfter(sequence, nights, k - 1);
      Resequenced(sequence, nights, k - 1) +
        if city in nights then [Stay(city, nights[city], day, day + nights[city])] else []
  }

  method OptimizeAccommodationSequence(plan: AccommodationPlan, sequence: seq<string>) returns (better: AccommodationPlan)
    ensures fresh(better)
    ensures better.accommodations == Resequenced(sequence, NightsByCity(plan.accommodations), |sequence|)
    ensures better.totalNights == plan.totalNights && better.totalCities == plan.totalCities
  {
    var byCity: map<string, Stay> := map[];
    for i := 0 to |plan.accommodations|
      invariant byCity.Keys == NightsByCity(plan.accommodations[..i]).Keys
      invariant forall city | city in byCity ::
        byCity[city].city == city && byCity[city].nights == NightsByCity(plan.accommodations[..i])[city]
    {
      assert plan.accommodations[..i + 1][..i] == plan.accommodations[..i];
      byCity := byCity[plan.accommodations[i].city := plan.accommodations[i]];
    }
    assert plan.accommodations[..|plan.accommodations|] == plan.accommodations;
    ghost var nights := NightsByCity(plan.accommodations);
    var stays, currentDay := [], 1;
    for k := 0 to |sequence|
      invariant currentDay == DayAfter(sequence, nights, k) && stays == Resequenced(sequence, nights, k)
    {
      if sequence[k] in byCity {
        var stay := byCity[sequence[k]];
        stays := stays + [stay.(checkIn := currentDay, checkOut := currentDay + stay.nights)];
        currentDay := currentDay + stay.nights + 1;
      }
    }
    better := new AccommodationPlan(stays, plan.totalNights, plan.totalCities);
  }

  /** Along any travel sequence whatever, re-sequenced stays are disjoint, each a day after the one before. */
  lemma {:induction false} ResequencedStaysApart(sequence: seq<string>, nights: map<string, int>, k: nat)
    requires k <= |sequence| && forall city | city in nights :: nights[city] >= 1
    ensures var stays := Resequenced(sequence, nights, k);
      && Apart(stays) && Hosted(stays) && DayAfter(sequence, nights, k) >= 1
      && forall i | 0 <= i < |stays| :: stays[i].checkOut + 1 <= DayAfter(sequence, nights, k)
  {
    if k > 0 {
      ResequencedStaysApart(sequence, nights, k - 1);
    }
  }

  /** Two stays in one city last as many nights, as they do when the nights come from days kept by city. */
  predicate SameNights(stays: seq<Stay>) {
    forall i, j | 0 <= i < j < |stays| && stays[i].city == stays[j].city :: stays[i].nights == stays[j].nights
  }

  lemma {:induction false} NightsLookedUp(stays: seq<Stay>, i: nat)
    requires SameNights(stays) && i < |stays|
    ensures stays[i].city in NightsByCity(stays) && NightsByCity(stays)[stays[i].city] == stays[i].nights
  {
    assert stays[i].city == CitiesOf(stays)[i];
    if i < |stays| - 1 {
      NightsLookedUp(stays[..|stays| - 1], i);
    }
  }

  lemma {:induction false} PlannedNights(cities: seq<string>, days: map<string, int>, hotels: string -> bool, k: nat)
    requires k <= |cities|
    ensures forall i | 0 <= i < |Planned(cities, DaysAt(cities, days), hotels, k)| ::
      var stay := Planned(cities, DaysAt(cities, days), hotels, k)[i];
      stay.city in days && stay.nights == days[stay.city] - 1
  {
    if k > 0 {
      PlannedNights(cities, days, hotels, k - 1);
    }
  }

  /** The first day after the last stay. */
  function DayAfterLast(stays: seq<Stay>): int {
    if stays == [] then 1 else stays[|stays| - 1].checkOut + 1
  }

  /** The stays follow each other without a gap, from day 1 on. */
  predicate Packed(stays: seq<Stay>) {
    stays == [] || (Packed(stays[..|stays| - 1]) && stays[|stays| - 1].checkIn == DayAfterLast(stays[..|stays| - 1]))
  }

  lemma {:induction false} OwnOrder(stays: seq<Stay>, sequence: seq<string>, nights: map<string, int>, k: nat)
    requires Hosted(stays) && k <= |stays| == |sequence|
    requires forall i | 0 <= i < |stays| :: sequence[i] == stays[i].city && sequence[i] in nights && nights[sequence[i]] == stays[i].nights
    requires Packed(stays[..k])
    ensures Resequenced(sequence, nights, k) == stays[..k]
    ensures DayAfter(sequence, nights, k) == DayAfterLast(stays[..k])
  {
    if k > 0 {
      assert stays[..k][..k - 1] == stays[..k - 1];
      OwnOrder(stays, sequence, nights, k - 1);
      assert stays[..k] == stays[..k - 1] + [stays[k - 1]];
    }
  }

  lemma {:induction false} ResequencedIsPacked(sequence: seq<string>, nights: map<string, int>, k: nat)
    requires k <= |sequence|
    ensures var stays := Resequenced(sequence, nights, k);
      Packed(stays) && DayAfter(sequence, nights, k) == DayAfterLast(stays)
  {
    if k > 0 {
      ResequencedIsPacked(sequence, nights, k - 1);
      var before, stays := Resequenced(sequence, nights, k - 1), Resequenced(sequence, nights, k);
      assert stays == before || stays[..|before|] == before;
    }
  }

  /** Re-sequencing a plan by its own order changes nothing if and only if the plan has no gaps. */
  lemma OwnOrderChangesNothing(stays: seq<Stay>)
    requires Hosted(stays) && SameNights(stays)
    ensures Resequenced(CitiesOf(stays), NightsByCity(stays), |stays|) == stays <==> Packed(stays)
  {
    assert stays[..|stays|] == stays;
    if Packed(stays) {
      forall i | 0 <= i < |stays|
        ensures stays[i].city in NightsByCity(stays) && NightsByCity(stays)[stays[i].city] == stays[i].nights
      {
        NightsLookedUp(stays, i);
      }
      OwnOrder(stays, CitiesOf(stays), NightsByCity(stays), |stays|);
    }
    ResequencedIsPacked(CitiesOf(stays), NightsByCity(stays), |stays|);
  }

  /** No booked city comes after a city of several days without a hotel. */
  predicate HotelsFirst(cities: seq<string>, ds: seq<int>, hotels: string -> bool, n: nat)
    requires n <= |cities| == |ds|
  {
    forall j, k | 0 <= j < k < n && Booked(cities, ds, hotels, k) && ds[j] > 1 :: hotels(cities[j])
  }

  lemma {:induction false} PackedPlan(cities: seq<string>, ds: seq<int>, hotels: string -> bool, k: nat)
    requires k <= |cities| == |ds|
    ensures var stays := Planned(cities, ds, hotels, k);
      && (Packed(stays) <==> HotelsFirst(cities, ds, hotels, k))
      && Clock(ds, k) >= DayAfterLast(stays)
      && (Packed(stays) && Clock(ds, k) == DayAfterLast(stays) <==> forall j | 0 <= j < k && ds[j] > 1 :: hotels(cities[j]))
  {
    if k > 0 {
      PackedPlan(cities, ds, hotels, k - 1);
      var before, stays := Planned(cities, ds, hotels, k - 1), Planned(cities, ds, hotels, k);
      assert stays == before || stays[..|before|] == before;
    }
  }

  /**
    Re-sequencing a planned trip by its own order changes nothing if and only if no city of several days
    lacks a hotel before a booked one.
   */
  lemma OwnOrderOfPlan(cities: seq<string>, days: map<string, int>, hotels: string -> bool)
    ensures var ds := DaysAt(cities, days); var stays := Planned(cities, ds, hotels, |cities|);
      Resequenced(CitiesOf(stays), NightsByCity(stays), |stays|) == stays <==> HotelsFirst(cities, ds, hotels, |cities|)
  {
    var ds := DaysAt(cities, days);
    var stays := Planned(cities, ds, hotels, |cities|);
    PlannedStaysApart(cities, ds, hotels, |cities|);
    PlannedNights(cities, days, hotels, |cities|);
    OwnOrderChangesNothing(stays);
    PackedPlan(cities, ds, hotels, |cities|);
  }

  // ---------- Nights after re-sequencing ----------

  /** The nights of the names of a travel sequence that the plan has a stay for. */
  function NightsIn(sequence: seq<string>, nights: map<string, int>): int {
    if sequence == [] then 0
    else
      var city := sequence[|sequence| - 1];
      NightsIn(sequence[..|sequence| - 1], nights) + if city in nights then nights[city] else 0
  }

  lemma {:induction false} ResequencedNights(sequence: seq<string>, nights: map<string, int>, k: nat)
    requires k <= |sequence|
    ensures Sum(NightsOf(Resequenced(sequence, nights, k))) == NightsIn(sequence[..k], nights)
  {
    if k > 0 {
      ResequencedNights(sequence, nights, k - 1);
      assert sequence[..k][..k - 1] == sequence[..k - 1];
      var before, stays := Resequenced(sequence, nights, k - 1), Resequenced(sequence, nights, k);
      assert NightsOf(stays)[..|before|] == NightsOf(before);
      assert |stays| == |before| ==> NightsOf(stays) == NightsOf(before);
    }
  }

  lemma {:induction false} NightsOfKnown(sequence: seq<string>, nights: map<string, int>)
    requires forall i | 0 <= i < |sequence| :: sequence[i] in nights
    ensures NightsIn(sequence, nights) == Sum(Lookup(sequence, nights))
  {
    if sequence != [] {
      var init := sequence[..|sequence| - 1];
      NightsOfKnown(init, nights);
      assert Lookup(sequence, nights)[..|init|] == Lookup(init, nights);
    }
  }

  lemma NightsOfPermutation(cities: seq<string>, sequence: seq<string>, nights: map<string, int>)
    requires forall i | 0 <= i < |cities| :: cities[i] in nights
    requires multiset(sequence) == multiset(cities)
    ensures NightsIn(sequence, nights) == Sum(Lookup(cities, nights))
  {
    forall i | 0 <= i < |sequence| ensures sequence[i] in nights {
      assert sequence[i] in multiset(cities);
    }
    NightsOfKnown(sequence, nights);
    SumOfReordered(sequence, cities, nights);
  }

  lemma NightsAreLookedUp(stays: seq<Stay>)
    requires SameNights(stays)
    ensures forall i | 0 <= i < |stays| :: CitiesOf(stays)[i] in NightsByCity(stays)
    ensures Lookup(CitiesOf(stays), NightsByCity(stays)) == NightsOf(stays)
  {
    forall i | 0 <= i < |stays|
      ensures CitiesOf(stays)[i] in NightsByCity(stays) && NightsByCity(stays)[CitiesOf(stays)[i]] == NightsOf(stays)[i]
    {
      NightsLookedUp(stays, i);
    }
  }

  /** Re-sequencing a plan by any permutation of its cities keeps the nights it has, and keeps stays apart. */
  lemma PermutedPlan(stays: seq<Stay>, sequence: seq<string>)
    requires Hosted(stays) && SameNights(stays) && multiset(sequence) == multiset(CitiesOf(stays))
    ensures var moved := Resequenced(sequence, NightsByCity(stays), |sequence|);
      Apart(moved) && Hosted(moved) && Sum(NightsOf(moved)) == Sum(NightsOf(stays))
  {
    PositiveNights(stays);
    ResequencedStaysApart(sequence, NightsByCity(stays), |sequence|);
    ResequencedNights(sequence, NightsByCity(stays), |sequence|);
    assert sequence[..|sequence|] == sequence;
    NightsAreLookedUp(stays);
    NightsOfPermutation(CitiesOf(stays), sequence, NightsByCity(stays));
  }

  lemma PositiveNights(stays: seq<Stay>)
    requires Hosted(stays) && SameNights(stays)
    ensures forall city | city in NightsByCity(stays) :: NightsByCity(stays)[city] >= 1
  {
    forall city | city in NightsByCity(stays) ensures NightsByCity(stays)[city] >= 1 {
      var i :| 0 <= i < |stays| && CitiesOf(stays)[i] == city;
      NightsLookedUp(stays, i);
    }
  }

  lemma {:induction false} NightsWithoutCity(sequence: seq<string>, nights: map<string, int>, city: string)
    requires Distinct(sequence) && city in nights
    ensures NightsIn(sequence, nights) == NightsIn(sequence, nights - {city}) + if city in sequence then nights[city] else 0
  {
    if sequence != [] {
      NightsWithoutCity(sequence[..|sequence| - 1], nights, city);
    }
  }

  predicate Covers(sequence: seq<string>, cities: seq<string>) {
    forall i | 0 <= i < |cities| :: cities[i] in sequence
  }

  /** The dictionary has the nights of exactly the cities listed, at least one each. */
  predicate NightsFor(cities: seq<string>, nights: map<string, int>) {
    && Distinct(cities) && (forall i | 0 <= i < |cities| :: cities[i] in nights)
    && forall city | city in nights :: city in cities && nights[city] >= 1
  }

  lemma CoversOneMore(sequence: seq<string>, cities: seq<string>)
    requires cities != []
    ensures Covers(sequence, cities) <==> cities[|cities| - 1] in sequence && Covers(sequence, cities[..|cities| - 1])
  {
    var init := cities[..|cities| - 1];
    if Covers(sequence, init) && cities[|cities| - 1] in sequence {
      forall i | 0 <= i < |cities| ensures cities[i] in sequence {
        assert i < |init| ==> cities[i] == init[i];
      }
    }
  }

  lemma LookupLast(cities: seq<string>, nights: map<string, int>)
    requires NightsFor(cities, nights) && cities != []
    ensures var init, last := cities[..|cities| - 1], cities[|cities| - 1];
      NightsFor(init, nights - {last}) && Sum(Lookup(cities, nights)) == Sum(Lookup(init, nights - {last})) + nights[last]
  {
    var init, last := cities[..|cities| - 1], cities[|cities| - 1];
    OtherCities(cities, nights);
    assert Lookup(cities, nights)[..|init|] == Lookup(init, nights - {last});
  }

  lemma {:induction false} NightsOfCities(cities: seq<string>, nights: map<string, int>, sequence: seq<string>)
    requires NightsFor(cities, nights) && Distinct(sequence)
    ensures NightsIn(sequence, nights) <= Sum(Lookup(cities, nights))
    ensures NightsIn(sequence, nights) == Sum(Lookup(cities, nights)) <==> Covers(sequence, cities)
  {
    if cities == [] {
      NoNights(sequence, nights);
    } else {
      var init, last := cities[..|cities| - 1], cities[|cities| - 1];
      LookupLast(cities, nights);
      NightsOfCities(init, nights - {last}, sequence);
      NightsWithoutCity(sequence, nights, last);
      CoversOneMore(sequence, cities);
    }
  }

  lemma OtherCities(cities: seq<string>, nights: map<string, int>)
    requires NightsFor(cities, nights) && cities != []
    ensures NightsFor(cities[..|cities| - 1], nights - {cities[|cities| - 1]})
  {
    var init, last := cities[..|cities| - 1], cities[|cities| - 1];
    assert cities == init + [last];
  }

  lemma {:induction false} NoNights(sequence: seq<string>, nights: map<string, int>)
    requires forall city :: city !in nights
    ensures NightsIn(sequence, nights) == 0
  {
    if sequence != [] {
      NoNights(sequence[..|sequence| - 1], nights);
    }
  }

  /**
    The total of nights is copied, not added up again: along a sequence without repetitions it is right if
    and only if the sequence names every city of the plan.
   */
  lemma CopiedTotalIsRight(stays: seq<Stay>, sequence: seq<string>)
    requires Hosted(stays) && Distinct(CitiesOf(stays)) && Distinct(sequence)
    ensures Sum(NightsOf(Resequenced(sequence, NightsByCity(stays), |sequence|))) == Sum(NightsOf(stays))
      <==> Covers(sequence, CitiesOf(stays))
  {
    assert SameNights(stays) by {
      assert forall i | 0 <= i < |stays| :: CitiesOf(stays)[i] == stays[i].city;
    }
    NightsAreLookedUp(stays);
    PositiveNights(stays);
    NightsOfCities(CitiesOf(stays), NightsByCity(stays), sequence);
    ResequencedNights(sequence, NightsByCity(stays), |sequence|);
    assert sequence[..|sequence|] == sequence;
  }
}
