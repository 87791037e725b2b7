/** What a merged multi-country trip guarantees. */
module MultiCountryTheorems {
  import opened Wrappers
  import opened Sequences
  import opened Cities
  import opened Apportionment
  import opened DayDistribution
  import opened DaySchedules
  import opened CitySequence
  import Itinerary
  import opened MultiCountry

  /** The days of each country, in the order of the trip. */
  function Lengths(trip: Trip): seq<int>
    requires forall k | 0 <= k < |trip.order| :: trip.order[k] in trip.days
  {
    Lookup(trip.order, trip.days)
  }

  /** The days are the shares of the countries, which the trip visits in some order. */
  ghost predicate Shared(countries: seq<string>, ws: seq<nat>, order: seq<string>, total: int, days: map<string, int>) {
    && |ws| == |countries| > 0 && Positive(ws) && Sum(ws) > 0
    && (forall k | 0 <= k < |countries| :: countries[k] in days)
    && (forall k | 0 <= k < |order| :: order[k] in days)
    && Lookup(countries, days) == Shares(ws, Sum(ws), total) && multiset(order) == multiset(countries)
  }

  lemma SharedDays(cities: seq<City>, order: seq<string>, total: int, days: map<string, int>)
    requires CountryDays(cities, Countries(cities), total, days) && Countries(cities) != []
    requires multiset(order) == multiset(Countries(cities)) && forall k | 0 <= k < |order| :: order[k] in days
    ensures Shared(Countries(cities), CountryWeights(cities, Countries(cities)), order, total, days)
  {
  }

  lemma TripIsShared(cities: seq<City>, total: int, start: Option<string>, dist: Distance, trip: Trip)
    requires TripOf(cities, total, start, dist, trip) && cities != []
    ensures Shared(Countries(cities), CountryWeights(cities, Countries(cities)), trip.order, total, trip.days)
  {
    CountriesListAll(cities);
    assert cities[0].country in Countries(cities);
    OrderReorders(cities, start);
    SharedDays(cities, trip.order, total, trip.days);
  }

  lemma ReorderedSharesNearTotal(countries: seq<string>, ws: seq<nat>, order: seq<string>, total: nat, days: map<string, int>)
    requires Shared(countries, ws, order, total, days) && total > 0
    ensures total - |order| < Sum(Lookup(order, days)) < total + |order|
  {
    SharesNearTotal(ws, total);
    assert |multiset(order)| == |multiset(countries)|;
    SumOfReordered(countries, order, days);
  }

  /** The countries' blocks miss the days asked for by less than one day a country. */
  lemma BlocksNearTotal(cities: seq<City>, total: int, start: Option<string>, dist: Distance, trip: Trip)
    requires TripOf(cities, total, start, dist, trip) && cities != [] && total > 0
    ensures total - |trip.order| < Sum(Lengths(trip)) < total + |trip.order|
  {
    TripIsShared(cities, total, start, dist, trip);
    ReorderedSharesNearTotal(Countries(cities), CountryWeights(cities, Countries(cities)), trip.order, total, trip.days);
  }

  predicate AddUp(ws: seq<nat>, total: nat)
    requires Sum(ws) > 0
  {
    Sum(ws) * RoundedUp(ws, Sum(ws), total) == Parts(ws, Sum(ws), total)
  }

  predicate AreWhole(ws: seq<nat>, total: nat)
    requires Sum(ws) > 0
  {
    forall k | 0 <= k < |ws| :: ws[k] * total % Sum(ws) == 0
  }

  lemma ReorderedSharesAddUpIff(countries: seq<string>, ws: seq<nat>, order: seq<string>, total: nat, days: map<string, int>)
    requires Shared(countries, ws, order, total, days) && total > 0
    ensures Sum(Lookup(order, days)) == total <==> AddUp(ws, total)
    ensures AreWhole(ws, total) ==> AddUp(ws, total)
  {
    SharesAddUpIff(ws, total);
    SumOfReordered(countries, order, days);
    if AreWhole(ws, total) {
      WholeQuotas(ws, Sum(ws), total);
    }
  }

  /**
    The blocks add up to the days asked for if and only if as many countries are rounded up as whole days are
    left of the countries' quotas; for example if every quota is a whole number of days.
   */
  lemma BlocksAddUpIff(cities: seq<City>, total: int, start: Option<string>, dist: Distance, trip: Trip)
    requires TripOf(cities, total, start, dist, trip) && cities != [] && total > 0
    ensures var ws := CountryWeights(cities, Countries(cities));
      && Sum(ws) > 0
      && (Sum(Lengths(trip)) == total <==> AddUp(ws, total))
      && (AreWhole(ws, total) ==> AddUp(ws, total))
  {
    TripIsShared(cities, total, start, dist, trip);
    ReorderedSharesAddUpIff(Countries(cities), CountryWeights(cities, Countries(cities)), trip.order, total, trip.days);
  }

  // ---------- The cities ----------

  lemma {:induction false} InCountryKeepsNames(cities: seq<City>, country: string)
    requires Distinct(NamesOf(cities))
    ensures Distinct(NamesOf(InCountry(cities, country)))
    ensures forall city | city in InCountry(cities, country) :: city in cities
  {
    if cities != [] {
      var init, last := cities[..|cities| - 1], cities[|cities| - 1];
      assert NamesOf(init) == NamesOf(cities)[..|init|];
      InCountryKeepsNames(init, country);
      forall i | 0 <= i < |InCountry(init, country)| ensures InCountry(init, country)[i].name != last.name {
        var city := InCountry(init, country)[i];
        assert city in InCountry(init, country) && city in init;
        var j :| 0 <= j < |init| && init[j] == city;
        assert NamesOf(cities)[j] != NamesOf(cities)[|init|];
      }
    }
  }

  lemma {:induction false} SamePartsSameWhole(a: seq<seq<City>>, b: seq<seq<City>>)
    requires |a| == |b| && forall k | 0 <= k < |a| :: multiset(a[k]) == multiset(b[k])
    ensures multiset(Flatten(a)) == multiset(Flatten(b))
  {
    if a != [] {
      SamePartsSameWhole(a[..|a| - 1], b[..|b| - 1]);
    }
  }

  lemma {:induction false} InCountryHolds(cities: seq<City>, city: City)
    requires city in cities
    ensures city in InCountry(cities, city.country)
  {
    var init := cities[..|cities| - 1];
    if city in init {
      InCountryHolds(init, city);
    }
  }

  lemma {:induction false} FlattenStarts<T>(ss: seq<seq<T>>)
    requires ss != [] && ss[0] != []
    ensures Flatten(ss) != [] && Flatten(ss)[0] == ss[0][0]
  {
    if |ss| > 1 {
      FlattenStarts(ss[..|ss| - 1]);
    } else {
      assert ss[..0] == [];
    }
  }

  lemma {:induction false} SomeCity(cities: seq<City>, country: string)
    requires country in Countries(cities)
    ensures InCountry(cities, country) != []
  {
    if cities[|cities| - 1].country != country {
      SomeCity(cities[..|cities| - 1], country);
    }
  }

  /**
    A trip asked to start in a city begins in the first country that has a city of that name, and the other
    countries keep their order; but within that country it begins with the first city listed, whichever
    city it was asked to start in.
   */
  lemma TripBeginsInStartCountry(cities: seq<City>, total: int, name: string, dist: Distance, trip: Trip)
    requires TripOf(cities, total, Some(name), dist, trip) && name != "" && HasCity(cities, name)
    ensures
      var countries := Countries(cities);
      var k := FirstWith(cities, countries, name);
      && k < |countries| && IsFirstWith(cities, countries, name, k)
      && trip.order == [countries[k]] + Without(countries, k)
    ensures HasCity(InCountry(cities, trip.order[0]), name)
    ensures trip.cities != [] && trip.cities[0] == InCountry(cities, trip.order[0])[0]
  {
    CountryHasStart(cities, name);
    FirstTourStarts(cities, total, Some(name), dist, trip);
  }

  lemma FirstTourStarts(cities: seq<City>, total: int, start: Option<string>, dist: Distance, trip: Trip)
    requires TripOf(cities, total, start, dist, trip) && trip.order != [] && InCountry(cities, trip.order[0]) != []
    ensures trip.cities != [] && trip.cities[0] == InCountry(cities, trip.order[0])[0]
  {
    var group := InCountry(cities, trip.order[0]);
    TourStarts(group, Lengths(trip)[0], dist, trip.tours[0]);
    FlattenStarts(ToursCities(trip.tours));
  }

  lemma TourStarts(group: seq<City>, length: int, dist: Distance, tour: Tour)
    requires TourOf(group, length, None, dist, tour) && group != []
    ensures tour.cities != [] && tour.cities[0] == group[0]
  {
  }

  lemma CountryHasStart(cities: seq<City>, name: string)
    requires HasCity(cities, name)
    ensures FirstWith(cities, Countries(cities), name) < |Countries(cities)|
  {
    var i :| 0 <= i < |cities| && cities[i].name == name;
    CountriesListAll(cities);
    var k :| 0 <= k < |Countries(cities)| && Countries(cities)[k] == cities[i].country;
    InCountryHolds(cities, cities[i]);
    var group := InCountry(cities, cities[i].country);
    var j :| 0 <= j < |group| && group[j] == cities[i];
    assert HasCity(InCountry(cities, Countries(cities)[k]), name);
  }

  /** With distinct names, the trip visits every city exactly once. */
  lemma TripVisitsEveryCity(cities: seq<City>, total: int, start: Option<string>, dist: Distance, trip: Trip)
    requires TripOf(cities, total, start, dist, trip) && Distinct(NamesOf(cities))
    ensures multiset(trip.cities) == multiset(cities)
  {
    CountriesListAll(cities);
    OrderReorders(cities, start);
    var groups, toured := Groups(cities, trip.order), ToursCities(trip.tours);
    forall i | 0 <= i < |cities| ensures cities[i].country in trip.order {
      assert cities[i].country in multiset(trip.order);
    }
    GroupsPartition(cities, trip.order);
    forall k | 0 <= k < |groups| ensures multiset(toured[k]) == multiset(groups[k]) {
      InCountryKeepsNames(cities, trip.order[k]);
      SequenceVisitsAll(groups[k], None, dist, toured[k]);
    }
    SamePartsSameWhole(toured, groups);
  }

  // ---------- One country ----------

  ghost predicate DaysForAll(tour: Tour) {
    Named(tour.cities, tour.days) && forall i | 0 <= i < |tour.cities| :: tour.days[tour.cities[i].name] >= 1
  }

  lemma NamesWithout(s: seq<City>, k: nat)
    requires k < |s|
    ensures multiset(NamesOf(s)) == multiset{s[k].name} + multiset(NamesOf(Without(s, k)))
  {
    MultisetSplits(NamesOf(s), k);
    assert Without(NamesOf(s), k) == NamesOf(Without(s, k));
  }

  lemma {:induction false} SameNameMultiset(a: seq<City>, b: seq<City>)
    requires multiset(a) == multiset(b)
    ensures multiset(NamesOf(a)) == multiset(NamesOf(b))
    decreases |a|
  {
    if a == [] {
      assert |b| == |multiset(b)| == 0;
    } else {
      assert a[0] in multiset(b);
      var k := IndexOf(b, a[0]);
      MultisetSplits(a, 0);
      MultisetSplits(b, k);
      assert multiset(Without(b, k)) == multiset(b) - multiset{a[0]} == multiset(Without(a, 0));
      SameNameMultiset(Without(a, 0), Without(b, k));
      NamesWithout(a, 0);
      NamesWithout(b, k);
    }
  }

  lemma DaysOfNames(cities: seq<City>, length: int, days: map<string, int>)
    requires Distributed(cities, length, true, days) && Distinct(NamesOf(cities)) && cities != []
    ensures forall i | 0 <= i < |cities| :: NamesOf(cities)[i] in days
    ensures Sum(Lookup(NamesOf(cities), days)) == length
  {
    DistinctKeys(cities);
    assert forall i | 0 <= i < |cities| :: Keys(cities)[i] in days;
    assert Lookup(NamesOf(cities), days) == Apportion(Weights(cities, true), length);
    ApportionSums(Weights(cities, true), length);
  }

  lemma DaysOfReordered(cities: seq<City>, sequence: seq<City>, length: int, days: map<string, int>)
    requires Distributed(cities, length, true, days) && Distinct(NamesOf(cities)) && cities != []
    requires multiset(NamesOf(cities)) == multiset(NamesOf(sequence)) && Named(sequence, days)
    ensures Sum(Itinerary.DaysOf(sequence, days)) == length
  {
    DaysOfNames(cities, length, days);
    SumOfReordered(NamesOf(cities), NamesOf(sequence), days);
    assert Lookup(NamesOf(sequence), days) == Itinerary.DaysOf(sequence, days);
  }

  /** A tour's days add up to the days of its country. */
  lemma TourDays(cities: seq<City>, length: int, dist: Distance, tour: Tour)
    requires TourOf(cities, length, None, dist, tour) && Distinct(NamesOf(cities)) && cities != []
    ensures Sum(Itinerary.DaysOf(tour.cities, tour.days)) == length
  {
    SequenceVisitsAll(cities, None, dist, tour.cities);
    SameNameMultiset(cities, tour.cities);
    DaysOfReordered(cities, tour.cities, length, tour.days);
  }

  lemma StayHoldsPois(city: City, days: int)
    requires days >= 1
    ensures Concat(Stay(city, days), 1, days) == city.pois
  {
    if city.pois == [] {
      NothingToConcat(days);
    } else {
      SlicesCover(city.pois, days);
    }
  }

  lemma {:induction false} StaysHoldPois(cities: seq<City>, ds: seq<int>, k: nat)
    requires k <= |cities| == |ds| && forall i | 0 <= i < |ds| :: ds[i] >= 1
    ensures ContentsFirst(Stays(cities, ds), ds, k) == Flatten(PoisOf(cities)[..k])
  {
    if k > 0 {
      StaysHoldPois(cities, ds, k - 1);
      StayHoldsPois(cities[k - 1], ds[k - 1]);
      OneMoreContent(Stays(cities, ds), ds, k);
      FlattenOneMore(PoisOf(cities), k);
    }
  }

  lemma FlattenOneMore<T>(ss: seq<seq<T>>, k: nat)
    requires 0 < k <= |ss|
    ensures Flatten(ss[..k]) == Flatten(ss[..k - 1]) + ss[k - 1]
  {
    assert ss[..k][..k - 1] == ss[..k - 1];
  }

  lemma {:induction false} NothingToConcat(n: int)
    ensures Concat(map[], 1, n) == []
    decreases n
  {
    if n > 0 {
      NothingToConcat(n - 1);
    }
  }

  lemma StaysAreComplete(cities: seq<City>, ds: seq<int>)
    requires |cities| == |ds| && forall i | 0 <= i < |ds| :: ds[i] >= 1
    ensures Sum(ds) >= 0 && Within(Lay(Stays(cities, ds), ds), Sum(ds))
    ensures Concat(Lay(Stays(cities, ds), ds), 1, Sum(ds)) == Flatten(PoisOf(cities))
  {
    var stays := Stays(cities, ds);
    assert Fitting(stays, ds) by {
      forall i | 0 <= i < |ds| ensures ds[i] >= 0 && Within(stays[i], ds[i]) {
        SlicesAreFull(cities[i].pois, ds[i]);
      }
    }
    LaidInOrder(stays, ds);
    StaysHoldPois(cities, ds, |ds|);
    assert PoisOf(cities)[..|ds|] == PoisOf(cities);
  }

  /** A tour that gives every city a day keeps to its country's days and holds its points of interest. */
  lemma TourIsComplete(tour: Tour, length: int)
    requires DaysForAll(tour) && Sum(Itinerary.DaysOf(tour.cities, tour.days)) == length
    requires var ds := Itinerary.DaysOf(tour.cities, tour.days); tour.schedule == Lay(Stays(tour.cities, ds), ds)
    ensures length >= 0 && Within(tour.schedule, length)
    ensures Concat(tour.schedule, 1, length) == Flatten(PoisOf(tour.cities))
  {
    StaysAreComplete(tour.cities, Itinerary.DaysOf(tour.cities, tour.days));
  }

  /** The other cities' shares leave a day of the country's for its heaviest city. */
  predicate Enough(cities: seq<City>, length: int) {
    cities != [] && OthersTotal(Weights(cities, true), length) < length
  }

  lemma DaysForNamesIff(cities: seq<City>, length: int, days: map<string, int>)
    requires Distributed(cities, length, true, days) && Distinct(NamesOf(cities)) && cities != [] && Named(cities, days)
    ensures (forall i | 0 <= i < |cities| :: days[cities[i].name] >= 1) <==> Enough(cities, length)
  {
    var ds := Itinerary.DaysOf(cities, days);
    Itinerary.ApportionedDays(cities, length, true, days);
    DistinctKeys(cities);
    AllGivenIff(Weights(cities, true), length, ds);
    assert forall i | 0 <= i < |cities| :: days[cities[i].name] == ds[i];
  }

  lemma AllGivenIff(ws: seq<nat>, length: int, ds: seq<int>)
    requires ws != [] && Positive(ws) && ds == Apportion(ws, length)
    ensures (forall i | 0 <= i < |ds| :: ds[i] >= 1) <==> OthersTotal(ws, length) < length
  {
    AllGetADay(ws, length);
  }

  /** Every city of a country has a day iff the others leave one for the heaviest. */
  lemma DaysForAllIff(cities: seq<City>, length: int, dist: Distance, tour: Tour)
    requires TourOf(cities, length, None, dist, tour) && Distinct(NamesOf(cities)) && cities != []
    ensures DaysForAll(tour) <==> Enough(cities, length)
  {
    if DaysForAll(tour) {
      TourDaysMeanEnough(cities, length, dist, tour);
    }
    if Enough(cities, length) {
      EnoughMeansTourDays(cities, length, dist, tour);
    }
  }

  lemma TourDaysMeanEnough(cities: seq<City>, length: int, dist: Distance, tour: Tour)
    requires TourOf(cities, length, None, dist, tour) && Distinct(NamesOf(cities)) && cities != [] && DaysForAll(tour)
    ensures Enough(cities, length)
  {
    TourIsReordered(cities, length, dist, tour);
    DaysMeanEnough(cities, length, tour.cities, tour.days);
  }

  lemma EnoughMeansTourDays(cities: seq<City>, length: int, dist: Distance, tour: Tour)
    requires TourOf(cities, length, None, dist, tour) && Distinct(NamesOf(cities)) && Enough(cities, length)
    ensures DaysForAll(tour)
  {
    TourIsReordered(cities, length, dist, tour);
    EnoughMeansDays(cities, length, tour.cities, tour.days);
  }

  lemma TourIsReordered(cities: seq<City>, length: int, dist: Distance, tour: Tour)
    requires TourOf(cities, length, None, dist, tour) && Distinct(NamesOf(cities))
    ensures Distributed(cities, length, true, tour.days) && Named(tour.cities, tour.days) && multiset(tour.cities) == multiset(cities)
  {
    SequenceVisitsAll(cities, None, dist, tour.cities);
  }

  lemma DaysMeanEnough(cities: seq<City>, length: int, sequence: seq<City>, days: map<string, int>)
    requires Distributed(cities, length, true, days) && Distinct(NamesOf(cities)) && cities != []
    requires multiset(sequence) == multiset(cities) && Named(sequence, days)
    requires forall i | 0 <= i < |sequence| :: days[sequence[i].name] >= 1
    ensures Enough(cities, length)
  {
    DaysReordered(cities, sequence, days);
    DaysForNamesIff(cities, length, days);
  }

  lemma EnoughMeansDays(cities: seq<City>, length: int, sequence: seq<City>, days: map<string, int>)
    requires Distributed(cities, length, true, days) && Distinct(NamesOf(cities))
    requires multiset(sequence) == multiset(cities) && Named(sequence, days) && Enough(cities, length)
    ensures forall i | 0 <= i < |sequence| :: days[sequence[i].name] >= 1
  {
    DaysReordered(cities, sequence, days);
    DaysForNamesIff(cities, length, days);
  }

  lemma DaysReordered(cities: seq<City>, sequence: seq<City>, days: map<string, int>)
    requires multiset(sequence) == multiset(cities) && Named(sequence, days)
    ensures Named(cities, days)
    ensures (forall i | 0 <= i < |cities| :: days[cities[i].name] >= 1) <==> forall i | 0 <= i < |sequence| :: days[sequence[i].name] >= 1
  {
    forall i | 0 <= i < |cities| ensures exists j :: 0 <= j < |sequence| && sequence[j] == cities[i] {
      assert cities[i] in multiset(sequence);
    }
    forall i | 0 <= i < |sequence| ensures exists j :: 0 <= j < |cities| && cities[j] == sequence[i] {
      assert sequence[i] in multiset(cities);
    }
  }

  /** More than n(n-1)/2 days are enough for a country with n cities. */
  lemma PlentyForCountry(cities: seq<City>, length: int)
    requires Distinct(NamesOf(cities)) && cities != [] && 2 * length > |cities| * (|cities| - 1)
    ensures Enough(cities, length)
  {
    DistinctKeys(cities);
    PlentyForWeights(Weights(cities, true), |cities|, length);
  }

  lemma PlentyForWeights(ws: seq<nat>, n: nat, length: int)
    requires |ws| == n > 0 && Positive(ws) && 2 * length > n * (n - 1)
    ensures OthersTotal(ws, length) < length
  {
    MulLe(0, n - 1, n);
    OthersFit(ws, length);
  }

  lemma TourIsFull(tour: Tour)
    requires DaysForAll(tour) && HavePois(tour)
    requires var ds := Itinerary.DaysOf(tour.cities, tour.days); tour.schedule == Lay(Stays(tour.cities, ds), ds)
    ensures var sum := Sum(Itinerary.DaysOf(tour.cities, tour.days)); sum >= 0 && Full(tour.schedule, sum)
  {
    var ds := Itinerary.DaysOf(tour.cities, tour.days);
    var stays := Stays(tour.cities, ds);
    forall i | 0 <= i < |ds| ensures ds[i] >= 0 && Full(stays[i], ds[i]) {
      SlicesAreFull(tour.cities[i].pois, ds[i]);
    }
    LaidFull(stays, ds);
  }

  lemma LaidFull(stays: seq<Schedule>, ds: seq<int>)
    requires |stays| == |ds| && forall i | 0 <= i < |ds| :: ds[i] >= 0 && Full(stays[i], ds[i])
    ensures Sum(ds) >= 0 && Full(Lay(stays, ds), Sum(ds))
  {
    FirstStaysFull(stays, ds, |ds|);
    StartAfterAll(ds, |ds|);
    assert ds[..|ds|] == ds;
  }

  // ---------- The whole trip ----------

  lemma {:induction false} BlocksHoldPois(tours: seq<Tour>, lengths: seq<int>, k: nat)
    requires k <= |tours| == |lengths|
    requires forall j | 0 <= j < |tours| :: Concat(tours[j].schedule, 1, lengths[j]) == Flatten(PoisOf(tours[j].cities))
    ensures ContentsFirst(Schedules(tours), lengths, k) == Flatten(PoisOf(Flatten(ToursCities(tours)[..k])))
  {
    if k > 0 {
      BlocksHoldPois(tours, lengths, k - 1);
      assert ToursCities(tours)[..k][..k - 1] == ToursCities(tours)[..k - 1];
      PoisOfAppend(Flatten(ToursCities(tours)[..k - 1]), tours[k - 1].cities);
    }
  }

  lemma PoisOfAppend(a: seq<City>, b: seq<City>)
    ensures Flatten(PoisOf(a + b)) == Flatten(PoisOf(a)) + Flatten(PoisOf(b))
  {
    FlattenAppend(PoisOf(a), PoisOf(b));
    assert PoisOf(a + b) == PoisOf(a) + PoisOf(b);
  }

  lemma ToursMakeBlocks(tours: seq<Tour>, lengths: seq<int>)
    requires |tours| == |lengths|
    requires forall k | 0 <= k < |tours| :: lengths[k] >= 0 && Within(tours[k].schedule, lengths[k])
    requires forall k | 0 <= k < |tours| :: Concat(tours[k].schedule, 1, lengths[k]) == Flatten(PoisOf(tours[k].cities))
    ensures var schedule := Lay(Schedules(tours), lengths);
      && Within(schedule, Sum(lengths))
      && Concat(schedule, 1, Sum(lengths)) == Flatten(PoisOf(Flatten(ToursCities(tours))))
  {
    var schedules := Schedules(tours);
    assert Fitting(schedules, lengths);
    LaidInOrder(schedules, lengths);
    AllBlocksHoldPois(tours, lengths);
  }

  lemma AllBlocksHoldPois(tours: seq<Tour>, lengths: seq<int>)
    requires |tours| == |lengths|
    requires forall j | 0 <= j < |tours| :: Concat(tours[j].schedule, 1, lengths[j]) == Flatten(PoisOf(tours[j].cities))
    ensures ContentsFirst(Schedules(tours), lengths, |tours|) == Flatten(PoisOf(Flatten(ToursCities(tours))))
  {
    BlocksHoldPois(tours, lengths, |lengths|);
    assert ToursCities(tours)[..|lengths|] == ToursCities(tours);
  }

  ghost predicate BlocksFit(tours: seq<Tour>, lengths: seq<int>) {
    |tours| == |lengths| && forall j | 0 <= j < |tours| :: lengths[j] >= 0 && Within(tours[j].schedule, lengths[j])
  }

  /** The countries' blocks are consecutive and disjoint: day by day, a block is the tour of its country. */
  ghost predicate OwnBlocks(tours: seq<Tour>, lengths: seq<int>, schedule: Schedule) {
    && |tours| == |lengths|
    && forall k, day | 0 <= k < |tours| && 1 <= day <= lengths[k] ::
        DayOf(schedule, StartOf(lengths, k) - 1 + day) == DayOf(tours[k].schedule, day)
  }

  lemma TourOwnsItsBlock(tours: seq<Tour>, lengths: seq<int>, k: nat, day: int)
    requires BlocksFit(tours, lengths) && k < |tours| && 1 <= day <= lengths[k]
    ensures DayOf(Lay(Schedules(tours), lengths), StartOf(lengths, k) - 1 + day) == DayOf(tours[k].schedule, day)
  {
    assert Fitting(Schedules(tours), lengths);
    StayOwnsItsDays(Schedules(tours), lengths, k, day);
  }

  lemma ToursOwnTheirBlocks(tours: seq<Tour>, lengths: seq<int>)
    requires BlocksFit(tours, lengths)
    ensures OwnBlocks(tours, lengths, Lay(Schedules(tours), lengths))
  {
    forall k, day | 0 <= k < |tours| && 1 <= day <= lengths[k]
      ensures DayOf(Lay(Schedules(tours), lengths), StartOf(lengths, k) - 1 + day) == DayOf(tours[k].schedule, day)
    {
      TourOwnsItsBlock(tours, lengths, k, day);
    }
  }

  lemma {:induction false} TotalOfStays(cities: seq<City>, ds: seq<int>, k: nat)
    requires k <= |cities| == |ds|
    ensures TotalOfFirst(Stays(cities, ds), k) == Itinerary.Placed(cities, ds, k)
  {
    if k > 0 {
      TotalOfStays(cities, ds, k - 1);
      Itinerary.TotalOfSlices(cities[k - 1].pois, ds[k - 1]);
    }
  }

  /** A tour holds no more than its cities' points of interest. */
  ghost predicate HoldsAtMost(tour: Tour) {
    Total(tour.schedule) <= |Flatten(PoisOf(tour.cities))|
  }

  ghost predicate HoldsLess(tour: Tour) {
    Total(tour.schedule) < |Flatten(PoisOf(tour.cities))|
  }

  /** Every city of the tour has points of interest. */
  ghost predicate HavePois(tour: Tour) {
    forall i | 0 <= i < |tour.cities| :: tour.cities[i].pois != []
  }

  /** A tour never holds more than its cities' points of interest, and less if one of them has no day. */
  lemma TourHoldsAtMost(cities: seq<City>, length: int, dist: Distance, tour: Tour)
    requires TourOf(cities, length, None, dist, tour)
    ensures HoldsAtMost(tour)
    ensures !DaysForAll(tour) && HavePois(tour) ==> HoldsLess(tour)
  {
    StaysHoldAtMost(tour.cities, Itinerary.DaysOf(tour.cities, tour.days));
  }

  lemma StaysHoldAtMost(cities: seq<City>, ds: seq<int>)
    requires |cities| == |ds|
    ensures Total(Lay(Stays(cities, ds), ds)) <= |Flatten(PoisOf(cities))|
    ensures (exists i | 0 <= i < |cities| :: ds[i] < 1 && cities[i].pois != []) ==>
      Total(Lay(Stays(cities, ds), ds)) < |Flatten(PoisOf(cities))|
  {
    LayingAddsNothing(Stays(cities, ds), ds, |ds|);
    TotalOfStays(cities, ds, |ds|);
    Itinerary.PlacedAtMost(cities, ds, |ds|);
    assert PoisOf(cities)[..|ds|] == PoisOf(cities);
  }

  /** The points of interest of the cities of the first k tours. */
  function Planned(tours: seq<Tour>, k: nat): nat
    requires k <= |tours|
  {
    if k == 0 then 0 else Planned(tours, k - 1) + |Flatten(PoisOf(tours[k - 1].cities))|
  }

  lemma {:induction false} PlannedIsAll(tours: seq<Tour>, k: nat)
    requires k <= |tours|
    ensures Planned(tours, k) == |Flatten(PoisOf(Flatten(ToursCities(tours)[..k])))|
  {
    if k > 0 {
      PlannedIsAll(tours, k - 1);
      assert ToursCities(tours)[..k][..k - 1] == ToursCities(tours)[..k - 1];
      PoisOfAppend(Flatten(ToursCities(tours)[..k - 1]), tours[k - 1].cities);
    }
  }

  lemma {:induction false} ToursHoldAtMost(tours: seq<Tour>, k: nat)
    requires k <= |tours| && forall j | 0 <= j < |tours| :: HoldsAtMost(tours[j])
    ensures TotalOfFirst(Schedules(tours), k) <= Planned(tours, k)
  {
    if k > 0 {
      ToursHoldAtMost(tours, k - 1);
      assert HoldsAtMost(tours[k - 1]) && Schedules(tours)[k - 1] == tours[k - 1].schedule;
    }
  }

  lemma {:induction false} ToursHoldLess(tours: seq<Tour>, k: nat, lost: nat)
    requires lost < k <= |tours| && (forall j | 0 <= j < |tours| :: HoldsAtMost(tours[j])) && HoldsLess(tours[lost])
    ensures TotalOfFirst(Schedules(tours), k) < Planned(tours, k)
  {
    assert Schedules(tours)[k - 1] == tours[k - 1].schedule;
    if lost < k - 1 {
      ToursHoldLess(tours, k - 1, lost);
      assert HoldsAtMost(tours[k - 1]);
    } else {
      ToursHoldAtMost(tours, k - 1);
    }
  }

  lemma ToursLose(tours: seq<Tour>, lengths: seq<int>, lost: nat)
    requires |tours| == |lengths| && lost < |tours|
    requires (forall k | 0 <= k < |tours| :: HoldsAtMost(tours[k])) && HoldsLess(tours[lost])
    ensures Concat(Lay(Schedules(tours), lengths), 1, Sum(lengths)) != Flatten(PoisOf(Flatten(ToursCities(tours))))
  {
    var n := |tours|;
    LayingAddsNothing(Schedules(tours), lengths, n);
    ToursHoldLess(tours, n, lost);
    PlannedIsAll(tours, n);
    assert ToursCities(tours)[..n] == ToursCities(tours);
    if Sum(lengths) >= 0 {
      ConcatAtMostTotal(Lay(Schedules(tours), lengths), 1, Sum(lengths));
    }
  }

  /** What a tour of a country with so many days guarantees. */
  ghost predicate Keeps(tour: Tour, length: int) {
    && HoldsAtMost(tour) && (!DaysForAll(tour) && HavePois(tour) ==> HoldsLess(tour))
    && (DaysForAll(tour) ==>
        && length >= 0 && Within(tour.schedule, length)
        && Concat(tour.schedule, 1, length) == Flatten(PoisOf(tour.cities)))
    && (DaysForAll(tour) && HavePois(tour) ==> Full(tour.schedule, length))
  }

  lemma GroupIsFit(cities: seq<City>, country: string)
    requires Distinct(NamesOf(cities)) && country in Countries(cities)
    ensures InCountry(cities, country) != [] && Distinct(NamesOf(InCountry(cities, country)))
  {
    InCountryKeepsNames(cities, country);
    SomeCity(cities, country);
  }

  lemma TourKeeps(group: seq<City>, length: int, dist: Distance, tour: Tour)
    requires TourOf(group, length, None, dist, tour) && Distinct(NamesOf(group)) && group != []
    ensures Keeps(tour, length)
  {
    TourHoldsAtMost(group, length, dist, tour);
    if DaysForAll(tour) {
      TourDays(group, length, dist, tour);
      TourIsComplete(tour, length);
      if HavePois(tour) {
        TourIsFull(tour);
      }
    }
  }

  /** The countries' blocks of days together hold every point of interest, country after country and city after city, once. */
  ghost predicate Conserves(tours: seq<Tour>, lengths: seq<int>)
    requires |tours| == |lengths|
  {
    Concat(Lay(Schedules(tours), lengths), 1, Sum(lengths)) == Flatten(PoisOf(Flatten(ToursCities(tours))))
  }

  ghost predicate AllHaveDays(tours: seq<Tour>) {
    forall k | 0 <= k < |tours| :: DaysForAll(tours[k])
  }

  ghost predicate AllHavePois(tours: seq<Tour>) {
    forall k | 0 <= k < |tours| :: HavePois(tours[k])
  }

  lemma ToursWithDays(tours: seq<Tour>, lengths: seq<int>)
    requires |tours| == |lengths| && (forall k | 0 <= k < |tours| :: Keeps(tours[k], lengths[k])) && AllHaveDays(tours)
    ensures var schedule := Lay(Schedules(tours), lengths);
      Conserves(tours, lengths) && Within(schedule, Sum(lengths)) && OwnBlocks(tours, lengths, schedule)
    ensures AllHavePois(tours) ==> Sum(lengths) >= 0 && Full(Lay(Schedules(tours), lengths), Sum(lengths))
  {
    forall k | 0 <= k < |tours|
      ensures lengths[k] >= 0 && Within(tours[k].schedule, lengths[k])
      ensures Concat(tours[k].schedule, 1, lengths[k]) == Flatten(PoisOf(tours[k].cities))
      ensures AllHavePois(tours) ==> Full(Schedules(tours)[k], lengths[k])
    {
      assert Keeps(tours[k], lengths[k]) && DaysForAll(tours[k]);
      assert AllHavePois(tours) ==> HavePois(tours[k]);
    }
    ToursMakeBlocks(tours, lengths);
    ToursOwnTheirBlocks(tours, lengths);
    if AllHavePois(tours) {
      LaidFull(Schedules(tours), lengths);
    }
  }

  lemma ToursWithoutDays(tours: seq<Tour>, lengths: seq<int>)
    requires |tours| == |lengths| && (forall k | 0 <= k < |tours| :: Keeps(tours[k], lengths[k])) && !AllHaveDays(tours)
    requires AllHavePois(tours)
    ensures !Conserves(tours, lengths)
  {
    var lost :| 0 <= lost < |tours| && !DaysForAll(tours[lost]);
    forall k | 0 <= k < |tours| ensures HoldsAtMost(tours[k]) && (k == lost ==> HoldsLess(tours[k])) {
      assert Keeps(tours[k], lengths[k]) && HavePois(tours[k]);
    }
    ToursLose(tours, lengths, lost);
  }

  // ---------- Conditions on the request ----------

  /** The k-th country's share of the total is enough for its cities. */
  predicate EnoughForCountry(cities: seq<City>, total: int, k: nat)
    requires k < |Countries(cities)|
  {
    Enough(InCountry(cities, Countries(cities)[k]), CountryShare(cities, total, k))
  }

  predicate EnoughForTrip(cities: seq<City>, total: int) {
    forall k | 0 <= k < |Countries(cities)| :: EnoughForCountry(cities, total, k)
  }

  /** Every country's quota of the total exceeds n(n-1)/2 days, for its n cities, by more than half a day. */
  predicate PlentyForTrip(cities: seq<City>, total: int) {
    var ws := CountryWeights(cities, Countries(cities));
    forall k | 0 <= k < |ws| :: ExceedsBound(ws[k] * total, Sum(ws), |InCountry(cities, Countries(cities)[k])|)
  }

  /** The quotient exceeds n(n-1)/2 by more than one half. */
  predicate ExceedsBound(num: int, den: int, n: int) {
    2 * num > (n * (n - 1) + 1) * den
  }

  lemma PlentyIsEnough(w: nat, weight: nat, total: int, n: nat)
    requires weight > 0 && ExceedsBound(w * total, weight, n)
    ensures 2 * Share(w, weight, total) > n * (n - 1)
  {
    var r, bound := RoundHalfEven(w * total, weight), n * (n - 1);
    assert (bound + 1) * weight == bound * weight + weight;
    assert 2 * (r * weight) == (2 * r) * weight;
    if 2 * r <= bound {
      MulLe(2 * r, bound, weight);
    }
  }

  /** A trip with enough days for every country's cities does not fail. */
  lemma EnoughNeverFails(cities: seq<City>, total: int)
    requires EnoughForTrip(cities, total)
    ensures !TripFails(cities, total)
  {
    forall k | 0 <= k < |Countries(cities)|
      ensures !Fails(InCountry(cities, Countries(cities)[k]), CountryShare(cities, total, k), None)
    {
      assert EnoughForCountry(cities, total, k);
    }
  }

  lemma ShareOfCountry(cities: seq<City>, total: int, start: Option<string>, dist: Distance, trip: Trip, k: nat) returns (j: nat)
    requires TripOf(cities, total, start, dist, trip) && k < |trip.order|
    ensures j < |Countries(cities)| && Countries(cities)[j] == trip.order[k]
    ensures Lengths(trip)[k] == CountryShare(cities, total, j)
  {
    OrderReorders(cities, start);
    assert trip.order[k] in multiset(Countries(cities));
    j := IndexOf(Countries(cities), trip.order[k]);
  }

  lemma PositionOfCountry(cities: seq<City>, start: Option<string>, j: nat) returns (k: nat)
    requires j < |Countries(cities)|
    ensures k < |CountryOrder(cities, start)| && CountryOrder(cities, start)[k] == Countries(cities)[j]
  {
    OrderReorders(cities, start);
    assert Countries(cities)[j] in multiset(CountryOrder(cities, start));
    k := IndexOf(CountryOrder(cities, start), Countries(cities)[j]);
  }

  lemma TourOfTrip(cities: seq<City>, total: int, start: Option<string>, dist: Distance, trip: Trip, k: nat) returns (j: nat)
    requires TripOf(cities, total, start, dist, trip) && Distinct(NamesOf(cities)) && k < |trip.order|
    ensures j < |Countries(cities)| && Countries(cities)[j] == trip.order[k]
    ensures Keeps(trip.tours[k], Lengths(trip)[k])
    ensures DaysForAll(trip.tours[k]) <==> EnoughForCountry(cities, total, j)
  {
    j := ShareOfCountry(cities, total, start, dist, trip, k);
    var group := InCountry(cities, trip.order[k]);
    GroupIsFit(cities, trip.order[k]);
    TourKeeps(group, Lengths(trip)[k], dist, trip.tours[k]);
    DaysForAllIff(group, Lengths(trip)[k], dist, trip.tours[k]);
  }

  lemma AllHaveDaysIff(cities: seq<City>, total: int, start: Option<string>, dist: Distance, trip: Trip)
    requires TripOf(cities, total, start, dist, trip) && Distinct(NamesOf(cities))
    ensures AllHaveDays(trip.tours) <==> EnoughForTrip(cities, total)
    ensures forall k | 0 <= k < |trip.tours| :: Keeps(trip.tours[k], Lengths(trip)[k])
  {
    forall k | 0 <= k < |trip.tours|
      ensures Keeps(trip.tours[k], Lengths(trip)[k])
      ensures EnoughForTrip(cities, total) ==> DaysForAll(trip.tours[k])
    {
      var j := TourOfTrip(cities, total, start, dist, trip, k);
    }
    if AllHaveDays(trip.tours) {
      forall j | 0 <= j < |Countries(cities)| ensures EnoughForCountry(cities, total, j) {
        TripDaysMeanEnough(cities, total, start, dist, trip, j);
      }
    }
  }

  lemma TripDaysMeanEnough(cities: seq<City>, total: int, start: Option<string>, dist: Distance, trip: Trip, j: nat)
    requires TripOf(cities, total, start, dist, trip) && Distinct(NamesOf(cities)) && AllHaveDays(trip.tours)
    requires j < |Countries(cities)|
    ensures EnoughForCountry(cities, total, j)
  {
    var k := PositionOfCountry(cities, start, j);
    var i := TourOfTrip(cities, total, start, dist, trip, k);
    assert i == j;
  }

  lemma PlentyForAll(cities: seq<City>, total: int)
    requires PlentyForTrip(cities, total) && Distinct(NamesOf(cities))
    ensures EnoughForTrip(cities, total)
  {
    forall k | 0 <= k < |Countries(cities)| ensures EnoughForCountry(cities, total, k) {
      PlentyForOne(cities, total, k);
    }
  }

  lemma PlentyForOne(cities: seq<City>, total: int, k: nat)
    requires PlentyForTrip(cities, total) && Distinct(NamesOf(cities)) && k < |Countries(cities)|
    ensures EnoughForCountry(cities, total, k)
  {
    var ws, group := CountryWeights(cities, Countries(cities)), InCountry(cities, Countries(cities)[k]);
    PositiveSum(ws);
    GroupIsFit(cities, Countries(cities)[k]);
    PlentyIsEnough(ws[k], Sum(ws), total, |group|);
    PlentyForCountry(group, CountryShare(cities, total, k));
  }

  predicate CitiesHavePois(cities: seq<City>) {
    forall i | 0 <= i < |cities| :: cities[i].pois != []
  }

  lemma TourHasPois(cities: seq<City>, total: int, start: Option<string>, dist: Distance, trip: Trip, k: nat)
    requires TripOf(cities, total, start, dist, trip) && Distinct(NamesOf(cities)) && k < |trip.tours|
    requires CitiesHavePois(cities)
    ensures HavePois(trip.tours[k])
  {
    var tour := trip.tours[k];
    InCountryKeepsNames(cities, trip.order[k]);
    forall i | 0 <= i < |tour.cities| ensures tour.cities[i].pois != [] {
      MemberOfSequence(InCountry(cities, trip.order[k]), None, dist, tour.cities, i);
      assert tour.cities[i] in cities;
    }
  }

  lemma ToursHavePois(cities: seq<City>, total: int, start: Option<string>, dist: Distance, trip: Trip)
    requires TripOf(cities, total, start, dist, trip) && Distinct(NamesOf(cities)) && CitiesHavePois(cities)
    ensures AllHavePois(trip.tours)
  {
    forall k | 0 <= k < |trip.tours| ensures HavePois(trip.tours[k]) {
      TourHasPois(cities, total, start, dist, trip, k);
    }
  }

  /**
    A merged trip between cities with distinct names.  When every country's share of the total is enough for its
    cities, which a large enough total ensures, the trip conserves the points of interest within the countries'
    days, every country owns a block of days, and if all cities have points of interest no day is missing;
    and in that case it conserves them only then.
   */
  lemma TripKeepsItsPromise(cities: seq<City>, total: int, start: Option<string>, dist: Distance, trip: Trip)
    requires TripOf(cities, total, start, dist, trip) && Distinct(NamesOf(cities))
    ensures EnoughForTrip(cities, total) ==>
      && Conserves(trip.tours, Lengths(trip)) && Within(trip.schedule, Sum(Lengths(trip)))
      && OwnBlocks(trip.tours, Lengths(trip), trip.schedule)
      && (CitiesHavePois(cities) ==> Full(trip.schedule, Sum(Lengths(trip))))
    ensures CitiesHavePois(cities) ==> (Conserves(trip.tours, Lengths(trip)) <==> EnoughForTrip(cities, total))
    ensures PlentyForTrip(cities, total) ==> EnoughForTrip(cities, total)
  {
    AllHaveDaysIff(cities, total, start, dist, trip);
    if CitiesHavePois(cities) {
      ToursHavePois(cities, total, start, dist, trip);
    }
    if AllHaveDays(trip.tours) {
      ToursWithDays(trip.tours, Lengths(trip));
    } else if AllHavePois(trip.tours) {
      ToursWithoutDays(trip.tours, Lengths(trip));
    }
    if PlentyForTrip(cities, total) {
      PlentyForAll(cities, total);
    }
  }

  // ---------- Four days for three ----------

  /**
    A request whose trip misses the days asked for: two cities in different countries, with equally many points
    of interest, and 3 days.  The trip fills 4 days.
   */
  lemma FourDaysForThree(cities: seq<City>, total: int, start: Option<string>, dist: Distance, trip: Trip)
    requires TwoAlike(cities) && total == 3 && TripOf(cities, total, start, dist, trip)
    ensures Sum(Lengths(trip)) == 4 && Full(trip.schedule, 4)
  {
    TwoForBoth(cities, total);
    TwoHavePois(cities);
    AllTwo(cities, total, start, dist, trip);
    TripKeepsItsPromise(cities, total, start, dist, trip);
  }

  predicate TwoAlike(cities: seq<City>) {
    && |cities| == 2 && cities[0].country != cities[1].country && Distinct(NamesOf(cities))
    && |cities[0].pois| == |cities[1].pois| > 0
  }

  lemma TwoHavePois(cities: seq<City>)
    requires TwoAlike(cities)
    ensures CitiesHavePois(cities)
  {
  }

  ghost predicate TwoDaysEach(cities: seq<City>, total: int) {
    |Countries(cities)| == 2 && forall k | 0 <= k < 2 :: CountryShare(cities, total, k) == 2
  }

  lemma TwoForBoth(cities: seq<City>, total: int)
    requires TwoAlike(cities) && total == 3
    ensures TwoDaysEach(cities, total) && EnoughForTrip(cities, total)
  {
    var a, b := cities[0], cities[1];
    assert cities == [a, b];
    TwoCountries(a, b);
    forall k | 0 <= k < |Countries(cities)| ensures CountryShare(cities, total, k) == 2 && EnoughForCountry(cities, total, k) {
      TwoForEach(a, b, total, k);
    }
  }

  lemma TwoForEach(a: City, b: City, total: int, k: nat)
    requires a.country != b.country && |a.pois| == |b.pois| > 0 && total == 3 && k < 2
    requires Countries([a, b]) == [a.country, b.country]
    requires InCountry([a, b], a.country) == [a] && InCountry([a, b], b.country) == [b]
    ensures CountryShare([a, b], total, k) == 2 && EnoughForCountry([a, b], total, k)
  {
    SharesOfTwo([a, b], total, |a.pois|, a, b, k);
    AloneIsEnough(if k == 0 then a else b, 2);
  }

  lemma SharesOfTwo(cities: seq<City>, total: int, w: nat, a: City, b: City, k: nat)
    requires Countries(cities) == [a.country, b.country] && InCountry(cities, a.country) == [a] && InCountry(cities, b.country) == [b]
    requires w == |a.pois| == |b.pois| > 0 && total == 3 && k < 2
    ensures CountryShare(cities, total, k) == 2
  {
    WeightAlone(a);
    WeightAlone(b);
    assert CountryWeights(cities, [a.country, b.country]) == [w, w];
    HalfOfThree(w);
  }

  lemma FlattenOne<T>(s: seq<T>)
    ensures Flatten([s]) == s
  {
    assert [s][..0] == [];
  }

  lemma WeightAlone(city: City)
    requires city.pois != []
    ensures CountryWeight([city]) == |city.pois|
  {
    assert PoisOf([city]) == [] + [city.pois];
    FlattenAppend([], [city.pois]);
    FlattenOne(city.pois);
  }


  lemma HalfOfThree(w: nat)
    requires w > 0
    ensures Sum([w, w]) == 2 * w && Share(w, 2 * w, 3) == 2
  {
    assert [w, w][..1] == [w] && [w][..0] == [];
    assert Sum([w]) == w;
    ScalingKeepsShares(w, 1, 2, 3);
    RoundingIsUnique(3, 2, 2);
    assert w * 1 == w && w * 2 == 2 * w;
  }

  lemma TwoCountries(a: City, b: City)
    requires a.country != b.country
    ensures Countries([a, b]) == [a.country, b.country]
    ensures InCountry([a, b], a.country) == [a] && InCountry([a, b], b.country) == [b]
  {
    assert [a, b][..1] == [a];
    OneCountry([a], a.country);
    assert InCountry([a], b.country) == [] by {
      assert [a][..0] == [];
    }
  }

  lemma AloneIsEnough(city: City, length: int)
    requires length > 0
    ensures Enough([city], length)
  {
    assert Distinct(NamesOf([city]));
    DistinctKeys([city]);
    EnoughDays(Weights([city], true), length);
  }

  lemma AllTwo(cities: seq<City>, total: int, start: Option<string>, dist: Distance, trip: Trip)
    requires TripOf(cities, total, start, dist, trip) && TwoDaysEach(cities, total)
    ensures Sum(Lengths(trip)) == 4
  {
    OrderReorders(cities, start);
    assert |multiset(trip.order)| == |multiset(Countries(cities))|;
    forall k | 0 <= k < |trip.order| ensures Lengths(trip)[k] == 2 {
      var j := ShareOfCountry(cities, total, start, dist, trip, k);
    }
    SumConstant(Lengths(trip), 2);
  }
}
