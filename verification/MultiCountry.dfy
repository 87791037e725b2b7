/**
  Multi-country trips: services/multi_city_optimizer.py, `_optimize_intercity_hybrid` and
  `_optimize_multi_country`.  The solver call of a city raises, so that a city's points of interest are
  always distributed by the fallback.
 */
module MultiCountry {
  import opened Wrappers
  import opened Sequences
  import opened Sets
  import opened Cities
  import opened Apportionment
  import opened DayDistribution
  import opened DaySchedules
  import opened CitySequence
  import Itinerary

  /** A tour of some cities: their order, the days each gets, and what happens on each day. */
  datatype Tour = Tour(cities: seq<City>, days: map<string, int>, schedule: Schedule)

  /** A city's own schedule; here a city without points of interest fills no day. */
  function Stay(city: City, days: int): Schedule {
    if city.pois == [] then map[] else Sliced(city.pois, days)
  }

  function Stays(cities: seq<City>, ds: seq<int>): (stays: seq<Schedule>)
    requires |cities| == |ds|
    ensures |stays| == |cities| && forall i | 0 <= i < |cities| :: stays[i] == Stay(cities[i], ds[i])
  {
    seq(|cities|, i requires 0 <= i < |cities| => Stay(cities[i], ds[i]))
  }

  ghost predicate Named(sequence: seq<City>, days: map<string, int>) {
    forall i | 0 <= i < |sequence| :: sequence[i].name in days
  }

  /** A city with points of interest and no day makes the fallback divide by zero. */
  ghost predicate Divides(sequence: seq<City>, days: map<string, int>)
    requires Named(sequence, days)
  {
    var ds := Itinerary.DaysOf(sequence, days);
    exists i | 0 <= i < |sequence| :: sequence[i].pois != [] && ds[i] == 0
  }

  ghost predicate TourOf(cities: seq<City>, total: int, start: Option<string>, dist: Distance, tour: Tour) {
    && Sequenced(cities, start, dist, tour.cities)
    && Distributed(cities, total, true, tour.days)
    && Named(tour.cities, tour.days) && !Divides(tour.cities, tour.days)
    && var ds := Itinerary.DaysOf(tour.cities, tour.days);
       tour.schedule == Lay(Stays(tour.cities, ds), ds)
  }

  lemma SequenceIsNamed(cities: seq<City>, start: Option<string>, dist: Distance, sequence: seq<City>, total: int, days: map<string, int>)
    requires Sequenced(cities, start, dist, sequence) && Distributed(cities, total, true, days)
    ensures Named(sequence, days)
  {
    forall i | 0 <= i < |sequence| ensures sequence[i].name in days {
      MemberOfSequence(cities, start, dist, sequence, i);
      var j :| 0 <= j < |cities| && cities[j] == sequence[i];
      assert cities[j].name in Keys(cities);
    }
  }

  lemma MemberOfSequence(cities: seq<City>, start: Option<string>, dist: Distance, sequence: seq<City>, i: nat)
    requires Sequenced(cities, start, dist, sequence) && i < |sequence|
    ensures sequence[i] in cities
  {
    SequenceVisits(cities, start, dist, sequence, sequence[i]);
  }

  // ---------- When the fallback divides by zero ----------

  /** The tour goes to a city of that name that has points of interest. */
  predicate NeedsDay(cities: seq<City>, start: Option<string>, name: string) {
    exists i | 0 <= i < |cities| :: Visited(cities, start, i) && cities[i].name == name && cities[i].pois != []
  }

  /**
    What makes a tour fail: the shares of the other names take all days asked for, and the tour goes to a city
    of the heaviest name that has points of interest.
   */
  predicate Fails(cities: seq<City>, total: int, start: Option<string>) {
    cities != [] &&
    var ws := Weights(cities, true);
    OthersTotal(ws, total) == total && NeedsDay(cities, start, Keys(cities)[Top(ws)])
  }

  lemma ZeroOnTopOnly(ws: seq<nat>, total: int, k: nat)
    requires ws != [] && Positive(ws) && k < |ws|
    ensures Apportion(ws, total)[k] == 0 <==> k == Top(ws) && OthersTotal(ws, total) == total
  {
    PositiveSum(ws);
    ApportionSums(ws, total);
  }

  lemma DayOfName(cities: seq<City>, total: int, days: map<string, int>, name: string)
    requires Distributed(cities, total, true, days) && name in days
    ensures cities != []
    ensures var ws := Weights(cities, true);
      days[name] == 0 <==> name == Keys(cities)[Top(ws)] && OthersTotal(ws, total) == total
  {
    assert name in Keys(cities);
    var k :| 0 <= k < |Keys(cities)| && Keys(cities)[k] == name;
    ZeroOnTopOnly(Weights(cities, true), total, k);
  }

  /** On the days computed, the fallback divides by zero exactly if the request is one that fails. */
  lemma DividesIff(cities: seq<City>, total: int, start: Option<string>, dist: Distance, sequence: seq<City>, days: map<string, int>)
    requires Sequenced(cities, start, dist, sequence) && Distributed(cities, total, true, days) && Named(sequence, days)
    ensures Divides(sequence, days) <==> Fails(cities, total, start)
  {
    if Divides(sequence, days) {
      var i :| 0 <= i < |sequence| && sequence[i].pois != [] && Itinerary.DaysOf(sequence, days)[i] == 0;
      DayOfName(cities, total, days, sequence[i].name);
      SequenceVisits(cities, start, dist, sequence, sequence[i]);
      var j :| 0 <= j < |cities| && Visited(cities, start, j) && cities[j] == sequence[i];
    }
    if Fails(cities, total, start) {
      var name := Keys(cities)[Top(Weights(cities, true))];
      var j :| 0 <= j < |cities| && Visited(cities, start, j) && cities[j].name == name && cities[j].pois != [];
      SequenceVisits(cities, start, dist, sequence, cities[j]);
      var i :| 0 <= i < |sequence| && sequence[i] == cities[j];
      DayOfName(cities, total, days, name);
    }
  }

  /** With distinct names: the others take all days, and the heaviest city has points of interest. */
  lemma DistinctFailsIff(cities: seq<City>, total: int, start: Option<string>)
    requires cities != [] && Distinct(NamesOf(cities))
    ensures |Weights(cities, true)| == |cities|
    ensures var ws := Weights(cities, true);
      Fails(cities, total, start) <==> OthersTotal(ws, total) == total && cities[Top(ws)].pois != []
  {
    DistinctKeys(cities);
    var top := Top(Weights(cities, true));
    assert Keys(cities)[top] == cities[top].name;
    AllVisited(cities, start, top);
    forall i | 0 <= i < |cities| && cities[i].name == cities[top].name ensures i == top {
      assert NamesOf(cities)[i] == NamesOf(cities)[top];
    }
  }

  lemma AllVisited(cities: seq<City>, start: Option<string>, i: nat)
    requires Distinct(NamesOf(cities)) && i < |cities|
    ensures Visited(cities, start, i)
  {
    assert i != StartAt(cities, start) ==> NamesOf(cities)[i] != NamesOf(cities)[StartAt(cities, start)];
  }

  /**
    The smallest kind of input that fails: four equal cities and 6 days.  Three of them get 2 days each, and
    none is left for the first.
   */
  lemma FourEqualCitiesFail(cities: seq<City>, start: Option<string>, w: nat)
    requires |cities| == 4 && Distinct(NamesOf(cities)) && cities[0].pois != []
    requires forall i | 0 <= i < 4 :: Weight(cities[i], true) == w
    ensures Fails(cities, 6, start)
  {
    var ws := Weights(cities, true);
    DistinctFailsIff(cities, 6, start);
    forall i | 0 <= i < 4 ensures ws[i] == w {
      DistinctWeights(cities, i, true);
    }
    EqualWeightsFail(ws, w);
  }

  lemma EqualWeightsFail(ws: seq<nat>, w: nat)
    requires |ws| == 4 && Positive(ws) && forall i | 0 <= i < 4 :: ws[i] == w
    ensures Top(ws) == 0 && OthersTotal(ws, 6) == 6
  {
    assert ws[0] > 0 && IsTop(ws, 0);
    TopIsUnique(ws, Top(ws), 0);
    SumConstant(ws, w);
    TwoOfSix(w);
    var others := Without(Shares(ws, Sum(ws), 6), 0);
    assert forall i | 0 <= i < |others| :: others[i] == 2;
    SumConstant(others, 2);
  }

  /** A quarter of 6 days is rounded up to 2. */
  lemma TwoOfSix(w: nat)
    requires w > 0
    ensures Share(w, 4 * w, 6) == 2
  {
    ScalingKeepsShares(w, 1, 4, 6);
    RoundingIsUnique(6, 4, 2);
    assert w * 1 == w && w * 4 == 4 * w;
  }

  method OptimizeIntercityHybrid(cities: seq<City>, total: int, start: Option<string>, dist: Distance)
      returns (sequence: seq<City>, days: map<string, int>, tour: Result<Tour, Failure>)
    ensures Sequenced(cities, start, dist, sequence) && Distributed(cities, total, true, days) && Named(sequence, days)
    ensures tour.Err? <==> Fails(cities, total, start)
    ensures tour.Ok? ==> tour.value.cities == sequence && tour.value.days == days && TourOf(cities, total, start, dist, tour.value)
  {
    sequence := FindOptimalCitySequence(cities, start, dist);
    days := DistributeDaysAmongCities(cities, total, true);
    SequenceIsNamed(cities, start, dist, sequence, total, days);
    DividesIff(cities, total, start, dist, sequence, days);
    var schedule := LayOutDays(sequence, Itinerary.DaysOf(sequence, days));
    tour := if schedule.Ok? then Ok(Tour(sequence, days, schedule.value)) else Err(schedule.error);
  }

  method AddStay(before: Schedule, currentDay: int, city: City, cityDays: int) returns (result: Result<Schedule, Failure>)
    ensures result == if city.pois != [] && cityDays == 0 then Err(ZeroDivision)
                      else Ok(before + Shift(Stay(city, cityDays), currentDay - 1))
  {
    if city.pois == [] {
      assert before + Shift(map[], currentDay - 1) == before;
      return Ok(before);
    }
    var citySchedule := DailyDistribution(city.pois, cityDays);
    if citySchedule.Err? {
      return citySchedule;
    }
    var schedule := Itinerary.PutDays(before, currentDay, cityDays, citySchedule.value, city.pois);
    return Ok(schedule);
  }

  method LayOutDays(sequence: seq<City>, ds: seq<int>) returns (result: Result<Schedule, Failure>)
    requires |ds| == |sequence|
    ensures result.Err? <==> exists i | 0 <= i < |sequence| :: sequence[i].pois != [] && ds[i] == 0
    ensures result.Ok? ==> result.value == Lay(Stays(sequence, ds), ds)
  {
    ghost var stays := Stays(sequence, ds);
    var schedule: Schedule := map[];
    var currentDay := 1;
    for i := 0 to |sequence|
      invariant currentDay == StartOf(ds, i)
      invariant schedule == LayFirst(stays, ds, i)
      invariant forall j | 0 <= j < i :: sequence[j].pois == [] || ds[j] != 0
    {
      var longer := AddStay(schedule, currentDay, sequence[i], ds[i]);
      if longer.Err? {
        return longer;
      }
      schedule := longer.value;
      currentDay := currentDay + ds[i];
    }
    return Ok(schedule);
  }

  // ---------- Countries ----------

  function InCountry(cities: seq<City>, country: string): seq<City> {
    if cities == [] then []
    else
      var last := cities[|cities| - 1];
      InCountry(cities[..|cities| - 1], country) + (if last.country == country then [last] else [])
  }

  /** The countries in the order of first appearance. */
  function Countries(cities: seq<City>): (countries: seq<string>)
    ensures Distinct(countries)
  {
    if cities == [] then []
    else
      var before, country := Countries(cities[..|cities| - 1]), cities[|cities| - 1].country;
      if country in before then before else before + [country]
  }

  /** A country's cities come in the order of the request, and the countries in the order in which they first appear. */
  lemma {:induction false} OrderIsKept(a: seq<City>, b: seq<City>, country: string)
    ensures InCountry(a + b, country) == InCountry(a, country) + InCountry(b, country)
    ensures Countries(a) <= Countries(a + b)
    decreases |b|
  {
    if b == [] {
      assert a + b == a;
    } else {
      OrderIsKept(a, b[..|b| - 1], country);
      assert (a + b)[..|a + b| - 1] == a + b[..|b| - 1];
    }
  }

  function OrderWith(order: seq<string>, country: string): seq<string> {
    if country in order then order else order + [country]
  }

  function GroupsWith(groups: map<string, seq<City>>, city: City): map<string, seq<City>> {
    groups[city.country := (if city.country in groups then groups[city.country] else []) + [city]]
  }

  ghost predicate Grouped(cities: seq<City>, order: seq<string>, groups: map<string, seq<City>>) {
    forall country :: GroupedAt(cities, order, groups, country)
  }

  ghost predicate GroupedAt(cities: seq<City>, order: seq<string>, groups: map<string, seq<City>>, country: string) {
    && (country in groups <==> country in order)
    && InCountry(cities, country) == if country in groups then groups[country] else []
  }

  lemma OneMoreGroupedAt(cities: seq<City>, last: City, order: seq<string>, groups: map<string, seq<City>>, country: string)
    requires GroupedAt(cities, order, groups, country) && GroupedAt(cities, order, groups, last.country)
    ensures GroupedAt(cities + [last], OrderWith(order, last.country), GroupsWith(groups, last), country)
  {
    assert (cities + [last])[..|cities|] == cities;
    assert country in order + [last.country] <==> country in order || country == last.country;
  }

  lemma OneMoreGrouped(cities: seq<City>, last: City, order: seq<string>, groups: map<string, seq<City>>)
    requires order == Countries(cities) && Grouped(cities, order, groups)
    ensures OrderWith(order, last.country) == Countries(cities + [last])
    ensures Grouped(cities + [last], OrderWith(order, last.country), GroupsWith(groups, last))
  {
    assert (cities + [last])[..|cities|] == cities;
    assert GroupedAt(cities, order, groups, last.country);
    forall country ensures GroupedAt(cities + [last], OrderWith(order, last.country), GroupsWith(groups, last), country) {
      assert GroupedAt(cities, order, groups, country);
      OneMoreGroupedAt(cities, last, order, groups, country);
    }
  }

  method AddToGroup(ghost cities: seq<City>, order: seq<string>, groups: map<string, seq<City>>, city: City)
      returns (order': seq<string>, groups': map<string, seq<City>>)
    requires GroupedAt(cities, order, groups, city.country)
    ensures order' == OrderWith(order, city.country) && groups' == GroupsWith(groups, city)
  {
    order', groups' := order, groups;
    if city.country !in groups' {
      order' := order' + [city.country];
      groups' := groups'[city.country := []];
    }
    groups' := groups'[city.country := groups'[city.country] + [city]];
  }

  /** The dictionary holds the group of every country listed. */
  ghost predicate GroupsOf(cities: seq<City>, order: seq<string>, groups: map<string, seq<City>>) {
    forall k | 0 <= k < |order| :: order[k] in groups && groups[order[k]] == InCountry(cities, order[k])
  }

  lemma GroupedIsListed(cities: seq<City>, order: seq<string>, groups: map<string, seq<City>>)
    requires Grouped(cities, order, groups)
    ensures GroupsOf(cities, order, groups) && forall country | country in groups :: country in order
  {
    forall country ensures country in groups ==> country in order {
      assert GroupedAt(cities, order, groups, country);
    }
    forall k | 0 <= k < |order| ensures order[k] in groups && groups[order[k]] == InCountry(cities, order[k]) {
      assert GroupedAt(cities, order, groups, order[k]);
    }
  }

  method GroupCitiesByCountry(cities: seq<City>) returns (order: seq<string>, groups: map<string, seq<City>>)
    ensures order == Countries(cities) && GroupsOf(cities, order, groups) && forall country | country in groups :: country in order
  {
    order, groups := [], map[];
    for i := 0 to |cities|
      invariant order == Countries(cities[..i]) && Grouped(cities[..i], order, groups)
    {
      assert cities[..i + 1] == cities[..i] + [cities[i]];
      assert GroupedAt(cities[..i], order, groups, cities[i].country);
      OneMoreGrouped(cities[..i], cities[i], order, groups);
      order, groups := AddToGroup(cities[..i], order, groups, cities[i]);
    }
    assert cities[..|cities|] == cities;
    GroupedIsListed(cities, order, groups);
  }

  function Groups(cities: seq<City>, order: seq<string>): (groups: seq<seq<City>>)
    ensures |groups| == |order| && forall k | 0 <= k < |order| :: groups[k] == InCountry(cities, order[k])
  {
    seq(|order|, k requires 0 <= k < |order| => InCountry(cities, order[k]))
  }

  lemma {:induction false} InCountryIsHomogeneous(cities: seq<City>, country: string)
    ensures forall i | 0 <= i < |InCountry(cities, country)| :: InCountry(cities, country)[i].country == country
  {
    if cities != [] {
      InCountryIsHomogeneous(cities[..|cities| - 1], country);
    }
  }

  /** The groups of the countries partition the cities: each city is in the group of its country, once. */
  lemma {:induction false} GroupsPartition(cities: seq<City>, order: seq<string>)
    requires Distinct(order) && forall i | 0 <= i < |cities| :: cities[i].country in order
    ensures multiset(Flatten(Groups(cities, order))) == multiset(cities)
  {
    if cities == [] {
      NoCities(order);
    } else {
      var init, last := cities[..|cities| - 1], cities[|cities| - 1];
      GroupsPartition(init, order);
      assert cities == init + [last];
      OneMoreCity(init, last, order);
    }
  }

  lemma OneMoreCity(init: seq<City>, last: City, order: seq<string>)
    requires Distinct(order) && last.country in order && multiset(Flatten(Groups(init, order))) == multiset(init)
    ensures multiset(Flatten(Groups(init + [last], order))) == multiset(init + [last])
  {
    var k :| 0 <= k < |order| && order[k] == last.country;
    assert (init + [last])[..|init|] == init;
    GroupsOneMore(init + [last], order, k);
  }

  lemma GroupsOneMore(cities: seq<City>, order: seq<string>, k: nat)
    requires cities != [] && Distinct(order) && k < |order| && order[k] == cities[|cities| - 1].country
    ensures var init, last := cities[..|cities| - 1], cities[|cities| - 1];
      multiset(Flatten(Groups(cities, order))) == multiset(Flatten(Groups(init, order))) + multiset{last}
  {
    var init, last := cities[..|cities| - 1], cities[|cities| - 1];
    forall j | 0 <= j < |order|
      ensures Groups(cities, order)[j] == if j == k then Groups(init, order)[j] + [last] else Groups(init, order)[j]
    {
      assert InCountry(cities, order[j]) == InCountry(init, order[j]) + if j == k then [last] else [];
    }
    GroupGains(Groups(init, order), Groups(cities, order), k, last);
  }

  lemma GroupGains(before: seq<seq<City>>, after: seq<seq<City>>, k: nat, city: City)
    requires |before| == |after| && k < |before|
    requires forall j | 0 <= j < |before| :: after[j] == if j == k then before[j] + [city] else before[j]
    ensures multiset(Flatten(after)) == multiset(Flatten(before)) + multiset{city}
  {
    assert after == before[..k] + [before[k] + [city]] + before[k + 1..];
    assert before == before[..k] + [before[k]] + before[k + 1..];
    FlattenOneLonger(before[..k], before[k], city, before[k + 1..]);
  }

  lemma {:induction false} NoCities(order: seq<string>)
    ensures Flatten(Groups([], order)) == []
  {
    if order != [] {
      NoCities(order[..|order| - 1]);
      assert Groups([], order)[..|order| - 1] == Groups([], order[..|order| - 1]);
    }
  }

  lemma FlattenOneLonger(a: seq<seq<City>>, s: seq<City>, city: City, b: seq<seq<City>>)
    ensures multiset(Flatten(a + [s + [city]] + b)) == multiset(Flatten(a + [s] + b)) + multiset{city}
  {
    FlattenAppend(a + [s + [city]], b);
    FlattenAppend(a + [s], b);
    assert (a + [s + [city]])[..|a|] == a && (a + [s])[..|a|] == a;
  }

  lemma {:induction false} CountriesListAll(cities: seq<City>)
    ensures forall i | 0 <= i < |cities| :: cities[i].country in Countries(cities)
  {
    if cities != [] {
      CountriesListAll(cities[..|cities| - 1]);
    }
  }

  predicate HasCity(cities: seq<City>, name: string) {
    exists i | 0 <= i < |cities| :: cities[i].name == name
  }

  /** The position of the first country that has a city of the name, or the number of countries. */
  function FirstWith(cities: seq<City>, order: seq<string>, name: string): (k: nat)
    ensures IsFirstWith(cities, order, name, k)
  {
    if order == [] then 0
    else if HasCity(InCountry(cities, order[0]), name) then 0
    else 1 + FirstWith(cities, order[1..], name)
  }

  predicate IsFirstWith(cities: seq<City>, order: seq<string>, name: string, k: nat) {
    && k <= |order| && (k < |order| ==> HasCity(InCountry(cities, order[k]), name))
    && forall j | 0 <= j < k :: !HasCity(InCountry(cities, order[j]), name)
  }

  lemma FirstIsUnique(cities: seq<City>, order: seq<string>, name: string, k: nat)
    requires IsFirstWith(cities, order, name, k)
    ensures FirstWith(cities, order, name) == k
  {
    var j := FirstWith(cities, order, name);
    assert IsFirstWith(cities, order, name, j);
  }

  /** The order of first appearance, but the first country that has the start city comes first. */
  function CountryOrder(cities: seq<City>, start: Option<string>): seq<string> {
    var order := Countries(cities);
    if start.None? || start.value == "" then order
    else
      var k := FirstWith(cities, order, start.value);
      if k < |order| then [order[k]] + Without(order, k) else order
  }

  lemma MovedToFront(order: seq<string>, k: nat)
    requires Distinct(order) && k < |order|
    ensures Distinct([order[k]] + Without(order, k))
    ensures multiset([order[k]] + Without(order, k)) == multiset(order)
  {
    MultisetSplits(order, k);
  }

  lemma OrderReorders(cities: seq<City>, start: Option<string>)
    ensures multiset(CountryOrder(cities, start)) == multiset(Countries(cities)) && Distinct(CountryOrder(cities, start))
  {
    var order := Countries(cities);
    if start.Some? && start.value != "" {
      var k := FirstWith(cities, order, start.value);
      if k < |order| {
        MovedToFront(order, k);
      }
    }
  }

  method OptimizeCountrySequence(ghost cities: seq<City>, order: seq<string>, groups: map<string, seq<City>>, start: Option<string>)
      returns (sequence: seq<string>)
    requires order == Countries(cities) && GroupsOf(cities, order, groups)
    ensures sequence == CountryOrder(cities, start)
    ensures multiset(sequence) == multiset(order) && Distinct(sequence)
  {
    OrderReorders(cities, start);
    if |order| > 1 && start.Some? && start.value != "" {
      var k := FindCountryOf(cities, order, groups, start.value);
      FirstIsUnique(cities, order, start.value, k);
      if k < |order| {
        return [order[k]] + Without(order, k);
      }
    }
    return order;
  }

  method FindCountryOf(ghost cities: seq<City>, order: seq<string>, groups: map<string, seq<City>>, name: string) returns (k: nat)
    requires GroupsOf(cities, order, groups)
    ensures IsFirstWith(cities, order, name, k)
  {
    for i := 0 to |order|
      invariant forall j | 0 <= j < i :: !HasCity(InCountry(cities, order[j]), name)
    {
      if HasCity(groups[order[i]], name) {
        return i;
      }
    }
    return |order|;
  }

  /** A country's weight: the points of interest of its cities, at least 1. */
  function CountryWeight(cities: seq<City>): (w: nat)
    ensures w > 0
  {
    var n := |Flatten(PoisOf(cities))|;
    if n < 1 then 1 else n
  }

  method WeighCountry(cities: seq<City>) returns (weight: nat)
    ensures weight == CountryWeight(cities)
  {
    weight := 0;
    for i := 0 to |cities|
      invariant weight == |Flatten(PoisOf(cities)[..i])|
    {
      weight := weight + |cities[i].pois|;
      assert PoisOf(cities)[..i + 1][..i] == PoisOf(cities)[..i];
    }
    assert PoisOf(cities)[..|cities|] == PoisOf(cities);
    if weight < 1 {
      weight := 1;
    }
  }

  function CountryWeights(cities: seq<City>, order: seq<string>): (ws: seq<nat>)
    ensures |ws| == |order| && Positive(ws)
    ensures forall k | 0 <= k < |order| :: ws[k] == CountryWeight(InCountry(cities, order[k]))
  {
    seq(|order|, k requires 0 <= k < |order| => CountryWeight(InCountry(cities, order[k])))
  }

  /** Every country's days: its uncorrected share. */
  ghost predicate CountryDays(cities: seq<City>, order: seq<string>, total: int, days: map<string, int>) {
    var ws := CountryWeights(cities, order);
    && days.Keys == (set country | country in order)
    && (order != [] ==> Sum(ws) > 0 && forall k | 0 <= k < |order| ::
      order[k] in days && days[order[k]] == Share(ws[k], Sum(ws), total))
  }

  method DistributeAmongCountries(ghost cities: seq<City>, order: seq<string>, groups: map<string, seq<City>>, total: int)
      returns (days: map<string, int>)
    requires Distinct(order)
    requires GroupsOf(cities, order, groups)
    ensures CountryDays(cities, order, total, days)
  {
    ghost var ws := CountryWeights(cities, order);
    var weights: map<string, nat> := map[];
    for k := 0 to |order|
      invariant forall j | 0 <= j < k :: order[j] in weights && weights[order[j]] == ws[j]
    {
      var weight := WeighCountry(groups[order[k]]);
      weights := weights[order[k] := weight];
    }
    days := DistributeDaysAmongCountries(order, weights, ws, total);
  }

  /** A merged trip: the countries in order with the days and the tour of each, and the whole schedule. */
  datatype Trip = Trip(order: seq<string>, days: map<string, int>, tours: seq<Tour>, cities: seq<City>, schedule: Schedule)

  function Schedules(tours: seq<Tour>): (schedules: seq<Schedule>)
    ensures |schedules| == |tours| && forall k | 0 <= k < |tours| :: schedules[k] == tours[k].schedule
  {
    seq(|tours|, k requires 0 <= k < |tours| => tours[k].schedule)
  }

  function ToursCities(tours: seq<Tour>): (cities: seq<seq<City>>)
    ensures |cities| == |tours| && forall k | 0 <= k < |tours| :: cities[k] == tours[k].cities
  {
    seq(|tours|, k requires 0 <= k < |tours| => tours[k].cities)
  }

  ghost predicate Toured(cities: seq<City>, dist: Distance, order: seq<string>, lengths: seq<int>, tours: seq<Tour>, k: nat) {
    && |tours| == k <= |order| == |lengths|
    && forall j | 0 <= j < k :: TourOf(InCountry(cities, order[j]), lengths[j], None, dist, tours[j])
  }

  ghost predicate TripOf(cities: seq<City>, total: int, start: Option<string>, dist: Distance, trip: Trip) {
    && trip.order == CountryOrder(cities, start)
    && CountryDays(cities, Countries(cities), total, trip.days)
    && (forall k | 0 <= k < |trip.order| :: trip.order[k] in trip.days)
    && Toured(cities, dist, trip.order, Lookup(trip.order, trip.days), trip.tours, |trip.order|)
    && trip.cities == Flatten(ToursCities(trip.tours))
    && trip.schedule == Lay(Schedules(trip.tours), Lookup(trip.order, trip.days))
  }

  /** The days of the k-th country: its share of the total, in proportion to its points of interest. */
  function CountryShare(cities: seq<City>, total: int, k: nat): (days: int)
    requires k < |Countries(cities)|
    ensures days >= 1
  {
    var ws := CountryWeights(cities, Countries(cities));
    PositiveSum(ws);
    Share(ws[k], Sum(ws), total)
  }

  /** The tour of some country, with the days that country gets, divides by zero. */
  predicate TripFails(cities: seq<City>, total: int) {
    exists k | 0 <= k < |Countries(cities)| :: Fails(InCountry(cities, Countries(cities)[k]), CountryShare(cities, total, k), None)
  }

  /** On the trip's own order and days, some country's tour fails exactly if the request is one that fails. */
  lemma SomeTourFailsIff(cities: seq<City>, total: int, order: seq<string>, days: map<string, int>)
    requires CountryDays(cities, Countries(cities), total, days) && multiset(order) == multiset(Countries(cities))
    requires forall k | 0 <= k < |order| :: order[k] in days
    ensures (exists k | 0 <= k < |order| :: Fails(InCountry(cities, order[k]), Lookup(order, days)[k], None)) <==> TripFails(cities, total)
  {
    var countries := Countries(cities);
    if k :| 0 <= k < |order| && Fails(InCountry(cities, order[k]), Lookup(order, days)[k], None) {
      assert order[k] in multiset(countries);
      var j := IndexOf(countries, order[k]);
      assert days[countries[j]] == CountryShare(cities, total, j);
    }
    if TripFails(cities, total) {
      var j :| 0 <= j < |countries| && Fails(InCountry(cities, countries[j]), CountryShare(cities, total, j), None);
      assert countries[j] in multiset(order);
      var k := IndexOf(order, countries[j]);
      assert Lookup(order, days)[k] == days[countries[j]] == CountryShare(cities, total, j);
    }
  }

  lemma {:induction false} OneCountry(cities: seq<City>, country: string)
    requires cities != [] && forall i | 0 <= i < |cities| :: cities[i].country == country
    ensures Countries(cities) == [country] && InCountry(cities, country) == cities
  {
    var init := cities[..|cities| - 1];
    if init != [] {
      OneCountry(init, country);
    }
    assert cities == init + [cities[|init|]];
  }

  /** A trip through four equal cities of one country fails for 6 days. */
  lemma FourCitiesOneCountryFail(cities: seq<City>, country: string, w: nat)
    requires |cities| == 4 && Distinct(NamesOf(cities)) && cities[0].pois != []
    requires forall i | 0 <= i < 4 :: cities[i].country == country && Weight(cities[i], true) == w
    ensures TripFails(cities, 6)
  {
    OneCountry(cities, country);
    FourEqualCitiesFail(cities, None, w);
    var v := CountryWeight(cities);
    assert CountryWeights(cities, [country]) == [v];
    assert [v][..0] == [] && Sum([v]) == v;
    RoundingIsUnique(v * 6, v, 6);
    assert CountryShare(cities, 6, 0) == 6;
    assert Fails(InCountry(cities, Countries(cities)[0]), 6, None);
  }

  lemma TouredOneMore(cities: seq<City>, dist: Distance, order: seq<string>, lengths: seq<int>, tours: seq<Tour>, k: nat, tour: Tour)
    requires Toured(cities, dist, order, lengths, tours, k) && k < |order|
    requires TourOf(InCountry(cities, order[k]), lengths[k], None, dist, tour)
    ensures Toured(cities, dist, order, lengths, tours + [tour], k + 1)
  {
  }

  method TourCountry(group: seq<City>, length: int, dist: Distance) returns (tour: Result<Tour, Failure>)
    ensures tour.Ok? ==> TourOf(group, length, None, dist, tour.value)
    ensures tour.Err? <==> Fails(group, length, None)
  {
    var sequence, cityDays;
    sequence, cityDays, tour := OptimizeIntercityHybrid(group, length, None, dist);
  }

  method TourCountries(cities: seq<City>, groups: map<string, seq<City>>, order: seq<string>, lengths: seq<int>, dist: Distance)
      returns (result: Result<seq<Tour>, Failure>)
    requires |order| == |lengths|
    requires GroupsOf(cities, order, groups)
    ensures result.Ok? ==> Toured(cities, dist, order, lengths, result.value, |order|)
    ensures result.Err? <==> exists k | 0 <= k < |order| :: Fails(InCountry(cities, order[k]), lengths[k], None)
  {
    var tours: seq<Tour> := [];
    for k := 0 to |order|
      invariant Toured(cities, dist, order, lengths, tours, k)
      invariant forall j | 0 <= j < k :: !Fails(InCountry(cities, order[j]), lengths[j], None)
    {
      var tour := TourCountry(groups[order[k]], lengths[k], dist);
      if tour.Err? {
        return Err(tour.error);
      }
      TouredOneMore(cities, dist, order, lengths, tours, k, tour.value);
      tours := tours + [tour.value];
    }
    return Ok(tours);
  }

  method MergeTours(tours: seq<Tour>, lengths: seq<int>) returns (all: seq<City>, schedule: Schedule)
    requires |tours| == |lengths|
    ensures all == Flatten(ToursCities(tours))
    ensures schedule == Lay(Schedules(tours), lengths)
  {
    all, schedule := [], map[];
    var currentDay := 1;
    for k := 0 to |tours|
      invariant currentDay == StartOf(lengths, k)
      invariant all == Flatten(ToursCities(tours)[..k])
      invariant schedule == LayFirst(Schedules(tours), lengths, k)
    {
      all := all + tours[k].cities;
      assert ToursCities(tours)[..k + 1][..k] == ToursCities(tours)[..k];
      schedule := MergeTour(schedule, currentDay, tours[k].schedule);
      currentDay := currentDay + lengths[k];
    }
    assert ToursCities(tours)[..|tours|] == ToursCities(tours);
  }

  lemma GroupsReordered(cities: seq<City>, countries: seq<string>, groups: map<string, seq<City>>, order: seq<string>)
    requires GroupsOf(cities, countries, groups) && multiset(order) == multiset(countries)
    ensures GroupsOf(cities, order, groups)
  {
    forall k | 0 <= k < |order| ensures order[k] in groups && groups[order[k]] == InCountry(cities, order[k]) {
      assert order[k] in multiset(countries);
      var j := IndexOf(countries, order[k]);
    }
  }

  method OptimizeMultiCountry(cities: seq<City>, total: int, start: Option<string>, dist: Distance)
      returns (result: Result<Trip, Failure>)
    ensures result.Ok? ==> TripOf(cities, total, start, dist, result.value)
    ensures result.Err? <==> TripFails(cities, total)
  {
    var countries, groups := GroupCitiesByCountry(cities);
    var order := OptimizeCountrySequence(cities, countries, groups, start);
    GroupsReordered(cities, countries, groups, order);
    var days := DistributeAmongCountries(cities, countries, groups, total);
    var lengths := Lookup(order, days);
    SomeTourFailsIff(cities, total, order, days);
    var tours := TourCountries(cities, groups, order, lengths, dist);
    if tours.Err? {
      return Err(tours.error);
    }
    var all, schedule := MergeTours(tours.value, lengths);
    return Ok(Trip(order, days, tours.value, all, schedule));
  }

  /** The days of a tour but for those left, put at their places. */
  ghost predicate MergedBut(before: Schedule, tour: Schedule, left: set<int>, offset: int, schedule: Schedule) {
    schedule == before + Shift(tour - left, offset)
  }

  lemma MergeNone(before: Schedule, tour: Schedule, offset: int)
    ensures MergedBut(before, tour, tour.Keys, offset, before)
  {
    assert (tour - tour.Keys).Keys == {};
  }

  lemma MergeAll(before: Schedule, tour: Schedule, left: set<int>, offset: int, schedule: Schedule)
    requires left == {} && MergedBut(before, tour, left, offset, schedule)
    ensures schedule == before + Shift(tour, offset)
  {
    assert tour - left == tour;
  }

  lemma MergeStep(before: Schedule, tour: Schedule, left: set<int>, day: int, offset: int, schedule: Schedule, at: int)
    requires left <= tour.Keys && day in left && at == day + offset && MergedBut(before, tour, left, offset, schedule)
    ensures MergedBut(before, tour, left - {day}, offset, schedule[at := tour[day]])
  {
    ShiftAdds(tour - left, offset, day, tour[day]);
    Itinerary.MergeAdds(before, Shift(tour - left, offset), at, tour[day]);
    assert (tour - left)[day := tour[day]] == tour - (left - {day});
  }

  /** Copies the days of a tour, which may come in any order, to their places in the trip. */
  method MergeTour(before: Schedule, currentDay: int, tour: Schedule) returns (schedule: Schedule)
    ensures schedule == before + Shift(tour, currentDay - 1)
  {
    schedule := before;
    var left := tour.Keys;
    MergeNone(before, tour, currentDay - 1);
    while left != {}
      invariant left <= tour.Keys && MergedBut(before, tour, left, currentDay - 1, schedule)
      decreases left
    {
      ghost var some := Pick(left);
      var day :| day in left;
      MergeStep(before, tour, left, day, currentDay - 1, schedule, currentDay + day - 1);
      schedule := schedule[currentDay + day - 1 := tour[day]];
      left := left - {day};
    }
    MergeAll(before, tour, left, currentDay - 1, schedule);
  }
}
