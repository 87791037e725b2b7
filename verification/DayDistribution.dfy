/**
  `_distribute_days_among_cities` of both multi-city optimizers: a dictionary of weights by city name,
  a dictionary of shares, and a correction of the heaviest entry.
 */
module DayDistribution {
  import opened Sequences
  import opened Cities
  import opened Apportionment

  /** The names that services/multi_city_optimizer.py:389 recognises after `lower()`. */
  const KNOWN := {"paris", "london", "rome", "berlin", "madrid"}

  function LowerChar(c: char): char {
    if 'A' <= c <= 'Z' then c - 'A' + 'a' else c
  }

  function Lower(s: string): string {
    seq(|s|, i requires 0 <= i < |s| => LowerChar(s[i]))
  }

  /**
    A city's weight: its points of interest, or 1 without any.  With the bonus a known name counts
    1.5 times; those weights are kept doubled so that they stay whole (see ScalingKeepsShares).
   */
  function Weight(city: City, bonus: bool): (w: nat)
    ensures w > 0
  {
    var w := if city.pois == [] then 1 else |city.pois|;
    if !bonus then w else if Lower(city.name) in KNOWN then 3 * w else 2 * w
  }

  /** The keys of the weight dictionary in the order of first insertion. */
  function Keys(cities: seq<City>): (keys: seq<string>)
    ensures Distinct(keys)
    ensures forall name :: name in keys <==> exists i | 0 <= i < |cities| :: cities[i].name == name
    ensures cities != [] ==> keys != []
  {
    if cities == [] then []
    else
      var keys, name := Keys(cities[..|cities| - 1]), cities[|cities| - 1].name;
      assert cities == cities[..|cities| - 1] + [cities[|cities| - 1]];
      if name in keys then keys else keys + [name]
  }

  /** The value the dictionary holds for a name: the weight of the last city that has it. */
  function WeightOf(cities: seq<City>, name: string, bonus: bool): (w: nat)
    requires exists i | 0 <= i < |cities| :: cities[i].name == name
    ensures w > 0
  {
    var last := cities[|cities| - 1];
    if last.name == name then Weight(last, bonus)
    else
      var init := cities[..|cities| - 1];
      assert forall i | 0 <= i < |cities| && i != |init| :: cities[i] == init[i];
      WeightOf(init, name, bonus)
  }

  /** Of several cities of one name the last counts. */
  lemma {:induction false} LastOfNameCounts(cities: seq<City>, i: nat, bonus: bool)
    requires i < |cities| && forall j | i < j < |cities| :: cities[j].name != cities[i].name
    ensures WeightOf(cities, cities[i].name, bonus) == Weight(cities[i], bonus)
    decreases |cities|
  {
    if i < |cities| - 1 {
      LastOfNameCounts(cities[..|cities| - 1], i, bonus);
    }
  }

  function Weights(cities: seq<City>, bonus: bool): (ws: seq<nat>)
    ensures |ws| == |Keys(cities)| && Positive(ws)
    ensures forall k | 0 <= k < |ws| :: Keys(cities)[k] in Keys(cities) && ws[k] == WeightOf(cities, Keys(cities)[k], bonus)
  {
    var keys := Keys(cities);
    seq(|keys|, k requires 0 <= k < |keys| => assert keys[k] in keys; WeightOf(cities, keys[k], bonus))
  }

  /** With distinct names the dictionary lists the cities themselves. */
  lemma {:induction false} DistinctKeys(cities: seq<City>)
    requires Distinct(NamesOf(cities))
    ensures Keys(cities) == NamesOf(cities)
  {
    if cities != [] {
      var init, last := cities[..|cities| - 1], cities[|cities| - 1];
      assert NamesOf(init) == NamesOf(cities)[..|init|];
      DistinctKeys(init);
      forall i | 0 <= i < |init| ensures init[i].name != last.name {
        assert NamesOf(cities)[i] != NamesOf(cities)[|init|];
      }
    }
  }

  lemma {:induction false} WeightOfCity(cities: seq<City>, i: nat, bonus: bool)
    requires Distinct(NamesOf(cities)) && i < |cities|
    ensures WeightOf(cities, cities[i].name, bonus) == Weight(cities[i], bonus)
  {
    var init := cities[..|cities| - 1];
    if i < |init| {
      assert NamesOf(init) == NamesOf(cities)[..|init|];
      assert NamesOf(cities)[i] != NamesOf(cities)[|init|];
      WeightOfCity(init, i, bonus);
    }
  }

  /** With distinct names every city has its own weight. */
  lemma DistinctWeights(cities: seq<City>, i: nat, bonus: bool)
    requires Distinct(NamesOf(cities)) && i < |cities|
    ensures i < |Weights(cities, bonus)| && Weights(cities, bonus)[i] == Weight(cities[i], bonus)
  {
    DistinctKeys(cities);
    assert Keys(cities)[i] == cities[i].name;
    WeightOfCity(cities, i, bonus);
  }

  /** The dictionary of weights, as its keys in order and its values. */
  method CollectWeights(cities: seq<City>, bonus: bool) returns (names: seq<string>, weights: map<string, nat>)
    ensures names == Keys(cities) && weights.Keys == set name | name in names
    ensures forall k | 0 <= k < |names| :: names[k] in weights && weights[names[k]] == Weights(cities, bonus)[k]
  {
    names, weights := [], map[];
    for i := 0 to |cities|
      invariant names == Keys(cities[..i])
      invariant weights.Keys == set name | name in names
      invariant forall name | name in names :: weights[name] == WeightOf(cities[..i], name, bonus)
    {
      assert cities[..i + 1][..i] == cities[..i];
      if cities[i].name !in weights {
        names := names + [cities[i].name];
      }
      weights := weights[cities[i].name := Weight(cities[i], bonus)];
    }
    assert cities[..|cities|] == cities;
    assert forall k | 0 <= k < |names| :: names[k] in names;
  }

  /** `sum(d.values())`, over a dictionary with the given keys. */
  method SumValues(names: seq<string>, d: map<string, int>, ghost values: seq<int>) returns (total: int)
    requires |values| == |names|
    requires forall k | 0 <= k < |names| :: names[k] in d && d[names[k]] == values[k]
    ensures total == Sum(values)
  {
    total := 0;
    for k := 0 to |names|
      invariant total == Sum(values[..k])
    {
      total := total + d[names[k]];
      assert values[..k + 1][..k] == values[..k];
    }
    assert values[..|names|] == values;
  }

  /** `max(weights.keys(), key=...)`: the position of the first key with the largest weight. */
  method HeaviestKey(names: seq<string>, weights: map<string, nat>, ghost ws: seq<nat>) returns (top: nat)
    requires names != [] && |ws| == |names|
    requires forall k | 0 <= k < |names| :: names[k] in weights && weights[names[k]] == ws[k]
    ensures top == Top(ws)
  {
    top := 0;
    for k := 1 to |names|
      invariant top < k
      invariant forall j | 0 <= j < k :: ws[j] <= ws[top]
      invariant forall j | 0 <= j < top :: ws[j] < ws[top]
    {
      if weights[names[k]] > weights[names[top]] {
        top := k;
      }
    }
    TopIsUnique(ws, top, Top(ws));
  }

  method ProportionalDays(names: seq<string>, weights: map<string, nat>, ghost ws: seq<nat>, total: nat, totalDays: int)
      returns (days: map<string, int>)
    requires Distinct(names) && |ws| == |names| && total > 0
    requires forall k | 0 <= k < |names| :: names[k] in weights && weights[names[k]] == ws[k]
    ensures days.Keys == set name | name in names
    ensures forall k | 0 <= k < |names| :: names[k] in days && days[names[k]] == Share(ws[k], total, totalDays)
  {
    days := map[];
    for k := 0 to |names|
      invariant days.Keys == set name | name in names[..k]
      invariant forall j | 0 <= j < k :: names[j] in days && days[names[j]] == Share(ws[j], total, totalDays)
    {
      days := days[names[k] := Share(weights[names[k]], total, totalDays)];
    }
    assert names[..|names|] == names;
  }

  /** Every name has its apportioned days: the shares, with the first heaviest city corrected. */
  ghost predicate Distributed(cities: seq<City>, totalDays: int, bonus: bool, days: map<string, int>) {
    && days.Keys == (set name | name in Keys(cities))
    && (cities != [] ==> forall k | 0 <= k < |Keys(cities)| ::
      Keys(cities)[k] in days && days[Keys(cities)[k]] == Apportion(Weights(cities, bonus), totalDays)[k])
  }

  method DistributeDaysAmongCities(cities: seq<City>, totalDays: int, bonus: bool) returns (days: map<string, int>)
    ensures Distributed(cities, totalDays, bonus, days)
  {
    if cities == [] {
      return map[];
    }
    var names, weights := CollectWeights(cities, bonus);
    ghost var ws := Weights(cities, bonus);
    PositiveSum(ws);
    var total := SumValues(names, weights, ws);
    days := ProportionalDays(names, weights, ws, total, totalDays);
    var actual := SumValues(names, days, Shares(ws, total, totalDays));
    var top := HeaviestKey(names, weights, ws);
    if actual != totalDays {
      days := Correct(names, days, top, totalDays - actual);
    }
    CorrectedShares(cities, totalDays, bonus, days);
  }

  /** The shares, with what is missing added to the top one, are the apportionment. */
  lemma CorrectedShares(cities: seq<City>, totalDays: int, bonus: bool, days: map<string, int>)
    requires cities != [] && days.Keys == set name | name in Keys(cities)
    requires Sum(Weights(cities, bonus)) > 0 && forall k | 0 <= k < |Keys(cities)| :: Keys(cities)[k] in days
    requires var ws := Weights(cities, bonus);
      forall k | 0 <= k < |ws| :: days[Keys(cities)[k]] == Share(ws[k], Sum(ws), totalDays)
        + if k == Top(ws) then totalDays - Sum(Shares(ws, Sum(ws), totalDays)) else 0
    ensures Distributed(cities, totalDays, bonus, days)
  {
  }

  function Correct(names: seq<string>, days: map<string, int>, top: nat, extra: int): (corrected: map<string, int>)
    requires Distinct(names) && top < |names| && forall k | 0 <= k < |names| :: names[k] in days
    ensures corrected.Keys == days.Keys
    ensures forall k | 0 <= k < |names| :: corrected[names[k]] == days[names[k]] + (if k == top then extra else 0)
  {
    days[names[top] := days[names[top]] + extra]
  }

  /**
    `_distribute_days_among_countries`: shares without correction, so that the countries' days may
    miss the total, by less than one day a country (see SharesNearTotal).
   */
  method DistributeDaysAmongCountries(countries: seq<string>, weights: map<string, nat>, ghost ws: seq<nat>, totalDays: int)
      returns (days: map<string, int>)
    requires Distinct(countries) && |ws| == |countries| && Positive(ws)
    requires forall k | 0 <= k < |countries| :: countries[k] in weights && weights[countries[k]] == ws[k]
    ensures days.Keys == set name | name in countries
    ensures countries != [] ==> Sum(ws) > 0 && forall k | 0 <= k < |countries| ::
      countries[k] in days && days[countries[k]] == Share(ws[k], Sum(ws), totalDays)
  {
    PositiveSum(ws);
    var total := SumValues(countries, weights, ws);
    if countries == [] {
      return map[];
    }
    days := ProportionalDays(countries, weights, ws, total, totalDays);
  }
}
