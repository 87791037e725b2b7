/**
  What `_distribute_days_among_cities` and `_distribute_days_among_countries` promise, told by points of interest:
  days follow exact quotas.
 */
module DayQuotas {
  import opened Sequences
  import opened Cities
  import opened Apportionment
  import opened DayDistribution
  import opened MultiCountry

  // ---------- Cities ----------

  /** The name is the word, in any letter case. */
  predicate Spells(name: string, word: string) {
    && |name| == |word|
    && forall i | 0 <= i < |word| ::
      name[i] == word[i] || ('A' <= name[i] <= 'Z' && name[i] as int + 32 == word[i] as int)
  }

  predicate IsKnown(name: string) {
    Spells(name, "paris") || Spells(name, "london") || Spells(name, "rome") || Spells(name, "berlin") || Spells(name, "madrid")
  }

  /** What a city counts: its points of interest, at least 1, and with the bonus half as much again for a known name. */
  function Worth(city: City, bonus: bool): (worth: real)
    ensures worth >= 1.0
  {
    var count := if |city.pois| >= 1 then |city.pois| as real else 1.0;
    if bonus && IsKnown(city.name) then 1.5 * count else count
  }

  function TotalWorth(cities: seq<City>, bonus: bool): (total: real)
    ensures total >= 0.0 && (cities != [] ==> total > 0.0)
  {
    if cities == [] then 0.0 else TotalWorth(cities[..|cities| - 1], bonus) + Worth(cities[|cities| - 1], bonus)
  }

  /** A part of the days in proportion to what counts. */
  function Part(totalDays: int, worth: real, all: real): real
    requires all > 0.0
  {
    totalDays as real * worth / all
  }

  /** The city's part of the days. */
  function Quota(cities: seq<City>, totalDays: int, bonus: bool, i: nat): real
    requires i < |cities|
  {
    Part(totalDays, Worth(cities[i], bonus), TotalWorth(cities, bonus))
  }

  /** At least 1, and else the quota to within one half. */
  predicate Rounded(days: int, quota: real) {
    days >= 1 && days as real >= quota - 0.5 && (days > 1 ==> days as real <= quota + 0.5)
  }

  predicate NearQuota(days: int, cities: seq<City>, totalDays: int, bonus: bool, i: nat)
    requires i < |cities|
  {
    Rounded(days, Quota(cities, totalDays, bonus, i))
  }

  /** Some other city counts more, or as much and comes before: the city is not the one that is corrected. */
  predicate IsOutweighed(cities: seq<City>, bonus: bool, i: nat)
    requires i < |cities|
  {
    || (exists j | 0 <= j < |cities| :: Worth(cities[j], bonus) > Worth(cities[i], bonus))
    || (exists j | 0 <= j < i :: Worth(cities[j], bonus) == Worth(cities[i], bonus))
  }

  predicate IsLowerCase(word: string) {
    forall i | 0 <= i < |word| :: 'a' <= word[i] <= 'z'
  }

  lemma LowerSpells(name: string, word: string)
    requires IsLowerCase(word)
    ensures Lower(name) == word <==> Spells(name, word)
  {
    if Lower(name) == word {
      forall i | 0 <= i < |word| ensures name[i] == word[i] || ('A' <= name[i] <= 'Z' && name[i] as int + 32 == word[i] as int) {
        assert Lower(name)[i] == LowerChar(name[i]);
      }
    }
  }

  lemma KnownIff(name: string)
    ensures Lower(name) in KNOWN <==> IsKnown(name)
  {
    LowerSpells(name, "paris");
    LowerSpells(name, "london");
    LowerSpells(name, "rome");
    LowerSpells(name, "berlin");
    LowerSpells(name, "madrid");
  }

  /** With the bonus the weights are doubled. */
  function Scale(bonus: bool): real {
    if bonus then 2.0 else 1.0
  }

  lemma WeightIsWorth(city: City, bonus: bool)
    ensures Weight(city, bonus) as real == Scale(bonus) * Worth(city, bonus)
  {
    KnownIff(city.name);
  }

  lemma {:induction false} SumIsTotalWorth(cities: seq<City>, ws: seq<nat>, bonus: bool)
    requires |ws| == |cities| && forall i | 0 <= i < |cities| :: ws[i] == Weight(cities[i], bonus)
    ensures Sum(ws) as real == Scale(bonus) * TotalWorth(cities, bonus)
  {
    if cities != [] {
      SumIsTotalWorth(cities[..|cities| - 1], ws[..|ws| - 1], bonus);
      WeightIsWorth(cities[|cities| - 1], bonus);
    }
  }

  lemma MulLess(a: real, b: real, d: real)
    requires a < b && d > 0.0
    ensures a * d < b * d
  {
  }

  lemma MulMinus(a: real, b: real, d: real)
    ensures (a - b) * d == a * d - b * d
  {
  }

  lemma MulAsReal(a: int, b: int)
    ensures (a * b) as real == a as real * b as real
  {
  }

  /** Rounded, without a division. */
  predicate IsNear(days: int, totalDays: int, worth: real, all: real) {
    var quota, given := totalDays as real * worth, days as real * all;
    days >= 1 && 2.0 * (quota - given) <= all && (days > 1 ==> 2.0 * (given - quota) <= all)
  }

  lemma ShareIsNear(w: nat, weight: nat, total: int)
    requires weight > 0
    ensures IsNear(Share(w, weight, total), total, w as real, weight as real)
  {
    var r, days := RoundHalfEven(w * total, weight), Share(w, weight, total);
    MulLe(r, days, weight);
    MulAsReal(w, total);
    MulAsReal(days, weight);
  }

  lemma MulOut(scale: real, a: real, b: real)
    ensures a * (scale * b) == scale * (a * b)
  {
  }

  lemma CancelScale(scale: real, x: real, y: real)
    requires scale > 0.0 && scale * x <= scale * y
    ensures x <= y
  {
    if x > y {
      MulLess(y, x, scale);
    }
  }

  /** Counting everything by another scale changes nothing. */
  lemma ScaleIsFree(days: int, totalDays: int, scale: real, worth: real, all: real)
    requires scale > 0.0
    ensures IsNear(days, totalDays, scale * worth, scale * all) ==> IsNear(days, totalDays, worth, all)
  {
    if IsNear(days, totalDays, scale * worth, scale * all) {
      var quota, given := totalDays as real * worth, days as real * all;
      MulOut(scale, totalDays as real, worth);
      MulOut(scale, days as real, all);
      CancelScale(scale, 2.0 * (quota - given), all);
      if days > 1 {
        CancelScale(scale, 2.0 * (given - quota), all);
      }
    }
  }

  lemma NotAboveHalf(n: real, q: real, d: real)
    requires d > 0.0 && 2.0 * (n - q * d) <= d
    ensures q >= n / d - 0.5
  {
    var x := n / d;
    assert x * d == n;
    if x - q > 0.5 {
      MulLess(0.5, x - q, d);
      MulMinus(x, q, d);
    }
  }

  lemma NotBelowHalf(n: real, q: real, d: real)
    requires d > 0.0 && 2.0 * (q * d - n) <= d
    ensures q <= n / d + 0.5
  {
    var x := n / d;
    assert x * d == n;
    if q - x > 0.5 {
      MulLess(0.5, q - x, d);
      MulMinus(q, x, d);
    }
  }

  lemma NearIsRounded(totalDays: int, worth: real, all: real)
    requires all > 0.0
    ensures forall days: int :: IsNear(days, totalDays, worth, all) ==> Rounded(days, Part(totalDays, worth, all))
  {
    forall days: int | IsNear(days, totalDays, worth, all) ensures Rounded(days, Part(totalDays, worth, all)) {
      NotAboveHalf(totalDays as real * worth, days as real, all);
      if days > 1 {
        NotBelowHalf(totalDays as real * worth, days as real, all);
      }
    }
  }

  lemma ShareIsRounded(w: nat, weight: nat, total: int, scale: real, worth: real, all: real)
    requires weight > 0 && all > 0.0 && scale > 0.0
    requires w as real == scale * worth && weight as real == scale * all
    ensures Rounded(Share(w, weight, total), Part(total, worth, all))
  {
    ShareIsNear(w, weight, total);
    ScaleIsFree(Share(w, weight, total), total, scale, worth, all);
    NearIsRounded(total, worth, all);
  }

  /** Whatever the scale they are counted by, shares follow the quotas. */
  lemma SharesAreRounded(total: int, scale: real, worth: real, all: real)
    requires all > 0.0 && scale > 0.0
    ensures forall w: nat, weight: nat :: weight > 0 && w as real == scale * worth && weight as real == scale * all ==>
      Rounded(Share(w, weight, total), Part(total, worth, all))
  {
    forall w: nat, weight: nat | weight > 0 && w as real == scale * worth && weight as real == scale * all
      ensures Rounded(Share(w, weight, total), Part(total, worth, all))
    {
      ShareIsRounded(w, weight, total, scale, worth, all);
    }
  }

  lemma CityShareNearQuota(cities: seq<City>, totalDays: int, bonus: bool, i: nat)
    requires i < |cities|
    ensures forall weight: nat :: weight > 0 && weight as real == Scale(bonus) * TotalWorth(cities, bonus) ==>
      NearQuota(Share(Weight(cities[i], bonus), weight, totalDays), cities, totalDays, bonus, i)
  {
    WeightIsWorth(cities[i], bonus);
    SharesAreRounded(totalDays, Scale(bonus), Worth(cities[i], bonus), TotalWorth(cities, bonus));
  }

  lemma CityIsOutweighed(cities: seq<City>, bonus: bool, ws: seq<nat>, i: nat)
    requires |ws| == |cities| && (forall k | 0 <= k < |cities| :: ws[k] == Weight(cities[k], bonus))
    requires i < |cities| && IsOutweighed(cities, bonus, i)
    ensures Top(ws) != i
  {
    forall k | 0 <= k < |cities| ensures ws[k] as real == Scale(bonus) * Worth(cities[k], bonus) {
      WeightIsWorth(cities[k], bonus);
    }
    if j :| 0 <= j < |cities| && Worth(cities[j], bonus) > Worth(cities[i], bonus) {
      assert ws[j] as real > ws[i] as real;
    } else {
      var j :| 0 <= j < i && Worth(cities[j], bonus) == Worth(cities[i], bonus);
      assert ws[j] as real == ws[i] as real;
    }
  }

  /** With distinct names the days of a city that is not corrected are its share. */
  lemma DaysAreShare(cities: seq<City>, totalDays: int, bonus: bool, days: map<string, int>, i: nat) returns (weight: nat)
    requires Distinct(NamesOf(cities)) && Distributed(cities, totalDays, bonus, days)
    requires i < |cities| && IsOutweighed(cities, bonus, i)
    ensures weight > 0 && weight as real == Scale(bonus) * TotalWorth(cities, bonus)
    ensures cities[i].name in days && days[cities[i].name] == Share(Weight(cities[i], bonus), weight, totalDays)
  {
    var ws := Weights(cities, bonus);
    DistinctKeys(cities);
    forall k | 0 <= k < |cities| ensures ws[k] == Weight(cities[k], bonus) {
      DistinctWeights(cities, k, bonus);
    }
    PositiveSum(ws);
    weight := Sum(ws);
    SumIsTotalWorth(cities, ws, bonus);
    CityIsOutweighed(cities, bonus, ws, i);
    ApportionSums(ws, totalDays);
    assert Keys(cities)[i] == cities[i].name;
  }

  /**
    For cities with distinct names: every city but the one that is corrected gets its quota of the days, in
    proportion to points of interest, to within one half and at least one day.
   */
  lemma DaysNearQuota(cities: seq<City>, totalDays: int, bonus: bool, days: map<string, int>, i: nat)
    requires Distinct(NamesOf(cities)) && Distributed(cities, totalDays, bonus, days)
    requires i < |cities| && IsOutweighed(cities, bonus, i)
    ensures cities[i].name in days && NearQuota(days[cities[i].name], cities, totalDays, bonus, i)
  {
    var weight := DaysAreShare(cities, totalDays, bonus, days, i);
    CityShareNearQuota(cities, totalDays, bonus, i);
  }

  /** Of two cities that are not corrected, one with more points of interest, and as well known, gets no fewer days. */
  lemma MorePoisNoFewerDays(cities: seq<City>, totalDays: nat, bonus: bool, days: map<string, int>, i: nat, j: nat)
    requires Distinct(NamesOf(cities)) && Distributed(cities, totalDays, bonus, days)
    requires i < |cities| && IsOutweighed(cities, bonus, i) && j < |cities| && IsOutweighed(cities, bonus, j)
    requires |cities[i].pois| <= |cities[j].pois| && (bonus && IsKnown(cities[i].name) ==> IsKnown(cities[j].name))
    ensures cities[i].name in days && cities[j].name in days && days[cities[i].name] <= days[cities[j].name]
  {
    var weight := DaysAreShare(cities, totalDays, bonus, days, i);
    var weight' := DaysAreShare(cities, totalDays, bonus, days, j);
    assert weight as real == weight' as real;
    KnownIff(cities[i].name);
    KnownIff(cities[j].name);
    SharesAreMonotone(Weight(cities[i], bonus), Weight(cities[j], bonus), weight, totalDays);
  }

  // ---------- Countries ----------

  function PoiCount(cities: seq<City>, country: string): nat {
    if cities == [] then 0
    else
      var last := cities[|cities| - 1];
      PoiCount(cities[..|cities| - 1], country) + if last.country == country then |last.pois| else 0
  }

  /** What a country counts: the points of interest of its cities, at least 1. */
  function CountryWorth(cities: seq<City>, country: string): nat {
    if PoiCount(cities, country) >= 1 then PoiCount(cities, country) else 1
  }

  function TotalCountryWorth(cities: seq<City>, countries: seq<string>): nat {
    if countries == [] then 0
    else TotalCountryWorth(cities, countries[..|countries| - 1]) + CountryWorth(cities, countries[|countries| - 1])
  }

  lemma {:induction false} GroupPois(cities: seq<City>, country: string)
    ensures |Flatten(PoisOf(InCountry(cities, country)))| == PoiCount(cities, country)
  {
    if cities != [] {
      var init, last := cities[..|cities| - 1], cities[|cities| - 1];
      GroupPois(init, country);
      assert InCountry(cities, country) == InCountry(init, country) + if last.country == country then [last] else [];
      if last.country != country {
        assert InCountry(cities, country) == InCountry(init, country);
      } else {
        var before, after := PoisOf(InCountry(init, country)), PoisOf(InCountry(cities, country));
        assert after[..|before|] == before && |after| == |before| + 1 && after[|before|] == last.pois;
      }
    }
  }

  lemma {:induction false} SumIsTotalCountryWorth(cities: seq<City>, countries: seq<string>, ws: seq<nat>)
    requires |ws| == |countries| && forall k | 0 <= k < |ws| :: ws[k] == CountryWorth(cities, countries[k])
    ensures Sum(ws) == TotalCountryWorth(cities, countries)
  {
    if ws != [] {
      SumIsTotalCountryWorth(cities, countries[..|ws| - 1], ws[..|ws| - 1]);
    }
  }

  lemma CountryDaysAreNear(cities: seq<City>, total: int, days: map<string, int>, k: nat)
    requires CountryDays(cities, Countries(cities), total, days) && k < |Countries(cities)|
    ensures var countries := Countries(cities);
      var worth, all := CountryWorth(cities, countries[k]), TotalCountryWorth(cities, countries);
      all > 0 && countries[k] in days && IsNear(days[countries[k]], total, worth as real, all as real)
  {
    var countries := Countries(cities);
    var ws := CountryWeights(cities, countries);
    forall j | 0 <= j < |ws| ensures ws[j] == CountryWorth(cities, countries[j]) {
      GroupPois(cities, countries[j]);
    }
    SumIsTotalCountryWorth(cities, countries, ws);
    ShareIsNear(ws[k], Sum(ws), total);
  }

  /** Every country gets its quota of the days, in proportion to its points of interest, to within one half and at least one day. */
  lemma CountryDaysNearQuota(cities: seq<City>, total: int, days: map<string, int>, k: nat)
    requires CountryDays(cities, Countries(cities), total, days) && k < |Countries(cities)|
    ensures var countries := Countries(cities);
      var worth, all := CountryWorth(cities, countries[k]), TotalCountryWorth(cities, countries);
      all > 0 && countries[k] in days && Rounded(days[countries[k]], Part(total, worth as real, all as real))
  {
    var countries := Countries(cities);
    CountryDaysAreNear(cities, total, days, k);
    NearIsRounded(total, CountryWorth(cities, countries[k]) as real, TotalCountryWorth(cities, countries) as real);
  }
}
