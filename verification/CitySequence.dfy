/** The greedy city order of services/intercity_service.py, `find_optimal_city_sequence`. */
module CitySequence {
  import opened Wrappers
  import opened Sequences
  import opened Cities

  /** The cities that do not carry the given name, in order. */
  function NotNamed(cities: seq<City>, name: string): seq<City> {
    if cities == [] then []
    else
      var last := cities[|cities| - 1];
      NotNamed(cities[..|cities| - 1], name) + (if last.name == name then [] else [last])
  }

  /** The first city of the name stands at position i, or none has the name and i is 0. */
  predicate IsStart(cities: seq<City>, name: string, i: nat)
    requires i < |cities|
  {
    if exists j | 0 <= j < |cities| :: cities[j].name == name
    then cities[i].name == name && forall j | 0 <= j < i :: cities[j].name != name
    else i == 0
  }

  /** The first city with the wanted name, or else the first of all. */
  function StartAt(cities: seq<City>, start: Option<string>): (i: nat)
    requires cities != []
    ensures i < |cities|
    ensures start.None? || start.value == "" ==> i == 0
    ensures start.Some? && start.value != "" ==> IsStart(cities, start.value, i)
  {
    if start.None? || start.value == "" then 0
    else
      var i := FirstNamed(cities, start.value);
      if i < |cities| then i else 0
  }

  function FirstNamed(cities: seq<City>, name: string): (i: nat)
    ensures i <= |cities|
    ensures i < |cities| ==> cities[i].name == name
    ensures forall j | 0 <= j < i :: cities[j].name != name
  {
    if cities == [] then 0
    else if cities[0].name == name then 0
    else 1 + FirstNamed(cities[1..], name)
  }

  /** Every hop goes to a nearest one of the cities still ahead. */
  ghost predicate Greedy(sequence: seq<City>, dist: Distance) {
    forall i, j | 0 <= i && i + 1 < j < |sequence| ::
      dist(sequence[i], sequence[i + 1]) <= dist(sequence[i], sequence[j])
  }

  /** No city still to be placed is nearer to a visited one than the hop made from it. */
  ghost predicate NoneNearer(sequence: seq<City>, remaining: seq<City>, dist: Distance) {
    forall i, j | 0 <= i < |sequence| - 1 && 0 <= j < |remaining| ::
      dist(sequence[i], sequence[i + 1]) <= dist(sequence[i], remaining[j])
  }

  lemma GreedyHop(sequence: seq<City>, remaining: seq<City>, k: nat, dist: Distance)
    requires sequence != [] && k < |remaining|
    requires Greedy(sequence, dist) && NoneNearer(sequence, remaining, dist)
    requires forall j | 0 <= j < |remaining| :: dist(sequence[|sequence| - 1], remaining[k]) <= dist(sequence[|sequence| - 1], remaining[j])
    ensures Greedy(sequence + [remaining[k]], dist)
    ensures NoneNearer(sequence + [remaining[k]], Without(remaining, k), dist)
  {
  }

  /** The first of the nearest cities stands at position k. */
  predicate IsNearest(from: City, remaining: seq<City>, dist: Distance, k: nat) {
    && k < |remaining|
    && (forall j | 0 <= j < |remaining| :: dist(from, remaining[k]) <= dist(from, remaining[j]))
    && forall j | 0 <= j < k :: dist(from, remaining[k]) < dist(from, remaining[j])
  }

  method NearestCity(from: City, remaining: seq<City>, dist: Distance) returns (nearest: nat)
    requires remaining != []
    ensures IsNearest(from, remaining, dist, nearest)
  {
    nearest := 0;
    for k := 1 to |remaining|
      invariant nearest < k
      invariant forall j | 0 <= j < k :: dist(from, remaining[nearest]) <= dist(from, remaining[j])
      invariant forall j | 0 <= j < nearest :: dist(from, remaining[nearest]) < dist(from, remaining[j])
    {
      if dist(from, remaining[k]) < dist(from, remaining[nearest]) {
        nearest := k;
      }
    }
  }

  /** From a city on to the first of the nearest ones remaining, which leaves the rest in their order. */
  ghost predicate Hop(from: City, remaining: seq<City>, to: City, rest: seq<City>, dist: Distance) {
    exists k | 0 <= k < |remaining| :: IsNearest(from, remaining, dist, k) && to == remaining[k] && rest == Without(remaining, k)
  }

  /** The hops of a sequence, with the cities that remain after each. */
  ghost predicate Hops(sequence: seq<City>, remaining: seq<seq<City>>, dist: Distance) {
    && |remaining| == |sequence|
    && forall i | 0 <= i < |sequence| - 1 :: Hop(sequence[i], remaining[i], sequence[i + 1], remaining[i + 1], dist)
  }

  ghost predicate HopsThrough(sequence: seq<City>, cities: seq<City>, dist: Distance) {
    exists remaining :: Hops(sequence, remaining, dist) && sequence != [] && remaining[0] == cities && remaining[|sequence| - 1] == []
  }

  /**
    The start city followed greedily by every city that does not share its name; of several nearest ones the
    first in the order of the request comes next.
   */
  ghost predicate Sequenced(cities: seq<City>, start: Option<string>, dist: Distance, sequence: seq<City>) {
    if |cities| <= 1 then sequence == cities
    else
      var first := cities[StartAt(cities, start)];
      && sequence != [] && sequence[0] == first
      && multiset(sequence) == multiset{first} + multiset(NotNamed(cities, first.name))
      && Greedy(sequence, dist)
      && HopsThrough(sequence, NotNamed(cities, first.name), dist)
  }

  lemma OneMoreHop(sequence: seq<City>, remaining: seq<seq<City>>, k: nat, dist: Distance)
    requires Hops(sequence, remaining, dist) && sequence != []
    requires var from, left := sequence[|sequence| - 1], remaining[|sequence| - 1]; IsNearest(from, left, dist, k)
    ensures var left := remaining[|sequence| - 1]; Hops(sequence + [left[k]], remaining + [Without(left, k)], dist)
  {
  }

  lemma HopKeepsAll(all: multiset<City>, sequence: seq<City>, remaining: seq<City>, k: nat)
    requires multiset(sequence) + multiset(remaining) == all && k < |remaining|
    ensures multiset(sequence + [remaining[k]]) + multiset(Without(remaining, k)) == all
  {
    MultisetSplits(remaining, k);
  }

  method FindOptimalCitySequence(cities: seq<City>, start: Option<string>, dist: Distance) returns (sequence: seq<City>)
    ensures Sequenced(cities, start, dist, sequence)
  {
    if |cities| <= 1 {
      return cities;
    }
    var current := cities[StartAt(cities, start)];
    var remaining := NotNamed(cities, current.name);
    sequence := [current];
    ghost var left, all := [remaining], multiset{current} + multiset(remaining);
    while remaining != []
      invariant sequence != [] && sequence[0] == cities[StartAt(cities, start)] && sequence[|sequence| - 1] == current
      invariant multiset(sequence) + multiset(remaining) == all
      invariant Greedy(sequence, dist) && NoneNearer(sequence, remaining, dist)
      invariant Hops(sequence, left, dist) && left[0] == NotNamed(cities, sequence[0].name) && left[|sequence| - 1] == remaining
      decreases |remaining|
    {
      var k := NearestCity(current, remaining, dist);
      GreedyHop(sequence, remaining, k, dist);
      HopKeepsAll(all, sequence, remaining, k);
      OneMoreHop(sequence, left, k, dist);
      current := remaining[k];
      sequence := sequence + [current];
      remaining := Without(remaining, k);
      left := left + [remaining];
    }
  }

  lemma {:induction false} NotNamedDropsOne(cities: seq<City>, i: nat)
    requires i < |cities| && Distinct(NamesOf(cities))
    ensures NotNamed(cities, cities[i].name) == Without(cities, i)
  {
    var n := |cities| - 1;
    var name := cities[i].name;
    if i < n {
      assert NamesOf(cities)[..n] == NamesOf(cities[..n]);
      NotNamedDropsOne(cities[..n], i);
      assert NamesOf(cities)[i] != NamesOf(cities)[n];
    } else {
      assert forall j | 0 <= j < n :: NamesOf(cities)[j] != NamesOf(cities)[n];
      NotNamedKeepsAll(cities[..n], name);
    }
  }

  lemma {:induction false} NotNamedHolds(cities: seq<City>, name: string, city: City)
    ensures city in NotNamed(cities, name) <==> city in cities && city.name != name
  {
    if cities != [] {
      NotNamedHolds(cities[..|cities| - 1], name, city);
      assert cities == cities[..|cities| - 1] + [cities[|cities| - 1]];
    }
  }

  /** The sequence leaves out a city that shares the name of the start city without being it. */
  predicate Visited(cities: seq<City>, start: Option<string>, i: nat)
    requires i < |cities|
  {
    i == StartAt(cities, start) || cities[i].name != cities[StartAt(cities, start)].name
  }

  /** The sequence visits exactly those cities. */
  lemma SequenceVisits(cities: seq<City>, start: Option<string>, dist: Distance, sequence: seq<City>, city: City)
    requires Sequenced(cities, start, dist, sequence)
    ensures city in sequence <==> exists i | 0 <= i < |cities| :: Visited(cities, start, i) && cities[i] == city
  {
    if |cities| > 1 {
      var first := cities[StartAt(cities, start)];
      NotNamedHolds(cities, first.name, city);
      assert city in multiset(sequence) <==> city == first || city in NotNamed(cities, first.name);
      if city in sequence && city != first {
        var i :| 0 <= i < |cities| && cities[i] == city;
        assert Visited(cities, start, i);
      } else if city == first {
        assert Visited(cities, start, StartAt(cities, start));
      }
    } else if cities != [] {
      assert Visited(cities, start, 0);
    }
  }

  lemma {:induction false} NotNamedKeepsAll(cities: seq<City>, name: string)
    requires forall j | 0 <= j < |cities| :: cities[j].name != name
    ensures NotNamed(cities, name) == cities
  {
    if cities != [] {
      NotNamedKeepsAll(cities[..|cities| - 1], name);
    }
  }

  /** With distinct names the sequence visits every city once. */
  lemma SequenceVisitsAll(cities: seq<City>, start: Option<string>, dist: Distance, sequence: seq<City>)
    requires Distinct(NamesOf(cities)) && Sequenced(cities, start, dist, sequence)
    ensures multiset(sequence) == multiset(cities) && |sequence| == |cities|
    ensures Distinct(NamesOf(sequence))
  {
    if |cities| > 1 {
      var first := StartAt(cities, start);
      NotNamedDropsOne(cities, first);
      MultisetSplits(cities, first);
      SameNames(cities, sequence);
    }
  }

  lemma SameNames(cities: seq<City>, sequence: seq<City>)
    requires multiset(sequence) == multiset(cities) && Distinct(NamesOf(cities))
    ensures |sequence| == |cities| && Distinct(NamesOf(sequence))
  {
    var p := Rearrangement(cities, sequence);
    forall i, j | 0 <= i < j < |sequence| ensures NamesOf(sequence)[i] != NamesOf(sequence)[j] {
      assert p[i] != p[j] && NamesOf(cities)[p[i]] != NamesOf(cities)[p[j]];
    }
  }
}
