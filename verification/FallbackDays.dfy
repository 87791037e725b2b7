/** The itinerary when every attempt to optimise has failed: api.py, the even split of places into days. */
module FallbackDays {
  import opened Sequences

  /** The places of day i: an equal part, and one of the places left over for each of the first days. */
  function PlacesOfDay(n: nat, dayCount: nat, i: nat): nat
    requires dayCount > 0
  {
    n / dayCount + if i < n % dayCount then 1 else 0
  }

  /** The place with which day i starts. */
  function FirstOfDay(n: nat, dayCount: nat, i: nat): nat
    requires dayCount > 0
  {
    if i == 0 then 0 else FirstOfDay(n, dayCount, i - 1) + PlacesOfDay(n, dayCount, i - 1)
  }

  lemma {:induction false} FirstOfDayIs(n: nat, dayCount: nat, i: nat)
    requires dayCount > 0 && i <= dayCount
    ensures FirstOfDay(n, dayCount, i) == i * (n / dayCount) + if i < n % dayCount then i else n % dayCount
  {
    if i > 0 {
      FirstOfDayIs(n, dayCount, i - 1);
      assert i * (n / dayCount) == (i - 1) * (n / dayCount) + n / dayCount;
    }
  }

  lemma {:induction false} DaysStartInOrder(n: nat, dayCount: nat, i: nat)
    requires dayCount > 0 && i <= dayCount
    ensures FirstOfDay(n, dayCount, i) <= FirstOfDay(n, dayCount, dayCount) == n
    decreases dayCount - i
  {
    if i < dayCount {
      DaysStartInOrder(n, dayCount, i + 1);
    } else {
      FirstOfDayIs(n, dayCount, dayCount);
      assert n == dayCount * (n / dayCount) + n % dayCount;
    }
  }

  /** With at least one day, the days hold every place once, in order, and their sizes differ by at most one. */
  method SplitPlaces<T>(places: seq<T>, dayCount: int) returns (days: seq<seq<T>>)
    ensures dayCount <= 0 ==> days == []
    ensures dayCount > 0 ==> |days| == dayCount && Flatten(days) == places
    ensures forall i, j | 0 <= i < j < |days| :: |days[j]| <= |days[i]| <= |days[j]| + 1
  {
    days := [];
    if dayCount <= 0 {
      return;
    }
    var n, currentPlace := |places|, 0;
    for i := 0 to dayCount
      invariant |days| == i && currentPlace == FirstOfDay(n, dayCount, i) <= n
      invariant Flatten(days) == places[..currentPlace]
      invariant forall j | 0 <= j < i :: |days[j]| == PlacesOfDay(n, dayCount, j)
    {
      DaysStartInOrder(n, dayCount, i + 1);
      var placesThisDay := n / dayCount + if i < n % dayCount then 1 else 0;
      days := days + [places[currentPlace..currentPlace + placesThisDay]];
      assert days[..i] + [days[i]] == days;
      currentPlace := currentPlace + placesThisDay;
    }
    DaysStartInOrder(n, dayCount, dayCount);
    assert places[..n] == places;
  }
}
