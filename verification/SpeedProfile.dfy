/**
  Speeds and travel times of roads: the two `SpeedProfileManager` of services/optimized_city2graph_service_clean.py
  and of services/hybrid_city2graph_service.py.
 */
module SpeedProfile {
  import opened Wrappers

  /** Which service reads the roads: the one that loads them lazily, or the hybrid one that builds all of them. */
  datatype Profile = Clean | Hybrid

  const CLEAN_PROFILES: map<string, real> := map[
    "motorway" := 120.0, "motorway_link" := 80.0, "trunk" := 100.0, "trunk_link" := 70.0,
    "primary" := 80.0, "primary_link" := 60.0, "secondary" := 70.0, "secondary_link" := 50.0,
    "tertiary" := 60.0, "tertiary_link" := 40.0, "unclassified" := 50.0, "residential" := 30.0,
    "service" := 20.0, "living_street" := 10.0, "pedestrian" := 5.0, "track" := 30.0,
    "bus_guideway" := 50.0, "raceway" := 200.0, "road" := 50.0, "busway" := 50.0,
    "footway" := 5.0, "bridleway" := 10.0, "steps" := 3.0, "path" := 5.0, "cycleway" := 15.0]

  const HYBRID_PROFILES: map<string, real> := map[
    "motorway" := 120.0, "motorway_link" := 80.0, "trunk" := 100.0, "trunk_link" := 60.0,
    "primary" := 80.0, "primary_link" := 50.0, "secondary" := 60.0, "secondary_link" := 40.0,
    "tertiary" := 50.0, "tertiary_link" := 30.0, "residential" := 30.0, "living_street" := 20.0,
    "unclassified" := 40.0, "service" := 20.0, "track" := 15.0, "path" := 10.0,
    "footway" := 5.0, "cycleway" := 15.0, "steps" := 3.0, "road" := 40.0]

  /** The fastest limit the hybrid service believes. */
  const CAP := 150.0

  /**
    A speed limit as it is kept beside a road: absent, unreadable, or a text with a number in km/h, in mph, or
    in mph with capital letters.
   */
  datatype MaxSpeed = Absent | Unreadable | Kmh(value: real) | Mph(value: real) | CapitalMph(value: real)

  const KMH_OF_MPH := 1.60934

  /** The limit a service reads, if it can: the hybrid one stumbles over capital letters, and caps what it reads. */
  function Limit(profile: Profile, maxspeed: MaxSpeed): Option<real> {
    match (profile, maxspeed)
    case (Clean, Kmh(value)) => Some(value)
    case (Clean, Mph(value)) => Some(value * KMH_OF_MPH)
    case (Clean, CapitalMph(value)) => Some(value * KMH_OF_MPH)
    case (Hybrid, Kmh(value)) => Some(Capped(value))
    case (Hybrid, Mph(value)) => Some(Capped(value * KMH_OF_MPH))
    case _ => None
  }

  function Capped(speed: real): real {
    if speed < CAP then speed else CAP
  }

  function ByType(profile: Profile, highway: string): (speed: real)
    ensures 0.0 < speed
  {
    match profile
    case Clean => if highway in CLEAN_PROFILES then CLEAN_PROFILES[highway] else 50.0
    case Hybrid => if highway in HYBRID_PROFILES then HYBRID_PROFILES[highway] else HYBRID_PROFILES["road"]
  }

  /** The speed on a road in km/h: the limit if there is a readable one, else the profile of its type. */
  function Speed(profile: Profile, highway: string, maxspeed: MaxSpeed): real {
    var limit := Limit(profile, maxspeed);
    if limit.Some? then limit.value else ByType(profile, highway)
  }

  /** No limit of zero. */
  predicate Moves(maxspeed: MaxSpeed) {
    match maxspeed
    case Absent => true
    case Unreadable => true
    case Kmh(value) => value != 0.0
    case Mph(value) => value != 0.0
    case CapitalMph(value) => value != 0.0
  }

  lemma MovingSpeed(profile: Profile, highway: string, maxspeed: MaxSpeed)
    requires Moves(maxspeed)
    ensures Speed(profile, highway, maxspeed) != 0.0
  {
  }

  /** Seconds for a distance in metres. */
  function TravelTime(profile: Profile, distance: real, highway: string, maxspeed: MaxSpeed): real
    requires Moves(maxspeed)
  {
    MovingSpeed(profile, highway, maxspeed);
    distance / (Speed(profile, highway, maxspeed) / 3.6)
  }

  lemma TimeTimesSpeed(profile: Profile, distance: real, highway: string, maxspeed: MaxSpeed)
    requires Moves(maxspeed)
    ensures TravelTime(profile, distance, highway, maxspeed) * Speed(profile, highway, maxspeed) == 3.6 * distance
  {
    MovingSpeed(profile, highway, maxspeed);
    QuotientTimes(distance, Speed(profile, highway, maxspeed));
  }

  lemma QuotientTimes(a: real, b: real)
    requires b != 0.0
    ensures a / (b / 3.6) * b == 3.6 * a
  {
    var x := a / (b / 3.6);
    assert x * (b / 3.6) == a;
  }

  /** Without a readable limit only the lazy service's raceways are faster than 120 km/h; with one, the hybrid service stops at 150. */
  lemma OnlyRacewaysAreFaster(profile: Profile, highway: string, maxspeed: MaxSpeed)
    ensures Limit(profile, maxspeed).None? ==> 0.0 < Speed(profile, highway, maxspeed)
    ensures Limit(profile, maxspeed).None? ==>
      (Speed(profile, highway, maxspeed) <= 120.0 <==> profile == Hybrid || highway != "raceway")
    ensures profile == Hybrid ==> Speed(profile, highway, maxspeed) <= 150.0
  {
  }

  /** Two travel times over the same distance are equal iff there is no distance or the two speeds are equal. */
  lemma SameTimeIff(distance: real, highway: string, maxspeed: MaxSpeed)
    requires Moves(maxspeed)
    ensures TravelTime(Clean, distance, highway, maxspeed) == TravelTime(Hybrid, distance, highway, maxspeed)
      <==> distance == 0.0 || Speed(Clean, highway, maxspeed) == Speed(Hybrid, highway, maxspeed)
  {
    MovingSpeed(Clean, highway, maxspeed);
    MovingSpeed(Hybrid, highway, maxspeed);
    SameQuotientIff(distance, Speed(Clean, highway, maxspeed) / 3.6, Speed(Hybrid, highway, maxspeed) / 3.6);
  }

  lemma SameQuotientIff(a: real, b: real, c: real)
    requires b != 0.0 && c != 0.0
    ensures a / b == a / c <==> a == 0.0 || b == c
  {
    var x := a / b;
    assert x * b == a && a / c * c == a;
    if x == a / c {
      assert x * (b - c) == 0.0;
    }
  }
}
