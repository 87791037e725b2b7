/** Cities and points of interest, as services/intercity_service.py keeps them. */
module Cities {
  /** A point of interest; two records with equal fields are the same dictionary value. */
  datatype Poi = Poi(id: nat, name: string)

  datatype City = City(name: string, lat: real, lon: real, country: string, pois: seq<Poi>)

  /** Geodesic distance between two cities, as the geopy library answers it. */
  type Distance = (City, City) -> real

  function NamesOf(cities: seq<City>): (names: seq<string>)
    ensures |names| == |cities| && forall i | 0 <= i < |cities| :: names[i] == cities[i].name
  {
    seq(|cities|, i requires 0 <= i < |cities| => cities[i].name)
  }

  function PoisOf(cities: seq<City>): (pois: seq<seq<Poi>>)
    ensures |pois| == |cities| && forall i | 0 <= i < |cities| :: pois[i] == cities[i].pois
  {
    seq(|cities|, i requires 0 <= i < |cities| => cities[i].pois)
  }
}
