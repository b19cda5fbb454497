/** The collaborators of the demand model that live outside it: roads and
    intersections of the city map, trip records, and the map queries the model
    asks (adjacency, the road between two intersections, travel times,
    shortest paths, the nearest road to a coordinate, the bounding polygon).
    The queries are parameters: their algorithms are not modelled. */
module CityMap {

  /** Intersections are identified by number. */
  type Intersection = int

  /** A directed road segment. */
  datatype Road = Road(id: int, from: Intersection, to: Intersection)

  /** One historical trip record (`DataParsing.Resource`). */
  datatype Resource = Resource(
    time: int,
    pickupLon: real,
    pickupLat: real,
    dropoffLon: real,
    dropoffLat: real)

  datatype CityMap = CityMap(
    roads: seq<Road>,
    intersections: set<Intersection>,
    adjacentTo: Intersection -> seq<Intersection>,
    roadTo: (Intersection, Intersection) -> Road,
    travelTimeBetween: (Intersection, Intersection) -> int,
    shortestTravelTimePath: (Intersection, Intersection) -> seq<Intersection>,
    nearestRoad: (real, real) -> Road,
    insidePolygon: (real, real) -> bool)

  predicate NoDuplicates<T(==)>(s: seq<T>) {
    forall i, j :: 0 <= i < j < |s| ==> s[i] != s[j]
  }

  /** The intersection set is closed under adjacency, and every adjacency
      list is a set (`getAdjacentTo` returns a `Set`). */
  ghost predicate Closed(m: CityMap) {
    forall x, i :: 0 <= i < |m.adjacentTo(x)| ==>
      m.adjacentTo(x)[i] in m.intersections && NoDuplicates(m.adjacentTo(x))
  }

  function RoadIds(roads: seq<Road>): (ids: seq<int>)
    ensures |ids| == |roads|
    ensures forall i :: 0 <= i < |roads| ==> ids[i] == roads[i].id
  {
    seq(|roads|, i requires 0 <= i < |roads| => roads[i].id)
  }
}
