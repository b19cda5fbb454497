/** The `DataModel` face every sampler shows the agents: a destination (the
    end of a target road) and a route to a target road that does not end
    where the agent's current road ends. The three target-road rules are
    the base sampler's, the distance-based one and the home-zone one. */
module Routing {
  import opened Outcomes
  import opened JavaOps
  import opened Calendar
  import opened CityMap
  import opened Draws
  import opened AbstractDataModel
  import DB = DistanceBasedDataModel
  import HZ = HomeZoneDataModel

  /** A data model: its sampler state together with the parameters of its
      target-road rule (for the home-zone rule, the hash code the group
      number is taken from). */
  datatype DataModel =
    | Base(dm: Sampler)
    | DistanceBased(dm: Sampler, sampleSize: int, pow: DB.Pow, exponent: real)
    | HomeZone(hz: HZ.HomeZoneSampler, hash: int)

  function SamplerOf(model: DataModel): Sampler {
    match model
    case Base(dm) => dm
    case DistanceBased(dm, _, _, _) => dm
    case HomeZone(hz, _) => hz.base
  }

  /** The same model with its sampler state replaced. */
  function WithSampler(model: DataModel, dm: Sampler): (m: DataModel)
    ensures SamplerOf(m) == dm
  {
    match model
    case Base(_) => Base(dm)
    case DistanceBased(_, n, pow, e) => DistanceBased(dm, n, pow, e)
    case HomeZone(hz, hash) => HomeZone(hz.(base := dm), hash)
  }

  ghost predicate Ready(model: DataModel, city: CityMap) {
    Wf(SamplerOf(model)) && (model.HomeZone? ==> Closed(city))
  }

  /** `getTargetRoad` of the model's own rule. */
  function TargetRoad(model: DataModel, cal: Calendar, city: CityMap, current: Road, time: int,
                      draws: seq<Unit>): (r: Result<(Road, DataModel, seq<Unit>)>)
    requires Ready(model, city) && IsLong(time)
    ensures r.Ok? ==> var (road, m, rest) := r.value;
      && Ready(m, city)
      && SamplerOf(m).zones == SamplerOf(model).zones
      && (exists z :: 0 <= z < |SamplerOf(model).zones| && road in SamplerOf(model).zones[z].roads)
      && |rest| < |draws| && Leaves(draws, rest)
    ensures model.Base? ==> var t := PlainTarget(model.dm, cal, time, draws);
      && (r.Ok? <==> t.Ok?)
      && (r.Ok? ==> r.value == (t.value.road, Base(t.value.sampler), t.value.rest))
    ensures model.DistanceBased? ==>
      var t := DB.DistanceTarget(model.dm, cal, city, current, time, model.sampleSize, model.pow, model.exponent, draws);
      && (r.Ok? <==> t.Ok?)
      && (r.Ok? ==> r.value == (t.value.road, model.(dm := t.value.sampler), t.value.rest))
    ensures model.HomeZone? ==> var t := HZ.HomeZoneTarget(model.hz, cal, city, model.hash, time, draws);
      && (r.Ok? <==> t.Ok?)
      && (r.Ok? ==> r.value == (t.value.road, HomeZone(model.hz.(base := t.value.sampler), model.hash), t.value.rest))
  {
    var t :- match model
      case Base(dm) => PlainTarget(dm, cal, time, draws)
      case DistanceBased(dm, n, pow, e) => DB.DistanceTarget(dm, cal, city, current, time, n, pow, e, draws)
      case HomeZone(hz, hash) => HZ.HomeZoneTarget(hz, cal, city, hash, time, draws);
    Ok((t.road, WithSampler(model, t.sampler), t.rest))
  }

  /** `getDestination`: the end of a target road. */
  function Destination(model: DataModel, cal: Calendar, city: CityMap, current: Road, time: int,
                       draws: seq<Unit>): (r: Result<Intersection>)
    requires Ready(model, city) && IsLong(time)
    ensures r.Ok? <==> TargetRoad(model, cal, city, current, time, draws).Ok?
    ensures r.Ok? ==> exists z, road ::
      && 0 <= z < |SamplerOf(model).zones| && road in SamplerOf(model).zones[z].roads
      && r.value == road.to
    ensures r.Ok? ==> r.value == TargetRoad(model, cal, city, current, time, draws).value.0.to
  {
    var t :- TargetRoad(model, cal, city, current, time, draws);
    Ok(t.0.to)
  }

  /** A planned route: the intersections to drive through, the target road
      it leads to, the model after sampling, and the draws left. */
  datatype Route = Route(path: seq<Intersection>, target: Road, model: DataModel, rest: seq<Unit>)

  /** `getRoute`: draw target roads until one does not end where the
      current road ends, then take the shortest path from the end of the
      current road to the start of the target, with the target's end
      appended when the path does not already pass through it. */
  function GetRoute(model: DataModel, cal: Calendar, city: CityMap, current: Road, time: int,
                    draws: seq<Unit>): (r: Result<Route>)
    requires Ready(model, city) && IsLong(time)
    ensures r.Ok? ==> var route := r.value;
      var shortest := city.shortestTravelTimePath(current.to, route.target.from);
      && route.target.to != current.to
      && route.target.to in route.path
      && (route.target.to in shortest ==> route.path == shortest)
      && (route.target.to !in shortest ==> route.path == shortest + [route.target.to])
      && Ready(route.model, city) && SamplerOf(route.model).zones == SamplerOf(model).zones
      && (exists z :: 0 <= z < |SamplerOf(model).zones| && route.target in SamplerOf(model).zones[z].roads)
      && |route.rest| < |draws| && Leaves(draws, route.rest)
    decreases |draws|
  {
    var (road, m, rest) :- TargetRoad(model, cal, city, current, time, draws);
    if road.to == current.to then
      var r := GetRoute(m, cal, city, current, time, rest);
      if r.Ok? then
        LeavesTransitive(draws, rest, r.value.rest);
        r
      else r
    else
      var shortest := city.shortestTravelTimePath(current.to, road.from);
      var path := if road.to in shortest then shortest else shortest + [road.to];
      Ok(Route(path, road, m, rest))
  }

  /** A draw sequence whose first target already ends elsewhere gives the
      route to that very target, after one sampling round. */
  lemma FirstDifferentTargetIsUsed(model: DataModel, cal: Calendar, city: CityMap, current: Road, time: int,
                                   draws: seq<Unit>)
    requires Ready(model, city) && IsLong(time)
    requires TargetRoad(model, cal, city, current, time, draws).Ok?
    requires TargetRoad(model, cal, city, current, time, draws).value.0.to != current.to
    ensures GetRoute(model, cal, city, current, time, draws).Ok?
    ensures GetRoute(model, cal, city, current, time, draws).value.target == TargetRoad(model, cal, city, current, time, draws).value.0
    ensures GetRoute(model, cal, city, current, time, draws).value.rest == TargetRoad(model, cal, city, current, time, draws).value.2
  {
  }
}
