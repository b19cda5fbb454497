/** `SetZone`: a zone is an ordered list of roads together with the temporal
    model that gives its demand density; density and record counting are
    delegated to the model. */
module SetZone {
  import opened Outcomes
  import opened Calendar
  import opened CityMap
  import DM = DayModel
  import MF = MFModel
  import opened Matrices

  /** The two temporal models zones are built with. */
  datatype TemporalModel = DayCounts(day: DM.DayModel) | MatrixBacked(mf: MF.MFModel)

  datatype Zone = Zone(model: TemporalModel, roads: seq<Road>)

  /** The constructor: a new zone has no roads. */
  function NewZone(model: TemporalModel): (z: Zone)
    ensures |GetRoads(z)| == 0
    ensures forall road :: !Contains(z, road)
  {
    Zone(model, [])
  }

  function GetRoads(z: Zone): seq<Road> {
    z.roads
  }

  /** `add`: the road goes to the end of the list, which always reports a
      change. */
  function Add(z: Zone, road: Road): (r: (bool, Zone))
    ensures r.0
    ensures GetRoads(r.1) == GetRoads(z) + [road]
    ensures r.1.model == z.model
    ensures forall other :: Contains(r.1, other) <==> Contains(z, other) || other == road
  {
    AppendedContains(z, road);
    (true, z.(roads := z.roads + [road]))
  }

  lemma AppendedContains(z: Zone, road: Road)
    ensures forall other :: Contains(z.(roads := z.roads + [road]), other) <==> Contains(z, other) || other == road
  {
    var s := z.roads + [road];
    forall other
      ensures Contains(z.(roads := s), other) <==> Contains(z, other) || other == road
    {
      if other == road {
        assert s[|z.roads|] == road;
      }
      if Contains(z, other) {
        var j :| 0 <= j < |z.roads| && z.roads[j] == other;
        assert s[j] == other;
      }
    }
  }

  /** The first position of `x` in `s`, or -1 (the list's `indexOf`). */
  function IndexOf(s: seq<Road>, x: Road): (i: int)
    ensures -1 <= i < |s|
    ensures i == -1 <==> forall j :: 0 <= j < |s| ==> s[j] != x
    ensures i >= 0 ==> s[i] == x && forall j :: 0 <= j < i ==> s[j] != x
    decreases |s|
  {
    if |s| == 0 then -1
    else if s[0] == x then 0
    else
      var k := IndexOf(s[1..], x);
      if k == -1 then -1 else k + 1
  }

  /** `contains`: whether the road occurs in the list. */
  function Contains(z: Zone, road: Road): (b: bool)
    ensures b <==> exists j :: 0 <= j < |z.roads| && z.roads[j] == road
  {
    IndexOf(z.roads, road) >= 0
  }

  /** The zone's density at `time`. A matrix-backed model reads the shared
      matrix, which is unset (null) in a model without one. */
  function Density(z: Zone, cal: Calendar, mx: Option<Matrix>, time: int): Result<real> {
    match z.model
    case DayCounts(d) => Ok(DM.GetDensity(d, cal, time))
    case MatrixBacked(mf) =>
      if mx.None? then Err(NullReference) else MF.GetDensity(mf, mx.value, cal, time)
  }

  /** Counts one record in the zone's model: a day model changes the zone,
      a matrix-backed model changes the shared matrix. */
  function AddResource(z: Zone, cal: Calendar, mx: Option<Matrix>, resource: Resource): Result<(Zone, Option<Matrix>)> {
    match z.model
    case DayCounts(d) =>
      var d' :- DM.AddResource(d, cal, resource);
      Ok((z.(model := DayCounts(d')), mx))
    case MatrixBacked(mf) =>
      if mx.None? then Err(NullReference)
      else
        var mx' :- MF.AddResource(mf, mx.value, cal, resource);
        Ok((z, Some(mx')))
  }
}
