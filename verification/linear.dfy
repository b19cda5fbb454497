/** `LinearHomeZoneDataModel`: the home-zone sampler over one zone per road,
    every zone's density taken from its own day histogram filled once, at
    construction, from the historical trip records. */
module LinearHomeZoneDataModel {
  import opened Outcomes
  import opened JavaOps
  import opened Calendar
  import opened CityMap
  import DM = DayModel
  import opened SetZone
  import opened AbstractDataModel
  import opened OneZonePerRoad
  import HZ = HomeZoneDataModel
  import Routing

  /** The zone of one road: that road and an empty day histogram. */
  function RoadZone(road: Road, day: DM.DayModel): (z: Zone)
    ensures z.roads == [road] && z.model == DayCounts(day)
  {
    Add(NewZone(DayCounts(day)), road).1
  }

  /** The zones before any record is counted: one per road, each with a
      fresh histogram. A negative slot count fails as soon as a histogram is
      created, that is, only when there is a road. */
  function EmptyZones(roads: seq<Road>, window: int, numOfTemporalSlots: int): (r: Result<seq<Zone>>)
    ensures r.Err? <==> |roads| > 0 && numOfTemporalSlots < 0
    ensures r.Err? ==> r.failure == NegativeArraySize
    ensures r.Ok? ==> |r.value| == |roads| && forall i :: 0 <= i < |roads| ==>
      r.value[i] == RoadZone(roads[i], DM.NewDayModel(window, numOfTemporalSlots).value)
  {
    if |roads| == 0 then Ok([])
    else
      var day :- DM.NewDayModel(window, numOfTemporalSlots);
      Ok(seq(|roads|, i requires 0 <= i < |roads| => RoadZone(roads[i], day)))
  }

  /** Zones whose models are all day histograms. */
  predicate DayZones(zones: seq<Zone>) {
    forall i :: 0 <= i < |zones| ==> zones[i].model.DayCounts?
  }

  /** One record: the road nearest to its pickup point names a zone through
      the mapping table; a road without a zone is ignored, and otherwise that
      zone counts the record. */
  function CountOne(zones: seq<Zone>, table: map<int, int>, city: CityMap, cal: Calendar,
                    resource: Resource): (r: Result<seq<Zone>>)
    requires DayZones(zones)
    requires forall id :: id in table ==> 0 <= table[id] < |zones|
    ensures var id := city.nearestRoad(resource.pickupLon, resource.pickupLat).id;
      && (id !in table ==> r == Ok(zones))
      && (id in table ==> var k := table[id];
            && (r.Ok? <==> DM.AddResource(zones[k].model.day, cal, resource).Ok?)
            && (r.Ok? ==> r.value == zones[k := zones[k].(model := DayCounts(DM.AddResource(zones[k].model.day, cal, resource).value))]))
    ensures r.Err? ==> r.failure == IndexOutOfBounds
    ensures r.Ok? ==> |r.value| == |zones| && DayZones(r.value)
    ensures r.Ok? ==> forall i :: 0 <= i < |zones| ==> r.value[i].roads == zones[i].roads
  {
    var id := city.nearestRoad(resource.pickupLon, resource.pickupLat).id;
    if id !in table then Ok(zones)
    else
      var k := table[id];
      var day := DM.AddResource(zones[k].model.day, cal, resource);
      assert SetZone.AddResource(zones[k], cal, None, resource)
          == if day.Ok? then Ok((zones[k].(model := DayCounts(day.value)), None)) else Err(day.failure);
      var counted :- SetZone.AddResource(zones[k], cal, None, resource);
      Ok(zones[k := counted.0])
  }

  /** All records, in order; the first failing count aborts. */
  function CountAll(zones: seq<Zone>, table: map<int, int>, city: CityMap, cal: Calendar,
                    resources: seq<Resource>): (r: Result<seq<Zone>>)
    requires DayZones(zones)
    requires forall id :: id in table ==> 0 <= table[id] < |zones|
    ensures r.Ok? ==> |r.value| == |zones| && DayZones(r.value)
    ensures r.Ok? ==> forall i :: 0 <= i < |zones| ==> r.value[i].roads == zones[i].roads
    decreases |resources|
  {
    if |resources| == 0 then Ok(zones)
    else
      var next :- CountOne(zones, table, city, cal, resources[0]);
      CountAll(next, table, city, cal, resources[1..])
  }

  /** The pickups counted over all zones. */
  function CountedPickups(zones: seq<Zone>): int
    requires DayZones(zones)
    decreases |zones|
  {
    if |zones| == 0 then 0 else CountedPickups(zones[..|zones| - 1]) + DM.Total(zones[|zones| - 1].model.day)
  }

  lemma {:induction false} CountedPickupsUpdate(zones: seq<Zone>, k: int, z: Zone)
    requires DayZones(zones) && 0 <= k < |zones| && z.model.DayCounts?
    ensures DayZones(zones[k := z])
    ensures CountedPickups(zones[k := z]) == CountedPickups(zones) - DM.Total(zones[k].model.day) + DM.Total(z.model.day)
    decreases |zones|
  {
    var n := |zones| - 1;
    if k < n {
      assert zones[k := z][..n] == zones[..n][k := z];
      CountedPickupsUpdate(zones[..n], k, z);
    } else {
      assert zones[k := z][..n] == zones[..n];
    }
  }

  /** Counting a record adds one pickup when its nearest road has a zone and
      nothing otherwise, and touches no zone but that one. */
  lemma CountOneEffect(zones: seq<Zone>, table: map<int, int>, city: CityMap, cal: Calendar, resource: Resource)
    requires DayZones(zones)
    requires forall id :: id in table ==> 0 <= table[id] < |zones|
    requires CountOne(zones, table, city, cal, resource).Ok?
    ensures var r := CountOne(zones, table, city, cal, resource).value;
      var id := city.nearestRoad(resource.pickupLon, resource.pickupLat).id;
      && DayZones(r) && |r| == |zones|
      && CountedPickups(r) == CountedPickups(zones) + (if id in table then 1 else 0)
      && forall i :: 0 <= i < |zones| && (id !in table || i != table[id]) ==> r[i] == zones[i]
  {
    var id := city.nearestRoad(resource.pickupLon, resource.pickupLat).id;
    if id in table {
      var k := table[id];
      var d := zones[k].model.day;
      var d' := DM.AddResource(d, cal, resource).value;
      DM.AddResourceEffect(d, cal, resource, 0);
      CountedPickupsUpdate(zones, k, zones[k].(model := DayCounts(d')));
    }
  }

  /** How many of the records have a nearest road whose id is in `ids`. */
  function Matched(city: CityMap, ids: set<int>, resources: seq<Resource>): nat
    decreases |resources|
  {
    if |resources| == 0 then 0
    else
      (if city.nearestRoad(resources[0].pickupLon, resources[0].pickupLat).id in ids then 1 else 0)
      + Matched(city, ids, resources[1..])
  }

  /** Every record whose nearest road has a zone is counted exactly once. */
  lemma {:induction false} CountAllTotal(zones: seq<Zone>, table: map<int, int>, city: CityMap, cal: Calendar,
                                         resources: seq<Resource>)
    requires DayZones(zones)
    requires forall id :: id in table ==> 0 <= table[id] < |zones|
    requires CountAll(zones, table, city, cal, resources).Ok?
    ensures CountedPickups(CountAll(zones, table, city, cal, resources).value) ==
      CountedPickups(zones) + Matched(city, table.Keys, resources)
    decreases |resources|
  {
    if |resources| > 0 {
      var next := CountOne(zones, table, city, cal, resources[0]).value;
      CountOneEffect(zones, table, city, cal, resources[0]);
      CountAllTotal(next, table, city, cal, resources[1..]);
    }
  }

  /** `buildZones`: a fresh zone per road, then every record of the data
      set counted in the zone of its nearest road (no record when the data
      set cannot be loaded). */
  function BuildZones(city: CityMap, cal: Calendar, window: int, numOfTemporalSlots: int,
                      dataset: Option<seq<Resource>>): (r: Result<seq<Zone>>)
    ensures r.Ok? ==> |r.value| == |city.roads| && DayZones(r.value)
    ensures r.Ok? ==> forall i :: 0 <= i < |city.roads| ==> r.value[i].roads == [city.roads[i]]
    ensures EmptyZones(city.roads, window, numOfTemporalSlots).Err? ==> r == Err(NegativeArraySize)
  {
    var zones :- EmptyZones(city.roads, window, numOfTemporalSlots);
    CountAll(zones, MappingTable(city.roads), city, cal, Records(dataset))
  }

  /** The records of a data set, none when it could not be read. */
  function Records(dataset: Option<seq<Resource>>): seq<Resource> {
    if dataset.Some? then dataset.value else []
  }

  lemma {:induction false} FreshZonesAreEmpty(zones: seq<Zone>, day: DM.DayModel)
    requires forall i :: 0 <= i < |zones| ==> zones[i].model == DayCounts(day)
    requires forall i :: 0 <= i < |day.slots| ==> day.slots[i] == 0
    ensures DayZones(zones) && CountedPickups(zones) == 0
    decreases |zones|
  {
    if |zones| > 0 {
      FreshZonesAreEmpty(zones[..|zones| - 1], day);
      DM.RangeSumZeros(day.slots, 0, |day.slots| - 1);
    }
  }

  /** After construction the zones have counted exactly the records whose
      nearest road is a road of the map. */
  lemma BuildZonesCountsMatchedRecords(city: CityMap, cal: Calendar, window: int, numOfTemporalSlots: int,
                                       dataset: Option<seq<Resource>>)
    requires BuildZones(city, cal, window, numOfTemporalSlots, dataset).Ok?
    ensures CountedPickups(BuildZones(city, cal, window, numOfTemporalSlots, dataset).value) ==
      Matched(city, MappingTable(city.roads).Keys, Records(dataset))
  {
    var zones := EmptyZones(city.roads, window, numOfTemporalSlots).value;
    var table := MappingTable(city.roads);
    if |city.roads| > 0 {
      FreshZonesAreEmpty(zones, DM.NewDayModel(window, numOfTemporalSlots).value);
    }
    CountAllTotal(zones, table, city, cal, Records(dataset));
  }

  /** The constructor: zones over the map's roads, the road-to-zone table of
      the home-zone search, and the refresh gate. */
  function NewLinearHomeZoneDataModel(city: CityMap, cal: Calendar, window: int, numOfTemporalSlots: int,
                                      dataset: Option<seq<Resource>>, groups: int, hash: int): (r: Result<Routing.DataModel>)
    ensures r.Ok? ==> var dm := Routing.SamplerOf(r.value);
      && r.value.HomeZone? && r.value.hz.groups == groups
      && Wf(dm) && dm.cdf.None? && dm.matrix.None?
      && RefreshGate(numOfTemporalSlots, window).Ok? && dm.gate == Some(RefreshGate(numOfTemporalSlots, window).value)
      && BuildZones(city, cal, window, numOfTemporalSlots, dataset).Ok?
      && dm.zones == BuildZones(city, cal, window, numOfTemporalSlots, dataset).value
      && |dm.zones| == |city.roads| && AllZonesHaveRoads(dm.zones)
      && r.value.hz.roadToZone == HZ.RoadToZone(dm.zones)
    ensures r.Ok? <==> BuildZones(city, cal, window, numOfTemporalSlots, dataset).Ok? && numOfTemporalSlots != 0
    ensures r.Err? && BuildZones(city, cal, window, numOfTemporalSlots, dataset).Ok? ==> r == Err(DivisionByZero)
  {
    var zones :- BuildZones(city, cal, window, numOfTemporalSlots, dataset);
    var gate :- RefreshGate(numOfTemporalSlots, window);
    Ok(Routing.HomeZone(HZ.NewHomeZoneSampler(Sampler(zones, None, None, Some(gate)), groups), hash))
  }
}
