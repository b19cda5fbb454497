/** `MFDataModel`: the distance-based sampler over one zone per road, every
    zone's density read from one shared demand matrix whose rows are the
    road ids in ascending order. */
module MFDataModel {
  import opened Outcomes
  import opened JavaOps
  import opened Calendar
  import opened CityMap
  import opened AbstractMatrix
  import MM = MutableMatrixImpl
  import FM = FactorizedMatrix
  import opened Matrices
  import MF = MFModel
  import opened SetZone
  import opened AbstractDataModel
  import opened OneZonePerRoad
  import DB = DistanceBasedDataModel
  import Routing

  predicate Ascending(s: seq<int>) {
    forall i, j :: 0 <= i < j < |s| ==> s[i] <= s[j]
  }

  /** `x` placed in front of the first larger element of a sorted list. */
  function Insert(x: int, s: seq<int>): (r: seq<int>)
    requires Ascending(s)
    ensures Ascending(r)
    ensures multiset(r) == multiset(s) + multiset{x}
    ensures |r| == |s| + 1
    ensures r[0] == if |s| == 0 || x <= s[0] then x else s[0]
    decreases |s|
  {
    if |s| == 0 then [x]
    else if x <= s[0] then [x] + s
    else
      var rest := Insert(x, s[1..]);
      assert s == [s[0]] + s[1..];
      [s[0]] + rest
  }

  /** `roadIds.sort(null)`: the ids in ascending order, repeats kept. */
  function SortIds(ids: seq<int>): (r: seq<int>)
    ensures Ascending(r)
    ensures multiset(r) == multiset(ids)
    decreases |ids|
  {
    if |ids| == 0 then []
    else
      assert ids == [ids[0]] + ids[1..];
      Insert(ids[0], SortIds(ids[1..]))
  }

  /** The factor rows read from the model files: absent when a file cannot
      be opened (the exception is caught and the factors stay unset). */
  type LoadedFactors = Option<FM.Factors>

  /** `loadMatrix`: the frame over the sorted road ids, then a zeroed
      counting matrix when the matrix is to be built, and otherwise a
      factorised matrix with the loaded factors installed through `setWH`. */
  function LoadMatrix(cal: Calendar, start: DateTime, end: DateTime, numOfTemporalSlots: int,
                      roads: seq<Road>, buildMatrix: bool, loaded: LoadedFactors): (r: Result<Matrix>)
    ensures var frame := NewFrame(cal, start, end, numOfTemporalSlots, SortIds(RoadIds(roads)));
      r.Ok? <==> frame.Ok? && (!buildMatrix && loaded.Some? ==>
                               FM.SetWH(FM.FactorizedMatrix(frame.value, None), loaded.value.w, loaded.value.h).Ok?)
    ensures var frame := NewFrame(cal, start, end, numOfTemporalSlots, SortIds(RoadIds(roads)));
      r.Ok? ==> frame.Ok? && FrameOf(r.value) == frame.value
    ensures r.Ok? ==> (r.value.Mutable? <==> buildMatrix)
    ensures r.Ok? && buildMatrix ==> forall row, column :: 0 <= row < |r.value.grid.mat| && 0 <= column < |r.value.grid.mat[row]| ==>
      r.value.grid.mat[row][column] == 0.0
    ensures r.Ok? && !buildMatrix ==> r.value.product.factors == loaded
  {
    var frame :- NewFrame(cal, start, end, numOfTemporalSlots, SortIds(RoadIds(roads)));
    if buildMatrix then Ok(Mutable(MM.NewMutableMatrix(frame)))
    else
      var fm := FM.FactorizedMatrix(frame, None);
      if loaded.None? then Ok(Factorized(fm))
      else
        var fm' :- FM.SetWH(fm, loaded.value.w, loaded.value.h);
        Ok(Factorized(fm'))
  }

  /** Every road id is a row of the loaded matrix, at the position the
      sorted id list gives it. */
  lemma RowsAreSortedRoadIds(cal: Calendar, start: DateTime, end: DateTime, numOfTemporalSlots: int,
                             roads: seq<Road>, buildMatrix: bool, loaded: LoadedFactors, k: int)
    requires LoadMatrix(cal, start, end, numOfTemporalSlots, roads, buildMatrix, loaded).Ok?
    requires 0 <= k < |roads|
    ensures var mx := LoadMatrix(cal, start, end, numOfTemporalSlots, roads, buildMatrix, loaded).value;
      var ids := SortIds(RoadIds(roads));
      var row := FindRow(FrameOf(mx), roads[k].id);
      0 <= row < |ids| && ids[row] == roads[k].id
  {
    var ids := SortIds(RoadIds(roads));
    assert RoadIds(roads)[k] == roads[k].id;
    assert roads[k].id in multiset(RoadIds(roads));
    assert roads[k].id in ids;
    FindRowOfBuiltFrame(cal, start, end, numOfTemporalSlots, ids, roads[k].id);
  }

  /** The zone of road `i`: one road, and a matrix-backed model carrying
      that road's id. */
  function RoadZone(road: Road, window: int): (z: Zone)
    ensures z.roads == [road]
    ensures z.model == MatrixBacked(MF.SetRoadId(MF.NewMFModel(window), road.id))
  {
    Add(NewZone(MatrixBacked(MF.SetRoadId(MF.NewMFModel(window), road.id))), road).1
  }

  /** `buildZones`: one zone per road, in road order; zone `i` holds road
      `i` alone and its model reads the row of that road's id over the
      window. */
  function BuildZones(roads: seq<Road>, window: int): (zones: seq<Zone>)
    ensures |zones| == |roads| && AllZonesHaveRoads(zones)
    ensures forall i :: 0 <= i < |roads| ==>
      && zones[i].roads == [roads[i]]
      && zones[i].model.MatrixBacked?
      && zones[i].model.mf.roadId == roads[i].id && zones[i].model.mf.window == window
  {
    seq(|roads|, i requires 0 <= i < |roads| => RoadZone(roads[i], window))
  }

  /** Every built zone has exactly its own road, so the sampling loops never
      see an empty zone, and the mapping table leads from a road id to a zone
      holding a road with that id whose model reads that id's row. */
  lemma BuiltZonesHaveTheirRoads(roads: seq<Road>, window: int)
    ensures AllZonesHaveRoads(BuildZones(roads, window))
    ensures var zones := BuildZones(roads, window);
      var table := MappingTable(roads);
      forall id :: id in table ==>
        && 0 <= table[id] < |zones|
        && zones[table[id]].roads == [roads[table[id]]] && roads[table[id]].id == id
        && zones[table[id]].model.mf.roadId == id
  {
  }

  /** The constructor: zones over the map's roads sharing the loaded matrix,
      then the refresh gate, and the distance-based rule with its
      parameters. */
  function NewMFDataModel(cal: Calendar, city: CityMap, start: DateTime, end: DateTime,
                          numOfTemporalSlots: int, window: int, buildMatrix: bool, loaded: LoadedFactors,
                          sampleSize: int, pow: DB.Pow, exponent: real): (r: Result<Routing.DataModel>)
    ensures r.Ok? ==> var dm := Routing.SamplerOf(r.value);
      && LoadMatrix(cal, start, end, numOfTemporalSlots, city.roads, buildMatrix, loaded).Ok?
      && r.value.DistanceBased? && r.value.sampleSize == sampleSize
      && Wf(dm) && dm.cdf.None?
      && RefreshGate(numOfTemporalSlots, window).Ok? && dm.gate == Some(RefreshGate(numOfTemporalSlots, window).value)
      && dm.zones == BuildZones(city.roads, window)
      && dm.matrix == Some(LoadMatrix(cal, start, end, numOfTemporalSlots, city.roads, buildMatrix, loaded).value)
    ensures r.Ok? <==> LoadMatrix(cal, start, end, numOfTemporalSlots, city.roads, buildMatrix, loaded).Ok?
                       && numOfTemporalSlots != 0
    ensures r.Err? && LoadMatrix(cal, start, end, numOfTemporalSlots, city.roads, buildMatrix, loaded).Ok? ==>
      r == Err(DivisionByZero)
  {
    var mx :- LoadMatrix(cal, start, end, numOfTemporalSlots, city.roads, buildMatrix, loaded);
    var zones := BuildZones(city.roads, window);
    var gate :- RefreshGate(numOfTemporalSlots, window);
    Ok(Routing.DistanceBased(Sampler(zones, Some(mx), None, Some(gate)), sampleSize, pow, exponent))
  }
}
