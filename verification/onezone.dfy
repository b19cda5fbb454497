/** What the two concrete data models share: one zone per road of the map,
    a table from road id to that road's zone, and a refresh gate whose
    period is the greatest common divisor of the slot length and the window
    length in seconds. This is not a class of the program: it gathers the
    `mappingTable` and gate code that `MFDataModel` and
    `LinearHomeZoneDataModel` each carry in their constructors. */
module OneZonePerRoad {
  import opened Outcomes
  import opened JavaOps
  import opened TemporalModel
  import opened CityMap
  import opened Utils
  import PU = PeriodicUpdated

  /** `mappingTable`: road `i`'s id maps to zone `i`; for a repeated id the
      later road's zone wins (`MappingTableKeys`, `MappingTableLastWins`). */
  function MappingTable(roads: seq<Road>): (m: map<int, int>)
    ensures forall id :: id in m ==> 0 <= m[id] < |roads| && roads[m[id]].id == id
    decreases |roads|
  {
    if |roads| == 0 then map[]
    else
      var n := |roads| - 1;
      var earlier := MappingTable(roads[..n]);
      assert forall id :: id in earlier ==> roads[..n][earlier[id]] == roads[earlier[id]];
      earlier[roads[n].id := n]
  }

  /** The keys are exactly the ids of the roads. */
  lemma {:induction false} MappingTableKeys(roads: seq<Road>, id: int)
    ensures id in MappingTable(roads) <==> exists i :: 0 <= i < |roads| && roads[i].id == id
    decreases |roads|
  {
    if |roads| > 0 {
      var n := |roads| - 1;
      var front := roads[..n];
      MappingTableKeys(front, id);
      if i :| 0 <= i < |roads| && roads[i].id == id {
        if i < n {
          assert front[i] == roads[i];
        }
      }
      if i :| 0 <= i < n && front[i].id == id {
        assert front[i] == roads[i];
      }
    }
  }

  /** An id maps to the last road carrying it. */
  lemma {:induction false} MappingTableLastWins(roads: seq<Road>, id: int)
    requires id in MappingTable(roads)
    ensures forall j :: MappingTable(roads)[id] < j < |roads| ==> roads[j].id != id
    decreases |roads|
  {
    assert |roads| > 0;
    var n := |roads| - 1;
    var front := roads[..n];
    if roads[n].id != id {
      MappingTableLastWins(front, id);
      forall j | MappingTable(roads)[id] < j < n
        ensures roads[j].id != id
      {
        assert front[j] == roads[j];
      }
    }
  }

  /** The slot length in seconds (`SPAN_IN_MINUTE * 60 / n`, an `int`
      division), the window in seconds (an `int` product), and their gcd. A
      slot count of zero divides by zero. */
  function RefreshPeriod(numOfTemporalSlots: int, window: int): (r: Result<int>)
    ensures r.Err? <==> numOfTemporalSlots == 0
    ensures r.Err? ==> r.failure == DivisionByZero
    ensures r.Ok? ==> IsInt(r.value)
  {
    if numOfTemporalSlots == 0 then Err(DivisionByZero)
    else
      var slotSizeInSecond := Quot(SPAN_IN_MINUTE * SECONDS_OF_MINUTE, numOfTemporalSlots);
      var windowInSecond := WrapInt(window * SECONDS_OF_MINUTE);
      Ok(Gcd(slotSizeInSecond, windowInSecond))
  }

  /** For a positive slot count and a non-negative window that fits an
      `int` in seconds, the period divides both the slot length and the
      window length, and any common divisor of the two divides it; it is
      positive unless both lengths are zero. */
  lemma RefreshPeriodIsGcd(numOfTemporalSlots: int, window: int, d: int)
    requires numOfTemporalSlots > 0 && window >= 0 && IsInt(window * SECONDS_OF_MINUTE)
    ensures RefreshPeriod(numOfTemporalSlots, window).Ok?
    ensures var p := RefreshPeriod(numOfTemporalSlots, window).value;
      var slot := (SPAN_IN_MINUTE * SECONDS_OF_MINUTE) / numOfTemporalSlots;
      && (slot > 0 || window > 0 ==> p > 0)
      && Divides(p, slot) && Divides(p, window * SECONDS_OF_MINUTE)
      && (Divides(d, slot) && Divides(d, window * SECONDS_OF_MINUTE) ==> Divides(d, p))
  {
    var slot := (SPAN_IN_MINUTE * SECONDS_OF_MINUTE) / numOfTemporalSlots;
    assert Quot(SPAN_IN_MINUTE * SECONDS_OF_MINUTE, numOfTemporalSlots) == slot;
    var w := window * SECONDS_OF_MINUTE;
    assert WrapInt(w) == w;
    assert RefreshPeriod(numOfTemporalSlots, window) == Ok(Gcd(slot, w));
    GcdDividesBoth(slot, w);
    if Divides(d, slot) && Divides(d, w) {
      GcdIsGreatest(slot, w, d);
    }
  }

  /** The gate both data models install. */
  function RefreshGate(numOfTemporalSlots: int, window: int): (r: Result<PU.Gate>)
    ensures r.Ok? <==> numOfTemporalSlots != 0
    ensures r.Ok? ==> PU.Valid(r.value) && r.value.lastUpdate == LONG_MIN
    ensures r.Ok? && RefreshPeriod(numOfTemporalSlots, window).value > 0 ==>
      r.value.period == RefreshPeriod(numOfTemporalSlots, window).value
    ensures r.Ok? && RefreshPeriod(numOfTemporalSlots, window).value <= 0 ==> r.value.period == 1
  {
    var period :- RefreshPeriod(numOfTemporalSlots, window);
    Ok(PU.NewGate(period))
  }
}
