/** `DistanceBasedDataModel`: a sampler that first draws a batch of candidate
    zones from the density distribution and then re-draws one of them with
    weights given by the travel time from the current road to the
    candidate. */
module DistanceBasedDataModel {
  import opened Outcomes
  import opened JavaOps
  import opened Calendar
  import opened CityMap
  import opened Sums
  import opened Draws
  import opened JavaArrays
  import opened SetZone
  import opened AbstractDataModel

  /** `Math.pow`: only its positivity for a positive base is relied on. */
  type Pow = f: (real, real) -> real | forall x, y :: x > 0.0 ==> f(x, y) > 0.0
    witness (x: real, y: real) => 1.0

  /** A candidate's weight: one for a travel time that is not positive, and
      the travel time raised to the exponent otherwise. */
  function Weight(pow: Pow, exponent: real, distance: int): (w: real)
    ensures w > 0.0
  {
    if distance <= 0 then 1.0 else pow(distance as real, exponent)
  }

  /** `n` zone draws of the resampling loop, in order. */
  function DrawZones(dm: Sampler, n: nat, draws: seq<Unit>): (r: Result<(seq<int>, seq<Unit>)>)
    requires Wf(dm)
    ensures r.Ok? ==> |r.value.0| == n
    ensures r.Ok? ==> forall i :: 0 <= i < n ==> 0 <= r.value.0[i] < |dm.zones| && |dm.zones[r.value.0[i]].roads| > 0
    ensures r.Ok? ==> |r.value.1| <= |draws| - n && Leaves(draws, r.value.1)
    ensures dm.cdf.Some? && |dm.zones| > 0 && AllZonesHaveRoads(dm.zones) && |draws| >= n ==>
      r.Ok? && r.value.1 == draws[n..]
    decreases n
  {
    if n == 0 then Ok(([], draws))
    else
      var first :- DrawZone(dm, draws);
      var more :- DrawZones(dm, n - 1, first.1);
      LeavesTransitive(draws, first.1, more.1);
      Ok(([first.0] + more.0, more.1))
  }

  /** When every zone has a road, candidate `i` is the zone sampled by the
      `i`-th draw. */
  lemma {:induction false} DrawZonesSampleEach(dm: Sampler, n: nat, draws: seq<Unit>)
    requires Wf(dm) && dm.cdf.Some? && |dm.zones| > 0 && AllZonesHaveRoads(dm.zones) && |draws| >= n
    ensures DrawZones(dm, n, draws).Ok?
    ensures forall i :: 0 <= i < n ==> DrawZones(dm, n, draws).value.0[i] == SampleIndex(dm, draws[i]).value
    decreases n
  {
    if n > 0 {
      assert DrawZone(dm, draws) == Ok((SampleIndex(dm, draws[0]).value, draws[1..]));
      DrawZonesSampleEach(dm, n - 1, draws[1..]);
      var more := DrawZones(dm, n - 1, draws[1..]).value;
      assert DrawZones(dm, n, draws).value.0 == [SampleIndex(dm, draws[0]).value] + more.0;
      forall i | 1 <= i < n
        ensures DrawZones(dm, n, draws).value.0[i] == SampleIndex(dm, draws[i]).value
      {
        assert draws[1..][i - 1] == draws[i];
      }
    }
  }

  predicate Candidates(zones: seq<Zone>, indices: seq<int>) {
    forall i :: 0 <= i < |indices| ==> 0 <= indices[i] < |zones| && |zones[indices[i]].roads| > 0
  }

  /** The weight of each candidate, from the travel time between the end of
      the current road and the start of the candidate zone's first road. */
  function Weights(zones: seq<Zone>, indices: seq<int>, city: CityMap, current: Road, pow: Pow, exponent: real): (ws: seq<real>)
    requires Candidates(zones, indices)
    ensures |ws| == |indices|
    ensures forall i :: 0 <= i < |ws| ==> ws[i] > 0.0
    ensures forall i, j :: 0 <= i < |ws| && 0 <= j < |ws| && indices[i] == indices[j] ==> ws[i] == ws[j]
  {
    var ws := seq(|indices|, i requires 0 <= i < |indices| =>
      Weight(pow, exponent, city.travelTimeBetween(current.to, zones[indices[i]].roads[0].from)));
    assert forall i :: 0 <= i < |ws| ==>
      ws[i] == Weight(pow, exponent, city.travelTimeBetween(current.to, zones[indices[i]].roads[0].from));
    ws
  }

  /** `getTargetRoad`: test the gate, then draw a target from the tested
      sampler. Which candidate is chosen is stated by `CandidateChosenByWeight`,
      and the draws used by `DistanceTargetSucceeds`. */
  function DistanceTarget(dm: Sampler, cal: Calendar, city: CityMap, current: Road, time: int,
                          sampleSize: int, pow: Pow, exponent: real, draws: seq<Unit>): (r: Result<Target>)
    requires Wf(dm) && IsLong(time)
    ensures PredicateTest(dm, cal, time).Ok? && sampleSize < 0 ==> r == Err(NegativeArraySize)
    ensures sampleSize == 0 ==> r.Err?
    ensures r.Ok? ==> var t := r.value;
      && Wf(t.sampler) && t.sampler.zones == dm.zones && t.sampler.matrix == dm.matrix
      && 0 <= t.zone < |dm.zones|
      && t.road in dm.zones[t.zone].roads
      && |t.rest| <= |draws| - sampleSize - 2 && Leaves(draws, t.rest)
    ensures r.Ok? <==> PredicateTest(dm, cal, time).Ok? &&
                       DrawTarget(PredicateTest(dm, cal, time).value, city, current, sampleSize, pow, exponent, draws).Ok?
    ensures r.Ok? ==> r == DrawTarget(PredicateTest(dm, cal, time).value, city, current, sampleSize, pow, exponent, draws)
  {
    var dm' :- PredicateTest(dm, cal, time);
    DrawTarget(dm', city, current, sampleSize, pow, exponent, draws)
  }

  /** The drawing part of `getTargetRoad`: draw `sampleSize` candidates,
      select one of them by inverse-CDF sampling over their normalised
      weights (with the last candidate as fallback), then draw one of its
      roads uniformly. An empty batch leaves nothing to select. */
  function DrawTarget(dm: Sampler, city: CityMap, current: Road,
                      sampleSize: int, pow: Pow, exponent: real, draws: seq<Unit>): (r: Result<Target>)
    requires Wf(dm)
    ensures sampleSize < 0 ==> r == Err(NegativeArraySize)
    ensures sampleSize == 0 ==> r.Err?
    ensures r.Ok? ==> var t := r.value;
      && t.sampler == dm
      && 0 <= t.zone < |dm.zones|
      && t.road in dm.zones[t.zone].roads
      && |t.rest| <= |draws| - sampleSize - 2 && Leaves(draws, t.rest)
    ensures r.Ok? ==> DrawZones(dm, sampleSize, draws).Ok? && |DrawZones(dm, sampleSize, draws).value.1| >= 2
    ensures r.Ok? ==> var t := r.value;
      var (indices, rest) := DrawZones(dm, sampleSize, draws).value;
      var index := Select(BuildCdf(Weights(dm.zones, indices, city, current, pow, exponent)).cumulative, rest[0], sampleSize - 1);
      var roads := dm.zones[t.zone].roads;
      && 0 <= index < |indices|
      && t.zone == indices[index]
      && t.road == roads[NextInt(rest[1], |roads|).value]
      && t.rest == rest[2..]
  {
    if sampleSize < 0 then Err(NegativeArraySize)
    else
      var p :- DrawZones(dm, sampleSize, draws);
      var indices := p.0;
      var rest := p.1;
      var cs := BuildCdf(Weights(dm.zones, indices, city, current, pow, exponent)).cumulative;
      if |rest| == 0 then Err(StreamExhausted)
      else
        var index := Select(cs, rest[0], sampleSize - 1);
        if !(0 <= index < sampleSize) then Err(IndexOutOfBounds)
        else if |rest| == 1 then Err(StreamExhausted)
        else
          var zone := indices[index];
          var roads := dm.zones[zone].roads;
          var k := NextInt(rest[1], |roads|).value;
          LeavesTransitive(draws, rest, rest[2..]);
          Ok(Target(roads[k], zone, dm, rest[2..]))
  }

  /** Once the distribution is set and every zone has a road, a batch of
      `sampleSize` candidates costs exactly `sampleSize + 2` draws and always
      yields a road. */
  lemma DrawTargetSucceeds(dm: Sampler, city: CityMap, current: Road,
                           sampleSize: int, pow: Pow, exponent: real, draws: seq<Unit>)
    requires Wf(dm) && dm.cdf.Some?
    requires |dm.zones| > 0 && AllZonesHaveRoads(dm.zones)
    requires sampleSize > 0 && |draws| >= sampleSize + 2
    ensures DrawTarget(dm, city, current, sampleSize, pow, exponent, draws).Ok?
    ensures DrawTarget(dm, city, current, sampleSize, pow, exponent, draws).value.rest == draws[sampleSize + 2..]
  {
    var p := DrawZones(dm, sampleSize, draws).value;
    var rest := p.1;
    assert rest == draws[sampleSize..];
    var cs := BuildCdf(Weights(dm.zones, p.0, city, current, pow, exponent)).cumulative;
    assert |cs| == sampleSize;
    var index := Select(cs, rest[0], sampleSize - 1);
    assert 0 <= index < sampleSize;
    assert rest[2..] == draws[sampleSize + 2..];
  }

  /** With the tested distribution set, the whole call succeeds the same way. */
  lemma DistanceTargetSucceeds(dm: Sampler, cal: Calendar, city: CityMap, current: Road, time: int,
                               sampleSize: int, pow: Pow, exponent: real, draws: seq<Unit>)
    requires Wf(dm) && IsLong(time)
    requires |dm.zones| > 0 && AllZonesHaveRoads(dm.zones)
    requires PredicateTest(dm, cal, time).Ok? && PredicateTest(dm, cal, time).value.cdf.Some?
    requires sampleSize > 0 && |draws| >= sampleSize + 2
    ensures DistanceTarget(dm, cal, city, current, time, sampleSize, pow, exponent, draws).Ok?
    ensures DistanceTarget(dm, cal, city, current, time, sampleSize, pow, exponent, draws).value.rest == draws[sampleSize + 2..]
  {
    DrawTargetSucceeds(PredicateTest(dm, cal, time).value, city, current, sampleSize, pow, exponent, draws);
  }

  /** Candidate `k` is selected exactly when the draw falls in its slice of
      the cumulative distribution, and that slice is as wide as the
      candidate's normalised weight (for a draw that is no cumulative
      entry); `Normalize` relates that width to the weights. */
  lemma CandidateChosenByWeight(ws: seq<real>, u: real, k: int)
    requires |ws| > 0 && 0 <= k < |ws|
    requires forall i :: 0 <= i < |ws| ==> ws[i] > 0.0
    requires forall i :: 0 <= i < |ws| ==> BuildCdf(ws).cumulative[i] != u
    ensures var cs := BuildCdf(ws).cumulative;
      var share := BuildCdf(ws).normalized[k];
      && (Select(cs, u, |ws| - 1) == k <==> (k == 0 || cs[k - 1] < u) && (k == |ws| - 1 || u < cs[k]))
      && (k == 0 ==> cs[k] == share)
      && (k > 0 ==> cs[k] - cs[k - 1] == share)
      && share == Normalize(ws)[k]
      && cs[|ws| - 1] == 1.0
  {
    var c := BuildCdf(ws);
    PositiveSum(ws);
    BuildCdfIsDistribution(ws);
    SelectIsInverseCdf(c.cumulative, u, k);
  }

  lemma {:induction false} PositiveSum(ws: seq<real>)
    requires |ws| > 0 && forall i :: 0 <= i < |ws| ==> ws[i] > 0.0
    ensures Sum(ws) > 0.0
  {
    SumNonNegative(ws[1..]);
  }
}
