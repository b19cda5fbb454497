/** `AbstractDataModel`: the zone sampler shared by all data models. Zone
    densities at a time are normalised into probabilities and prefix-summed
    into a cumulative distribution; a uniform draw is then mapped back to a
    zone through that distribution (inverse-CDF sampling), and a road is
    drawn uniformly from the chosen zone. */
module AbstractDataModel {
  import opened Outcomes
  import opened JavaOps
  import opened Calendar
  import opened CityMap
  import opened Sums
  import opened Draws
  import opened JavaArrays
  import opened Matrices
  import opened SetZone
  import PU = PeriodicUpdated

  /** Every density divided by the (non-zero) total, in order. */
  function Scale(ps: seq<real>, total: real): (ns: seq<real>)
    requires total != 0.0
    ensures |ns| == |ps|
    ensures forall i :: 0 <= i < |ps| ==> ns[i] * total == ps[i]
    decreases |ps|
  {
    if |ps| == 0 then [] else [ps[0] * 1.0 / total] + Scale(ps[1..], total)
  }

  /** The same probability for each of `n` zones. */
  function Uniform(n: nat): (ns: seq<real>)
    ensures |ns| == n
    ensures forall i :: 0 <= i < n ==> ns[i] * n as real == 1.0
  {
    seq(n, i requires 0 <= i < n => 1.0 / n as real)
  }

  /** Densities normalised to probabilities: proportional to the densities
      when their total is positive, and uniform otherwise. */
  function Normalize(ps: seq<real>): (ns: seq<real>)
    ensures |ns| == |ps|
    ensures Sum(ps) > 0.0 ==> forall i :: 0 <= i < |ps| ==> ns[i] * Sum(ps) == ps[i]
    ensures Sum(ps) <= 0.0 ==> forall i :: 0 <= i < |ps| ==> ns[i] * |ps| as real == 1.0
  {
    var total := Sum(ps);
    if total > 0.0 then Scale(ps, total) else Uniform(|ps|)
  }

  lemma {:induction false} SumOfScale(ps: seq<real>, total: real)
    requires total != 0.0
    ensures Sum(Scale(ps, total)) * total == Sum(ps)
    decreases |ps|
  {
    if |ps| > 0 {
      SumOfScale(ps[1..], total);
      var head := ps[0] * 1.0 / total;
      assert head * total == ps[0];
      assert Sum(Scale(ps, total)) == head + Sum(Scale(ps[1..], total));
      assert (head + Sum(Scale(ps[1..], total))) * total == head * total + Sum(Scale(ps[1..], total)) * total;
    }
  }

  /** Over exact reals the probabilities of a non-empty zone list sum to one. */
  lemma NormalizeSumsToOne(ps: seq<real>)
    requires |ps| > 0
    ensures Sum(Normalize(ps)) == 1.0
  {
    var total := Sum(ps);
    if total > 0.0 {
      SumOfScale(ps, total);
      var x := Sum(Scale(ps, total));
      assert x * total == 1.0 * total;
    } else {
      var c := 1.0 / |ps| as real;
      SumConstant(|ps|, c);
      assert Uniform(|ps|) == seq(|ps|, i => c);
    }
  }

  /** Non-negative densities give non-negative probabilities. */
  lemma NormalizeNonNegative(ps: seq<real>)
    requires forall i :: 0 <= i < |ps| ==> ps[i] >= 0.0
    ensures forall i :: 0 <= i < |ps| ==> Normalize(ps)[i] >= 0.0
  {
    SumNonNegative(ps);
  }

  /** The running sums `acc + ns[0]`, `acc + ns[0] + ns[1]`, ... accumulated
      left to right. */
  function Accumulate(ns: seq<real>, acc: real): (cs: seq<real>)
    ensures |cs| == |ns|
    ensures forall i :: 0 <= i < |ns| ==> cs[i] == acc + Sum(ns[..i + 1])
    decreases |ns|
  {
    if |ns| == 0 then []
    else
      var rest := Accumulate(ns[1..], acc + ns[0]);
      SumOfPrefixes(ns);
      [acc + ns[0]] + rest
  }

  /** A prefix sum is the first element plus a prefix sum of the tail. */
  lemma SumOfPrefixes(ns: seq<real>)
    requires |ns| > 0
    ensures forall j :: 1 <= j <= |ns| ==> Sum(ns[..j]) == ns[0] + Sum(ns[1..][..j - 1])
  {
    forall j | 1 <= j <= |ns|
      ensures Sum(ns[..j]) == ns[0] + Sum(ns[1..][..j - 1])
    {
      assert ns[..j][1..] == ns[1..][..j - 1];
    }
  }

  /** The cumulative probabilities: entry `i` is the sum of the first `i + 1`
      probabilities. */
  function PrefixSums(ns: seq<real>): (cs: seq<real>)
    ensures |cs| == |ns|
    ensures forall i :: 0 <= i < |ns| ==> cs[i] == Sum(ns[..i + 1])
  {
    Accumulate(ns, 0.0)
  }

  /** Each entry adds the next probability to the one before. */
  lemma PrefixSumsStep(ns: seq<real>, i: int)
    requires 0 <= i < |ns| - 1
    ensures PrefixSums(ns)[i + 1] == PrefixSums(ns)[i] + ns[i + 1]
  {
    assert ns[..i + 2] == ns[..i + 1] + [ns[i + 1]];
    SumAppend(ns[..i + 1], ns[i + 1]);
  }

  lemma {:induction false} PrefixSumsMonotoneFrom(ns: seq<real>, i: int, j: int)
    requires forall k :: 0 <= k < |ns| ==> ns[k] >= 0.0
    requires 0 <= i <= j < |ns|
    ensures PrefixSums(ns)[i] <= PrefixSums(ns)[j]
    decreases j - i
  {
    if i < j {
      PrefixSumsMonotoneFrom(ns, i, j - 1);
      PrefixSumsStep(ns, j - 1);
    }
  }

  /** With non-negative probabilities the cumulative distribution is sorted,
      as the binary search needs. */
  lemma PrefixSumsSorted(ns: seq<real>)
    requires forall k :: 0 <= k < |ns| ==> ns[k] >= 0.0
    ensures Sorted(PrefixSums(ns))
  {
    forall i, j | 0 <= i <= j < |ns|
      ensures PrefixSums(ns)[i] <= PrefixSums(ns)[j]
    {
      PrefixSumsMonotoneFrom(ns, i, j);
    }
  }

  /** The last cumulative entry is the total. */
  lemma PrefixSumsLast(ns: seq<real>)
    requires |ns| > 0
    ensures PrefixSums(ns)[|ns| - 1] == Sum(ns)
  {
    assert ns[..|ns|] == ns;
  }

  datatype Cdf = Cdf(normalized: seq<real>, cumulative: seq<real>)

  /** The two arrays `resetCdf` builds from the zone densities. */
  function BuildCdf(ps: seq<real>): (c: Cdf)
    ensures |c.normalized| == |ps| && |c.cumulative| == |ps|
    ensures Sum(ps) > 0.0 ==> forall i :: 0 <= i < |ps| ==> c.normalized[i] * Sum(ps) == ps[i]
    ensures Sum(ps) <= 0.0 ==> forall i :: 0 <= i < |ps| ==> c.normalized[i] * |ps| as real == 1.0
    ensures forall i :: 0 <= i < |ps| ==> c.cumulative[i] == Sum(c.normalized[..i + 1])
  {
    var ns := Normalize(ps);
    Cdf(ns, PrefixSums(ns))
  }

  /** For non-negative densities the distribution is a proper CDF: sorted,
      each step the probability of its zone, and ending at one. */
  lemma BuildCdfIsDistribution(ps: seq<real>)
    requires |ps| > 0
    requires forall i :: 0 <= i < |ps| ==> ps[i] >= 0.0
    ensures var c := BuildCdf(ps);
      && Sorted(c.cumulative)
      && c.cumulative[|ps| - 1] == 1.0
      && c.cumulative[0] == c.normalized[0]
      && forall i :: 0 < i < |ps| ==> c.cumulative[i] - c.cumulative[i - 1] == c.normalized[i]
  {
    var ns := Normalize(ps);
    NormalizeNonNegative(ps);
    PrefixSumsSorted(ns);
    PrefixSumsLast(ns);
    NormalizeSumsToOne(ps);
    assert ns[..1] == [ns[0]];
    forall i | 0 < i < |ps|
      ensures PrefixSums(ns)[i] - PrefixSums(ns)[i - 1] == ns[i]
    {
      PrefixSumsStep(ns, i - 1);
    }
  }

  /** The densities of all zones at `time`, in zone order; the first zone
      whose density cannot be read fails the whole reset. */
  function ZoneDensities(zones: seq<Zone>, cal: Calendar, mx: Option<Matrix>, time: int): (r: Result<seq<real>>)
    ensures r.Ok? <==> forall i :: 0 <= i < |zones| ==> Density(zones[i], cal, mx, time).Ok?
    ensures r.Ok? ==>
      && |r.value| == |zones|
      && forall i :: 0 <= i < |zones| ==> Density(zones[i], cal, mx, time) == Ok(r.value[i])
    decreases |zones|
  {
    if |zones| == 0 then Ok([])
    else
      var d :- Density(zones[0], cal, mx, time);
      var rest :- ZoneDensities(zones[1..], cal, mx, time);
      assert forall i :: 1 <= i < |zones| ==> zones[i] == zones[1..][i - 1];
      Ok([d] + rest)
  }

  /** `resetCdf(time)`. */
  function ResetCdf(zones: seq<Zone>, cal: Calendar, mx: Option<Matrix>, time: int): (r: Result<Cdf>)
    ensures r.Ok? <==> ZoneDensities(zones, cal, mx, time).Ok?
    ensures r.Ok? ==> |r.value.normalized| == |zones| && |r.value.cumulative| == |zones|
    ensures r.Ok? ==> r.value == BuildCdf(ZoneDensities(zones, cal, mx, time).value)
  {
    var ps :- ZoneDensities(zones, cal, mx, time);
    Ok(BuildCdf(ps))
  }

  /** The selection rule of both samplers: start from the found index or the
      insertion point; keep it when it is inside the array and the draw lies
      strictly below its cumulative entry, and use `fallback` otherwise. */
  function Select(cs: seq<real>, u: real, fallback: int): (k: int)
    ensures k == fallback || (0 <= k < |cs| && u < cs[k])
    ensures Sorted(cs) && (exists i :: 0 <= i < |cs| && cs[i] == u) ==> k == fallback
    ensures Sorted(cs) && (forall i :: 0 <= i < |cs| ==> cs[i] != u) ==>
      && ((exists i :: 0 <= i < |cs| && u < cs[i]) ==> 0 <= k < |cs| && forall i :: 0 <= i < k ==> cs[i] < u)
      && ((forall i :: 0 <= i < |cs| ==> cs[i] < u) ==> k == fallback)
  {
    var idx := InsertionIndex(cs, u);
    if 0 <= idx < |cs| && u < cs[idx] then idx else fallback
  }

  /** Inverse-CDF sampling: for a draw that is no cumulative entry, the last
      index is chosen exactly when the draw is at or above the entry before
      it, and any other index `k` exactly when the draw falls between the
      entry before `k` and the entry at `k`. */
  lemma SelectIsInverseCdf(cs: seq<real>, u: real, k: int)
    requires Sorted(cs) && 0 <= k < |cs|
    requires forall i :: 0 <= i < |cs| ==> cs[i] != u
    ensures Select(cs, u, |cs| - 1) == k <==>
      (k == 0 || cs[k - 1] < u) && (k == |cs| - 1 || u < cs[k])
  {
    var s := Select(cs, u, |cs| - 1);
    if (exists i :: 0 <= i < |cs| && u < cs[i]) {
      assert 0 <= s < |cs| && u < cs[s] && forall i :: 0 <= i < s ==> cs[i] < u;
      if s == k {
        if k > 0 {
          assert cs[k - 1] < u;
        }
      }
    } else {
      assert s == |cs| - 1;
      if k == |cs| - 1 && k > 0 {
        assert cs[k - 1] < u by {
          assert !(u < cs[k - 1]);
        }
      }
      if k < |cs| - 1 {
        assert !(u < cs[k]);
      }
    }
  }

  /** The sampler's state: its zones, the matrix the zones' models may share,
      the cumulative distribution (unset until the first reset), and the
      refresh gate (absent when no predicate was set). */
  datatype Sampler = Sampler(
    zones: seq<Zone>,
    matrix: Option<Matrix>,
    cdf: Option<Cdf>,
    gate: Option<PU.Gate>)

  /** The state every data model keeps: a constructed gate and a
      distribution over exactly its zones. */
  predicate Wf(dm: Sampler) {
    && (dm.gate.Some? ==> PU.Valid(dm.gate.value))
    && (dm.cdf.Some? ==> |dm.cdf.value.normalized| == |dm.zones| && |dm.cdf.value.cumulative| == |dm.zones|)
  }

  /** `predicateTest(time)`: the distribution is rebuilt only when a gate is
      set and fires; otherwise it is left as it was. A firing gate records
      the time. */
  function PredicateTest(dm: Sampler, cal: Calendar, time: int): (r: Result<Sampler>)
    requires Wf(dm) && IsLong(time)
    ensures r.Ok? ==> Wf(r.value) && r.value.zones == dm.zones && r.value.matrix == dm.matrix
    ensures dm.gate.None? ==> r == Ok(dm)
    ensures dm.gate.Some? && !PU.Test(dm.gate.value, time).0 ==> r == Ok(dm)
    ensures dm.gate.Some? && PU.Test(dm.gate.value, time).0 ==>
      && (r.Ok? <==> ResetCdf(dm.zones, cal, dm.matrix, time).Ok?)
      && (r.Ok? ==> r.value.cdf == Some(ResetCdf(dm.zones, cal, dm.matrix, time).value)
                    && r.value.gate == Some(PU.Test(dm.gate.value, time).1))
  {
    if dm.gate.None? then Ok(dm)
    else
      var (fire, gate) := PU.Test(dm.gate.value, time);
      if !fire then Ok(dm.(gate := Some(gate)))
      else
        var cdf :- ResetCdf(dm.zones, cal, dm.matrix, time);
        Ok(dm.(cdf := Some(cdf), gate := Some(gate)))
  }

  /** `sampleIndex` on one draw: the selection rule over the cumulative
      distribution with the last zone as fallback. An unset distribution
      cannot be searched. Which zone a draw samples is stated by
      `SampleIndexIsInverseCdf`. */
  function SampleIndex(dm: Sampler, u: Unit): (r: Result<int>)
    requires Wf(dm)
    ensures r.Ok? <==> dm.cdf.Some?
    ensures r.Err? ==> r.failure == NullReference
    ensures r.Ok? && |dm.zones| > 0 ==> 0 <= r.value < |dm.zones|
    ensures r.Ok? && |dm.zones| == 0 ==> r.value == -1
    ensures r.Ok? ==> r.value == Select(dm.cdf.value.cumulative, u, |dm.zones| - 1)
  {
    if dm.cdf.None? then Err(NullReference)
    else Ok(Select(dm.cdf.value.cumulative, u, |dm.zones| - 1))
  }

  /** Over a sorted distribution, zone `k` is sampled exactly when the draw
      falls in its slice: at or above the entry before `k` (from zero for the
      first zone) and below the entry at `k` (without bound for the last). */
  lemma SampleIndexIsInverseCdf(dm: Sampler, u: Unit, k: int)
    requires Wf(dm) && dm.cdf.Some? && 0 <= k < |dm.zones|
    requires Sorted(dm.cdf.value.cumulative)
    requires forall i :: 0 <= i < |dm.zones| ==> dm.cdf.value.cumulative[i] != u
    ensures var cs := dm.cdf.value.cumulative;
      SampleIndex(dm, u) == Ok(k) <==> (k == 0 || cs[k - 1] < u) && (k == |dm.zones| - 1 || u < cs[k])
  {
    SelectIsInverseCdf(dm.cdf.value.cumulative, u, k);
  }

  predicate AllZonesHaveRoads(zones: seq<Zone>) {
    forall i :: 0 <= i < |zones| ==> |zones[i].roads| > 0
  }

  /** The draw samples a zone that has no road. */
  predicate EmptyZoneDrawn(dm: Sampler, u: Unit)
    requires Wf(dm)
  {
    var k := SampleIndex(dm, u);
    k.Ok? && 0 <= k.value < |dm.zones| && |dm.zones[k.value].roads| == 0
  }

  /** The resampling loop: draw zones until one has a road. Each attempt
      consumes one draw; the draws left over are returned. */
  function DrawZone(dm: Sampler, draws: seq<Unit>): (r: Result<(int, seq<Unit>)>)
    requires Wf(dm)
    ensures r.Ok? ==> 0 <= r.value.0 < |dm.zones| && |dm.zones[r.value.0].roads| > 0
    ensures r.Ok? ==> |r.value.1| < |draws| && Leaves(draws, r.value.1)
    ensures dm.cdf.Some? && |dm.zones| > 0 && AllZonesHaveRoads(dm.zones) && |draws| > 0 ==>
      r.Ok? && r.value.1 == draws[1..] && r.value.0 == SampleIndex(dm, draws[0]).value
    decreases |draws|
  {
    if |draws| == 0 then Err(StreamExhausted)
    else
      var k :- SampleIndex(dm, draws[0]);
      if !(0 <= k < |dm.zones|) then Err(IndexOutOfBounds)
      else if |dm.zones[k].roads| <= 0 then DrawZone(dm, draws[1..])
      else Ok((k, draws[1..]))
  }

  /** The zone drawn is the one sampled by the last draw consumed, and every
      draw consumed before it sampled a zone without roads. */
  lemma {:induction false} DrawZoneFirstWithRoad(dm: Sampler, draws: seq<Unit>, zone: int, rest: seq<Unit>)
    requires Wf(dm) && DrawZone(dm, draws) == Ok((zone, rest))
    ensures 0 < |draws| - |rest| <= |draws|
    ensures SampleIndex(dm, draws[|draws| - |rest| - 1]) == Ok(zone)
    ensures forall i :: 0 <= i < |draws| - |rest| - 1 ==> EmptyZoneDrawn(dm, draws[i])
    decreases |draws|
  {
    var k := SampleIndex(dm, draws[0]).value;
    if |dm.zones[k].roads| <= 0 {
      assert DrawZone(dm, draws[1..]) == Ok((zone, rest));
      DrawZoneFirstWithRoad(dm, draws[1..], zone, rest);
      assert EmptyZoneDrawn(dm, draws[0]);
      forall i | 1 <= i < |draws| - |rest|
        ensures draws[i] == draws[1..][i - 1]
      {
      }
    }
  }

  /** A chosen road, the sampler after its gate test, and the draws left. */
  datatype Target = Target(road: Road, zone: int, sampler: Sampler, rest: seq<Unit>)

  /** `getTargetRoad` of the base sampler: test the gate, then draw a road
      from the tested sampler. Which zone is drawn is stated by
      `DrawZoneFirstWithRoad`, and the draws used by `PlainTargetUsesTwoDraws`. */
  function PlainTarget(dm: Sampler, cal: Calendar, time: int, draws: seq<Unit>): (r: Result<Target>)
    requires Wf(dm) && IsLong(time)
    ensures r.Ok? ==> var t := r.value;
      && Wf(t.sampler) && t.sampler.zones == dm.zones && t.sampler.matrix == dm.matrix
      && 0 <= t.zone < |dm.zones|
      && t.road in dm.zones[t.zone].roads
      && |t.rest| < |draws| && Leaves(draws, t.rest)
    ensures r.Ok? <==> PredicateTest(dm, cal, time).Ok? && DrawRoad(PredicateTest(dm, cal, time).value, draws).Ok?
    ensures r.Ok? ==> r == DrawRoad(PredicateTest(dm, cal, time).value, draws)
  {
    var dm' :- PredicateTest(dm, cal, time);
    DrawRoad(dm', draws)
  }

  /** The drawing part of the base `getTargetRoad`: the zone of the first
      draw that samples a zone with a road, then one of that zone's roads
      drawn uniformly with the next draw. */
  function DrawRoad(dm: Sampler, draws: seq<Unit>): (r: Result<Target>)
    requires Wf(dm)
    ensures r.Ok? <==> DrawZone(dm, draws).Ok? && |DrawZone(dm, draws).value.1| > 0
    ensures r.Ok? ==> var t := r.value;
      var (zone, rest) := DrawZone(dm, draws).value;
      var roads := dm.zones[zone].roads;
      && t.sampler == dm
      && t.zone == zone
      && t.road == roads[NextInt(rest[0], |roads|).value]
      && t.road in dm.zones[t.zone].roads
      && t.rest == rest[1..]
      && |t.rest| < |draws| && Leaves(draws, t.rest)
  {
    var p :- DrawZone(dm, draws);
    var zone := p.0;
    var rest := p.1;
    if |rest| == 0 then Err(StreamExhausted)
    else
      var roads := dm.zones[zone].roads;
      var i := NextInt(rest[0], |roads|).value;
      LeavesTransitive(draws, rest, rest[1..]);
      Ok(Target(roads[i], zone, dm, rest[1..]))
  }

  /** When every zone has a road and the distribution is set after the gate
      test, a target road costs exactly two draws: one for the zone and one
      for the road. */
  lemma PlainTargetUsesTwoDraws(dm: Sampler, cal: Calendar, time: int, draws: seq<Unit>)
    requires Wf(dm) && IsLong(time) && |draws| >= 2
    requires |dm.zones| > 0 && AllZonesHaveRoads(dm.zones)
    requires PredicateTest(dm, cal, time).Ok? && PredicateTest(dm, cal, time).value.cdf.Some?
    ensures PlainTarget(dm, cal, time, draws).Ok?
    ensures PlainTarget(dm, cal, time, draws).value.rest == draws[2..]
    ensures var t := PlainTarget(dm, cal, time, draws).value;
      var roads := dm.zones[t.zone].roads;
      && t.zone == SampleIndex(PredicateTest(dm, cal, time).value, draws[0]).value
      && t.road == roads[NextInt(draws[1], |roads|).value]
  {
    var dm' := PredicateTest(dm, cal, time).value;
    assert DrawZone(dm', draws).Ok?;
    assert draws[1..][1..] == draws[2..];
  }
}
