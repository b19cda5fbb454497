/** `HomeZoneDataModel`: a sampler that draws a road as the base sampler does
    and then moves the target into the nearest zone of the caller's group,
    searching the road graph outward from the drawn road in order of travel
    time. Zones are assigned to groups by their index modulo the number of
    groups. */
module HomeZoneDataModel {
  import opened Outcomes
  import opened JavaOps
  import opened Calendar
  import opened CityMap
  import opened Draws
  import opened SetZone
  import opened AbstractDataModel

  /** The ids of a list of roads. */
  function IdSet(roads: seq<Road>): (ids: set<int>)
    ensures forall id :: id in ids <==> exists j :: 0 <= j < |roads| && roads[j].id == id
  {
    set j | 0 <= j < |roads| :: roads[j].id
  }

  /** Zone `z` lists a road with this id. */
  predicate Lists(z: Zone, id: int) {
    id in IdSet(z.roads)
  }

  /** The ids of a zone's roads, each mapped to `index`. */
  function ZoneEntries(roads: seq<Road>, index: int): (m: map<int, int>)
    ensures m.Keys == IdSet(roads)
    ensures forall id :: id in m ==> m[id] == index
  {
    map id | id in IdSet(roads) :: index
  }

  /** The constructor's road-to-zone table, filled zone by zone: later
      zones overwrite the entries of earlier ones (`RoadToZoneLastWins`). */
  function RoadToZone(zones: seq<Zone>): (m: map<int, int>)
    ensures forall id :: id in m ==> 0 <= m[id] < |zones|
    decreases |zones|
  {
    if |zones| == 0 then map[]
    else
      var n := |zones| - 1;
      RoadToZone(zones[..n]) + ZoneEntries(zones[n].roads, n)
  }

  /** `m` lists exactly the road ids of `zones`, each with the last zone
      listing it. */
  ghost predicate LastListing(zones: seq<Zone>, m: map<int, int>) {
    && (forall id :: id in m <==> exists i :: 0 <= i < |zones| && Lists(zones[i], id))
    && forall id :: id in m ==>
      && 0 <= m[id] < |zones|
      && Lists(zones[m[id]], id)
      && forall i :: m[id] < i < |zones| ==> !Lists(zones[i], id)
  }

  /** Every road id listed by some zone is in the table, and maps to the
      LAST zone listing it. */
  lemma RoadToZoneLastWins(zones: seq<Zone>)
    ensures LastListing(zones, RoadToZone(zones))
  {
    forall id
      ensures id in RoadToZone(zones) <==> exists i :: 0 <= i < |zones| && Lists(zones[i], id)
    {
      RoadToZoneHas(zones, id);
    }
    forall id | id in RoadToZone(zones)
      ensures Lists(zones[RoadToZone(zones)[id]], id)
      ensures forall i :: RoadToZone(zones)[id] < i < |zones| ==> !Lists(zones[i], id)
    {
      RoadToZoneEntry(zones, id);
    }
  }

  /** An id is in the table exactly when some zone lists it. */
  lemma {:induction false} RoadToZoneHas(zones: seq<Zone>, id: int)
    ensures id in RoadToZone(zones) <==> exists i :: 0 <= i < |zones| && Lists(zones[i], id)
    decreases |zones|
  {
    if |zones| > 0 {
      var n := |zones| - 1;
      var front := zones[..n];
      RoadToZoneHas(front, id);
      assert id in RoadToZone(zones) <==> id in RoadToZone(front) || Lists(zones[n], id);
      if i :| 0 <= i < |zones| && Lists(zones[i], id) {
        if i < n {
          assert front[i] == zones[i];
        }
      }
      if i :| 0 <= i < n && Lists(front[i], id) {
        assert front[i] == zones[i];
      }
    }
  }

  /** The table entry of an id is a zone listing it, and no later zone
      lists it. */
  lemma {:induction false} RoadToZoneEntry(zones: seq<Zone>, id: int)
    requires id in RoadToZone(zones)
    ensures 0 <= RoadToZone(zones)[id] < |zones|
    ensures Lists(zones[RoadToZone(zones)[id]], id)
    ensures forall i :: RoadToZone(zones)[id] < i < |zones| ==> !Lists(zones[i], id)
    decreases |zones|
  {
    assert |zones| > 0;
    var n := |zones| - 1;
    var front := zones[..n];
    if !Lists(zones[n], id) {
      assert id in RoadToZone(front);
      RoadToZoneEntry(front, id);
      var k := RoadToZone(front)[id];
      assert RoadToZone(zones)[id] == k;
      assert front[k] == zones[k];
      forall i | k < i < |zones|
        ensures !Lists(zones[i], id)
      {
        if i < n {
          assert front[i] == zones[i];
        }
      }
    }
  }

  /** The position of the first intersection of `q` with the least key: the
      element a `PriorityQueue` ordered by that key polls (ties broken by
      queue order). */
  function MinIndex(q: seq<Intersection>, key: Intersection -> int): (i: int)
    requires |q| > 0
    ensures 0 <= i < |q|
    ensures forall j :: 0 <= j < |q| ==> key(q[i]) <= key(q[j])
    ensures forall j :: 0 <= j < i ==> key(q[j]) > key(q[i])
    decreases |q|
  {
    if |q| == 1 then 0
    else
      var k := MinIndex(q[1..], key) + 1;
      if key(q[0]) <= key(q[k]) then 0 else k
  }

  /** The queue without its element at `i`. */
  function RemoveAt(q: seq<Intersection>, i: int): (r: seq<Intersection>)
    requires 0 <= i < |q|
    ensures |r| == |q| - 1
    ensures forall x :: x in r ==> x in q
    ensures NoDuplicates(q) ==> NoDuplicates(r) && q[i] !in r
  {
    q[..i] + q[i + 1..]
  }

  /** The inner loop of the search: each neighbour of `current` not yet in
      `precedent` is recorded with the road leading from it to `current` and
      appended to the queue; neighbours already recorded are skipped. */
  function Enqueue(city: CityMap, current: Intersection, items: seq<Intersection>,
                   queue: seq<Intersection>, precedent: map<Intersection, int>): (r: (seq<Intersection>, map<Intersection, int>))
    ensures |r.0| >= |queue| && r.0[..|queue|] == queue
    ensures precedent.Keys <= r.1.Keys
    decreases |items|
  {
    if |items| == 0 then (queue, precedent)
    else
      var item := items[0];
      if item in precedent then Enqueue(city, current, items[1..], queue, precedent)
      else
        var q := queue + [item];
        var r := Enqueue(city, current, items[1..], q, precedent[item := city.roadTo(item, current).id]);
        assert r.0[..|q|][..|queue|] == queue;
        r
  }

  /** Exactly the neighbours get recorded; an intersection recorded before
      keeps its road, a new one gets the road from it to `current`. */
  lemma {:induction false} EnqueueRecords(city: CityMap, current: Intersection, items: seq<Intersection>,
                                          queue: seq<Intersection>, precedent: map<Intersection, int>)
    ensures var r := Enqueue(city, current, items, queue, precedent);
      && r.1.Keys == precedent.Keys + (set x | x in items)
      && (forall x :: x in precedent ==> r.1[x] == precedent[x])
      && (forall x :: x in r.1 && x !in precedent ==> r.1[x] == city.roadTo(x, current).id)
    decreases |items|
  {
    if |items| > 0 {
      var item := items[0];
      assert (set x | x in items) == {item} + (set x | x in items[1..]);
      if item in precedent {
        EnqueueRecords(city, current, items[1..], queue, precedent);
      } else {
        EnqueueRecords(city, current, items[1..], queue + [item], precedent[item := city.roadTo(item, current).id]);
      }
    }
  }

  /** The queue grows by exactly the neighbours that were not recorded, and
      it grows at all exactly when something new was recorded. */
  lemma {:induction false} EnqueueAppends(city: CityMap, current: Intersection, items: seq<Intersection>,
                                          queue: seq<Intersection>, precedent: map<Intersection, int>)
    ensures var r := Enqueue(city, current, items, queue, precedent);
      && (forall x :: x in r.0[|queue|..] <==> x in items && x !in precedent)
      && (r.1.Keys == precedent.Keys <==> r.0 == queue)
    decreases |items|
  {
    EnqueueRecords(city, current, items, queue, precedent);
    if |items| > 0 {
      var item := items[0];
      if item in precedent {
        EnqueueAppends(city, current, items[1..], queue, precedent);
      } else {
        var q := queue + [item];
        var p := precedent[item := city.roadTo(item, current).id];
        EnqueueAppends(city, current, items[1..], q, p);
        EnqueueRecords(city, current, items[1..], q, p);
        var r := Enqueue(city, current, items[1..], q, p);
        assert r.0[|queue|..] == [item] + r.0[|q|..];
        assert item in r.1.Keys && item !in precedent.Keys;
      }
    }
  }

  /** A queue without repeats whose members are all recorded stays so. */
  lemma {:induction false} EnqueueKeepsQueue(city: CityMap, current: Intersection, items: seq<Intersection>,
                                             queue: seq<Intersection>, precedent: map<Intersection, int>)
    requires NoDuplicates(queue) && forall x :: x in queue ==> x in precedent
    ensures var r := Enqueue(city, current, items, queue, precedent);
      NoDuplicates(r.0) && forall x :: x in r.0 ==> x in r.1
    decreases |items|
  {
    if |items| > 0 {
      var item := items[0];
      if item in precedent {
        EnqueueKeepsQueue(city, current, items[1..], queue, precedent);
      } else {
        var q := queue + [item];
        var p := precedent[item := city.roadTo(item, current).id];
        assert forall x :: x in q ==> x in p;
        EnqueueKeepsQueue(city, current, items[1..], q, p);
      }
    } else {
      assert Enqueue(city, current, items, queue, precedent) == (queue, precedent);
    }
  }

  /** Recording a new intersection `x` leaves fewer unrecorded ones. */
  lemma Shrink(all: set<Intersection>, a: set<Intersection>, b: set<Intersection>, x: Intersection)
    requires a <= b <= all && x in b && x !in a
    ensures |all - b| < |all - a|
  {
    var d := b - a;
    assert x in d;
    assert all - a == (all - b) + d;
    assert (all - b) * d == {};
  }

  /** The result of the search: the index of the zone returned, whether it
      belongs to the group, the intersections polled in order, the zone
      looked up at each poll, and the roads recorded for the intersections
      reached. */
  datatype Found = Found(zone: int, matched: bool, polled: seq<Intersection>, looked: seq<int>,
                         recorded: map<Intersection, int>)

  /** The state the search keeps between polls: the queue holds no
      intersection twice, everything queued or polled has a recorded road,
      and nothing polled is queued again. */
  ghost predicate SearchState(city: CityMap, queue: seq<Intersection>, precedent: map<Intersection, int>, polled: seq<Intersection>) {
    && precedent.Keys <= city.intersections
    && NoDuplicates(queue)
    && (forall x :: x in queue ==> x in precedent)
    && NoDuplicates(polled)
    && (forall i :: 0 <= i < |polled| ==> polled[i] in precedent && polled[i] !in queue)
  }

  /** The polling loop: take the queued intersection closest to the origin,
      look up the zone of the road recorded for it, stop when that zone is
      in the group, and otherwise queue its unrecorded neighbours. The zone
      last looked up is returned when the queue runs dry. */
  function Explore(city: CityMap, zones: seq<Zone>, roadToZone: map<int, int>, groups: int, group: int,
                   origin: Intersection, queue: seq<Intersection>, precedent: map<Intersection, int>,
                   nearest: int, polled: seq<Intersection>, looked: seq<int>): (r: Result<Found>)
    requires Closed(city) && groups != 0
    requires SearchState(city, queue, precedent, polled)
    ensures r.Ok? ==> NoDuplicates(r.value.polled) && |polled| <= |r.value.polled|
    ensures r.Ok? ==> forall i :: 0 <= i < |polled| ==> r.value.polled[i] == polled[i]
    ensures r.Ok? && r.value.matched ==>
      && 0 <= r.value.zone < |zones| && Rem(r.value.zone, groups) == group
      && |r.value.polled| > |polled|
    ensures r.Ok? && !r.value.matched ==>
      || (r.value.zone == nearest && r.value.polled == polled)
      || (0 <= r.value.zone < |zones| && Rem(r.value.zone, groups) != group)
    ensures (forall id :: id in roadToZone ==> 0 <= roadToZone[id] < |zones|) ==> r != Err(IndexOutOfBounds)
    ensures r.Err? ==> r.failure in {NullReference, IndexOutOfBounds}
    decreases |city.intersections - precedent.Keys|, |queue|
  {
    if |queue| == 0 then Ok(Found(nearest, false, polled, looked, precedent))
    else
      var i := MinIndex(queue, x => city.travelTimeBetween(x, origin));
      var current := queue[i];
      var roadId := precedent[current];
      if roadId !in roadToZone then Err(NullReference)
      else
        var zi := roadToZone[roadId];
        if !(0 <= zi < |zones|) then Err(IndexOutOfBounds)
        else
          var polled' := polled + [current];
          if Rem(zi, groups) == group then Ok(Found(zi, true, polled', looked + [zi], precedent))
          else
            var rest := RemoveAt(queue, i);
            var next := Enqueue(city, current, city.adjacentTo(current), rest, precedent);
            ExploreStep(city, queue, precedent, polled, i);
            ExploreProgress(city, queue, precedent, polled, i);
            var r := Explore(city, zones, roadToZone, groups, group, origin, next.0, next.1, zi, polled', looked + [zi]);
            r
  }

  /** No zone of `looked` is in the group. */
  predicate Outside(looked: seq<int>, groups: int, group: int)
    requires groups != 0
  {
    forall i :: 0 <= i < |looked| ==> Rem(looked[i], groups) != group
  }

  /** Appending a zone looked up: the old ones stay in place. */
  lemma OutsideSnoc(looked: seq<int>, zi: int, groups: int, group: int)
    requires groups != 0
    ensures (looked + [zi])[..|looked|] == looked && (looked + [zi])[|looked|] == zi
    ensures Outside(looked, groups, group) && Rem(zi, groups) != group ==> Outside(looked + [zi], groups, group)
  {
  }

  /** The search returns the last zone it looked up, or `nearest` when it
      looked nothing up, provided `nearest` is the last zone looked up so
      far; a search that stopped on a match looked something up. */
  lemma {:induction false} ExploreLastLooked(city: CityMap, zones: seq<Zone>, roadToZone: map<int, int>,
      groups: int, group: int, origin: Intersection, queue: seq<Intersection>, precedent: map<Intersection, int>,
      nearest: int, polled: seq<Intersection>, looked: seq<int>, f: Found)
    requires Closed(city) && groups != 0
    requires SearchState(city, queue, precedent, polled)
    requires |looked| > 0 ==> nearest == looked[|looked| - 1]
    requires Explore(city, zones, roadToZone, groups, group, origin, queue, precedent, nearest, polled, looked) == Ok(f)
    ensures |f.looked| >= |looked| && (f.matched ==> |f.looked| > |looked|)
    ensures f.zone == if |f.looked| > 0 then f.looked[|f.looked| - 1] else nearest
    decreases |city.intersections - precedent.Keys|, |queue|
  {
    if |queue| > 0 {
      var i := MinIndex(queue, x => city.travelTimeBetween(x, origin));
      var current := queue[i];
      var zi := roadToZone[precedent[current]];
      OutsideSnoc(looked, zi, groups, group);
      if Rem(zi, groups) != group {
        var next := Enqueue(city, current, city.adjacentTo(current), RemoveAt(queue, i), precedent);
        ExploreProgress(city, queue, precedent, polled, i);
        ExploreMiss(city, zones, roadToZone, groups, group, origin, queue, precedent, nearest, polled, looked, i, zi);
        ExploreLastLooked(city, zones, roadToZone, groups, group, origin, next.0, next.1, zi, polled + [current], looked + [zi], f);
      } else {
        assert f == Found(zi, true, polled + [current], looked + [zi], precedent);
      }
    } else {
      assert f.looked == looked;
    }
  }

  /** No zone looked up before the last is in the group, nor the last one
      unless the search stopped on it: together with `ExploreLastLooked`,
      the result is the first zone looked up that is in the group, and
      otherwise the last one looked up. */
  lemma {:induction false} ExploreFirstInGroup(city: CityMap, zones: seq<Zone>, roadToZone: map<int, int>,
      groups: int, group: int, origin: Intersection, queue: seq<Intersection>, precedent: map<Intersection, int>,
      nearest: int, polled: seq<Intersection>, looked: seq<int>, f: Found)
    requires Closed(city) && groups != 0
    requires SearchState(city, queue, precedent, polled)
    requires Outside(looked, groups, group)
    requires Explore(city, zones, roadToZone, groups, group, origin, queue, precedent, nearest, polled, looked) == Ok(f)
    ensures f.matched ==> |f.looked| > 0 && Outside(f.looked[..|f.looked| - 1], groups, group)
    ensures !f.matched ==> Outside(f.looked, groups, group)
    decreases |city.intersections - precedent.Keys|, |queue|
  {
    if |queue| > 0 {
      var i := MinIndex(queue, x => city.travelTimeBetween(x, origin));
      var current := queue[i];
      var zi := roadToZone[precedent[current]];
      OutsideSnoc(looked, zi, groups, group);
      if Rem(zi, groups) != group {
        var next := Enqueue(city, current, city.adjacentTo(current), RemoveAt(queue, i), precedent);
        ExploreProgress(city, queue, precedent, polled, i);
        ExploreMiss(city, zones, roadToZone, groups, group, origin, queue, precedent, nearest, polled, looked, i, zi);
        ExploreFirstInGroup(city, zones, roadToZone, groups, group, origin, next.0, next.1, zi, polled + [current], looked + [zi], f);
      } else {
        assert f == Found(zi, true, polled + [current], looked + [zi], precedent);
      }
    } else {
      assert f.looked == looked;
    }
  }

  /** Each poll looks up the zone of the road recorded for the intersection
      polled. */
  predicate LooksUp(roadToZone: map<int, int>, polled: seq<Intersection>, looked: seq<int>,
                    recorded: map<Intersection, int>)
  {
    && |looked| == |polled|
    && forall i :: 0 <= i < |polled| ==>
         polled[i] in recorded && recorded[polled[i]] in roadToZone && looked[i] == roadToZone[recorded[polled[i]]]
  }

  /** One more poll keeps `LooksUp`, also under records that keep the old ones. */
  lemma LooksUpSnoc(roadToZone: map<int, int>, polled: seq<Intersection>, looked: seq<int>,
                    recorded: map<Intersection, int>, recorded': map<Intersection, int>, current: Intersection, zi: int)
    requires LooksUp(roadToZone, polled, looked, recorded)
    requires forall x :: x in recorded ==> x in recorded' && recorded'[x] == recorded[x]
    requires current in recorded && recorded[current] in roadToZone && zi == roadToZone[recorded[current]]
    ensures LooksUp(roadToZone, polled + [current], looked + [zi], recorded')
  {
    var ps, ls := polled + [current], looked + [zi];
    forall i | 0 <= i < |ps|
      ensures ps[i] in recorded' && recorded'[ps[i]] in roadToZone && ls[i] == roadToZone[recorded'[ps[i]]]
    {
      if i < |polled| {
        assert ps[i] == polled[i] && ls[i] == looked[i];
      }
    }
  }

  /** The search keeps `LooksUp` for every intersection it polls. */
  lemma {:induction false} ExploreLooksUp(city: CityMap, zones: seq<Zone>, roadToZone: map<int, int>,
      groups: int, group: int, origin: Intersection, queue: seq<Intersection>, precedent: map<Intersection, int>,
      nearest: int, polled: seq<Intersection>, looked: seq<int>, f: Found)
    requires Closed(city) && groups != 0
    requires SearchState(city, queue, precedent, polled)
    requires LooksUp(roadToZone, polled, looked, precedent)
    requires Explore(city, zones, roadToZone, groups, group, origin, queue, precedent, nearest, polled, looked) == Ok(f)
    ensures LooksUp(roadToZone, f.polled, f.looked, f.recorded)
    decreases |city.intersections - precedent.Keys|, |queue|
  {
    if |queue| > 0 {
      var i := MinIndex(queue, x => city.travelTimeBetween(x, origin));
      var current := queue[i];
      var zi := roadToZone[precedent[current]];
      LooksUpSnoc(roadToZone, polled, looked, precedent, precedent, current, zi);
      if Rem(zi, groups) != group {
        var rest := RemoveAt(queue, i);
        var next := Enqueue(city, current, city.adjacentTo(current), rest, precedent);
        ExploreProgress(city, queue, precedent, polled, i);
        ExploreMiss(city, zones, roadToZone, groups, group, origin, queue, precedent, nearest, polled, looked, i, zi);
        EnqueueRecords(city, current, city.adjacentTo(current), rest, precedent);
        LooksUpSnoc(roadToZone, polled, looked, precedent, next.1, current, zi);
        ExploreLooksUp(city, zones, roadToZone, groups, group, origin, next.0, next.1, zi, polled + [current], looked + [zi], f);
      } else {
        assert f == Found(zi, true, polled + [current], looked + [zi], precedent);
      }
    } else {
      assert f.looked == looked;
    }
  }

  /** A road recorded before the search goes on stays recorded. */
  lemma {:induction false} ExploreKeepsRecords(city: CityMap, zones: seq<Zone>, roadToZone: map<int, int>,
      groups: int, group: int, origin: Intersection, queue: seq<Intersection>, precedent: map<Intersection, int>,
      nearest: int, polled: seq<Intersection>, looked: seq<int>, f: Found)
    requires Closed(city) && groups != 0
    requires SearchState(city, queue, precedent, polled)
    requires Explore(city, zones, roadToZone, groups, group, origin, queue, precedent, nearest, polled, looked) == Ok(f)
    ensures forall x :: x in precedent ==> x in f.recorded && f.recorded[x] == precedent[x]
    decreases |city.intersections - precedent.Keys|, |queue|
  {
    if |queue| > 0 {
      var i := MinIndex(queue, x => city.travelTimeBetween(x, origin));
      var current := queue[i];
      var zi := roadToZone[precedent[current]];
      OutsideSnoc(looked, zi, groups, group);
      if Rem(zi, groups) != group {
        var rest := RemoveAt(queue, i);
        var next := Enqueue(city, current, city.adjacentTo(current), rest, precedent);
        ExploreProgress(city, queue, precedent, polled, i);
        ExploreMiss(city, zones, roadToZone, groups, group, origin, queue, precedent, nearest, polled, looked, i, zi);
        EnqueueRecords(city, current, city.adjacentTo(current), rest, precedent);
        ExploreKeepsRecords(city, zones, roadToZone, groups, group, origin, next.0, next.1, zi, polled + [current], looked + [zi], f);
      } else {
        assert f == Found(zi, true, polled + [current], looked + [zi], precedent);
      }
    } else {
      assert f.looked == looked;
    }
  }

  /** A poll whose zone is not in the group continues the search from the
      next state. */
  lemma ExploreMiss(city: CityMap, zones: seq<Zone>, roadToZone: map<int, int>,
                    groups: int, group: int, origin: Intersection,
                    queue: seq<Intersection>, precedent: map<Intersection, int>,
                    nearest: int, polled: seq<Intersection>, looked: seq<int>, i: int, zi: int)
    requires Closed(city) && groups != 0
    requires SearchState(city, queue, precedent, polled) && |queue| > 0
    requires i == MinIndex(queue, x => city.travelTimeBetween(x, origin))
    requires queue[i] in precedent && precedent[queue[i]] in roadToZone && zi == roadToZone[precedent[queue[i]]]
    requires 0 <= zi < |zones| && Rem(zi, groups) != group
    ensures var next := Enqueue(city, queue[i], city.adjacentTo(queue[i]), RemoveAt(queue, i), precedent);
      && SearchState(city, next.0, next.1, polled + [queue[i]])
      && Explore(city, zones, roadToZone, groups, group, origin, queue, precedent, nearest, polled, looked)
         == Explore(city, zones, roadToZone, groups, group, origin, next.0, next.1, zi, polled + [queue[i]], looked + [zi])
  {
    ExploreStep(city, queue, precedent, polled, i);
  }

  /** One poll keeps the search state. */
  lemma ExploreStep(city: CityMap, queue: seq<Intersection>, precedent: map<Intersection, int>,
                    polled: seq<Intersection>, i: int)
    requires Closed(city) && SearchState(city, queue, precedent, polled) && 0 <= i < |queue|
    ensures var next := Enqueue(city, queue[i], city.adjacentTo(queue[i]), RemoveAt(queue, i), precedent);
      SearchState(city, next.0, next.1, polled + [queue[i]])
  {
    var current := queue[i];
    var rest := RemoveAt(queue, i);
    var items := city.adjacentTo(current);
    var next := Enqueue(city, current, items, rest, precedent);
    var polled' := polled + [current];
    EnqueueRecords(city, current, items, rest, precedent);
    EnqueueAppends(city, current, items, rest, precedent);
    EnqueueKeepsQueue(city, current, items, rest, precedent);
    assert forall x :: x in items ==> x in city.intersections;
    var added := next.0[|rest|..];
    assert forall x :: x in added ==> x !in precedent;
    forall k | 0 <= k < |polled'|
      ensures polled'[k] in next.1 && polled'[k] !in next.0
    {
      assert polled'[k] in precedent;
      assert polled'[k] !in rest;
      assert polled'[k] !in added;
      assert next.0 == rest + added;
    }
  }

  /** One poll either records a new intersection or shortens the queue
      without recording anything. */
  lemma ExploreProgress(city: CityMap, queue: seq<Intersection>, precedent: map<Intersection, int>,
                        polled: seq<Intersection>, i: int)
    requires Closed(city) && SearchState(city, queue, precedent, polled) && 0 <= i < |queue|
    ensures var rest := RemoveAt(queue, i);
      var next := Enqueue(city, queue[i], city.adjacentTo(queue[i]), rest, precedent);
      && (next.0 != rest ==> |city.intersections - next.1.Keys| < |city.intersections - precedent.Keys|)
      && (next.0 == rest ==> next.1.Keys == precedent.Keys)
  {
    var current := queue[i];
    var rest := RemoveAt(queue, i);
    var items := city.adjacentTo(current);
    var next := Enqueue(city, current, items, rest, precedent);
    EnqueueRecords(city, current, items, rest, precedent);
    EnqueueAppends(city, current, items, rest, precedent);
    assert forall x :: x in items ==> x in city.intersections;
    if next.0 != rest {
      var x := next.0[|rest|];
      assert x in next.0[|rest|..];
      Shrink(city.intersections, precedent.Keys, next.1.Keys, x);
    }
  }

  /** `nearestHomeZone(group, road)`: the zone of the road itself when it is
      in the group (index -1 for a road in no zone), otherwise the result of
      the search from the road's start, which first queues the start's
      neighbours with the roads leading from them back to the start. */
  function NearestHomeZone(city: CityMap, zones: seq<Zone>, roadToZone: map<int, int>,
                           groups: int, group: int, road: Road): (r: Result<Found>)
    requires Closed(city)
    ensures groups == 0 ==> r == Err(DivisionByZero)
    ensures groups != 0 && road.id in roadToZone && Rem(roadToZone[road.id], groups) == group
         && 0 <= roadToZone[road.id] < |zones|
      ==> r == Ok(Found(roadToZone[road.id], true, [], [], map[]))
    ensures groups != 0 && road.id !in roadToZone ==> r == Err(IndexOutOfBounds)
    ensures r.Ok? ==> 0 <= r.value.zone < |zones| && NoDuplicates(r.value.polled)
    ensures r.Ok? && r.value.matched ==> Rem(r.value.zone, groups) == group
    ensures r.Ok? && !r.value.matched ==>
      || (road.id in roadToZone && r.value.zone == roadToZone[road.id] && r.value.polled == [])
      || Rem(r.value.zone, groups) != group
    ensures groups != 0 && road.id in roadToZone && (forall id :: id in roadToZone ==> 0 <= roadToZone[id] < |zones|) ==>
      r != Err(IndexOutOfBounds)
  {
    if groups == 0 then Err(DivisionByZero)
    else
      var zi := if road.id in roadToZone then roadToZone[road.id] else -1;
      if !(0 <= zi < |zones|) then Err(IndexOutOfBounds)
      else if Rem(zi, groups) == group then Ok(Found(zi, true, [], [], map[]))
      else
        var origin := road.from;
        var next := city.adjacentTo(origin);
        var precedent := map x | x in next :: city.roadTo(x, origin).id;
        assert forall x :: x in next ==> x in city.intersections;
        Explore(city, zones, roadToZone, groups, group, origin, next, precedent, zi, [], [])
  }

  /** `nearestHomeZone` returns the zone of the first polled intersection
      whose recorded road lies in a zone of the group, polling in the order
      of `MinIndex`, and otherwise the zone looked up last: each zone looked
      up is the zone of the road recorded for the intersection polled, the
      start's neighbours keep the roads leading back to the start, no zone
      looked up before the result is in the group, and when nothing was
      polled the result is the road's own zone. */
  lemma NearestHomeZoneFirstInGroup(city: CityMap, zones: seq<Zone>, roadToZone: map<int, int>,
                                    groups: int, group: int, road: Road, f: Found)
    requires Closed(city)
    requires NearestHomeZone(city, zones, roadToZone, groups, group, road) == Ok(f)
    ensures
      && road.id in roadToZone
      && LooksUp(roadToZone, f.polled, f.looked, f.recorded)
      && f.zone == (if |f.looked| > 0 then f.looked[|f.looked| - 1] else roadToZone[road.id])
      && (f.matched ==> Rem(f.zone, groups) == group)
      && (f.matched && |f.looked| > 0 ==> Outside([roadToZone[road.id]] + f.looked[..|f.looked| - 1], groups, group))
      && (!f.matched ==> Outside([roadToZone[road.id]] + f.looked, groups, group))
      && (Rem(roadToZone[road.id], groups) != group ==>
            forall x :: x in city.adjacentTo(road.from) ==> x in f.recorded && f.recorded[x] == city.roadTo(x, road.from).id)
  {
    var zi := roadToZone[road.id];
    if Rem(zi, groups) != group {
      var origin := road.from;
      var next := city.adjacentTo(origin);
      var precedent := map x | x in next :: city.roadTo(x, origin).id;
      assert forall x :: x in next ==> x in city.intersections;
      assert Explore(city, zones, roadToZone, groups, group, origin, next, precedent, zi, [], []) == Ok(f);
      ExploreLastLooked(city, zones, roadToZone, groups, group, origin, next, precedent, zi, [], [], f);
      ExploreFirstInGroup(city, zones, roadToZone, groups, group, origin, next, precedent, zi, [], [], f);
      ExploreLooksUp(city, zones, roadToZone, groups, group, origin, next, precedent, zi, [], [], f);
      ExploreKeepsRecords(city, zones, roadToZone, groups, group, origin, next, precedent, zi, [], [], f);
      if f.matched {
        OutsideCons(zi, f.looked[..|f.looked| - 1], groups, group);
      } else {
        OutsideCons(zi, f.looked, groups, group);
      }
    }
  }

  /** Putting a zone outside the group in front keeps `Outside`. */
  lemma OutsideCons(z: int, looked: seq<int>, groups: int, group: int)
    requires groups != 0 && Rem(z, groups) != group && Outside(looked, groups, group)
    ensures Outside([z] + looked, groups, group)
  {
  }

  /** The home-zone sampler: the base sampler, the number of groups, and the
      road-to-zone table built once from its zones. */
  datatype HomeZoneSampler = HomeZoneSampler(base: Sampler, groups: int, roadToZone: map<int, int>)

  function NewHomeZoneSampler(base: Sampler, groups: int): (s: HomeZoneSampler)
    ensures s.base == base && s.groups == groups
    ensures forall id :: id in s.roadToZone ==> 0 <= s.roadToZone[id] < |base.zones|
  {
    HomeZoneSampler(base, groups, RoadToZone(base.zones))
  }

  /** `getTargetRoad`: a road from the base sampler, the caller's group from
      its hash code, the nearest zone of that group, then one of that zone's
      roads drawn uniformly. */
  function HomeZoneTarget(s: HomeZoneSampler, cal: Calendar, city: CityMap, hash: int, time: int,
                          draws: seq<Unit>): (r: Result<Target>)
    requires Wf(s.base) && IsLong(time) && Closed(city)
    ensures s.groups == 0 && PlainTarget(s.base, cal, time, draws).Ok? ==> r == Err(DivisionByZero)
    ensures r.Ok? ==> var t := r.value;
      && Wf(t.sampler) && t.sampler.zones == s.base.zones
      && 0 <= t.zone < |s.base.zones|
      && t.road in s.base.zones[t.zone].roads
      && |t.rest| < |draws| - 1 && Leaves(draws, t.rest)
    ensures r.Ok? && s.groups != 0 && PlainTarget(s.base, cal, time, draws).Ok? ==>
      var home := NearestHomeZone(city, s.base.zones, s.roadToZone, s.groups, Rem(hash, s.groups),
                                  PlainTarget(s.base, cal, time, draws).value.road);
      PlainTarget(s.base, cal, time, draws).Ok? && home.Ok? && r.value.zone == home.value.zone
  {
    var t :- PlainTarget(s.base, cal, time, draws);
    if s.groups == 0 then Err(DivisionByZero)
    else
      var group := Rem(hash, s.groups);
      var home :- NearestHomeZone(city, t.sampler.zones, s.roadToZone, s.groups, group, t.road);
      var roads := t.sampler.zones[home.zone].roads;
      if |t.rest| == 0 then Err(StreamExhausted)
      else
        var k :- NextInt(t.rest[0], |roads|);
        LeavesTransitive(draws, t.rest, t.rest[1..]);
        Ok(Target(roads[k], home.zone, t.sampler, t.rest[1..]))
  }
}
