# Demand models and zone sampling of the `Extension` package

This project models, in Dafny, the part of the `Extension` package that decides where a
cruising agent drives next. Historical trip records are counted into a temporal
density per zone of the road map. The counts go into a per-road day histogram
(`DayModel`) or into a demand matrix of roads by time columns. The matrix is either a
counting grid (`MutableMatrixImpl`) or the product of two non-negative factors
(`FactorizedMatrix`).

A data model normalises the zone densities into a cumulative distribution. A
periodic gate (`PeriodicUpdated`) decides when that distribution is rebuilt. The data
model then draws a zone by inverse-CDF sampling and returns one of the zone's roads.
There are three target-road rules:

- **base rule:** the road drawn as above (`AbstractDataModel`);
- **distance-based rule:** draw a batch of candidate zones, reweight them by travel
  time, and draw again (`DistanceBasedDataModel`, `MFDataModel`);
- **home-zone rule:** search the road graph outward for the nearest zone of the
  agent's group (`HomeZoneDataModel`, `LinearHomeZoneDataModel`).

Routes and destinations are built on the target road. The offline `ModelBuilder`
contributes its command-line lookup, its record filters and its counting step.

**How the model is built:**

- Everything is an immutable datatype with pure functions.
- A Java exception becomes an `Err` of the `Outcomes.Result` type, and state that
  changes becomes a returned value.
- `java.util.Random` becomes an explicit sequence of draws in `[0, 1)`, and every
  operation returns the draws it left unused.
- Integers are unbounded. Java's truncating `/` and `%`, `long`/`int` wrap-around and
  `(int)` casts of doubles are written out in `JavaOps` where the code relies on them.
- Time-zone rules, the map's graph, travel times, shortest paths, nearest-road lookup
  and the polygon test are function-valued fields of `Calendar.Calendar` and
  `CityMap.CityMap`.

## Model

| member | source | states |
|---|---|---|
| Utils.Gcd | src/Extension/Utils.java:33-37 | Euclid's recursion on Java `int` remainders; the result is non-negative for non-negative arguments, positive unless both are zero, and an `int` when both arguments are |
| Utils.GcdDividesBoth | src/Extension/Utils.java:26-37 | for non-negative arguments the result divides both |
| Utils.GcdIsGreatest | src/Extension/Utils.java:26-37 | every common divisor of non-negative arguments divides the result, so it is the greatest |
| PeriodicUpdated.NewGate | src/Extension/PeriodicUpdated.java:10-16 | a fresh gate has last update `Long.MIN_VALUE`; a positive argument becomes the period, otherwise the period stays 1 |
| PeriodicUpdated.Test | src/Extension/PeriodicUpdated.java:19-25 | fires exactly when last update plus period is at most `t` (when that sum does not overflow); a firing records `t`, a miss leaves the gate unchanged |
| PeriodicUpdated.FreshGateFires | src/Extension/PeriodicUpdated.java:10-25 | a new gate fires on its first test at any time at least one period above `Long.MIN_VALUE` |
| PeriodicUpdated.QuietForOnePeriod | src/Extension/PeriodicUpdated.java:19-25 | after firing at `t` the gate stays quiet before `t + period` and fires again exactly at `t + period` |
| PeriodicUpdated.Run | src/Extension/PeriodicUpdated.java:19-25 | a sequence of tests reports one verdict per time and keeps the gate valid and its period fixed |
| PeriodicUpdated.FiringAfterLastUpdate | src/Extension/PeriodicUpdated.java:19-25 | every firing in a run happens at least one period after the gate's last update |
| PeriodicUpdated.FiringsSpaced | src/Extension/PeriodicUpdated.java:19-25 | two firings in a run are at least one period apart, whatever the order of the test times |
| DayModel.NewDayModel | src/Extension/DayModel.java:13-16 | a negative slot count fails as a negative array size; otherwise the histogram has that many zero slots and keeps the window |
| DayModel.SetDensity | src/Extension/DayModel.java:18-20 | the slots are replaced, the window kept |
| DayModel.SlotOf | src/Extension/DayModel.java:42-50 | over exact reals, minutes-since-midnight divided by the slot length `1440 / n` and truncated is the integer slot `minutes * n / 1440`, in `[0, n)`; with no slots it is 0 |
| DayModel.FindSlot | src/Extension/DayModel.java:42-46 | over exact reals, the slot of a time lies in `[0, n)` for `n > 0` slots and is 0 with none |
| DayModel.AddResource | src/Extension/DayModel.java:37-40 | exactly the record's slot grows by one; with no slots the array access fails |
| DayModel.GetDensity | src/Extension/DayModel.java:23-34 | a histogram with no slots has zero density at every time |
| DayModel.GetDensityIsWindowSum | src/Extension/DayModel.java:23-34 | the density is the sum of the slot counts from the slot of the time to the slot of the window's end, clamped to the last slot; non-negative counts give a non-negative density |
| DayModel.RangeSumIsSum | src/Extension/DayModel.java:29-32 | the accumulating loop over a slot range gives the sum of those slot counts in slot order |
| DayModel.FreshModelIsEmpty | src/Extension/DayModel.java:13-34 | a fresh histogram reports zero density at every time and a zero total |
| DayModel.WindowAcrossMidnightIsEmpty | src/Extension/DayModel.java:23-34 | when the window's end slot is before its start slot (the window crosses midnight) the loop sums nothing |
| DayModel.AddResourceEffect | src/Extension/DayModel.java:23-40 | counting a record raises the total by one and the density at a time by one exactly when the record's slot is inside that time's window |
| DayModel.RangeSumBump | src/Extension/DayModel.java:29-32 | bumping one slot raises the window sum by one exactly when the slot is inside the window |
| AbstractMatrix.RowTable | src/Extension/AbstractMatrix.java:52-57 | the keys are exactly the given ids; each id maps to its last index |
| AbstractMatrix.RowTableOfDistinct | src/Extension/AbstractMatrix.java:52-57 | with distinct ids, `ids[i]` is row `i` |
| AbstractMatrix.HeightOfDistinct | src/Extension/AbstractMatrix.java:52-57 | with distinct ids the height is the number of ids |
| AbstractMatrix.SpanDays | src/Extension/AbstractMatrix.java:38-39 | the span in whole minutes (long division) divided by 1440 and rounded up |
| AbstractMatrix.NewFrame | src/Extension/AbstractMatrix.java:27-45 | the three constructor refusals in order (start not before end, negative slot count, fewer than 7 days); on success the dates are truncated to midnight and width is days times slots per day |
| AbstractMatrix.FindRow | src/Extension/AbstractMatrix.java:66-71 | the registered row of an id, or -1 exactly when it is not registered |
| AbstractMatrix.FindRowOfBuiltFrame | src/Extension/AbstractMatrix.java:52-71 | on a constructed frame an id gets -1 exactly when it is not among the ids, and otherwise the index of its last occurrence |
| AbstractMatrix.ColumnWithinDay | src/Extension/AbstractMatrix.java:136-147 | the column is the day offset times slots per day plus the slot of the time of day, and that slot is in `[0, slotsPerDay)` |
| AbstractMatrix.ColumnFromSlot | src/Extension/AbstractMatrix.java:142-146 | over exact reals, the `(int)` cast of the day fraction times slots per day, plus the day offset times slots per day, is the integer slot `x * n / 86400` of the second of the day `x` in its day's block |
| AbstractMatrix.SlotOfDay | src/Extension/AbstractMatrix.java:143-146 | over exact reals, the truncation of `x / 86400 * n` is `x * n / 86400` and lies below `n` |
| AbstractMatrix.ColumnReadsMinuteField | src/Extension/AbstractMatrix.java:140 | with 30-second slots, 00:00:45 on the start day gets column 0 as written, but column 1 is intended |
| AbstractMatrix.ColumnsAgreeOnWholeMinuteSlots | src/Extension/AbstractMatrix.java:136-147 | when every slot is a whole number of minutes, the written and the intended column agree |
| AbstractMatrix.NormalizeDiffRange | src/Extension/AbstractMatrix.java:100-101 | the adjusted day difference is within 3 days and congruent to the raw difference modulo 7 |
| AbstractMatrix.StartOffsetAligns | src/Extension/AbstractMatrix.java:117-118 | the days added to the start (0 to 6) reach the wanted day of week |
| AbstractMatrix.EndOffsetAligns | src/Extension/AbstractMatrix.java:121-122 | the days subtracted from the end (1 to 7) reach the wanted day of week |
| AbstractMatrix.ShiftAligns | src/Extension/AbstractMatrix.java:99-102 | shifting by the adjusted difference lands on the record's own day of week |
| AbstractMatrix.SnapAligns | src/Extension/AbstractMatrix.java:107-123 | the boundary snap, near the start or the end, lands on the record's day of week |
| AbstractMatrix.FindColumnInSpan | src/Extension/AbstractMatrix.java:79-134 | a time that `isValid` accepts, inside `[start, end)`, gets the column of its own date-time, with no realignment |
| AbstractMatrix.AlignedByShift | src/Extension/AbstractMatrix.java:88-106 | a time outside the span whose year-and-day-of-week shift lands inside the span is aligned to that shifted date-time, which has the time's own day of week |
| AbstractMatrix.AlignedBySnap | src/Extension/AbstractMatrix.java:88-126 | otherwise it is aligned to the boundary snap date (end side on ties) at its own second of the day, and that date has its day of week |
| AbstractMatrix.FindColumnInDayBlock | src/Extension/AbstractMatrix.java:79-147 | whatever date-time a time is aligned to, its column lies in that date's block of `slotsPerDay` columns: the day offset times slots per day plus the slot of its second of the day |
| MutableMatrixImpl.NewMutableMatrix | src/Extension/MutableMatrixImpl.java:10-14 | a height by width grid of zeros over the frame |
| MutableMatrixImpl.Get | src/Extension/MutableMatrixImpl.java:16-19 | the cell at `(column, row)`; outside the grid it fails |
| MutableMatrixImpl.Set | src/Extension/MutableMatrixImpl.java:21-24 | that cell takes the value and no other cell changes; outside the grid it fails |
| MutableMatrixImpl.Increment | src/Extension/MutableMatrixImpl.java:26-29 | that cell grows by one and no other changes; outside the grid it fails |
| MutableMatrixImpl.IncrementTimesAddsN | src/Extension/MutableMatrixImpl.java:26-29 | `n` increments add exactly `n` to the cell and leave all others |
| MutableMatrixImpl.FreshCellCountsIncrements | src/Extension/MutableMatrixImpl.java:10-29 | a fresh cell incremented `n` times reads back `n` |
| FactorizedMatrix.SetWH | src/Extension/FactorizedMatrix.java:38-44 | an empty W fails on `w[0]`, a feature-count mismatch is refused, otherwise the factors are installed |
| FactorizedMatrix.Get | src/Extension/FactorizedMatrix.java:53-60 | unset factors fail as a null reference; otherwise the dot product of W's row and H's column over the features, or an index failure |
| FactorizedMatrix.GetNonNegative | src/Extension/FactorizedMatrix.java:53-60 | with non-negative factors every readable cell is non-negative |
| FactorizedMatrix.DotNonNegative | src/Extension/FactorizedMatrix.java:54-59 | a partial dot product of non-negative entries is non-negative |
| MFModel.NewMFModel | src/Extension/MFModel.java:17-20 | the road id starts at zero and the window is kept |
| MFModel.SetRoadId | src/Extension/MFModel.java:44-50 | the getter returns the id set last |
| MFModel.ColumnSum | src/Extension/MFModel.java:28-32 | the row's cells over a column range; the first unreadable cell's failure otherwise |
| MFModel.ColumnSumValue | src/Extension/MFModel.java:28-32 | a readable column range of a row sums to the sum of its cells in column order |
| MFModel.GetDensity | src/Extension/MFModel.java:23-33 | zero when the end column precedes the start column; succeeds exactly when every cell in between is readable |
| MFModel.GetDensityValue | src/Extension/MFModel.java:23-33 | a readable density is the sum of the road's row cells from the column of the time to the column of the window's end |
| MFModel.MutableColumnSum | src/Extension/MFModel.java:28-32 | on a counting grid the density is the plain sum of the row slice |
| MFModel.AddResource | src/Extension/MFModel.java:36-42 | a factorised matrix is left alone; a counting grid has the record's cell incremented |
| MFModel.ColumnSumAfterIncrement | src/Extension/MFModel.java:28-40 | after one increment a row sum reads one more exactly when it covers the incremented cell |
| MFModel.AddResourceEffect | src/Extension/MFModel.java:23-42 | counting a record raises the density of any model reading the record's row by one when the record's column (by the corrected `column`) is in its window |
| SetZone.NewZone | src/Extension/SetZone.java:16-19 | a new zone has no road |
| SetZone.Add | src/Extension/SetZone.java:21-28 | returns true and appends the road, so `getRoads` is the old list plus the road; a road is contained afterwards exactly when it was before or is the one added |
| SetZone.Contains | src/Extension/SetZone.java:30-33 | a road is contained exactly when some position holds it |
| SetZone.AppendedContains | src/Extension/SetZone.java:21-33 | appending a road adds exactly that road to membership |
| AbstractDataModel.Normalize | src/Extension/AbstractDataModel.java:107-122 | with a positive total each probability times the total is the density; otherwise each is one over the zone count |
| AbstractDataModel.NormalizeSumsToOne | src/Extension/AbstractDataModel.java:107-122 | over exact reals the probabilities of a non-empty zone list sum to one |
| AbstractDataModel.NormalizeNonNegative | src/Extension/AbstractDataModel.java:107-122 | non-negative densities give non-negative probabilities |
| AbstractDataModel.SumOfScale | src/Extension/AbstractDataModel.java:114-117 | the scaled densities times the total sum to the original total |
| AbstractDataModel.PrefixSums | src/Extension/AbstractDataModel.java:124-130 | entry `i` is the sum of the first `i + 1` probabilities |
| AbstractDataModel.PrefixSumsStep | src/Extension/AbstractDataModel.java:127-130 | each cumulative entry adds the next probability to the previous entry |
| AbstractDataModel.PrefixSumsSorted | src/Extension/AbstractDataModel.java:124-130 | with non-negative probabilities the cumulative array is sorted |
| AbstractDataModel.PrefixSumsLast | src/Extension/AbstractDataModel.java:124-130 | the last cumulative entry is the total |
| AbstractDataModel.BuildCdf | src/Extension/AbstractDataModel.java:107-130 | one probability and one cumulative entry per density; with a positive total each probability times the total is its density, otherwise each probability times the count is one; cumulative entry `i` is the sum of the first `i + 1` probabilities |
| AbstractDataModel.BuildCdfIsDistribution | src/Extension/AbstractDataModel.java:99-131 | for non-negative densities the cumulative array is sorted, ends at one, and its steps are the probabilities |
| AbstractDataModel.ZoneDensities | src/Extension/AbstractDataModel.java:100-105 | succeeds exactly when every zone's density does, giving each zone's density in zone order |
| AbstractDataModel.ResetCdf | src/Extension/AbstractDataModel.java:99-131 | succeeds exactly when every density is readable, and then the distribution is the one built from the zone densities in zone order |
| AbstractDataModel.Select | src/Extension/AbstractDataModel.java:199-207 | the result is the fallback or an in-range index whose cumulative entry exceeds the draw; a draw equal to an entry falls back |
| AbstractDataModel.SelectIsInverseCdf | src/Extension/AbstractDataModel.java:199-207 | for a sorted cumulative array and a draw equal to no entry, index `k` is chosen exactly when the draw lies above `cs[k-1]` (or `k` is first) and below `cs[k]` (or `k` is last) |
| AbstractDataModel.PredicateTest | src/Extension/AbstractDataModel.java:186-190 | without a gate, or when the gate does not fire, nothing changes; a firing rebuilds the distribution at that time and records the firing |
| AbstractDataModel.SampleIndex | src/Extension/AbstractDataModel.java:198-208 | fails as a null reference exactly before the first reset; otherwise the index the binary-search selection picks from the cumulative array, a zone index (or -1 with no zones) |
| AbstractDataModel.SampleIndexIsInverseCdf | src/Extension/AbstractDataModel.java:198-208 | over a sorted distribution and a draw equal to no entry, zone `k` is sampled exactly when the draw is at or above the entry before `k` (or `k` is first) and below entry `k` (or `k` is last) |
| AbstractDataModel.DrawZone | src/Extension/AbstractDataModel.java:172-176 | the resampling loop returns a zone with a road, consuming at least one draw; once the distribution is set and every zone has a road it takes exactly one draw and returns the zone that draw samples |
| AbstractDataModel.DrawZoneFirstWithRoad | src/Extension/AbstractDataModel.java:172-176 | the zone returned is the one sampled by the last draw used, and every earlier draw sampled an empty zone |
| AbstractDataModel.DrawRoad | src/Extension/AbstractDataModel.java:172-178 | succeeds exactly when a zone is drawn and a draw is left; the road is the drawn zone's road at `nextInt(size)` of the next draw |
| AbstractDataModel.PlainTarget | src/Extension/AbstractDataModel.java:170-179 | the gate test runs first and the road is then drawn from the distribution it leaves; the road belongs to the drawn zone, the zones and the shared matrix are unchanged, and at least one draw is used |
| AbstractDataModel.PlainTargetUsesTwoDraws | src/Extension/AbstractDataModel.java:170-179 | once the distribution is set and every zone has a road, the base rule succeeds with exactly two draws |
| Draws.NextInt | src/Extension/AbstractDataModel.java:177 | `nextInt(bound)` fails for a bound that is not positive and otherwise lies in `[0, bound)` |
| Draws.NextIntInverse | src/Extension/AbstractDataModel.java:177 | index `k` is drawn exactly when the draw lies in `[k / bound, (k + 1) / bound)` |
| JavaArrays.BinarySearch | src/Extension/AbstractDataModel.java:200 | on a sorted array a non-negative result is an index holding the key, and a negative one encodes the insertion point before every larger entry; it is negative exactly when the key is absent |
| JavaArrays.InsertionIndex | src/Extension/AbstractDataModel.java:200-203 | the found index, or the insertion point decoded from a negative result |
| DistanceBasedDataModel.Weight | src/Extension/DistanceBasedDataModel.java:50-51 | every candidate weight is positive |
| DistanceBasedDataModel.DrawZones | src/Extension/DistanceBasedDataModel.java:26-38 | `n` zone indices, each of a zone with a road, using at least `n` draws |
| DistanceBasedDataModel.DrawZonesSampleEach | src/Extension/DistanceBasedDataModel.java:26-38 | once the distribution is set and every zone has a road, candidate `i` is the zone sampled by draw `i` |
| DistanceBasedDataModel.Weights | src/Extension/DistanceBasedDataModel.java:46-53 | one positive weight per candidate, and two candidates naming the same zone get the same weight |
| DistanceBasedDataModel.DistanceTarget | src/Extension/DistanceBasedDataModel.java:20-90 | after a successful gate test a negative batch size fails as a negative array size; an empty batch fails; the result is the drawing step applied to the sampler the gate test leaves, a road of the selected zone, using at least `n + 2` draws |
| DistanceBasedDataModel.DrawTarget | src/Extension/DistanceBasedDataModel.java:22-89 | a negative batch size fails as a negative array size and an empty batch fails; the zone is the candidate the weighted cumulative distribution selects with the draw after the batch, the road that zone's road at `nextInt(size)` of the following draw, the sampler unchanged |
| DistanceBasedDataModel.DistanceTargetSucceeds | src/Extension/DistanceBasedDataModel.java:20-90 | with the distribution set and every zone non-empty, a batch of `n` uses exactly `n + 2` draws |
| DistanceBasedDataModel.DrawTargetSucceeds | src/Extension/DistanceBasedDataModel.java:22-89 | with the distribution set and every zone non-empty, a batch of `n` yields a road and uses exactly `n + 2` draws |
| DistanceBasedDataModel.CandidateChosenByWeight | src/Extension/DistanceBasedDataModel.java:55-84 | candidate `k` is chosen exactly when the draw lies in its slice of the cumulative weights, and that slice's width is its normalised weight |
| DistanceBasedDataModel.PositiveSum | src/Extension/DistanceBasedDataModel.java:44-53 | positive weights have a positive total, so the uniform fallback is never taken |
| OneZonePerRoad.MappingTable | src/Extension/LinearHomeZoneDataModel.java:46-51 | each key maps to the index of a road with that id |
| OneZonePerRoad.MappingTableKeys | src/Extension/LinearHomeZoneDataModel.java:46-51 | the keys are exactly the road ids |
| OneZonePerRoad.MappingTableLastWins | src/Extension/LinearHomeZoneDataModel.java:46-51 | a repeated id maps to the last road carrying it |
| OneZonePerRoad.RefreshPeriod | src/Extension/LinearHomeZoneDataModel.java:28-30 | a zero slot count divides by zero; otherwise an `int` |
| OneZonePerRoad.RefreshPeriodIsGcd | src/Extension/MFDataModel.java:30-32 | for a positive slot count and a non-negative window the period divides both the slot length and the window in seconds, any common divisor divides it, and it is positive unless both are zero |
| OneZonePerRoad.RefreshGate | src/Extension/MFDataModel.java:30-32 | the constructed gate exists exactly when the slot count is non-zero, is fresh, and has the period when that is positive and period 1 otherwise |
| MFDataModel.Insert | src/Extension/MFDataModel.java:73 | insertion keeps the list sorted and adds exactly one element |
| MFDataModel.SortIds | src/Extension/MFDataModel.java:69-73 | the ids in ascending order, as a permutation with repeats kept |
| MFDataModel.LoadMatrix | src/Extension/MFDataModel.java:64-118 | succeeds exactly when the frame over the sorted ids can be built and, for loaded factors, `setWH` accepts them; a counting grid of zeros exactly when the matrix is to be built, otherwise a factorised matrix with the loaded factors or none |
| MFDataModel.RowsAreSortedRoadIds | src/Extension/MFDataModel.java:69-80 | every road's id has a row, at a position of the sorted id list holding that id |
| MFDataModel.RoadZone | src/Extension/MFDataModel.java:49-53 | a zone of that road alone whose model reads that road's row |
| MFDataModel.BuildZones | src/Extension/MFDataModel.java:42-57 | zone `i` holds road `i` alone and its model reads road `i`'s id with the given window; no zone is empty |
| MFDataModel.BuiltZonesHaveTheirRoads | src/Extension/MFDataModel.java:48-55 | no zone is empty, and the mapping table leads from every id to the zone of a road with that id whose model reads that id |
| MFDataModel.NewMFDataModel | src/Extension/MFDataModel.java:28-57 | succeeds exactly when the matrix loads and the slot count is non-zero (division by zero otherwise); the result is a distance-based model over the built zones, sharing the loaded matrix, with no distribution yet and the refresh gate of the slot count and window |
| HomeZoneDataModel.IdSet | src/Extension/HomeZoneDataModel.java:24-27 | an id is in the set exactly when some road has it |
| HomeZoneDataModel.ZoneEntries | src/Extension/HomeZoneDataModel.java:24-27 | every road id of a zone maps to that zone |
| HomeZoneDataModel.RoadToZone | src/Extension/HomeZoneDataModel.java:22-28 | every value is a zone index |
| HomeZoneDataModel.RoadToZoneHas | src/Extension/HomeZoneDataModel.java:22-28 | an id is mapped exactly when some zone lists it |
| HomeZoneDataModel.RoadToZoneEntry | src/Extension/HomeZoneDataModel.java:22-28 | a mapped id leads to a zone that lists it, and no later zone lists it |
| HomeZoneDataModel.RoadToZoneLastWins | src/Extension/HomeZoneDataModel.java:22-28 | the whole table maps each listed id to its last listing zone |
| HomeZoneDataModel.MinIndex | src/Extension/HomeZoneDataModel.java:45-59 | the polled position has the least travel time to the origin, and every earlier position a strictly greater one |
| HomeZoneDataModel.RemoveAt | src/Extension/HomeZoneDataModel.java:59 | the queue loses exactly the polled element; a duplicate-free queue stays duplicate-free |
| HomeZoneDataModel.Enqueue | src/Extension/HomeZoneDataModel.java:69-78 | the old queue is a prefix of the new one and no recorded intersection is forgotten |
| HomeZoneDataModel.EnqueueRecords | src/Extension/HomeZoneDataModel.java:69-78 | the recorded set grows by exactly the neighbours; old records are kept and a new one holds the road from it to the current intersection |
| HomeZoneDataModel.EnqueueAppends | src/Extension/HomeZoneDataModel.java:70-77 | exactly the unrecorded neighbours are appended; the queue is unchanged exactly when nothing new is recorded |
| HomeZoneDataModel.EnqueueKeepsQueue | src/Extension/HomeZoneDataModel.java:69-78 | a duplicate-free queue of recorded intersections stays so |
| HomeZoneDataModel.Shrink | src/Extension/HomeZoneDataModel.java:71-76 | recording a new intersection strictly shrinks the set of unrecorded ones, which bounds the loop |
| HomeZoneDataModel.ExploreStep | src/Extension/HomeZoneDataModel.java:59-79 | one poll keeps the search invariant: no intersection polled twice, polled ones recorded and out of the queue |
| HomeZoneDataModel.ExploreProgress | src/Extension/HomeZoneDataModel.java:59-79 | each poll either records a new intersection or shortens the queue |
| HomeZoneDataModel.Explore | src/Extension/HomeZoneDataModel.java:59-81 | a match is a zone index of the wanted group found after polling; otherwise the last zone looked up; the failures are a missing road id or an out-of-range index, and with an in-range table no index failure |
| HomeZoneDataModel.ExploreLastLooked | src/Extension/HomeZoneDataModel.java:59-81 | the search returns the zone it looked up last, or the zone it started from when it looked nothing up; a match always looked something up |
| HomeZoneDataModel.ExploreFirstInGroup | src/Extension/HomeZoneDataModel.java:59-67 | on a match no zone looked up before the last was in the group; without one, none was |
| HomeZoneDataModel.ExploreLooksUp | src/Extension/HomeZoneDataModel.java:59-63 | the zone looked up at each poll is the zone of the road recorded for the intersection polled |
| HomeZoneDataModel.ExploreKeepsRecords | src/Extension/HomeZoneDataModel.java:70-77 | a road recorded for an intersection is never replaced |
| HomeZoneDataModel.NearestHomeZone | src/Extension/HomeZoneDataModel.java:33-82 | zero groups divide by zero; a road in no zone fails on index -1; a road already in the group returns its own zone without searching; any result is a zone index |
| HomeZoneDataModel.NearestHomeZoneFirstInGroup | src/Extension/HomeZoneDataModel.java:33-82 | the result is the zone of the first polled intersection whose recorded road is in a zone of the group, or else of the last one polled, or the road's own zone when nothing is polled; each polled zone is that of the road recorded for it, and the start's neighbours are recorded with their roads to the road's start |
| HomeZoneDataModel.NewHomeZoneSampler | src/Extension/HomeZoneDataModel.java:20-31 | keeps the base sampler and the group count; every table value is a zone index |
| HomeZoneDataModel.HomeZoneTarget | src/Extension/HomeZoneDataModel.java:84-91 | zero groups fail; the result is a road of the nearest home zone for the group `hash % groups`, drawn with the draws left |
| Routing.TargetRoad | src/Extension/AbstractDataModel.java:170-179 | each model's own rule; the result is a road of some zone, with the zones unchanged and at least one draw used |
| Routing.Destination | src/Extension/AbstractDataModel.java:139-141 | succeeds exactly when the target road does, and is the end of a road of some zone |
| Routing.GetRoute | src/Extension/AbstractDataModel.java:149-160 | the target does not end where the current road ends; the path is the shortest path with the target's end appended only when missing, so it always contains that end |
| Routing.FirstDifferentTargetIsUsed | src/Extension/AbstractDataModel.java:151-153 | when the first target road already ends elsewhere, it is the route's target after one sampling round |
| LinearHomeZoneDataModel.RoadZone | src/Extension/LinearHomeZoneDataModel.java:47-49 | a zone of that road alone with the given histogram |
| LinearHomeZoneDataModel.EmptyZones | src/Extension/LinearHomeZoneDataModel.java:44-51 | fails as a negative array size exactly when there is a road and the slot count is negative; otherwise one fresh zone per road |
| LinearHomeZoneDataModel.CountOne | src/Extension/LinearHomeZoneDataModel.java:54-61 | a record whose nearest road has no zone changes nothing; otherwise only that zone's histogram counts it, failing only on an empty histogram |
| LinearHomeZoneDataModel.CountAll | src/Extension/LinearHomeZoneDataModel.java:53-61 | counting keeps the number of zones, their roads and their day models |
| LinearHomeZoneDataModel.CountedPickupsUpdate | src/Extension/LinearHomeZoneDataModel.java:58-60 | replacing one zone changes the total count by that zone's difference |
| LinearHomeZoneDataModel.CountOneEffect | src/Extension/LinearHomeZoneDataModel.java:54-61 | one record adds one pickup if its nearest road has a zone, none otherwise, and no other zone changes |
| LinearHomeZoneDataModel.CountAllTotal | src/Extension/LinearHomeZoneDataModel.java:53-61 | the zones gain exactly as many pickups as records whose nearest road has a zone |
| LinearHomeZoneDataModel.BuildZones | src/Extension/LinearHomeZoneDataModel.java:40-63 | one day-histogram zone per road holding just that road; a negative slot count with a road fails |
| LinearHomeZoneDataModel.FreshZonesAreEmpty | src/Extension/LinearHomeZoneDataModel.java:46-48 | fresh histograms count nothing |
| LinearHomeZoneDataModel.BuildZonesCountsMatchedRecords | src/Extension/LinearHomeZoneDataModel.java:40-87 | after construction the zones hold exactly one pickup per loaded record whose nearest road is a road of the map, and none when the data set cannot be read |
| LinearHomeZoneDataModel.NewLinearHomeZoneDataModel | src/Extension/LinearHomeZoneDataModel.java:26-31 | succeeds exactly when the zones build and the slot count is non-zero (division by zero otherwise); a home-zone model over the built zones, one non-empty zone per road, with their road-to-zone table and the refresh gate of the slot count and window |
| ModelBuilder.ArgumentForKey | src/Extension/ModelBuilder.java:263-269 | the argument after the first occurrence of the key (ignoring case) that is not the last argument; none exactly when there is no such occurrence |
| ModelBuilder.Dispatch | src/Extension/ModelBuilder.java:271-306 | usage for fewer than two arguments; an action exactly when the first `-c` names a known command; Python defaults to `python` |
| ModelBuilder.FirstKeyIsUnique | src/Extension/ModelBuilder.java:264-267 | only one position is the first occurrence of a key |
| ModelBuilder.KeepForTestData | src/Extension/ModelBuilder.java:221-228 | a record is kept exactly when both points are inside the polygon and its hour is 8 to 21; the 22:00 clause never decides |
| ModelBuilder.LearnAt | src/Extension/ModelBuilder.java:176-185 | a record outside the polygon or on a road without a row leaves the matrix unchanged; otherwise it succeeds exactly when its cell exists, and exactly that cell grows by one |
| ModelBuilder.LearnAtCounts | src/Extension/ModelBuilder.java:176-185 | one record keeps the frame and raises the grid total by one when it is kept, by nothing otherwise |
| ModelBuilder.Learning | src/Extension/ModelBuilder.java:166-186 | learning keeps the frame |
| ModelBuilder.LearningCountsKeptRecords | src/Extension/ModelBuilder.java:166-186 | the grid's total grows by exactly the number of records inside the polygon on a known road |
| ModelBuilder.GridTotalBump | src/Extension/ModelBuilder.java:184-185 | one increment raises the grid total by one |
| ModelBuilder.SumBump | src/Extension/ModelBuilder.java:184-185 | one increment raises its row's sum by one |
| ModelBuilder.CountedSameFrame | src/Extension/ModelBuilder.java:182-184 | which records count depends only on the frame, not on the cells |

## Left out

- File and process I/O are not modelled: `convert`, `writeMatrix`, the per-day files of `generateTestData`, the Python factorisation run, `LinearHomeZoneDataModel.load` and the text parsing in `MFDataModel.loadMatrix`. Their results are inputs: a record list (or none when loading fails) and the factor rows (or none when a file is missing).
- `MFDataModel.LoadMatrix` takes the factors as already-read rows, so the sizing of the W and H arrays from the first lines of the files is not modelled.
- `ModelBuilder`'s constructor, `init` and `dateConversion` are left out. They read the configuration, build the map and parse dates. A record carries its epoch second instead, and `init`'s matrix is the same counting grid `MFDataModel.LoadMatrix` builds.
- Configuration plumbing (`WorldParameters`, `ConfigurableWorldParameters`) is not modelled. The values it supplies (slot count, window, sample size, exponent, group count, build flag) are parameters.
- `CSTS` is not modelled: the agent lifecycle and its shared static model.
- IEEE-754 rounding is not modelled: densities, probabilities and weights are exact reals, and `Math.pow` is an uninterpreted function that is positive for a positive base.
- The time-zone rules (`Utils.getTime`, `plusYears`, `plusDays`, daylight saving) are function fields of the `Calendar` datatype. Only week-day coherence of `plusDays` is assumed, where a lemma says so.
- `findColumn`'s result is not proved to lie in `[0, width)`. Across a year boundary the day-of-year difference in `column` can fall outside the span. A column outside the grid fails when it is read or incremented.
- `java.util.Random` is not modelled: `nextDouble` is a draw from the sequence and `nextInt(n)` is the floor of a draw times `n`. The library's rejection sampling is not modelled.
- The home-zone group number is `hash % groups`, with the hash code passed in as a parameter.
- Loops that retry forever in the source stop with a `StreamExhausted` failure when the draws run out: the resampling loops and `getRoute`'s loop.
- `PriorityQueue` ties are not modelled: among intersections at equal travel time the model polls the first in queue order, while the library's heap order is unspecified.
- Java collections compare roads by reference; the model compares them structurally. `contains` and `roadTo` may therefore match a structurally equal road that the source would treat as different.
- `Intersection.roadTo` returning null is not modelled, and neither is a `CityMap` whose adjacency leaves the intersection set: the home-zone search requires a closed map.
- After an exception the model returns only the failure, not the partly updated state (a histogram bumped before a later record failed, for example).
- `ModelBuilder.SameIgnoringCase` folds ASCII letters only; Java's `equalsIgnoreCase` also folds other Unicode letters.
- DayModel.SlotOf: computes the slot over exact reals, not over doubles. The double quotient of the minutes by `1440.0 / n` can round just below a whole number and truncate to the slot before: with 35 slots, 04:48 (288 minutes) is slot 7 over reals, while the double expression gives 6.
- DayModel.FindSlot: inherits the exact-real slot of `DayModel.SlotOf`, so a time whose double quotient rounds below a slot boundary is placed one slot later than in the source.
- AbstractMatrix.SlotOfDay: computes `x / 86400 * n` over exact reals. The double product can round just below a whole number: with 45 slots per day, second 24960 of the day is slot 13 over reals, while the double expression gives 12.
- AbstractMatrix.ColumnFromSlot: inherits the exact-real slot of `AbstractMatrix.SlotOfDay`, with the same one-column difference at such boundaries.
- AbstractMatrix.FindColumn: computes the column with the corrected `Column`, which reads the seconds field, not with `ColumnAsWritten` (see Findings). The two agree whenever `1440 % slotsPerDay == 0`, by `ColumnsAgreeOnWholeMinuteSlots`. `MFModel.GetDensity`, `MFModel.AddResource` and `ModelBuilder.LearnAt` read columns through it.
- AbstractMatrix.FindColumnInSpan: states the corrected column, not the one the source computes. It agrees with the source when `1440 % slotsPerDay == 0`.
- MFModel.AddResource: increments the cell of the corrected column. It agrees with the source when `1440 % slotsPerDay == 0`.
- MFModel.AddResourceEffect: states the effect at the corrected column. It agrees with the source when `1440 % slotsPerDay == 0`.
- AbstractMatrix.NewFrame: the width is the unbounded product of days and slots per day. Java's `int` multiplication would wrap for a product above `2^31 - 1`, and the model does not.
- `DayModel.AddResource` uses unbounded slot counters and does not model `int` wrap-around of a slot count.
- `DistanceBasedDataModel.CandidateChosenByWeight` states the width of a candidate's slice as its entry of `Normalize`; the product form, weight over total, is the contract of `AbstractDataModel.Normalize`.
- `ModelBuilder.Dispatch` is weaker than the source: it does not state which of the four commands is chosen, except for `generate_matrix`.
- `ModelBuilder.Learning` is stated by its partner lemma `LearningCountsKeptRecords` and by `LearnAt`, not by its own contract; `LearnRecord` only feeds `LearnAt` the column of the record's time.

## Findings

| source | as written | input that shows it | evidently intended | confidence | as-written member | corrected member |
|---|---|---|---|---|---|---|
| src/Extension/AbstractMatrix.java:140 | the seconds term of `column` reads `getMinute()` | 2880 slots per day (30-second slots), 00:00:45 on the start day: column 0 as written | `getSecond()`, giving column 1 | not executed | AbstractMatrix.ColumnAsWritten (exhibited by AbstractMatrix.ColumnReadsMinuteField) | AbstractMatrix.Column (AbstractMatrix.ColumnWithinDay) |
