/** `DayModel`: the counting temporal density model of one zone, a histogram
    of trip pickups over the slots of one day. */
module DayModel {
  import opened Outcomes
  import opened JavaOps
  import opened TemporalModel
  import opened Calendar
  import opened CityMap
  import opened Sums

  datatype DayModel = DayModel(window: int, slots: seq<int>)

  /** The constructor: `numOfTemporalSlots` zeroed slots (a negative count is
      refused by the array allocation). */
  function NewDayModel(window: int, numOfTemporalSlots: int): (r: Result<DayModel>)
    ensures r.Err? <==> numOfTemporalSlots < 0
    ensures r.Err? ==> r.failure == NegativeArraySize
    ensures r.Ok? ==> r.value.window == window && |r.value.slots| == numOfTemporalSlots
    ensures r.Ok? ==> forall i :: 0 <= i < |r.value.slots| ==> r.value.slots[i] == 0
  {
    if numOfTemporalSlots < 0 then Err(NegativeArraySize)
    else Ok(DayModel(window, seq(numOfTemporalSlots, i => 0)))
  }

  /** `setDensity` replaces the whole slot array and keeps the window. */
  function SetDensity(m: DayModel, slots: seq<int>): (r: DayModel)
    ensures r.slots == slots && r.window == m.window
  {
    m.(slots := slots)
  }

  /** Minutes since the start hour of the day. */
  function OffsetMinutes(dt: DateTime): int {
    (dt.hour - START) * MINUTES_OF_HOUR + dt.minute
  }

  /** `findSlot` on a local time, for `n` slots: the offset in minutes divided
      by the slot length `SPAN_IN_MINUTE / n` (a double), cast to `int`. With
      no slots the slot length is infinite and the quotient is zero. */
  function SlotOf(n: nat, dt: DateTime): (s: int)
    requires WellFormed(dt)
    ensures n == 0 ==> s == 0
    ensures n > 0 ==> 0 <= s < n
    ensures n > 0 ==> s == (OffsetMinutes(dt) * n) / SPAN_IN_MINUTE
  {
    if n == 0 then 0
    else
      var x := OffsetMinutes(dt);
      var slotSize := (SPAN_IN_MINUTE as real) / (n as real);
      SlotQuotient(x, n, slotSize);
      Trunc((x as real) / slotSize)
  }

  lemma SlotQuotient(x: int, n: int, slotSize: real)
    requires 0 <= x < SPAN_IN_MINUTE && n > 0
    requires slotSize == (SPAN_IN_MINUTE as real) / (n as real)
    ensures Trunc((x as real) / slotSize) == (x * n) / SPAN_IN_MINUTE
    ensures 0 <= (x * n) / SPAN_IN_MINUTE < n
  {
    var p := x * n;
    var q := p / SPAN_IN_MINUTE;
    var r := p % SPAN_IN_MINUTE;
    assert (x as real) / slotSize == (p as real) / (SPAN_IN_MINUTE as real);
    assert (p as real) / (SPAN_IN_MINUTE as real) == q as real + (r as real) / (SPAN_IN_MINUTE as real);
    assert p < SPAN_IN_MINUTE * n;
  }

  function FindSlot(m: DayModel, cal: Calendar, epochSecond: int): (s: int)
    ensures |m.slots| > 0 ==> 0 <= s < |m.slots|
    ensures |m.slots| == 0 ==> s == 0
  {
    SlotOf(|m.slots|, cal.atEpoch(epochSecond))
  }

  /** The sum of `s[lo..hi]`, both ends included; zero when `lo > hi`. */
  function RangeSum(s: seq<int>, lo: int, hi: int): int
    requires 0 <= lo && hi < |s|
    decreases hi - lo + 1
  {
    if lo > hi then 0 else s[lo] + RangeSum(s, lo + 1, hi)
  }

  function WindowFirst(m: DayModel, cal: Calendar, time: int): int {
    FindSlot(m, cal, time)
  }

  /** The last slot of the window, clamped to the last slot of the model. */
  function WindowLast(m: DayModel, cal: Calendar, time: int): int {
    Min(FindSlot(m, cal, WindowEnd(time, m.window)), |m.slots| - 1)
  }

  /** `getDensity`: the pickups counted in the slots of the window that starts
      at `time`. */
  function GetDensity(m: DayModel, cal: Calendar, time: int): (d: real)
    ensures |m.slots| == 0 ==> d == 0.0
  {
    RangeSum(m.slots, WindowFirst(m, cal, time), WindowLast(m, cal, time)) as real
  }

  /** The slot counts from `lo` to `hi` inclusive, in slot order, as reals. */
  function SlotCells(s: seq<int>, lo: int, hi: int): (cells: seq<real>)
    requires 0 <= lo && hi < |s|
    ensures |cells| == if lo <= hi then hi - lo + 1 else 0
    ensures forall k :: 0 <= k < |cells| ==> cells[k] == s[lo + k] as real
  {
    if lo <= hi then seq(hi - lo + 1, k requires 0 <= k < hi - lo + 1 => s[lo + k] as real) else []
  }

  lemma {:induction false} RangeSumIsSum(s: seq<int>, lo: int, hi: int)
    requires 0 <= lo && hi < |s|
    ensures RangeSum(s, lo, hi) as real == Sum(SlotCells(s, lo, hi))
    decreases hi - lo + 1
  {
    if lo <= hi {
      RangeSumIsSum(s, lo + 1, hi);
      assert SlotCells(s, lo, hi)[1..] == SlotCells(s, lo + 1, hi);
    }
  }

  /** The density is the sum of the slot counts from the slot of `time` to
      the slot of the window's end (clamped to the last slot), which is never
      negative while the counts are not. */
  lemma GetDensityIsWindowSum(m: DayModel, cal: Calendar, time: int)
    ensures GetDensity(m, cal, time) == Sum(SlotCells(m.slots, WindowFirst(m, cal, time), WindowLast(m, cal, time)))
    ensures (forall i :: 0 <= i < |m.slots| ==> m.slots[i] >= 0) ==> GetDensity(m, cal, time) >= 0.0
  {
    var cells := SlotCells(m.slots, WindowFirst(m, cal, time), WindowLast(m, cal, time));
    RangeSumIsSum(m.slots, WindowFirst(m, cal, time), WindowLast(m, cal, time));
    if forall i :: 0 <= i < |m.slots| ==> m.slots[i] >= 0 {
      SumNonNegative(cells);
    }
  }

  /** `addResource`: one more pickup in the slot of the record's time. With no
      slots the array access fails. */
  function AddResource(m: DayModel, cal: Calendar, resource: Resource): (r: Result<DayModel>)
    ensures r.Ok? <==> |m.slots| > 0
    ensures r.Err? ==> r.failure == IndexOutOfBounds
    ensures r.Ok? ==> var k := FindSlot(m, cal, resource.time);
      && r.value.window == m.window
      && |r.value.slots| == |m.slots|
      && r.value.slots[k] == m.slots[k] + 1
      && forall i :: 0 <= i < |m.slots| && i != k ==> r.value.slots[i] == m.slots[i]
  {
    var k := FindSlot(m, cal, resource.time);
    if k < |m.slots| then Ok(m.(slots := m.slots[k := m.slots[k] + 1])) else Err(IndexOutOfBounds)
  }

  /** All pickups counted by the model. */
  function Total(m: DayModel): int {
    RangeSum(m.slots, 0, |m.slots| - 1)
  }

  lemma {:induction false} RangeSumBump(s: seq<int>, k: int, lo: int, hi: int)
    requires 0 <= k < |s| && 0 <= lo && hi < |s|
    ensures RangeSum(s[k := s[k] + 1], lo, hi) == RangeSum(s, lo, hi) + (if lo <= k <= hi then 1 else 0)
    decreases hi - lo + 1
  {
    if lo <= hi {
      RangeSumBump(s, k, lo + 1, hi);
    }
  }

  lemma {:induction false} RangeSumZeros(s: seq<int>, lo: int, hi: int)
    requires 0 <= lo && hi < |s|
    requires forall i :: 0 <= i < |s| ==> s[i] == 0
    ensures RangeSum(s, lo, hi) == 0
    decreases hi - lo + 1
  {
    if lo <= hi {
      RangeSumZeros(s, lo + 1, hi);
    }
  }

  /** A new model reports zero density at every time. */
  lemma FreshModelIsEmpty(window: int, n: int, cal: Calendar, time: int)
    requires NewDayModel(window, n).Ok?
    ensures GetDensity(NewDayModel(window, n).value, cal, time) == 0.0
    ensures Total(NewDayModel(window, n).value) == 0
  {
    var m := NewDayModel(window, n).value;
    RangeSumZeros(m.slots, WindowFirst(m, cal, time), WindowLast(m, cal, time));
    RangeSumZeros(m.slots, 0, |m.slots| - 1);
  }

  /** A window whose end falls in an earlier slot than its start (a window
      that crosses midnight) sums no slot at all. */
  lemma WindowAcrossMidnightIsEmpty(m: DayModel, cal: Calendar, time: int)
    requires FindSlot(m, cal, WindowEnd(time, m.window)) < FindSlot(m, cal, time)
    ensures GetDensity(m, cal, time) == 0.0
  {
  }

  /** Counting one record raises the total by one, and raises the density at
      a time by one exactly when the record's slot lies in that time's window. */
  lemma AddResourceEffect(m: DayModel, cal: Calendar, resource: Resource, time: int)
    requires AddResource(m, cal, resource).Ok?
    ensures var m' := AddResource(m, cal, resource).value;
      var k := FindSlot(m, cal, resource.time);
      && Total(m') == Total(m) + 1
      && GetDensity(m', cal, time) ==
         GetDensity(m, cal, time) + (if WindowFirst(m, cal, time) <= k <= WindowLast(m, cal, time) then 1.0 else 0.0)
  {
    var k := FindSlot(m, cal, resource.time);
    var m' := AddResource(m, cal, resource).value;
    assert m'.slots == m.slots[k := m.slots[k] + 1];
    assert WindowFirst(m', cal, time) == WindowFirst(m, cal, time);
    assert WindowLast(m', cal, time) == WindowLast(m, cal, time);
    RangeSumBump(m.slots, k, WindowFirst(m, cal, time), WindowLast(m, cal, time));
    RangeSumBump(m.slots, k, 0, |m.slots| - 1);
  }
}
