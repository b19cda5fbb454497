/** `AbstractMatrix`: what every demand matrix shares. Rows are zones (road
    ids) and columns are the time slots of the days from `start` (inclusive)
    to `end` (exclusive). A time outside the span is mapped to a day of the
    span with the same day of week before its column is computed. */
module AbstractMatrix {
  import opened Outcomes
  import opened JavaOps
  import opened TemporalModel
  import opened Calendar
  import opened CityMap

  datatype Frame = Frame(
    start: DateTime,
    end: DateTime,
    slotsPerDay: int,
    zoneToRow: map<int, int>,
    width: int)

  /** The invariant the constructor establishes. */
  predicate ValidFrame(f: Frame) {
    && WellFormed(f.start) && IsMidnight(f.start)
    && WellFormed(f.end) && IsMidnight(f.end)
    && f.slotsPerDay >= 0
    && f.width >= 0
    && forall id :: id in f.zoneToRow ==> f.zoneToRow[id] >= 0
  }

  /** `setZones`: `ids[i]` maps to row `i`; for a repeated id the later index
      wins, as with successive `put`s. */
  function RowTable(ids: seq<int>): (m: map<int, int>)
    ensures m.Keys == set i | 0 <= i < |ids| :: ids[i]
    ensures forall id :: id in m ==>
      && 0 <= m[id] < |ids|
      && ids[m[id]] == id
      && forall j :: m[id] < j < |ids| ==> ids[j] != id
    decreases |ids|
  {
    if |ids| == 0 then map[]
    else RowTable(ids[..|ids| - 1])[ids[|ids| - 1] := |ids| - 1]
  }

  /** With distinct ids the row of `ids[i]` is `i`. */
  lemma RowTableOfDistinct(ids: seq<int>, i: int)
    requires NoDuplicates(ids) && 0 <= i < |ids|
    ensures ids[i] in RowTable(ids) && RowTable(ids)[ids[i]] == i
  {
    var m := RowTable(ids);
    assert ids[i] in m.Keys;
    assert ids[m[ids[i]]] == ids[i];
  }

  /** With distinct ids the table has one row per id. */
  lemma {:induction false} HeightOfDistinct(ids: seq<int>)
    requires NoDuplicates(ids)
    ensures |RowTable(ids)| == |ids|
    decreases |ids|
  {
    if |ids| > 0 {
      var prefix := ids[..|ids| - 1];
      var last := ids[|ids| - 1];
      HeightOfDistinct(prefix);
      assert last !in RowTable(prefix);
      assert RowTable(ids) == RowTable(prefix)[last := |ids| - 1];
      assert RowTable(ids).Keys == RowTable(prefix).Keys + {last};
    }
  }

  /** The number of whole or partial days between two midnights: the minutes
      between them (a `long` division by 60) divided by 1440, rounded up. */
  function SpanDays(s: DateTime, e: DateTime): (days: int)
    ensures var minutes := Quot(e.epoch - s.epoch, SECONDS_OF_MINUTE);
      (days - 1) * 1440 < minutes <= days * 1440
  {
    var minutes := Quot(e.epoch - s.epoch, SECONDS_OF_MINUTE);
    Ceil((minutes as real) / ((HOURS_OF_DAY * MINUTES_OF_HOUR) as real))
  }

  /** The constructor: it refuses a start that is not strictly before the end,
      a negative slot count, and a span of fewer than seven days after both
      ends are moved to their midnights; otherwise the matrix is `days` times
      `slotsPerDay` columns wide. */
  function NewFrame(cal: Calendar, start: DateTime, end: DateTime, slotsPerDay: int, ids: seq<int>): (r: Result<Frame>)
    ensures var days := SpanDays(cal.atMidnight(start), cal.atMidnight(end));
      r.Ok? <==> start.epoch < end.epoch && slotsPerDay >= 0 && days >= 7
    ensures start.epoch >= end.epoch ==> r == Err(StartNotBeforeEnd)
    ensures start.epoch < end.epoch && slotsPerDay < 0 ==> r == Err(NegativeSlotCount)
    ensures r.Err? && start.epoch < end.epoch && slotsPerDay >= 0 ==> r == Err(SpanShorterThanWeek)
    ensures r.Ok? ==>
      && ValidFrame(r.value)
      && r.value.start == cal.atMidnight(start)
      && r.value.end == cal.atMidnight(end)
      && r.value.slotsPerDay == slotsPerDay
      && r.value.width == SpanDays(r.value.start, r.value.end) * slotsPerDay
      && r.value.zoneToRow == RowTable(ids)
  {
    if !(start.epoch < end.epoch) then Err(StartNotBeforeEnd)
    else if slotsPerDay < 0 then Err(NegativeSlotCount)
    else
      var s := cal.atMidnight(start);
      var e := cal.atMidnight(end);
      var days := SpanDays(s, e);
      if days < 7 then Err(SpanShorterThanWeek)
      else Ok(Frame(s, e, slotsPerDay, RowTable(ids), days * slotsPerDay))
  }

  function Height(f: Frame): int {
    |f.zoneToRow|
  }

  /** `findRow`: the registered row of an id, or -1. */
  function FindRow(f: Frame, id: int): (row: int)
    ensures id !in f.zoneToRow ==> row == -1
    ensures id in f.zoneToRow ==> row == f.zoneToRow[id]
    ensures ValidFrame(f) ==> (row == -1 <==> id !in f.zoneToRow)
  {
    if id in f.zoneToRow then f.zoneToRow[id] else -1
  }

  /** On a frame built from `ids`, an id gets -1 exactly when it was never
      registered, and otherwise the index of its last occurrence in `ids`. */
  lemma FindRowOfBuiltFrame(cal: Calendar, start: DateTime, end: DateTime, slotsPerDay: int, ids: seq<int>, id: int)
    requires NewFrame(cal, start, end, slotsPerDay, ids).Ok?
    ensures var row := FindRow(NewFrame(cal, start, end, slotsPerDay, ids).value, id);
      && (row == -1 <==> forall i :: 0 <= i < |ids| ==> ids[i] != id)
      && (row != -1 ==> 0 <= row < |ids| && ids[row] == id && forall j :: row < j < |ids| ==> ids[j] != id)
  {
    var m := RowTable(ids);
    if id !in m {
      forall i | 0 <= i < |ids| ensures ids[i] != id {
        assert ids[i] in m.Keys;
      }
    }
  }

  /** `isValid`: the instant lies in `[start, end)`. */
  predicate IsValid(f: Frame, dt: DateTime) {
    f.start.epoch <= dt.epoch < f.end.epoch
  }

  function SecondOfDay(dt: DateTime): int {
    dt.hour * SECONDS_OF_HOUR + dt.minute * SECONDS_OF_MINUTE + dt.second
  }

  /** The column of a date-time given the seconds term of its time of day:
      whole days since the start times the slots per day, plus the day's
      fraction scaled to slots and cast to `int`. */
  function ColumnFrom(f: Frame, dt: DateTime, seconds: int): int {
    var days := dt.dayOfYear - f.start.dayOfYear;
    var hours := dt.hour - f.start.hour;
    var minutes := dt.minute - f.start.minute;
    var a := days * f.slotsPerDay;
    var b := ((hours * SECONDS_OF_HOUR + minutes * SECONDS_OF_MINUTE + seconds) as real)
      / (SECONDS_OF_DAY as real) * (f.slotsPerDay as real);
    a + Trunc(b)
  }

  /** `column` as the source writes it: the seconds term reads the minute
      field of the date-time. */
  function ColumnAsWritten(f: Frame, dt: DateTime): int {
    ColumnFrom(f, dt, dt.minute - f.start.second)
  }

  /** `column` with the seconds term reading the second field, as intended. */
  function Column(f: Frame, dt: DateTime): int {
    ColumnFrom(f, dt, dt.second - f.start.second)
  }

  lemma SlotOfDay(x: int, n: int)
    requires 0 <= x < SECONDS_OF_DAY && n >= 0
    ensures Trunc((x as real) / (SECONDS_OF_DAY as real) * (n as real)) == (x * n) / SECONDS_OF_DAY
    ensures n > 0 ==> 0 <= (x * n) / SECONDS_OF_DAY < n
  {
    var p := x * n;
    ScaledFraction(x, n);
    ProductBelowDays(x, n);
    TruncOfDayQuotient(p);
    if n > 0 {
      DayQuotientBelow(p, n);
    }
  }

  lemma {:induction false} ProductBelowDays(x: int, n: int)
    requires 0 <= x < SECONDS_OF_DAY && n >= 0
    ensures 0 <= x * n
    ensures n > 0 ==> x * n < SECONDS_OF_DAY * n
    decreases n
  {
    if n > 0 {
      ProductBelowDays(x, n - 1);
      assert x * n == x * (n - 1) + x;
      assert SECONDS_OF_DAY * n == SECONDS_OF_DAY * (n - 1) + SECONDS_OF_DAY;
    }
  }

  lemma DayQuotientBelow(p: int, n: int)
    requires 0 <= p < SECONDS_OF_DAY * n
    ensures 0 <= p / SECONDS_OF_DAY < n
  {
    var q := p / SECONDS_OF_DAY;
    assert SECONDS_OF_DAY * q <= p;
  }

  /** Scaling a fraction of a day by `n` is dividing the product by a day. */
  lemma ScaledFraction(x: int, n: int)
    ensures (x as real) / (SECONDS_OF_DAY as real) * (n as real) == ((x * n) as real) / (SECONDS_OF_DAY as real)
  {
    assert (x as real) * (n as real) == (x * n) as real;
  }

  /** Truncating an exact quotient by a day is integer division by a day. */
  lemma TruncOfDayQuotient(p: int)
    requires p >= 0
    ensures Trunc((p as real) / (SECONDS_OF_DAY as real)) == p / SECONDS_OF_DAY
  {
    var q := p / SECONDS_OF_DAY;
    var r := p % SECONDS_OF_DAY;
    assert p == SECONDS_OF_DAY * q + r;
    assert (p as real) / (SECONDS_OF_DAY as real) == q as real + (r as real) / (SECONDS_OF_DAY as real);
  }

  /** On a valid frame the column of a date-time is its day offset times the
      slots per day plus the slot of its second of the day, so it lies in the
      block of columns of its day. */
  lemma ColumnWithinDay(f: Frame, dt: DateTime)
    requires ValidFrame(f) && WellFormed(dt)
    ensures var days := dt.dayOfYear - f.start.dayOfYear;
      && Column(f, dt) == days * f.slotsPerDay + (SecondOfDay(dt) * f.slotsPerDay) / SECONDS_OF_DAY
      && days * f.slotsPerDay <= Column(f, dt)
      && (f.slotsPerDay > 0 ==> Column(f, dt) < (days + 1) * f.slotsPerDay)
  {
    var days := dt.dayOfYear - f.start.dayOfYear;
    var n := f.slotsPerDay;
    assert Column(f, dt) == ColumnFrom(f, dt, dt.second);
    assert dt.hour * SECONDS_OF_HOUR + dt.minute * SECONDS_OF_MINUTE + dt.second == SecondOfDay(dt);
    ColumnFromSlot(f, dt, dt.second);
    SlotOfDay(SecondOfDay(dt), n);
    assert (days + 1) * n == days * n + n;
  }

  lemma ColumnFromSlot(f: Frame, dt: DateTime, seconds: int)
    requires ValidFrame(f)
    requires 0 <= dt.hour * SECONDS_OF_HOUR + dt.minute * SECONDS_OF_MINUTE + seconds < SECONDS_OF_DAY
    ensures var x := dt.hour * SECONDS_OF_HOUR + dt.minute * SECONDS_OF_MINUTE + seconds;
      ColumnFrom(f, dt, seconds) == (dt.dayOfYear - f.start.dayOfYear) * f.slotsPerDay + (x * f.slotsPerDay) / SECONDS_OF_DAY
  {
    SlotOfDay(dt.hour * SECONDS_OF_HOUR + dt.minute * SECONDS_OF_MINUTE + seconds, f.slotsPerDay);
  }

  /** The discrepancy: with 2880 slots per day (30-second slots), at 00:00:45
      the intended column is 1 but the column as written is 0. */
  lemma ColumnReadsMinuteField(cal: Calendar)
    ensures var f := Frame(DateTime(0, 2016, 1, 5, 0, 0, 0), DateTime(864000, 2016, 11, 1, 0, 0, 0), 2880, map[], 28800);
      var dt := DateTime(45, 2016, 1, 5, 0, 0, 45);
      Column(f, dt) == 1 && ColumnAsWritten(f, dt) == 0
  {
    var f := Frame(DateTime(0, 2016, 1, 5, 0, 0, 0), DateTime(864000, 2016, 11, 1, 0, 0, 0), 2880, map[], 28800);
    var dt := DateTime(45, 2016, 1, 5, 0, 0, 45);
    SlotOfDay(45, 2880);
    SlotOfDay(0, 2880);
  }

  /** The two agree whenever a slot is a whole number of minutes: the seconds
      term then never moves a time of day across a slot boundary. */
  lemma ColumnsAgreeOnWholeMinuteSlots(f: Frame, dt: DateTime)
    requires ValidFrame(f) && WellFormed(dt)
    requires f.slotsPerDay > 0 && 1440 % f.slotsPerDay == 0
    ensures Column(f, dt) == ColumnAsWritten(f, dt)
  {
    var minuteOfDay := dt.hour * 60 + dt.minute;
    assert Column(f, dt) == ColumnFrom(f, dt, dt.second);
    assert ColumnAsWritten(f, dt) == ColumnFrom(f, dt, dt.minute);
    assert dt.hour * SECONDS_OF_HOUR + dt.minute * SECONDS_OF_MINUTE == minuteOfDay * 60;
    ColumnFromSlot(f, dt, dt.second);
    ColumnFromSlot(f, dt, dt.minute);
    MinuteSlot(minuteOfDay, dt.second, f.slotsPerDay);
    MinuteSlot(minuteOfDay, dt.minute, f.slotsPerDay);
  }

  lemma MinuteSlot(minuteOfDay: int, s: int, n: int)
    requires 0 <= minuteOfDay < 1440 && 0 <= s < 60
    requires n > 0 && 1440 % n == 0
    ensures ((minuteOfDay * 60 + s) * n) / SECONDS_OF_DAY == (minuteOfDay * n) / 1440
  {
    var q := (minuteOfDay * n) / 1440;
    var r := (minuteOfDay * n) % 1440;
    RemainderLeavesRoom(minuteOfDay, n);
    SecondsTimesSlots(s, n);
    var p := (minuteOfDay * 60 + s) * n;
    assert p == 60 * (minuteOfDay * n) + s * n;
    assert p == 86400 * q + (60 * r + s * n);
  }

  /** With slots of whole minutes, the minute-of-day remainder is a multiple
      of the slot count, so it leaves room for a whole minute more. */
  lemma RemainderLeavesRoom(m: int, n: int)
    requires 0 <= m < 1440 && n > 0 && 1440 % n == 0
    ensures (m * n) % 1440 <= 1440 - n
  {
    var k := 1440 / n;
    assert n * k == 1440;
    var q := (m * n) / 1440;
    var r := (m * n) % 1440;
    var c := m - k * q;
    assert r == n * c by {
      assert m * n == 1440 * q + r;
      assert 1440 * q == n * (k * q);
      assert n * c == m * n - n * (k * q);
    }
    assert n * (k - c) == n * k - n * c;
    ProductSign(n, k - c);
    assert n * (k - 1 - c) == n * k - n * c - n;
    ProductSign(n, k - 1 - c);
  }

  /** A positive factor keeps the sign of the other one. */
  lemma ProductSign(n: int, d: int)
    requires n > 0
    ensures d <= 0 ==> n * d <= 0
    ensures d >= 0 ==> n * d >= 0
  {
  }

  lemma SecondsTimesSlots(s: int, n: int)
    requires 0 <= s < 60 && n > 0
    ensures 0 <= s * n <= 59 * n
  {
    assert (59 - s) * n >= 0;
  }

  /** The day difference normalised into `-3..3`. */
  function NormalizeDiff(diff: int): int {
    if Abs(diff) < 4 then diff else if diff > 0 then diff - 7 else diff + 7
  }

  lemma NormalizeDiffRange(diff: int)
    requires -6 <= diff <= 6
    ensures Abs(NormalizeDiff(diff)) <= 3
    ensures (NormalizeDiff(diff) - diff) % 7 == 0
  {
  }

  /** Days to add to the start to reach day of week `day`. */
  function StartOffset(day: int, startDow: int): int {
    Rem(day + 7 - startDow, 7)
  }

  /** One less than the days to subtract from the end to reach `day`. */
  function EndOffset(endDow: int, day: int): int {
    Rem(endDow + 6 - day, 7)
  }

  lemma StartOffsetAligns(day: int, startDow: int)
    requires 1 <= day <= 7 && 1 <= startDow <= 7
    ensures 0 <= StartOffset(day, startDow) <= 6
    ensures DayOfWeekAfter(startDow, StartOffset(day, startDow)) == day
  {
  }

  lemma EndOffsetAligns(endDow: int, day: int)
    requires 1 <= day <= 7 && 1 <= endDow <= 7
    ensures 0 <= EndOffset(endDow, day) <= 6
    ensures DayOfWeekAfter(endDow, -(EndOffset(endDow, day) + 1)) == day
  {
  }

  /** The first two steps for a time outside the span: move by whole years
      to the year of the start when before it, to the year of the end when
      after it. */
  function YearShifted(f: Frame, cal: Calendar, dt: DateTime): DateTime {
    var d1 := if dt.epoch < f.start.epoch then cal.plusYears(dt, f.start.year - dt.year) else dt;
    if d1.epoch > f.end.epoch then cal.plusYears(d1, -(d1.year - f.end.year)) else d1
  }

  /** The date of the boundary snap: the first day on or after the start with
      day of week `day`, or the last such day before the end. */
  function SnapDate(f: Frame, cal: Calendar, day: int, nearStart: bool): DateTime {
    if nearStart then cal.plusDays(f.start, StartOffset(day, f.start.dayOfWeek))
    else cal.plusDays(f.end, -(EndOffset(f.end.dayOfWeek, day) + 1))
  }

  /** The start side is taken only when it is strictly closer in day of year. */
  function NearStart(f: Frame, shifted: DateTime): bool {
    var t := shifted.dayOfYear;
    var s := f.start.dayOfYear;
    var e := f.end.dayOfYear - 1;
    var diffS := Min(365 + s - t, Abs(s - t));
    var diffE := Min(365 + e - t, Abs(e - t));
    diffS < diffE
  }

  /** The date-time whose column `findColumn` returns. */
  function Aligned(f: Frame, cal: Calendar, epochSecond: int): DateTime {
    var dt := cal.atEpoch(epochSecond);
    if IsValid(f, dt) then dt else Realign(f, cal, dt)
  }

  /** A date-time moved by whole days to day of week `day`, by at most
      three days either way. */
  function DayShifted(cal: Calendar, shifted: DateTime, day: int): DateTime {
    cal.plusDays(shifted, NormalizeDiff(day - shifted.dayOfWeek))
  }

  /** The replacement for a date-time outside the span: the year shift and
      the day-of-week shift when that lands inside the span, and otherwise
      the boundary snap at the original second of the day. */
  function Realign(f: Frame, cal: Calendar, dt: DateTime): DateTime {
    var shifted := YearShifted(f, cal, dt);
    var tmp := DayShifted(cal, shifted, dt.dayOfWeek);
    if IsValid(f, tmp) then tmp
    else cal.plusSeconds(SnapDate(f, cal, dt.dayOfWeek, NearStart(f, shifted)), SecondOfDay(dt))
  }

  /** `findColumn`. */
  function FindColumn(f: Frame, cal: Calendar, epochSecond: int): int {
    Column(f, Aligned(f, cal, epochSecond))
  }

  /** A time inside the span gets its own column directly. */
  lemma FindColumnInSpan(f: Frame, cal: Calendar, epochSecond: int)
    requires IsValid(f, cal.atEpoch(epochSecond))
    ensures FindColumn(f, cal, epochSecond) == Column(f, cal.atEpoch(epochSecond))
  {
  }

  /** Whatever date-time a time is aligned to, its column is that date-time's
      day offset from the start times the slots per day plus the slot of its
      second of the day, so it lies in the block of columns of that day. */
  lemma FindColumnInDayBlock(f: Frame, cal: Calendar, epochSecond: int)
    requires ValidFrame(f)
    ensures var a := Aligned(f, cal, epochSecond);
      var days := a.dayOfYear - f.start.dayOfYear;
      var c := FindColumn(f, cal, epochSecond);
      && c == days * f.slotsPerDay + (SecondOfDay(a) * f.slotsPerDay) / SECONDS_OF_DAY
      && days * f.slotsPerDay <= c
      && (f.slotsPerDay > 0 ==> c < (days + 1) * f.slotsPerDay)
  {
    ColumnWithinDay(f, Aligned(f, cal, epochSecond));
  }

  lemma ShiftAligns(cal: Calendar, shifted: DateTime, day: int)
    requires WeekCoherent(cal) && WellFormed(shifted) && 1 <= day <= 7
    ensures Abs(NormalizeDiff(day - shifted.dayOfWeek)) <= 3
    ensures DayShifted(cal, shifted, day).dayOfWeek == day
  {
    var diff := NormalizeDiff(day - shifted.dayOfWeek);
    NormalizeDiffRange(day - shifted.dayOfWeek);
    PlusDaysDayOfWeek(cal, shifted, diff);
  }

  /** One instance of `WeekCoherent`. */
  lemma PlusDaysDayOfWeek(cal: Calendar, d: DateTime, k: int)
    requires WeekCoherent(cal)
    ensures cal.plusDays(d, k).dayOfWeek == DayOfWeekAfter(d.dayOfWeek, k)
  {
  }

  lemma SnapAligns(f: Frame, cal: Calendar, day: int, nearStart: bool)
    requires WeekCoherent(cal) && ValidFrame(f) && 1 <= day <= 7
    ensures SnapDate(f, cal, day, nearStart).dayOfWeek == day
  {
    if nearStart {
      StartOffsetAligns(day, f.start.dayOfWeek);
      PlusDaysDayOfWeek(cal, f.start, StartOffset(day, f.start.dayOfWeek));
    } else {
      EndOffsetAligns(f.end.dayOfWeek, day);
      PlusDaysDayOfWeek(cal, f.end, -(EndOffset(f.end.dayOfWeek, day) + 1));
    }
  }

  /** A time outside the span whose day-of-week shift (by at most three
      days, after moving to the year of the nearer boundary) lands inside the
      span is aligned to that shifted date-time, which keeps its day of week. */
  lemma AlignedByShift(f: Frame, cal: Calendar, epochSecond: int)
    requires WeekCoherent(cal)
    requires var dt := cal.atEpoch(epochSecond);
      && !IsValid(f, dt)
      && IsValid(f, DayShifted(cal, YearShifted(f, cal, dt), dt.dayOfWeek))
    ensures var dt := cal.atEpoch(epochSecond);
      var moved := DayShifted(cal, YearShifted(f, cal, dt), dt.dayOfWeek);
      && Aligned(f, cal, epochSecond) == moved
      && moved.dayOfWeek == dt.dayOfWeek
  {
    var dt := cal.atEpoch(epochSecond);
    ShiftAligns(cal, YearShifted(f, cal, dt), dt.dayOfWeek);
  }

  /** Otherwise the time is aligned to the start-side or end-side snap date
      (the end side on ties), at the time's own second of the day; the snap
      date has the time's day of week. */
  lemma AlignedBySnap(f: Frame, cal: Calendar, epochSecond: int)
    requires ValidFrame(f) && WeekCoherent(cal)
    requires var dt := cal.atEpoch(epochSecond);
      && !IsValid(f, dt)
      && !IsValid(f, DayShifted(cal, YearShifted(f, cal, dt), dt.dayOfWeek))
    ensures var dt := cal.atEpoch(epochSecond);
      var snap := SnapDate(f, cal, dt.dayOfWeek, NearStart(f, YearShifted(f, cal, dt)));
      && Aligned(f, cal, epochSecond) == cal.plusSeconds(snap, SecondOfDay(dt))
      && snap.dayOfWeek == dt.dayOfWeek
  {
    var dt := cal.atEpoch(epochSecond);
    SnapAligns(f, cal, dt.dayOfWeek, NearStart(f, YearShifted(f, cal, dt)));
  }
}
