/** The pure parts of `ModelBuilder`, the offline tool that turns trip
    records into the raw demand matrix: its command-line lookup and
    dispatch, the record filters, and the counting step of `learning`. */
module ModelBuilder {
  import opened Outcomes
  import opened Calendar
  import opened CityMap
  import opened Sums
  import opened AbstractMatrix
  import MM = MutableMatrixImpl

  /* ----- command line ----- */

  /** One character with ASCII upper case folded to lower case. */
  function FoldCase(c: char): char {
    if 'A' <= c <= 'Z' then (c as int - 'A' as int + 'a' as int) as char else c
  }

  /** `equalsIgnoreCase`, on ASCII letters. */
  predicate SameIgnoringCase(a: string, b: string) {
    |a| == |b| && forall i :: 0 <= i < |a| ==> FoldCase(a[i]) == FoldCase(b[i])
  }

  /** Position `x` holds `key` and has an argument after it. */
  predicate IsKeyAt(key: string, args: seq<string>, x: int) {
    0 <= x < |args| - 1 && SameIgnoringCase(args[x], key)
  }

  /** Position `x` is the first such position. */
  predicate FirstKeyAt(key: string, args: seq<string>, x: int) {
    IsKeyAt(key, args, x) && forall y :: 0 <= y < x ==> !IsKeyAt(key, args, y)
  }

  /** `argumentForKey`: the argument after the first occurrence of `key`
      (ignoring case) that is not the last argument; none when there is no
      such occurrence. */
  method ArgumentForKey(key: string, args: seq<string>) returns (r: Option<string>)
    ensures r.None? <==> forall x :: 0 <= x < |args| ==> !IsKeyAt(key, args, x)
    ensures r.Some? ==> exists x :: FirstKeyAt(key, args, x) && r.value == args[x + 1]
  {
    var x := 0;
    while x < |args| - 1
      invariant 0 <= x
      invariant forall y :: 0 <= y < x ==> !IsKeyAt(key, args, y)
    {
      if SameIgnoringCase(args[x], key) {
        assert FirstKeyAt(key, args, x);
        return Some(args[x + 1]);
      }
      x := x + 1;
    }
    return None;
  }

  /** At most one position is the first occurrence of a key. */
  lemma FirstKeyIsUnique(key: string, args: seq<string>, x: int, x': int)
    requires FirstKeyAt(key, args, x) && FirstKeyAt(key, args, x')
    ensures x == x'
  {
  }

  /** What `main` goes on to do. The configuration path is passed along
      (none means the default configuration). */
  datatype Action =
    | Usage
    | Simplify(config: Option<string>)
    | GenerateTestData(config: Option<string>)
    | GenerateMatrix(config: Option<string>)
    | Factorization(config: Option<string>, python: string)

  /** The recognised commands, ignoring case. */
  predicate Known(command: string) {
    || SameIgnoringCase(command, "simplify")
    || SameIgnoringCase(command, "generate_test_data")
    || SameIgnoringCase(command, "generate_matrix")
    || SameIgnoringCase(command, "factorization")
  }

  /** `main`'s choice of action: usage for fewer than two arguments, for a
      missing command and for an unknown one; the Python interpreter
      defaults to `python`. */
  method Dispatch(args: seq<string>) returns (action: Action)
    ensures |args| <= 1 ==> action == Usage
    ensures action != Usage <==> exists x :: FirstKeyAt("-c", args, x) && Known(args[x + 1])
    ensures action.GenerateMatrix? ==> exists x :: FirstKeyAt("-c", args, x) && SameIgnoringCase(args[x + 1], "generate_matrix")
    ensures action.Factorization? && (forall x :: 0 <= x < |args| ==> !IsKeyAt("-python", args, x)) ==>
      action.python == "python"
    ensures action.Factorization? && (exists x :: IsKeyAt("-python", args, x)) ==>
      exists x :: FirstKeyAt("-python", args, x) && action.python == args[x + 1]
  {
    if |args| <= 1 {
      return Usage;
    }
    var config := ArgumentForKey("-config", args);
    var pythonPath := ArgumentForKey("-python", args);
    var command := ArgumentForKey("-c", args);
    if command.None? {
      return Usage;
    }
    var c := command.value;
    ghost var at :| FirstKeyAt("-c", args, at) && c == args[at + 1];
    forall x | FirstKeyAt("-c", args, x)
      ensures x == at
    {
      FirstKeyIsUnique("-c", args, x, at);
    }
    if SameIgnoringCase(c, "simplify") {
      action := Simplify(config);
    } else if SameIgnoringCase(c, "generate_test_data") {
      action := GenerateTestData(config);
    } else if SameIgnoringCase(c, "generate_matrix") {
      action := GenerateMatrix(config);
    } else if SameIgnoringCase(c, "factorization") {
      action := Factorization(config, if pythonPath.None? then "python" else pythonPath.value);
    } else {
      action := Usage;
    }
  }

  /* ----- record filters ----- */

  /** A record is kept only when both its pickup and its drop-off point lie
      inside the bounding polygon. */
  predicate InsideBounds(city: CityMap, r: Resource) {
    city.insidePolygon(r.pickupLon, r.pickupLat) && city.insidePolygon(r.dropoffLon, r.dropoffLat)
  }

  /** The test-data split's filter as written: inside the polygon, and not
      before 8:00, not after the 21st hour, and not exactly 22:00. */
  function KeepForTestData(city: CityMap, r: Resource, local: DateTime): (keep: bool)
    ensures keep <==> InsideBounds(city, r) && 8 <= local.hour <= 21
  {
    if !InsideBounds(city, r) then false
    else if local.hour < 8 || local.hour > 21 || (local.hour == 22 && local.minute == 0) then false
    else true
  }

  /* ----- learning ----- */

  /** The sum of all cells of a grid, row by row. */
  function GridTotal(mat: seq<seq<real>>): real
    decreases |mat|
  {
    if |mat| == 0 then 0.0 else Sum(mat[0]) + GridTotal(mat[1..])
  }

  lemma {:induction false} SumBump(s: seq<real>, k: int)
    requires 0 <= k < |s|
    ensures Sum(s[k := s[k] + 1.0]) == Sum(s) + 1.0
    decreases |s|
  {
    if k > 0 {
      assert s[k := s[k] + 1.0][1..] == s[1..][k - 1 := s[k] + 1.0];
      SumBump(s[1..], k - 1);
    }
  }

  lemma {:induction false} GridTotalBump(mat: seq<seq<real>>, row: int, column: int)
    requires 0 <= row < |mat| && 0 <= column < |mat[row]|
    ensures GridTotal(mat[row := mat[row][column := mat[row][column] + 1.0]]) == GridTotal(mat) + 1.0
    decreases |mat|
  {
    var bumped := mat[row := mat[row][column := mat[row][column] + 1.0]];
    if row == 0 {
      assert bumped[1..] == mat[1..];
      SumBump(mat[0], column);
    } else {
      assert bumped[1..] == mat[1..][row - 1 := mat[row][column := mat[row][column] + 1.0]];
      GridTotalBump(mat[1..], row - 1, column);
    }
  }

  /** The road a record is counted against: the one nearest its pickup
      point. */
  function RecordRow(mx: MM.MutableMatrix, city: CityMap, r: Resource): int {
    FindRow(mx.frame, city.nearestRoad(r.pickupLon, r.pickupLat).id)
  }

  /** One record of `learning`, given the column `findColumn` returns for
      its time: outside the polygon or on a road without a row it is skipped;
      otherwise the cell of that column and its row grows by one (a column
      outside the grid fails). */
  function LearnAt(mx: MM.MutableMatrix, city: CityMap, r: Resource, column: int): (res: Result<MM.MutableMatrix>)
    ensures !InsideBounds(city, r) || RecordRow(mx, city, r) == -1 ==> res == Ok(mx)
    ensures InsideBounds(city, r) && RecordRow(mx, city, r) != -1 ==>
      var row := RecordRow(mx, city, r);
      && (res.Ok? <==> MM.InBounds(mx, column, row))
      && (res.Ok? ==> res.value.frame == mx.frame && res.value.mat == mx.mat[row := mx.mat[row][column := mx.mat[row][column] + 1.0]])
  {
    if !InsideBounds(city, r) then Ok(mx)
    else
      var row := RecordRow(mx, city, r);
      if row != -1 then MM.Increment(mx, column, row) else Ok(mx)
  }

  /** One record of `learning`: its column is that of its time. */
  function LearnRecord(mx: MM.MutableMatrix, cal: Calendar, city: CityMap, r: Resource): Result<MM.MutableMatrix> {
    LearnAt(mx, city, r, FindColumn(mx.frame, cal, r.time))
  }

  /** How many records are both inside the polygon and on a road with a row. */
  function Counted(mx: MM.MutableMatrix, city: CityMap, records: seq<Resource>): nat
    decreases |records|
  {
    if |records| == 0 then 0
    else
      (if InsideBounds(city, records[0]) && RecordRow(mx, city, records[0]) != -1 then 1 else 0)
      + Counted(mx, city, records[1..])
  }

  /** `learning` over the records of one file, in order. */
  function Learning(mx: MM.MutableMatrix, cal: Calendar, city: CityMap, records: seq<Resource>): (res: Result<MM.MutableMatrix>)
    ensures res.Ok? ==> res.value.frame == mx.frame
    decreases |records|
  {
    if |records| == 0 then Ok(mx)
    else
      var next :- LearnRecord(mx, cal, city, records[0]);
      Learning(next, cal, city, records[1..])
  }

  /** The matrix's cells grow by exactly the number of records that pass the
      polygon filter and name a known road: unknown roads contribute
      nothing. */
  lemma {:induction false} LearningCountsKeptRecords(mx: MM.MutableMatrix, cal: Calendar, city: CityMap, records: seq<Resource>)
    requires Learning(mx, cal, city, records).Ok?
    ensures GridTotal(Learning(mx, cal, city, records).value.mat) == GridTotal(mx.mat) + Counted(mx, city, records) as real
    decreases |records|
  {
    if |records| > 0 {
      var r := records[0];
      var next := LearnRecord(mx, cal, city, r).value;
      LearnAtCounts(mx, city, r, FindColumn(mx.frame, cal, r.time));
      CountedSameFrame(mx, next, city, records[1..]);
      LearningCountsKeptRecords(next, cal, city, records[1..]);
    }
  }

  /** One record adds one to the grid's total when it is kept, and nothing
      otherwise. */
  lemma LearnAtCounts(mx: MM.MutableMatrix, city: CityMap, r: Resource, column: int)
    requires LearnAt(mx, city, r, column).Ok?
    ensures LearnAt(mx, city, r, column).value.frame == mx.frame
    ensures GridTotal(LearnAt(mx, city, r, column).value.mat) ==
      GridTotal(mx.mat) + if InsideBounds(city, r) && RecordRow(mx, city, r) != -1 then 1.0 else 0.0
  {
    if InsideBounds(city, r) && RecordRow(mx, city, r) != -1 {
      GridTotalBump(mx.mat, RecordRow(mx, city, r), column);
    }
  }

  lemma {:induction false} CountedSameFrame(a: MM.MutableMatrix, b: MM.MutableMatrix, city: CityMap, records: seq<Resource>)
    requires a.frame == b.frame
    ensures Counted(a, city, records) == Counted(b, city, records)
    decreases |records|
  {
    if |records| > 0 {
      CountedSameFrame(a, b, city, records[1..]);
    }
  }
}
