/** `MFModel`: the temporal model of one road backed by the demand matrix
    that all roads share. Its density at a time is the road's row summed over
    the columns of the time window; only a mutable matrix can count records. */
module MFModel {
  import opened Outcomes
  import opened TemporalModel
  import opened Calendar
  import opened CityMap
  import opened Sums
  import opened AbstractMatrix
  import MM = MutableMatrixImpl
  import opened Matrices

  /** The matrix itself is shared, so it is passed to each operation. */
  datatype MFModel = MFModel(roadId: int, window: int)

  function GetRoadId(m: MFModel): int {
    m.roadId
  }

  /** The constructor: the road id starts at the `long` default, zero. */
  function NewMFModel(window: int): (m: MFModel)
    ensures GetRoadId(m) == 0 && m.window == window
  {
    MFModel(0, window)
  }

  /** `setRoadId`: the getter returns the value set last; the window stays. */
  function SetRoadId(m: MFModel, roadId: int): (r: MFModel)
    ensures GetRoadId(r) == roadId && r.window == m.window
  {
    m.(roadId := roadId)
  }

  /** The cells of row `row` from column `lo` to `hi` inclusive, read from
      left to right; the first unreadable cell fails the whole sum. */
  function ColumnSum(mx: Matrix, row: int, lo: int, hi: int): (r: Result<real>)
    ensures lo > hi ==> r == Ok(0.0)
    ensures r.Ok? <==> forall i :: lo <= i <= hi ==> Get(mx, i, row).Ok?
    ensures r.Err? ==> exists i :: lo <= i <= hi && FirstFailure(mx, row, lo, i) && Get(mx, i, row).failure == r.failure
    decreases hi - lo + 1
  {
    if lo > hi then Ok(0.0)
    else
      var v :- Get(mx, lo, row);
      var rest :- ColumnSum(mx, row, lo + 1, hi);
      Ok(v + rest)
  }

  /** The readable cells of row `row` from column `lo` to `hi` inclusive, in
      column order, whichever kind of matrix holds them. */
  function RowCells(mx: Matrix, row: int, lo: int, hi: int): (cells: seq<real>)
    requires forall i :: lo <= i <= hi ==> Get(mx, i, row).Ok?
    ensures |cells| == if lo <= hi then hi - lo + 1 else 0
    ensures forall k :: 0 <= k < |cells| ==> Get(mx, lo + k, row) == Ok(cells[k])
  {
    if lo <= hi then seq(hi - lo + 1, k requires 0 <= k < hi - lo + 1 => Get(mx, lo + k, row).value) else []
  }

  /** A readable row range sums to the sum of its cells, on a counting grid
      and on a factorised matrix alike. */
  lemma {:induction false} ColumnSumValue(mx: Matrix, row: int, lo: int, hi: int)
    requires ColumnSum(mx, row, lo, hi).Ok?
    ensures ColumnSum(mx, row, lo, hi).value == Sum(RowCells(mx, row, lo, hi))
    decreases hi - lo + 1
  {
    if lo <= hi {
      ColumnSumValue(mx, row, lo + 1, hi);
      assert RowCells(mx, row, lo, hi)[1..] == RowCells(mx, row, lo + 1, hi);
    }
  }

  /** Column `i` is the first unreadable cell of the row from `lo` on. */
  predicate FirstFailure(mx: Matrix, row: int, lo: int, i: int) {
    Get(mx, i, row).Err? && forall j :: lo <= j < i ==> Get(mx, j, row).Ok?
  }

  function DensityRow(m: MFModel, mx: Matrix): int {
    MatrixFindRow(mx, m.roadId)
  }

  function DensityFirst(m: MFModel, mx: Matrix, cal: Calendar, time: int): int {
    MatrixFindColumn(mx, cal, time)
  }

  function DensityLast(m: MFModel, mx: Matrix, cal: Calendar, time: int): int {
    MatrixFindColumn(mx, cal, WindowEnd(time, m.window))
  }

  /** `getDensity`: the road's row summed over the columns from that of
      `time` to that of the end of the window, both included. */
  function GetDensity(m: MFModel, mx: Matrix, cal: Calendar, time: int): (r: Result<real>)
    ensures DensityLast(m, mx, cal, time) < DensityFirst(m, mx, cal, time) ==> r == Ok(0.0)
    ensures r.Ok? <==> forall i :: DensityFirst(m, mx, cal, time) <= i <= DensityLast(m, mx, cal, time) ==>
      Get(mx, i, DensityRow(m, mx)).Ok?
  {
    ColumnSum(mx, DensityRow(m, mx), DensityFirst(m, mx, cal, time), DensityLast(m, mx, cal, time))
  }

  /** A readable density is the sum of the road's cells over the window's
      columns, for either kind of matrix. */
  lemma GetDensityValue(m: MFModel, mx: Matrix, cal: Calendar, time: int)
    requires GetDensity(m, mx, cal, time).Ok?
    ensures GetDensity(m, mx, cal, time).value ==
      Sum(RowCells(mx, DensityRow(m, mx), DensityFirst(m, mx, cal, time), DensityLast(m, mx, cal, time)))
  {
    ColumnSumValue(mx, DensityRow(m, mx), DensityFirst(m, mx, cal, time), DensityLast(m, mx, cal, time));
  }

  /** On a mutable grid whose row holds the window, the density is the sum
      of the row's cells from the first to the last column of the window. */
  lemma {:induction false} MutableColumnSum(mx: Matrix, row: int, lo: int, hi: int)
    requires mx.Mutable?
    requires 0 <= row < |mx.grid.mat| && 0 <= lo <= hi + 1 && hi < |mx.grid.mat[row]|
    ensures ColumnSum(mx, row, lo, hi) == Ok(Sum(mx.grid.mat[row][lo..hi + 1]))
    decreases hi - lo + 1
  {
    var cells := mx.grid.mat[row][lo..hi + 1];
    if lo <= hi {
      MutableColumnSum(mx, row, lo + 1, hi);
      assert cells[1..] == mx.grid.mat[row][lo + 1..hi + 1];
    }
  }

  /** `addResource`: on a mutable matrix the cell of the record's column and
      the road's row grows by one; a factorised matrix is left as it is. */
  function AddResource(m: MFModel, mx: Matrix, cal: Calendar, resource: Resource): (r: Result<Matrix>)
    ensures mx.Factorized? ==> r == Ok(mx)
    ensures mx.Mutable? ==>
      var column := MatrixFindColumn(mx, cal, resource.time);
      var row := DensityRow(m, mx);
      && (r.Ok? <==> MM.InBounds(mx.grid, column, row))
      && (r.Err? ==> r.failure == IndexOutOfBounds)
      && (r.Ok? ==> r.value == Mutable(MM.Increment(mx.grid, column, row).value))
  {
    match mx
    case Factorized(_) => Ok(mx)
    case Mutable(g) =>
      var grid :- MM.Increment(g, MatrixFindColumn(mx, cal, resource.time), DensityRow(m, mx));
      Ok(Mutable(grid))
  }

  /** After one increment, a row sum over any column range reads one more
      exactly when the range covers the incremented cell of that row. */
  lemma {:induction false} ColumnSumAfterIncrement(g: MM.MutableMatrix, column: int, row: int, r: int, lo: int, hi: int)
    requires MM.Increment(g, column, row).Ok?
    ensures var g' := MM.Increment(g, column, row).value;
      && (ColumnSum(Mutable(g'), r, lo, hi).Ok? <==> ColumnSum(Mutable(g), r, lo, hi).Ok?)
      && (ColumnSum(Mutable(g), r, lo, hi).Ok? ==>
          ColumnSum(Mutable(g'), r, lo, hi).value ==
          ColumnSum(Mutable(g), r, lo, hi).value + (if r == row && lo <= column <= hi then 1.0 else 0.0))
    decreases hi - lo + 1
  {
    var g' := MM.Increment(g, column, row).value;
    if lo <= hi {
      assert MM.InBounds(g', lo, r) <==> MM.InBounds(g, lo, r);
      ColumnSumAfterIncrement(g, column, row, r, lo + 1, hi);
    }
  }

  /** Counting a record into a mutable matrix raises the density of any road
      at any time by one exactly when the record's cell lies in that road's
      row and inside the window's columns; whether the density is readable
      does not change. */
  lemma AddResourceEffect(m: MFModel, mx: Matrix, cal: Calendar, resource: Resource, other: MFModel, time: int)
    requires mx.Mutable? && AddResource(m, mx, cal, resource).Ok?
    ensures var mx' := AddResource(m, mx, cal, resource).value;
      var column := MatrixFindColumn(mx, cal, resource.time);
      var hit := DensityRow(other, mx) == DensityRow(m, mx)
        && DensityFirst(other, mx, cal, time) <= column <= DensityLast(other, mx, cal, time);
      && (GetDensity(other, mx', cal, time).Ok? <==> GetDensity(other, mx, cal, time).Ok?)
      && (GetDensity(other, mx, cal, time).Ok? ==>
          GetDensity(other, mx', cal, time).value == GetDensity(other, mx, cal, time).value + (if hit then 1.0 else 0.0))
  {
    var column := MatrixFindColumn(mx, cal, resource.time);
    var mx' := AddResource(m, mx, cal, resource).value;
    assert FrameOf(mx') == FrameOf(mx);
    ColumnSumAfterIncrement(mx.grid, column, DensityRow(m, mx), DensityRow(other, mx),
      DensityFirst(other, mx, cal, time), DensityLast(other, mx, cal, time));
  }
}
