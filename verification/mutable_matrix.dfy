/** `MutableMatrixImpl`: a zero-initialised height by width grid of counters,
    stored row-major (`mat[row][column]`) but addressed as `(column, row)`. */
module MutableMatrixImpl {
  import opened Outcomes
  import opened AbstractMatrix

  datatype MutableMatrix = MutableMatrix(frame: Frame, mat: seq<seq<real>>)

  /** Every row holds `width` cells. */
  predicate Shaped(mat: seq<seq<real>>, height: int, width: int) {
    |mat| == height && forall r :: 0 <= r < |mat| ==> |mat[r]| == width
  }

  predicate InBounds(m: MutableMatrix, column: int, row: int) {
    0 <= row < |m.mat| && 0 <= column < |m.mat[row]|
  }

  /** The constructor's grid: `getHeight()` rows of `getWidth()` zeros. */
  function NewMutableMatrix(frame: Frame): (m: MutableMatrix)
    requires frame.width >= 0
    ensures m.frame == frame
    ensures Shaped(m.mat, Height(frame), frame.width)
    ensures forall r, c :: 0 <= r < Height(frame) && 0 <= c < frame.width ==> m.mat[r][c] == 0.0
  {
    MutableMatrix(frame, seq(Height(frame), r => seq(frame.width, c => 0.0)))
  }

  /** `get(column, row)`: the cell in row `row`, column `column`; an index
      outside the grid fails. */
  function Get(m: MutableMatrix, column: int, row: int): (r: Result<real>)
    ensures r.Ok? <==> InBounds(m, column, row)
    ensures r.Err? ==> r.failure == IndexOutOfBounds
    ensures r.Ok? ==> r.value == m.mat[row][column]
  {
    if InBounds(m, column, row) then Ok(m.mat[row][column]) else Err(IndexOutOfBounds)
  }

  /** `set(column, row, value)`: afterwards that cell reads `value` and no
      other cell changes. */
  function Set(m: MutableMatrix, column: int, row: int, value: real): (r: Result<MutableMatrix>)
    ensures r.Ok? <==> InBounds(m, column, row)
    ensures r.Err? ==> r.failure == IndexOutOfBounds
    ensures r.Ok? ==>
      && r.value.frame == m.frame
      && |r.value.mat| == |m.mat|
      && (forall i :: 0 <= i < |m.mat| ==> |r.value.mat[i]| == |m.mat[i]|)
      && Get(r.value, column, row) == Ok(value)
      && forall c, i :: InBounds(m, c, i) && (c, i) != (column, row) ==> Get(r.value, c, i) == Get(m, c, i)
  {
    if InBounds(m, column, row) then
      Ok(m.(mat := m.mat[row := m.mat[row][column := value]]))
    else Err(IndexOutOfBounds)
  }

  /** `increment(column, row)`: that cell grows by exactly one and no other
      cell changes. */
  function Increment(m: MutableMatrix, column: int, row: int): (r: Result<MutableMatrix>)
    ensures r.Ok? <==> InBounds(m, column, row)
    ensures r.Err? ==> r.failure == IndexOutOfBounds
    ensures r.Ok? ==>
      && r.value.frame == m.frame
      && |r.value.mat| == |m.mat|
      && (forall i :: 0 <= i < |m.mat| ==> |r.value.mat[i]| == |m.mat[i]|)
      && r.value.mat[row][column] == m.mat[row][column] + 1.0
      && forall c, i :: InBounds(m, c, i) && (c, i) != (column, row) ==> r.value.mat[i][c] == m.mat[i][c]
  {
    if InBounds(m, column, row) then
      Ok(m.(mat := m.mat[row := m.mat[row][column := m.mat[row][column] + 1.0]]))
    else Err(IndexOutOfBounds)
  }

  /** `n` successive increments of one cell. */
  function IncrementTimes(m: MutableMatrix, column: int, row: int, n: nat): Result<MutableMatrix>
    decreases n
  {
    if n == 0 then Ok(m)
    else
      var m' :- Increment(m, column, row);
      IncrementTimes(m', column, row, n - 1)
  }

  /** Incrementing a cell `n` times adds exactly `n` to it and leaves every
      other cell as it was. */
  lemma {:induction false} IncrementTimesAddsN(m: MutableMatrix, column: int, row: int, n: nat)
    requires InBounds(m, column, row)
    ensures IncrementTimes(m, column, row, n).Ok?
    ensures var m' := IncrementTimes(m, column, row, n).value;
      && m'.frame == m.frame
      && InBounds(m', column, row)
      && m'.mat[row][column] == m.mat[row][column] + n as real
      && forall c, i :: InBounds(m, c, i) && (c, i) != (column, row) ==> InBounds(m', c, i) && m'.mat[i][c] == m.mat[i][c]
    decreases n
  {
    if n > 0 {
      var m1 := Increment(m, column, row).value;
      IncrementTimesAddsN(m1, column, row, n - 1);
    }
  }

  /** A fresh cell incremented `n` times reads back exactly `n`. */
  lemma FreshCellCountsIncrements(frame: Frame, column: int, row: int, n: nat)
    requires frame.width >= 0
    requires 0 <= row < Height(frame) && 0 <= column < frame.width
    ensures IncrementTimes(NewMutableMatrix(frame), column, row, n).Ok?
    ensures Get(IncrementTimes(NewMutableMatrix(frame), column, row, n).value, column, row) == Ok(n as real)
  {
    IncrementTimesAddsN(NewMutableMatrix(frame), column, row, n);
  }
}
