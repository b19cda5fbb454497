/** The `Matrix` interface: a demand matrix is either the mutable counting
    grid or the read-only factorised product, and both share the frame of
    `AbstractMatrix` for their row and column lookups. */
module Matrices {
  import opened Outcomes
  import opened Calendar
  import opened AbstractMatrix
  import MM = MutableMatrixImpl
  import FM = FactorizedMatrix

  datatype Matrix = Mutable(grid: MM.MutableMatrix) | Factorized(product: FM.FactorizedMatrix)

  function FrameOf(mx: Matrix): Frame {
    match mx
    case Mutable(g) => g.frame
    case Factorized(p) => p.frame
  }

  /** `get(column, row)` of whichever implementation the matrix is. */
  function Get(mx: Matrix, column: int, row: int): Result<real> {
    match mx
    case Mutable(g) => MM.Get(g, column, row)
    case Factorized(p) => FM.Get(p, column, row)
  }

  function MatrixFindRow(mx: Matrix, id: int): int {
    FindRow(FrameOf(mx), id)
  }

  function MatrixFindColumn(mx: Matrix, cal: Calendar, epochSecond: int): int {
    FindColumn(FrameOf(mx), cal, epochSecond)
  }
}
