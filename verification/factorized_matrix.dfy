/** `FactorizedMatrix`: a read-only demand matrix reconstructed from a
    non-negative factorisation X = W·H, where `w[row]` holds a zone's
    features and `h[i]` holds feature `i` over time. */
module FactorizedMatrix {
  import opened Outcomes
  import opened AbstractMatrix

  datatype Factors = Factors(w: seq<seq<real>>, h: seq<seq<real>>)

  /** Until `setWH` succeeds the factor arrays are unset (null). */
  datatype FactorizedMatrix = FactorizedMatrix(frame: Frame, factors: Option<Factors>)

  /** `setWH`: `w[0]` is read, so W must have a row, and the feature count of
      W (its first row's length) must equal the row count of H; on success
      both are stored as given. */
  function SetWH(m: FactorizedMatrix, w: seq<seq<real>>, h: seq<seq<real>>): (r: Result<FactorizedMatrix>)
    ensures |w| == 0 ==> r == Err(IndexOutOfBounds)
    ensures |w| > 0 && |h| != |w[0]| ==> r == Err(FeatureMismatch)
    ensures r.Ok? <==> |w| > 0 && |h| == |w[0]|
    ensures r.Ok? ==> r.value.frame == m.frame && r.value.factors == Some(Factors(w, h))
  {
    if |w| == 0 then Err(IndexOutOfBounds)
    else if |h| != |w[0]| then Err(FeatureMismatch)
    else Ok(m.(factors := Some(Factors(w, h))))
  }

  /** Every array access `w[row][i]` and `h[i][column]` for `i < features`
      stays inside its array. */
  predicate Readable(w: seq<seq<real>>, h: seq<seq<real>>, column: int, row: int, features: int) {
    && features <= |h|
    && (features > 0 ==> 0 <= row < |w| && features <= |w[row]| && 0 <= column)
    && (forall i :: 0 <= i < features ==> column < |h[i]|)
  }

  /** `Σ_{i < k} wr[i] · h[i][column]`, accumulated in index order. */
  function Dot(wr: seq<real>, h: seq<seq<real>>, column: int, k: nat): real
    requires k <= |wr| && k <= |h|
    requires 0 <= column && forall i :: 0 <= i < k ==> column < |h[i]|
  {
    if k == 0 then 0.0 else Dot(wr, h, column, k - 1) + wr[k - 1] * h[k - 1][column]
  }

  /** `get(column, row)`: the dot product of W's row with H's column over all
      `h.length` features. With no features nothing is read and the cell is
      zero; unset factors or an index outside either array fail. */
  function Get(m: FactorizedMatrix, column: int, row: int): (r: Result<real>)
    ensures m.factors.None? ==> r == Err(NullReference)
    ensures m.factors.Some? ==>
      var fs := m.factors.value;
      && (r.Ok? <==> Readable(fs.w, fs.h, column, row, |fs.h|))
      && (r.Err? ==> r.failure == IndexOutOfBounds)
      && (|fs.h| == 0 ==> r == Ok(0.0))
      && (r.Ok? && |fs.h| > 0 ==> r.value == Dot(fs.w[row], fs.h, column, |fs.h|))
  {
    match m.factors
    case None => Err(NullReference)
    case Some(fs) =>
      if |fs.h| == 0 then Ok(0.0)
      else if Readable(fs.w, fs.h, column, row, |fs.h|) then Ok(Dot(fs.w[row], fs.h, column, |fs.h|))
      else Err(IndexOutOfBounds)
  }

  predicate NonNegative(a: seq<seq<real>>) {
    forall i, j :: 0 <= i < |a| && 0 <= j < |a[i]| ==> a[i][j] >= 0.0
  }

  lemma {:induction false} DotNonNegative(wr: seq<real>, h: seq<seq<real>>, column: int, k: nat)
    requires k <= |wr| && k <= |h|
    requires 0 <= column && forall i :: 0 <= i < k ==> column < |h[i]|
    requires forall i :: 0 <= i < |wr| ==> wr[i] >= 0.0
    requires NonNegative(h)
    ensures Dot(wr, h, column, k) >= 0.0
  {
    if k > 0 {
      DotNonNegative(wr, h, column, k - 1);
      assert h[k - 1][column] >= 0.0;
      assert wr[k - 1] * h[k - 1][column] >= 0.0;
    }
  }

  /** With non-negative factors, as the class requires of W and H, every
      reconstructed cell is non-negative. */
  lemma GetNonNegative(m: FactorizedMatrix, column: int, row: int)
    requires m.factors.Some? && NonNegative(m.factors.value.w) && NonNegative(m.factors.value.h)
    requires Get(m, column, row).Ok?
    ensures Get(m, column, row).value >= 0.0
  {
    var fs := m.factors.value;
    if |fs.h| > 0 {
      DotNonNegative(fs.w[row], fs.h, column, |fs.h|);
    }
  }
}
