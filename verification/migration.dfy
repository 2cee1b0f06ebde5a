/**
  `ResponseMatrix.get_response_matrix_as_ndarray` of migration.py: the filled
  response histogram, each truth column divided by the number of simulated
  events in that truth bin, optionally reshaped in row-major order.
 */
module Migration {
  import opened Wrappers
  import opened Arrays

  /** `np.where(N_t > 0., N_t, 1.)`: empty or negative truth bins divide by one. */
  function Divisor(n: real): (d: real)
    ensures d > 0.0
  {
    if n > 0.0 then n else 1.0
  }

  /** One reco row of the response, divided column by column. */
  function NormalizeRow(row: seq<real>, truth: seq<real>): (r: seq<real>)
    requires |row| == |truth|
    ensures |r| == |row|
    ensures forall j :: 0 <= j < |r| ==> r[j] == row[j] / Divisor(truth[j])
  {
    if |row| == 0 then []
    else [row[0] / Divisor(truth[0])] + NormalizeRow(row[1..], truth[1..])
  }

  /** `M /= np.where(N_t > 0., N_t, 1.)` on the `(n_reco, n_truth)` response values. */
  function NormalizeColumns(values: seq<seq<real>>, truth: seq<real>): (m: seq<seq<real>>)
    requires IsMatrix(values, |values|, |truth|)
    ensures IsMatrix(m, |values|, |truth|)
    ensures forall i, j :: 0 <= i < |m| && 0 <= j < |truth| && truth[j] > 0.0 ==> m[i][j] == values[i][j] / truth[j]
    ensures forall i, j :: 0 <= i < |m| && 0 <= j < |truth| && truth[j] <= 0.0 ==> m[i][j] == values[i][j]
  {
    seq(|values|, i requires 0 <= i < |values| => NormalizeRow(values[i], truth))
  }

  /** Non-negative response values give a non-negative matrix, whatever the truth totals. */
  lemma NormalizeNonNegative(values: seq<seq<real>>, truth: seq<real>)
    requires IsMatrix(values, |values|, |truth|)
    requires forall i, j :: 0 <= i < |values| && 0 <= j < |truth| ==> values[i][j] >= 0.0
    ensures forall i, j :: 0 <= i < |values| && 0 <= j < |truth| ==> NormalizeColumns(values, truth)[i][j] >= 0.0
  {
    var m := NormalizeColumns(values, truth);
    forall i, j | 0 <= i < |values| && 0 <= j < |truth|
      ensures m[i][j] >= 0.0
    {
      assert m[i] == NormalizeRow(values[i], truth);
      QuotientNonNegative(values[i][j], Divisor(truth[j]));
    }
  }

  lemma QuotientNonNegative(x: real, d: real)
    requires x >= 0.0 && d > 0.0
    ensures x / d >= 0.0
  {
  }

  /**
    Folding a row back with the truth totals gives the row's total response,
    provided every column with a non-zero response has a positive truth total.
   */
  lemma {:induction false} RowReconstruction(row: seq<real>, truth: seq<real>)
    requires |row| == |truth|
    requires forall j :: 0 <= j < |row| && row[j] != 0.0 ==> truth[j] > 0.0
    ensures Dot(NormalizeRow(row, truth), truth) == Sum(row)
  {
    if |row| > 0 {
      RowReconstruction(row[1..], truth[1..]);
      if truth[0] > 0.0 {
        assert (row[0] / truth[0]) * truth[0] == row[0];
      }
    }
  }

  /** `M.dot(N_t)` reproduces the reco totals: the consistency the response matrix is built for. */
  lemma MatrixReconstruction(values: seq<seq<real>>, truth: seq<real>, i: nat)
    requires IsMatrix(values, |values|, |truth|)
    requires i < |values|
    requires forall j :: 0 <= j < |truth| && values[i][j] != 0.0 ==> truth[j] > 0.0
    ensures Dot(NormalizeColumns(values, truth)[i], truth) == Sum(values[i])
  {
    RowReconstruction(values[i], truth);
  }

  /**
    `get_response_matrix_as_ndarray(shape=None)`: the normalised matrix with
    shape `(n_reco, n_truth)`, or reshaped to `shape` in C order; a shape with
    a different number of elements cannot be reshaped to.
   */
  function ResponseMatrixAsArray(values: seq<seq<real>>, truth: seq<real>, shape: Option<seq<nat>>): (r: Result<NdArray<real>>)
    requires IsMatrix(values, |values|, |truth|)
    ensures r.Success? <==> shape.None? || Prod(shape.value) == |values| * |truth|
    ensures r.Success? ==> r.value.Valid()
    ensures r.Success? ==> r.value.shape == (if shape.Some? then shape.value else [|values|, |truth|])
  {
    var m := NormalizeColumns(values, truth);
    var target := if shape.Some? then shape.value else [|values|, |truth|];
    FlattenLength(m, |truth|);
    ProdPair(|values|, |truth|);
    if Prod(target) == |values| * |truth| then Success(NdArray(target, Flatten(m)))
    else Failure(ValueError(CannotReshape))
  }

  /** Row-major layout: matrix entry `(i, j)` sits at flat position `i * n_truth + j`. */
  lemma ResponseMatrixRowMajor(values: seq<seq<real>>, truth: seq<real>, shape: Option<seq<nat>>, i: nat, j: nat)
    requires IsMatrix(values, |values|, |truth|)
    requires ResponseMatrixAsArray(values, truth, shape).Success?
    requires i < |values| && j < |truth|
    ensures i * |truth| + j < |ResponseMatrixAsArray(values, truth, shape).value.flat|
    ensures ResponseMatrixAsArray(values, truth, shape).value.flat[i * |truth| + j]
      == values[i][j] / Divisor(truth[j])
  {
    FlattenAt(NormalizeColumns(values, truth), |truth|, i, j);
  }
}
