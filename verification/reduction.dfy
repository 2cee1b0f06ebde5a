/**
  The efficiency reduction of `LikelihoodMachine` in likelihood.py: truth bins
  that no response matrix maps anywhere are dropped from the matrices and from
  the truth vectors, and `eye(n_truth)[:, eff]` embeds reduced vectors back.
 */
module Reduction {
  import opened Wrappers
  import opened Arrays

  type Matrix = seq<seq<real>>

  /**
    An array of response matrices of shape `batchShape + [nReco, nTruth]`;
    `batchShape` is empty for a single matrix.
   */
  datatype Response = Response(batchShape: seq<nat>, mats: seq<Matrix>, nReco: nat, nTruth: nat) {
    predicate Valid() {
      |mats| == Prod(batchShape) && forall b :: 0 <= b < |mats| ==> IsMatrix(mats[b], nReco, nTruth)
    }

    /** `response_matrix.ndim > 2`: there are systematic toy axes. */
    predicate Stacked() {
      |batchShape| > 0
    }
  }

  /** Column `j` of a matrix whose rows all have more than `j` entries. */
  function Column(m: Matrix, j: nat): (c: seq<real>)
    requires forall i :: 0 <= i < |m| ==> j < |m[i]|
    ensures |c| == |m| && forall i :: 0 <= i < |m| ==> c[i] == m[i][j]
  {
    seq(|m|, i requires 0 <= i < |m| => m[i][j])
  }

  /** `np.sum(response_matrix, axis=-2)[j]`: the efficiency of truth bin `j`. */
  function ColumnSum(m: Matrix, j: nat): real
    requires forall i :: 0 <= i < |m| ==> j < |m[i]|
  {
    Sum(Column(m, j))
  }

  /** The efficiencies of truth bin `j` across all toys. */
  function Efficiencies(resp: Response, j: nat): (e: seq<real>)
    requires resp.Valid() && j < resp.nTruth
    ensures |e| == |resp.mats|
    ensures forall b :: 0 <= b < |e| ==> e[b] == ColumnSum(resp.mats[b], j)
  {
    seq(|resp.mats|, b requires 0 <= b < |resp.mats| => ColumnSum(resp.mats[b], j))
  }

  /**
    The efficiency mask of `_reduce_response_matrix`: a truth bin is kept when
    its efficiency exceeds `threshold` in at least one toy. For stacked
    matrices numpy takes the maximum over the toy axes, which fails when there
    are no toys.
   */
  function EfficiencyMask(resp: Response, threshold: real): (r: Result<seq<bool>>)
    requires resp.Valid()
    ensures r.Failure? <==> resp.Stacked() && |resp.mats| == 0
    ensures r.Failure? ==> r.error == ValueError(EmptyReduction)
    ensures r.Success? ==> |r.value| == resp.nTruth
    ensures r.Success? ==> forall j :: 0 <= j < resp.nTruth ==>
      (r.value[j] <==> exists b :: 0 <= b < |resp.mats| && ColumnSum(resp.mats[b], j) > threshold)
  {
    if resp.Stacked() && |resp.mats| == 0 then Failure(ValueError(EmptyReduction))
    else
      assert |resp.mats| > 0 by {
        if !resp.Stacked() { assert |resp.mats| == Prod([]) == 1; }
      }
      var mask := seq(resp.nTruth, j requires 0 <= j < resp.nTruth => MaxOf(Efficiencies(resp, j)) > threshold);
      assert forall j :: 0 <= j < resp.nTruth ==>
        (mask[j] <==> exists b :: 0 <= b < |resp.mats| && ColumnSum(resp.mats[b], j) > threshold) by {
        forall j | 0 <= j < resp.nTruth
          ensures mask[j] <==> exists b :: 0 <= b < |resp.mats| && ColumnSum(resp.mats[b], j) > threshold
        {
          var e := Efficiencies(resp, j);
          if mask[j] {
            var b :| 0 <= b < |e| && e[b] == MaxOf(e);
            assert ColumnSum(resp.mats[b], j) > threshold;
          }
        }
      }
      Success(mask)
  }

  /** `matrix[..., eff]`: the kept columns of every row. */
  function ReduceMatrix(m: Matrix, eff: seq<bool>): (r: Matrix)
    requires forall i :: 0 <= i < |m| ==> |m[i]| == |eff|
    ensures IsMatrix(r, |m|, CountTrue(eff))
  {
    seq(|m|, i requires 0 <= i < |m| => Select(m[i], eff))
  }

  /** The reduced response matrix: every toy loses the same columns; the batch shape is kept. */
  function ReduceResponse(resp: Response, eff: seq<bool>): (r: Response)
    requires resp.Valid() && |eff| == resp.nTruth
    ensures r.Valid()
    ensures r.batchShape == resp.batchShape && r.nReco == resp.nReco && r.nTruth == CountTrue(eff)
    ensures forall b, i :: 0 <= b < |r.mats| && 0 <= i < r.nReco ==> r.mats[b][i] == Select(resp.mats[b][i], eff)
  {
    Response(resp.batchShape,
      seq(|resp.mats|, b requires 0 <= b < |resp.mats| => ReduceMatrix(resp.mats[b], eff)),
      resp.nReco, CountTrue(eff))
  }

  /** Entry `k` of a reduced row is entry `Kept(eff)[k]` of the full row: kept columns stay in order. */
  lemma ReducedColumns(resp: Response, eff: seq<bool>, b: nat, i: nat, k: nat)
    requires resp.Valid() && |eff| == resp.nTruth
    requires b < |resp.mats| && i < resp.nReco && k < CountTrue(eff)
    ensures Kept(eff)[k] < resp.nTruth
    ensures ReduceResponse(resp, eff).mats[b][i][k] == resp.mats[b][i][Kept(eff)[k]]
  {
    SelectKept(resp.mats[b][i], eff);
  }

  /** Dropping positions where the row is zero does not change a dot product. */
  lemma {:induction false} DotSelect(a: seq<real>, t: seq<real>, mask: seq<bool>)
    requires |a| == |t| == |mask|
    requires forall j :: 0 <= j < |a| && !mask[j] ==> a[j] == 0.0
    ensures Dot(Select(a, mask), Select(t, mask)) == Dot(a, t)
  {
    if |a| > 0 {
      DotSelect(a[1..], t[1..], mask[1..]);
      if mask[0] {
        assert Select(a, mask) == [a[0]] + Select(a[1..], mask[1..]);
        assert Select(t, mask) == [t[0]] + Select(t[1..], mask[1..]);
      }
    }
  }

  /** A sum of non-negative terms that is not positive has only zero terms. */
  lemma {:induction false} SumZeroTerms(s: seq<real>)
    requires forall i :: 0 <= i < |s| ==> s[i] >= 0.0
    requires Sum(s) <= 0.0
    ensures forall i :: 0 <= i < |s| ==> s[i] == 0.0
  {
    if |s| > 0 {
      SumNonNegative(s[1..]);
      SumZeroTerms(s[1..]);
      assert forall i :: 1 <= i < |s| ==> s[i] == s[1..][i - 1];
    }
  }

  /** Every response entry is non-negative. */
  predicate NonNegative(resp: Response)
    requires resp.Valid()
  {
    forall b, i, j :: 0 <= b < |resp.mats| && 0 <= i < resp.nReco && 0 <= j < resp.nTruth ==> resp.mats[b][i][j] >= 0.0
  }

  /**
    The reduction is lossless: with a threshold of at most zero and
    non-negative entries, `reduced_R . t[eff] == R . t` row by row, for every toy.
   */
  lemma ReductionLossless(resp: Response, threshold: real, t: seq<real>, b: nat, i: nat)
    requires resp.Valid() && NonNegative(resp) && threshold <= 0.0
    requires EfficiencyMask(resp, threshold).Success?
    requires |t| == resp.nTruth && b < |resp.mats| && i < resp.nReco
    ensures Dot(ReduceResponse(resp, EfficiencyMask(resp, threshold).value).mats[b][i],
                Select(t, EfficiencyMask(resp, threshold).value))
         == Dot(resp.mats[b][i], t)
  {
    var eff := EfficiencyMask(resp, threshold).value;
    var row := resp.mats[b][i];
    forall j | 0 <= j < |row| && !eff[j]
      ensures row[j] == 0.0
    {
      var c := Column(resp.mats[b], j);
      assert ColumnSum(resp.mats[b], j) <= threshold;
      SumZeroTerms(c);
      assert c[i] == row[j];
    }
    DotSelect(row, t, eff);
  }

  /** `_reduce_truth_vector`: every truth vector of the batch keeps its efficient entries. */
  function ReduceTruth(truth: Batch, eff: seq<bool>): (r: Batch)
    requires truth.Valid() && truth.n == |eff|
    ensures r.Valid()
    ensures r.shape == truth.shape && r.n == CountTrue(eff)
    ensures forall c :: 0 <= c < |r.vectors| ==> r.vectors[c] == Select(truth.vectors[c], eff)
  {
    Batch(truth.shape,
      seq(|truth.vectors|, c requires 0 <= c < |truth.vectors| => Select(truth.vectors[c], eff)),
      CountTrue(eff))
  }

  /**
    `eye(len(eff))[:, eff].dot(x)`: a reduced vector placed back at the
    efficient positions, with zeros elsewhere.
   */
  function Embed(x: seq<real>, mask: seq<bool>): (r: seq<real>)
    requires |x| == CountTrue(mask)
    ensures |r| == |mask|
    ensures forall j :: 0 <= j < |mask| && !mask[j] ==> r[j] == 0.0
  {
    if |mask| == 0 then []
    else if mask[0] then [x[0]] + Embed(x[1..], mask[1..])
    else [0.0] + Embed(x, mask[1..])
  }

  /** Reducing an embedded vector gives it back. */
  lemma {:induction false} ReduceEmbed(x: seq<real>, mask: seq<bool>)
    requires |x| == CountTrue(mask)
    ensures Select(Embed(x, mask), mask) == x
  {
    if |mask| > 0 {
      if mask[0] {
        ReduceEmbed(x[1..], mask[1..]);
        assert Embed(x, mask)[1..] == Embed(x[1..], mask[1..]);
      } else {
        ReduceEmbed(x, mask[1..]);
        assert Embed(x, mask)[1..] == Embed(x, mask[1..]);
      }
    }
  }

  /** Embedding a reduced vector restores it when it was zero outside the mask. */
  lemma {:induction false} EmbedReduce(t: seq<real>, mask: seq<bool>)
    requires |t| == |mask|
    requires forall j :: 0 <= j < |t| && !mask[j] ==> t[j] == 0.0
    ensures Embed(Select(t, mask), mask) == t
  {
    if |mask| > 0 {
      EmbedReduce(t[1..], mask[1..]);
      if mask[0] {
        assert Select(t, mask)[1..] == Select(t[1..], mask[1..]);
      }
      assert t == [t[0]] + t[1..];
    }
  }

  /** Row `i` of the identity matrix of size `n`. */
  function UnitRow(n: nat, i: nat): (e: seq<real>)
    ensures |e| == n
  {
    seq(n, k requires 0 <= k < n => if k == i then 1.0 else 0.0)
  }

  /** `Embed` is the product with the kept columns of the identity matrix. */
  lemma {:induction false} EmbedIsIdentityColumns(x: seq<real>, mask: seq<bool>, i: nat)
    requires |x| == CountTrue(mask) && i < |mask|
    ensures Embed(x, mask)[i] == Dot(Select(UnitRow(|mask|, i), mask), x)
  {
    var e := UnitRow(|mask|, i);
    if i == 0 {
      assert e[1..] == UnitRow(|mask| - 1, |mask|);
      ZeroRowDot(Select(e[1..], mask[1..]), if mask[0] then x[1..] else x, e[1..], mask[1..]);
      if mask[0] {
        assert Select(e, mask) == [1.0] + Select(e[1..], mask[1..]);
      }
    } else {
      assert e[1..] == UnitRow(|mask| - 1, i - 1);
      if mask[0] {
        EmbedIsIdentityColumns(x[1..], mask[1..], i - 1);
        assert Select(e, mask) == [0.0] + Select(e[1..], mask[1..]);
      } else {
        EmbedIsIdentityColumns(x, mask[1..], i - 1);
      }
    }
  }

  /** A selection from a zero row dots to zero with anything. */
  lemma {:induction false} ZeroRowDot(s: seq<real>, x: seq<real>, row: seq<real>, mask: seq<bool>)
    requires |row| == |mask| && s == Select(row, mask) && |x| == |s|
    requires forall k :: 0 <= k < |row| ==> row[k] == 0.0
    ensures Dot(s, x) == 0.0
  {
    if |row| > 0 {
      if mask[0] {
        ZeroRowDot(s[1..], x[1..], row[1..], mask[1..]);
      } else {
        ZeroRowDot(s, x, row[1..], mask[1..]);
      }
    }
  }
}
