/**
  `LikelihoodMachine.log_probability` of likelihood.py and its helpers: every
  data vector is paired with every response matrix and every truth vector, the
  expected reco values are `R . t`, and the Poisson log-probabilities of the
  data bins are summed, with any non-finite sum replaced by `-inf`.
 */
module Broadcast {
  import opened Wrappers
  import opened Arrays
  import opened XReals
  import opened Reduction

  // ------------------------------------------------------- vector arrays

  /** `_create_vector_array(v, shape, append=True)` on the flat storage: `n` copies of `v` one after the other. */
  function Tile<T>(v: seq<T>, n: nat): (r: seq<T>)
    ensures |r| == n * |v|
  {
    FlattenLength(seq(n, c requires 0 <= c < n => v), |v|);
    Flatten(seq(n, c requires 0 <= c < n => v))
  }

  /** `_create_vector_array(v, shape, append=False)`: `np.repeat(v, n)`, each entry `n` times in a row. */
  function Repeat<T>(v: seq<T>, n: nat): (r: seq<T>)
    ensures |r| == |v| * n
  {
    FlattenLength(seq(|v|, i requires 0 <= i < |v| => seq(n, c requires 0 <= c < n => v[i])), n);
    Flatten(seq(|v|, i requires 0 <= i < |v| => seq(n, c requires 0 <= c < n => v[i])))
  }

  /** Appended copies: position `(c, i)` of shape `shape + v.shape` holds `v[i]`. */
  lemma TileAt<T>(v: seq<T>, n: nat, c: nat, i: nat)
    requires c < n && i < |v|
    ensures c * |v| + i < |Tile(v, n)| && Tile(v, n)[c * |v| + i] == v[i]
  {
    FlattenAt(seq(n, k requires 0 <= k < n => v), |v|, c, i);
  }

  /** Prepended copies: position `(i, c)` of shape `v.shape + shape` holds `v[i]`. */
  lemma RepeatAt<T>(v: seq<T>, n: nat, i: nat, c: nat)
    requires c < n && i < |v|
    ensures i * n + c < |Repeat(v, n)| && Repeat(v, n)[i * n + c] == v[i]
  {
    FlattenAt(seq(|v|, k requires 0 <= k < |v| => seq(n, l requires 0 <= l < n => v[k])), n, i, c);
  }

  /** The two modes lay out the same copies, transposed. */
  lemma TileRepeatTranspose<T>(v: seq<T>, n: nat, c: nat, i: nat)
    requires c < n && i < |v|
    ensures c * |v| + i < |Tile(v, n)| && i * n + c < |Repeat(v, n)|
    ensures Tile(v, n)[c * |v| + i] == Repeat(v, n)[i * n + c]
  {
    TileAt(v, n, c, i);
    RepeatAt(v, n, i, c);
  }

  /** Boolean indexing with a tiled mask reduces every block by the mask. */
  lemma {:induction false} SelectTiled<T>(vs: seq<seq<T>>, mask: seq<bool>, reduced: seq<seq<T>>)
    requires forall c :: 0 <= c < |vs| ==> |vs[c]| == |mask|
    requires |reduced| == |vs| && forall c :: 0 <= c < |vs| ==> reduced[c] == Select(vs[c], mask)
    ensures |Flatten(vs)| == |Tile(mask, |vs|)|
    ensures Select(Flatten(vs), Tile(mask, |vs|)) == Flatten(reduced)
  {
    FlattenLength(vs, |mask|);
    if |vs| > 0 {
      SelectTiled(vs[1..], mask, reduced[1..]);
      var copies := seq(|vs|, c requires 0 <= c < |vs| => mask);
      assert copies[1..] == seq(|vs| - 1, c requires 0 <= c < |vs| - 1 => mask);
      assert Tile(mask, |vs|) == mask + Tile(mask, |vs| - 1);
      FlattenLength(vs[1..], |mask|);
      SelectAppend(vs[0], Flatten(vs[1..]), mask, Tile(mask, |vs| - 1));
    }
  }

  /**
    `_reduce_truth_vector` indexes the truth array with the efficiency mask
    tiled over the batch, `_create_vector_array(eff, shape[:-1])`; on the flat
    storage this is exactly the vector-by-vector reduction `ReduceTruth`.
   */
  lemma ReduceTruthByMask(truth: Batch, eff: seq<bool>)
    requires truth.Valid() && truth.n == |eff|
    ensures |Flatten(truth.vectors)| == |Tile(eff, |truth.vectors|)|
    ensures Select(Flatten(truth.vectors), Tile(eff, |truth.vectors|)) == Flatten(ReduceTruth(truth, eff).vectors)
  {
    SelectTiled(truth.vectors, eff, ReduceTruth(truth, eff).vectors);
  }

  // ------------------------------------------------------- reco expectation

  /** `R . t`: the expected reco values for truth vector `t`. */
  function Fold(m: Matrix, t: seq<real>): (reco: seq<real>)
    requires forall k :: 0 <= k < |m| ==> |m[k]| == |t|
    ensures |reco| == |m|
    ensures forall k :: 0 <= k < |m| ==> reco[k] == Dot(m[k], t)
  {
    seq(|m|, k requires 0 <= k < |m| => Dot(m[k], t))
  }

  /** `poisson.logpmf(k, mu)`: a parameter of the model, not computed here. */
  type LogPmf = (real, real) -> XReal

  /** The per-bin Poisson log-probabilities of one data vector given one reco expectation. */
  function Terms(logpmf: LogPmf, d: seq<real>, reco: seq<real>): (s: seq<XReal>)
    requires |d| == |reco|
    ensures |s| == |d| && forall k :: 0 <= k < |d| ==> s[k] == logpmf(d[k], reco[k])
  {
    seq(|d|, k requires 0 <= k < |d| => logpmf(d[k], reco[k]))
  }

  /** One entry of `log_probability`: the sanitised sum over the data bins. */
  function Cell(logpmf: LogPmf, d: seq<real>, m: Matrix, t: seq<real>): (lp: LogL)
    requires IsMatrix(m, |d|, |t|)
  {
    Sanitize(XReals.Sum(Terms(logpmf, d, Fold(m, t))))
  }

  /**
    A cell is finite exactly when every bin's log-probability is, and is then
    their sum; any `-inf`, `inf` or NaN among the terms gives `-inf`.
   */
  lemma CellFinite(logpmf: LogPmf, d: seq<real>, m: Matrix, t: seq<real>)
    requires IsMatrix(m, |d|, |t|)
    ensures Cell(logpmf, d, m, t).Fin? <==> forall k :: 0 <= k < |d| ==> logpmf(d[k], Dot(m[k], t)).Fin?
    ensures !Cell(logpmf, d, m, t).Fin? ==> Cell(logpmf, d, m, t) == NegInf
    ensures (forall k :: 0 <= k < |d| ==> logpmf(d[k], Dot(m[k], t)).Fin?) ==>
      Cell(logpmf, d, m, t) == Fin(FinSum(Terms(logpmf, d, Fold(m, t))))
  {
    SumFinite(Terms(logpmf, d, Fold(m, t)));
  }

  /**
    A data bin with events where the expectation is zero makes the whole cell
    `-inf`, given the Poisson property that such an outcome is impossible.
   */
  lemma ImpossibleBin(logpmf: LogPmf, d: seq<real>, m: Matrix, t: seq<real>, k: nat)
    requires IsMatrix(m, |d|, |t|)
    requires forall x :: x > 0.0 ==> !logpmf(x, 0.0).Fin?
    requires k < |d| && d[k] > 0.0 && Dot(m[k], t) == 0.0
    ensures Cell(logpmf, d, m, t) == NegInf
  {
    CellFinite(logpmf, d, m, t);
  }

  /** The cells indexed `[a][b][c]` by data vector, response matrix and truth vector. */
  function LogProbCube(logpmf: LogPmf, data: Batch, resp: Response, truth: Batch): (cube: seq<seq<seq<LogL>>>)
    requires data.Valid() && resp.Valid() && truth.Valid()
    requires data.n == resp.nReco && truth.n == resp.nTruth
    ensures |cube| == |data.vectors|
    ensures forall a :: 0 <= a < |cube| ==> |cube[a]| == |resp.mats|
    ensures forall a, b :: 0 <= a < |cube| && 0 <= b < |resp.mats| ==> |cube[a][b]| == |truth.vectors|
    ensures forall a, b, c :: 0 <= a < |cube| && 0 <= b < |resp.mats| && 0 <= c < |truth.vectors| ==>
      cube[a][b][c] == Cell(logpmf, data.vectors[a], resp.mats[b], truth.vectors[c])
  {
    seq(|data.vectors|, a requires 0 <= a < |data.vectors| =>
      seq(|resp.mats|, b requires 0 <= b < |resp.mats| =>
        seq(|truth.vectors|, c requires 0 <= c < |truth.vectors| =>
          Cell(logpmf, data.vectors[a], resp.mats[b], truth.vectors[c]))))
  }

  /** Row-major storage of a `[p][q]` grid. */
  function Flatten2<T>(grid: seq<seq<T>>, q: nat): (flat: seq<T>)
    requires forall p :: 0 <= p < |grid| ==> |grid[p]| == q
    ensures |flat| == |grid| * q
  {
    FlattenLength(grid, q);
    Flatten(grid)
  }

  /** Row-major storage of a `[a][b][c]` cube. */
  function Flatten3<T>(cube: seq<seq<seq<T>>>, nb: nat, nc: nat): (flat: seq<T>)
    requires forall a :: 0 <= a < |cube| ==> |cube[a]| == nb
    requires forall a, b :: 0 <= a < |cube| && 0 <= b < nb ==> |cube[a][b]| == nc
    ensures |flat| == |cube| * (nb * nc)
  {
    var rows := seq(|cube|, a requires 0 <= a < |cube| => Flatten2(cube[a], nc));
    Flatten2(rows, nb * nc)
  }

  /** Row-major position of entry `[a][b][c]` of a cube with `nb` rows of `nc` entries per layer. */
  function Offset3(a: nat, b: nat, c: nat, nb: nat, nc: nat): nat {
    (a * nb + b) * nc + c
  }

  lemma Flatten3At<T>(cube: seq<seq<seq<T>>>, nb: nat, nc: nat, a: nat, b: nat, c: nat)
    requires forall a :: 0 <= a < |cube| ==> |cube[a]| == nb
    requires forall a, b :: 0 <= a < |cube| && 0 <= b < nb ==> |cube[a][b]| == nc
    requires a < |cube| && b < nb && c < nc
    ensures Offset3(a, b, c, nb, nc) < |Flatten3(cube, nb, nc)|
    ensures Flatten3(cube, nb, nc)[Offset3(a, b, c, nb, nc)] == cube[a][b][c]
  {
    var rows := seq(|cube|, a requires 0 <= a < |cube| => Flatten2(cube[a], nc));
    var inner := b * nc + c;
    FlattenAt(cube[a], nc, b, c);
    assert rows[a][inner] == cube[a][b][c];
    FlattenAt(rows, nb * nc, a, inner);
    CubeIndex(a, b, c, nb, nc);
  }

  lemma CubeIndex(a: nat, b: nat, c: nat, nb: nat, nc: nat)
    ensures a * (nb * nc) + (b * nc + c) == (a * nb + b) * nc + c
  {
    MulAssoc(a, nb, nc);
    assert (a * nb + b) * nc == (a * nb) * nc + b * nc;
  }

  /**
    `log_probability(data_vector, response_matrix, truth_vector)`: an array of
    shape data-batch + response-batch + truth-batch.
   */
  function LogProbability(logpmf: LogPmf, data: Batch, resp: Response, truth: Batch): (lp: NdArray<LogL>)
    requires data.Valid() && resp.Valid() && truth.Valid()
    requires data.n == resp.nReco && truth.n == resp.nTruth
    ensures lp.shape == data.shape + resp.batchShape + truth.shape
    ensures lp.Valid()
  {
    var cube := LogProbCube(logpmf, data, resp, truth);
    ProdAppend(data.shape, resp.batchShape);
    ProdAppend(data.shape + resp.batchShape, truth.shape);
    MulAssoc(|data.vectors|, |resp.mats|, |truth.vectors|);
    NdArray(data.shape + resp.batchShape + truth.shape, Flatten3(cube, |resp.mats|, |truth.vectors|))
  }

  /**
    Entry `(a, b, c)` of the result depends only on data vector `a`, response
    matrix `b` and truth vector `c`, with `reco = R_b . t_c`.
   */
  lemma LogProbabilityAt(logpmf: LogPmf, data: Batch, resp: Response, truth: Batch, a: nat, b: nat, c: nat)
    requires data.Valid() && resp.Valid() && truth.Valid()
    requires data.n == resp.nReco && truth.n == resp.nTruth
    requires a < |data.vectors| && b < |resp.mats| && c < |truth.vectors|
    ensures Offset3(a, b, c, |resp.mats|, |truth.vectors|) < |LogProbability(logpmf, data, resp, truth).flat|
    ensures LogProbability(logpmf, data, resp, truth).flat[Offset3(a, b, c, |resp.mats|, |truth.vectors|)]
      == Cell(logpmf, data.vectors[a], resp.mats[b], truth.vectors[c])
  {
    Flatten3At(LogProbCube(logpmf, data, resp, truth), |resp.mats|, |truth.vectors|, a, b, c);
  }

  // ------------------------------------------------------- einsum subscripts

  /** The response-side prefix `_translate` picks for an array with `axResp` axes. */
  function ResponsePrefix(axResp: nat): string
    requires axResp >= 2
  {
    if axResp == 2 then "" else if axResp == 3 then "d" else if axResp == 4 then "ad" else "a...d"
  }

  /** The truth-side prefix for a truth array with `axTruth` axes. */
  function TruthPrefix(axTruth: nat): string
    requires axTruth >= 1
  {
    if axTruth == 1 then "" else if axTruth == 2 then "f" else if axTruth == 3 then "ef" else "e...f"
  }

  /** The output subscripts of the einsum call: response prefix, truth prefix, reco axis. */
  function EinsumOutput(axResp: nat, axTruth: nat): string
    requires axResp >= 2 && axTruth >= 1
  {
    ResponsePrefix(axResp) + TruthPrefix(axTruth) + "k"
  }

  function Periods(s: string): nat {
    Count(s, (ch: char) => ch == '.')
  }

  /** numpy's einsum allows at most one ellipsis (three periods) in the output subscripts. */
  predicate EinsumAccepts(output: string) {
    Periods(output) <= 3
  }

  /**
    `_translate` as written: the einsum raises ValueError whenever both the
    (extended) response array and the truth array carry an ellipsis.
   */
  function TranslateAsWritten(axResp: nat, axTruth: nat): (r: Result<string>)
    requires axResp >= 2 && axTruth >= 1
  {
    var out := EinsumOutput(axResp, axTruth);
    if EinsumAccepts(out) then Success(out) else Failure(ValueError(EinsumEllipsis))
  }

  lemma PeriodsAppend(x: string, y: string)
    ensures Periods(x + y) == Periods(x) + Periods(y)
  {
    CountAppend(x, y, (ch: char) => ch == '.');
  }

  lemma PrefixPeriods(axResp: nat, axTruth: nat)
    requires axResp >= 2 && axTruth >= 1
    ensures Periods(ResponsePrefix(axResp)) == (if axResp > 4 then 3 else 0)
    ensures Periods(TruthPrefix(axTruth)) == (if axTruth > 3 then 3 else 0)
  {
    assert Periods("a...d") == 3 by {
      assert "a...d" == ['a'] + ['.'] + ['.'] + ['.'] + ['d'];
    }
    assert Periods("e...f") == 3 by {
      assert "e...f" == ['e'] + ['.'] + ['.'] + ['.'] + ['f'];
    }
    assert Periods("ad") == 0 by { assert "ad"[1..] == "d"; }
    assert Periods("ef") == 0 by { assert "ef"[1..] == "f"; }
  }

  /**
    The written subscripts fail exactly when the extended response array has
    more than four axes and the truth array more than three.
   */
  lemma TranslateAsWrittenFails(axResp: nat, axTruth: nat)
    requires axResp >= 2 && axTruth >= 1
    ensures TranslateAsWritten(axResp, axTruth).Failure? <==> axResp > 4 && axTruth > 3
  {
    PrefixPeriods(axResp, axTruth);
    PeriodsAppend(ResponsePrefix(axResp), TruthPrefix(axTruth));
    PeriodsAppend(ResponsePrefix(axResp) + TruthPrefix(axTruth), "k");
    assert Periods("k") == 0 by { assert "k"[1..] == ""; }
  }

  /**
    A valid call that the written einsum rejects: one data vector in a batch of
    one, a 1x1 stack of response matrices (extended to five axes) and a 1x1x1
    stack of truth vectors (four axes); the model's `LogProbability` is
    defined on the same arguments.
   */
  lemma EinsumCounterexample(logpmf: LogPmf, d: seq<real>, m: Matrix, t: seq<real>)
    requires IsMatrix(m, |d|, |t|)
    ensures TranslateAsWritten(|[1]| + |[1, 1]| + 2, |[1, 1, 1]| + 1).Failure?
    ensures LogProbability(logpmf, Batch([1], [d], |d|), Response([1, 1], [m], |d|, |t|), Batch([1, 1, 1], [t], |t|)).shape
      == [1, 1, 1, 1, 1, 1]
  {
    TranslateAsWrittenFails(5, 4);
    assert Prod([1]) == 1 by { assert [1][1..] == []; }
    ProdPair(1, 1);
    assert Prod([1, 1, 1]) == 1 by { assert [1, 1, 1][1..] == [1, 1]; }
  }
}
