/**
  `LikelihoodMachine` of likelihood.py: data, one or more response matrices
  and truth limits, with the likelihood of truth vectors computed on the
  efficiency-reduced problem, and the counting behind the likelihood p-value.
 */
module Machine {
  import opened Wrappers
  import opened XReals
  import opened Arrays
  import opened Reduction
  import opened Broadcast
  import opened Systematics

  datatype LikelihoodMachine = LikelihoodMachine(
    data: Batch,
    response: Response,
    limits: seq<XReal>,
    limitMethod: string,
    threshold: real,
    eff: seq<bool>,
    reduced: Response)

  /** The invariant the constructor establishes. */
  predicate Valid(m: LikelihoodMachine) {
    && m.data.Valid() && m.response.Valid() && m.data.n == m.response.nReco
    && |m.limits| == m.response.nTruth
    && EfficiencyMask(m.response, m.threshold) == Success(m.eff)
    && m.reduced == ReduceResponse(m.response, m.eff)
  }

  /**
    `LikelihoodMachine(data_vector, response_matrix, truth_limits=None,
    limit_method='raise', eff_threshold=0.)`: missing limits are infinite; the
    only failure is the efficiency maximum over an empty stack of matrices.
   */
  function NewMachine(data: Batch, response: Response, truthLimits: Option<seq<XReal>>, limitMethod: string, threshold: real): (r: Result<LikelihoodMachine>)
    requires data.Valid() && response.Valid() && data.n == response.nReco
    requires truthLimits.Some? ==> |truthLimits.value| == response.nTruth
    ensures r.Success? <==> !(response.Stacked() && |response.mats| == 0)
    ensures r.Failure? ==> r.error == ValueError(EmptyReduction)
    ensures r.Success? ==> Valid(r.value)
    ensures r.Success? ==> r.value.data == data && r.value.response == response && r.value.limitMethod == limitMethod
    ensures r.Success? && truthLimits.None? ==> forall j :: 0 <= j < |r.value.limits| ==> r.value.limits[j] == PosInf
    ensures r.Success? && truthLimits.Some? ==> r.value.limits == truthLimits.value
  {
    var limits := if truthLimits.Some? then truthLimits.value else seq(response.nTruth, j => PosInf);
    match EfficiencyMask(response, threshold)
    case Failure(e) => Failure(e)
    case Success(eff) =>
      Success(LikelihoodMachine(data, response, limits, limitMethod, threshold, eff, ReduceResponse(response, eff)))
  }

  // ---------------------------------------------------------------- reduced path

  /** What the reduced computation needs: consistent data and reduced matrices, at least one matrix. */
  predicate Ready(data: Batch, reduced: Response) {
    data.Valid() && reduced.Valid() && data.n == reduced.nReco && |reduced.mats| > 0
  }

  lemma ValidReady(m: LikelihoodMachine)
    requires Valid(m)
    ensures Ready(m.data, m.reduced)
    ensures m.reduced.nTruth == CountTrue(m.eff) && |m.eff| == m.response.nTruth
    ensures m.reduced.batchShape == m.response.batchShape && |m.reduced.mats| == |m.response.mats|
  {
    assert |m.response.mats| > 0 by {
      if !m.response.Stacked() { assert m.response.batchShape == []; }
    }
  }

  /** Systematic toy axes are collapsed when a mode is given and the matrices are stacked. */
  predicate Collapses(reduced: Response, mode: Mode) {
    !mode.NoSystematics? && reduced.Stacked()
  }

  /** The truth-batch axes left in a result: all of them, less those a tuple's extra entries index. */
  function TruthAxesLeft(reduced: Response, truth: Batch, mode: Mode): seq<nat> {
    if Collapses(reduced, mode) then Remaining(truth.shape, |reduced.batchShape|, mode) else truth.shape
  }

  /** How many truth entries a result keeps per data vector. */
  function Width(reduced: Response, truth: Batch, mode: Mode): nat {
    Prod(TruthAxesLeft(reduced, truth, mode))
  }

  /**
    The log-probability cube with its toy axes collapsed by `mode`: one row per
    data vector, one column per truth entry left.
   */
  function CollapsedGrid(data: Batch, reduced: Response, logpmf: LogPmf, lme: LogMeanExp, truth: Batch, mode: Mode): (r: Result<seq<seq<LogL>>>)
    requires Ready(data, reduced) && truth.Valid() && truth.n == reduced.nTruth
    requires mode.Pick? ==> |mode.index| >= |reduced.batchShape|
    ensures r.Success? ==> IsGrid(r.value, |data.vectors|, Prod(Remaining(truth.shape, |reduced.batchShape|, mode)))
  {
    Collapse(LogProbCube(logpmf, data, reduced, truth), |data.vectors|, truth.shape, reduced.batchShape, mode, lme)
  }

  /**
    `_reduced_log_likelihood(reduced_truth_vector, systematics)`: the
    log-probabilities of the data under the reduced matrices, with the toy
    axes collapsed when there are any and a mode is given.
   */
  function ReducedLogLikelihood(data: Batch, reduced: Response, logpmf: LogPmf, lme: LogMeanExp, truth: Batch, mode: Mode): (r: Result<NdArray<LogL>>)
    requires Ready(data, reduced) && truth.Valid() && truth.n == reduced.nTruth
    requires mode.Pick? ==> |mode.index| >= |reduced.batchShape|
    ensures !Collapses(reduced, mode) ==> r == Success(LogProbability(logpmf, data, reduced, truth))
    ensures Collapses(reduced, mode) && r.Success? ==>
      r.value.shape == data.shape + TruthAxesLeft(reduced, truth, mode) && r.value.Valid()
    ensures Collapses(reduced, mode) ==> (r.Success? <==> CollapsedGrid(data, reduced, logpmf, lme, truth, mode).Success?)
  {
    if !Collapses(reduced, mode) then Success(LogProbability(logpmf, data, reduced, truth))
    else
      match CollapsedGrid(data, reduced, logpmf, lme, truth, mode)
      case Failure(e) => Failure(e)
      case Success(grid) =>
        var left := Remaining(truth.shape, |reduced.batchShape|, mode);
        ProdAppend(data.shape, left);
        Success(NdArray(data.shape + left, Flatten2(grid, Prod(left))))
  }

  /** A collapsed result stores the collapsed grid row by row: one row per data vector, `Width` entries in each. */
  lemma CollapsedFlat(data: Batch, reduced: Response, logpmf: LogPmf, lme: LogMeanExp, truth: Batch, mode: Mode)
    requires Ready(data, reduced) && truth.Valid() && truth.n == reduced.nTruth
    requires mode.Pick? ==> |mode.index| >= |reduced.batchShape|
    requires Collapses(reduced, mode) && ReducedLogLikelihood(data, reduced, logpmf, lme, truth, mode).Success?
    ensures var g := CollapsedGrid(data, reduced, logpmf, lme, truth, mode);
      && g.Success? && IsGrid(g.value, |data.vectors|, Width(reduced, truth, mode))
      && ReducedLogLikelihood(data, reduced, logpmf, lme, truth, mode).value.flat == Flatten(g.value)
  {
  }

  /**
    Entry `[a][j]` of `grid` is what a tuple index picks: the cell of data
    vector `a`, the matrix its leading entries name, and truth vector `j` of
    the block its further entries name, all of those entries in range.
   */
  predicate PickedCell(logpmf: LogPmf, data: Batch, reduced: Response, truth: Batch, index: seq<int>, grid: seq<seq<LogL>>, a: nat, j: nat)
    requires Ready(data, reduced) && truth.Valid() && truth.n == reduced.nTruth
    requires |index| >= |reduced.batchShape| && a < |data.vectors|
  {
    var k := |reduced.batchShape|;
    && ResolveIndex(index[..k], reduced.batchShape).Some?
    && |index| - k <= |truth.shape|
    && ResolveIndex(index[k..], truth.shape[..|index| - k]).Some?
    && var s, q := ToyOf(reduced.batchShape, index), Block(truth.shape, index[k..]) + j;
      && s < |reduced.mats| && q < |truth.vectors| && a < |grid| && j < |grid[a]|
      && grid[a][j] == Cell(logpmf, data.vectors[a], reduced.mats[s], truth.vectors[q])
  }

  /** A tuple that collapses successfully picks, at every entry, the cell `PickedCell` names. */
  lemma PickedAt(data: Batch, reduced: Response, logpmf: LogPmf, lme: LogMeanExp, truth: Batch, index: seq<int>, a: nat, j: nat)
    requires Ready(data, reduced) && truth.Valid() && truth.n == reduced.nTruth
    requires reduced.Stacked() && |index| >= |reduced.batchShape|
    requires CollapsedGrid(data, reduced, logpmf, lme, truth, Pick(index)).Success?
    requires a < |data.vectors| && j < Width(reduced, truth, Pick(index))
    ensures PickedCell(logpmf, data, reduced, truth, index, CollapsedGrid(data, reduced, logpmf, lme, truth, Pick(index)).value, a, j)
  {
    var cube := LogProbCube(logpmf, data, reduced, truth);
    var np, k := |data.vectors|, |reduced.batchShape|;
    assert CollapsedGrid(data, reduced, logpmf, lme, truth, Pick(index)) == PickTuple(cube, np, truth.shape, reduced.batchShape, index);
    assert Width(reduced, truth, Pick(index)) == Prod(truth.shape[|index| - k..]);
    PickTupleCell(cube, data, reduced, logpmf, truth, index, a, j);
  }

  /** `PickedCell` on a tuple's pick from any cube whose row `a` holds the cells of data vector `a`. */
  lemma PickTupleCell(cube: seq<seq<seq<LogL>>>, data: Batch, reduced: Response, logpmf: LogPmf, truth: Batch, index: seq<int>, a: nat, j: nat)
    requires Ready(data, reduced) && truth.Valid() && truth.n == reduced.nTruth && |index| >= |reduced.batchShape|
    requires IsCube(cube, |data.vectors|, |reduced.mats|, |truth.vectors|) && a < |data.vectors|
    requires forall b, c :: 0 <= b < |reduced.mats| && 0 <= c < |truth.vectors| ==>
      cube[a][b][c] == Cell(logpmf, data.vectors[a], reduced.mats[b], truth.vectors[c])
    requires PickTuple(cube, |data.vectors|, truth.shape, reduced.batchShape, index).Success?
    requires j < Prod(truth.shape[|index| - |reduced.batchShape|..])
    ensures PickedCell(logpmf, data, reduced, truth, index, PickTuple(cube, |data.vectors|, truth.shape, reduced.batchShape, index).value, a, j)
  {
    PickTupleAt(cube, |data.vectors|, truth.shape, reduced.batchShape, index, a, j);
  }

  /** `v` is the cell of data vector `d` and truth vector `t` under one of the matrices. */
  predicate Attained(logpmf: LogPmf, d: seq<real>, reduced: Response, t: seq<real>, v: LogL)
    requires reduced.Valid() && |d| == reduced.nReco && |t| == reduced.nTruth
  {
    exists b :: 0 <= b < |reduced.mats| && Cell(logpmf, d, reduced.mats[b], t) == v
  }

  /** `v` is the best cell of `d` and `t` over the matrices: at least each of them, and equal to one. */
  predicate Best(logpmf: LogPmf, d: seq<real>, reduced: Response, t: seq<real>, v: LogL)
    requires reduced.Valid() && |d| == reduced.nReco && |t| == reduced.nTruth
  {
    && (forall b :: 0 <= b < |reduced.mats| ==> Le(Cell(logpmf, d, reduced.mats[b], t), v))
    && Attained(logpmf, d, reduced, t, v)
  }

  /**
    In the profile mode, entry `[a][c]` of the collapsed grid is the best cell
    of data vector `a` and truth vector `c` over the matrices.
   */
  lemma ProfileAt(data: Batch, reduced: Response, logpmf: LogPmf, lme: LogMeanExp, truth: Batch, name: string, a: nat, c: nat)
    requires Ready(data, reduced) && truth.Valid() && truth.n == reduced.nTruth
    requires reduced.Stacked() && (name == "profile" || name == "maximum")
    requires a < |data.vectors| && c < |truth.vectors|
    ensures var g := CollapsedGrid(data, reduced, logpmf, lme, truth, Named(name));
      && g.Success? && a < |g.value| && c < |g.value[a]|
      && Best(logpmf, data.vectors[a], reduced, truth.vectors[c], g.value[a][c])
  {
    var cube := LogProbCube(logpmf, data, reduced, truth);
    assert CollapsedGrid(data, reduced, logpmf, lme, truth, Named(name)) == Profile(cube, |data.vectors|, |reduced.mats|, |truth.vectors|);
    ProfileCell(cube, data, reduced, logpmf, truth, a, c);
  }

  /** `ProfileAt` on any cube whose row `a` holds the cells of data vector `a`. */
  lemma ProfileCell(cube: seq<seq<seq<LogL>>>, data: Batch, reduced: Response, logpmf: LogPmf, truth: Batch, a: nat, c: nat)
    requires Ready(data, reduced) && truth.Valid() && truth.n == reduced.nTruth
    requires IsCube(cube, |data.vectors|, |reduced.mats|, |truth.vectors|)
    requires a < |data.vectors| && c < |truth.vectors|
    requires forall b :: 0 <= b < |reduced.mats| ==>
      cube[a][b][c] == Cell(logpmf, data.vectors[a], reduced.mats[b], truth.vectors[c])
    ensures var pr := Profile(cube, |data.vectors|, |reduced.mats|, |truth.vectors|);
      pr.Success? && Best(logpmf, data.vectors[a], reduced, truth.vectors[c], pr.value[a][c])
  {
    var ns := |reduced.mats|;
    var v := Profile(cube, |data.vectors|, ns, |truth.vectors|).value[a][c];
    forall b | 0 <= b < ns
      ensures Le(Cell(logpmf, data.vectors[a], reduced.mats[b], truth.vectors[c]), v)
    {
      assert cube[a][b][c] == Cell(logpmf, data.vectors[a], reduced.mats[b], truth.vectors[c]);
    }
    var b0 :| 0 <= b0 < ns && cube[a][b0][c] == v;
    assert Cell(logpmf, data.vectors[a], reduced.mats[b0], truth.vectors[c]) == v;
  }

  // ---------------------------------------------------------------- truth limits

  /** `truth_value > truth_limit`; false for a NaN limit. */
  predicate Exceeds(limit: XReal, x: real) {
    Lt(limit, Fin(x))
  }

  /** The first bin from `from` on whose truth value exceeds its limit. */
  function FirstInVector(t: seq<real>, limits: seq<XReal>, from: nat): (r: Option<nat>)
    requires |t| == |limits| && from <= |t|
    ensures r.Some? ==> from <= r.value < |t| && Exceeds(limits[r.value], t[r.value])
    ensures r.Some? ==> forall k :: from <= k < r.value ==> !Exceeds(limits[k], t[k])
    ensures r.None? <==> forall k :: from <= k < |t| ==> !Exceeds(limits[k], t[k])
    decreases |t| - from
  {
    if from == |t| then None
    else if Exceeds(limits[from], t[from]) then Some(from)
    else FirstInVector(t, limits, from + 1)
  }

  /**
    `np.argwhere(truth_vector > truth_limits)[0]`: the first offending
    `(vector, bin)` pair in C order, searching the vectors from `from` on.
   */
  function FirstViolation(vectors: seq<seq<real>>, limits: seq<XReal>, from: nat): (r: Option<(nat, nat)>)
    requires forall c :: 0 <= c < |vectors| ==> |vectors[c]| == |limits|
    requires from <= |vectors|
    ensures r.Some? ==> from <= r.value.0 < |vectors| && FirstInVector(vectors[r.value.0], limits, 0) == Some(r.value.1)
    ensures r.Some? ==> forall c :: from <= c < r.value.0 ==> FirstInVector(vectors[c], limits, 0).None?
    ensures r.None? <==> forall c :: from <= c < |vectors| ==> FirstInVector(vectors[c], limits, 0).None?
    decreases |vectors| - from
  {
    if from == |vectors| then None
    else
      match FirstInVector(vectors[from], limits, 0)
      case Some(j) => Some((from, j))
      case None => FirstViolation(vectors, limits, from + 1)
  }

  /** No truth value of the batch exceeds its limit. */
  predicate WithinLimits(m: LikelihoodMachine, truth: Batch)
    requires Valid(m) && truth.Valid() && truth.n == m.response.nTruth
  {
    forall c, j :: 0 <= c < |truth.vectors| && 0 <= j < truth.n ==> !Exceeds(m.limits[j], truth.vectors[c][j])
  }

  lemma FirstViolationNone(m: LikelihoodMachine, truth: Batch)
    requires Valid(m) && truth.Valid() && truth.n == m.response.nTruth
    ensures FirstViolation(truth.vectors, m.limits, 0).None? <==> WithinLimits(m, truth)
  {
    if FirstViolation(truth.vectors, m.limits, 0).None? {
      forall c, j | 0 <= c < |truth.vectors| && 0 <= j < truth.n
        ensures !Exceeds(m.limits[j], truth.vectors[c][j])
      {
        assert FirstInVector(truth.vectors[c], m.limits, 0).None?;
      }
    } else {
      var (c, j) := FirstViolation(truth.vectors, m.limits, 0).value;
      assert Exceeds(m.limits[j], truth.vectors[c][j]);
    }
  }

  /** The scalar `-inf` returned under the 'prohibit' policy, an array of shape `()`. */
  const Minus: LogL := NegInf
  const Prohibited: NdArray<LogL> := NdArray([], [Minus])

  /**
    `log_likelihood(truth_vector, systematics)`: the limit policy first, on the
    full truth vectors; then the likelihood of the reduced truth vectors.
    'raise' reports the truth bin of the first offending value, 'prohibit'
    returns a scalar `-inf`, any other policy raises ValueError.
   */
  function LogLikelihood(m: LikelihoodMachine, logpmf: LogPmf, lme: LogMeanExp, truth: Batch, mode: Mode): (r: Result<NdArray<LogL>>)
    requires Valid(m) && truth.Valid() && truth.n == m.response.nTruth
    requires mode.Pick? ==> |mode.index| >= |m.reduced.batchShape|
    ensures WithinLimits(m, truth) ==> r == ReducedLogLikelihood(m.data, m.reduced, logpmf, lme, ReduceTruth(truth, m.eff), mode)
    ensures !WithinLimits(m, truth) && m.limitMethod == "raise" ==>
      r.Failure? && r.error.RuntimeError?
      && exists c :: 0 <= c < |truth.vectors| && FirstInVector(truth.vectors[c], m.limits, 0) == Some(r.error.truthBin)
           && forall c' :: 0 <= c' < c ==> FirstInVector(truth.vectors[c'], m.limits, 0).None?
    ensures !WithinLimits(m, truth) && m.limitMethod == "prohibit" ==> r == Success(Prohibited)
    ensures !WithinLimits(m, truth) && m.limitMethod != "raise" && m.limitMethod != "prohibit" ==>
      r == Failure(ValueError(UnknownLimitMethod))
  {
    ValidReady(m);
    FirstViolationNone(m, truth);
    match FirstViolation(truth.vectors, m.limits, 0)
    case Some((c, j)) =>
      if m.limitMethod == "raise" then Failure(RuntimeError(j))
      else if m.limitMethod == "prohibit" then Success(Prohibited)
      else Failure(ValueError(UnknownLimitMethod))
    case None => ReducedLogLikelihood(m.data, m.reduced, logpmf, lme, ReduceTruth(truth, m.eff), mode)
  }


  // ---------------------------------------------------------------- losslessness

  /** Two cubes with the same extents and the same entries are equal. */
  lemma CubeExtensionality<T>(x: seq<seq<seq<T>>>, y: seq<seq<seq<T>>>, nb: nat, nc: nat)
    requires |x| == |y|
    requires forall a :: 0 <= a < |x| ==> |x[a]| == |y[a]| == nb
    requires forall a, b :: 0 <= a < |x| && 0 <= b < nb ==> |x[a][b]| == |y[a][b]| == nc
    requires forall a, b, c :: 0 <= a < |x| && 0 <= b < nb && 0 <= c < nc ==> x[a][b][c] == y[a][b][c]
    ensures x == y
  {
    forall a | 0 <= a < |x|
      ensures x[a] == y[a]
    {
      forall b | 0 <= b < nb
        ensures x[a][b] == y[a][b]
      {
      }
    }
  }

  /** A cell of the reduced problem equals the cell of the full problem, under the lossless conditions. */
  lemma CellLossless(m: LikelihoodMachine, logpmf: LogPmf, t: seq<real>, a: nat, b: nat)
    requires Valid(m) && NonNegative(m.response) && m.threshold <= 0.0
    requires |t| == m.response.nTruth && a < |m.data.vectors| && b < |m.response.mats|
    ensures Cell(logpmf, m.data.vectors[a], m.reduced.mats[b], Select(t, m.eff))
         == Cell(logpmf, m.data.vectors[a], m.response.mats[b], t)
  {
    var full := Fold(m.response.mats[b], t);
    var red := Fold(m.reduced.mats[b], Select(t, m.eff));
    forall k | 0 <= k < m.response.nReco
      ensures red[k] == full[k]
    {
      ReductionLossless(m.response, m.threshold, t, b, k);
    }
    assert red == full;
  }

  /**
    With a threshold of at most zero and non-negative response entries, the
    reduced computation gives exactly the log-probabilities of the full
    problem: dropping the inefficient truth bins loses nothing.
   */
  lemma LogLikelihoodLossless(m: LikelihoodMachine, logpmf: LogPmf, lme: LogMeanExp, truth: Batch)
    requires Valid(m) && NonNegative(m.response) && m.threshold <= 0.0
    requires truth.Valid() && truth.n == m.response.nTruth && WithinLimits(m, truth)
    ensures LogLikelihood(m, logpmf, lme, truth, NoSystematics) == Success(LogProbability(logpmf, m.data, m.response, truth))
  {
    ValidReady(m);
    var rt := ReduceTruth(truth, m.eff);
    var x := LogProbCube(logpmf, m.data, m.reduced, rt);
    var y := LogProbCube(logpmf, m.data, m.response, truth);
    forall a, b, c | 0 <= a < |x| && 0 <= b < |m.response.mats| && 0 <= c < |truth.vectors|
      ensures x[a][b][c] == y[a][b][c]
    {
      CellLossless(m, logpmf, truth.vectors[c], a, b);
    }
    CubeExtensionality(x, y, |m.response.mats|, |truth.vectors|);
  }

  // ---------------------------------------------------------------- p-value

  /**
    Number of fake data sets `likelihood_p_value` draws: `N` for each matrix
    of `resp`, which is the whole stack when no generator index is given, the
    sub-stack a generator index shorter than the toy rank leaves, and a single
    matrix otherwise.
   */
  function SampleCount(reduced: Response, n: nat, generator: Option<seq<int>>): (k: nat)
    ensures !reduced.Stacked() || (generator.Some? && |generator.value| >= |reduced.batchShape|) ==> k == n
    ensures reduced.Stacked() && generator.None? ==> k == n * |reduced.mats|
    ensures reduced.Stacked() && generator.Some? && |generator.value| < |reduced.batchShape| ==>
      k == n * Prod(reduced.batchShape[|generator.value|..])
  {
    if !reduced.Stacked() then n
    else if generator.None? then n * |reduced.mats|
    else if |generator.value| < |reduced.batchShape| then n * Prod(reduced.batchShape[|generator.value|..])
    else n
  }

  /**
    The sub-stacks a generator index of length `g` can select split the stack:
    `N` sets for each of them add up to the `N` sets per matrix drawn without one.
   */
  lemma SubStacksSplitSamples(reduced: Response, n: nat, generator: seq<int>)
    requires reduced.Valid() && reduced.Stacked() && |generator| <= |reduced.batchShape|
    ensures SampleCount(reduced, n, Some(generator)) * Prod(reduced.batchShape[..|generator|])
         == SampleCount(reduced, n, None)
  {
    var shape, g := reduced.batchShape, |generator|;
    assert shape[..g] + shape[g..] == shape;
    ProdAppend(shape[..g], shape[g..]);
    if g == |shape| {
      assert shape[g..] == [];
      assert shape[..g] == shape;
    }
    MulAssoc(n, Prod(shape[g..]), Prod(shape[..g]));
  }

  /** A single vector as a batch of shape `()`. */
  function Single(v: seq<real>): (b: Batch)
    ensures b.Valid() && b.shape == [] && b.vectors == [v] && b.n == |v|
  {
    Batch([], [v], |v|)
  }

  /** A one-dimensional batch of vectors of length `n`. */
  function Vectors(vs: seq<seq<real>>, n: nat): (b: Batch)
    requires forall i :: 0 <= i < |vs| ==> |vs[i]| == n
    ensures b.Valid() && b.shape == [|vs|] && b.vectors == vs && b.n == n
  {
    assert Prod([|vs|]) == |vs| by { assert [|vs|][1..] == []; }
    Batch([|vs|], vs, n)
  }

  /**
    `reduced[generator_matrix_index]` succeeds: only stacked matrices are
    indexed, and every entry of the tuple is in range for the axis it indexes,
    the toy axes first and then the reco and truth axes.
   */
  predicate GeneratorValid(reduced: Response, generator: Option<seq<int>>) {
    !reduced.Stacked() || generator.None? ||
      (var axes := reduced.batchShape + [reduced.nReco, reduced.nTruth];
       |generator.value| <= |axes| && ResolveIndex(generator.value, axes[..|generator.value|]).Some?)
  }

  /**
    The two quantities `likelihood_p_value` compares, for the data vector `d`
    and the reduced truth vector `t`: the log-likelihoods of the fake data
    sets `fake` (drawn by the sampler, which is not modelled) and the
    log-likelihood `p0` of the actual data. Errors arise in the source's
    order: `p0`, the generator index, then the collapse of the fake data,
    which is where stacked matrices without a mode fail.
   */
  function PValueInputs(d: seq<real>, reduced: Response, logpmf: LogPmf, lme: LogMeanExp, t: seq<real>, generator: Option<seq<int>>,
                        mode: Mode, fake: seq<seq<real>>): (r: Result<(seq<LogL>, LogL)>)
    requires Ready(Single(d), reduced) && |t| == reduced.nTruth
    requires forall i :: 0 <= i < |fake| ==> |fake[i]| == reduced.nReco
    requires mode.Pick? ==> |mode.index| >= |reduced.batchShape|
    ensures P0(d, reduced, logpmf, lme, t, mode).Failure? ==> r == Failure(P0(d, reduced, logpmf, lme, t, mode).error)
    ensures P0(d, reduced, logpmf, lme, t, mode).Success? && !GeneratorValid(reduced, generator) ==> r == Failure(IndexError)
    ensures P0(d, reduced, logpmf, lme, t, mode).Success? && GeneratorValid(reduced, generator) ==>
      (r.Success? <==> FakeLikelihoods(reduced, logpmf, lme, t, mode, fake).Success?)
    ensures reduced.Stacked() && mode.NoSystematics? ==>
      r == Failure(if GeneratorValid(reduced, generator) then ValueError(UnknownSystematics) else IndexError)
    ensures r.Success? ==> |r.value.0| == |fake|
    ensures r.Success? && !reduced.Stacked() ==> forall i :: 0 <= i < |fake| ==>
      r.value.0[i] == Cell(logpmf, fake[i], reduced.mats[0], t)
    ensures r.Success? && !reduced.Stacked() ==> r.value.1 == Cell(logpmf, d, reduced.mats[0], t)
  {
    var p0 :- P0(d, reduced, logpmf, lme, t, mode);
    if !GeneratorValid(reduced, generator) then Failure(IndexError)
    else
      var prob :- FakeLikelihoods(reduced, logpmf, lme, t, mode, fake);
      assert |p0.flat| == 1 by {
        if !reduced.Stacked() { assert p0.shape == []; }
      }
      Success((prob, p0.flat[0]))
  }

  /**
    In the profile mode every fake data set's likelihood, and `p0`, is the
    best cell over the matrices: at least each and equal to one.
   */
  lemma PValueInputsProfile(d: seq<real>, reduced: Response, logpmf: LogPmf, lme: LogMeanExp, t: seq<real>, generator: Option<seq<int>>,
                            name: string, fake: seq<seq<real>>)
    requires Ready(Single(d), reduced) && |t| == reduced.nTruth
    requires forall i :: 0 <= i < |fake| ==> |fake[i]| == reduced.nReco
    requires name == "profile" || name == "maximum"
    requires PValueInputs(d, reduced, logpmf, lme, t, generator, Named(name), fake).Success?
    ensures var r := PValueInputs(d, reduced, logpmf, lme, t, generator, Named(name), fake).value;
      && (forall i :: 0 <= i < |fake| ==> Best(logpmf, fake[i], reduced, t, r.0[i]))
      && Best(logpmf, d, reduced, t, r.1)
  {
    var r := PValueInputs(d, reduced, logpmf, lme, t, generator, Named(name), fake).value;
    if reduced.Stacked() {
      P0Profile(d, reduced, logpmf, lme, t, name);
      FakeLikelihoodsProfile(reduced, logpmf, lme, t, name, fake);
    } else {
      assert |reduced.mats| == 1 by { assert reduced.batchShape == []; }
      forall i | 0 <= i < |fake|
        ensures Best(logpmf, fake[i], reduced, t, r.0[i])
      {
        SingleBest(logpmf, fake[i], reduced, t, r.0[i]);
      }
      SingleBest(logpmf, d, reduced, t, r.1);
    }
  }

  /** With a single matrix its cell is the best one. */
  lemma SingleBest(logpmf: LogPmf, d: seq<real>, reduced: Response, t: seq<real>, v: LogL)
    requires reduced.Valid() && |reduced.mats| == 1 && |d| == reduced.nReco && |t| == reduced.nTruth
    requires v == Cell(logpmf, d, reduced.mats[0], t)
    ensures Best(logpmf, d, reduced, t, v)
  {
    assert Cell(logpmf, d, reduced.mats[0], t) == v;
  }

  /**
    A tuple that names exactly the toy axes compares the data and every fake
    data set under the one matrix it picks.
   */
  lemma PValueInputsPicked(d: seq<real>, reduced: Response, logpmf: LogPmf, lme: LogMeanExp, t: seq<real>, generator: Option<seq<int>>,
                           index: seq<int>, fake: seq<seq<real>>)
    requires Ready(Single(d), reduced) && |t| == reduced.nTruth && reduced.Stacked()
    requires forall i :: 0 <= i < |fake| ==> |fake[i]| == reduced.nReco
    requires |index| >= |reduced.batchShape|
    ensures PValueInputs(d, reduced, logpmf, lme, t, generator, Pick(index), fake).Success? <==>
      |index| == |reduced.batchShape| && ResolveIndex(index, reduced.batchShape).Some? && GeneratorValid(reduced, generator)
    ensures PValueInputs(d, reduced, logpmf, lme, t, generator, Pick(index), fake).Success? ==>
      && PValueInputs(d, reduced, logpmf, lme, t, generator, Pick(index), fake).value.1
         == Cell(logpmf, d, reduced.mats[ToyOf(reduced.batchShape, index)], t)
      && forall i :: 0 <= i < |fake| ==>
           PValueInputs(d, reduced, logpmf, lme, t, generator, Pick(index), fake).value.0[i]
           == Cell(logpmf, fake[i], reduced.mats[ToyOf(reduced.batchShape, index)], t)
  {
    P0Picked(d, reduced, logpmf, lme, t, index);
    FakeLikelihoodsPicked(reduced, logpmf, lme, t, index, fake);
  }

  /**
    `p0`, the likelihood of the actual data: `_reduced_log_likelihood` of the
    data vector `d` and the reduced truth vector `t`. Once the toy axes are
    collapsed it is a scalar; without a mode they stay, one cell per matrix.
   */
  function P0(d: seq<real>, reduced: Response, logpmf: LogPmf, lme: LogMeanExp, t: seq<real>, mode: Mode): (r: Result<NdArray<LogL>>)
    requires Ready(Single(d), reduced) && |t| == reduced.nTruth
    requires mode.Pick? ==> |mode.index| >= |reduced.batchShape|
    ensures !Collapses(reduced, mode) ==>
      && r.Success? && r.value.shape == reduced.batchShape && |r.value.flat| == |reduced.mats|
      && forall b :: 0 <= b < |reduced.mats| ==> r.value.flat[b] == Cell(logpmf, d, reduced.mats[b], t)
    ensures Collapses(reduced, mode) && r.Success? ==> r.value.shape == [] && |r.value.flat| == 1
  {
    var ll := ReducedLogLikelihood(Single(d), reduced, logpmf, lme, Single(t), mode);
    if !Collapses(reduced, mode) then
      P0Uncollapsed(d, reduced, logpmf, lme, t, mode);
      ll
    else
      assert Remaining([], |reduced.batchShape|, mode) == [];
      assert TruthAxesLeft(reduced, Single(t), mode) == [];
      ll
  }

  /** Without a collapse, `p0` keeps the data's cell for every matrix. */
  lemma P0Uncollapsed(d: seq<real>, reduced: Response, logpmf: LogPmf, lme: LogMeanExp, t: seq<real>, mode: Mode)
    requires Ready(Single(d), reduced) && |t| == reduced.nTruth && !Collapses(reduced, mode)
    requires mode.Pick? ==> |mode.index| >= |reduced.batchShape|
    ensures ReducedLogLikelihood(Single(d), reduced, logpmf, lme, Single(t), mode).Success?
    ensures ReducedLogLikelihood(Single(d), reduced, logpmf, lme, Single(t), mode).value.shape == reduced.batchShape
    ensures |ReducedLogLikelihood(Single(d), reduced, logpmf, lme, Single(t), mode).value.flat| == |reduced.mats|
    ensures forall b :: 0 <= b < |reduced.mats| ==>
      ReducedLogLikelihood(Single(d), reduced, logpmf, lme, Single(t), mode).value.flat[b] == Cell(logpmf, d, reduced.mats[b], t)
  {
    var lp := LogProbability(logpmf, Single(d), reduced, Single(t));
    assert [] + reduced.batchShape + [] == reduced.batchShape;
    forall b | 0 <= b < |reduced.mats|
      ensures lp.flat[b] == Cell(logpmf, d, reduced.mats[b], t)
    {
      LogProbabilityAt(logpmf, Single(d), reduced, Single(t), 0, b, 0);
      assert Offset3(0, b, 0, |reduced.mats|, 1) == b;
    }
  }

  /** A tuple that names exactly the toy axes makes `p0` the data's cell for the picked matrix; any other tuple fails. */
  lemma P0Picked(d: seq<real>, reduced: Response, logpmf: LogPmf, lme: LogMeanExp, t: seq<real>, index: seq<int>)
    requires Ready(Single(d), reduced) && |t| == reduced.nTruth && reduced.Stacked()
    requires |index| >= |reduced.batchShape|
    ensures P0(d, reduced, logpmf, lme, t, Pick(index)).Success?
      <==> |index| == |reduced.batchShape| && ResolveIndex(index, reduced.batchShape).Some?
    ensures P0(d, reduced, logpmf, lme, t, Pick(index)).Success? ==>
      P0(d, reduced, logpmf, lme, t, Pick(index)).value.flat[0] == Cell(logpmf, d, reduced.mats[ToyOf(reduced.batchShape, index)], t)
  {
    var rank := |reduced.batchShape|;
    assert index[rank..] == [] <==> |index| == rank;
    assert |index| == rank ==> index[..rank] == index;
    var ll := ReducedLogLikelihood(Single(d), reduced, logpmf, lme, Single(t), Pick(index));
    assert P0(d, reduced, logpmf, lme, t, Pick(index)) == ll;
    if ll.Success? {
      assert Remaining([], rank, Pick(index)) == [];
      CollapsedFlat(Single(d), reduced, logpmf, lme, Single(t), Pick(index));
      PickedAt(Single(d), reduced, logpmf, lme, Single(t), index, 0, 0);
      var grid := CollapsedGrid(Single(d), reduced, logpmf, lme, Single(t), Pick(index)).value;
      FlattenAt(grid, 1, 0, 0);
      assert Block([], index[rank..]) == 0;
    }
  }

  /** In the profile mode `p0` is the best cell over the matrices: at least each and equal to one. */
  lemma P0Profile(d: seq<real>, reduced: Response, logpmf: LogPmf, lme: LogMeanExp, t: seq<real>, name: string)
    requires Ready(Single(d), reduced) && |t| == reduced.nTruth && reduced.Stacked()
    requires name == "profile" || name == "maximum"
    ensures P0(d, reduced, logpmf, lme, t, Named(name)).Success?
    ensures Best(logpmf, d, reduced, t, P0(d, reduced, logpmf, lme, t, Named(name)).value.flat[0])
  {
    assert Remaining([], |reduced.batchShape|, Named(name)) == [];
    ProfileAt(Single(d), reduced, logpmf, lme, Single(t), name, 0, 0);
    CollapsedFlat(Single(d), reduced, logpmf, lme, Single(t), Named(name));
    FlattenAt(CollapsedGrid(Single(d), reduced, logpmf, lme, Single(t), Named(name)).value, 1, 0, 0);
  }

  /**
    The log-likelihoods of the fake data sets, one per set, with the toy axes
    collapsed (`prob.ndim > 1` exactly when the matrices are stacked).
   */
  function FakeLikelihoods(reduced: Response, logpmf: LogPmf, lme: LogMeanExp, t: seq<real>, mode: Mode, fake: seq<seq<real>>): (r: Result<seq<LogL>>)
    requires reduced.Valid() && |reduced.mats| > 0 && |t| == reduced.nTruth
    requires forall i :: 0 <= i < |fake| ==> |fake[i]| == reduced.nReco
    requires mode.Pick? ==> |mode.index| >= |reduced.batchShape|
    ensures r.Success? ==> |r.value| == |fake|
    ensures r.Success? && !reduced.Stacked() ==> forall i :: 0 <= i < |fake| ==>
      r.value[i] == Cell(logpmf, fake[i], reduced.mats[0], t)
    ensures reduced.Stacked() && mode.NoSystematics? ==> r == Failure(ValueError(UnknownSystematics))
  {
    if !reduced.Stacked() then Success(FakeSingle(reduced, logpmf, t, fake))
    else FakeCollapsed(reduced, logpmf, lme, t, mode, fake)
  }

  /** With a single matrix, each fake data set's one cell. */
  function FakeSingle(reduced: Response, logpmf: LogPmf, t: seq<real>, fake: seq<seq<real>>): (r: seq<LogL>)
    requires reduced.Valid() && !reduced.Stacked() && |t| == reduced.nTruth
    requires forall i :: 0 <= i < |fake| ==> |fake[i]| == reduced.nReco
    ensures |r| == |fake| && |reduced.mats| == 1
    ensures forall i :: 0 <= i < |fake| ==> r[i] == Cell(logpmf, fake[i], reduced.mats[0], t)
  {
    var cube := LogProbCube(logpmf, Vectors(fake, reduced.nReco), reduced, Single(t));
    assert |reduced.mats| == 1 by { assert reduced.batchShape == []; }
    Column0(Column0(cube))
  }

  /** With stacked matrices, each fake data set's cells collapsed over the toys. */
  function FakeCollapsed(reduced: Response, logpmf: LogPmf, lme: LogMeanExp, t: seq<real>, mode: Mode, fake: seq<seq<real>>): (r: Result<seq<LogL>>)
    requires reduced.Valid() && reduced.Stacked() && |t| == reduced.nTruth
    requires forall i :: 0 <= i < |fake| ==> |fake[i]| == reduced.nReco
    requires mode.Pick? ==> |mode.index| >= |reduced.batchShape|
    ensures r.Success? ==> |r.value| == |fake|
    ensures mode.NoSystematics? ==> r == Failure(ValueError(UnknownSystematics))
  {
    CollapseColumn(LogProbCube(logpmf, Vectors(fake, reduced.nReco), reduced, Single(t)), |fake|, reduced.batchShape, mode, lme)
  }

  /** A cube with one truth entry, collapsed over the toys: one value per data vector. */
  function CollapseColumn(cube: seq<seq<seq<LogL>>>, np: nat, shape: seq<nat>, mode: Mode, lme: LogMeanExp): (r: Result<seq<LogL>>)
    requires IsCube(cube, np, Prod(shape), 1)
    requires mode.Pick? ==> |mode.index| >= |shape|
    ensures r.Success? ==> |r.value| == np
    ensures mode.NoSystematics? ==> r == Failure(ValueError(UnknownSystematics))
  {
    assert Prod([]) == 1;
    assert Remaining([], |shape|, mode) == [];
    var grid :- Collapse(cube, np, [], shape, mode, lme);
    Success(Column0(grid))
  }

  /** In the profile mode every fake data set gets its best cell over the matrices. */
  lemma FakeLikelihoodsProfile(reduced: Response, logpmf: LogPmf, lme: LogMeanExp, t: seq<real>, name: string, fake: seq<seq<real>>)
    requires reduced.Valid() && |reduced.mats| > 0 && |t| == reduced.nTruth && reduced.Stacked()
    requires forall i :: 0 <= i < |fake| ==> |fake[i]| == reduced.nReco
    requires name == "profile" || name == "maximum"
    ensures FakeLikelihoods(reduced, logpmf, lme, t, Named(name), fake).Success?
    ensures forall i :: 0 <= i < |fake| ==>
      Best(logpmf, fake[i], reduced, t, FakeLikelihoods(reduced, logpmf, lme, t, Named(name), fake).value[i])
  {
    var cube := LogProbCube(logpmf, Vectors(fake, reduced.nReco), reduced, Single(t));
    assert FakeLikelihoods(reduced, logpmf, lme, t, Named(name), fake)
        == CollapseColumn(cube, |fake|, reduced.batchShape, Named(name), lme);
    ColumnProfile(cube, reduced, logpmf, lme, t, name, fake);
  }

  /** `FakeLikelihoodsProfile` on any cube whose entries are the fake data sets' cells. */
  lemma ColumnProfile(cube: seq<seq<seq<LogL>>>, reduced: Response, logpmf: LogPmf, lme: LogMeanExp, t: seq<real>, name: string, fake: seq<seq<real>>)
    requires reduced.Valid() && reduced.Stacked() && |t| == reduced.nTruth
    requires forall i :: 0 <= i < |fake| ==> |fake[i]| == reduced.nReco
    requires IsCube(cube, |fake|, |reduced.mats|, 1) && |reduced.mats| > 0
    requires forall i, b :: 0 <= i < |fake| && 0 <= b < |reduced.mats| ==> cube[i][b][0] == Cell(logpmf, fake[i], reduced.mats[b], t)
    requires name == "profile" || name == "maximum"
    ensures CollapseColumn(cube, |fake|, reduced.batchShape, Named(name), lme).Success?
    ensures forall i :: 0 <= i < |fake| ==>
      Best(logpmf, fake[i], reduced, t, CollapseColumn(cube, |fake|, reduced.batchShape, Named(name), lme).value[i])
  {
    var np, ns := |fake|, |reduced.mats|;
    var data := Vectors(fake, reduced.nReco);
    var pr := Profile(cube, np, ns, 1);
    assert Collapse(cube, np, [], reduced.batchShape, Named(name), lme) == pr;
    var r := CollapseColumn(cube, np, reduced.batchShape, Named(name), lme).value;
    assert forall i :: 0 <= i < np ==> r[i] == pr.value[i][0];
    forall i | 0 <= i < np
      ensures Best(logpmf, fake[i], reduced, t, r[i])
    {
      ProfileCell(cube, data, reduced, logpmf, Single(t), i, 0);
    }
  }

  /**
    The fake data carry no truth-batch axes, so a tuple with entries beyond
    the toy axes fails on them; one that names exactly the toy axes gives
    every fake data set its cell under the picked matrix.
   */
  lemma FakeLikelihoodsPicked(reduced: Response, logpmf: LogPmf, lme: LogMeanExp, t: seq<real>, index: seq<int>, fake: seq<seq<real>>)
    requires reduced.Valid() && |reduced.mats| > 0 && |t| == reduced.nTruth && reduced.Stacked()
    requires forall i :: 0 <= i < |fake| ==> |fake[i]| == reduced.nReco
    requires |index| >= |reduced.batchShape|
    ensures FakeLikelihoods(reduced, logpmf, lme, t, Pick(index), fake).Success?
      <==> |index| == |reduced.batchShape| && ResolveIndex(index, reduced.batchShape).Some?
    ensures FakeLikelihoods(reduced, logpmf, lme, t, Pick(index), fake).Success? ==> forall i :: 0 <= i < |fake| ==>
      FakeLikelihoods(reduced, logpmf, lme, t, Pick(index), fake).value[i]
        == Cell(logpmf, fake[i], reduced.mats[ToyOf(reduced.batchShape, index)], t)
  {
    var rank := |reduced.batchShape|;
    var cube := LogProbCube(logpmf, Vectors(fake, reduced.nReco), reduced, Single(t));
    assert index[rank..] == [] <==> |index| == rank;
    assert |index| == rank ==> index[..rank] == index;
    assert Remaining([], rank, Pick(index)) == [];
    var pick := PickTuple(cube, |fake|, [], reduced.batchShape, index);
    assert Collapse(cube, |fake|, [], reduced.batchShape, Pick(index), lme) == pick;
    if pick.Success? {
      assert Block([], index[rank..]) == 0;
      forall i | 0 <= i < |fake|
        ensures pick.value[i][0] == Cell(logpmf, fake[i], reduced.mats[ToyOf(reduced.batchShape, index)], t)
      {
        PickTupleAt(cube, |fake|, [], reduced.batchShape, index, i, 0);
      }
    }
  }

  /** The number of fake data sets at most as likely as the actual data: `np.sum(prob <= p0)`. */
  function AsUnlikely(prob: seq<LogL>, p0: LogL): (n: nat)
    ensures n <= |prob|
  {
    Count(prob, (x: LogL) => Le(x, p0))
  }

  /** `float(n) / N` as written: the count is divided by the requested `N`. */
  function PValueAsWritten(prob: seq<LogL>, p0: LogL, n: nat): (r: Result<real>)
    ensures r.Failure? <==> n == 0
    ensures r.Failure? ==> r.error == ZeroDivisionError
    ensures r.Success? ==> r.value == AsUnlikely(prob, p0) as real / n as real
  {
    if n == 0 then Failure(ZeroDivisionError) else Success(AsUnlikely(prob, p0) as real / n as real)
  }

  /** The fraction of fake data sets at most as likely as the actual data: the count over the samples drawn. */
  function PValue(prob: seq<LogL>, p0: LogL): (r: Result<real>)
    ensures r.Failure? <==> |prob| == 0
    ensures r.Failure? ==> r.error == ZeroDivisionError
    ensures r.Success? ==> 0.0 <= r.value <= 1.0
    ensures r.Success? ==> r.value == AsUnlikely(prob, p0) as real / |prob| as real
  {
    if |prob| == 0 then Failure(ZeroDivisionError)
    else
      FractionBounds(AsUnlikely(prob, p0), |prob|);
      Success(AsUnlikely(prob, p0) as real / |prob| as real)
  }

  /** The data vector of a machine whose data is a single vector. */
  function DataVector(m: LikelihoodMachine): (d: seq<real>)
    requires Valid(m) && m.data.shape == []
    ensures Single(d) == m.data && Ready(Single(d), m.reduced)
  {
    ValidReady(m);
    assert |m.data.vectors| == 1;
    m.data.vectors[0]
  }

  /** `likelihood_p_value` as written, dividing the count by `N`. */
  function LikelihoodPValueAsWritten(m: LikelihoodMachine, logpmf: LogPmf, lme: LogMeanExp, truth: seq<real>, n: nat,
                                     generator: Option<seq<int>>, mode: Mode, fake: seq<seq<real>>): (r: Result<real>)
    requires Valid(m) && m.data.shape == [] && |truth| == m.response.nTruth
    requires forall i :: 0 <= i < |fake| ==> |fake[i]| == m.response.nReco
    requires mode.Pick? ==> |mode.index| >= |m.reduced.batchShape|
    ensures r.Success? ==> n > 0
    ensures r.Success? ==> Inputs(m, logpmf, lme, truth, generator, mode, fake).Success?
    ensures Inputs(m, logpmf, lme, truth, generator, mode, fake).Failure? ==> r == Failure(Inputs(m, logpmf, lme, truth, generator, mode, fake).error)
    ensures Inputs(m, logpmf, lme, truth, generator, mode, fake).Success? && n > 0 ==> r.Success?
    ensures Inputs(m, logpmf, lme, truth, generator, mode, fake).Success? && n == 0 ==> r == Failure(ZeroDivisionError)
    ensures r.Success? ==> r.value == AsUnlikely(Inputs(m, logpmf, lme, truth, generator, mode, fake).value.0,
                                                 Inputs(m, logpmf, lme, truth, generator, mode, fake).value.1) as real / n as real
  {
    var inputs := Inputs(m, logpmf, lme, truth, generator, mode, fake);
    if inputs.Failure? then Failure(inputs.error) else PValueAsWritten(inputs.value.0, inputs.value.1, n)
  }

  /** `PValueInputs` for the machine's data vector and the reduced truth vector. */
  function Inputs(m: LikelihoodMachine, logpmf: LogPmf, lme: LogMeanExp, truth: seq<real>, generator: Option<seq<int>>,
                  mode: Mode, fake: seq<seq<real>>): (r: Result<(seq<LogL>, LogL)>)
    requires Valid(m) && m.data.shape == [] && |truth| == m.response.nTruth
    requires forall i :: 0 <= i < |fake| ==> |fake[i]| == m.response.nReco
    requires mode.Pick? ==> |mode.index| >= |m.reduced.batchShape|
    ensures (ValidReady(m); r == PValueInputs(DataVector(m), m.reduced, logpmf, lme, Select(truth, m.eff), generator, mode, fake))
    ensures r.Success? ==> |r.value.0| == |fake|
    ensures r.Success? && IsProfile(mode) ==> forall i, b :: 0 <= i < |fake| && 0 <= b < |m.reduced.mats| ==>
      Le(Cell(logpmf, fake[i], m.reduced.mats[b], Select(truth, m.eff)), r.value.0[i])
  {
    ValidReady(m);
    var r := PValueInputs(DataVector(m), m.reduced, logpmf, lme, Select(truth, m.eff), generator, mode, fake);
    if IsProfile(mode) && r.Success? then
      PValueInputsProfile(DataVector(m), m.reduced, logpmf, lme, Select(truth, m.eff), generator, mode.name, fake);
      r
    else
      r
  }

  /**
    `likelihood_p_value(truth_vector, N, generator_matrix_index, systematics)`,
    dividing by the number of fake data sets drawn, `SampleCount`; the result
    is a probability for every input.
   */
  function LikelihoodPValue(m: LikelihoodMachine, logpmf: LogPmf, lme: LogMeanExp, truth: seq<real>, n: nat,
                            generator: Option<seq<int>>, mode: Mode, fake: seq<seq<real>>): (r: Result<real>)
    requires Valid(m) && m.data.shape == [] && |truth| == m.response.nTruth
    requires |fake| == SampleCount(m.reduced, n, generator)
    requires forall i :: 0 <= i < |fake| ==> |fake[i]| == m.response.nReco
    requires mode.Pick? ==> |mode.index| >= |m.reduced.batchShape|
    ensures r.Success? ==> 0.0 <= r.value <= 1.0
    ensures r.Success? ==> |fake| > 0
    ensures r.Success? ==> Inputs(m, logpmf, lme, truth, generator, mode, fake).Success?
    ensures Inputs(m, logpmf, lme, truth, generator, mode, fake).Failure? ==> r == Failure(Inputs(m, logpmf, lme, truth, generator, mode, fake).error)
    ensures Inputs(m, logpmf, lme, truth, generator, mode, fake).Success? && |fake| > 0 ==> r.Success?
    ensures Inputs(m, logpmf, lme, truth, generator, mode, fake).Success? && |fake| == 0 ==> r == Failure(ZeroDivisionError)
    ensures r.Success? ==> r.value == AsUnlikely(Inputs(m, logpmf, lme, truth, generator, mode, fake).value.0,
                                                 Inputs(m, logpmf, lme, truth, generator, mode, fake).value.1) as real / |fake| as real
  {
    var inputs := Inputs(m, logpmf, lme, truth, generator, mode, fake);
    if inputs.Failure? then Failure(inputs.error) else PValue(inputs.value.0, inputs.value.1)
  }

  /** With a single matrix, or a generator index naming every toy axis, exactly `N` samples are drawn and the two agree. */
  lemma PValueAgreesWithoutStack(m: LikelihoodMachine, logpmf: LogPmf, lme: LogMeanExp, truth: seq<real>, n: nat,
                                 generator: Option<seq<int>>, mode: Mode, fake: seq<seq<real>>)
    requires Valid(m) && m.data.shape == [] && |truth| == m.response.nTruth
    requires !m.reduced.Stacked() || (generator.Some? && |generator.value| >= |m.reduced.batchShape|)
    requires |fake| == SampleCount(m.reduced, n, generator)
    requires forall i :: 0 <= i < |fake| ==> |fake[i]| == m.response.nReco
    requires mode.Pick? ==> |mode.index| >= |m.reduced.batchShape|
    ensures LikelihoodPValue(m, logpmf, lme, truth, n, generator, mode, fake)
         == LikelihoodPValueAsWritten(m, logpmf, lme, truth, n, generator, mode, fake)
  {
  }

  /**
    A stack of two matrices and `N = 1` draws two fake data sets; when both are
    as unlikely as the data, the written p-value is 2 where the fraction is 1.
   */
  lemma PValueAsWrittenExceedsOne(reduced: Response, p0: LogL)
    requires reduced.Stacked() && |reduced.mats| == 2
    ensures SampleCount(reduced, 1, None) == 2
    ensures PValueAsWritten([p0, p0], p0, 1) == Success(2.0)
    ensures PValue([p0, p0], p0) == Success(1.0)
  {
    var p := (x: LogL) => Le(x, p0);
    assert Le(p0, p0);
    assert [p0, p0][1..] == [p0];
    assert [p0][1..] == [];
    assert Count([p0], p) == 1;
    assert Count([p0, p0], p) == 2;
  }

  /**
    A `(2, 3)` stack, the generator index `(0,)` and `N = 1` draw one fake data
    set for each of the three matrices of the selected sub-stack; when all are
    as unlikely as the data, the written p-value is 3 where the fraction is 1.
   */
  lemma PValueAsWrittenShortGenerator(reduced: Response, p0: LogL)
    requires reduced.batchShape == [2, 3]
    ensures SampleCount(reduced, 1, Some([0])) == 3
    ensures PValueAsWritten([p0, p0, p0], p0, 1) == Success(3.0)
    ensures PValue([p0, p0, p0], p0) == Success(1.0)
  {
    assert reduced.batchShape[1..] == [3];
    assert Prod([3]) == 3 by { assert [3][1..] == []; }
    var p := (x: LogL) => Le(x, p0);
    assert Le(p0, p0);
    assert [p0, p0, p0][1..] == [p0, p0];
    assert [p0, p0][1..] == [p0];
    assert [p0][1..] == [];
    assert Count([p0], p) == 1;
    assert Count([p0, p0], p) == 2;
    assert Count([p0, p0, p0], p) == 3;
  }
}
