/**
  `CompositeHypothesis` and the guards of `JeffreysPrior` in likelihood.py,
  and the hypotheses `LikelihoodMachine` derives from them: the wrapper that
  reduces translated truth vectors, and the super-hypothesis of
  `absolute_max_log_likelihood` whose parameters are the efficient truth bins.
 */
module Hypotheses {
  import opened Wrappers
  import opened XReals
  import opened Arrays
  import opened Reduction
  import opened Systematics
  import opened Optimizer

  /** A parameter prior: the log-density of one parameter value. */
  type Prior = real -> XReal

  /**
    A hypothesis: a translation from parameter vectors to truth vectors,
    with optional limits, priors and names.
   */
  datatype CompositeHypothesis = CompositeHypothesis(
    translate: seq<real> --> seq<real>,
    limits: Option<seq<Bound>>,
    priors: Option<seq<Prior>>,
    names: Option<seq<string>>)

  /** `CompositeHypothesis(...)`: at least one of the limits and the priors must be given. */
  function NewCompositeHypothesis(
    translate: seq<real> --> seq<real>,
    limits: Option<seq<Bound>>,
    priors: Option<seq<Prior>>,
    names: Option<seq<string>>): (r: Result<CompositeHypothesis>)
    ensures r.Failure? <==> limits.None? && priors.None?
    ensures r.Failure? ==> r.error == TypeError
    ensures r.Success? ==> r.value.limits == limits && r.value.priors == priors && r.value.names == names
    ensures r.Success? ==> forall x :: translate.requires(x) ==> r.value.translate.requires(x) && r.value.translate(x) == translate(x)
  {
    if limits.None? && priors.None? then Failure(TypeError)
    else Success(CompositeHypothesis(translate, limits, priors, names))
  }

  /** The hypotheses the constructor accepts. */
  predicate Constructible(h: CompositeHypothesis) {
    h.limits.Some? || h.priors.Some?
  }

  /**
    `_composite_hypothesis_wrapper`: the same hypothesis, translating to
    reduced truth vectors. It is rebuilt through the constructor, which
    cannot fail for a hypothesis the constructor made.
   */
  function Wrap(h: CompositeHypothesis, eff: seq<bool>): (r: Result<CompositeHypothesis>)
    ensures Constructible(h) <==> r.Success?
    ensures r.Success? ==> r.value.limits == h.limits && r.value.priors == h.priors && r.value.names == h.names
    ensures r.Success? ==> forall x :: h.translate.requires(x) && |h.translate(x)| == |eff| ==>
      r.value.translate.requires(x) && r.value.translate(x) == Select(h.translate(x), eff)
  {
    NewCompositeHypothesis(
      x requires h.translate.requires(x) && |h.translate(x)| == |eff| => Select(h.translate(x), eff),
      h.limits, h.priors, h.names)
  }

  /** The bound `(0, None)` of every efficient truth bin. */
  const NonNegativeBound := Bound(Some(0.0), None)

  /**
    The hypothesis of `absolute_max_log_likelihood`: one non-negative
    parameter per efficient truth bin, translated by `eye(n_truth)[:, eff]`.
   */
  function SuperHypothesis(eff: seq<bool>): (h: CompositeHypothesis)
    ensures Constructible(h)
    ensures h.limits.Some? && |h.limits.value| == CountTrue(eff)
    ensures forall x :: |x| == CountTrue(eff) ==> h.translate.requires(x) && h.translate(x) == Embed(x, eff)
  {
    CompositeHypothesis(
      x requires |x| == CountTrue(eff) => Embed(x, eff),
      Some(seq(CountTrue(eff), i => NonNegativeBound)), None, None)
  }

  /** Wrapping the super-hypothesis gives the identity on vectors of efficient truth values. */
  lemma SuperHypothesisWrapsToIdentity(eff: seq<bool>, x: seq<real>)
    requires |x| == CountTrue(eff)
    ensures Wrap(SuperHypothesis(eff), eff).Success?
    ensures Wrap(SuperHypothesis(eff), eff).value.translate.requires(x)
    ensures Wrap(SuperHypothesis(eff), eff).value.translate(x) == x
  {
    ReduceEmbed(x, eff);
  }

  /**
    The basin-hopping set-up for the super-hypothesis starts at zero with unit
    steps. Without any efficient truth bin the bounds list is empty and the
    set-up raises IndexError.
   */
  lemma SuperHypothesisPlan(eff: seq<bool>, mode: Mode)
    requires IsProfile(mode) || IsMarginal(mode)
    ensures Configure(mode, SuperHypothesis(eff).limits, "basinhopping").Success? <==> CountTrue(eff) > 0
    ensures CountTrue(eff) == 0 ==> Configure(mode, SuperHypothesis(eff).limits, "basinhopping") == Failure(IndexError)
    ensures CountTrue(eff) > 0 ==>
      && Configure(mode, SuperHypothesis(eff).limits, "basinhopping").value.x0 == seq(CountTrue(eff), i => 0.0)
      && Configure(mode, SuperHypothesis(eff).limits, "basinhopping").value.step == seq(CountTrue(eff), i => 1.0)
  {
    var n := CountTrue(eff);
    var bounds := SuperHypothesis(eff).limits.value;
    assert forall i :: 0 <= i < n ==> bounds[i] == NonNegativeBound;
    var c := Configure(mode, SuperHypothesis(eff).limits, "basinhopping");
    if n > 0 {
      assert c.value.x0 == seq(n, i => 0.0);
      assert c.value.step == seq(n, i => 1.0);
    }
  }

  /** A reflected step from the super-hypothesis never makes a truth value negative. */
  lemma SuperHypothesisStepNonNegative(x: real, x0: real, step: real, z: real)
    ensures Le(Fin(0.0), StepOne(x, x0, step, z, NonNegativeBound))
  {
    var p := Proposal(x, x0, step, z);
    ReflectAboveLower(p, 0.0);
    assert StepOne(x, x0, step, z, NonNegativeBound) == Reflect(p, Fin(0.0), PosInf);
  }

  /** `res.x = translate(res.x)`: the optimum is reported as a full truth vector, zero in the inefficient bins. */
  lemma SuperHypothesisResult(eff: seq<bool>, x: seq<real>)
    requires |x| == CountTrue(eff)
    ensures |SuperHypothesis(eff).translate(x)| == |eff|
    ensures Select(SuperHypothesis(eff).translate(x), eff) == x
    ensures forall j :: 0 <= j < |eff| && !eff[j] ==> SuperHypothesis(eff).translate(x)[j] == 0.0
  {
    ReduceEmbed(x, eff);
  }

  // ---------------------------------------------------------------- Jeffreys prior

  datatype JeffreysPrior = JeffreysPrior(
    nToys: nat,
    translate: seq<real> --> seq<real>,
    lower: seq<XReal>,
    upper: seq<XReal>,
    total: XReal,
    defaults: seq<real>,
    dx: seq<real>)

  /** The default finite-difference step `1e-3` of every parameter. */
  const DefaultDx: real := 0.001

  /**
    `JeffreysPrior(response_matrix, translation_function, parameter_limits,
    default_values, dx=None, total_truth_limit=None)`, with `nToys` the number
    of stacked response matrices. `zip(*parameter_limits)` of no limits has
    no first row, which raises IndexError. `total_truth_limit or inf` and
    `dx or full(npar, 1e-3)` replace every falsy value: None, 0 and the
    empty list.
   */
  function NewJeffreysPrior(
    nToys: nat,
    translate: seq<real> --> seq<real>,
    limits: seq<Bound>,
    defaults: seq<real>,
    dx: Option<seq<real>>,
    totalTruthLimit: Option<real>): (r: Result<JeffreysPrior>)
    ensures r.Failure? <==> |limits| == 0
    ensures r.Failure? ==> r.error == IndexError
    ensures r.Success? ==> |r.value.lower| == |r.value.upper| == |limits|
    ensures r.Success? ==> forall i :: 0 <= i < |limits| ==> (r.value.lower[i], r.value.upper[i]) == Limit(limits[i])
    ensures r.Success? ==> (r.value.total == PosInf <==> totalTruthLimit.None? || totalTruthLimit == Some(0.0))
    ensures r.Success? && totalTruthLimit.Some? && totalTruthLimit.value != 0.0 ==> r.value.total == Fin(totalTruthLimit.value)
    ensures r.Success? && (dx.None? || dx == Some([])) ==> r.value.dx == seq(|limits|, i => DefaultDx)
    ensures r.Success? && dx.Some? && dx.value != [] ==> r.value.dx == dx.value
    ensures r.Success? ==> r.value.nToys == nToys && r.value.defaults == defaults
  {
    if |limits| == 0 then Failure(IndexError)
    else
      var total := if totalTruthLimit.None? || totalTruthLimit.value == 0.0 then PosInf else Fin(totalTruthLimit.value);
      var steps := if dx.None? || dx.value == [] then seq(|limits|, i => DefaultDx) else dx.value;
      Success(JeffreysPrior(nToys, translate,
        seq(|limits|, i requires 0 <= i < |limits| => Limit(limits[i]).0),
        seq(|limits|, i requires 0 <= i < |limits| => Limit(limits[i]).1),
        total, defaults, steps))
  }

  /** Some parameter lies below its lower or above its upper limit. */
  predicate OutOfBounds(jp: JeffreysPrior, value: seq<real>)
    requires |value| == |jp.lower| == |jp.upper|
  {
    exists i :: 0 <= i < |value| && (Lt(Fin(value[i]), jp.lower[i]) || Lt(jp.upper[i], Fin(value[i])))
  }

  /** `log|det F|`, the `log_det` of `slogdet`, of the Fisher matrix for a parameter set and a toy: a parameter of the model. */
  type FisherLogDet = (seq<real>, nat) -> XReal

  /**
    `JeffreysPrior.__call__(value, toy_index=0)`: `-inf` outside the parameter
    limits or above the total truth limit, else half the log-determinant of the
    Fisher matrix of the selected toy (a negative toy index counts from the end).
   */
  function EvaluatePrior(jp: JeffreysPrior, value: seq<real>, toyIndex: int, logdet: FisherLogDet): (r: Result<XReal>)
    requires |value| == |jp.lower| == |jp.upper|
    requires jp.translate.requires(value)
    ensures OutOfBounds(jp, value) ==> r == Success(NegInf)
    ensures !OutOfBounds(jp, value) && Lt(jp.total, Fin(Arrays.Sum(jp.translate(value)))) ==> r == Success(NegInf)
    ensures !OutOfBounds(jp, value) && !Lt(jp.total, Fin(Arrays.Sum(jp.translate(value)))) ==>
      (r.Failure? <==> PyIndex(toyIndex, jp.nToys).None?)
    ensures !OutOfBounds(jp, value) && !Lt(jp.total, Fin(Arrays.Sum(jp.translate(value)))) && r.Success? ==>
      r.value == Half(logdet(value, PyIndex(toyIndex, jp.nToys).value))
    ensures r.Failure? ==> r.error == IndexError
  {
    if OutOfBounds(jp, value) then Success(NegInf)
    else if Lt(jp.total, Fin(Arrays.Sum(jp.translate(value)))) then Success(NegInf)
    else
      match PyIndex(toyIndex, jp.nToys)
      case None => Failure(IndexError)
      case Some(toy) => Success(Half(logdet(value, toy)))
  }

  /** A value outside one of the original `(lower, upper)` bounds has prior probability zero. */
  lemma PriorZeroOutsideBounds(jp: JeffreysPrior, limits: seq<Bound>, value: seq<real>, i: nat, toyIndex: int, logdet: FisherLogDet,
                               nToys: nat, translate: seq<real> --> seq<real>, defaults: seq<real>, dx: Option<seq<real>>, total: Option<real>)
    requires NewJeffreysPrior(nToys, translate, limits, defaults, dx, total) == Success(jp)
    requires |value| == |limits| && translate.requires(value)
    requires i < |limits| && !Allowed(limits[i], value[i])
    ensures EvaluatePrior(jp, value, toyIndex, logdet) == Success(NegInf)
  {
    assert Lt(Fin(value[i]), jp.lower[i]) || Lt(jp.upper[i], Fin(value[i]));
  }

  /**
    Without limits of any kind (unbounded parameters, no total limit) the
    guards never fire: the prior is the Fisher term, or IndexError for a bad toy.
   */
  lemma PriorUnguarded(jp: JeffreysPrior, limits: seq<Bound>, value: seq<real>, toyIndex: int, logdet: FisherLogDet,
                       nToys: nat, translate: seq<real> --> seq<real>, defaults: seq<real>, dx: Option<seq<real>>)
    requires forall i :: 0 <= i < |limits| ==> limits[i] == Bound(None, None)
    requires NewJeffreysPrior(nToys, translate, limits, defaults, dx, None) == Success(jp)
    requires |value| == |limits| && translate.requires(value)
    requires 0 <= toyIndex < nToys
    ensures EvaluatePrior(jp, value, toyIndex, logdet) == Success(Half(logdet(value, toyIndex)))
  {
    assert !OutOfBounds(jp, value) by {
      forall i | 0 <= i < |value|
        ensures !(Lt(Fin(value[i]), jp.lower[i]) || Lt(jp.upper[i], Fin(value[i])))
      {
        assert jp.lower[i] == NegInf && jp.upper[i] == PosInf;
      }
    }
  }
}
