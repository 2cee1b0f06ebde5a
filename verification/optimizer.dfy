/**
  The deterministic parts of `LikelihoodMachine.max_log_probability` in
  likelihood.py: conversion of parameter bounds, the basin-hopping start point
  and step sizes, the reflection that folds a random proposal back into the
  bounds, the choice of objective and minimiser, and the post-processing of the
  optimum. The optimisers and the random numbers are not modelled; the random
  normal draws are a parameter.
 */
module Optimizer {
  import opened Wrappers
  import opened XReals
  import opened Systematics

  /** `(lower, upper)`; None means unbounded in that direction. */
  datatype Bound = Bound(lo: Option<real>, hi: Option<real>)

  /** `limit(bounds)`: None becomes `-inf` below and `inf` above. */
  function Limit(b: Bound): (l: (XReal, XReal))
    ensures l.0 == NegInf <==> b.lo.None?
    ensures l.1 == PosInf <==> b.hi.None?
    ensures l.0.Fin? || l.0.NegInf?
    ensures l.1.Fin? || l.1.PosInf?
    ensures b.lo.Some? ==> l.0 == Fin(b.lo.value)
    ensures b.hi.Some? ==> l.1 == Fin(b.hi.value)
  {
    (if b.lo.Some? then Fin(b.lo.value) else NegInf, if b.hi.Some? then Fin(b.hi.value) else PosInf)
  }

  /** `x` satisfies the bound. */
  predicate Allowed(b: Bound, x: real) {
    (b.lo.None? || b.lo.value <= x) && (b.hi.None? || x <= b.hi.value)
  }

  /** The converted limits describe the same interval as the bound. */
  lemma LimitAllowed(b: Bound, x: real)
    ensures Allowed(b, x) <==> Le(Limit(b).0, Fin(x)) && Le(Fin(x), Limit(b).1)
  {
  }

  /** `start_value(limits)`: the midpoint, else the one finite limit, else 0. */
  function StartValue(b: Bound): (x: real)
    ensures b.lo.Some? && b.hi.Some? ==> x - b.lo.value == b.hi.value - x
    ensures b.lo.Some? && b.hi.None? ==> x == b.lo.value
    ensures b.lo.None? && b.hi.Some? ==> x == b.hi.value
    ensures b.lo.None? && b.hi.None? ==> x == 0.0
  {
    if b.lo.Some? && b.hi.Some? then (b.hi.value + b.lo.value) / 2.0
    else if b.lo.Some? then b.lo.value
    else if b.hi.Some? then b.hi.value
    else 0.0
  }

  /** `step_value(limits)`: half the range, or 1 when a side is unbounded. */
  function StepValue(b: Bound): (s: real)
    ensures b.lo.None? || b.hi.None? ==> s == 1.0
    ensures b.lo.Some? && b.hi.Some? ==> 2.0 * s == b.hi.value - b.lo.value
  {
    if b.lo.Some? && b.hi.Some? then (b.hi.value - b.lo.value) / 2.0 else 1.0
  }

  /**
    For a consistent bound the start value is allowed, and with two finite
    limits one step from the start reaches either limit.
   */
  lemma StartWithinBounds(b: Bound)
    requires b.lo.Some? && b.hi.Some? ==> b.lo.value <= b.hi.value
    ensures Allowed(b, StartValue(b))
    ensures b.lo.Some? && b.hi.Some? ==>
      StartValue(b) - StepValue(b) == b.lo.value && StartValue(b) + StepValue(b) == b.hi.value
    ensures StepValue(b) >= 0.0
  {
  }

  // ---------------------------------------------------------------- reflection

  /**
    numpy's floating `%` (`np.mod`): the result has the sign of the divisor;
    a zero or NaN divisor gives NaN; an infinite divisor leaves a dividend of
    the same sign unchanged and gives that infinity otherwise.
   */
  function FloorMod(x: real, m: XReal): (r: XReal)
    ensures m.Fin? && m.r > 0.0 ==> r.Fin? && 0.0 <= r.r < m.r
    ensures m.PosInf? && x >= 0.0 ==> r == Fin(x)
    ensures m.NegInf? && x <= 0.0 ==> r == Fin(x)
    ensures (m.Fin? && m.r == 0.0) || m.NaN? ==> r == NaN
  {
    match m
    case NaN => NaN
    case PosInf => if x >= 0.0 then Fin(x) else PosInf
    case NegInf => if x <= 0.0 then Fin(x) else NegInf
    case Fin(d) =>
      if d == 0.0 then NaN
      else
        var k := ((x / d).Floor as real);
        if d > 0.0 then
          FloorBounds(x, d);
          Fin(x - d * k)
        else Fin(x - d * k)
  }

  /** `0 <= x - d*floor(x/d) < d` for a positive divisor. */
  lemma FloorBounds(x: real, d: real)
    requires d > 0.0
    ensures 0.0 <= x - d * ((x / d).Floor as real) < d
  {
    var q := x / d;
    var k := (q.Floor as real);
    assert k <= q < k + 1.0;
    assert x == d * q;
    MulMonotone(d, k, q);
    MulStrict(d, q, k + 1.0);
    assert d * (k + 1.0) == d * k + d;
    assert 0.0 <= x - d * k;
    assert x - d * k < d;
  }

  lemma MulMonotone(d: real, a: real, b: real)
    requires d > 0.0 && a <= b
    ensures d * a <= d * b
  {
  }

  lemma MulStrict(d: real, a: real, b: real)
    requires d > 0.0 && a < b
    ensures d * a < d * b
  {
  }

  /**
    The two `np.where` steps of `step_fun` for one parameter: a proposal above
    the upper limit is folded back below it modulo the range, then a proposal
    below the lower limit is folded back above it.
   */
  function Reflect(x: real, lo: XReal, hi: XReal): (r: XReal)
    requires lo.Fin? || lo.NegInf?
    requires hi.Fin? || hi.PosInf?
  {
    var range := Sub(hi, lo);
    var r1 := if hi.Fin? && x > hi.r then Sub(hi, FloorMod(x - hi.r, range)) else Fin(x);
    if r1.Fin? && lo.Fin? && r1.r < lo.r then Add(lo, FloorMod(lo.r - r1.r, range)) else r1
  }

  /** With two finite limits `lo < hi`, every proposal is folded into `[lo, hi]`. */
  lemma ReflectInBounds(x: real, lo: real, hi: real)
    requires lo < hi
    ensures Reflect(x, Fin(lo), Fin(hi)).Fin?
    ensures lo <= Reflect(x, Fin(lo), Fin(hi)).r <= hi
  {
    var range := Fin(hi - lo);
    assert Sub(Fin(hi), Fin(lo)) == range;
    if x > hi {
      var m := FloorMod(x - hi, range);
      assert Sub(Fin(hi), m) == Fin(hi - m.r);
    } else if x < lo {
      var m := FloorMod(lo - x, range);
      assert Add(Fin(lo), m) == Fin(lo + m.r);
    }
  }

  /** A proposal already within the limits is left alone. */
  lemma ReflectKeepsAllowed(x: real, lo: XReal, hi: XReal)
    requires lo.Fin? || lo.NegInf?
    requires hi.Fin? || hi.PosInf?
    requires Le(lo, Fin(x)) && Le(Fin(x), hi)
    ensures Reflect(x, lo, hi) == Fin(x)
  {
  }

  /** With one infinite limit the range is infinite and the fold is a mirror image at the finite limit. */
  lemma ReflectMirror(x: real, edge: real)
    ensures x > edge ==> Reflect(x, NegInf, Fin(edge)) == Fin(2.0 * edge - x)
    ensures x < edge ==> Reflect(x, Fin(edge), PosInf) == Fin(2.0 * edge - x)
  {
  }

  /** With only a lower limit, every proposal ends up at or above it. */
  lemma ReflectAboveLower(x: real, lo: real)
    ensures Reflect(x, Fin(lo), PosInf).Fin? && Reflect(x, Fin(lo), PosInf).r >= lo
  {
    if x < lo {
      ReflectMirror(x, lo);
    }
  }

  /** Equal limits make the range zero, and a proposal off that point becomes NaN. */
  lemma ReflectDegenerate(x: real, v: real)
    requires x != v
    ensures Reflect(x, Fin(v), Fin(v)) == NaN
  {
  }

  function Abs(x: real): real {
    if x < 0.0 then -x else x
  }

  function MaxReal(a: real, b: real): real {
    if a >= b then a else b
  }

  /** `x + dx` with `dx = z * max(|x - x0|, step)`. */
  function Proposal(x: real, x0: real, step: real, z: real): real {
    x + z * MaxReal(Abs(x - x0), step)
  }

  /** One parameter of `step_fun`: the move by `z * max(|x - x0|, step)`, then the reflection. */
  function StepOne(x: real, x0: real, step: real, z: real, b: Bound): (r: XReal)
    ensures b.lo.Some? && b.hi.Some? && b.lo.value < b.hi.value ==> r.Fin? && b.lo.value <= r.r <= b.hi.value
  {
    var proposal := Proposal(x, x0, step, z);
    ReflectIntoBound(proposal, b);
    Reflect(proposal, Limit(b).0, Limit(b).1)
  }

  lemma ReflectIntoBound(x: real, b: Bound)
    ensures b.lo.Some? && b.hi.Some? && b.lo.value < b.hi.value ==>
      Reflect(x, Limit(b).0, Limit(b).1).Fin? && b.lo.value <= Reflect(x, Limit(b).0, Limit(b).1).r <= b.hi.value
  {
    if b.lo.Some? && b.hi.Some? && b.lo.value < b.hi.value {
      ReflectInBounds(x, b.lo.value, b.hi.value);
    }
  }

  /**
    `step_fun(x)`: each parameter moves by `z_i * max(|x_i - x0_i|, step_i)`,
    where `z` are the standard-normal draws, and is then reflected into its limits.
   */
  function StepFun(x: seq<real>, x0: seq<real>, step: seq<real>, z: seq<real>, bounds: seq<Bound>): (r: seq<XReal>)
    requires |x| == |x0| == |step| == |z| == |bounds|
    ensures |r| == |x|
    ensures forall i :: 0 <= i < |r| && bounds[i].lo.Some? && bounds[i].hi.Some? && bounds[i].lo.value < bounds[i].hi.value ==>
      r[i].Fin? && bounds[i].lo.value <= r[i].r <= bounds[i].hi.value
  {
    seq(|x|, i requires 0 <= i < |x| => StepOne(x[i], x0[i], step[i], z[i], bounds[i]))
  }

  /** Where a proposal stays within its limits, the step is just the move. */
  lemma StepWithinLimits(x: real, x0: real, step: real, z: real, b: Bound)
    requires Allowed(b, Proposal(x, x0, step, z))
    ensures StepOne(x, x0, step, z, b) == Fin(Proposal(x, x0, step, z))
  {
    var proposal := Proposal(x, x0, step, z);
    LimitAllowed(b, proposal);
    ReflectKeepsAllowed(proposal, Limit(b).0, Limit(b).1);
  }

  // ---------------------------------------------------------------- set-up

  /** The quantity minimised: minus the largest log-probability, or minus the log of the mean probability. */
  datatype Objective = NegMax | NegLogMean

  datatype Plan =
    | DifferentialEvolution(objective: Objective, bounds: seq<Bound>)
    | BasinHopping(objective: Objective, x0: seq<real>, step: seq<real>, temperature: nat, niter: nat,
                   localMethod: string, bounds: seq<Bound>)

  /**
    The checks of `max_log_probability` before it calls an optimiser, in the
    source's order: the systematics mode, then the bounds (None is not
    iterable, and an empty list transposes to a one-dimensional empty array,
    so `limits[1]` raises IndexError), then the method name.
   */
  function Configure(mode: Mode, limits: Option<seq<Bound>>, methodName: string): (r: Result<Plan>)
    ensures !IsProfile(mode) && !IsMarginal(mode) ==> r == Failure(ValueError(UnknownSystematics))
    ensures (IsProfile(mode) || IsMarginal(mode)) && limits.None? ==> r == Failure(TypeError)
    ensures (IsProfile(mode) || IsMarginal(mode)) && limits == Some([]) ==> r == Failure(IndexError)
    ensures r.Success? <==>
      && (IsProfile(mode) || IsMarginal(mode)) && limits.Some? && |limits.value| > 0
      && (methodName == "differential_evolution" || methodName == "basinhopping")
    ensures r.Success? ==> r.value.objective == (if IsProfile(mode) then NegMax else NegLogMean)
    ensures r.Success? ==> r.value.bounds == limits.value
    ensures r.Success? && methodName == "basinhopping" ==>
      && r.value.BasinHopping?
      && |r.value.x0| == |r.value.step| == |limits.value|
      && r.value.temperature == |limits.value| && r.value.niter == 100 && r.value.localMethod == "L-BFGS-B"
      && (forall i :: 0 <= i < |limits.value| ==>
            r.value.x0[i] == StartValue(limits.value[i]) && r.value.step[i] == StepValue(limits.value[i]))
  {
    if !IsProfile(mode) && !IsMarginal(mode) then Failure(ValueError(UnknownSystematics))
    else if limits.None? then Failure(TypeError)
    else if |limits.value| == 0 then Failure(IndexError)
    else
      var objective := if IsProfile(mode) then NegMax else NegLogMean;
      var bounds := limits.value;
      if methodName == "differential_evolution" then Success(DifferentialEvolution(objective, bounds))
      else if methodName == "basinhopping" then
        Success(BasinHopping(objective,
          seq(|bounds|, i requires 0 <= i < |bounds| => StartValue(bounds[i])),
          seq(|bounds|, i requires 0 <= i < |bounds| => StepValue(bounds[i])),
          |bounds|, 100, "L-BFGS-B", bounds))
      else Failure(ValueError(UnknownMethod))
  }

  /**
    `np.argmax` over the log-probabilities at the optimum: the first position
    of the largest value, which is the profile likelihood `res.P` in the
    profile mode. An empty array raises ValueError.
   */
  method ArgMax(lp: seq<LogL>) returns (r: Result<nat>)
    ensures r.Success? <==> |lp| > 0
    ensures r.Success? ==> r.value < |lp| && lp[r.value] == MaxLogL(lp)
    ensures r.Success? ==> forall j :: 0 <= j < r.value ==> Lt(lp[j], lp[r.value])
  {
    if |lp| == 0 {
      return Failure(ValueError(EmptyReduction));
    }
    var best := 0;
    var i := 1;
    while i < |lp|
      invariant 1 <= i <= |lp| && best < i
      invariant forall j :: 0 <= j < i ==> Le(lp[j], lp[best])
      invariant forall j :: 0 <= j < best ==> Lt(lp[j], lp[best])
    {
      if Lt(lp[best], lp[i]) {
        forall j | 0 <= j < i
          ensures Lt(lp[j], lp[i])
        {
          LeLtTransitive(lp[j], lp[best], lp[i]);
        }
        best := i;
      } else {
        LeTotalOnLogL(lp[i], lp[best]);
      }
      i := i + 1;
    }
    MaxUnique(lp, best);
    return Success(best);
  }

  lemma LeLtTransitive(x: XReal, y: XReal, z: XReal)
    requires Le(x, y) && Lt(y, z)
    ensures Lt(x, z)
  {
  }

  /** An element no smaller than every element is the maximum. */
  lemma MaxUnique(s: seq<LogL>, i: nat)
    requires i < |s| && forall j :: 0 <= j < |s| ==> Le(s[j], s[i])
    ensures s[i] == MaxLogL(s)
  {
    var m := MaxLogL(s);
    var k :| 0 <= k < |s| && s[k] == m;
    assert Le(s[i], m) && Le(m, s[i]);
    LeAntisymmetric(s[i], m);
  }

  lemma LeAntisymmetric(x: LogL, y: LogL)
    requires Le(x, y) && Le(y, x)
    ensures x == y
  {
  }

  /** `res.P = -res.fun` undoes the negation of the objective. */
  lemma ProbabilityFromObjective(lp: seq<LogL>)
    requires |lp| > 0
    ensures Neg(Neg(MaxLogL(lp))) == MaxLogL(lp)
    ensures Neg(MaxLogL(lp)).PosInf? <==> forall j :: 0 <= j < |lp| ==> lp[j] == NegInf
  {
    var m := MaxLogL(lp);
    if m == NegInf {
      forall j | 0 <= j < |lp|
        ensures lp[j] == NegInf
      {
        assert Le(lp[j], m);
      }
    }
  }
}
