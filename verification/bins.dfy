/**
  `Bin` and `RectangularBin` of binning.py: a value on a phase space, and a
  box in that phase space with a per-side choice of whether edges belong to it.
 */
module Bins {
  import opened Wrappers
  import opened Arrays
  import opened PhaseSpaces
  import opened XReals

  datatype Bin = Bin(phasespace: PhaseSpace, value: real)

  /**
    `Bin(phasespace=..., value=...)`; `unknown` holds the names of any other
    keyword arguments given.
   */
  function NewBin(phasespace: Option<PhaseSpace>, value: Option<real>, unknown: set<string>): (r: Result<Bin>)
    ensures phasespace.None? ==> r == Failure(ValueError(UndefinedPhaseSpace))
    ensures phasespace.Some? && unknown != {} ==> r == Failure(ValueError(UnknownKwargs))
    ensures r.Success? <==> phasespace.Some? && unknown == {}
    ensures r.Success? ==> r.value.phasespace == phasespace.value
    ensures r.Success? ==> r.value.value == (if value.Some? then value.value else 0.0)
  {
    if phasespace.None? then Failure(ValueError(UndefinedPhaseSpace))
    else if unknown != {} then Failure(ValueError(UnknownKwargs))
    else Success(Bin(phasespace.value, match value case Some(v) => v case None => 0.0))
  }

  /** The weight argument of `fill`: a number, or an iterable of numbers. */
  datatype Weight = Scalar(w: real) | Weights(ws: seq<real>)

  /** Total weight a fill adds: `sum(weight)`, or `weight` itself when it is not iterable. */
  function Amount(weight: Weight): real {
    match weight
    case Scalar(w) => w
    case Weights(ws) => Arrays.Sum(ws)
  }

  /** `bin.fill(weight=1.)` */
  function Fill(b: Bin, weight: Weight := Scalar(1.0)): (r: Bin)
    ensures r.phasespace == b.phasespace
    ensures r.value - b.value == Amount(weight)
  {
    b.(value := b.value + Amount(weight))
  }

  /** The default fill counts one event, and a list of weights fills their sum. */
  lemma FillDefaults(b: Bin, ws: seq<real>)
    ensures Fill(b).value == b.value + 1.0
    ensures Fill(b, Weights([])) == b
    ensures |ws| == 1 ==> Fill(b, Weights(ws)) == Fill(b, Scalar(ws[0]))
  {
    if |ws| == 1 {
      assert Arrays.Sum(ws) == ws[0] + Arrays.Sum(ws[1..]);
    }
  }

  /** Filling a list of weights at once equals filling its two halves one after the other. */
  lemma FillConcatenation(b: Bin, a: seq<real>, c: seq<real>)
    ensures Fill(b, Weights(a + c)) == Fill(Fill(b, Weights(a)), Weights(c))
  {
    SumAppend(a, c);
  }

  /** Filling each weight of a list in turn is filling the list. */
  function FillEach(b: Bin, ws: seq<real>): Bin
    decreases |ws|
  {
    if |ws| == 0 then b else FillEach(Fill(b, Scalar(ws[0])), ws[1..])
  }

  lemma {:induction false} FillEachIsFill(b: Bin, ws: seq<real>)
    ensures FillEach(b, ws) == Fill(b, Weights(ws))
    decreases |ws|
  {
    if |ws| > 0 {
      FillEachIsFill(Fill(b, Scalar(ws[0])), ws[1..]);
    }
  }

  /** `a + b`: a copy of `a` whose value is the sum. */
  function Add(a: Bin, b: Bin): Bin {
    a.(value := a.value + b.value)
  }

  /** `a - b` */
  function Sub(a: Bin, b: Bin): Bin {
    a.(value := a.value - b.value)
  }

  /** `a * b` */
  function Mul(a: Bin, b: Bin): Bin {
    a.(value := a.value * b.value)
  }

  /** `a / b`; Python float division by zero raises ZeroDivisionError. */
  function Div(a: Bin, b: Bin): (r: Result<Bin>)
    ensures r.Failure? <==> b.value == 0.0
    ensures r.Failure? ==> r.error == ZeroDivisionError
  {
    if b.value == 0.0 then Failure(ZeroDivisionError) else Success(a.(value := a.value / b.value))
  }

  /**
    Bin arithmetic keeps the left operand's phase space, and the operators
    undo each other on the value.
   */
  lemma ArithmeticInverses(a: Bin, b: Bin)
    ensures Add(a, b).phasespace == Sub(a, b).phasespace == Mul(a, b).phasespace == a.phasespace
    ensures Sub(Add(a, b), b) == a
    ensures Add(Sub(a, b), b) == a
    ensures Add(a, b).value == Add(b, a).value
    ensures b.value != 0.0 ==> Div(Mul(a, b), b) == Success(a)
    ensures b.value != 0.0 ==> Div(a, b).Success? && Mul(Div(a, b).value, b) == a
  {
    if b.value != 0.0 {
      var m := Mul(a, b);
      assert m.value / b.value == a.value;
      assert m.(value := m.value / b.value) == a;
      assert (a.value / b.value) * b.value == a.value;
    }
  }

  // ---------------------------------------------------------------- boxes

  /** A bin delimited by `(lower, upper)` edges per variable; an edge may be infinite, as in an overflow bin. */
  datatype RectangularBin = RectangularBin(
    bin: Bin,
    edges: map<string, (XReal, XReal)>,
    includeLower: bool,
    includeUpper: bool)

  /**
    Every edge variable lies in the phase space and no upper edge is below its
    lower edge (`ma < mi` is false for NaN, so NaN edges pass).
   */
  predicate ValidEdges(edges: map<string, (XReal, XReal)>, ps: PhaseSpace) {
    forall v :: v in edges ==> Contains(ps, v) && !XReals.Lt(edges[v].1, edges[v].0)
  }

  /**
    `RectangularBin(edges=..., include_lower=True, include_upper=False, phasespace=..., value=...)`.
    Without a phase space, the one spanned by the edge variables is used.
   */
  function NewRectangularBin(
    edges: Option<map<string, (XReal, XReal)>>,
    phasespace: Option<PhaseSpace>,
    value: Option<real>,
    unknown: set<string>,
    includeLower: bool := true,
    includeUpper: bool := false): (r: Result<RectangularBin>)
    ensures edges.None? ==> r == Failure(ValueError(EdgesUndefined))
    ensures r.Success? <==>
      && edges.Some?
      && unknown == {}
      && ValidEdges(edges.value, if phasespace.Some? then phasespace.value else PhaseSpace(edges.value.Keys))
    ensures r.Success? ==>
      && r.value.edges == edges.value
      && r.value.includeLower == includeLower
      && r.value.includeUpper == includeUpper
      && (phasespace.None? ==> r.value.bin.phasespace.variables == edges.value.Keys)
      && (phasespace.Some? ==> r.value.bin.phasespace == phasespace.value)
      && r.value.bin.value == (if value.Some? then value.value else 0.0)
    ensures edges.Some? && unknown != {} ==> r == Failure(ValueError(UnknownKwargs))
    ensures edges.Some? && unknown == {} ==>
      (ValidEdges(edges.value, if phasespace.Some? then phasespace.value else PhaseSpace(edges.value.Keys))
       || r == Failure(ValueError(BadEdges)))
  {
    if edges.None? then Failure(ValueError(EdgesUndefined))
    else
      var ps := if phasespace.Some? then phasespace.value else PhaseSpace(edges.value.Keys);
      match NewBin(Some(ps), value, unknown)
      case Failure(e) => Failure(e)
      case Success(b) =>
        if ValidEdges(edges.value, ps) then Success(RectangularBin(b, edges.value, includeLower, includeUpper))
        else Failure(ValueError(BadEdges))
  }

  /**
    The value `x` passes the lower and upper edge of one variable: none of the
    four exclusion tests fires. Every comparison with NaN is false, so a NaN
    passes.
   */
  predicate WithinEdges(x: XReal, lo: XReal, hi: XReal, includeLower: bool, includeUpper: bool) {
    && (if includeLower then !XReals.Lt(x, lo) else !XReals.Le(x, lo))
    && (if includeUpper then !XReals.Lt(hi, x) else !XReals.Le(hi, x))
  }

  /** The event names every edge variable and lies within the bin's edges for each. */
  ghost predicate Inside(b: RectangularBin, event: map<string, XReal>) {
    forall v :: v in b.edges ==> v in event && WithinEdges(event[v], b.edges[v].0, b.edges[v].1, b.includeLower, b.includeUpper)
  }

  /** Some edge variable that the event names lies outside its edges. */
  ghost predicate Outside(b: RectangularBin, event: map<string, XReal>) {
    exists v :: v in b.edges && v in event && !WithinEdges(event[v], b.edges[v].0, b.edges[v].1, b.includeLower, b.includeUpper)
  }

  /**
    `event_in_bin(event)`: checks the edge variables one by one, in an order
    the model leaves open, and stops at the first edge the value falls outside
    of; looking up a variable the event lacks raises KeyError. So the answer
    is KeyError only when a variable is missing, false only when some named
    variable is outside, and always an answer when every variable is named.
   */
  method EventInBin(b: RectangularBin, event: map<string, XReal>) returns (r: Result<bool>)
    ensures r == Success(true) <==> Inside(b, event)
    ensures r == Success(false) ==> Outside(b, event)
    ensures r.Failure? ==> r.error == KeyError && !(b.edges.Keys <= event.Keys)
    ensures b.edges.Keys <= event.Keys ==> r.Success?
  {
    var todo := b.edges.Keys;
    while todo != {}
      invariant todo <= b.edges.Keys
      invariant forall v :: v in b.edges && v !in todo ==>
        v in event && WithinEdges(event[v], b.edges[v].0, b.edges[v].1, b.includeLower, b.includeUpper)
      decreases todo
    {
      var v :| v in todo;
      var (mi, ma) := b.edges[v];
      if v !in event {
        return Failure(KeyError);
      }
      var val := event[v];
      if b.includeLower {
        if XReals.Lt(val, mi) {
          return Success(false);
        }
      } else {
        if XReals.Le(val, mi) {
          return Success(false);
        }
      }
      if b.includeUpper {
        if XReals.Lt(ma, val) {
          return Success(false);
        }
      } else {
        if XReals.Le(ma, val) {
          return Success(false);
        }
      }
      todo := todo - {v};
    }
    return Success(true);
  }

  /**
    With the default flags a variable with finite edges is the half-open
    interval `[lower, upper)`, an overflow edge `(lower, inf)` takes every
    finite value from `lower` on, and a NaN value passes any edges.
   */
  lemma DefaultFlagsHalfOpen(x: real, lo: real, hi: real, l: XReal, h: XReal, il: bool, iu: bool)
    ensures WithinEdges(Fin(x), Fin(lo), Fin(hi), true, false) <==> lo <= x < hi
    ensures WithinEdges(Fin(x), Fin(lo), PosInf, true, false) <==> lo <= x
    ensures WithinEdges(NaN, l, h, il, iu)
  {
  }

  /**
    `get_center()`: `(mi + ma) / 2` for each variable: the midpoint of finite
    edges, the infinite edge of a half-infinite range, NaN for `(-inf, inf)`.
   */
  function Center(b: RectangularBin): (c: map<string, XReal>)
    ensures c.Keys == b.edges.Keys
    ensures forall v :: v in c && b.edges[v].0.Fin? && b.edges[v].1.Fin? ==>
      c[v].Fin? && 2.0 * c[v].r == b.edges[v].0.r + b.edges[v].1.r
    ensures forall v :: v in c && b.edges[v].0.Fin? && b.edges[v].1.PosInf? ==> c[v] == PosInf
    ensures forall v :: v in c && b.edges[v].0.NegInf? && b.edges[v].1.Fin? ==> c[v] == NegInf
    ensures forall v :: v in c && b.edges[v].0.NegInf? && b.edges[v].1.PosInf? ==> c[v].NaN?
    ensures forall v :: v in c && XReals.Le(b.edges[v].0, b.edges[v].1) && !(b.edges[v].0.NegInf? && b.edges[v].1.PosInf?) ==>
      XReals.Le(b.edges[v].0, c[v]) && XReals.Le(c[v], b.edges[v].1)
  {
    map v | v in b.edges :: Half(XReals.Add(b.edges[v].0, b.edges[v].1))
  }

  /** A box with finite, non-empty extent in every variable contains its centre, whatever its edge flags. */
  lemma CenterInside(b: RectangularBin)
    requires forall v :: v in b.edges ==> b.edges[v].0.Fin? && b.edges[v].1.Fin? && b.edges[v].0.r < b.edges[v].1.r
    ensures Inside(b, Center(b))
  {
  }
}
