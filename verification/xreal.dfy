/**
  Extended reals with the IEEE-754 conventions numpy follows for infinities
  and NaN: the `-inf` sentinel of a log-probability, the `inf` of an absent
  bound, and the NaN that `-inf - (-inf)` produces.
 */
module XReals {

  datatype XReal = NegInf | Fin(r: real) | PosInf | NaN

  /** A log-probability or log-likelihood: finite or `-inf`, never NaN. */
  type LogL = x: XReal | x.Fin? || x.NegInf? witness NegInf

  function Neg(x: XReal): XReal {
    match x
    case NegInf => PosInf
    case Fin(a) => Fin(-a)
    case PosInf => NegInf
    case NaN => NaN
  }

  /** IEEE addition: NaN absorbs, opposite infinities give NaN. */
  function Add(x: XReal, y: XReal): XReal {
    match (x, y)
    case (NaN, _) => NaN
    case (_, NaN) => NaN
    case (NegInf, PosInf) => NaN
    case (PosInf, NegInf) => NaN
    case (NegInf, _) => NegInf
    case (PosInf, _) => PosInf
    case (_, NegInf) => NegInf
    case (_, PosInf) => PosInf
    case (Fin(a), Fin(b)) => Fin(a + b)
  }

  function Sub(x: XReal, y: XReal): XReal {
    Add(x, Neg(y))
  }

  /** Ordered comparison; every comparison with NaN is false. */
  predicate Lt(x: XReal, y: XReal) {
    match (x, y)
    case (NaN, _) => false
    case (_, NaN) => false
    case (NegInf, NegInf) => false
    case (NegInf, _) => true
    case (Fin(a), Fin(b)) => a < b
    case (Fin(_), PosInf) => true
    case (_, _) => false
  }

  predicate Le(x: XReal, y: XReal) {
    Lt(x, y) || (x == y && !x.NaN?)
  }

  /** `0.5 * x` */
  function Half(x: XReal): XReal {
    match x
    case Fin(a) => Fin(a / 2.0)
    case _ => x
  }

  /** `np.where(np.isfinite(x), x, -np.inf)`: the sanitising step that keeps NaN out. */
  function Sanitize(x: XReal): (r: LogL)
    ensures r.Fin? <==> x.Fin?
    ensures x.Fin? ==> r == x
  {
    if x.Fin? then x else NegInf
  }

  function Max(x: LogL, y: LogL): (r: LogL)
    ensures Le(x, r) && Le(y, r)
    ensures r == x || r == y
  {
    if Lt(x, y) then y else x
  }

  /** IEEE sum, evaluated with exact real arithmetic for the finite parts. */
  function Sum(s: seq<XReal>): XReal {
    if |s| == 0 then Fin(0.0) else Add(s[0], Sum(s[1..]))
  }

  /** Sum of the finite values, for when every term is finite. */
  function FinSum(s: seq<XReal>): real
    requires forall i :: 0 <= i < |s| ==> s[i].Fin?
  {
    if |s| == 0 then 0.0 else s[0].r + FinSum(s[1..])
  }

  /** A sum is finite exactly when every term is, and then it is the real sum. */
  lemma {:induction false} SumFinite(s: seq<XReal>)
    ensures Sum(s).Fin? <==> forall i :: 0 <= i < |s| ==> s[i].Fin?
    ensures (forall i :: 0 <= i < |s| ==> s[i].Fin?) ==> Sum(s) == Fin(FinSum(s))
  {
    if |s| > 0 {
      SumFinite(s[1..]);
      assert forall i :: 1 <= i < |s| ==> s[i] == s[1..][i - 1];
    }
  }

  /** Subtraction is anti-symmetric, including its infinities and NaN. */
  lemma SubAntisymmetric(x: XReal, y: XReal)
    ensures Sub(x, y) == Neg(Sub(y, x))
  {
  }

  lemma LtAsymmetric(x: XReal, y: XReal)
    ensures Lt(x, y) ==> !Lt(y, x) && !Le(y, x)
  {
  }

  lemma LeTransitive(x: XReal, y: XReal, z: XReal)
    requires Le(x, y) && Le(y, z)
    ensures Le(x, z)
  {
  }

  lemma LeTotalOnLogL(x: LogL, y: LogL)
    ensures Le(x, y) || Lt(y, x)
  {
  }
}
