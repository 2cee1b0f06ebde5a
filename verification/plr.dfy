/**
  `plr` of likelihood.py: the sample of log-likelihood ratios between two
  hypotheses, built from every pairing of their posterior samples, and the
  model preference, the fraction of ratios favouring the second hypothesis.
 */
module Ratios {
  import opened Wrappers
  import opened XReals
  import opened Arrays

  /** `np.meshgrid(L1, -L0)` summed over the pair: row `j` pairs `L1[j]` with every `L0[i]`. */
  function Rows(l1: seq<LogL>, l0: seq<LogL>): (rows: seq<seq<XReal>>)
    ensures |rows| == |l1|
    ensures forall j :: 0 <= j < |l1| ==> |rows[j]| == |l0|
    ensures forall j, i :: 0 <= j < |l1| && 0 <= i < |l0| ==> rows[j][i] == Add(l1[j], Neg(l0[i]))
  {
    seq(|l1|, j requires 0 <= j < |l1| => seq(|l0|, i requires 0 <= i < |l0| => Add(l1[j], Neg(l0[i]))))
  }

  /** The flattened PLR sample: entry `j * |L0| + i` is `L1[j] - L0[i]`. */
  function Plr(l1: seq<LogL>, l0: seq<LogL>): (plr: seq<XReal>)
    ensures |plr| == |l1| * |l0|
  {
    FlattenLength(Rows(l1, l0), |l0|);
    Flatten(Rows(l1, l0))
  }

  lemma PlrAt(l1: seq<LogL>, l0: seq<LogL>, j: nat, i: nat)
    requires j < |l1| && i < |l0|
    ensures j * |l0| + i < |Plr(l1, l0)|
    ensures Plr(l1, l0)[j * |l0| + i] == Sub(l1[j], l0[i])
  {
    FlattenAt(Rows(l1, l0), |l0|, j, i);
  }

  /**
    `PLR(H0, H1) = -PLR(H1, H0)`: the same pairing, read in the other order,
    is negated, including the NaN of two `-inf` likelihoods.
   */
  lemma PlrAntisymmetric(l1: seq<LogL>, l0: seq<LogL>, j: nat, i: nat)
    requires j < |l1| && i < |l0|
    ensures j * |l0| + i < |Plr(l1, l0)| && i * |l1| + j < |Plr(l0, l1)|
    ensures Plr(l1, l0)[j * |l0| + i] == Neg(Plr(l0, l1)[i * |l1| + j])
  {
    PlrAt(l1, l0, j, i);
    PlrAt(l0, l1, i, j);
    SubAntisymmetric(l1[j], l0[i]);
  }

  predicate Positive(x: XReal) {
    Lt(Fin(0.0), x)
  }

  predicate Negative(x: XReal) {
    Lt(x, Fin(0.0))
  }

  /**
    `float(np.sum(PLR > 0)) / PLR.size`: Python raises ZeroDivisionError when
    either sample is empty.
   */
  function Preference(l1: seq<LogL>, l0: seq<LogL>): (r: Result<real>)
    ensures r.Failure? <==> |l1| == 0 || |l0| == 0
    ensures r.Failure? ==> r.error == ZeroDivisionError
    ensures r.Success? ==> 0.0 <= r.value <= 1.0
    ensures r.Success? ==> r.value == Count(Plr(l1, l0), Positive) as real / (|l1| * |l0|) as real
  {
    if |l1| == 0 || |l0| == 0 then Failure(ZeroDivisionError)
    else
      MulPositive(|l1|, |l0|);
      FractionBounds(Count(Plr(l1, l0), Positive), |l1| * |l0|);
      Success(Count(Plr(l1, l0), Positive) as real / (|l1| * |l0|) as real)
  }

  // ---------------------------------------------------------------- counting

  /** Counting two sequences whose entries agree pointwise under `p` and `q`. */
  lemma {:induction false} CountPointwise<S, T>(x: seq<S>, y: seq<T>, p: S -> bool, q: T -> bool)
    requires |x| == |y|
    requires forall k :: 0 <= k < |x| ==> p(x[k]) == q(y[k])
    ensures Count(x, p) == Count(y, q)
  {
    if |x| > 0 {
      CountPointwise(x[1..], y[1..], p, q);
    }
  }

  /** A matrix without its first column. */
  function DropColumn<T>(b: seq<seq<T>>): (d: seq<seq<T>>)
    requires forall i :: 0 <= i < |b| ==> |b[i]| > 0
    ensures |d| == |b| && forall i :: 0 <= i < |b| ==> d[i] == b[i][1..]
  {
    seq(|b|, i requires 0 <= i < |b| => b[i][1..])
  }

  /** Counting a matrix row by row equals counting its first column plus the rest. */
  lemma {:induction false} SumCountsColumns<T>(b: seq<seq<T>>, q: T -> bool)
    requires forall i :: 0 <= i < |b| ==> |b[i]| > 0
    ensures SumCounts(b, q) == Count(Column0(b), q) + SumCounts(DropColumn(b), q)
  {
    if |b| > 0 {
      SumCountsColumns(b[1..], q);
      assert Column0(b)[1..] == Column0(b[1..]);
      assert DropColumn(b)[1..] == DropColumn(b[1..]);
      assert b[0] == [b[0][0]] + b[0][1..];
      CountAppend([b[0][0]], b[0][1..], q);
    }
  }

  /**
    Fubini for counts: when `a` (`n` rows of `m`) and `b` (`m` rows of `n`)
    are each other's transpose up to the predicates, they hold as many
    satisfying entries.
   */
  lemma {:induction false} CountTranspose<S, T>(a: seq<seq<S>>, b: seq<seq<T>>, m: nat, p: S -> bool, q: T -> bool)
    requires |b| == m
    requires forall j :: 0 <= j < |a| ==> |a[j]| == m
    requires forall i :: 0 <= i < m ==> |b[i]| == |a|
    requires forall j, i :: 0 <= j < |a| && 0 <= i < m ==> p(a[j][i]) == q(b[i][j])
    ensures SumCounts(a, p) == SumCounts(b, q)
  {
    if |a| == 0 {
      forall i | 0 <= i < m
        ensures Count(b[i], q) == 0
      {
      }
      SumCountsZero(b, q);
    } else {
      SumCountsColumns(b, q);
      CountPointwise(a[0], Column0(b), p, q);
      CountTranspose(a[1..], DropColumn(b), m, p, q);
    }
  }

  lemma {:induction false} SumCountsZero<T>(b: seq<seq<T>>, q: T -> bool)
    requires forall i :: 0 <= i < |b| ==> Count(b[i], q) == 0
    ensures SumCounts(b, q) == 0
  {
    if |b| > 0 {
      SumCountsZero(b[1..], q);
    }
  }

  /** Entries satisfying at most one of two predicates are counted at most once in total. */
  lemma {:induction false} CountDisjoint<T>(s: seq<T>, p: T -> bool, q: T -> bool)
    requires forall k :: 0 <= k < |s| ==> !(p(s[k]) && q(s[k]))
    ensures Count(s, p) + Count(s, q) <= |s|
    ensures (forall k :: 0 <= k < |s| ==> p(s[k]) || q(s[k])) ==> Count(s, p) + Count(s, q) == |s|
  {
    if |s| > 0 {
      CountDisjoint(s[1..], p, q);
    }
  }

  /** An entry of `PLR(H1, H0)` is positive exactly when the mirrored entry of `PLR(H0, H1)` is negative. */
  lemma PositiveMirror(x: XReal)
    ensures Positive(Neg(x)) <==> Negative(x)
  {
  }

  /** The ratios favouring H0 in `PLR(H0, H1)` are as many as those favouring H0 in `PLR(H1, H0)`. */
  lemma MirroredCounts(l1: seq<LogL>, l0: seq<LogL>)
    ensures Count(Plr(l0, l1), Positive) == Count(Plr(l1, l0), Negative)
  {
    var r10, r01 := Rows(l1, l0), Rows(l0, l1);
    forall j, i | 0 <= j < |l1| && 0 <= i < |l0|
      ensures Negative(r10[j][i]) == Positive(r01[i][j])
    {
      SubAntisymmetric(l1[j], l0[i]);
      PositiveMirror(r10[j][i]);
    }
    CountTranspose(r10, r01, |l0|, Negative, Positive);
    CountFlatten(r10, Negative);
    CountFlatten(r01, Positive);
  }

  /** Without ties between the two samples every ratio is either positive or negative. */
  lemma UntiedDecided(l1: seq<LogL>, l0: seq<LogL>)
    requires forall j, i :: 0 <= j < |l1| && 0 <= i < |l0| ==> l1[j] != l0[i]
    ensures forall k :: 0 <= k < |Plr(l1, l0)| ==> Positive(Plr(l1, l0)[k]) || Negative(Plr(l1, l0)[k])
  {
    var plr := Plr(l1, l0);
    forall k | 0 <= k < |plr|
      ensures Positive(plr[k]) || Negative(plr[k])
    {
      var j, i := k / |l0|, k % |l0|;
      assert k == j * |l0| + i;
      assert j < |l1| by {
        if j >= |l1| { MulLe(|l1|, j, |l0|); }
      }
      PlrAt(l1, l0, j, i);
    }
  }

  /**
    `preference(H0, H1) = 1 - preference(H1, H0)` up to the ratios that are
    zero (or NaN): the two preferences never add up to more than one, and add
    up to exactly one when no pairing of likelihoods is tied.
   */
  lemma PreferenceComplement(l1: seq<LogL>, l0: seq<LogL>)
    requires |l1| > 0 && |l0| > 0
    ensures Preference(l1, l0).Success? && Preference(l0, l1).Success?
    ensures Preference(l1, l0).value + Preference(l0, l1).value <= 1.0
    ensures (forall j, i :: 0 <= j < |l1| && 0 <= i < |l0| ==> l1[j] != l0[i]) ==>
      Preference(l1, l0).value + Preference(l0, l1).value == 1.0
  {
    var plr := Plr(l1, l0);
    MirroredCounts(l1, l0);
    CountDisjoint(plr, Positive, Negative);
    var pos, neg := Count(plr, Positive), Count(plr, Negative);
    var n := |plr|;
    assert |l0| * |l1| == n;
    Quotients(pos, neg, n);
    if forall j, i :: 0 <= j < |l1| && 0 <= i < |l0| ==> l1[j] != l0[i] {
      UntiedDecided(l1, l0);
    }
  }

  lemma Quotients(a: nat, b: nat, n: nat)
    requires n > 0
    ensures a as real / n as real + b as real / n as real == (a + b) as real / n as real
    ensures a + b <= n ==> (a + b) as real / n as real <= 1.0
    ensures a + b == n ==> (a + b) as real / n as real == 1.0
  {
    DivAdd(a as real, b as real, n as real);
    if a + b <= n {
      FractionBounds(a + b, n);
    }
    if a + b == n {
      DivUnique(n as real, n as real, 1.0);
    }
  }

  lemma DivAdd(x: real, y: real, d: real)
    requires d > 0.0
    ensures x / d + y / d == (x + y) / d
  {
    var p, q := x / d, y / d;
    assert p * d == x && q * d == y;
    assert (p + q) * d == x + y;
    DivUnique(x + y, d, p + q);
  }

  lemma DivUnique(x: real, d: real, q: real)
    requires d > 0.0 && q * d == x
    ensures x / d == q
  {
    var r := x / d;
    assert r * d == x;
    assert (r - q) * d == 0.0;
  }
}
