/**
  `_collapse_systematics_axes` of likelihood.py: the toy axes of a
  log-likelihood array (one toy per response matrix) are collapsed by picking
  one toy, picking one toy per entry, taking the maximum, or averaging the
  likelihoods.
 */
module Systematics {
  import opened Wrappers
  import opened Arrays
  import opened XReals

  /**
    The `systematics` argument: a mode name, a tuple index, an array of
    indices (one tuple per non-toy entry), or None.
   */
  datatype Mode = Named(name: string) | Pick(index: seq<int>) | PerEntry(indices: seq<seq<seq<int>>>) | NoSystematics

  predicate IsProfile(mode: Mode) {
    mode.Named? && (mode.name == "profile" || mode.name == "maximum")
  }

  predicate IsMarginal(mode: Mode) {
    mode.Named? && (mode.name == "marginal" || mode.name == "average")
  }

  /** `np.log(np.average(np.exp(ll)))` over the toys: a parameter of the model. */
  type LogMeanExp = seq<LogL> -> LogL

  /** A log-likelihood array indexed `[p][s][q]`: non-toy axes before the toys, toys, non-toy axes after. */
  predicate IsCube<T>(cube: seq<seq<seq<T>>>, np: nat, ns: nat, nq: nat) {
    && |cube| == np
    && (forall p :: 0 <= p < np ==> |cube[p]| == ns)
    && (forall p, s :: 0 <= p < np && 0 <= s < ns ==> |cube[p][s]| == nq)
  }

  predicate IsGrid<T>(grid: seq<seq<T>>, np: nat, nq: nat) {
    |grid| == np && forall p :: 0 <= p < np ==> |grid[p]| == nq
  }

  /** Python's index normalisation: `-n <= i < n` is valid and negative indices count from the end. */
  function PyIndex(i: int, n: nat): (r: Option<nat>)
    ensures r.Some? <==> -(n as int) <= i < n
    ensures r.Some? ==> r.value < n && r.value as int == (if i < 0 then i + n else i)
  {
    if 0 <= i < n then Some(i) else if -(n as int) <= i < 0 then Some(i + n) else None
  }

  /** A full multi-index into the toy axes, normalised, or None when any entry is out of range. */
  function ResolveIndex(index: seq<int>, shape: seq<nat>): (r: Option<seq<nat>>)
    requires |index| == |shape|
    ensures r.Some? <==> forall k :: 0 <= k < |index| ==> -(shape[k] as int) <= index[k] < shape[k]
    ensures r.Some? ==> InRange(r.value, shape)
    ensures r.Some? ==> forall k :: 0 <= k < |index| ==> PyIndex(index[k], shape[k]) == Some(r.value[k])
  {
    if |index| == 0 then Some([])
    else
      match (PyIndex(index[0], shape[0]), ResolveIndex(index[1..], shape[1..]))
      case (Some(h), Some(t)) =>
        assert forall k :: 1 <= k < |index| ==> index[k] == index[1..][k - 1] && shape[k] == shape[1..][k - 1];
        Some([h] + t)
      case (None, _) => None
      case (_, None) =>
        assert forall k :: 1 <= k < |index| ==> index[k] == index[1..][k - 1] && shape[k] == shape[1..][k - 1];
        None
  }

  /** The largest of a non-empty list of log-likelihoods. */
  function MaxLogL(s: seq<LogL>): (m: LogL)
    requires |s| > 0
    ensures forall i :: 0 <= i < |s| ==> Le(s[i], m)
    ensures exists i :: 0 <= i < |s| && s[i] == m
  {
    if |s| == 1 then s[0]
    else
      var rest := MaxLogL(s[1..]);
      assert forall i :: 1 <= i < |s| ==> s[i] == s[1..][i - 1];
      forall i | 1 <= i < |s|
        ensures Le(s[i], Max(s[0], rest))
      {
        LeTransitive(s[i], rest, Max(s[0], rest));
      }
      Max(s[0], rest)
  }

  /** The toy values of entry `(p, q)`. */
  function Toys(cube: seq<seq<seq<LogL>>>, np: nat, ns: nat, nq: nat, p: nat, q: nat): (t: seq<LogL>)
    requires IsCube(cube, np, ns, nq) && p < np && q < nq
    ensures |t| == ns && forall s :: 0 <= s < ns ==> t[s] == cube[p][s][q]
  {
    seq(ns, s requires 0 <= s < ns => cube[p][s][q])
  }

  /** The profile of every entry of row `p`. */
  function ProfileRow(cube: seq<seq<seq<LogL>>>, np: nat, ns: nat, nq: nat, p: nat): (row: seq<LogL>)
    requires IsCube(cube, np, ns, nq) && p < np && ns > 0
    ensures |row| == nq && forall q :: 0 <= q < nq ==> row[q] == MaxLogL(Toys(cube, np, ns, nq, p, q))
  {
    seq(nq, q requires 0 <= q < nq => MaxLogL(Toys(cube, np, ns, nq, p, q)))
  }

  /**
    There is one index tuple per non-toy entry, and each has at least one index
    per toy axis; only the first `rank` entries of a tuple are read.
   */
  predicate PerEntryShape(indices: seq<seq<seq<int>>>, np: nat, nq: nat, rank: nat) {
    && |indices| == np
    && (forall p :: 0 <= p < np ==> |indices[p]| == nq)
    && (forall p, q :: 0 <= p < np && 0 <= q < nq ==> |indices[p][q]| >= rank)
  }

  /** Every per-entry index tuple is in range for the toy axes. */
  predicate PerEntryInRange(indices: seq<seq<seq<int>>>, np: nat, nq: nat, shape: seq<nat>)
    requires PerEntryShape(indices, np, nq, |shape|)
  {
    forall p, q :: 0 <= p < np && 0 <= q < nq ==> ResolveIndex(indices[p][q][..|shape|], shape).Some?
  }

  /** The toy that the leading entries of a resolvable tuple name, in C order. */
  function ToyOf(shape: seq<nat>, index: seq<int>): (s: nat)
    requires |index| >= |shape| && ResolveIndex(index[..|shape|], shape).Some?
    ensures s < Prod(shape)
  {
    var idx := ResolveIndex(index[..|shape|], shape).value;
    FlatIndexBound(idx, shape);
    FlatIndex(idx, shape)
  }

  /**
    The toy part of a tuple index: its leading entries, one per toy axis, pick
    the same toy for every entry; an out-of-range entry raises IndexError.
   */
  function PickToy(cube: seq<seq<seq<LogL>>>, np: nat, nq: nat, shape: seq<nat>, index: seq<int>): (r: Result<seq<seq<LogL>>>)
    requires IsCube(cube, np, Prod(shape), nq)
    requires |index| >= |shape|
    ensures r.Success? <==> ResolveIndex(index[..|shape|], shape).Some?
    ensures r.Failure? ==> r.error == IndexError
    ensures r.Success? ==> IsGrid(r.value, np, nq)
    ensures r.Success? ==> forall p, q :: 0 <= p < np && 0 <= q < nq ==> r.value[p][q] == cube[p][ToyOf(shape, index)][q]
  {
    if ResolveIndex(index[..|shape|], shape).None? then Failure(IndexError)
    else
      var s := ToyOf(shape, index);
      Success(seq(np, p requires 0 <= p < np => seq(nq, q requires 0 <= q < nq => cube[p][s][q])))
  }

  /**
    The flat offset of the block of trailing entries that the leading indices
    `extra` select in an array of shape `tshape`.
   */
  function Block(tshape: seq<nat>, extra: seq<int>): (start: nat)
    requires |extra| <= |tshape| && ResolveIndex(extra, tshape[..|extra|]).Some?
    ensures start + Prod(tshape[|extra|..]) <= Prod(tshape)
  {
    var k := |extra|;
    var idx := ResolveIndex(extra, tshape[..k]).value;
    var f, m := FlatIndex(idx, tshape[..k]), Prod(tshape[k..]);
    FlatIndexBound(idx, tshape[..k]);
    assert tshape[..k] + tshape[k..] == tshape;
    ProdAppend(tshape[..k], tshape[k..]);
    BlockBound(f, Prod(tshape[..k]), m);
    f * m
  }

  /**
    The entries of a tuple index beyond the toy axes index the trailing
    non-toy axes, of shape `tshape`: every row keeps the block they select.
    More entries than axes, or one out of range, raise IndexError.
   */
  function PickTrailing(grid: seq<seq<LogL>>, np: nat, tshape: seq<nat>, extra: seq<int>): (r: Result<seq<seq<LogL>>>)
    requires IsGrid(grid, np, Prod(tshape))
    ensures r.Success? <==> |extra| <= |tshape| && ResolveIndex(extra, tshape[..|extra|]).Some?
    ensures r.Failure? ==> r.error == IndexError
    ensures extra == [] ==> r == Success(grid)
    ensures r.Success? ==> IsGrid(r.value, np, Prod(tshape[|extra|..]))
    ensures r.Success? ==> forall p, j :: 0 <= p < np && 0 <= j < Prod(tshape[|extra|..]) ==>
      r.value[p][j] == grid[p][Block(tshape, extra) + j]
  {
    if |extra| > |tshape| || ResolveIndex(extra, tshape[..|extra|]).None? then Failure(IndexError)
    else
      var start, m := Block(tshape, extra), Prod(tshape[|extra|..]);
      var picked := seq(np, p requires 0 <= p < np => seq(m, j requires 0 <= j < m => grid[p][start + j]));
      assert extra == [] ==> picked == grid by {
        if extra == [] {
          assert tshape[0..] == tshape && start == 0;
          forall p | 0 <= p < np
            ensures picked[p] == grid[p]
          {
          }
        }
      }
      Success(picked)
  }

  /**
    The trailing non-toy axes left after collapsing with `mode`: the entries of
    a tuple beyond the `rank` toy axes consume leading ones.
   */
  function Remaining(tshape: seq<nat>, rank: nat, mode: Mode): (rest: seq<nat>)
    ensures mode.Pick? && rank <= |mode.index| <= rank + |tshape| ==> rest == tshape[|mode.index| - rank..]
    ensures !mode.Pick? ==> rest == tshape
  {
    if mode.Pick? && rank <= |mode.index| <= rank + |tshape| then tshape[|mode.index| - rank..] else tshape
  }

  /**
    A tuple index, `ll[(slice(None),) * p + systematics + (Ellipsis,)]`: the
    leading entries pick one toy for every entry, and any further entries
    index the trailing non-toy axes.
   */
  function PickTuple(cube: seq<seq<seq<LogL>>>, np: nat, tshape: seq<nat>, shape: seq<nat>, index: seq<int>): (r: Result<seq<seq<LogL>>>)
    requires IsCube(cube, np, Prod(shape), Prod(tshape)) && |index| >= |shape|
    ensures r.Success? <==>
      && ResolveIndex(index[..|shape|], shape).Some?
      && |index| - |shape| <= |tshape|
      && ResolveIndex(index[|shape|..], tshape[..|index| - |shape|]).Some?
    ensures r.Failure? ==> r.error == IndexError
    ensures r.Success? ==> IsGrid(r.value, np, Prod(tshape[|index| - |shape|..]))
    ensures r.Success? ==> forall p, j :: 0 <= p < np && 0 <= j < Prod(tshape[|index| - |shape|..]) ==>
      r.value[p][j] == cube[p][ToyOf(shape, index)][Block(tshape, index[|shape|..]) + j]
  {
    var grid :- PickToy(cube, np, Prod(tshape), shape, index);
    PickTrailing(grid, np, tshape, index[|shape|..])
  }

  /**
    An index array: the first `|shape|` entries of each entry's tuple pick its
    own toy; a mismatched shape, a tuple shorter than the toy rank or an
    out-of-range index raises IndexError.
   */
  function PickPerEntry(cube: seq<seq<seq<LogL>>>, np: nat, nq: nat, shape: seq<nat>, indices: seq<seq<seq<int>>>): (r: Result<seq<seq<LogL>>>)
    requires IsCube(cube, np, Prod(shape), nq)
    ensures r.Success? <==> PerEntryShape(indices, np, nq, |shape|) && PerEntryInRange(indices, np, nq, shape)
    ensures r.Failure? ==> r.error == IndexError
    ensures r.Success? ==> IsGrid(r.value, np, nq)
    ensures r.Success? ==> forall p, q :: 0 <= p < np && 0 <= q < nq ==>
      r.value[p][q] == cube[p][ToyOf(shape, indices[p][q])][q]
  {
    if !PerEntryShape(indices, np, nq, |shape|) || !PerEntryInRange(indices, np, nq, shape) then Failure(IndexError)
    else
      Success(seq(np, p requires 0 <= p < np => seq(nq, q requires 0 <= q < nq =>
        cube[p][ToyOf(shape, indices[p][q])][q])))
  }

  /** `np.max(ll, axis=systaxis)`: fails on an empty toy axis, as numpy's maximum has no identity. */
  function Profile(cube: seq<seq<seq<LogL>>>, np: nat, ns: nat, nq: nat): (r: Result<seq<seq<LogL>>>)
    requires IsCube(cube, np, ns, nq)
    ensures r.Success? <==> ns > 0
    ensures r.Failure? ==> r.error == ValueError(EmptyReduction)
    ensures r.Success? ==> IsGrid(r.value, np, nq) && IsProfileOf(r.value, cube, np, ns, nq)
  {
    if ns == 0 then Failure(ValueError(EmptyReduction))
    else
      ProfileGridIsProfile(cube, np, ns, nq);
      Success(ProfileGrid(cube, np, ns, nq))
  }

  /** The maximum over the toys of every entry. */
  function ProfileGrid(cube: seq<seq<seq<LogL>>>, np: nat, ns: nat, nq: nat): (grid: seq<seq<LogL>>)
    requires IsCube(cube, np, ns, nq) && ns > 0
    ensures IsGrid(grid, np, nq)
    ensures forall p :: 0 <= p < np ==> grid[p] == ProfileRow(cube, np, ns, nq, p)
  {
    seq(np, p requires 0 <= p < np => ProfileRow(cube, np, ns, nq, p))
  }

  lemma ProfileGridIsProfile(cube: seq<seq<seq<LogL>>>, np: nat, ns: nat, nq: nat)
    requires IsCube(cube, np, ns, nq) && ns > 0
    ensures IsProfileOf(ProfileGrid(cube, np, ns, nq), cube, np, ns, nq)
  {
    var grid := ProfileGrid(cube, np, ns, nq);
    forall p, q | 0 <= p < np && 0 <= q < nq
      ensures (forall s :: 0 <= s < ns ==> Le(cube[p][s][q], grid[p][q]))
        && (exists s :: 0 <= s < ns && cube[p][s][q] == grid[p][q])
    {
      assert grid[p][q] == MaxLogL(Toys(cube, np, ns, nq, p, q));
      ToysMax(cube, np, ns, nq, p, q);
    }
  }

  /** Every entry of `grid` is at least each of its toys' values and equal to one of them. */
  predicate IsProfileOf(grid: seq<seq<LogL>>, cube: seq<seq<seq<LogL>>>, np: nat, ns: nat, nq: nat)
    requires IsCube(cube, np, ns, nq) && IsGrid(grid, np, nq)
  {
    forall p, q :: 0 <= p < np && 0 <= q < nq ==>
      (forall s :: 0 <= s < ns ==> Le(cube[p][s][q], grid[p][q]))
      && (exists s :: 0 <= s < ns && cube[p][s][q] == grid[p][q])
  }

  /** The profile of one entry dominates its toys and is one of them. */
  lemma ToysMax(cube: seq<seq<seq<LogL>>>, np: nat, ns: nat, nq: nat, p: nat, q: nat)
    requires IsCube(cube, np, ns, nq) && p < np && q < nq && ns > 0
    ensures forall s :: 0 <= s < ns ==> Le(cube[p][s][q], MaxLogL(Toys(cube, np, ns, nq, p, q)))
    ensures exists s :: 0 <= s < ns && cube[p][s][q] == MaxLogL(Toys(cube, np, ns, nq, p, q))
  {
    var t := Toys(cube, np, ns, nq, p, q);
    var s0 :| 0 <= s0 < |t| && t[s0] == MaxLogL(t);
    assert cube[p][s0][q] == MaxLogL(t);
  }

  /** `np.log(np.average(np.exp(ll), axis=systaxis))`, with the transcendental part a parameter. */
  function Marginal(cube: seq<seq<seq<LogL>>>, np: nat, ns: nat, nq: nat, lme: LogMeanExp): (r: seq<seq<LogL>>)
    requires IsCube(cube, np, ns, nq)
    ensures IsGrid(r, np, nq)
    ensures forall p, q :: 0 <= p < np && 0 <= q < nq ==> r[p][q] == lme(Toys(cube, np, ns, nq, p, q))
  {
    seq(np, p requires 0 <= p < np => MarginalRow(cube, np, ns, nq, p, lme))
  }

  function Average(lme: LogMeanExp, toys: seq<LogL>): (r: LogL) {
    lme(toys)
  }

  function MarginalRow(cube: seq<seq<seq<LogL>>>, np: nat, ns: nat, nq: nat, p: nat, lme: LogMeanExp): (row: seq<LogL>)
    requires IsCube(cube, np, ns, nq) && p < np
    ensures |row| == nq && forall q :: 0 <= q < nq ==> row[q] == lme(Toys(cube, np, ns, nq, p, q))
  {
    seq(nq, q requires 0 <= q < nq => Average(lme, Toys(cube, np, ns, nq, p, q)))
  }

  /**
    `_collapse_systematics_axes(ll, systaxis, systematics)` on an array indexed
    `[p][s][q]`, where `s` runs over the toys of shape `shape` and `q` over the
    trailing non-toy axes of shape `tshape`, both in C order. The branches are
    tried in the source's order; None and unknown names raise ValueError.
   */
  function Collapse(cube: seq<seq<seq<LogL>>>, np: nat, tshape: seq<nat>, shape: seq<nat>, mode: Mode, lme: LogMeanExp): (r: Result<seq<seq<LogL>>>)
    requires IsCube(cube, np, Prod(shape), Prod(tshape))
    requires mode.Pick? ==> |mode.index| >= |shape|
    ensures r.Success? ==> IsGrid(r.value, np, Prod(Remaining(tshape, |shape|, mode)))
    ensures mode.Pick? ==> r == PickTuple(cube, np, tshape, shape, mode.index)
    ensures mode.PerEntry? ==> r == PickPerEntry(cube, np, Prod(tshape), shape, mode.indices)
    ensures IsProfile(mode) ==> r == Profile(cube, np, Prod(shape), Prod(tshape))
    ensures IsMarginal(mode) ==> r == Success(Marginal(cube, np, Prod(shape), Prod(tshape), lme))
    ensures r.Failure? && mode.Named? ==> IsProfile(mode) || r.error == ValueError(UnknownSystematics)
    ensures mode.NoSystematics? || (mode.Named? && !IsProfile(mode) && !IsMarginal(mode)) ==>
      r == Failure(ValueError(UnknownSystematics))
  {
    match mode
    case Pick(index) => PickTuple(cube, np, tshape, shape, index)
    case PerEntry(indices) => PickPerEntry(cube, np, Prod(tshape), shape, indices)
    case Named(name) =>
      if name == "profile" || name == "maximum" then Profile(cube, np, Prod(shape), Prod(tshape))
      else if name == "marginal" || name == "average" then Success(Marginal(cube, np, Prod(shape), Prod(tshape), lme))
      else Failure(ValueError(UnknownSystematics))
    case NoSystematics => Failure(ValueError(UnknownSystematics))
  }

  /**
    The profile of every entry is at least the likelihood of any toy a tuple
    picks for it, at the entry its trailing indices select.
   */
  lemma ProfileDominatesPick(cube: seq<seq<seq<LogL>>>, np: nat, tshape: seq<nat>, shape: seq<nat>, index: seq<int>, name: string,
                             lme: LogMeanExp, p: nat, j: nat)
    requires IsCube(cube, np, Prod(shape), Prod(tshape))
    requires name == "profile" || name == "maximum"
    requires |index| >= |shape| && p < np
    requires Collapse(cube, np, tshape, shape, Pick(index), lme).Success?
    requires j < Prod(Remaining(tshape, |shape|, Pick(index)))
    ensures Collapse(cube, np, tshape, shape, Named(name), lme).Success?
    ensures Block(tshape, index[|shape|..]) + j < Prod(tshape)
    ensures Le(Collapse(cube, np, tshape, shape, Pick(index), lme).value[p][j],
               Collapse(cube, np, tshape, shape, Named(name), lme).value[p][Block(tshape, index[|shape|..]) + j])
  {
    assert Collapse(cube, np, tshape, shape, Pick(index), lme) == PickTuple(cube, np, tshape, shape, index);
    assert Collapse(cube, np, tshape, shape, Named(name), lme) == Profile(cube, np, Prod(shape), Prod(tshape));
    assert Remaining(tshape, |shape|, Pick(index)) == tshape[|index| - |shape|..];
    PickBelowProfile(cube, np, tshape, shape, index, p, j);
  }

  /** Entry `(p, j)` of a tuple pick lies at or below the profile of the entry it was taken from. */
  lemma PickBelowProfile(cube: seq<seq<seq<LogL>>>, np: nat, tshape: seq<nat>, shape: seq<nat>, index: seq<int>, p: nat, j: nat)
    requires IsCube(cube, np, Prod(shape), Prod(tshape)) && |index| >= |shape|
    requires PickTuple(cube, np, tshape, shape, index).Success?
    requires p < np && j < Prod(tshape[|index| - |shape|..])
    ensures Profile(cube, np, Prod(shape), Prod(tshape)).Success?
    ensures Block(tshape, index[|shape|..]) + j < Prod(tshape)
    ensures Le(PickTuple(cube, np, tshape, shape, index).value[p][j],
               Profile(cube, np, Prod(shape), Prod(tshape)).value[p][Block(tshape, index[|shape|..]) + j])
  {
    var q := Block(tshape, index[|shape|..]) + j;
    assert PickTuple(cube, np, tshape, shape, index).value[p][j] == cube[p][ToyOf(shape, index)][q];
    ProfileAbove(cube, np, Prod(shape), Prod(tshape), p, ToyOf(shape, index), q);
  }

  /** Entry `(p, j)` of a tuple pick is the picked toy's value at the selected trailing entry. */
  lemma PickTupleAt(cube: seq<seq<seq<LogL>>>, np: nat, tshape: seq<nat>, shape: seq<nat>, index: seq<int>, p: nat, j: nat)
    requires IsCube(cube, np, Prod(shape), Prod(tshape)) && |index| >= |shape|
    requires PickTuple(cube, np, tshape, shape, index).Success?
    requires p < np && j < Prod(tshape[|index| - |shape|..])
    ensures Block(tshape, index[|shape|..]) + j < Prod(tshape)
    ensures PickTuple(cube, np, tshape, shape, index).value[p][j]
      == cube[p][ToyOf(shape, index)][Block(tshape, index[|shape|..]) + j]
  {
  }

  /** Every toy's value lies at or below the profile of its entry. */
  lemma ProfileAbove(cube: seq<seq<seq<LogL>>>, np: nat, ns: nat, nq: nat, p: nat, s: nat, q: nat)
    requires IsCube(cube, np, ns, nq) && p < np && s < ns && q < nq
    ensures Profile(cube, np, ns, nq).Success?
    ensures Le(cube[p][s][q], Profile(cube, np, ns, nq).value[p][q])
  {
    var profile := Profile(cube, np, ns, nq);
    assert IsProfileOf(profile.value, cube, np, ns, nq);
  }

  /** A negative index names the same toy as its non-negative counterpart. */
  lemma NegativeIndexWraps(cube: seq<seq<seq<LogL>>>, np: nat, tshape: seq<nat>, shape: seq<nat>, index: seq<int>, lme: LogMeanExp)
    requires IsCube(cube, np, Prod(shape), Prod(tshape))
    requires |index| == |shape|
    requires forall k :: 0 <= k < |index| ==> 0 <= index[k] < shape[k]
    ensures Collapse(cube, np, tshape, shape, Pick(seq(|index|, k requires 0 <= k < |index| => index[k] - shape[k])), lme)
      == Collapse(cube, np, tshape, shape, Pick(index), lme)
  {
    var neg := seq(|index|, k requires 0 <= k < |index| => index[k] - shape[k]);
    assert neg[..|shape|] == neg && index[..|shape|] == index;
    assert neg[|shape|..] == [] && index[|shape|..] == [];
    var r, rn := ResolveIndex(index, shape), ResolveIndex(neg, shape);
    assert rn.Some?;
    forall k | 0 <= k < |index|
      ensures rn.value[k] == r.value[k]
    {
      assert PyIndex(neg[k], shape[k]) == Some(rn.value[k]);
      assert PyIndex(index[k], shape[k]) == Some(r.value[k]);
    }
    assert rn.value == r.value;
    assert ToyOf(shape, neg) == ToyOf(shape, index);
  }
}
