/**
  Finite sums and counts, boolean-mask selection, and n-dimensional arrays
  stored flat in row-major (C) order, the layout numpy uses by default.
 */
module Arrays {

  // ---------------------------------------------------------------- sums

  function Sum(s: seq<real>): real {
    if |s| == 0 then 0.0 else s[0] + Sum(s[1..])
  }

  lemma {:induction false} SumAppend(a: seq<real>, b: seq<real>)
    ensures Sum(a + b) == Sum(a) + Sum(b)
  {
    if |a| == 0 {
      assert a + b == b;
    } else {
      assert (a + b)[1..] == a[1..] + b;
      SumAppend(a[1..], b);
    }
  }

  lemma {:induction false} SumNonNegative(s: seq<real>)
    requires forall i :: 0 <= i < |s| ==> s[i] >= 0.0
    ensures Sum(s) >= 0.0
  {
    if |s| > 0 {
      SumNonNegative(s[1..]);
    }
  }

  /** Sum of pointwise products. */
  function Dot(a: seq<real>, b: seq<real>): real
    requires |a| == |b|
  {
    if |a| == 0 then 0.0 else a[0] * b[0] + Dot(a[1..], b[1..])
  }

  /** Number of elements satisfying `p`. */
  function Count<T>(s: seq<T>, p: T -> bool): (n: nat)
    ensures n <= |s|
  {
    if |s| == 0 then 0 else (if p(s[0]) then 1 else 0) + Count(s[1..], p)
  }

  lemma {:induction false} CountAppend<T>(a: seq<T>, b: seq<T>, p: T -> bool)
    ensures Count(a + b, p) == Count(a, p) + Count(b, p)
  {
    if |a| == 0 {
      assert a + b == b;
    } else {
      assert (a + b)[1..] == a[1..] + b;
      CountAppend(a[1..], b, p);
    }
  }

  /** The largest element of a non-empty sequence. */
  function MaxOf(s: seq<real>): (m: real)
    requires |s| > 0
    ensures forall i :: 0 <= i < |s| ==> s[i] <= m
    ensures exists i :: 0 <= i < |s| && s[i] == m
  {
    if |s| == 1 then s[0]
    else
      var rest := MaxOf(s[1..]);
      assert forall i :: 1 <= i < |s| ==> s[i] == s[1..][i - 1];
      if s[0] >= rest then s[0] else rest
  }

  /** `m` has `rows` rows of `cols` entries each. */
  predicate IsMatrix(m: seq<seq<real>>, rows: nat, cols: nat) {
    |m| == rows && forall i :: 0 <= i < |m| ==> |m[i]| == cols
  }

  // ---------------------------------------------------------------- masks

  /** Number of `true` entries: `np.sum(mask)`. */
  function CountTrue(mask: seq<bool>): (n: nat)
    ensures n <= |mask|
  {
    if |mask| == 0 then 0 else (if mask[0] then 1 else 0) + CountTrue(mask[1..])
  }

  /** Boolean indexing `s[mask]`: the entries where `mask` holds, in their order. */
  function Select<T>(s: seq<T>, mask: seq<bool>): (r: seq<T>)
    requires |s| == |mask|
    ensures |r| == CountTrue(mask)
  {
    if |s| == 0 then []
    else if mask[0] then [s[0]] + Select(s[1..], mask[1..])
    else Select(s[1..], mask[1..])
  }

  /** Boolean indexing distributes over concatenation. */
  lemma {:induction false} SelectAppend<T>(a: seq<T>, b: seq<T>, ma: seq<bool>, mb: seq<bool>)
    requires |a| == |ma| && |b| == |mb|
    ensures Select(a + b, ma + mb) == Select(a, ma) + Select(b, mb)
  {
    if |a| > 0 {
      SelectAppend(a[1..], b, ma[1..], mb);
      assert (a + b)[1..] == a[1..] + b;
      assert (ma + mb)[1..] == ma[1..] + mb;
    } else {
      assert a + b == b && ma + mb == mb;
    }
  }

  /** Positions `base + j` where `mask[j]` holds, in increasing order. */
  function KeptFrom(mask: seq<bool>, base: nat): (ks: seq<nat>)
    ensures |ks| == CountTrue(mask)
  {
    if |mask| == 0 then []
    else (if mask[0] then [base] else []) + KeptFrom(mask[1..], base + 1)
  }

  /** Positions where `mask` holds, in increasing order: `np.flatnonzero(mask)`. */
  function Kept(mask: seq<bool>): (ks: seq<nat>)
    ensures |ks| == CountTrue(mask)
  {
    KeptFrom(mask, 0)
  }

  /** Every kept position is a masked one within `[base, base + |mask|)`. */
  lemma {:induction false} KeptFromBounds(mask: seq<bool>, base: nat)
    ensures forall k :: 0 <= k < |KeptFrom(mask, base)| ==>
      base <= KeptFrom(mask, base)[k] < base + |mask| && mask[KeptFrom(mask, base)[k] - base]
  {
    if |mask| > 0 {
      KeptFromBounds(mask[1..], base + 1);
      var head: seq<nat> := if mask[0] then [base] else [];
      var rest := KeptFrom(mask[1..], base + 1);
      var ks := KeptFrom(mask, base);
      assert ks == head + rest;
      forall k | 0 <= k < |ks|
        ensures base <= ks[k] < base + |mask| && mask[ks[k] - base]
      {
        if k >= |head| {
          var x := rest[k - |head|];
          assert ks[k] == x;
          assert mask[1..][x - (base + 1)] == mask[x - base];
        }
      }
    }
  }

  /** The kept positions increase strictly. */
  lemma {:induction false} KeptFromSorted(mask: seq<bool>, base: nat)
    ensures forall k, l :: 0 <= k < l < |KeptFrom(mask, base)| ==> KeptFrom(mask, base)[k] < KeptFrom(mask, base)[l]
  {
    if |mask| > 0 {
      KeptFromSorted(mask[1..], base + 1);
      KeptFromBounds(mask[1..], base + 1);
      var head: seq<nat> := if mask[0] then [base] else [];
      var rest := KeptFrom(mask[1..], base + 1);
      var ks := KeptFrom(mask, base);
      assert ks == head + rest;
      forall k, l | 0 <= k < l < |ks|
        ensures ks[k] < ks[l]
      {
        assert ks[l] == rest[l - |head|];
        if k >= |head| {
          assert ks[k] == rest[k - |head|];
        }
      }
    }
  }

  /** Every masked position is kept. */
  lemma {:induction false} KeptFromComplete(mask: seq<bool>, base: nat)
    ensures forall j :: 0 <= j < |mask| && mask[j] ==> base + j in KeptFrom(mask, base)
  {
    if |mask| > 0 {
      KeptFromComplete(mask[1..], base + 1);
      var head: seq<nat> := if mask[0] then [base] else [];
      var rest := KeptFrom(mask[1..], base + 1);
      var ks := KeptFrom(mask, base);
      assert ks == head + rest;
      forall j | 0 <= j < |mask| && mask[j]
        ensures base + j in ks
      {
        if j == 0 {
          assert ks[0] == base;
        } else {
          assert mask[1..][j - 1];
          assert base + 1 + (j - 1) in rest;
        }
      }
    }
  }

  /** The kept positions are exactly the masked ones, each once and in increasing order. */
  lemma KeptSpec(mask: seq<bool>)
    ensures forall k :: 0 <= k < |Kept(mask)| ==> Kept(mask)[k] < |mask| && mask[Kept(mask)[k]]
    ensures forall k, l :: 0 <= k < l < |Kept(mask)| ==> Kept(mask)[k] < Kept(mask)[l]
    ensures forall j :: 0 <= j < |mask| && mask[j] ==> j in Kept(mask)
  {
    KeptFromBounds(mask, 0);
    KeptFromSorted(mask, 0);
    KeptFromComplete(mask, 0);
  }

  /** Selection keeps exactly the entries at the masked positions, in their original order. */
  lemma {:induction false} SelectKept<T>(s: seq<T>, mask: seq<bool>)
    requires |s| == |mask|
    ensures |Select(s, mask)| == |Kept(mask)|
    ensures forall k :: 0 <= k < |Kept(mask)| ==> Kept(mask)[k] < |s| && Select(s, mask)[k] == s[Kept(mask)[k]]
  {
    SelectKeptFrom(s, mask, 0);
  }

  lemma SelectKeptFrom<T>(s: seq<T>, mask: seq<bool>, base: nat)
    requires |s| == |mask|
    ensures forall k :: 0 <= k < |KeptFrom(mask, base)| ==>
      base <= KeptFrom(mask, base)[k] < base + |s| && Select(s, mask)[k] == s[KeptFrom(mask, base)[k] - base]
  {
    forall k | 0 <= k < |KeptFrom(mask, base)|
      ensures base <= KeptFrom(mask, base)[k] < base + |s| && Select(s, mask)[k] == s[KeptFrom(mask, base)[k] - base]
    {
      SelectKeptAt(s, mask, base, k);
    }
  }

  /** Entry `k` of a selection is the entry at the `k`-th kept position. */
  lemma {:induction false} SelectKeptAt<T>(s: seq<T>, mask: seq<bool>, base: nat, k: nat)
    requires |s| == |mask| && k < |KeptFrom(mask, base)|
    ensures base <= KeptFrom(mask, base)[k] < base + |s| && Select(s, mask)[k] == s[KeptFrom(mask, base)[k] - base]
    decreases |s|
  {
    var rest, sel, srest := KeptFrom(mask[1..], base + 1), Select(s, mask), Select(s[1..], mask[1..]);
    if mask[0] {
      assert KeptFrom(mask, base) == [base] + rest && sel == [s[0]] + srest;
      if k > 0 {
        SelectKeptAt(s[1..], mask[1..], base + 1, k - 1);
        assert s[1..][rest[k - 1] - (base + 1)] == s[rest[k - 1] - base];
      }
    } else {
      assert KeptFrom(mask, base) == rest && sel == srest;
      SelectKeptAt(s[1..], mask[1..], base + 1, k);
      assert s[1..][rest[k] - (base + 1)] == s[rest[k] - base];
    }
  }

  // ---------------------------------------------------------------- shapes

  /** Number of elements of an array of the given shape. */
  function Prod(shape: seq<nat>): nat {
    if |shape| == 0 then 1 else shape[0] * Prod(shape[1..])
  }

  lemma {:induction false} ProdAppend(a: seq<nat>, b: seq<nat>)
    ensures Prod(a + b) == Prod(a) * Prod(b)
  {
    if |a| == 0 {
      assert a + b == b;
    } else {
      assert (a + b)[1..] == a[1..] + b;
      ProdAppend(a[1..], b);
      MulAssoc(a[0], Prod(a[1..]), Prod(b));
    }
  }

  lemma ProdPair(a: nat, b: nat)
    ensures Prod([a, b]) == a * b
  {
    assert [a, b][1..] == [b];
    assert [b][1..] == [];
    assert Prod([b]) == b * Prod([]);
    assert Prod([a, b]) == a * Prod([b]);
  }

  /** An n-dimensional array: a shape and its elements in C order. */
  datatype NdArray<T> = NdArray(shape: seq<nat>, flat: seq<T>) {
    predicate Valid() {
      |flat| == Prod(shape)
    }
  }

  /**
    An array of vectors of length `n` with batch shape `shape`, i.e. an array of
    shape `shape + [n]`, listed in C order of the batch index.
   */
  datatype Batch = Batch(shape: seq<nat>, vectors: seq<seq<real>>, n: nat) {
    predicate Valid() {
      |vectors| == Prod(shape) && forall c :: 0 <= c < |vectors| ==> |vectors[c]| == n
    }
  }

  /** The first column of a matrix. */
  function Column0<T>(b: seq<seq<T>>): (c: seq<T>)
    requires forall i :: 0 <= i < |b| ==> |b[i]| > 0
    ensures |c| == |b| && forall i :: 0 <= i < |b| ==> c[i] == b[i][0]
  {
    seq(|b|, i requires 0 <= i < |b| => b[i][0])
  }

  /** Concatenation of a sequence of blocks. */
  function Flatten<T>(blocks: seq<seq<T>>): seq<T> {
    if |blocks| == 0 then [] else blocks[0] + Flatten(blocks[1..])
  }

  lemma {:induction false} FlattenLength<T>(blocks: seq<seq<T>>, m: nat)
    requires forall i :: 0 <= i < |blocks| ==> |blocks[i]| == m
    ensures |Flatten(blocks)| == |blocks| * m
  {
    if |blocks| > 0 {
      FlattenLength(blocks[1..], m);
      assert |blocks| * m == m + (|blocks| - 1) * m;
    }
  }

  /** Flattening blocks of equal length `m` puts element `j` of block `i` at `i*m + j`. */
  lemma {:induction false} FlattenAt<T>(blocks: seq<seq<T>>, m: nat, i: nat, j: nat)
    requires forall k :: 0 <= k < |blocks| ==> |blocks[k]| == m
    requires i < |blocks| && j < m
    ensures i * m + j < |Flatten(blocks)|
    ensures Flatten(blocks)[i * m + j] == blocks[i][j]
  {
    FlattenLength(blocks, m);
    if i > 0 {
      FlattenAt(blocks[1..], m, i - 1, j);
      assert i * m + j == m + ((i - 1) * m + j);
    }
  }

  /** Counting over concatenated blocks is the sum of the blockwise counts. */
  lemma {:induction false} CountFlatten<T>(blocks: seq<seq<T>>, p: T -> bool)
    ensures Count(Flatten(blocks), p) == SumCounts(blocks, p)
  {
    if |blocks| > 0 {
      CountAppend(blocks[0], Flatten(blocks[1..]), p);
      CountFlatten(blocks[1..], p);
    }
  }

  function SumCounts<T>(blocks: seq<seq<T>>, p: T -> bool): nat {
    if |blocks| == 0 then 0 else Count(blocks[0], p) + SumCounts(blocks[1..], p)
  }

  /** Row-major position of a multi-index in an array of `shape` (`np.ravel_multi_index`). */
  function FlatIndex(index: seq<nat>, shape: seq<nat>): nat
    requires |index| == |shape|
  {
    if |index| == 0 then 0 else index[0] * Prod(shape[1..]) + FlatIndex(index[1..], shape[1..])
  }

  predicate InRange(index: seq<nat>, shape: seq<nat>) {
    |index| == |shape| && forall i :: 0 <= i < |index| ==> index[i] < shape[i]
  }

  /** An in-range multi-index lands inside the flat storage. */
  lemma {:induction false} FlatIndexBound(index: seq<nat>, shape: seq<nat>)
    requires InRange(index, shape)
    ensures FlatIndex(index, shape) < Prod(shape)
  {
    if |index| > 0 {
      var p := Prod(shape[1..]);
      FlatIndexBound(index[1..], shape[1..]);
      var rest := FlatIndex(index[1..], shape[1..]);
      assert index[0] * p + rest < index[0] * p + p == (index[0] + 1) * p;
      MulLe(index[0] + 1, shape[0], p);
    }
  }

  /** A count out of a positive total is a fraction in `[0, 1]`. */
  lemma FractionBounds(k: nat, n: nat)
    requires 0 < n && k <= n
    ensures 0.0 <= k as real / n as real <= 1.0
  {
    var q := k as real / n as real;
    assert q * n as real == k as real;
  }

  lemma MulPositive(a: nat, b: nat)
    requires a > 0 && b > 0
    ensures a * b > 0
  {
  }

  lemma MulLe(a: nat, b: nat, c: nat)
    requires a <= b
    ensures a * c <= b * c
  {
  }

  /** Block `f` of `n` blocks of `m` ends within the whole. */
  lemma BlockBound(f: nat, n: nat, m: nat)
    requires f < n
    ensures f * m + m <= n * m
  {
    MulLe(f + 1, n, m);
    assert (f + 1) * m == f * m + m;
  }

  lemma MulAssoc(a: nat, b: nat, c: nat)
    ensures a * (b * c) == (a * b) * c
  {
  }
}
