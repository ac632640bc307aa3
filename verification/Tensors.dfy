/**
 Dense tensors in row-major order, with the torch operations the converters use on them. Elements
 are integers: nothing here rounds.
 */
module Tensors {
  import opened Wrappers

  type Shape = seq<nat>
  type Index = seq<nat>

  function Size(shape: Shape): nat {
    if shape == [] then 1 else Size(shape[..|shape| - 1]) * shape[|shape| - 1]
  }

  predicate InBounds(shape: Shape, ix: Index) {
    |ix| == |shape| && forall d :: 0 <= d < |ix| ==> ix[d] < shape[d]
  }

  /** The position of an element in row-major order. */
  function Ravel(shape: Shape, ix: Index): nat
    requires |ix| == |shape|
  {
    if shape == [] then 0
    else
      var n := |shape| - 1;
      Ravel(shape[..n], ix[..n]) * shape[n] + ix[n]
  }

  function Unravel(shape: Shape, k: nat): (ix: Index)
    requires k < Size(shape)
    ensures |ix| == |shape|
  {
    if shape == [] then []
    else
      var n := |shape| - 1;
      DivisionFits(k, Size(shape[..n]), shape[n]);
      Unravel(shape[..n], k / shape[n]) + [k % shape[n]]
  }

  /** Comparing quotients through their products. */
  lemma MulOrder(p: nat, q: nat, d: nat, r: nat)
    requires r < d
    ensures p * d + r < q * d ==> p < q
    ensures p < q ==> p * d + d <= q * d
  {
    if p < q {
      assert (p + 1) * d <= q * d;
    } else {
      assert q * d <= p * d;
    }
  }

  lemma DivisionFits(k: nat, a: nat, b: nat)
    requires k < a * b
    ensures b > 0 && k / b < a
  {
    if b > 0 {
      MulOrder(k / b, a, b, k % b);
    }
  }

  lemma {:induction false} RavelFits(shape: Shape, ix: Index)
    requires InBounds(shape, ix)
    ensures Ravel(shape, ix) < Size(shape)
  {
    if shape != [] {
      var n := |shape| - 1;
      RavelFits(shape[..n], ix[..n]);
      var a, r := Size(shape[..n]), Ravel(shape[..n], ix[..n]);
      MulOrder(r, a, shape[n], ix[n]);
    }
  }

  lemma {:induction false} UnravelInBounds(shape: Shape, k: nat)
    requires k < Size(shape)
    ensures InBounds(shape, Unravel(shape, k))
  {
    if shape != [] {
      var n := |shape| - 1;
      DivisionFits(k, Size(shape[..n]), shape[n]);
      UnravelInBounds(shape[..n], k / shape[n]);
    }
  }

  lemma DivMod(q: nat, d: nat, r: nat)
    requires r < d
    ensures (q * d + r) / d == q && (q * d + r) % d == r
  {
    var k := q * d + r;
    assert k == (k / d) * d + k % d;
    MulOrder(k / d, q, d, k % d);
    MulOrder(q, k / d, d, r);
  }

  lemma {:induction false} UnravelRavel(shape: Shape, ix: Index)
    requires InBounds(shape, ix)
    ensures Ravel(shape, ix) < Size(shape) && Unravel(shape, Ravel(shape, ix)) == ix
  {
    RavelFits(shape, ix);
    if shape != [] {
      var n := |shape| - 1;
      UnravelRavel(shape[..n], ix[..n]);
      DivMod(Ravel(shape[..n], ix[..n]), shape[n], ix[n]);
      assert ix == ix[..n] + [ix[n]];
    }
  }

  lemma {:induction false} RavelUnravel(shape: Shape, k: nat)
    requires k < Size(shape)
    ensures Ravel(shape, Unravel(shape, k)) == k
  {
    if shape != [] {
      var n := |shape| - 1;
      DivisionFits(k, Size(shape[..n]), shape[n]);
      RavelUnravel(shape[..n], k / shape[n]);
      var ix := Unravel(shape, k);
      assert ix[..n] == Unravel(shape[..n], k / shape[n]);
      assert k == (k / shape[n]) * shape[n] + k % shape[n];
    }
  }

  /** Adding a last dimension. */
  lemma RavelSnoc(shape: Shape, ix: Index, n: nat, i: nat)
    requires |ix| == |shape|
    ensures Ravel(shape + [n], ix + [i]) == Ravel(shape, ix) * n + i
    ensures Size(shape + [n]) == Size(shape) * n
  {
    assert (shape + [n])[..|shape|] == shape && (ix + [i])[..|ix|] == ix;
  }

  lemma SizeSnoc(shape: Shape, n: nat)
    ensures Size(shape + [n]) == Size(shape) * n
  {
    assert (shape + [n])[..|shape|] == shape;
  }

  // ---------------------------------------------------------------- tensors

  datatype Tensor = Tensor(shape: Shape, data: seq<int>)

  predicate Valid(t: Tensor) {
    |t.data| == Size(t.shape)
  }

  function At(t: Tensor, ix: Index): int
    requires Valid(t) && InBounds(t.shape, ix)
  {
    RavelFits(t.shape, ix);
    t.data[Ravel(t.shape, ix)]
  }

  /** The tensor whose element at each index is `f` of the index. */
  function Build(shape: Shape, f: Index --> int): (t: Tensor)
    requires forall ix :: InBounds(shape, ix) ==> f.requires(ix)
    ensures Valid(t) && t.shape == shape
  {
    Tensor(shape, seq(Size(shape), k requires 0 <= k < Size(shape) => UnravelInBounds(shape, k); f(Unravel(shape, k))))
  }

  lemma BuildAt(shape: Shape, f: Index --> int, ix: Index)
    requires InBounds(shape, ix) && forall jx :: InBounds(shape, jx) ==> f.requires(jx)
    ensures At(Build(shape, f), ix) == f(ix)
  {
    UnravelRavel(shape, ix);
  }

  /** Tensors with the same shape and elements are the same. */
  lemma Extensional(a: Tensor, b: Tensor)
    requires Valid(a) && Valid(b) && a.shape == b.shape
    requires forall ix :: InBounds(a.shape, ix) ==> At(a, ix) == At(b, ix)
    ensures a == b
  {
    forall k | 0 <= k < |a.data|
      ensures a.data[k] == b.data[k]
    {
      var ix := Unravel(a.shape, k);
      UnravelInBounds(a.shape, k);
      RavelUnravel(a.shape, k);
      assert At(a, ix) == At(b, ix);
    }
  }

  // ---------------------------------------------------------------- torch operations

  /** reshape: the same elements in the same order; None when the sizes differ. */
  function Reshape(t: Tensor, shape: Shape): (r: Option<Tensor>)
    requires Valid(t)
    ensures r.Some? ==> Valid(r.value) && r.value.shape == shape
  {
    if Size(shape) == Size(t.shape) then Some(Tensor(shape, t.data)) else None
  }

  predicate IsPermutation(dims: seq<nat>, n: nat) {
    && |dims| == n && AllBelow(dims, n)
    && (forall i, j :: 0 <= i < j < n ==> dims[i] != dims[j])
    && (forall d :: 0 <= d < n ==> d in dims)
  }

  predicate AllBelow(dims: seq<nat>, n: nat) {
    forall i :: 0 <= i < |dims| ==> dims[i] < n
  }

  /** The entries of `s` in the order `dims`. */
  function Rearrange<T>(s: seq<T>, dims: seq<nat>): (r: seq<T>)
    requires AllBelow(dims, |s|)
    ensures |r| == |dims| && forall i :: 0 <= i < |dims| ==> r[i] == s[dims[i]]
  {
    seq(|dims|, i requires 0 <= i < |dims| => s[dims[i]])
  }

  function PositionIn(dims: seq<nat>, d: nat): (i: nat)
    requires d in dims
    ensures i < |dims| && dims[i] == d
  {
    if dims[0] == d then 0 else 1 + PositionIn(dims[1..], d)
  }

  /** The permutation that undoes `dims`. */
  function Inverse(dims: seq<nat>, n: nat): (r: seq<nat>)
    requires IsPermutation(dims, n)
    ensures |r| == n && AllBelow(r, n) && forall d :: 0 <= d < n ==> r[d] < n && dims[r[d]] == d
    ensures forall i :: 0 <= i < n ==> r[dims[i]] == i
  {
    var r := seq(n, d requires 0 <= d < n => PositionIn(dims, d));
    assert forall i :: 0 <= i < n ==> r[dims[i]] == i by {
      forall i | 0 <= i < n
        ensures r[dims[i]] == i
      {
        assert dims[r[dims[i]]] == dims[i];
      }
    }
    r
  }

  /** permute: dimension `i` of the result is dimension `dims[i]` of `t`. */
  function Permute(t: Tensor, dims: seq<nat>): (r: Option<Tensor>)
    requires Valid(t)
    ensures r.Some? <==> IsPermutation(dims, |t.shape|)
    ensures r.Some? ==> Valid(r.value) && r.value.shape == Rearrange(t.shape, dims)
  {
    if !IsPermutation(dims, |t.shape|) then None
    else
      var inv := Inverse(dims, |t.shape|);
      Some(Build(Rearrange(t.shape, dims),
                 ix requires InBounds(Rearrange(t.shape, dims), ix) => At(t, Rearrange(ix, inv))))
  }

  lemma PermuteAt(t: Tensor, dims: seq<nat>, r: Tensor, ix: Index)
    requires Valid(t) && Permute(t, dims) == Some(r) && InBounds(r.shape, ix)
    ensures IsPermutation(dims, |t.shape|) && |ix| == |t.shape| && AllBelow(Inverse(dims, |t.shape|), |ix|)
    ensures InBounds(t.shape, Rearrange(ix, Inverse(dims, |t.shape|))) && Valid(r)
    ensures At(r, ix) == At(t, Rearrange(ix, Inverse(dims, |t.shape|)))
  {
    var inv := Inverse(dims, |t.shape|);
    BuildAt(Rearrange(t.shape, dims), jx requires InBounds(Rearrange(t.shape, dims), jx) =>
            At(t, Rearrange(jx, inv)), ix);
  }
}
