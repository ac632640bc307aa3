/**
 The remaining operations of LoraTorchTensor (convert_lora_to_gguf.py): permute and transpose,
 indexing, cat and stack, each against the same operation on the product.
 */
module LoraOps {
  import opened Wrappers
  import opened Tensors
  import opened Lora

  // ---------------------------------------------------------------- permute

  /** Dimensions as torch takes them: from the front or, when negative, from the back. */
  function TorchDims(dims: seq<int>, n: nat): (r: Option<seq<nat>>)
    ensures r.Some? ==>
              && |r.value| == |dims|
              && forall i :: 0 <= i < |dims| ==> r.value[i] == if dims[i] < 0 then dims[i] + n else dims[i]
  {
    if forall i :: 0 <= i < |dims| ==> 0 <= dims[i] + n && dims[i] < n
    then Some(seq(|dims|, i requires 0 <= i < |dims| => (if dims[i] < 0 then dims[i] + n else dims[i]) as nat))
    else None
  }

  function PermuteTensor(t: Tensor, dims: seq<int>): (r: Option<Tensor>)
    requires Valid(t)
    ensures r.Some? ==> Valid(r.value)
  {
    match TorchDims(dims, |t.shape|)
    case None => None
    case Some(d) => Permute(t, d)
  }

  /** Counts every dimension from the back. */
  function FromBack(dims: seq<int>, n: nat): (r: seq<int>)
    ensures |r| == |dims| && forall i :: 0 <= i < |dims| ==> r[i] == if dims[i] >= 0 then dims[i] - n else dims[i]
  {
    seq(|dims|, i requires 0 <= i < |dims| => if dims[i] >= 0 then dims[i] - n else dims[i])
  }

  /** LoraTorchTensor.permute; None where it raises. */
  function PermutePair(p: Pair, dims: seq<int>): Option<Pair>
    requires ValidPair(p)
  {
    var n := |p.b.shape|;
    var e := FromBack(dims, n);
    if e == [] then None
    else if e[|e| - 1] == -1 then
      if !Plain(p) then None
      else
        match PermuteTensor(p.b, e)
        case None => None
        case Some(b) => Some(Pair(p.a, b))
    else if n == 2 && |e| >= 2 && e[|e| - 1] == -2 && e[|e| - 2] == -1 then
      match (PermuteTensor(p.b, e), PermuteTensor(p.a, e))
      case (Some(a), Some(b)) => Some(Pair(a, b))
      case _ => None
    else None
  }

  lemma FromBackSame(dims: seq<int>, n: nat)
    requires TorchDims(dims, n).Some?
    ensures TorchDims(FromBack(dims, n), n) == TorchDims(dims, n)
  {
    var e := FromBack(dims, n);
    assert forall i :: 0 <= i < |e| ==> 0 <= e[i] + n && e[i] < n;
    assert TorchDims(e, n).value == TorchDims(dims, n).value;
  }

  /** The last dimension stays last, and the others stay before it. */
  predicate FixesLast(dims: seq<nat>, n: nat) {
    |dims| == n && n > 0 && AllBelow(dims, n) && dims[n - 1] == n - 1 && forall d :: 0 <= d < n - 1 ==> dims[d] < n - 1
  }

  /** A permutation that fixes the last dimension permutes the others among themselves, both ways. */
  lemma LastFixed(dims: seq<nat>, n: nat)
    requires n > 0 && IsPermutation(dims, n) && dims[n - 1] == n - 1
    ensures FixesLast(dims, n) && FixesLast(Inverse(dims, n), n)
  {
    var inv := Inverse(dims, n);
    assert inv[dims[n - 1]] == n - 1;
    forall d | 0 <= d < n - 1
      ensures inv[d] < n - 1 && dims[d] < n - 1
    {
      assert dims[inv[d]] == d;
    }
  }

  /** `b` is B with its dimensions permuted by `dims`, the last one staying last; `inv` undoes `dims`. */
  ghost predicate RowsPermuted(p: Pair, dims: seq<nat>, inv: seq<nat>, b: Tensor)
    requires ValidPair(p)
  {
    var n := |p.b.shape|;
    && Plain(p) && FixesLast(dims, n) && FixesLast(inv, n)
    && IsPermutation(dims, n) && inv == Inverse(dims, n)
    && Permute(p.b, dims) == Some(b) && Valid(b) && b.shape == Rearrange(p.b.shape, dims)
  }

  lemma PermutedPair(p: Pair, dims: seq<nat>, inv: seq<nat>, b: Tensor)
    requires ValidPair(p) && RowsPermuted(p, dims, inv, b)
    ensures SameFactors(p, Pair(p.a, b))
    ensures AllBelow(dims, |ShapeOf(p)|) && ShapeOf(Pair(p.a, b)) == Rearrange(ShapeOf(p), dims)
  {
    hide IsPermutation, Permute, Inverse, Size;
    var x, y := ShapeOf(Pair(p.a, b)), Rearrange(ShapeOf(p), dims);
    assert |x| == |y|;
    forall i | 0 <= i < |x|
      ensures x[i] == y[i]
    {
    }
  }

  lemma PermutedTerm(p: Pair, dims: seq<nat>, inv: seq<nat>, b: Tensor, ix: Index, jx: Index, q: nat)
    requires ValidPair(p) && RowsPermuted(p, dims, inv, b) && SameFactors(p, Pair(p.a, b))
    requires InBounds(ShapeOf(Pair(p.a, b)), ix) && InBounds(ShapeOf(p), jx) && |ix| == |p.b.shape|
             && jx == Rearrange(ix, inv)
    requires q < Rank(p)
    ensures Term(Pair(p.a, b), ix, q) == Term(p, jx, q)
  {
    hide IsPermutation, Permute, Inverse, Size, At;
    var n, p' := |dims|, Pair(p.a, b);
    TermInBounds(p', ix, q);
    TermInBounds(p, jx, q);
    var kx := ix[..n - 1] + [q];
    PermuteAt(p.b, dims, b, kx);
    RearrangedRow(ix, inv, q);
    LeadIsZero(p', ix);
    LeadIsZero(p, jx);
  }

  lemma RearrangedRow(ix: Index, inv: seq<nat>, q: nat)
    requires FixesLast(inv, |ix|)
    ensures Rearrange(ix[..|ix| - 1] + [q], inv) == Rearrange(ix, inv)[..|ix| - 1] + [q]
    ensures Rearrange(ix, inv)[|ix| - 1] == ix[|ix| - 1]
  {
    var n := |ix| - 1;
    var x, y := Rearrange(ix[..n] + [q], inv), Rearrange(ix, inv)[..n] + [q];
    forall i | 0 <= i < |x|
      ensures x[i] == y[i]
    {
      if i < n {
        assert (ix[..n] + [q])[inv[i]] == ix[inv[i]];
      }
    }
  }

  lemma PermutedEntry(p: Pair, dims: seq<nat>, inv: seq<nat>, b: Tensor, t: Tensor, ix: Index)
    requires ValidPair(p) && RowsPermuted(p, dims, inv, b) && Permute(Product(p), dims) == Some(t)
    requires Valid(t) && InBounds(t.shape, ix) && SameFactors(p, Pair(p.a, b)) && ShapeOf(Pair(p.a, b)) == t.shape
    ensures At(Product(Pair(p.a, b)), ix) == At(t, ix)
  {
    hide IsPermutation, Permute, Inverse, Size, At, Product, Sum, Term;
    PermuteAt(Product(p), dims, t, ix);
    var p', jx := Pair(p.a, b), Rearrange(ix, inv);
    ProductAt(p, jx);
    ProductAt(p', ix);
    forall q | 0 <= q < Rank(p)
      ensures Term(p', ix, q) == Term(p, jx, q)
    {
      PermutedTerm(p, dims, inv, b, ix, jx, q);
    }
    SameSums(p', ix, p, jx, Rank(p));
  }

  /** Permuting the rows of a plain pair permutes the rows of the product. */
  lemma PermuteRowsAgrees(p: Pair, dims: seq<nat>, inv: seq<nat>, b: Tensor)
    requires ValidPair(p) && RowsPermuted(p, dims, inv, b)
    ensures SameFactors(p, Pair(p.a, b)) && Permute(Product(p), dims) == Some(Product(Pair(p.a, b)))
  {
    PermutedPair(p, dims, inv, b);
    PermuteTogether(p, dims);
    hide IsPermutation, Inverse, Size, At, Product, Permute;
    var t := Permute(Product(p), dims).value;
    forall ix | InBounds(ShapeOf(Pair(p.a, b)), ix)
      ensures At(Product(Pair(p.a, b)), ix) == At(t, ix)
    {
      PermutedEntry(p, dims, inv, b, t, ix);
    }
    Extensional(Product(Pair(p.a, b)), t);
  }

  lemma PermuteTogether(p: Pair, d: seq<nat>)
    requires ValidPair(p)
    ensures Permute(p.b, d).Some? <==> IsPermutation(d, |p.b.shape|)
    ensures Permute(p.a, d).Some? <==> IsPermutation(d, |p.b.shape|)
    ensures Permute(Product(p), d).Some? <==> IsPermutation(d, |p.b.shape|)
    ensures IsPermutation(d, |p.b.shape|) ==>
              && |d| == |p.b.shape| && AllBelow(d, |d|)
              && Valid(Permute(p.b, d).value) && Permute(p.b, d).value.shape == Rearrange(p.b.shape, d)
              && Valid(Permute(Product(p), d).value) && Permute(Product(p), d).value.shape == Rearrange(ShapeOf(p), d)
  {
  }

  // ---------------------------------------------------------------- transpose

  predicate IsSwap(d: seq<nat>) {
    |d| == 2 && d[0] == 1 && d[1] == 0
  }

  lemma SwapInverse(d: seq<nat>)
    requires IsSwap(d)
    ensures IsPermutation(d, 2) && AllBelow(d, 2) && AllBelow(Inverse(d, 2), 2) && IsSwap(Inverse(d, 2))
  {
    var inv := Inverse(d, 2);
    assert inv[d[0]] == 0 && inv[d[1]] == 1;
  }

  lemma SwapShape(t: Tensor, d: seq<nat>, r: Tensor)
    requires Valid(t) && |t.shape| == 2 && IsSwap(d) && Permute(t, d) == Some(r)
    ensures Valid(r) && r.shape == [t.shape[1], t.shape[0]]
  {
    SwapInverse(d);
    assert Rearrange(t.shape, d) == [t.shape[1], t.shape[0]];
  }

  /** A transposed matrix, entry by entry. */
  lemma SwapAt(t: Tensor, d: seq<nat>, r: Tensor, i: nat, j: nat)
    requires Valid(t) && |t.shape| == 2 && IsSwap(d) && Permute(t, d) == Some(r)
    requires i < t.shape[1] && j < t.shape[0]
    ensures r.shape == [t.shape[1], t.shape[0]]
    ensures Valid(r) && InBounds(r.shape, [i, j]) && InBounds(t.shape, [j, i]) && At(r, [i, j]) == At(t, [j, i])
  {
    SwapInverse(d);
    SwapShape(t, d, r);
    hide IsPermutation, Permute, Inverse, Size, At;
    PermuteAt(t, d, r, [i, j]);
    assert Rearrange([i, j], Inverse(d, 2)) == [j, i];
  }

  /** `a` and `b` are the transposed factors of a matrix pair. */
  ghost predicate Swapped(p: Pair, d: seq<nat>, a: Tensor, b: Tensor)
    requires ValidPair(p)
  {
    && |p.b.shape| == 2 && IsSwap(d) && Permute(p.b, d) == Some(a) && Permute(p.a, d) == Some(b)
    && Valid(a) && a.shape == [p.b.shape[1], p.b.shape[0]] && Valid(b) && b.shape == [p.a.shape[1], p.a.shape[0]]
  }

  /** A term of a matrix product. */
  lemma MatrixTerm(p: Pair, i: nat, j: nat, q: nat)
    requires ValidPair(p) && |p.b.shape| == 2 && i < p.b.shape[0] && j < RowSize(p) && q < Rank(p)
    ensures InBounds(ShapeOf(p), [i, j]) && InBounds(p.b.shape, [i, q]) && InBounds(p.a.shape, [q, j])
    ensures Term(p, [i, j], q) == At(p.b, [i, q]) * At(p.a, [q, j])
  {
    hide At, Size;
    assert [i, j][..1] + [q] == [i, q] && LeadIndex(p, [i, j]) + [q, j] == [q, j];
  }

  lemma SwappedTerm(p: Pair, d: seq<nat>, a: Tensor, b: Tensor, i: nat, j: nat, q: nat)
    requires ValidPair(p) && Swapped(p, d, a, b) && i < RowSize(p) && j < p.b.shape[0] && q < Rank(p)
    ensures ValidPair(Pair(a, b)) && InBounds(ShapeOf(Pair(a, b)), [i, j]) && InBounds(ShapeOf(p), [j, i])
    ensures Rank(Pair(a, b)) == Rank(p) && Term(Pair(a, b), [i, j], q) == Term(p, [j, i], q)
  {
    hide Permute, At, Size, Term;
    MatrixTerm(Pair(a, b), i, j, q);
    MatrixTerm(p, j, i, q);
    SwapAt(p.a, d, b, i, q);
    SwapAt(p.b, d, a, q, j);
  }

  lemma SwappedEntry(p: Pair, d: seq<nat>, a: Tensor, b: Tensor, t: Tensor, i: nat, j: nat)
    requires ValidPair(p) && Swapped(p, d, a, b) && i < RowSize(p) && j < p.b.shape[0]
             && Permute(Product(p), d) == Some(t)
    ensures ValidPair(Pair(a, b)) && InBounds(ShapeOf(Pair(a, b)), [i, j]) && Valid(t) && InBounds(t.shape, [i, j])
    ensures At(Product(Pair(a, b)), [i, j]) == At(t, [i, j])
  {
    hide Permute, At, Size, Term, Product, Sum;
    var p' := Pair(a, b);
    SwapAt(Product(p), d, t, i, j);
    ProductAt(p, [j, i]);
    ProductAt(p', [i, j]);
    forall q | 0 <= q < Rank(p)
      ensures Term(p', [i, j], q) == Term(p, [j, i], q)
    {
      SwappedTerm(p, d, a, b, i, j, q);
    }
    SameSums(p', [i, j], p, [j, i], Rank(p));
  }

  /** The transpose of a matrix pair: the factors trade places, transposed. */
  lemma TransposeAgrees(p: Pair, d: seq<nat>, a: Tensor, b: Tensor)
    requires ValidPair(p) && Swapped(p, d, a, b)
    ensures ValidPair(Pair(a, b)) && Permute(Product(p), d) == Some(Product(Pair(a, b)))
  {
    hide Permute, At, Size, Product, IsPermutation;
    SwapInverse(d);
    PermuteTogether(p, d);
    SwappedShape(p, d, a, b);
    hide Swapped, ValidPair;
    var p', t := Pair(a, b), Permute(Product(p), d).value;
    SwapShape(Product(p), d, t);
    forall ix | InBounds(t.shape, ix)
      ensures At(Product(p'), ix) == At(t, ix)
    {
      assert ix == [ix[0], ix[1]];
      SwappedEntry(p, d, a, b, t, ix[0], ix[1]);
    }
    Extensional(Product(p'), t);
  }

  lemma SwappedShape(p: Pair, d: seq<nat>, a: Tensor, b: Tensor)
    requires ValidPair(p) && Swapped(p, d, a, b)
    ensures ValidPair(Pair(a, b)) && ShapeOf(p) == [p.b.shape[0], RowSize(p)] && |p.b.shape| == 2
    ensures ShapeOf(Pair(a, b)) == [RowSize(p), p.b.shape[0]]
  {
    hide Permute, Size;
  }

  /** The dimensions, counted from the back, that a pair supports: the last one stays, or a matrix is transposed. */
  predicate Supported(e: seq<int>, n: nat) {
    e != [] && (e[|e| - 1] == -1 || (n == 2 && e == [-1, -2]))
  }

  /**
   LoraTorchTensor.permute against the product, for all dimensions: it succeeds exactly when torch
   takes them counted from the back, the last one stays last or a matrix is transposed, and A has
   no leading dimensions to speak of; and it permutes the product.
   */
  lemma PermutePairAgrees(p: Pair, dims: seq<int>)
    requires ValidPair(p)
    ensures var n := |p.b.shape|;
            var r, t, e := PermutePair(p, dims), PermuteTensor(Product(p), FromBack(dims, n)), FromBack(dims, n);
            && (r.Some? <==> t.Some? && Supported(e, n) && Plain(p))
            && (r.Some? ==> ValidPair(r.value) && Product(r.value) == t.value)
            && (r.Some? && e[|e| - 1] == -1 ==> SameFactors(p, r.value))
  {
    hide *;
    var n, e := |p.b.shape|, FromBack(dims, |p.b.shape|);
    TorchPermutes(p, e);
    if TorchDims(e, n).Some? && IsPermutation(TorchDims(e, n).value, n) && Supported(e, n) && Plain(p) {
      var d := TorchDims(e, n).value;
      PermutePairIs(p, dims, d);
      PermutedFactors(p, e, d);
    } else {
      PermutePairRaises(p, dims);
    }
  }

  lemma TorchPermutes(p: Pair, e: seq<int>)
    requires ValidPair(p)
    ensures var n := |p.b.shape|;
            PermuteTensor(Product(p), e) ==
            if TorchDims(e, n).Some? && IsPermutation(TorchDims(e, n).value, n)
                then Permute(Product(p), TorchDims(e, n).value)
            else None
  {
    hide Permute, Size, IsPermutation, TorchDims;
    assert |Product(p).shape| == |p.b.shape|;
    hide Product;
    PermuteTensorIs(Product(p), e);
  }

  lemma PermutedFactors(p: Pair, e: seq<int>, d: seq<nat>)
    requires ValidPair(p) && Plain(p) && Supported(e, |p.b.shape|)
    requires TorchDims(e, |p.b.shape|) == Some(d) && IsPermutation(d, |p.b.shape|)
    ensures Permute(p.b, d).Some? && Permute(p.a, d).Some? && Permute(Product(p), d).Some?
    ensures var last := e[|e| - 1] == -1;
            var r := if last then Pair(p.a, Permute(p.b, d).value)
                else Pair(Permute(p.b, d).value, Permute(p.a, d).value);
            && ValidPair(r) && Product(r) == Permute(Product(p), d).value
            && (last ==> SameFactors(p, r))
  {
    hide Product, Permute, Size, SameFactors, IsPermutation, TorchDims, Inverse;
    var n := |p.b.shape|;
    PermuteTogether(p, d);
    FromBackLast(e, n);
    if e[|e| - 1] == -1 {
      LastFixed(d, n);
      PermuteRowsAgrees(p, d, Inverse(d, n), Permute(p.b, d).value);
      SameFactorsValid(p, Pair(p.a, Permute(p.b, d).value));
    } else {
      SwapShape(p.a, d, Permute(p.a, d).value);
      SwapShape(p.b, d, Permute(p.b, d).value);
      TransposeAgrees(p, d, Permute(p.b, d).value, Permute(p.a, d).value);
    }
  }

  lemma SameFactorsValid(p: Pair, r: Pair)
    requires ValidPair(p) && SameFactors(p, r)
    ensures ValidPair(r)
  {
  }

  /** torch itself takes the dimensions as they are exactly when no one counts past the last. */
  lemma TorchTakesFewer(t: Tensor, dims: seq<int>)
    requires Valid(t)
    ensures var n, e := |t.shape|, FromBack(dims, |t.shape|);
            && (TorchDims(dims, n).Some? <==> TorchDims(e, n).Some? && forall i :: 0 <= i < |dims| ==> dims[i] < n)
            && (TorchDims(dims, n).Some? ==> PermuteTensor(t, dims) == PermuteTensor(t, e))
  {
    var n, e := |t.shape|, FromBack(dims, |t.shape|);
    if TorchDims(dims, n).Some? {
      FromBackSame(dims, n);
    }
    if TorchDims(e, n).Some? && forall i :: 0 <= i < |dims| ==> dims[i] < n {
      assert forall i :: 0 <= i < |dims| ==> 0 <= e[i] + n;
    }
  }

  lemma PermuteTensorIs(t: Tensor, e: seq<int>)
    requires Valid(t)
    ensures PermuteTensor(t, e) == if TorchDims(e, |t.shape|).None? then None
            else Permute(t, TorchDims(e, |t.shape|).value)
  {
  }

  /** Which branch is taken, in terms of the dimensions counted from the back. */
  lemma PermutePairIs(p: Pair, dims: seq<int>, d: seq<nat>)
    requires ValidPair(p) && Plain(p) && Supported(FromBack(dims, |p.b.shape|), |p.b.shape|)
    requires TorchDims(FromBack(dims, |p.b.shape|), |p.b.shape|) == Some(d) && IsPermutation(d, |p.b.shape|)
    ensures var e := FromBack(dims, |p.b.shape|);
            PermutePair(p, dims) ==
            if e[|e| - 1] == -1 then Some(Pair(p.a, Permute(p.b, d).value))
            else Some(Pair(Permute(p.b, d).value, Permute(p.a, d).value))
  {
    hide TorchDims, FromBack, IsPermutation, Permute, PermuteTensor, Size;
    var e := FromBack(dims, |p.b.shape|);
    PermuteTogether(p, d);
    PermuteTensorIs(p.a, e);
    PermuteTensorIs(p.b, e);
    assert p.a.shape != [] && |p.a.shape| == |p.b.shape|;
    hide ValidPair;
  }

  lemma PermutePairRaises(p: Pair, dims: seq<int>)
    requires ValidPair(p)
    requires var n, e := |p.b.shape|, FromBack(dims, |p.b.shape|);
             !(TorchDims(e, n).Some? && IsPermutation(TorchDims(e, n).value, n)) || !Supported(e, n) || !Plain(p)
    ensures PermutePair(p, dims).None?
  {
    hide TorchDims, FromBack, Permute, PermuteTensor, Size, IsPermutation;
    var n, e := |p.b.shape|, FromBack(dims, |p.b.shape|);
    PermuteTensorIs(p.a, e);
    PermuteTensorIs(p.b, e);
    MatrixOrNot(p);
    if TorchDims(e, n).Some? {
      PermuteTogether(p, TorchDims(e, n).value);
      LengthOfDims(e, n);
    }
    hide ValidPair;
    if |e| == 2 {
      assert e == [e[0], e[1]];
    }
  }

  lemma LengthOfDims(e: seq<int>, n: nat)
    requires TorchDims(e, n).Some?
    ensures IsPermutation(TorchDims(e, n).value, n) ==> |e| == n
  {
  }

  lemma MatrixOrNot(p: Pair)
    requires ValidPair(p)
    ensures |p.a.shape| == |p.b.shape| >= 2 && (|p.b.shape| == 2 ==> Plain(p))
  {
  }

  /** What the counted-back dimensions say about the last two. */
  lemma FromBackLast(e: seq<int>, n: nat)
    requires TorchDims(e, n).Some?
    ensures var d := TorchDims(e, n).value;
            && |e| == |d|
            && (e != [] && e[|e| - 1] == -1 ==> d[|d| - 1] == n - 1)
            && (n == 2 && e == [-1, -2] ==> IsSwap(d))
  {
  }
}
