/**
 Low-rank tensors (convert_lora_to_gguf.py, LoraTorchTensor): a pair (A, B) stands for the product
 B·A, and every operation on the pair must agree with the same operation on the product.
 */
module Lora {
  import opened Wrappers
  import opened Tensors

  datatype Pair = Pair(a: Tensor, b: Tensor)

  /** A constructed pair: as many dimensions each, and ranks that match; leading dimensions broadcast. */
  predicate ValidPair(p: Pair) {
    var n := |p.b.shape|;
    && Valid(p.a) && Valid(p.b)
    && n >= 2 && |p.a.shape| == n
    && p.a.shape[n - 2] == p.b.shape[n - 1]
    && forall d :: 0 <= d < n - 2 ==> p.a.shape[d] == 1 || p.a.shape[d] == p.b.shape[d]
  }

  function Rank(p: Pair): nat
    requires ValidPair(p)
  {
    p.b.shape[|p.b.shape| - 1]
  }

  /** The length of a row of the product. */
  function RowSize(p: Pair): nat
    requires ValidPair(p)
  {
    p.a.shape[|p.a.shape| - 1]
  }

  /** All dimensions of B but the rank: they number the rows of the product. */
  function RowShape(p: Pair): Shape
    requires ValidPair(p)
  {
    p.b.shape[..|p.b.shape| - 1]
  }

  function ShapeOf(p: Pair): Shape
    requires ValidPair(p)
  {
    RowShape(p) + [RowSize(p)]
  }

  /** The index into A's leading dimensions; those of length one repeat. */
  function LeadIndex(p: Pair, ix: Index): Index
    requires ValidPair(p) && |ix| == |p.b.shape|
  {
    seq(|ix| - 2, d requires 0 <= d < |ix| - 2 => if p.a.shape[d] == 1 then 0 else ix[d])
  }

  lemma TermInBounds(p: Pair, ix: Index, q: nat)
    requires ValidPair(p) && InBounds(ShapeOf(p), ix) && q < Rank(p)
    ensures InBounds(p.b.shape, ix[..|ix| - 1] + [q])
    ensures InBounds(p.a.shape, LeadIndex(p, ix) + [q, ix[|ix| - 1]])
  {
    var n := |ix|;
    var jx := LeadIndex(p, ix) + [q, ix[n - 1]];
    assert |jx| == n && jx[n - 2] == q && jx[n - 1] == ix[n - 1];
    forall d | 0 <= d < n
      ensures jx[d] < p.a.shape[d]
    {
      if d < n - 2 {
        assert ix[d] < ShapeOf(p)[d] == p.b.shape[d];
      }
    }
  }

  function Term(p: Pair, ix: Index, q: nat): int
    requires ValidPair(p) && InBounds(ShapeOf(p), ix) && q < Rank(p)
  {
    TermInBounds(p, ix, q);
    At(p.b, ix[..|ix| - 1] + [q]) * At(p.a, LeadIndex(p, ix) + [q, ix[|ix| - 1]])
  }

  /** The sum of the first `k` terms of an element of the product. */
  function Sum(p: Pair, ix: Index, k: nat): int
    requires ValidPair(p) && InBounds(ShapeOf(p), ix) && k <= Rank(p)
  {
    if k == 0 then 0 else Sum(p, ix, k - 1) + Term(p, ix, k - 1)
  }

  /** What the pair stands for. */
  function Product(p: Pair): (t: Tensor)
    requires ValidPair(p)
    ensures Valid(t) && t.shape == ShapeOf(p)
  {
    Build(ShapeOf(p), ix requires InBounds(ShapeOf(p), ix) => Sum(p, ix, Rank(p)))
  }

  lemma ProductAt(p: Pair, ix: Index)
    requires ValidPair(p) && InBounds(ShapeOf(p), ix)
    ensures At(Product(p), ix) == Sum(p, ix, Rank(p))
  {
    BuildAt(ShapeOf(p), jx requires InBounds(ShapeOf(p), jx) => Sum(p, jx, Rank(p)), ix);
  }

  lemma {:induction false} SameSums(p: Pair, ix: Index, p': Pair, ix': Index, k: nat)
    requires ValidPair(p) && InBounds(ShapeOf(p), ix) && ValidPair(p') && InBounds(ShapeOf(p'), ix')
    requires k <= Rank(p) == Rank(p')
    requires forall q :: 0 <= q < Rank(p) ==> Term(p, ix, q) == Term(p', ix', q)
    ensures Sum(p, ix, k) == Sum(p', ix', k)
  {
    if k > 0 {
      SameSums(p, ix, p', ix', k - 1);
    }
  }

  // ---------------------------------------------------------------- pairs whose A has no leading dimensions

  /** A is a matrix, up to leading dimensions of length one. */
  predicate Plain(p: Pair)
    requires ValidPair(p)
  {
    forall d :: 0 <= d < |p.a.shape| - 2 ==> p.a.shape[d] == 1
  }

  /** In a plain pair A's leading index is zero throughout. */
  lemma LeadIsZero(p: Pair, ix: Index)
    requires ValidPair(p) && Plain(p) && |ix| == |p.b.shape|
    ensures LeadIndex(p, ix) == seq(|ix| - 2, _ => 0)
  {
  }

  function Ones(n: nat): (s: Shape)
    ensures |s| == n && forall d :: 0 <= d < n ==> s[d] == 1
  {
    seq(n, _ => 1)
  }

  lemma {:induction false} OnesRavel(shape: Shape, ix: Index)
    requires InBounds(shape, ix) && forall d :: 0 <= d < |shape| ==> shape[d] == 1
    ensures Ravel(shape, ix) == 0 && Size(shape) == 1
  {
    if shape != [] {
      var n := |shape| - 1;
      OnesRavel(shape[..n], ix[..n]);
    }
  }

  lemma {:induction false} OnesSize(shape: Shape)
    requires forall d :: 0 <= d < |shape| ==> shape[d] == 1
    ensures Size(shape) == 1
  {
    if shape != [] {
      OnesSize(shape[..|shape| - 1]);
    }
  }

  /** The product of two entries, by position in the two buffers. */
  function FlatTerm(a: seq<int>, b: seq<int>, rank: nat, cols: nat, row: nat, col: nat, q: nat): int
    requires row * rank + q < |b| && q * cols + col < |a|
  {
    b[row * rank + q] * a[q * cols + col]
  }

  lemma MatrixSplit(shape: Shape)
    requires |shape| >= 2
    ensures Size(shape) == Size(shape[..|shape| - 2]) * shape[|shape| - 2] * shape[|shape| - 1]
  {
    var n := |shape|;
    var init := shape[..n - 1];
    SizeInit(shape);
    SizeInit(init);
    assert init[..n - 2] == shape[..n - 2] && init[n - 2] == shape[n - 2];
    hide Size;
  }

  lemma ShapeSplit(shape: Shape)
    requires |shape| >= 2
    ensures shape == shape[..|shape| - 2] + [shape[|shape| - 2]] + [shape[|shape| - 1]]
  {
  }

  lemma SizeInit(shape: Shape)
    requires shape != []
    ensures Size(shape) == Size(shape[..|shape| - 1]) * shape[|shape| - 1]
  {
  }

  /** An entry of a plain A, by position. */
  lemma PlainAt(p: Pair, ix: Index, q: nat)
    requires ValidPair(p) && Plain(p) && InBounds(ShapeOf(p), ix) && q < Rank(p)
    ensures var col := ix[|ix| - 1];
            q * RowSize(p) + col < |p.a.data|
            && InBounds(p.a.shape, LeadIndex(p, ix) + [q, col])
            && At(p.a, LeadIndex(p, ix) + [q, col]) == p.a.data[q * RowSize(p) + col]
  {
    var n, col, lead := |ix|, ix[|ix| - 1], LeadIndex(p, ix);
    TermInBounds(p, ix, q);
    var s := p.a.shape;
    ShapeSplit(s);
    assert InBounds(s[..n - 2], lead);
    OnesRavel(s[..n - 2], lead);
    RavelSnoc(s[..n - 2], lead, s[n - 2], q);
    RavelSnoc(s[..n - 2] + [s[n - 2]], lead + [q], s[n - 1], col);
    assert lead + [q] + [col] == lead + [q, col];
    RavelFits(s, lead + [q, col]);
  }

  /** An entry of B, by position. */
  lemma RowAt(p: Pair, ix: Index, q: nat)
    requires ValidPair(p) && InBounds(ShapeOf(p), ix) && q < Rank(p)
    ensures var row := Ravel(RowShape(p), ix[..|ix| - 1]);
            row * Rank(p) + q < |p.b.data|
            && InBounds(p.b.shape, ix[..|ix| - 1] + [q])
            && At(p.b, ix[..|ix| - 1] + [q]) == p.b.data[row * Rank(p) + q]
  {
    TermInBounds(p, ix, q);
    var jx := ix[..|ix| - 1];
    RavelSnoc(RowShape(p), jx, Rank(p), q);
    assert p.b.shape == RowShape(p) + [Rank(p)];
    RavelFits(p.b.shape, jx + [q]);
  }

  lemma TermIsFlat(p: Pair, ix: Index, q: nat)
    requires ValidPair(p) && Plain(p) && InBounds(ShapeOf(p), ix) && q < Rank(p)
    ensures var row, col := Ravel(RowShape(p), ix[..|ix| - 1]), ix[|ix| - 1];
            && row * Rank(p) + q < |p.b.data| && q * RowSize(p) + col < |p.a.data|
            && Term(p, ix, q) == FlatTerm(p.a.data, p.b.data, Rank(p), RowSize(p), row, col, q)
  {
    hide At, Ravel, LeadIndex;
    PlainAt(p, ix, q);
    RowAt(p, ix, q);
  }

  /** Elements of two plain pairs agree when they are at the same row and column of the same buffers. */
  lemma SameEntry(p: Pair, ix: Index, p': Pair, ix': Index)
    requires ValidPair(p) && Plain(p) && ValidPair(p') && Plain(p')
    requires InBounds(ShapeOf(p), ix) && InBounds(ShapeOf(p'), ix')
    requires p.a.data == p'.a.data && p.b.data == p'.b.data && Rank(p) == Rank(p') && RowSize(p) == RowSize(p')
    requires Ravel(RowShape(p), ix[..|ix| - 1]) == Ravel(RowShape(p'), ix'[..|ix'| - 1])
    requires ix[|ix| - 1] == ix'[|ix'| - 1]
    ensures Sum(p, ix, Rank(p)) == Sum(p', ix', Rank(p'))
  {
    hide Term, Ravel, FlatTerm;
    forall q | 0 <= q < Rank(p)
      ensures Term(p, ix, q) == Term(p', ix', q)
    {
      TermIsFlat(p, ix, q);
      TermIsFlat(p', ix', q);
    }
    SameSums(p, ix, p', ix', Rank(p));
  }

  // ---------------------------------------------------------------- reshape

  /** The new shape with -1 filled in; None where the program raises. */
  function Expand(shape: Shape, newShape: seq<int>): Option<seq<int>> {
    if -1 !in newShape then Some(newShape)
    else
      var known := KnownSize(newShape);
      if known == 0 || Size(shape) % (if known < 0 then -known else known) != 0 then None
      else Some(seq(|newShape|, i requires 0 <= i < |newShape| =>
                      if newShape[i] == -1 then FloorDiv(Size(shape), known) else newShape[i]))
  }

  function KnownSize(newShape: seq<int>): int {
    if newShape == [] then 1
    else KnownSize(newShape[1..]) * (if newShape[0] == -1 then 1 else newShape[0])
  }

  /** Python's division of a multiple. */
  function FloorDiv(a: int, b: int): int
    requires b != 0
  {
    if b > 0 then a / b else -(a / -b)
  }

  predicate AllNats(s: seq<int>) {
    forall i :: 0 <= i < |s| ==> s[i] >= 0
  }

  function AsShape(s: seq<int>): (r: Shape)
    requires AllNats(s)
    ensures |r| == |s| && forall i :: 0 <= i < |s| ==> r[i] == s[i]
  {
    seq(|s|, i requires 0 <= i < |s| => s[i] as nat)
  }

  /** At most one dimension is left to infer: torch refuses more. */
  predicate OneInferred(newShape: seq<int>) {
    forall i, j :: 0 <= i < j < |newShape| ==> newShape[i] != -1 || newShape[j] != -1
  }

  /** What torch does with such a shape. */
  function ReshapeTensor(t: Tensor, newShape: seq<int>): (r: Option<Tensor>)
    requires Valid(t)
    ensures r.Some? ==> Valid(r.value)
  {
    if !OneInferred(newShape) then None
    else match Expand(t.shape, newShape)
      case None => None
      case Some(s) => if AllNats(s) then Reshape(t, AsShape(s)) else None
  }

  /** LoraTorchTensor.reshape; None where it raises. */
  function ReshapePair(p: Pair, newShape: seq<int>): Option<Pair>
    requires ValidPair(p)
  {
    if |newShape| < 2 then None
    else
      match Expand(ShapeOf(p), newShape)
      case None => None
      case Some(s) => if s[|s| - 1] != RowSize(p) || !AllNats(s) then None else ReshapeFactors(p, AsShape(s))
  }

  function ReshapeFactors(p: Pair, shape: Shape): Option<Pair>
    requires ValidPair(p) && |shape| >= 2
  {
    var n := |shape|;
    var a := Reshape(p.a, Ones(n - 2) + [Rank(p), RowSize(p)]);
    var b := Reshape(p.b, shape[..n - 1] + [Rank(p)]);
    if a.Some? && b.Some? then Some(Pair(a.value, b.value)) else None
  }

  lemma MulCancel(x: nat, y: nat, d: nat)
    requires d > 0 && x * d == y * d
    ensures x == y
  {
    MulOrder(x, y, d, 0);
    MulOrder(y, x, d, 0);
  }

  lemma PlainSize(p: Pair)
    requires ValidPair(p)
    ensures Size(p.a.shape) == Size(p.a.shape[..|p.a.shape| - 2]) * Rank(p) * RowSize(p)
    ensures Plain(p) ==> Size(p.a.shape) == Rank(p) * RowSize(p)
    ensures Size(p.b.shape) == Size(RowShape(p)) * Rank(p)
    ensures Size(ShapeOf(p)) == Size(RowShape(p)) * RowSize(p)
  {
    var n := |p.b.shape|;
    MatrixSplit(p.a.shape);
    RavelSnoc(RowShape(p), RowShape(p), Rank(p), 0);
    RavelSnoc(RowShape(p), RowShape(p), RowSize(p), 0);
    assert p.b.shape == RowShape(p) + [Rank(p)];
    if Plain(p) {
      OnesSize(p.a.shape[..n - 2]);
    }
  }

  /** Reshaping a plain pair to `shape` works on its two buffers as it does on the product. */
  lemma ReshapedPair(p: Pair, shape: Shape)
    requires ValidPair(p) && Plain(p) && Rank(p) > 0 && RowSize(p) > 0
    requires |shape| >= 2 && shape[|shape| - 1] == RowSize(p) && Size(shape) == Size(ShapeOf(p))
    ensures var n := |shape|;
            var a, b := Ones(n - 2) + [Rank(p), RowSize(p)], shape[..n - 1] + [Rank(p)];
            Size(a) == Size(p.a.shape) && Size(b) == Size(p.b.shape)
    ensures var n := |shape|;
            var p' := Pair(Tensor(Ones(n - 2) + [Rank(p), RowSize(p)], p.a.data),
                           Tensor(shape[..n - 1] + [Rank(p)], p.b.data));
            ValidPair(p') && Plain(p') && Rank(p') == Rank(p) && RowSize(p') == RowSize(p) && ShapeOf(p') == shape
  {
    var n := |shape|;
    var a, b := Ones(n - 2) + [Rank(p), RowSize(p)], shape[..n - 1] + [Rank(p)];
    PlainSize(p);
    MatrixSplit(a);
    assert a[..n - 2] == Ones(n - 2);
    OnesSize(Ones(n - 2));
    SizeSnoc(shape[..n - 1], Rank(p));
    SizeSnoc(shape[..n - 1], RowSize(p));
    assert shape == shape[..n - 1] + [RowSize(p)];
    MulCancel(Size(shape[..n - 1]), Size(RowShape(p)), RowSize(p));
  }

  /** When the product cannot be reshaped, neither can B. */
  lemma ReshapeFails(p: Pair, shape: Shape)
    requires ValidPair(p) && Rank(p) > 0 && |shape| >= 2 && shape[|shape| - 1] == RowSize(p)
    requires Size(shape) != Size(ShapeOf(p))
    ensures Size(shape[..|shape| - 1] + [Rank(p)]) != Size(p.b.shape)
  {
    hide Size, ValidPair;
    var n := |shape|;
    PlainSize(p);
    SizeSnoc(shape[..n - 1], Rank(p));
    SizeSnoc(shape[..n - 1], RowSize(p));
    assert shape == shape[..n - 1] + [RowSize(p)];
    if Size(shape[..n - 1]) * Rank(p) == Size(RowShape(p)) * Rank(p) {
      MulCancel(Size(shape[..n - 1]), Size(RowShape(p)), Rank(p));
    }
  }

  /** Reshaping the pair reshapes the product. */
  lemma ReshapeAgrees(p: Pair, shape: Shape, p': Pair)
    requires ValidPair(p) && Plain(p) && ValidPair(p') && Plain(p')
    requires p.a.data == p'.a.data && p.b.data == p'.b.data && Rank(p) == Rank(p') && RowSize(p) == RowSize(p')
    requires ShapeOf(p') == shape && Size(shape) == Size(ShapeOf(p))
    ensures Product(p') == Tensor(shape, Product(p).data)
  {
    var t := Tensor(shape, Product(p).data);
    forall ix | InBounds(shape, ix)
      ensures At(Product(p'), ix) == At(t, ix)
    {
      EntryAgrees(p, p', ix);
    }
    Extensional(Product(p'), t);
  }

  lemma EntryAgrees(p: Pair, p': Pair, ix: Index)
    requires ValidPair(p) && Plain(p) && ValidPair(p') && Plain(p')
    requires p.a.data == p'.a.data && p.b.data == p'.b.data && Rank(p) == Rank(p') && RowSize(p) == RowSize(p')
    requires Size(ShapeOf(p')) == Size(ShapeOf(p)) && InBounds(ShapeOf(p'), ix)
    ensures At(Product(p'), ix) == At(Tensor(ShapeOf(p'), Product(p).data), ix)
  {
    var k := Ravel(ShapeOf(p'), ix);
    RavelFits(ShapeOf(p'), ix);
    var jx := Unravel(ShapeOf(p), k);
    UnravelInBounds(ShapeOf(p), k);
    RavelUnravel(ShapeOf(p), k);
    assert At(Product(p), jx) == Product(p).data[k];
    ProductAt(p, jx);
    ProductAt(p', ix);
    RowAndColumn(p, jx);
    RowAndColumn(p', ix);
    SameEntry(p, jx, p', ix);
  }

  /** Row and column are quotient and remainder of the position. */
  lemma RowAndColumn(p: Pair, ix: Index)
    requires ValidPair(p) && InBounds(ShapeOf(p), ix)
    ensures RowSize(p) > 0
    ensures Ravel(RowShape(p), ix[..|ix| - 1]) == Ravel(ShapeOf(p), ix) / RowSize(p)
    ensures ix[|ix| - 1] == Ravel(ShapeOf(p), ix) % RowSize(p)
  {
    var n := |ix| - 1;
    assert ix[n] < ShapeOf(p)[n];
    RavelSnoc(RowShape(p), ix[..n], RowSize(p), ix[n]);
    assert ix == ix[..n] + [ix[n]];
    DivMod(Ravel(RowShape(p), ix[..n]), RowSize(p), ix[n]);
  }

  /** Reshaping to a shape with the same row size. */
  lemma FactorsAgree(p: Pair, shape: Shape)
    requires ValidPair(p) && Plain(p) && Rank(p) > 0 && RowSize(p) > 0
    requires |shape| >= 2 && shape[|shape| - 1] == RowSize(p)
    ensures var r, t := ReshapeFactors(p, shape), Reshape(Product(p), shape);
            && (r.Some? <==> t.Some?)
            && (r.Some? ==> SameFactors(p, r.value) && Product(r.value) == t.value)
  {
    hide Product, Size;
    if Size(shape) == Size(ShapeOf(p)) {
      var n := |shape|;
      ReshapedPair(p, shape);
      var p' := Pair(Tensor(Ones(n - 2) + [Rank(p), RowSize(p)], p.a.data),
                     Tensor(shape[..n - 1] + [Rank(p)], p.b.data));
      ReshapeAgrees(p, shape, p');
    } else {
      ReshapeFails(p, shape);
    }
  }

  /** A plain pair with the same rank and row size, and the same A up to its shape. */
  predicate SameFactors(p: Pair, r: Pair)
    requires ValidPair(p)
  {
    ValidPair(r) && Plain(r) && Rank(r) == Rank(p) && RowSize(r) == RowSize(p) && r.a.data == p.a.data
  }

  /**
   LoraTorchTensor.reshape against the product: on a plain pair it raises exactly when torch does,
   or the row size would change, or the result would be a vector; else it reshapes the product.
   */
  lemma ReshapePairAgrees(p: Pair, newShape: seq<int>)
    requires ValidPair(p) && Plain(p) && Rank(p) > 0 && RowSize(p) > 0 && OneInferred(newShape)
    ensures var r, t := ReshapePair(p, newShape), ReshapeTensor(Product(p), newShape);
            && (r.Some? <==> t.Some? && |newShape| >= 2 && t.value.shape[|newShape| - 1] == RowSize(p))
            && (r.Some? ==> SameFactors(p, r.value) && Product(r.value) == t.value)
  {
    hide Product, ReshapeFactors, SameFactors, OneInferred;
    ExpandLength(ShapeOf(p), newShape);
    var e := Expand(ShapeOf(p), newShape);
    hide Expand;
    if |newShape| >= 2 && e.Some? && AllNats(e.value) && e.value[|newShape| - 1] == RowSize(p) {
      FactorsAgree(p, AsShape(e.value));
    }
  }

  lemma ExpandLength(shape: Shape, newShape: seq<int>)
    ensures Expand(shape, newShape).Some? ==> |Expand(shape, newShape).value| == |newShape|
  {
  }
}
