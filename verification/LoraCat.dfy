/**
 Concatenation and stacking of low-rank tensors along the first dimension
 (convert_lora_to_gguf.py), against the same operations on the products.
 */
module LoraCat {
  import opened Wrappers
  import opened Tensors
  import opened Lora
  import opened TensorRows

  function Flatten(parts: seq<seq<int>>): (r: seq<int>) {
    if parts == [] then [] else Flatten(parts[..|parts| - 1]) + parts[|parts| - 1]
  }

  // ---------------------------------------------------------------- torch.cat and torch.stack

  predicate AllValid(ts: seq<Tensor>) {
    forall i :: 0 <= i < |ts| ==> Valid(ts[i])
  }

  function Datas(ts: seq<Tensor>): (r: seq<seq<int>>)
    ensures |r| == |ts| && forall i :: 0 <= i < |r| ==> r[i] == ts[i].data
  {
    seq(|ts|, i requires 0 <= i < |ts| => ts[i].data)
  }

  /** Tensors that differ in the first dimension only. */
  predicate CatFits(ts: seq<Tensor>) {
    && ts != []
    && (forall i :: 0 <= i < |ts| ==> |ts[i].shape| > 0)
    && (forall i :: 0 <= i < |ts| ==> ts[i].shape[1..] == ts[0].shape[1..])
  }

  function Rows(ts: seq<Tensor>): nat
    requires forall i :: 0 <= i < |ts| ==> |ts[i].shape| > 0
  {
    if ts == [] then 0 else Rows(ts[..|ts| - 1]) + ts[|ts| - 1].shape[0]
  }

  lemma {:induction false} CatSize(ts: seq<Tensor>, tail: Shape)
    requires AllValid(ts) && forall i :: 0 <= i < |ts| ==> |ts[i].shape| > 0 && ts[i].shape[1..] == tail
    ensures |Flatten(Datas(ts))| == Rows(ts) * Size(tail) == Size([Rows(ts)] + tail)
  {
    SizeCons(Rows(ts), tail);
    hide Size;
    if ts != [] {
      var init, last := ts[..|ts| - 1], ts[|ts| - 1];
      CatSize(init, tail);
      assert Datas(ts)[..|ts| - 1] == Datas(init);
      SizeCons(last.shape[0], tail);
      assert last.shape == [last.shape[0]] + tail;
      Distributes(Rows(init), last.shape[0], Size(tail));
    }
  }

  /** torch.cat along the first dimension. */
  function Cat(ts: seq<Tensor>): (r: Option<Tensor>)
    requires AllValid(ts)
    ensures r.Some? <==> CatFits(ts)
    ensures r.Some? ==> Valid(r.value)
  {
    if !CatFits(ts) then None
    else
      CatSize(ts, ts[0].shape[1..]);
      Some(Tensor([Rows(ts)] + ts[0].shape[1..], Flatten(Datas(ts))))
  }

  predicate StackFits(ts: seq<Tensor>) {
    ts != [] && forall i :: 0 <= i < |ts| ==> ts[i].shape == ts[0].shape
  }

  lemma {:induction false} FlattenEven(parts: seq<seq<int>>, n: nat)
    requires forall i :: 0 <= i < |parts| ==> |parts[i]| == n
    ensures |Flatten(parts)| == |parts| * n
  {
    if parts != [] {
      FlattenEven(parts[..|parts| - 1], n);
      assert |parts| * n == (|parts| - 1) * n + n;
    }
  }

  /** torch.stack along a new first dimension. */
  function Stack(ts: seq<Tensor>): (r: Option<Tensor>)
    requires AllValid(ts)
    ensures r.Some? <==> StackFits(ts)
    ensures r.Some? ==> Valid(r.value) && r.value.shape == [|ts|] + ts[0].shape
  {
    if !StackFits(ts) then None
    else
      FlattenEven(Datas(ts), Size(ts[0].shape));
      SizeCons(|ts|, ts[0].shape);
      Some(Tensor([|ts|] + ts[0].shape, Flatten(Datas(ts))))
  }

  lemma {:induction false} FlattenAt(parts: seq<seq<int>>, n: nat, i: nat, j: nat)
    requires (forall k :: 0 <= k < |parts| ==> |parts[k]| == n) && i < |parts| && j < n
    ensures i * n + j < |Flatten(parts)| && Flatten(parts)[i * n + j] == parts[i][j]
  {
    FlattenEven(parts, n);
    var init := parts[..|parts| - 1];
    FlattenEven(init, n);
    if i < |parts| - 1 {
      FlattenAt(init, n, i, j);
    } else {
      assert i * n == |Flatten(init)|;
    }
    MulOrder(i, |parts|, n, j);
  }

  /** Slot `i` of a stack is the `i`-th tensor. */
  lemma StackAt(ts: seq<Tensor>, r: Tensor, i: nat, ix: Index)
    requires AllValid(ts) && Stack(ts) == Some(r) && i < |ts| && InBounds(ts[i].shape, ix)
    ensures InBounds(r.shape, [i] + ix) && Valid(r) && At(r, [i] + ix) == At(ts[i], ix)
  {
    RavelCons(|ts|, ts[0].shape, i, ix);
    RavelFits(ts[i].shape, ix);
    FlattenAt(Datas(ts), Size(ts[0].shape), i, Ravel(ts[i].shape, ix));
  }

  // ---------------------------------------------------------------- pairs

  predicate AllPairs(ps: seq<Pair>) {
    forall i :: 0 <= i < |ps| ==> ValidPair(ps[i])
  }

  function As(ps: seq<Pair>): (r: seq<Tensor>)
    requires AllPairs(ps)
    ensures |r| == |ps| && AllValid(r) && forall i :: 0 <= i < |r| ==> r[i] == ps[i].a
  {
    seq(|ps|, i requires 0 <= i < |ps| => ps[i].a)
  }

  function Bs(ps: seq<Pair>): (r: seq<Tensor>)
    requires AllPairs(ps)
    ensures |r| == |ps| && AllValid(r) && forall i :: 0 <= i < |r| ==> r[i] == ps[i].b
  {
    seq(|ps|, i requires 0 <= i < |ps| => ps[i].b)
  }

  function Products(ps: seq<Pair>): (r: seq<Tensor>)
    requires AllPairs(ps)
    ensures |r| == |ps| && AllValid(r) && forall i :: 0 <= i < |r| ==> r[i] == Product(ps[i])
  {
    seq(|ps|, i requires 0 <= i < |ps| => Product(ps[i]))
  }

  /** torch.stack of pairs. */
  function StackPairs(ps: seq<Pair>): Option<Pair>
    requires AllPairs(ps)
  {
    match (Stack(As(ps)), Stack(Bs(ps)))
    case (Some(a), Some(b)) => Some(Pair(a, b))
    case _ => None
  }

  lemma StackedPair(ps: seq<Pair>, r: Pair)
    requires AllPairs(ps) && StackPairs(ps) == Some(r)
    ensures ps != [] && ValidPair(r) && Rank(r) == Rank(ps[0]) && ShapeOf(r) == [|ps|] + ShapeOf(ps[0])
    ensures forall i :: 0 <= i < |ps| ==> ps[i].a.shape == ps[0].a.shape && ps[i].b.shape == ps[0].b.shape
    ensures Stack(As(ps)) == Some(r.a) && Stack(Bs(ps)) == Some(r.b)
  {
    hide Size;
    var sa, sb, n := ps[0].a.shape, ps[0].b.shape, |ps[0].b.shape|;
    assert As(ps)[0] == ps[0].a && Bs(ps)[0] == ps[0].b;
    forall i | 0 <= i < |ps|
      ensures ps[i].a.shape == sa && ps[i].b.shape == sb
    {
      assert As(ps)[i].shape == sa && Bs(ps)[i].shape == sb;
    }
    forall d | 0 <= d < n - 1
      ensures r.a.shape[d] == 1 || r.a.shape[d] == r.b.shape[d]
    {
      if d > 0 {
        assert r.a.shape[d] == sa[d - 1] && r.b.shape[d] == sb[d - 1];
      }
    }
  }

  lemma StackedTerm(ps: seq<Pair>, r: Pair, i: nat, ix: Index, q: nat)
    requires AllPairs(ps) && StackPairs(ps) == Some(r) && ValidPair(r) && i < |ps|
    requires InBounds(ShapeOf(ps[i]), ix) && InBounds(ShapeOf(r), [i] + ix) && q < Rank(ps[i]) == Rank(r)
    ensures Term(r, [i] + ix, q) == Term(ps[i], ix, q)
  {
    StackedPair(ps, r);
    hide At, Size, Stack, StackPairs;
    var n, p, jx := |ix|, ps[i], [i] + ix;
    TermInBounds(p, ix, q);
    TermInBounds(r, jx, q);
    StackAt(Bs(ps), r.b, i, ix[..n - 1] + [q]);
    assert [i] + (ix[..n - 1] + [q]) == jx[..n] + [q];
    StackedLead(ps, r, i, ix, q);
  }

  /** A's entry: where its leading dimensions are longer than one they follow the product's. */
  lemma StackedLead(ps: seq<Pair>, r: Pair, i: nat, ix: Index, q: nat)
    requires AllPairs(ps) && StackPairs(ps) == Some(r) && ValidPair(r) && i < |ps|
    requires InBounds(ShapeOf(ps[i]), ix) && InBounds(ShapeOf(r), [i] + ix) && q < Rank(ps[i]) == Rank(r)
    ensures InBounds(ps[i].a.shape, LeadIndex(ps[i], ix) + [q, ix[|ix| - 1]])
    ensures InBounds(r.a.shape, LeadIndex(r, [i] + ix) + [q, ix[|ix| - 1]])
    ensures At(r.a, LeadIndex(r, [i] + ix) + [q, ix[|ix| - 1]]) == At(ps[i].a, LeadIndex(ps[i], ix) + [q, ix[|ix| - 1]])
  {
    hide At, Size, Stack, StackPairs;
    StackedPair(ps, r);
    var n, p, jx := |ix|, ps[i], [i] + ix;
    TermInBounds(p, ix, q);
    TermInBounds(r, jx, q);
    var kx := LeadIndex(p, ix) + [q, ix[n - 1]];
    StackAt(As(ps), r.a, i, kx);
    var lead := LeadIndex(r, jx);
    forall d | 0 <= d < n - 1
      ensures lead[d] == ([i] + LeadIndex(p, ix))[d]
    {
      if d > 0 {
        assert r.a.shape[d] == p.a.shape[d - 1];
      }
    }
    assert lead == [i] + LeadIndex(p, ix);
    assert [i] + kx == lead + [q, ix[n - 1]];
  }

  /** Stacking pairs stacks their products; it needs the factors, not only the products, to match in shape. */
  lemma StackPairsAgrees(ps: seq<Pair>)
    requires AllPairs(ps)
    ensures StackPairs(ps).Some? <==>
            && ps != []
            && forall i :: 0 <= i < |ps| ==> ps[i].a.shape == ps[0].a.shape && ps[i].b.shape == ps[0].b.shape
    ensures StackPairs(ps).Some? ==>
            ValidPair(StackPairs(ps).value) && Stack(Products(ps)) == Some(Product(StackPairs(ps).value))
  {
    hide Stack, Product, Size, At, Term, Sum;
    StackPairsFits(ps);
    if StackPairs(ps).Some? {
      var r := StackPairs(ps).value;
      StackedPair(ps, r);
      ProductsFit(ps);
      var t := Stack(Products(ps)).value;
      forall ix | InBounds(t.shape, ix)
        ensures At(Product(r), ix) == At(t, ix)
      {
        StackedEntry(ps, r, t, ix);
      }
      Extensional(Product(r), t);
    }
  }

  lemma StackPairsFits(ps: seq<Pair>)
    requires AllPairs(ps)
    ensures StackPairs(ps).Some? <==> StackFits(As(ps)) && StackFits(Bs(ps))
    ensures StackFits(As(ps)) && StackFits(Bs(ps)) <==>
            && ps != []
            && forall i :: 0 <= i < |ps| ==> ps[i].a.shape == ps[0].a.shape && ps[i].b.shape == ps[0].b.shape
  {
    hide Stack, Size;
    if ps != [] {
      assert As(ps)[0] == ps[0].a && Bs(ps)[0] == ps[0].b;
      if StackFits(As(ps)) && StackFits(Bs(ps)) {
        forall i | 0 <= i < |ps|
          ensures ps[i].a.shape == ps[0].a.shape && ps[i].b.shape == ps[0].b.shape
        {
          assert As(ps)[i].shape == As(ps)[0].shape && Bs(ps)[i].shape == Bs(ps)[0].shape;
        }
      }
    }
  }

  lemma ProductsFit(ps: seq<Pair>)
    requires AllPairs(ps) && ps != []
             && forall i :: 0 <= i < |ps| ==> ps[i].a.shape == ps[0].a.shape && ps[i].b.shape == ps[0].b.shape
    ensures forall i :: 0 <= i < |ps| ==> ShapeOf(ps[i]) == ShapeOf(ps[0])
    ensures Stack(Products(ps)).Some? && Stack(Products(ps)).value.shape == [|ps|] + ShapeOf(ps[0])
  {
    hide Size;
    forall i | 0 <= i < |ps|
      ensures Products(ps)[i].shape == ShapeOf(ps[0]) && ShapeOf(ps[i]) == ShapeOf(ps[0])
    {
    }
  }

  /** An index into a stack: the slot, and an index into the tensor there. */
  lemma SlotIndex(n: nat, shape: Shape, ix: Index)
    requires InBounds([n] + shape, ix)
    ensures ix[0] < n && InBounds(shape, ix[1..]) && ix == [ix[0]] + ix[1..]
  {
    forall d | 0 <= d < |ix|
      ensures ix[d] < ([n] + shape)[d] && (d > 0 ==> ([n] + shape)[d] == shape[d - 1])
    {
    }
  }

  lemma StackedEntry(ps: seq<Pair>, r: Pair, t: Tensor, ix: Index)
    requires AllPairs(ps) && StackPairs(ps) == Some(r) && ValidPair(r) && Stack(Products(ps)) == Some(t)
    requires ShapeOf(r) == t.shape && InBounds(t.shape, ix)
    ensures Valid(t) && At(Product(r), ix) == At(t, ix)
  {
    StackedPair(ps, r);
    ProductsFit(ps);
    SlotIndex(|ps|, ShapeOf(ps[0]), ix);
    var i, jx := ix[0], ix[1..];
    StackedSum(ps, r, i, jx);
    hide Stack, StackPairs, Product, Size, At, Sum, ValidPair, InBounds, LeadIndex;
    StackAt(Products(ps), t, i, jx);
    ProductAt(ps[i], jx);
    ProductAt(r, ix);
  }

  lemma StackedSum(ps: seq<Pair>, r: Pair, i: nat, jx: Index)
    requires AllPairs(ps) && StackPairs(ps) == Some(r) && ValidPair(r) && i < |ps|
    requires InBounds(ShapeOf(ps[i]), jx) && InBounds(ShapeOf(r), [i] + jx)
    ensures Sum(r, [i] + jx, Rank(r)) == Sum(ps[i], jx, Rank(ps[i]))
  {
    StackedPair(ps, r);
    var p := ps[i];
    assert Rank(p) == Rank(r);
    hide Stack, StackPairs, Product, Size, At, Term, Sum, InBounds, LeadIndex;
    forall q | 0 <= q < Rank(p)
      ensures Term(r, [i] + jx, q) == Term(p, jx, q)
    {
      StackedTerm(ps, r, i, jx, q);
    }
    SameSums(r, [i] + jx, p, jx, Rank(p));
  }

  // ---------------------------------------------------------------- cat of matrix pairs

  /** A row of B times a column of A, over the first `k` of the rank. */
  function Dot(row: seq<int>, a: seq<int>, cols: nat, col: nat, k: nat): int
    requires k <= |row| && col < cols && |a| == |row| * cols
  {
    if k == 0 then 0
    else
      MulOrder(k - 1, |row|, cols, col);
      Dot(row, a, cols, col, k - 1) + row[k - 1] * a[(k - 1) * cols + col]
  }

  function RowTimes(row: seq<int>, a: seq<int>, cols: nat): (r: seq<int>)
    requires |a| == |row| * cols
    ensures |r| == cols
  {
    seq(cols, c requires 0 <= c < cols => Dot(row, a, cols, c, |row|))
  }

  /** The matrix product on row-major buffers, row by row. */
  function Times(a: seq<int>, b: seq<int>, rank: nat, cols: nat, rows: nat): (r: seq<int>)
    requires |a| == rank * cols && |b| == rows * rank
    ensures |r| == rows * cols
  {
    if rows == 0 then []
    else
      Distributes(rows - 1, 1, rank);
      Distributes(rows - 1, 1, cols);
      Times(a, b[..(rows - 1) * rank], rank, cols, rows - 1) + RowTimes(b[(rows - 1) * rank..], a, cols)
  }

  lemma RowFits(b: seq<int>, rank: nat, rows: nat, i: nat)
    requires |b| == rows * rank && i < rows
    ensures i * rank + rank <= |b|
  {
    Distributes(i, 1, rank);
    Distributes(i + 1, rows - (i + 1), rank);
  }

  lemma {:induction false} TimesAt(a: seq<int>, b: seq<int>, rank: nat, cols: nat, rows: nat, i: nat, j: nat)
    requires |a| == rank * cols && |b| == rows * rank && i < rows && j < cols
    ensures i * rank + rank <= |b| && i * cols + j < rows * cols
    ensures Times(a, b, rank, cols, rows)[i * cols + j] == Dot(b[i * rank..i * rank + rank], a, cols, j, rank)
  {
    RowFits(b, rank, rows, i);
    MulOrder(i, rows, cols, j);
    Distributes(rows - 1, 1, rank);
    Distributes(rows - 1, 1, cols);
    var init := b[..(rows - 1) * rank];
    if i < rows - 1 {
      TimesAt(a, init, rank, cols, rows - 1, i, j);
      assert init[i * rank..i * rank + rank] == b[i * rank..i * rank + rank];
    } else {
      assert b[(rows - 1) * rank..] == b[i * rank..i * rank + rank];
    }
  }

  /** Rows one after the other give rows of the product one after the other. */
  lemma {:induction false} TimesCat(a: seq<int>, b: seq<int>, c: seq<int>, rank: nat, cols: nat, m: nat, n: nat)
    requires |a| == rank * cols && |b| == m * rank && |c| == n * rank
    ensures |b + c| == (m + n) * rank
    ensures Times(a, b + c, rank, cols, m + n) == Times(a, b, rank, cols, m) + Times(a, c, rank, cols, n)
  {
    hide Times, RowTimes;
    Distributes(m, n, rank);
    if n == 0 {
      assert b + c == b;
      TimesNothing(a, c, rank, cols);
    } else {
      Distributes(n - 1, 1, rank);
      var k := (n - 1) * rank;
      var init, last := c[..k], c[k..];
      TimesCat(a, b, init, rank, cols, m, n - 1);
      assert c == init + last && b + c == b + init + last;
      TimesLast(a, b + c, rank, cols, m + n, b + init, last);
      TimesLast(a, c, rank, cols, n, init, last);
      Appended(Times(a, b, rank, cols, m), Times(a, init, rank, cols, n - 1), RowTimes(last, a, cols));
    }
  }

  lemma TimesNothing(a: seq<int>, c: seq<int>, rank: nat, cols: nat)
    requires c == [] && |a| == rank * cols
    ensures |c| == 0 * rank && Times(a, c, rank, cols, 0) == [] && forall x: seq<int> :: x + [] == x
  {
  }

  lemma Appended(x: seq<int>, y: seq<int>, z: seq<int>)
    ensures x + y + z == x + (y + z)
  {
  }

  lemma TimesLast(a: seq<int>, b: seq<int>, rank: nat, cols: nat, rows: nat, init: seq<int>, last: seq<int>)
    requires |a| == rank * cols && |b| == rows * rank && rows > 0 && b == init + last && |last| == rank
    ensures |init| == (rows - 1) * rank && Times(a, b, rank, cols, rows)
            == Times(a, init, rank, cols, rows - 1) + RowTimes(last, a, cols)
  {
    hide RowTimes;
    Distributes(rows - 1, 1, rank);
    assert b[..(rows - 1) * rank] == init && b[(rows - 1) * rank..] == last;
  }

  /** The product of a matrix pair, on the buffers. */
  lemma ProductIsTimes(p: Pair)
    requires ValidPair(p) && |p.b.shape| == 2
    ensures |p.a.data| == Rank(p) * RowSize(p) && |p.b.data| == p.b.shape[0] * Rank(p)
    ensures Product(p).data == Times(p.a.data, p.b.data, Rank(p), RowSize(p), p.b.shape[0])
  {
    Matrix(p);
    var t := Tensor(ShapeOf(p), Times(p.a.data, p.b.data, Rank(p), RowSize(p), p.b.shape[0]));
    hide Size, At, Product, Times, Sum, Term;
    forall ix | InBounds(ShapeOf(p), ix)
      ensures At(Product(p), ix) == At(t, ix)
    {
      assert ix[0] < ShapeOf(p)[0] && ix[1] < ShapeOf(p)[1];
      assert ix == [ix[0], ix[1]];
      ProductEntry(p, t, ix[0], ix[1]);
    }
    Extensional(Product(p), t);
  }

  lemma Matrix(p: Pair)
    requires ValidPair(p) && |p.b.shape| == 2
    ensures p.a.shape == [Rank(p), RowSize(p)] && p.b.shape == [p.b.shape[0], Rank(p)]
            && ShapeOf(p) == [p.b.shape[0], RowSize(p)]
    ensures |p.a.data| == Rank(p) * RowSize(p) && |p.b.data| == p.b.shape[0] * Rank(p)
            && Size(ShapeOf(p)) == p.b.shape[0] * RowSize(p)
  {
    MatrixSize(Rank(p), RowSize(p));
    MatrixSize(p.b.shape[0], Rank(p));
    MatrixSize(p.b.shape[0], RowSize(p));
  }

  lemma MatrixSize(m: nat, n: nat)
    ensures Size([m, n]) == m * n
  {
    SizeSnoc([m], n);
    SizeSnoc([], m);
    assert [m] + [n] == [m, n] && [] + [m] == [m];
  }

  lemma MatrixRavel(m: nat, n: nat, i: nat, j: nat)
    ensures Ravel([m, n], [i, j]) == i * n + j
  {
    RavelSnoc([m], [i], n, j);
    RavelSnoc([], [], m, i);
    assert [m] + [n] == [m, n] && [i] + [j] == [i, j] && [] + [m] == [m] && [] + [i] == [i];
  }

  lemma MatrixAt(t: Tensor, m: nat, n: nat, i: nat, j: nat)
    requires Valid(t) && t.shape == [m, n] && i < m && j < n
    ensures InBounds(t.shape, [i, j]) && i * n + j < |t.data| && At(t, [i, j]) == t.data[i * n + j]
  {
    MatrixRavel(m, n, i, j);
    RavelFits(t.shape, [i, j]);
  }

  lemma ProductEntry(p: Pair, t: Tensor, i: nat, j: nat)
    requires ValidPair(p) && |p.b.shape| == 2 && i < p.b.shape[0] && j < RowSize(p)
    requires |p.a.data| == Rank(p) * RowSize(p) && |p.b.data| == p.b.shape[0] * Rank(p)
    requires t == Tensor(ShapeOf(p), Times(p.a.data, p.b.data, Rank(p), RowSize(p), p.b.shape[0])) && Valid(t)
    ensures InBounds(ShapeOf(p), [i, j]) && At(Product(p), [i, j]) == At(t, [i, j])
  {
    hide Size, Product, Times, Sum, At, Dot, ValidPair;
    Matrix(p);
    RowFits(p.b.data, Rank(p), p.b.shape[0], i);
    var row := p.b.data[i * Rank(p)..i * Rank(p) + Rank(p)];
    TimesEntry(t, p.a.data, p.b.data, Rank(p), RowSize(p), p.b.shape[0], i, j, row);
    EntryIsDot(p, i, j, row);
  }

  lemma TimesEntry(t: Tensor, a: seq<int>, b: seq<int>, rank: nat, cols: nat, rows: nat, i: nat, j: nat, row: seq<int>)
    requires Valid(t) && t.shape == [rows, cols] && i < rows && j < cols && i * rank + rank <= |b|
             && row == b[i * rank..i * rank + rank]
    requires |a| == rank * cols && |b| == rows * rank && t.data == Times(a, b, rank, cols, rows)
    ensures InBounds(t.shape, [i, j]) && At(t, [i, j]) == Dot(row, a, cols, j, rank)
  {
    hide Size, Times, At, Dot;
    MatrixAt(t, rows, cols, i, j);
    TimesAt(a, b, rank, cols, rows, i, j);
  }

  lemma EntryIsDot(p: Pair, i: nat, j: nat, row: seq<int>)
    requires ValidPair(p) && |p.b.shape| == 2 && i < p.b.shape[0] && j < RowSize(p)
             && |p.a.data| == Rank(p) * RowSize(p)
    requires i * Rank(p) + Rank(p) <= |p.b.data| && row == p.b.data[i * Rank(p)..i * Rank(p) + Rank(p)]
    ensures InBounds(ShapeOf(p), [i, j]) && At(Product(p), [i, j]) == Dot(row, p.a.data, RowSize(p), j, Rank(p))
  {
    hide Size, Product, Sum, At, Dot;
    ProductAt(p, [i, j]);
    SumIsDot(p, row, i, j, Rank(p));
  }

  lemma {:induction false} SumIsDot(p: Pair, row: seq<int>, i: nat, j: nat, k: nat)
    requires ValidPair(p) && |p.b.shape| == 2 && i < p.b.shape[0] && j < RowSize(p) && k <= Rank(p)
    requires InBounds(ShapeOf(p), [i, j]) && i * Rank(p) + Rank(p) <= |p.b.data| && |p.a.data| == Rank(p) * RowSize(p)
    requires row == p.b.data[i * Rank(p)..i * Rank(p) + Rank(p)]
    ensures Sum(p, [i, j], k) == Dot(row, p.a.data, RowSize(p), j, k)
  {
    hide Size, At, Term, Product;
    if k > 0 {
      SumIsDot(p, row, i, j, k - 1);
      MatrixTermIs(p, i, j, k - 1);
    }
  }

  lemma MatrixTermIs(p: Pair, i: nat, j: nat, q: nat)
    requires ValidPair(p) && |p.b.shape| == 2 && i < p.b.shape[0] && j < RowSize(p) && q < Rank(p)
    requires InBounds(ShapeOf(p), [i, j])
    ensures i * Rank(p) + q < |p.b.data| && q * RowSize(p) + j < |p.a.data|
    ensures Term(p, [i, j], q) == p.b.data[i * Rank(p) + q] * p.a.data[q * RowSize(p) + j]
  {
    TermIsFlat(p, [i, j], q);
    assert [i, j][..1] == [i] && RowShape(p) == [p.b.shape[0]];
    RavelSnoc([], [], p.b.shape[0], i);
    assert [] + [p.b.shape[0]] == [p.b.shape[0]] && [] + [i] == [i];
  }

  /** torch.cat of matrix pairs: they must share A. (With more dimensions the program joins A too.) */
  function CatPairs(ps: seq<Pair>): Option<Pair>
    requires AllPairs(ps) && forall i :: 0 <= i < |ps| ==> |ps[i].b.shape| == 2
  {
    if ps == [] || exists i :: 0 <= i < |ps| && ps[i].a != ps[0].a then None
    else
      match Cat(Bs(ps))
      case None => None
      case Some(b) => Some(Pair(ps[0].a, b))
  }

  /** Concatenating matrix pairs that share A concatenates their products, and it is refused only when they do not. */
  lemma CatPairsAgrees(ps: seq<Pair>)
    requires AllPairs(ps) && forall i :: 0 <= i < |ps| ==> |ps[i].b.shape| == 2
    ensures CatPairs(ps).Some? <==> ps != [] && forall i :: 0 <= i < |ps| ==> ps[i].a == ps[0].a
    ensures CatPairs(ps).Some? ==>
              && ValidPair(CatPairs(ps).value) && CatPairs(ps).value.a == ps[0].a
              && Cat(Products(ps)) == Some(Product(CatPairs(ps).value))
  {
    if ps != [] && forall i :: 0 <= i < |ps| ==> ps[i].a == ps[0].a {
      CatShapes(ps);
      CatBuffers(ps, CatPairs(ps).value, Cat(Products(ps)).value);
    }
  }

  lemma CatBuffers(ps: seq<Pair>, r: Pair, t: Tensor)
    requires AllPairs(ps) && ps != [] && forall i :: 0 <= i < |ps| ==> |ps[i].b.shape| == 2 && ps[i].a == ps[0].a
    requires ValidPair(r) && r.a == ps[0].a && r.b.shape == [Rows(Bs(ps)), Rank(ps[0])]
             && r.b.data == Flatten(Datas(Bs(ps)))
    requires t.shape == ShapeOf(r) && t.data == Flatten(Datas(Products(ps)))
    ensures Product(r) == t
  {
    Matrix(ps[0]);
    ProductIsTimes(r);
    hide Product, Size, Times, Flatten;
    CatData(ps, ps[0].a, Rank(ps[0]));
  }

  lemma CatShapes(ps: seq<Pair>)
    requires AllPairs(ps) && ps != [] && forall i :: 0 <= i < |ps| ==> |ps[i].b.shape| == 2 && ps[i].a == ps[0].a
    ensures Cat(Bs(ps)).Some? && Cat(Products(ps)).Some? && Rows(Bs(ps)) == Rows(Products(ps))
    ensures var b := Cat(Bs(ps)).value;
            && b.shape == [Rows(Bs(ps)), Rank(ps[0])] && b.data == Flatten(Datas(Bs(ps)))
            && CatPairs(ps) == Some(Pair(ps[0].a, b)) && ValidPair(Pair(ps[0].a, b))
               && ShapeOf(Pair(ps[0].a, b)) == Cat(Products(ps)).value.shape
    ensures Cat(Products(ps)).value.data == Flatten(Datas(Products(ps)))
  {
    hide Size, Product, Flatten, Datas;
    MatrixShapes(ps);
    var bs, ts := Bs(ps), Products(ps);
    assert bs[0].shape[1..] == [Rank(ps[0])] && ts[0].shape[1..] == [RowSize(ps[0])];
    SameRows(bs, ts);
    assert [Rows(bs)] + [Rank(ps[0])] == [Rows(bs), Rank(ps[0])]
        && [Rows(ts)] + [RowSize(ps[0])] == [Rows(ts), RowSize(ps[0])];
    var r := Pair(ps[0].a, Tensor([Rows(bs), Rank(ps[0])], Flatten(Datas(bs))));
    assert Cat(bs) == Some(r.b);
    JoinedShape(ps[0], r, Rows(bs));
  }

  lemma MatrixShapes(ps: seq<Pair>)
    requires AllPairs(ps) && ps != [] && forall i :: 0 <= i < |ps| ==> |ps[i].b.shape| == 2 && ps[i].a == ps[0].a
    ensures forall i :: 0 <= i < |ps| ==>
            Bs(ps)[i].shape == [ps[i].b.shape[0], Rank(ps[0])]
                && Products(ps)[i].shape == [ps[i].b.shape[0], RowSize(ps[0])]
    ensures CatFits(Bs(ps)) && CatFits(Products(ps))
  {
    hide Size, Product, Flatten, Datas;
    forall i | 0 <= i < |ps|
      ensures Bs(ps)[i].shape == [ps[i].b.shape[0], Rank(ps[0])]
              && Products(ps)[i].shape == [ps[i].b.shape[0], RowSize(ps[0])]
    {
      Matrix(ps[i]);
    }
  }

  lemma JoinedShape(p: Pair, r: Pair, rows: nat)
    requires ValidPair(p) && |p.b.shape| == 2 && r.a == p.a && Valid(r.b) && r.b.shape == [rows, Rank(p)]
    ensures ValidPair(r) && ShapeOf(r) == [rows, RowSize(p)]
  {
  }

  lemma {:induction false} SameRows(ts: seq<Tensor>, us: seq<Tensor>)
    requires |ts| == |us|
             && forall i :: 0 <= i < |ts| ==> |ts[i].shape| > 0 && |us[i].shape| > 0 && ts[i].shape[0] == us[i].shape[0]
    ensures Rows(ts) == Rows(us)
  {
    if ts != [] {
      SameRows(ts[..|ts| - 1], us[..|us| - 1]);
    }
  }

  /** The buffer of the joined B times A is the joined buffers of the products. */
  lemma {:induction false} CatData(ps: seq<Pair>, a: Tensor, rank: nat)
    requires AllPairs(ps) && forall i :: 0 <= i < |ps| ==> |ps[i].b.shape| == 2 && ps[i].a == a
    requires Valid(a) && |a.shape| == 2 && a.shape[0] == rank
    ensures |a.data| == rank * a.shape[1] && |Flatten(Datas(Bs(ps)))| == Rows(Bs(ps)) * rank
    ensures Flatten(Datas(Products(ps))) == Times(a.data, Flatten(Datas(Bs(ps))), rank, a.shape[1], Rows(Bs(ps)))
  {
    hide Size, Product, Times;
    if ps == [] {
      MatrixSize(rank, a.shape[1]);
      assert a.shape == [rank, a.shape[1]];
      NothingCat(ps, a, rank);
    } else {
      var init, p := ps[..|ps| - 1], ps[|ps| - 1];
      CatData(init, a, rank);
      LastBuffers(p, a, rank);
      CatSplit(ps);
      var cols, m, n := a.shape[1], Rows(Bs(init)), p.b.shape[0];
      var b, c, x, y := Flatten(Datas(Bs(init))), p.b.data, Flatten(Datas(Products(init))), Product(p).data;
      CatStep(a.data, b, c, x, y, rank, cols, m, n);
      hide *;
    }
  }

  lemma CatStep(a: seq<int>, b: seq<int>, c: seq<int>, x: seq<int>, y: seq<int>, rank: nat, cols: nat, m: nat, n: nat)
    requires |a| == rank * cols && |b| == m * rank && |c| == n * rank
    requires x == Times(a, b, rank, cols, m) && y == Times(a, c, rank, cols, n)
    ensures |b + c| == (m + n) * rank && x + y == Times(a, b + c, rank, cols, m + n)
  {
    hide Times;
    TimesCat(a, b, c, rank, cols, m, n);
  }

  lemma NothingCat(ps: seq<Pair>, a: Tensor, rank: nat)
    requires ps == [] && |a.shape| == 2 && |a.data| == rank * a.shape[1]
    ensures Flatten(Datas(Bs(ps))) == [] && Rows(Bs(ps)) == 0
    ensures Flatten(Datas(Products(ps))) == Times(a.data, [], rank, a.shape[1], 0)
  {
  }

  lemma LastBuffers(p: Pair, a: Tensor, rank: nat)
    requires ValidPair(p) && |p.b.shape| == 2 && p.a == a && |a.shape| == 2 && a.shape[0] == rank
    ensures |a.data| == rank * a.shape[1] && |p.b.data| == p.b.shape[0] * rank
    ensures Product(p).data == Times(a.data, p.b.data, rank, a.shape[1], p.b.shape[0])
  {
    ProductIsTimes(p);
  }

  lemma CatSplit(ps: seq<Pair>)
    requires AllPairs(ps) && ps != []
    ensures AllPairs(ps[..|ps| - 1])
    ensures var init, p := ps[..|ps| - 1], ps[|ps| - 1];
            && Flatten(Datas(Bs(ps))) == Flatten(Datas(Bs(init))) + p.b.data
            && Flatten(Datas(Products(ps))) == Flatten(Datas(Products(init))) + Product(p).data
            && Rows(Bs(ps)) == Rows(Bs(init)) + p.b.shape[0]
  {
    hide ValidPair, Product, Size;
    var init, p := ps[..|ps| - 1], ps[|ps| - 1];
    assert Bs(ps) == Bs(init) + [p.b] && Products(ps) == Products(init) + [Product(p)];
    LastData(Bs(init), p.b);
    LastData(Products(init), Product(p));
    LastRows(ps);
  }

  lemma LastRows(ps: seq<Pair>)
    requires AllPairs(ps) && ps != []
    ensures AllPairs(ps[..|ps| - 1])
    ensures |ps[|ps| - 1].b.shape| > 0 && Rows(Bs(ps)) == Rows(Bs(ps[..|ps| - 1])) + ps[|ps| - 1].b.shape[0]
  {
    assert Bs(ps)[..|ps| - 1] == Bs(ps[..|ps| - 1]);
  }

  lemma LastData(ts: seq<Tensor>, t: Tensor)
    ensures Flatten(Datas(ts + [t])) == Flatten(Datas(ts)) + t.data
  {
    assert Datas(ts + [t]) == Datas(ts) + [t.data];
    assert (Datas(ts) + [t.data])[..|ts|] == Datas(ts);
  }
}
