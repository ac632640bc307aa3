/** Tensors as rows: the first dimension, and positions in the row-major buffer. */
module TensorRows {
  import opened Tensors

  lemma {:induction false} SizeCons(n: nat, shape: Shape)
    ensures Size([n] + shape) == n * Size(shape)
  {
    SizeEmpty();
    hide Size;
    if shape == [] {
      SizeSnoc([], n);
      assert [n] + shape == [] + [n];
    } else {
      var init, last := shape[..|shape| - 1], shape[|shape| - 1];
      SizeCons(n, init);
      SizeSnoc([n] + init, last);
      SizeSnoc(init, last);
      assert [n] + shape == [n] + init + [last] && shape == init + [last];
      Associates(n, Size(init), last);
    }
  }

  lemma SizeEmpty()
    ensures Size([]) == 1 && Ravel([], []) == 0
  {
  }

  lemma Associates(a: nat, b: nat, c: nat)
    ensures a * b * c == a * (b * c)
  {
  }

  lemma Distributes(a: nat, b: nat, c: nat)
    ensures (a + b) * c == a * c + b * c
  {
  }

  lemma {:induction false} RavelCons(n: nat, shape: Shape, i: nat, ix: Index)
    requires |ix| == |shape|
    ensures Ravel([n] + shape, [i] + ix) == i * Size(shape) + Ravel(shape, ix)
  {
    SizeEmpty();
    hide Size, Ravel;
    if shape == [] {
      RavelSnoc([], [], n, i);
      assert [n] + shape == [] + [n] && [i] + ix == [] + [i];
    } else {
      var init, last := shape[..|shape| - 1], shape[|shape| - 1];
      var jx, j := ix[..|ix| - 1], ix[|ix| - 1];
      RavelCons(n, init, i, jx);
      RavelSnoc([n] + init, [i] + jx, last, j);
      RavelSnoc(init, jx, last, j);
      assert [n] + shape == [n] + init + [last] && shape == init + [last];
      assert [i] + ix == [i] + jx + [j] && ix == jx + [j];
      Distributes(i * Size(init), Ravel(init, jx), last);
      Associates(i, Size(init), last);
    }
  }

  /** Column `c` of row `i` when rows are `w` wide. */
  function Cell(i: nat, w: nat, c: nat): nat {
    i * w + c
  }

  lemma Ravel4(x: nat, y: nat, z: nat, tail: Shape, a: nat, b: nat, c: nat, jx: Index)
    requires |jx| == |tail|
    ensures Ravel([x, y, z] + tail, [a, b, c] + jx) == Cell(Cell(Cell(a, y, b), z, c), Size(tail), Ravel(tail, jx))
  {
    hide Ravel, Size;
    RavelCons(x, [y, z] + tail, a, [b, c] + jx);
    RavelCons(y, [z] + tail, b, [c] + jx);
    RavelCons(z, tail, c, jx);
    SizeCons(y, [z] + tail);
    SizeCons(z, tail);
    assert [x] + ([y, z] + tail) == [x, y, z] + tail && [y] + ([z] + tail) == [y, z] + tail;
    assert [a] + ([b, c] + jx) == [a, b, c] + jx && [b] + ([c] + jx) == [b, c] + jx;
    var w := Size(tail);
    Nested(a, y, b, z, c, w);
  }

  lemma Nested(a: nat, y: nat, b: nat, z: nat, c: nat, w: nat)
    ensures a * (y * (z * w)) + (b * (z * w) + c * w) == ((a * y + b) * z + c) * w
  {
    Distributes((a * y + b) * z, c, w);
    Associates(a * y + b, z, w);
    Distributes(a * y, b, z * w);
    Associates(a, y, z * w);
  }

  lemma ElementAt(t: Tensor, x: nat, y: nat, z: nat, tail: Shape, a: nat, b: nat, c: nat, jx: Index)
    requires Valid(t) && t.shape == [x, y, z] + tail && InBounds(t.shape, [a, b, c] + jx) && |jx| == |tail|
    ensures var k := Cell(Cell(Cell(a, y, b), z, c), Size(tail), Ravel(tail, jx));
            k < |t.data| && At(t, [a, b, c] + jx) == t.data[k]
  {
    Ravel4(x, y, z, tail, a, b, c, jx);
    RavelFits(t.shape, [a, b, c] + jx);
  }

  lemma Size4(x: nat, y: nat, z: nat, tail: Shape)
    ensures Size([x, y, z] + tail) == x * (y * (z * Size(tail)))
  {
    hide Size;
    SizeCons(x, [y, z] + tail);
    SizeCons(y, [z] + tail);
    SizeCons(z, tail);
    assert [x] + ([y, z] + tail) == [x, y, z] + tail && [y] + ([z] + tail) == [y, z] + tail;
  }

  /** The number of elements in a row. */
  function Width(t: Tensor): nat
    requires t.shape != []
  {
    Size(t.shape[1..])
  }

  function RowOf(t: Tensor, row: nat): (r: seq<int>)
    requires Valid(t) && t.shape != [] && row < t.shape[0]
    ensures |r| == Width(t)
  {
    RowSpan(t, row);
    t.data[row * Width(t)..row * Width(t) + Width(t)]
  }

  lemma RowSpan(t: Tensor, row: nat)
    requires Valid(t) && t.shape != [] && row < t.shape[0]
    ensures row * Width(t) + Width(t) <= |t.data|
  {
    SizeCons(t.shape[0], t.shape[1..]);
    assert [t.shape[0]] + t.shape[1..] == t.shape;
    Distributes(row + 1, t.shape[0] - (row + 1), Width(t));
    Distributes(row, 1, Width(t));
  }

  lemma RowCell(t: Tensor, row: nat, c: nat, w: nat)
    requires Valid(t) && t.shape != [] && row < t.shape[0] && c < w == Width(t)
    ensures Cell(row, w, c) < |t.data| && |RowOf(t, row)| == w && RowOf(t, row)[c] == t.data[Cell(row, w, c)]
  {
    RowSpan(t, row);
  }

  /** A number with digits `q` and `r`. */
  lemma Digits(q: nat, n: nat, r: nat, d: nat)
    requires q < n && r < d
    ensures q * d + r < n * d && (q * d + r) / d == q && (q * d + r) % d == r
  {
    DivMod(q, d, r);
    Distributes(q, 1, d);
    Distributes(q + 1, n - (q + 1), d);
  }

  lemma Undigits(row: nat, n: nat, d: nat)
    requires row < n * d
    ensures d > 0 && row / d < n && row % d < d && row == row / d * d + row % d
  {
    DivisionFits(row, n, d);
  }
}
