/**
 The rotary reordering of attention rows (convert_hf_to_gguf.py, LlamaModel.permute), on dense
 tensors and on low-rank pairs.
 */
module LlamaPermute {
  import opened Wrappers
  import opened Tensors
  import opened Lora
  import opened LoraOps
  import opened TensorRows

  /** swapaxes(1, 2) as a list of dimensions. */
  function SwapOneTwo(n: nat): (d: seq<nat>)
    ensures |d| == n && forall i :: 0 <= i < n ==> d[i] == if i == 1 then 2 else if i == 2 then 1 else i
  {
    seq(n, i requires 0 <= i < n => if i == 1 then 2 else if i == 2 then 1 else i)
  }

  /** The number of heads that is used: the key-value heads where they are given. */
  function HeadsOf(nHead: nat, nHeadKv: Option<nat>): (h: nat)
    ensures h == match nHeadKv case None => nHead case Some(kv) => kv
  {
    if nHeadKv.Some? && nHead != nHeadKv.value then nHeadKv.value else nHead
  }

  function SplitShape(shape: Shape, h: nat): (r: Shape)
    requires shape != [] && h > 0
    ensures |r| == |shape| + 2 && r[0] == h && r[1] == 2 && r[2] == shape[0] / h / 2 && r[3..] == shape[1..]
  {
    [h, 2, shape[0] / h / 2] + shape[1..]
  }

  /** LlamaModel.permute on a dense tensor; None where it raises. */
  function Permuted(t: Tensor, nHead: nat, nHeadKv: Option<nat>): Option<Tensor>
    requires Valid(t)
  {
    var h := HeadsOf(nHead, nHeadKv);
    if t.shape == [] || h == 0 then None
    else
      match ReshapeTensor(t, SplitShape(t.shape, h))
      case None => None
      case Some(split) =>
        match PermuteTensor(split, SwapOneTwo(|split.shape|))
        case None => None
        case Some(swapped) => ReshapeTensor(swapped, t.shape)
  }

  /** The same program run on a low-rank pair. */
  function PermutedPair(p: Pair, nHead: nat, nHeadKv: Option<nat>): Option<Pair>
    requires ValidPair(p)
  {
    var h := HeadsOf(nHead, nHeadKv);
    if h == 0 then None
    else
      match ReshapePair(p, SplitShape(ShapeOf(p), h))
      case None => None
      case Some(split) =>
        if !ValidPair(split) then None
        else
          match PermutePair(split, SwapOneTwo(|split.b.shape|))
          case None => None
          case Some(swapped) => if ValidPair(swapped) then ReshapePair(swapped, ShapeOf(p)) else None
  }

  lemma NatShape(t: Tensor, shape: Shape)
    requires Valid(t)
    ensures OneInferred(shape) && ReshapeTensor(t, shape) == Reshape(t, shape)
  {
    assert AsShape(shape) == shape;
  }

  lemma SwapIsPermutation(n: nat)
    requires n >= 3
    ensures IsPermutation(SwapOneTwo(n), n) && TorchDims(SwapOneTwo(n), n) == Some(SwapOneTwo(n))
  {
    var d := SwapOneTwo(n);
    forall i | 0 <= i < n
      ensures i in d
    {
      assert d[d[i]] == i;
    }
    assert TorchDims(d, n).value == d;
  }

  /** It runs exactly when the rows divide evenly over the heads (or there is nothing to move). */
  lemma PermutedIs(t: Tensor, nHead: nat, nHeadKv: Option<nat>)
    requires Valid(t) && t.shape != [] && HeadsOf(nHead, nHeadKv) > 0
    ensures var split := SplitShape(t.shape, HeadsOf(nHead, nHeadKv));
            && (Permuted(t, nHead, nHeadKv).Some? <==> Size(split) == Size(t.shape))
            && (Permuted(t, nHead, nHeadKv).Some? ==>
                  && Valid(Tensor(split, t.data))
                  && Permute(Tensor(split, t.data), SwapOneTwo(|split|)).Some?
                  && Permuted(t, nHead, nHeadKv).value
                     == Tensor(t.shape, Permute(Tensor(split, t.data), SwapOneTwo(|split|)).value.data))
  {
    var split := SplitShape(t.shape, HeadsOf(nHead, nHeadKv));
    NatShape(t, split);
    hide ReshapeTensor, Permute, PermuteTensor, Size, SplitShape;
    if Size(split) == Size(t.shape) {
      var s := Tensor(split, t.data);
      SwapIsPermutation(|split|);
      PermuteTensorIs(s, SwapOneTwo(|split|));
      SwapSize(split);
      NatShape(Permute(s, SwapOneTwo(|split|)).value, t.shape);
    }
  }

  lemma SwapSize(s: Shape)
    requires |s| >= 3
    ensures AllBelow(SwapOneTwo(|s|), |s|) && Size(Rearrange(s, SwapOneTwo(|s|))) == Size(s)
    ensures Rearrange(s, SwapOneTwo(|s|)) == [s[0], s[2], s[1]] + s[3..]
  {
    var tail := s[3..];
    SwapShape(s);
    FrontThree(s);
    hide *;
    Size4(s[0], s[2], s[1], tail);
    Size4(s[0], s[1], s[2], tail);
    Commutes(s[1], s[2], Size(tail));
  }

  lemma FrontThree(s: Shape)
    requires |s| >= 3
    ensures s == [s[0], s[1], s[2]] + s[3..]
  {
  }

  lemma SwapShape(s: Shape)
    requires |s| >= 3
    ensures AllBelow(SwapOneTwo(|s|), |s|) && Rearrange(s, SwapOneTwo(|s|)) == [s[0], s[2], s[1]] + s[3..]
  {
    var r, q := Rearrange(s, SwapOneTwo(|s|)), [s[0], s[2], s[1]] + s[3..];
    forall d | 0 <= d < |s|
      ensures r[d] == q[d]
    {
      if d >= 3 {
        assert r[d] == s[d] == s[3..][d - 3];
      }
    }
  }

  lemma Commutes(a: nat, b: nat, c: nat)
    ensures a * (b * c) == b * (a * c)
  {
  }

  // ---------------------------------------------------------------- where each row goes

  /** An index is in bounds when its first three parts and the rest are. */
  lemma Bounds4(x: nat, y: nat, z: nat, tail: Shape, a: nat, b: nat, c: nat, jx: Index)
    requires a < x && b < y && c < z && InBounds(tail, jx)
    ensures InBounds([x, y, z] + tail, [a, b, c] + jx)
  {
    var s, ix := [x, y, z] + tail, [a, b, c] + jx;
    forall d | 0 <= d < |ix|
      ensures ix[d] < s[d]
    {
      if d >= 3 {
        assert ix[d] == jx[d - 3] && s[d] == tail[d - 3];
      }
    }
  }

  /** swapaxes(1, 2) on the split tensor, entry by entry. */
  lemma SwappedAt(s: Tensor, a: nat, b: nat, c: nat, jx: Index, r: Tensor)
    requires Valid(s) && |s.shape| >= 3 && a < s.shape[0] && b < s.shape[1] && c < s.shape[2]
             && InBounds(s.shape[3..], jx)
    requires Permute(s, SwapOneTwo(|s.shape|)) == Some(r)
    ensures Valid(r) && r.shape == [s.shape[0], s.shape[2], s.shape[1]] + s.shape[3..]
    ensures InBounds(s.shape, [a, b, c] + jx) && InBounds(r.shape, [a, c, b] + jx)
            && At(r, [a, c, b] + jx) == At(s, [a, b, c] + jx)
  {
    hide Ravel, Size, At, Permute, IsPermutation;
    var sh, ix := s.shape, [a, c, b] + jx;
    var n := |sh|;
    SwapIsPermutation(n);
    SwapSize(sh);
    FrontThree(sh);
    Bounds4(sh[0], sh[1], sh[2], sh[3..], a, b, c, jx);
    Bounds4(sh[0], sh[2], sh[1], sh[3..], a, c, b, jx);
    PermuteAt(s, SwapOneTwo(n), r, ix);
    SwapInverseIs(n);
    assert Rearrange(ix, Inverse(SwapOneTwo(n), n)) == [a, b, c] + jx;
  }

  lemma SwapInverseIs(n: nat)
    requires n >= 3 && IsPermutation(SwapOneTwo(n), n)
    ensures Inverse(SwapOneTwo(n), n) == SwapOneTwo(n)
  {
    var d, inv := SwapOneTwo(n), Inverse(SwapOneTwo(n), n);
    forall i | 0 <= i < n
      ensures inv[i] == d[i]
    {
      assert d[inv[i]] == i && inv[d[inv[i]]] == inv[i] && d[d[i]] == i;
      assert inv[d[d[i]]] == d[i];
    }
  }

  /** Row `b` of half `s` of head `a`, before: halves of a head are contiguous. */
  function HalfRow(m: nat, a: nat, s: nat, b: nat): nat {
    Cell(Cell(a, 2, s), m, b)
  }

  /** The same row, after: the two halves interleave. */
  function PairRow(m: nat, a: nat, s: nat, b: nat): nat {
    Cell(Cell(a, m, b), 2, s)
  }

  /** The three digits of a row number can be read back, before and after. */
  lemma RowDigits(h: nat, m: nat, a: nat, s: nat, b: nat)
    requires a < h && s < 2 && b < m
    ensures var i := HalfRow(m, a, s, b); i < h * 2 * m && i / m / 2 == a && i / m % 2 == s && i % m == b
    ensures var j := PairRow(m, a, s, b); j < h * 2 * m && j / 2 / m == a && j % 2 == s && j / 2 % m == b
  {
    Digits(a, h, s, 2);
    Digits(a * 2 + s, h * 2, b, m);
    Digits(a, h, b, m);
    Digits(a * m + b, h * m, s, 2);
    Swapped(h, m);
  }

  lemma Swapped(h: nat, m: nat)
    ensures h * 2 * m == h * m * 2
  {
  }

  /** Every row has exactly one place before and one after: the reordering is a bijection on rows. */
  lemma RowsAreNumbered(h: nat, m: nat, row: nat)
    requires row < h * 2 * m
    ensures exists a: nat, s: nat, b: nat :: a < h && s < 2 && b < m && row == HalfRow(m, a, s, b)
    ensures exists a: nat, s: nat, b: nat :: a < h && s < 2 && b < m && row == PairRow(m, a, s, b)
  {
    var a, s, b := HalfDigits(h, m, row);
    var a', s', b' := PairDigits(h, m, row);
    hide HalfRow, PairRow;
  }

  lemma HalfDigits(h: nat, m: nat, row: nat) returns (a: nat, s: nat, b: nat)
    requires row < h * 2 * m
    ensures a < h && s < 2 && b < m && row == HalfRow(m, a, s, b)
  {
    Undigits(row, h * 2, m);
    Undigits(row / m, h, 2);
    a, s, b := row / m / 2, row / m % 2, row % m;
  }

  lemma PairDigits(h: nat, m: nat, row: nat) returns (a: nat, s: nat, b: nat)
    requires row < h * 2 * m
    ensures a < h && s < 2 && b < m && row == PairRow(m, a, s, b)
  {
    Swapped(h, m);
    Undigits(row, h * m, 2);
    Undigits(row / 2, h, m);
    a, s, b := row / 2 / m, row % 2, row / 2 % m;
  }

  lemma RowNumbersAreUnique(h: nat, m: nat, a: nat, s: nat, b: nat, a': nat, s': nat, b': nat)
    requires a < h && s < 2 && b < m && a' < h && s' < 2 && b' < m
    ensures HalfRow(m, a, s, b) == HalfRow(m, a', s', b') ==> a == a' && s == s' && b == b'
    ensures PairRow(m, a, s, b) == PairRow(m, a', s', b') ==> a == a' && s == s' && b == b'
  {
    RowDigits(h, m, a, s, b);
    RowDigits(h, m, a', s', b');
    hide HalfRow, PairRow;
  }

  /**
   LlamaModel.permute, row by row: half `s` of each head goes to the rows of parity `s` of that
   head, in order, and no row changes inside.
   */
  lemma PermutedRow(t: Tensor, nHead: nat, nHeadKv: Option<nat>, r: Tensor, a: nat, s: nat, b: nat)
    requires Valid(t) && t.shape != [] && Permuted(t, nHead, nHeadKv) == Some(r)
    requires var h := HeadsOf(nHead, nHeadKv); a < h && s < 2 && t.shape[0] % (2 * h) == 0 && b < t.shape[0] / h / 2
    ensures var m := t.shape[0] / HeadsOf(nHead, nHeadKv) / 2;
            && Valid(r) && r.shape == t.shape
            && HalfRow(m, a, s, b) < t.shape[0] && PairRow(m, a, s, b) < t.shape[0]
            && RowOf(r, PairRow(m, a, s, b)) == RowOf(t, HalfRow(m, a, s, b))
  {
    var h := HeadsOf(nHead, nHeadKv);
    var m := t.shape[0] / h / 2;
    Halves(t.shape[0], h);
    RowDigits(h, m, a, s, b);
    PermutedIs(t, nHead, nHeadKv);
    var split := SplitShape(t.shape, h);
    assert split == [h, 2, m] + t.shape[1..];
    hide *;
    MovedRow(t, split, Permute(Tensor(split, t.data), SwapOneTwo(|split|)).value, r, h, m, a, s, b);
  }

  lemma MovedRow(t: Tensor, split: Shape, u: Tensor, r: Tensor, h: nat, m: nat, a: nat, s: nat, b: nat)
    requires Valid(t) && t.shape != [] && split == [h, 2, m] + t.shape[1..] && Valid(Tensor(split, t.data))
    requires Permute(Tensor(split, t.data), SwapOneTwo(|split|)) == Some(u) && Valid(r) && r == Tensor(t.shape, u.data)
    requires a < h && s < 2 && b < m && HalfRow(m, a, s, b) < t.shape[0] && PairRow(m, a, s, b) < t.shape[0]
    ensures RowOf(r, PairRow(m, a, s, b)) == RowOf(t, HalfRow(m, a, s, b))
  {
    var i, j, w := HalfRow(m, a, s, b), PairRow(m, a, s, b), Width(t);
    RowSpan(t, i);
    RowSpan(r, j);
    var x, y := RowOf(r, j), RowOf(t, i);
    hide *;
    forall c | 0 <= c < w
      ensures x[c] == y[c]
    {
      RowCell(t, i, c, w);
      RowCell(r, j, c, w);
      RowElement(t, split, u, h, m, a, s, b, c, i, j, w);
    }
  }

  lemma Halves(n: nat, h: nat)
    requires h > 0 && n % (2 * h) == 0
    ensures n == h * 2 * (n / h / 2)
  {
    var k := n / (2 * h);
    assert n == 2 * h * k == (2 * k) * h;
    DivMod(2 * k, h, 0);
    assert n / h == 2 * k;
    assert h * 2 * k == 2 * h * k;
  }

  lemma RowElement(t: Tensor, split: Shape, r: Tensor, h: nat, m: nat, a: nat, s: nat, b: nat, c: nat, i: nat, j: nat,
                   w: nat)
    requires Valid(t) && t.shape != [] && split == [h, 2, m] + t.shape[1..] && Valid(Tensor(split, t.data))
    requires Permute(Tensor(split, t.data), SwapOneTwo(|split|)) == Some(r)
    requires a < h && s < 2 && b < m && c < Width(t) && i == HalfRow(m, a, s, b) && j == PairRow(m, a, s, b)
             && w == Width(t)
    ensures Cell(j, w, c) < |r.data| && Cell(i, w, c) < |t.data| && r.data[Cell(j, w, c)] == t.data[Cell(i, w, c)]
  {
    var st, tail := Tensor(split, t.data), t.shape[1..];
    var jx := Unravel(tail, c);
    UnravelInBounds(tail, c);
    RavelUnravel(tail, c);
    assert split[3..] == tail;
    SwappedAt(st, a, s, b, jx, r);
    hide Size, Permute, Unravel, At, Ravel;
    ElementAt(st, h, 2, m, tail, a, s, b, jx);
    ElementAt(r, h, m, 2, tail, a, b, s, jx);
  }

  // ---------------------------------------------------------------- on pairs

  /**
   LlamaModel.permute on a low-rank pair: it runs exactly when it runs on the product, and gives a
   pair for the reordered product.
   */
  lemma PermutedPairAgrees(p: Pair, nHead: nat, nHeadKv: Option<nat>)
    requires ValidPair(p) && Plain(p) && Rank(p) > 0 && RowSize(p) > 0
    ensures var r, t := PermutedPair(p, nHead, nHeadKv), Permuted(Product(p), nHead, nHeadKv);
            && (r.Some? <==> t.Some?)
            && (r.Some? ==> SameFactors(p, r.value) && Product(r.value) == t.value)
  {
    var h := HeadsOf(nHead, nHeadKv);
    if h > 0 {
      var split := SplitShape(ShapeOf(p), h);
      SplitEnds(ShapeOf(p), h);
      ReshapePairAgrees(p, split);
      var r, t := ReshapePair(p, split), ReshapeTensor(Product(p), split);
      LastDimension(Product(p), split);
      if r.Some? {
        PermutedSplit(p, split, r.value, t.value);
        UnfoldPermuted(p, nHead, nHeadKv, r.value, t.value);
        hide *;
      } else {
        hide ReshapePair, ReshapeTensor, PermutePair, PermuteTensor, Product, Size, SplitShape, Permute, SameFactors,
            HeadsOf, Plain;
      }
    }
  }

  lemma SplitEnds(shape: Shape, h: nat)
    requires |shape| >= 2 && h > 0
    ensures |SplitShape(shape, h)| >= 4 && SplitShape(shape, h)[|shape| + 1] == shape[|shape| - 1]
  {
  }

  lemma UnfoldPermuted(p: Pair, nHead: nat, nHeadKv: Option<nat>, s: Pair, t: Tensor)
    requires ValidPair(p) && HeadsOf(nHead, nHeadKv) > 0 && ValidPair(s)
    requires ReshapePair(p, SplitShape(ShapeOf(p), HeadsOf(nHead, nHeadKv))) == Some(s)
    requires ReshapeTensor(Product(p), SplitShape(ShapeOf(p), HeadsOf(nHead, nHeadKv))) == Some(t)
    ensures PermutedPair(p, nHead, nHeadKv) ==
            (match PermutePair(s, SwapOneTwo(|s.b.shape|))
             case None => None
             case Some(r) => if ValidPair(r) then ReshapePair(r, ShapeOf(p)) else None)
    ensures Permuted(Product(p), nHead, nHeadKv) ==
            (match PermuteTensor(t, SwapOneTwo(|t.shape|))
             case None => None
             case Some(u) => ReshapeTensor(u, ShapeOf(p)))
  {
    hide ReshapePair, ReshapeTensor, PermutePair, PermuteTensor, Product, Size, SplitShape, HeadsOf, ValidPair;
  }

  lemma LastDimension(t: Tensor, split: Shape)
    requires Valid(t)
    ensures ReshapeTensor(t, split).Some? ==> ReshapeTensor(t, split).value.shape == split
  {
    NatShape(t, split);
  }

  lemma PermutedSplit(p: Pair, split: Shape, s: Pair, t: Tensor)
    requires ValidPair(p) && Plain(p) && Rank(p) > 0 && RowSize(p) > 0 && |split| >= 4
    requires SameFactors(p, s) && Product(s) == t && ReshapeTensor(Product(p), split) == Some(t)
    ensures PermutePair(s, SwapOneTwo(|s.b.shape|)).Some? <==> PermuteTensor(t, SwapOneTwo(|t.shape|)).Some?
    ensures PermutePair(s, SwapOneTwo(|s.b.shape|)).Some? ==>
              var r := PermutePair(s, SwapOneTwo(|s.b.shape|)).value;
              var u := PermuteTensor(t, SwapOneTwo(|t.shape|)).value;
              && ValidPair(r)
              && (ReshapePair(r, ShapeOf(p)).Some? <==> ReshapeTensor(u, ShapeOf(p)).Some?)
              && (ReshapePair(r, ShapeOf(p)).Some? ==>
                  SameFactors(p, ReshapePair(r, ShapeOf(p)).value)
                      && Product(ReshapePair(r, ShapeOf(p)).value) == ReshapeTensor(u, ShapeOf(p)).value)
  {
    hide ReshapePair, ReshapeTensor, PermutePair, PermuteTensor, Product, Size, Permute, IsPermutation;
    LastDimension(Product(p), split);
    var n := |s.b.shape|;
    assert n == |t.shape| == |split|;
    SwapIsPermutation(n);
    PermutePairAgrees(s, SwapOneTwo(n));
    TorchTakesFewer(t, SwapOneTwo(n));
    LastStaysLast(n);
    if PermutePair(s, SwapOneTwo(n)).Some? {
      PermutedBack(p, s, PermutePair(s, SwapOneTwo(n)).value, PermuteTensor(t, SwapOneTwo(n)).value);
    }
  }

  lemma LastStaysLast(n: nat)
    requires n >= 4
    ensures Supported(FromBack(SwapOneTwo(n), n), n) && FromBack(SwapOneTwo(n), n)[n - 1] == -1
  {
  }

  lemma PermutedBack(p: Pair, s: Pair, r: Pair, u: Tensor)
    requires ValidPair(p) && Plain(p) && Rank(p) > 0 && RowSize(p) > 0 && SameFactors(p, s) && SameFactors(s, r)
             && Product(r) == u
    ensures ReshapePair(r, ShapeOf(p)).Some? <==> ReshapeTensor(u, ShapeOf(p)).Some?
    ensures ReshapePair(r, ShapeOf(p)).Some? ==>
              SameFactors(p, ReshapePair(r, ShapeOf(p)).value)
                  && Product(ReshapePair(r, ShapeOf(p)).value) == ReshapeTensor(u, ShapeOf(p)).value
  {
    hide ReshapePair, ReshapeTensor, Product, Size;
    LastDimension(u, ShapeOf(p));
    ReshapePairAgrees(r, ShapeOf(p));
  }
}
