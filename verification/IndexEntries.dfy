/**
 What indexing a tensor or a low-rank pair returns, entry by entry (convert_lora_to_gguf.py), in terms
 of the slices and lists that are given.
 */
module IndexEntries {
  import opened Wrappers
  import opened Tensors
  import opened Lora
  import opened LoraIndex

  function Max(a: int, b: int): int {
    if a < b then b else a
  }

  function Min(a: int, b: int): int {
    if a < b then a else b
  }

  /** A bound of a slice: negative ones are counted from the end, and all are kept within 0 and `n`. */
  function Bound(b: Option<int>, absent: nat, n: nat): int {
    match b
    case None => absent
    case Some(i) => if i < 0 then Max(0, n + i) else Min(i, n)
  }

  /** How many positions an index takes of a dimension of length `n`. */
  function Taken(x: PyIndex, n: nat): int {
    match x
    case Slice(start, stop) => Max(0, Bound(stop, n, n) - Bound(start, 0, n))
    case List(ids) => |ids|
  }

  /** Which position of the dimension is the `i`-th that the index takes. */
  function Source(x: PyIndex, n: nat, i: nat): int
    requires x.List? ==> i < |x.ids|
  {
    match x
    case Slice(start, _) => Bound(start, 0, n) + i
    case List(ids) => if ids[i] < 0 then n + ids[i] else ids[i]
  }

  /** The positions in a list are within the dimension, from either end. */
  predicate InRange(x: PyIndex, n: nat) {
    x.List? ==> forall i :: 0 <= i < |x.ids| ==> 0 <= n + x.ids[i] && x.ids[i] < n
  }

  lemma ResolvedAt(x: PyIndex, n: nat)
    ensures Resolve(x, n).Some? <==> InRange(x, n)
    ensures Resolve(x, n).Some? ==>
              var r := Resolve(x, n).value;
              |r| == Taken(x, n) && forall i: nat :: i < |r| ==> r[i] == Source(x, n, i)
  {
  }

  /** The shape of what indexing returns: dimensions without an index stay whole. */
  function TakenShape(idx: seq<PyIndex>, shape: Shape): seq<int>
    requires |idx| <= |shape|
  {
    seq(|shape|, d requires 0 <= d < |shape| => if d < |idx| then Taken(idx[d], shape[d]) else shape[d])
  }

  /** Where the entry at `ix` comes from. */
  function SourceIndex(idx: seq<PyIndex>, shape: Shape, ix: Index): seq<int>
    requires |idx| <= |shape| == |ix| && forall d :: 0 <= d < |idx| && idx[d].List? ==> ix[d] < |idx[d].ids|
  {
    seq(|shape|, d requires 0 <= d < |shape| => if d < |idx| then Source(idx[d], shape[d], ix[d]) else ix[d])
  }

  lemma PadAt(idx: seq<PyIndex>, n: nat, d: nat)
    requires |idx| <= n && d < n
    ensures Pad(idx, n)[d] == if d < |idx| then idx[d] else ALL
  {
  }

  /** When indexing raises, and the shape of what it returns. */
  lemma GetItemShape(t: Tensor, idx: seq<PyIndex>)
    requires Valid(t) && OneList(idx)
    ensures GetItem(t, idx).Some? <==>
            && |idx| <= |t.shape|
            && forall d :: 0 <= d < |idx| ==> InRange(idx[d], t.shape[d])
    ensures GetItem(t, idx).Some? ==> GetItem(t, idx).value.shape == TakenShape(idx, t.shape)
  {
    hide Select, Pad, Resolve, InRange, Taken, Size;
    if |idx| <= |t.shape| {
      var full := Pad(idx, |t.shape|);
      forall d | 0 <= d < |t.shape|
        ensures full[d] == if d < |idx| then idx[d] else ALL
        ensures Resolve(full[d], t.shape[d]).Some? <==> InRange(full[d], t.shape[d])
        ensures d >= |idx| ==> Resolve(full[d], t.shape[d]).Some?
        ensures Resolve(full[d], t.shape[d]).Some? ==>
                  |Resolve(full[d], t.shape[d]).value| == if d < |idx| then Taken(idx[d], t.shape[d]) else t.shape[d]
      {
        PadAt(idx, |t.shape|, d);
        ResolvedAt(full[d], t.shape[d]);
      }
      ShapeOfResolved(t, idx, full);
    }
  }

  lemma ShapeOfResolved(t: Tensor, idx: seq<PyIndex>, full: seq<PyIndex>)
    requires Valid(t) && OneList(idx) && |idx| <= |t.shape| && full == Pad(idx, |t.shape|)
    requires forall d :: 0 <= d < |t.shape| ==> full[d] == if d < |idx| then idx[d] else ALL
    requires forall d :: 0 <= d < |t.shape| ==> (Resolve(full[d], t.shape[d]).Some? <==> InRange(full[d], t.shape[d]))
    requires forall d :: |idx| <= d < |t.shape| ==> Resolve(full[d], t.shape[d]).Some?
    requires forall d :: 0 <= d < |t.shape| && Resolve(full[d], t.shape[d]).Some? ==>
               |Resolve(full[d], t.shape[d]).value| == if d < |idx| then Taken(idx[d], t.shape[d]) else t.shape[d]
    ensures GetItem(t, idx).Some? <==> forall d :: 0 <= d < |idx| ==> InRange(idx[d], t.shape[d])
    ensures GetItem(t, idx).Some? ==> GetItem(t, idx).value.shape == TakenShape(idx, t.shape)
  {
    hide Select, Pad, Resolve, InRange, Taken, Size;
    GetItemIs(t, idx, full);
    if GetItem(t, idx).Some? {
      var sels := ResolveAll(full, t.shape).value;
      assert GetItem(t, idx).value.shape == Lengths(sels);
      assert Lengths(sels) == TakenShape(idx, t.shape);
    }
  }

  /** Every entry of what indexing returns is the entry of the tensor that the index asks for. */
  lemma GetItemAt(t: Tensor, idx: seq<PyIndex>, ix: Index)
    requires Valid(t) && OneList(idx) && GetItem(t, idx).Some? && InBounds(GetItem(t, idx).value.shape, ix)
    ensures |idx| <= |t.shape| == |ix| && forall d :: 0 <= d < |idx| && idx[d].List? ==> ix[d] < |idx[d].ids|
    ensures var jx := SourceIndex(idx, t.shape, ix);
            && (forall d :: 0 <= d < |jx| ==> 0 <= jx[d])
            && InBounds(t.shape, jx) && At(GetItem(t, idx).value, ix) == At(t, jx)
  {
    hide Select, Pad, Resolve, Source, Taken, Size, At, ResolveAll, Selects;
    var full := Pad(idx, |t.shape|);
    GetItemIs(t, idx, full);
    var sels := ResolveAll(full, t.shape).value;
    GetItemShape(t, idx);
    SelectAt(t, sels, ix);
    var jx := Picked(sels, ix);
    forall d | 0 <= d < |ix|
      ensures d < |idx| && idx[d].List? ==> ix[d] < |idx[d].ids|
      ensures jx[d] == if d < |idx| then Source(idx[d], t.shape[d], ix[d]) else ix[d]
    {
      PadAt(idx, |t.shape|, d);
      PickedIs(full, t.shape, sels, ix, d);
    }
    assert jx == SourceIndex(idx, t.shape, ix);
  }

  lemma PickedIs(full: seq<PyIndex>, shape: Shape, sels: Selection, ix: Index, d: nat)
    requires |full| == |shape| && ResolveAll(full, shape) == Some(sels) && InBounds(Lengths(sels), ix) && d < |ix|
    ensures d < |full| && (full[d].List? ==> ix[d] < |full[d].ids|)
    ensures Picked(sels, ix)[d] == Source(full[d], shape[d], ix[d])
    ensures full[d] == ALL ==> Picked(sels, ix)[d] == ix[d]
  {
    hide Resolve;
    ResolvedAt(full[d], shape[d]);
  }

  /** The same of a pair, on the products. */
  lemma PairItemAt(p: Pair, idx: seq<PyIndex>, ix: Index)
    requires ValidPair(p) && Plain(p) && idx != [] && OneList(idx) && GetItemPair(p, idx).Some?
    ensures ValidPair(GetItemPair(p, idx).value) && |idx| <= |p.b.shape|
    ensures ShapeOf(GetItemPair(p, idx).value) == TakenShape(idx, ShapeOf(p))
    ensures InBounds(ShapeOf(GetItemPair(p, idx).value), ix) ==>
              && |ix| == |ShapeOf(p)| && (forall d :: 0 <= d < |idx| && idx[d].List? ==> ix[d] < |idx[d].ids|)
              && var jx := SourceIndex(idx, ShapeOf(p), ix);
              && (forall d :: 0 <= d < |jx| ==> 0 <= jx[d])
              && InBounds(ShapeOf(p), jx) && At(Product(GetItemPair(p, idx).value), ix) == At(Product(p), jx)
  {
    hide GetItem, GetItemPair, Size, At, Source, Taken, Sum;
    GetItemAgrees(p, idx);
    var r := GetItemPair(p, idx).value;
    ProductShape(p);
    ProductShape(r);
    GetItemShape(Product(p), idx);
    hide Product;
    if InBounds(ShapeOf(r), ix) {
      GetItemAt(Product(p), idx, ix);
    }
  }

  lemma ProductShape(p: Pair)
    requires ValidPair(p)
    ensures Valid(Product(p)) && Product(p).shape == ShapeOf(p) && |ShapeOf(p)| == |p.b.shape|
  {
  }
}
