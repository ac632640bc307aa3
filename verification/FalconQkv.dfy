/**
 Falcon's regrouping of fused query, key and value rows (convert_hf_to_gguf.py,
 FalconModel.modify_tensors), on dense tensors and on low-rank pairs.
 */
module FalconQkv {
  import opened Wrappers
  import opened Tensors
  import opened Lora
  import opened LoraIndex
  import opened LoraCat
  import opened LlamaPermute

  /** `kv` groups, each of `q` query heads, one key head and one value head, of `d` rows of `w` elements. */
  datatype Layout = Layout(heads: nat, kv: nat, q: nat, d: nat, w: nat)

  /** The layout the hyperparameters give; None where the program divides by zero. */
  function LayoutOf(hidden: nat, nHead: nat, nHeadKv: Option<nat>): (r: Option<Layout>)
    ensures r.Some? <==> nHead > 0
    ensures r.Some? ==> r.value.kv > 0 && r.value.heads == nHead && r.value.w == r.value.d * nHead
  {
    if nHead == 0 then None
    else
      var kv := if nHeadKv.None? || nHeadKv.value == 0 then 1 else nHeadKv.value;
      Some(Layout(nHead, kv, nHead / kv, hidden / nHead, hidden / nHead * nHead))
  }

  /**
   What the hyperparameters mean: without a number of key and value heads, or with zero, there is one
   group, and rows and heads are shared out as far as they go.
   */
  lemma LayoutIs(hidden: nat, nHead: nat, nHeadKv: Option<nat>)
    requires nHead > 0
    ensures var g := LayoutOf(hidden, nHead, nHeadKv).value;
            && g.kv == (match nHeadKv case None => 1 case Some(n) => if n > 0 then n else 1)
            && g.q * g.kv <= nHead < (g.q + 1) * g.kv
            && g.d * nHead <= hidden < (g.d + 1) * nHead
  {
    var g := LayoutOf(hidden, nHead, nHeadKv).value;
    assert nHead == nHead / g.kv * g.kv + nHead % g.kv;
    assert hidden == hidden / nHead * nHead + hidden % nHead;
  }

  /** The rows that `n` heads take. */
  function RowsFor(n: nat, d: nat): nat {
    n * d
  }

  function GroupShape(g: Layout): Shape {
    [g.kv, g.q + 2, g.d] + [g.w]
  }

  const QUERIES: seq<PyIndex> := [ALL, Slice(None, Some(-2))]
  const KEYS: seq<PyIndex> := [ALL, List([-2])]
  const VALUES: seq<PyIndex> := [ALL, List([-1])]

  /** One kind of head out of all groups, as a matrix. */
  function Block(t: Tensor, idx: seq<PyIndex>, rows: nat, w: nat): Option<Tensor>
    requires Valid(t) && OneList(idx)
  {
    match GetItem(t, idx)
    case None => None
    case Some(x) => ReshapeTensor(x, [rows, w])
  }

  function BlockPair(p: Pair, idx: seq<PyIndex>, rows: nat, w: nat): Option<Pair>
    requires ValidPair(p) && OneList(idx)
  {
    match GetItemPair(p, idx)
    case None => None
    case Some(x) => if ValidPair(x) then ReshapePair(x, [rows, w]) else None
  }

  /** The query_key_value transform on a dense tensor; None where it raises. */
  function Regrouped(t: Tensor, g: Layout): Option<Tensor>
    requires Valid(t)
  {
    match ReshapeTensor(t, GroupShape(g))
    case None => None
    case Some(view) =>
      match (Block(view, QUERIES, RowsFor(g.heads, g.d), g.w), Block(view, KEYS, RowsFor(g.kv, g.d), g.w),
             Block(view, VALUES, RowsFor(g.kv, g.d), g.w))
      case (Some(q), Some(k), Some(v)) => Joined(q, k, v, t.shape)
      case _ => None
  }

  function Joined(q: Tensor, k: Tensor, v: Tensor, shape: Shape): Option<Tensor> {
    if !AllValid([q, k, v]) then None
    else
      match Cat([q, k, v])
      case None => None
      case Some(r) => ReshapeTensor(r, shape)
  }

  /** The same program run on a low-rank pair. */
  function RegroupedPair(p: Pair, g: Layout): Option<Pair>
    requires ValidPair(p)
  {
    match ReshapePair(p, GroupShape(g))
    case None => None
    case Some(view) =>
      if !ValidPair(view) then None
      else
        match (BlockPair(view, QUERIES, RowsFor(g.heads, g.d), g.w), BlockPair(view, KEYS, RowsFor(g.kv, g.d), g.w),
               BlockPair(view, VALUES, RowsFor(g.kv, g.d), g.w))
        case (Some(q), Some(k), Some(v)) => JoinedPair(q, k, v, ShapeOf(p))
        case _ => None
  }

  predicate Matrices(ps: seq<Pair>) {
    AllPairs(ps) && forall i :: 0 <= i < |ps| ==> |ps[i].b.shape| == 2
  }

  function JoinedPair(q: Pair, k: Pair, v: Pair, shape: Shape): Option<Pair> {
    if !Matrices([q, k, v]) then None
    else
      match CatPairs([q, k, v])
      case None => None
      case Some(r) => if ValidPair(r) then ReshapePair(r, shape) else None
  }

  // ---------------------------------------------------------------- on pairs

  /** A matrix pair cut out of `p`: it keeps A, up to its shape. */
  predicate CutFrom(p: Pair, x: Pair, w: nat)
    requires ValidPair(p)
  {
    && ValidPair(x) && Plain(x) && |x.b.shape| == 2 && Rank(x) == Rank(p) && RowSize(x) == w
    && x.a == Tensor([Rank(p), w], p.a.data)
  }

  lemma BlockAgrees(p: Pair, idx: seq<PyIndex>, rows: nat)
    requires ValidPair(p) && Plain(p) && Rank(p) > 0 && RowSize(p) > 0
    requires OneList(idx) && 0 < |idx| < |p.b.shape|
    ensures var r, t := BlockPair(p, idx, rows, RowSize(p)), Block(Product(p), idx, rows, RowSize(p));
            && (r.Some? <==> t.Some?)
            && (r.Some? ==> CutFrom(p, r.value, RowSize(p)) && Product(r.value) == t.value)
  {
    hide GetItem, GetItemPair, ReshapePair, ReshapeTensor, Product, Size, CutFrom, ValidPair, Plain, Rank, RowSize,
        OneList, ShapeOf;
    GetItemAgrees(p, idx);
    var x, y := GetItemPair(p, idx), GetItem(Product(p), idx);
    if x.Some? {
      CutAgrees(p, x.value, y.value, rows);
    }
  }

  lemma CutAgrees(p: Pair, x: Pair, y: Tensor, rows: nat)
    requires ValidPair(p) && Plain(p) && Rank(p) > 0 && RowSize(p) > 0
    requires ValidPair(x) && Plain(x) && Rank(x) == Rank(p) && x.a == p.a && Product(x) == y
    ensures var r, t := ReshapePair(x, [rows, RowSize(p)]), ReshapeTensor(y, [rows, RowSize(p)]);
            && (r.Some? <==> t.Some?)
            && (r.Some? ==> CutFrom(p, r.value, RowSize(p)) && Product(r.value) == t.value)
  {
    var w := RowSize(p);
    SameRowSize(p, x);
    hide ReshapePair, ReshapeTensor, Product, Size, CutFrom, ValidPair, Plain, Rank, RowSize, SameFactors, ShapeOf;
    LastDimension(y, [rows, w]);
    ReshapePairAgrees(x, [rows, w]);
    var z := ReshapePair(x, [rows, w]);
    if z.Some? {
      CutIs(p, x, z.value, rows);
    }
  }

  lemma SameRowSize(p: Pair, x: Pair)
    requires ValidPair(p) && ValidPair(x) && x.a == p.a
    ensures RowSize(x) == RowSize(p)
  {
  }

  lemma CutIs(p: Pair, x: Pair, z: Pair, rows: nat)
    requires ValidPair(p) && ValidPair(x) && x.a == p.a && Rank(x) == Rank(p) && SameFactors(x, z)
             && Product(z).shape == [rows, RowSize(p)]
    ensures CutFrom(p, z, RowSize(p))
  {
    assert ShapeOf(z) == [rows, RowSize(p)];
    assert |z.b.shape| == 2 && z.a.shape == [Rank(p), RowSize(p)];
  }

  /** Three cuts of one pair share A, so they can be joined. */
  lemma JoinedAgrees(p: Pair, q: Pair, k: Pair, v: Pair, w: nat, shape: Shape)
    requires ValidPair(p) && Rank(p) > 0 && w > 0 && CutFrom(p, q, w) && CutFrom(p, k, w) && CutFrom(p, v, w)
    requires |shape| >= 2 && shape[|shape| - 1] == w
    ensures var r, t := JoinedPair(q, k, v, shape), Joined(Product(q), Product(k), Product(v), shape);
            && (r.Some? <==> t.Some?)
            && (r.Some? ==> ValidPair(r.value) && Plain(r.value) && Rank(r.value) == Rank(p) && RowSize(r.value) == w
                            && r.value.a.data == p.a.data && Product(r.value) == t.value)
  {
    hide Cat, CatPairs, ReshapePair, ReshapeTensor, Product, Size;
    ThreeCuts(p, q, k, v, w);
    var ps := [q, k, v];
    var c, t := CatPairs(ps).value, Cat([Product(q), Product(k), Product(v)]).value;
    hide CutFrom, ValidPair, Plain, Rank, RowSize, SameFactors, Matrices, ShapeOf, CatFits, AllPairs;
    ReshapePairAgrees(c, shape);
    LastDimension(t, shape);
    JoinedKeepsA(p, q, c, shape, w);
  }

  lemma ThreeCuts(p: Pair, q: Pair, k: Pair, v: Pair, w: nat)
    requires ValidPair(p) && CutFrom(p, q, w) && CutFrom(p, k, w) && CutFrom(p, v, w)
    ensures Matrices([q, k, v]) && AllValid([Product(q), Product(k), Product(v)]) && CatPairs([q, k, v]).Some?
    ensures var c := CatPairs([q, k, v]).value;
            && ValidPair(c) && c.a == q.a && Plain(c) && Rank(c) == Rank(p) && RowSize(c) == w
            && Cat([Product(q), Product(k), Product(v)]) == Some(Product(c))
  {
    var ps := [q, k, v];
    hide Cat, CatPairs, Product, Size;
    assert Matrices(ps);
    assert Products(ps) == [Product(q), Product(k), Product(v)];
    CatPairsAgrees(ps);
    SharesA(p, q, CatPairs(ps).value, w);
  }

  lemma SharesA(p: Pair, q: Pair, c: Pair, w: nat)
    requires ValidPair(p) && CutFrom(p, q, w) && ValidPair(c) && c.a == q.a
    ensures Plain(c) && Rank(c) == Rank(p) && RowSize(c) == w
  {
  }

  lemma JoinedKeepsA(p: Pair, q: Pair, c: Pair, shape: Shape, w: nat)
    requires ValidPair(p) && CutFrom(p, q, w) && ValidPair(c) && Plain(c) && c.a == q.a && Rank(c) == Rank(p)
             && RowSize(c) == w
    requires ReshapePair(c, shape).Some? ==> SameFactors(c, ReshapePair(c, shape).value)
    ensures ReshapePair(c, shape).Some? ==>
              var r := ReshapePair(c, shape).value;
              ValidPair(r) && Plain(r) && Rank(r) == Rank(p) && RowSize(r) == w && r.a.data == p.a.data
  {
    hide ReshapePair, Size, ValidPair, Plain, Rank, RowSize;
  }

  /**
   The transform on a low-rank pair whose rows are as long as the layout says: it runs exactly when
   it runs on the product, the pieces always share A, and it gives a pair for the regrouped product.
   */
  lemma RegroupedPairAgrees(p: Pair, g: Layout)
    requires ValidPair(p) && Plain(p) && Rank(p) > 0 && RowSize(p) > 0
    ensures var r, t := RegroupedPair(p, g), Regrouped(Product(p), g);
            && (r.Some? <==> t.Some? && RowSize(p) == g.w)
            && (r.Some? ==> SameFactors(p, r.value) && Product(r.value) == t.value)
  {
    ReshapePairAgrees(p, GroupShape(g));
    LastDimension(Product(p), GroupShape(g));
    hide ReshapePair, ReshapeTensor, Product, Size, Block, BlockPair, Joined, JoinedPair, SameFactors;
    var view := ReshapePair(p, GroupShape(g));
    if view.Some? {
      ViewAgrees(p, g, view.value, ReshapeTensor(Product(p), GroupShape(g)).value);
    }
  }

  lemma ViewAgrees(p: Pair, g: Layout, view: Pair, t: Tensor)
    requires ValidPair(p) && Plain(p) && Rank(p) > 0 && RowSize(p) > 0 && RowSize(p) == g.w
    requires SameFactors(p, view) && ReshapePair(p, GroupShape(g)) == Some(view) && Product(view) == t
             && t.shape == GroupShape(g)
    requires ReshapeTensor(Product(p), GroupShape(g)) == Some(t)
    ensures var r, u := RegroupedPair(p, g), Regrouped(Product(p), g);
            && (r.Some? <==> u.Some?)
            && (r.Some? ==> SameFactors(p, r.value) && Product(r.value) == u.value)
  {
    ViewIsWide(p, g, view, t);
    UnfoldRegrouped(p, g, view, t);
    var q, k, v := BlockPair(view, QUERIES, RowsFor(g.heads, g.d), g.w), BlockPair(view, KEYS, RowsFor(g.kv, g.d), g.w),
        BlockPair(view, VALUES, RowsFor(g.kv, g.d), g.w);
    hide *;
    BlockAgrees(view, QUERIES, RowsFor(g.heads, g.d));
    BlockAgrees(view, KEYS, RowsFor(g.kv, g.d));
    BlockAgrees(view, VALUES, RowsFor(g.kv, g.d));
    if q.Some? && k.Some? && v.Some? {
      JoinedAgrees(view, q.value, k.value, v.value, g.w, ShapeOf(p));
      SameAsView(p, view, JoinedPair(q.value, k.value, v.value, ShapeOf(p)));
    }
  }

  lemma UnfoldRegrouped(p: Pair, g: Layout, view: Pair, t: Tensor)
    requires ValidPair(p) && ValidPair(view) && ReshapePair(p, GroupShape(g)) == Some(view)
    requires Valid(t) && ReshapeTensor(Product(p), GroupShape(g)) == Some(t)
    requires OneList(QUERIES) && OneList(KEYS) && OneList(VALUES)
    ensures RegroupedPair(p, g) ==
            (match (BlockPair(view, QUERIES, RowsFor(g.heads, g.d), g.w),
                    BlockPair(view, KEYS, RowsFor(g.kv, g.d), g.w), BlockPair(view, VALUES, RowsFor(g.kv, g.d), g.w))
             case (Some(q), Some(k), Some(v)) => JoinedPair(q, k, v, ShapeOf(p))
             case _ => None)
    ensures Regrouped(Product(p), g) ==
            (match (Block(t, QUERIES, RowsFor(g.heads, g.d), g.w), Block(t, KEYS, RowsFor(g.kv, g.d), g.w),
                    Block(t, VALUES, RowsFor(g.kv, g.d), g.w))
             case (Some(q), Some(k), Some(v)) => Joined(q, k, v, ShapeOf(p))
             case _ => None)
  {
    hide ReshapePair, ReshapeTensor, Block, BlockPair, Joined, JoinedPair, ValidPair, OneList, GroupShape, Size;
  }

  lemma ViewIsWide(p: Pair, g: Layout, view: Pair, t: Tensor)
    requires ValidPair(p) && ValidPair(view) && SameFactors(p, view) && Product(view) == t && t.shape == GroupShape(g)
    ensures |view.b.shape| == 4 && OneList(QUERIES) && OneList(KEYS) && OneList(VALUES) && Rank(view) == Rank(p)
            && RowSize(view) == RowSize(p)
    ensures |ShapeOf(p)| >= 2 && ShapeOf(p)[|ShapeOf(p)| - 1] == RowSize(p) && Plain(view)
  {
  }

  lemma SameAsView(p: Pair, view: Pair, r: Option<Pair>)
    requires ValidPair(p) && ValidPair(view) && SameFactors(p, view)
    requires r.Some? ==>
             ValidPair(r.value) && Plain(r.value) && Rank(r.value) == Rank(view) && RowSize(r.value) == RowSize(view)
                 && r.value.a.data == view.a.data
    ensures r.Some? ==> SameFactors(p, r.value)
  {
  }
}
