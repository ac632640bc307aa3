/**
 Indexing of low-rank tensors (convert_lora_to_gguf.py), against indexing of the product.
 */
module LoraIndex {
  import opened Wrappers
  import opened SliceBounds
  import opened Tensors
  import opened Lora

  /** A Python slice with step one, or a list of positions. */
  datatype PyIndex = Slice(start: Option<int>, stop: Option<int>) | List(ids: seq<int>)

  const ALL: PyIndex := Slice(None, None)

  function Range(lo: nat, hi: nat): (r: seq<nat>)
    requires lo <= hi
    ensures |r| == hi - lo && forall i :: 0 <= i < |r| ==> r[i] == lo + i
  {
    seq(hi - lo, i requires 0 <= i < hi - lo => (lo + i) as nat)
  }

  /** The positions an index selects in a dimension of length `n`; None for an index error. */
  function Resolve(x: PyIndex, n: nat): (r: Option<seq<nat>>)
    ensures r.Some? ==> AllBelow(r.value, n)
    ensures x == ALL ==> r == Some(Range(0, n))
  {
    match x
    case Slice(start, stop) =>
      var lo := if start.Some? then Clamp(start.value, n) else 0;
      var hi := if stop.Some? then Clamp(stop.value, n) else n;
      Some(if lo <= hi then Range(lo, hi) else [])
    case List(ids) =>
      if forall i :: 0 <= i < |ids| ==> 0 <= ids[i] + n && ids[i] < n
      then Some(seq(|ids|, i requires 0 <= i < |ids| => (if ids[i] < 0 then ids[i] + n else ids[i]) as nat))
      else None
  }

  type Selection = seq<seq<nat>>

  predicate Selects(sels: Selection, shape: Shape) {
    |sels| == |shape| && forall d :: 0 <= d < |sels| ==> AllBelow(sels[d], shape[d])
  }

  function ResolveAll(idx: seq<PyIndex>, shape: Shape): (r: Option<Selection>)
    requires |idx| == |shape|
    ensures r.Some? ==> Selects(r.value, shape)
    ensures r.Some? <==> forall d :: 0 <= d < |idx| ==> Resolve(idx[d], shape[d]).Some?
    ensures r.Some? ==> forall d :: 0 <= d < |idx| ==> r.value[d] == Resolve(idx[d], shape[d]).value
  {
    if forall d :: 0 <= d < |idx| ==> Resolve(idx[d], shape[d]).Some?
    then Some(seq(|idx|, d requires 0 <= d < |idx| => Resolve(idx[d], shape[d]).value))
    else None
  }

  function Lengths(sels: Selection): (s: Shape)
    ensures |s| == |sels| && forall d :: 0 <= d < |s| ==> s[d] == |sels[d]|
  {
    seq(|sels|, d requires 0 <= d < |sels| => |sels[d]|)
  }

  function Picked(sels: Selection, ix: Index): (r: Index)
    requires InBounds(Lengths(sels), ix)
    ensures |r| == |ix| && forall d :: 0 <= d < |ix| ==> ix[d] < |sels[d]| && r[d] == sels[d][ix[d]]
  {
    seq(|ix|, d requires 0 <= d < |ix| => assert ix[d] < Lengths(sels)[d]; sels[d][ix[d]])
  }

  lemma PickedInBounds(sels: Selection, shape: Shape, ix: Index)
    requires Selects(sels, shape) && InBounds(Lengths(sels), ix)
    ensures InBounds(shape, Picked(sels, ix))
  {
  }

  function Select(t: Tensor, sels: Selection): (r: Tensor)
    requires Valid(t) && Selects(sels, t.shape)
    ensures Valid(r) && r.shape == Lengths(sels)
  {
    Build(Lengths(sels), ix requires InBounds(Lengths(sels), ix) => PickedInBounds(sels, t.shape, ix);
          At(t, Picked(sels, ix)))
  }

  lemma SelectAt(t: Tensor, sels: Selection, ix: Index)
    requires Valid(t) && Selects(sels, t.shape) && InBounds(Lengths(sels), ix)
    ensures InBounds(t.shape, Picked(sels, ix)) && At(Select(t, sels), ix) == At(t, Picked(sels, ix))
  {
    PickedInBounds(sels, t.shape, ix);
    BuildAt(Lengths(sels), jx requires InBounds(Lengths(sels), jx) => PickedInBounds(sels, t.shape, jx);
            At(t, Picked(sels, jx)), ix);
  }

  function Pad(idx: seq<PyIndex>, n: nat): (r: seq<PyIndex>)
    requires |idx| <= n
    ensures |r| == n && r[..|idx|] == idx && forall d :: |idx| <= d < n ==> r[d] == ALL
  {
    idx + seq(n - |idx|, _ => ALL)
  }

  /** At most one list: several would be read together rather than dimension by dimension. */
  predicate OneList(idx: seq<PyIndex>) {
    forall i, j :: 0 <= i < j < |idx| ==> !(idx[i].List? && idx[j].List?)
  }

  /** Indexing with slices and at most one list: each dimension is selected by itself. */
  function GetItem(t: Tensor, idx: seq<PyIndex>): (r: Option<Tensor>)
    requires Valid(t) && OneList(idx)
    ensures r.Some? ==> Valid(r.value)
  {
    if |idx| > |t.shape| then None
    else
      match ResolveAll(Pad(idx, |t.shape|), t.shape)
      case None => None
      case Some(sels) => Some(Select(t, sels))
  }

  /** The indices of the two factors, one for each dimension. */
  function IndexA(idx: seq<PyIndex>, n: nat): (r: seq<PyIndex>)
    requires |idx| <= n && n > 0
    ensures |r| == n && r[n - 1] == Pad(idx, n)[n - 1] && forall d :: 0 <= d < n - 1 ==> r[d] == ALL
  {
    seq(n - 1, _ => ALL) + [Pad(idx, n)[n - 1]]
  }

  function IndexB(idx: seq<PyIndex>, n: nat): (r: seq<PyIndex>)
    requires |idx| <= n && n > 0
    ensures |r| == n && r[n - 1] == ALL && forall d :: 0 <= d < n - 1 ==> r[d] == Pad(idx, n)[d]
  {
    Pad(idx, n)[..n - 1] + [ALL]
  }

  /** LoraTorchTensor.__getitem__ for a tuple of slices and lists. */
  function GetItemPair(p: Pair, idx: seq<PyIndex>): Option<Pair>
    requires ValidPair(p) && OneList(idx)
  {
    var n := |p.b.shape|;
    if idx == [] || |idx| > n then None
    else
      var a := GetItem(p.a, IndexA(idx, n));
      var b := GetItem(p.b, Pad(idx, n)[..n - 1]);
      if a.Some? && b.Some? then Some(Pair(a.value, b.value)) else None
  }

  function FullSelection(shape: Shape): (s: Selection)
    ensures |s| == |shape| && forall d :: 0 <= d < |s| ==> s[d] == Range(0, shape[d])
  {
    seq(|shape|, d requires 0 <= d < |shape| => Range(0, shape[d]))
  }

  /** The selections on the two factors that a selection on the product amounts to. */
  function SelectionA(p: Pair, sels: Selection): (s: Selection)
    requires ValidPair(p) && Selects(sels, ShapeOf(p))
    ensures Selects(s, p.a.shape)
  {
    FullSelection(p.a.shape[..|sels| - 1]) + [sels[|sels| - 1]]
  }

  function SelectionB(p: Pair, sels: Selection): (s: Selection)
    requires ValidPair(p) && Selects(sels, ShapeOf(p))
    ensures Selects(s, p.b.shape)
  {
    sels[..|sels| - 1] + [Range(0, Rank(p))]
  }

  function SelectPair(p: Pair, sels: Selection): Pair
    requires ValidPair(p) && Selects(sels, ShapeOf(p))
  {
    Pair(Select(p.a, SelectionA(p, sels)), Select(p.b, SelectionB(p, sels)))
  }

  /** The selections of the factors, dimension by dimension. */
  lemma FactorSelection(p: Pair, sels: Selection)
    requires ValidPair(p) && Selects(sels, ShapeOf(p))
    ensures var n, sa, sb := |p.b.shape|, SelectionA(p, sels), SelectionB(p, sels);
            && |sels| == n && |sa| == n && |sb| == n
            && (forall d :: 0 <= d < n - 1 ==> sa[d] == Range(0, p.a.shape[d]) && sb[d] == sels[d])
            && sa[n - 1] == sels[n - 1] && sb[n - 1] == Range(0, Rank(p))
  {
  }

  lemma SelectedPair(p: Pair, sels: Selection, r: Pair)
    requires ValidPair(p) && Plain(p) && Selects(sels, ShapeOf(p))
    requires Valid(r.a) && Valid(r.b) && r.a.shape == Lengths(SelectionA(p, sels))
             && r.b.shape == Lengths(SelectionB(p, sels))
    ensures ValidPair(r) && Plain(r) && Rank(r) == Rank(p) && ShapeOf(r) == Lengths(sels)
  {
    FactorSelection(p, sels);
    hide Size, SelectionA, SelectionB, Selects;
    var n := |sels|;
    var sa, sb := SelectionA(p, sels), SelectionB(p, sels);
    forall d | 0 <= d < n
      ensures r.a.shape[d] == |sa[d]| && r.b.shape[d] == |sb[d]|
    {
    }
  }

  /** Where an entry of B and of A comes from. */
  lemma PickedRow(p: Pair, sels: Selection, ix: Index, q: nat)
    requires ValidPair(p) && Selects(sels, ShapeOf(p)) && InBounds(Lengths(sels), ix) && q < Rank(p)
    ensures var n := |ix|;
            var bx := ix[..n - 1] + [q];
            n >= 2 && InBounds(Lengths(SelectionB(p, sels)), bx)
            && Picked(SelectionB(p, sels), bx) == Picked(sels, ix)[..n - 1] + [q]
  {
    FactorSelection(p, sels);
    hide Size, SelectionB, Selects;
    var n, sb := |ix|, SelectionB(p, sels);
    var bx := ix[..n - 1] + [q];
    forall d | 0 <= d < n
      ensures bx[d] < Lengths(sb)[d] && sb[d][bx[d]] == (Picked(sels, ix)[..n - 1] + [q])[d]
    {
      assert ix[d] < Lengths(sels)[d];
    }
  }

  lemma PickedColumn(p: Pair, sels: Selection, ix: Index, q: nat)
    requires ValidPair(p) && Plain(p) && Selects(sels, ShapeOf(p)) && InBounds(Lengths(sels), ix) && q < Rank(p)
    ensures var n := |ix|;
            n >= 2 && var ax := seq(n - 2, _ => 0) + [q, ix[n - 1]];
            && InBounds(Lengths(SelectionA(p, sels)), ax)
            && Picked(SelectionA(p, sels), ax) == seq(n - 2, _ => 0) + [q, Picked(sels, ix)[n - 1]]
  {
    FactorSelection(p, sels);
    hide Size, SelectionA, Selects;
    var n, sa := |ix|, SelectionA(p, sels);
    var ax, bx := seq(n - 2, _ => 0) + [q, ix[n - 1]], seq(n - 2, _ => 0) + [q, Picked(sels, ix)[n - 1]];
    assert ix[n - 1] < Lengths(sels)[n - 1];
    forall d | 0 <= d < n
      ensures ax[d] < |sa[d]| && sa[d][ax[d]] == bx[d]
    {
      assert d == n - 2 ==> p.a.shape[d] == Rank(p);
    }
  }

  lemma SelectedTerm(p: Pair, sels: Selection, r: Pair, ix: Index, q: nat)
    requires ValidPair(p) && Plain(p) && Selects(sels, ShapeOf(p)) && r == SelectPair(p, sels)
    requires ValidPair(r) && Plain(r) && ShapeOf(r) == Lengths(sels) && InBounds(ShapeOf(r), ix)
    requires q < Rank(p) == Rank(r)
    ensures InBounds(ShapeOf(p), Picked(sels, ix))
    ensures Term(r, ix, q) == Term(p, Picked(sels, ix), q)
  {
    hide At, Size, Select, SelectionA, SelectionB, Selects, Lengths;
    var n, jx := |ix|, Picked(sels, ix);
    PickedInBounds(sels, ShapeOf(p), ix);
    TermInBounds(r, ix, q);
    TermInBounds(p, jx, q);
    LeadIsZero(r, ix);
    LeadIsZero(p, jx);
    PickedRow(p, sels, ix, q);
    PickedColumn(p, sels, ix, q);
    SelectAt(p.b, SelectionB(p, sels), ix[..n - 1] + [q]);
    SelectAt(p.a, SelectionA(p, sels), seq(n - 2, _ => 0) + [q, ix[n - 1]]);
  }

  /** Selecting from the pair selects from the product. */
  lemma SelectAgrees(p: Pair, sels: Selection)
    requires ValidPair(p) && Plain(p) && Selects(sels, ShapeOf(p))
    ensures var r := SelectPair(p, sels);
            ValidPair(r) && Plain(r) && Rank(r) == Rank(p) && Product(r) == Select(Product(p), sels)
  {
    var r := SelectPair(p, sels);
    SelectedPair(p, sels, r);
    hide Term, Sum, Product, Select, At, Size, SelectPair;
    forall ix | InBounds(Lengths(sels), ix)
      ensures At(Product(r), ix) == At(Select(Product(p), sels), ix)
    {
      SelectAt(Product(p), sels, ix);
      ProductAt(p, Picked(sels, ix));
      ProductAt(r, ix);
      forall q | 0 <= q < Rank(p)
        ensures Term(r, ix, q) == Term(p, Picked(sels, ix), q)
      {
        SelectedTerm(p, sels, r, ix, q);
      }
      SameSums(r, ix, p, Picked(sels, ix), Rank(p));
    }
    Extensional(Product(r), Select(Product(p), sels));
  }

  /** Selecting everything changes nothing. */
  lemma SelectNothingNew(t: Tensor)
    requires Valid(t)
    ensures Selects(FullSelection(t.shape), t.shape) && Select(t, FullSelection(t.shape)) == t
  {
    var sels := FullSelection(t.shape);
    assert Lengths(sels) == t.shape;
    forall ix | InBounds(t.shape, ix)
      ensures At(Select(t, sels), ix) == At(t, ix)
    {
      SelectAt(t, sels, ix);
      assert Picked(sels, ix) == ix;
    }
    Extensional(Select(t, sels), t);
  }

  /** The product's index resolves exactly when both factors' indices do. */
  lemma FactorsResolve(p: Pair, idx: seq<PyIndex>)
    requires ValidPair(p) && 0 < |idx| <= |p.b.shape|
    ensures var n := |p.b.shape|;
            ResolveAll(Pad(idx, n), ShapeOf(p)).Some?
            <==> ResolveAll(IndexA(idx, n), p.a.shape).Some? && ResolveAll(IndexB(idx, n), p.b.shape).Some?
  {
    hide Resolve, Pad, IndexA, IndexB, Size, ResolveAll;
    var n := |p.b.shape|;
    var full, ia, ib := Pad(idx, n), IndexA(idx, n), IndexB(idx, n);
    forall d | 0 <= d < n
      ensures Resolve(full[d], ShapeOf(p)[d]).Some? <==>
              Resolve(ia[d], p.a.shape[d]).Some? && Resolve(ib[d], p.b.shape[d]).Some?
    {
      FactorResolves(p, idx, d);
    }
  }

  /** One dimension at a time: the last index goes to A, the others to B. */
  lemma FactorResolves(p: Pair, idx: seq<PyIndex>, d: nat)
    requires ValidPair(p) && 0 < |idx| <= |p.b.shape| && d < |p.b.shape|
    ensures var n := |p.b.shape|;
            var x, xa, xb := Resolve(Pad(idx, n)[d], ShapeOf(p)[d]), Resolve(IndexA(idx, n)[d], p.a.shape[d]),
                Resolve(IndexB(idx, n)[d], p.b.shape[d]);
            && (d == n - 1 ==> xa == x && xb == Some(Range(0, p.b.shape[d])))
            && (d < n - 1 ==> xb == x && xa == Some(Range(0, p.a.shape[d])))
  {
    hide Resolve, Pad, IndexA, IndexB, Size;
    AllResolves(p.a.shape);
    AllResolves(p.b.shape);
  }

  /** The selections that the factors' own indices resolve to. */
  lemma FactorSelections(p: Pair, idx: seq<PyIndex>, s: Selection, sa: Selection, sb: Selection)
    requires ValidPair(p) && 0 < |idx| <= |p.b.shape|
    requires ResolveAll(Pad(idx, |p.b.shape|), ShapeOf(p)) == Some(s)
    requires ResolveAll(IndexA(idx, |p.b.shape|), p.a.shape) == Some(sa)
             && ResolveAll(IndexB(idx, |p.b.shape|), p.b.shape) == Some(sb)
    ensures Selects(s, ShapeOf(p)) && sa == SelectionA(p, s) && sb == SelectionB(p, s)
  {
    SelectionLengths(p, s);
    hide *;
    forall d | 0 <= d < |sa|
      ensures sa[d] == SelectionA(p, s)[d]
    {
      FactorSelectionAt(p, idx, s, sa, sb, d);
    }
    forall d | 0 <= d < |sb|
      ensures sb[d] == SelectionB(p, s)[d]
    {
      FactorSelectionAt(p, idx, s, sa, sb, d);
    }
  }

  lemma SelectionLengths(p: Pair, sels: Selection)
    requires ValidPair(p) && Selects(sels, ShapeOf(p))
    ensures |p.a.shape| == |p.b.shape| == |SelectionA(p, sels)| == |SelectionB(p, sels)|
  {
  }

  lemma FactorSelectionAt(p: Pair, idx: seq<PyIndex>, s: Selection, sa: Selection, sb: Selection, d: nat)
    requires ValidPair(p) && 0 < |idx| <= |p.b.shape| && d < |p.b.shape|
    requires ResolveAll(Pad(idx, |p.b.shape|), ShapeOf(p)) == Some(s)
    requires ResolveAll(IndexA(idx, |p.b.shape|), p.a.shape) == Some(sa)
             && ResolveAll(IndexB(idx, |p.b.shape|), p.b.shape) == Some(sb)
    ensures |sa| == |sb| == |p.b.shape| && Selects(s, ShapeOf(p)) && sa[d] == SelectionA(p, s)[d]
            && sb[d] == SelectionB(p, s)[d]
  {
    hide Resolve, Pad, IndexA, IndexB, Size, SelectionA, SelectionB, Selects;
    FactorResolves(p, idx, d);
    FactorSelection(p, s);
  }

  lemma AllResolves(shape: Shape)
    ensures forall d :: 0 <= d < |shape| ==> Resolve(ALL, shape[d]) == Some(Range(0, shape[d]))
  {
  }

  /** What indexing does, given what the indices resolve to. */
  lemma GetItemIs(t: Tensor, idx: seq<PyIndex>, full: seq<PyIndex>)
    requires Valid(t) && |idx| <= |t.shape| && full == Pad(idx, |t.shape|) && OneList(idx)
    ensures GetItem(t, idx) == match ResolveAll(full, t.shape) case None => None
            case Some(sels) => Some(Select(t, sels))
  {
  }

  /** The index given to A, and the one given to B with the rank's dimension left whole. */
  lemma FactorIndices(idx: seq<PyIndex>, n: nat)
    requires 0 < |idx| <= n && OneList(idx)
    ensures OneList(IndexA(idx, n)) && OneList(Pad(idx, n)[..n - 1])
    ensures Pad(IndexA(idx, n), n) == IndexA(idx, n) && Pad(Pad(idx, n)[..n - 1], n) == IndexB(idx, n)
  {
  }

  /** What indexing a pair does, given what the factors' indices resolve to. */
  lemma GetItemPairIs(p: Pair, idx: seq<PyIndex>)
    requires ValidPair(p) && 0 < |idx| <= |p.b.shape| && OneList(idx)
    ensures var n := |p.b.shape|;
            |p.a.shape| == n && GetItemPair(p, idx) ==
            match (ResolveAll(IndexA(idx, n), p.a.shape), ResolveAll(IndexB(idx, n), p.b.shape))
            case (Some(sa), Some(sb)) => Some(Pair(Select(p.a, sa), Select(p.b, sb)))
            case _ => None
  {
    hide Select, Resolve, ResolveAll, Size, Pad, GetItem, Selects, IndexA, IndexB, OneList;
    var n := |p.b.shape|;
    FactorIndices(idx, n);
    GetItemIs(p.a, IndexA(idx, n), IndexA(idx, n));
    GetItemIs(p.b, Pad(idx, n)[..n - 1], IndexB(idx, n));
  }

  /** Indexing the pair is selecting with the selection of the product. */
  lemma GetItemPairSelects(p: Pair, idx: seq<PyIndex>)
    requires ValidPair(p) && 0 < |idx| <= |p.b.shape| && OneList(idx)
    ensures GetItemPair(p, idx) == match ResolveAll(Pad(idx, |p.b.shape|), ShapeOf(p)) case None => None
            case Some(sels) => Some(SelectPair(p, sels))
  {
    var n := |p.b.shape|;
    SelectedLengths(p);
    GetItemPairIs(p, idx);
    FactorsResolve(p, idx);
    hide *;
    var s, sa, sb := ResolveAll(Pad(idx, n), ShapeOf(p)), ResolveAll(IndexA(idx, n), p.a.shape),
        ResolveAll(IndexB(idx, n), p.b.shape);
    if s.Some? {
      FactorSelections(p, idx, s.value, sa.value, sb.value);
      PairOfSelections(p, s.value);
    }
  }

  lemma SelectedLengths(p: Pair)
    requires ValidPair(p)
    ensures |ShapeOf(p)| == |p.b.shape| == |p.a.shape| > 0 && Valid(p.a) && Valid(p.b)
  {
  }

  lemma PairOfSelections(p: Pair, sels: Selection)
    requires ValidPair(p) && Selects(sels, ShapeOf(p))
    ensures Valid(p.a) && Valid(p.b) && SelectPair(p, sels)
            == Pair(Select(p.a, SelectionA(p, sels)), Select(p.b, SelectionB(p, sels)))
  {
  }

  /**
   LoraTorchTensor.__getitem__ against the product: it raises exactly when indexing the product
   would, and selects from the product; when only leading dimensions are indexed A stays as it is.
   */
  lemma GetItemAgrees(p: Pair, idx: seq<PyIndex>)
    requires ValidPair(p) && Plain(p) && idx != [] && OneList(idx)
    ensures var r, t := GetItemPair(p, idx), GetItem(Product(p), idx);
            && (r.Some? <==> t.Some?)
            && (r.Some? ==>
                  && ValidPair(r.value) && Plain(r.value) && Rank(r.value) == Rank(p)
                  && Product(r.value) == t.value)
            && (r.Some? && |idx| < |p.b.shape| ==> r.value.a == p.a)
  {
    var n := |p.b.shape|;
    if |idx| <= n {
      GetItemPairSelects(p, idx);
      GetItemIs(Product(p), idx, Pad(idx, n));
      hide Product, Select, Resolve, ResolveAll, Pad, Size, SelectionA, SelectionB, GetItemPair, GetItem;
      var s := ResolveAll(Pad(idx, n), ShapeOf(p));
      if s.Some? {
        SelectAgrees(p, s.value);
        if |idx| < n {
          KeepsA(p, idx, s.value);
        }
      }
    }
  }

  lemma KeepsA(p: Pair, idx: seq<PyIndex>, sels: Selection)
    requires ValidPair(p) && 0 < |idx| < |p.b.shape| && ResolveAll(Pad(idx, |p.b.shape|), ShapeOf(p)) == Some(sels)
    ensures Select(p.a, SelectionA(p, sels)) == p.a
  {
    hide Select, Pad, Size;
    SelectNothingNew(p.a);
    var n := |p.b.shape|;
    assert sels[n - 1] == Range(0, p.a.shape[n - 1]);
    assert SelectionA(p, sels) == FullSelection(p.a.shape);
  }
}
