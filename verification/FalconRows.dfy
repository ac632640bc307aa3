/** Where Falcon's regrouping moves each row, and when it runs (convert_hf_to_gguf.py, FalconModel.modify_tensors). */
module FalconRows {
  import opened Wrappers
  import opened Tensors
  import opened TensorRows
  import opened LoraIndex
  import opened LoraCat
  import opened Lora
  import opened LlamaPermute
  import opened FalconQkv

  // ---------------------------------------------------------------- row numbers

  /** Row `e` of head `j` of group `a`, before: queries, key and value of a group are contiguous. */
  function OldRow(g: Layout, a: nat, j: nat, e: nat): nat {
    Cell(Cell(a, g.q + 2, j), g.d, e)
  }

  /** The same row, after: all queries, then all keys, then all values, each in group order. */
  function NewRow(g: Layout, a: nat, j: nat, e: nat): nat {
    if j < g.q then Cell(Cell(a, g.q, j), g.d, e)
    else if j == g.q then RowsFor(RowsFor(g.kv, g.q), g.d) + Cell(a, g.d, e)
    else RowsFor(RowsFor(g.kv, g.q), g.d) + RowsFor(g.kv, g.d) + Cell(a, g.d, e)
  }

  /** All rows there are. */
  function RowCount(g: Layout): nat {
    RowsFor(RowsFor(g.kv, g.q + 2), g.d)
  }

  predicate IsRow(g: Layout, a: nat, j: nat, e: nat) {
    a < g.kv && j < g.q + 2 && e < g.d
  }

  function Quot(n: nat, d: nat): nat
    requires d > 0
  {
    n / d
  }

  function Rem(n: nat, d: nat): nat
    requires d > 0
  {
    n % d
  }

  /** Which group, head and row a number stands for, before. */
  function OldPlace(g: Layout, row: nat): (nat, nat, nat)
    requires g.d > 0
  {
    (Quot(Quot(row, g.d), g.q + 2), Rem(Quot(row, g.d), g.q + 2), Rem(row, g.d))
  }

  /** And after. */
  function NewPlace(g: Layout, row: nat): (nat, nat, nat)
    requires g.d > 0
  {
    var queries, keys := RowsFor(RowsFor(g.kv, g.q), g.d), RowsFor(g.kv, g.d);
    if row < queries then (if g.q == 0 then (0, 0, 0)
                           else (Quot(Quot(row, g.d), g.q), Rem(Quot(row, g.d), g.q), Rem(row, g.d)))
    else if row < queries + keys then (Quot(row - queries, g.d), g.q, Rem(row - queries, g.d))
    else (Quot(row - queries - keys, g.d), g.q + 1, Rem(row - queries - keys, g.d))
  }

  lemma Counts(g: Layout)
    ensures RowCount(g) == RowsFor(RowsFor(g.kv, g.q), g.d) + RowsFor(g.kv, g.d) + RowsFor(g.kv, g.d)
  {
    var x := g.kv * g.q;
    assert g.kv * (g.q + 2) == x + g.kv + g.kv;
    Distributes(x + g.kv, g.kv, g.d);
    Distributes(x, g.kv, g.d);
  }

  /** Both numberings are one to one, and within the row count. */
  lemma RowsHavePlaces(g: Layout, a: nat, j: nat, e: nat)
    requires IsRow(g, a, j, e)
    ensures OldRow(g, a, j, e) < RowCount(g) && OldPlace(g, OldRow(g, a, j, e)) == (a, j, e)
    ensures NewRow(g, a, j, e) < RowCount(g) && NewPlace(g, NewRow(g, a, j, e)) == (a, j, e)
  {
    Counts(g);
    Digits(a, g.kv, j, g.q + 2);
    Digits(Cell(a, g.q + 2, j), RowsFor(g.kv, g.q + 2), e, g.d);
    Digits(a, g.kv, e, g.d);
    if j < g.q {
      Digits(a, g.kv, j, g.q);
      Digits(Cell(a, g.q, j), RowsFor(g.kv, g.q), e, g.d);
    }
  }

  /** And every number below the row count is used: the regrouping is a bijection on rows. */
  lemma PlacesHaveRows(g: Layout, row: nat)
    requires row < RowCount(g)
    ensures g.d > 0
    ensures var (a, j, e) := OldPlace(g, row); IsRow(g, a, j, e) && OldRow(g, a, j, e) == row
    ensures var (a, j, e) := NewPlace(g, row); IsRow(g, a, j, e) && NewRow(g, a, j, e) == row
  {
    Undigits(row, RowsFor(g.kv, g.q + 2), g.d);
    Undigits(row / g.d, g.kv, g.q + 2);
    NewPlaceHasRow(g, row);
  }

  lemma NewPlaceHasRow(g: Layout, row: nat)
    requires row < RowCount(g) && g.d > 0
    ensures var (a, j, e) := NewPlace(g, row); IsRow(g, a, j, e) && NewRow(g, a, j, e) == row
  {
    Counts(g);
    var queries, keys := RowsFor(RowsFor(g.kv, g.q), g.d), RowsFor(g.kv, g.d);
    hide RowCount, RowsFor, Quot, Rem, Cell;
    if row < queries {
      QueryPlace(g, row);
    } else if row < queries + keys {
      HeadPlace(g, row - queries);
    } else {
      HeadPlace(g, row - queries - keys);
    }
  }

  lemma QueryPlace(g: Layout, row: nat)
    requires row < RowsFor(RowsFor(g.kv, g.q), g.d) && g.d > 0
    ensures g.q > 0
    ensures var n := Quot(row, g.d); Quot(n, g.q) < g.kv && Rem(n, g.q) < g.q && Rem(row, g.d) < g.d
    ensures Cell(Cell(Quot(Quot(row, g.d), g.q), g.q, Rem(Quot(row, g.d), g.q)), g.d, Rem(row, g.d)) == row
  {
    Undigits(row, RowsFor(g.kv, g.q), g.d);
    Undigits(row / g.d, g.kv, g.q);
  }

  lemma HeadPlace(g: Layout, row: nat)
    requires row < RowsFor(g.kv, g.d) && g.d > 0
    ensures Quot(row, g.d) < g.kv && Rem(row, g.d) < g.d && Cell(Quot(row, g.d), g.d, Rem(row, g.d)) == row
  {
    Undigits(row, g.kv, g.d);
  }

  // ---------------------------------------------------------------- one kind of head

  function BlockSelection(g: Layout, mid: seq<nat>): Selection {
    [Range(0, g.kv), mid, Range(0, g.d), Range(0, g.w)]
  }

  lemma BlockSelects(view: Tensor, g: Layout, idx: seq<PyIndex>, mid: seq<nat>)
    requires Valid(view) && view.shape == GroupShape(g) && OneList(idx) && |idx| == 2 && idx[0] == ALL
    requires Resolve(idx[1], g.q + 2) == Some(mid)
    ensures Selects(BlockSelection(g, mid), view.shape)
            && GetItem(view, idx) == Some(Select(view, BlockSelection(g, mid)))
  {
    var full, sels := Pad(idx, 4), BlockSelection(g, mid);
    assert full[0] == ALL && full[1] == idx[1] && full[2] == ALL && full[3] == ALL;
    hide Resolve, Select, Size;
    assert Resolve(ALL, g.kv) == Some(Range(0, g.kv)) && Resolve(ALL, g.d) == Some(Range(0, g.d))
        && Resolve(ALL, g.w) == Some(Range(0, g.w));
    var r := ResolveAll(full, view.shape);
    assert forall d :: 0 <= d < 4 ==> Resolve(full[d], view.shape[d]) == Some(sels[d]);
    assert r.value == sels;
  }

  lemma BlockLengths(g: Layout, mid: seq<nat>)
    ensures Lengths(BlockSelection(g, mid)) == [g.kv, |mid|, g.d] + [g.w]
    ensures Size([g.kv, |mid|, g.d] + [g.w]) == g.kv * (|mid| * (g.d * g.w))
  {
    Size4(g.kv, |mid|, g.d, [g.w]);
    SizeSnoc([], g.w);
    assert [] + [g.w] == [g.w];
  }

  /** When a block is as long as the program says, and where its elements come from. */
  lemma BlockIs(view: Tensor, g: Layout, idx: seq<PyIndex>, mid: seq<nat>, rows: nat)
    requires Valid(view) && view.shape == GroupShape(g) && OneList(idx) && |idx| == 2 && idx[0] == ALL
    requires Resolve(idx[1], g.q + 2) == Some(mid)
    ensures Block(view, idx, rows, g.w).Some? <==>
            RowsFor(rows, g.w) == RowsFor(RowsFor(RowsFor(g.kv, |mid|), g.d), g.w)
    ensures Selects(BlockSelection(g, mid), view.shape)
    ensures Block(view, idx, rows, g.w).Some? ==>
            Block(view, idx, rows, g.w).value == Tensor([rows, g.w], Select(view, BlockSelection(g, mid)).data)
  {
    BlockSelects(view, g, idx, mid);
    BlockLengths(g, mid);
    hide GetItem, Select, Size, Selects, Lengths, BlockSelection, ReshapeTensor;
    NatShape(Select(view, BlockSelection(g, mid)), [rows, g.w]);
    MatrixSize(rows, g.w);
    FourFactors(g.kv, |mid|, g.d, g.w);
  }

  lemma FourFactors(a: nat, b: nat, c: nat, d: nat)
    ensures a * (b * (c * d)) == RowsFor(RowsFor(RowsFor(a, b), c), d)
  {
    Associates(a, b, c);
    Associates(a * b, c, d);
    Associates(a, b, c * d);
  }

  lemma BlockElement(view: Tensor, g: Layout, mid: seq<nat>, a: nat, j: nat, e: nat, c: nat)
    requires Valid(view) && view.shape == GroupShape(g) && Selects(BlockSelection(g, mid), view.shape)
    requires a < g.kv && j < |mid| && e < g.d && c < g.w
    ensures mid[j] < g.q + 2
    ensures var x, y := Cell(Cell(Cell(a, |mid|, j), g.d, e), g.w, c),
            Cell(Cell(Cell(a, g.q + 2, mid[j]), g.d, e), g.w, c);
            var s := Select(view, BlockSelection(g, mid));
            x < |s.data| && y < |view.data| && s.data[x] == view.data[y]
  {
    var sels := BlockSelection(g, mid);
    var ix, iy := [a, j, e] + [c], [a, mid[j], e] + [c];
    BlockLengths(g, mid);
    assert AllBelow(sels[1], view.shape[1]);
    OneDimension(g.w, c);
    Bounds4(g.kv, |mid|, g.d, [g.w], a, j, e, [c]);
    Bounds4(g.kv, g.q + 2, g.d, [g.w], a, mid[j], e, [c]);
    PickedBlock(g, mid, a, j, e, c);
    hide Select, Size, Ravel, Selects, BlockSelection, Lengths, InBounds, At, Picked;
    SelectAt(view, sels, ix);
    ElementAt(Select(view, sels), g.kv, |mid|, g.d, [g.w], a, j, e, [c]);
    ElementAt(view, g.kv, g.q + 2, g.d, [g.w], a, mid[j], e, [c]);
  }

  lemma OneDimension(w: nat, c: nat)
    requires c < w
    ensures Size([w]) == w && Ravel([w], [c]) == c && InBounds([w], [c])
  {
    RavelSnoc([], [], w, c);
    assert [] + [w] == [w] && [] + [c] == [c];
  }

  lemma PickedBlock(g: Layout, mid: seq<nat>, a: nat, j: nat, e: nat, c: nat)
    requires a < g.kv && j < |mid| && e < g.d && c < g.w && InBounds(Lengths(BlockSelection(g, mid)), [a, j, e] + [c])
    ensures Picked(BlockSelection(g, mid), [a, j, e] + [c]) == [a, mid[j], e] + [c]
  {
    var p := Picked(BlockSelection(g, mid), [a, j, e] + [c]);
    assert |p| == 4 && p[0] == a && p[1] == mid[j] && p[2] == e && p[3] == c;
  }

  // ---------------------------------------------------------------- the whole transform

  lemma Kinds(g: Layout)
    ensures OneList(QUERIES) && OneList(KEYS) && OneList(VALUES)
    ensures Resolve(QUERIES[1], g.q + 2) == Some(Range(0, g.q))
    ensures Resolve(KEYS[1], g.q + 2) == Some([g.q]) && Resolve(VALUES[1], g.q + 2) == Some([g.q + 1])
  {
    var k, v := Resolve(KEYS[1], g.q + 2), Resolve(VALUES[1], g.q + 2);
    assert k.Some? && k.value == [g.q] && v.Some? && v.value == [g.q + 1];
  }

  /** The three blocks, in the viewed tensor. */
  function Part(view: Tensor, g: Layout, mid: seq<nat>): (r: seq<int>)
    requires Valid(view) && view.shape == GroupShape(g) && AllBelow(mid, g.q + 2)
    ensures |r| == RowsFor(RowsFor(RowsFor(g.kv, |mid|), g.d), g.w)
  {
    BlockLengths(g, mid);
    FourFactors(g.kv, |mid|, g.d, g.w);
    Select(view, BlockSelection(g, mid)).data
  }

  /** All queries, then all keys, then all values. */
  function Regroup(view: Tensor, g: Layout): seq<int>
    requires Valid(view) && view.shape == GroupShape(g)
  {
    Part(view, g, Range(0, g.q)) + Part(view, g, [g.q]) + Part(view, g, [g.q + 1])
  }

  /** It runs exactly when the groups fill the tensor and the heads divide evenly over the groups. */
  lemma RegroupedIs(t: Tensor, g: Layout)
    requires Valid(t) && g.d > 0 && g.w > 0
    ensures Regrouped(t, g).Some? <==> Size(t.shape) == RowsFor(RowCount(g), g.w) && g.heads == RowsFor(g.kv, g.q)
    ensures Regrouped(t, g).Some? ==>
              && Size(GroupShape(g)) == |t.data|
              && var view := Tensor(GroupShape(g), t.data);
                 Regrouped(t, g).value == Tensor(t.shape, Regroup(view, g))
  {
    NatShape(t, GroupShape(g));
    Size4(g.kv, g.q + 2, g.d, [g.w]);
    OneDimension(g.w, 0);
    FourFactors(g.kv, g.q + 2, g.d, g.w);
    hide Size, Regrouped;
    if Size(t.shape) == RowsFor(RowCount(g), g.w) {
      ViewIs(t, g, Tensor(GroupShape(g), t.data));
    } else {
      NoView(t, g);
    }
  }

  /** In terms of the hyperparameters: the heads must divide evenly over the key-value heads. */
  lemma RegroupedRuns(t: Tensor, hidden: nat, nHead: nat, nHeadKv: Option<nat>, g: Layout)
    requires Valid(t) && LayoutOf(hidden, nHead, nHeadKv) == Some(g) && g.d > 0
    ensures Regrouped(t, g).Some? <==>
            nHead % g.kv == 0 && Size(t.shape) == RowsFor(RowsFor(nHead + 2 * g.kv, g.d), g.w)
  {
    NonZero(g.d, nHead);
    hide Regrouped, Size, RowCount, RowsFor;
    RegroupedIs(t, g);
    HeadsDivide(nHead, g.kv, g);
  }

  lemma NonZero(a: nat, b: nat)
    requires a > 0 && b > 0
    ensures a * b > 0
  {
  }

  lemma HeadsDivide(n: nat, kv: nat, g: Layout)
    requires kv > 0 && kv == g.kv && g.q == n / kv
    ensures n == RowsFor(g.kv, g.q) <==> n % kv == 0
    ensures n % kv == 0 ==> RowCount(g) == RowsFor(n + 2 * kv, g.d)
  {
    var q := n / kv;
    assert n == kv * q + n % kv;
    assert kv * (q + 2) == kv * q + 2 * kv;
  }

  lemma NoView(t: Tensor, g: Layout)
    requires Valid(t) && ReshapeTensor(t, GroupShape(g)) == None
    ensures Regrouped(t, g) == None
  {
  }

  lemma SameCount(heads: nat, n: nat, d: nat, w: nat)
    requires d > 0 && w > 0
    ensures RowsFor(RowsFor(heads, d), w) == RowsFor(RowsFor(n, d), w) <==> heads == n
  {
    if heads * d * w == n * d * w {
      MulCancel(heads * d, n * d, w);
      MulCancel(heads, n, d);
    }
  }

  lemma ViewIs(t: Tensor, g: Layout, view: Tensor)
    requires Valid(t) && g.d > 0 && g.w > 0 && Size(t.shape) == RowsFor(RowCount(g), g.w)
    requires Valid(view) && view == Tensor(GroupShape(g), t.data) && ReshapeTensor(t, GroupShape(g)) == Some(view)
    ensures Regrouped(t, g).Some? <==> g.heads == RowsFor(g.kv, g.q)
    ensures Regrouped(t, g).Some? ==>
              Regrouped(t, g).value == Tensor(t.shape, Regroup(view, g))
  {
    Kinds(g);
    BlockIs(view, g, QUERIES, Range(0, g.q), RowsFor(g.heads, g.d));
    BlockIs(view, g, KEYS, [g.q], RowsFor(g.kv, g.d));
    BlockIs(view, g, VALUES, [g.q + 1], RowsFor(g.kv, g.d));
    SameCount(g.heads, RowsFor(g.kv, g.q), g.d, g.w);
    assert RowsFor(g.kv, 1) == g.kv;
    UnfoldTensor(t, g, view);
    var q, k, v := Block(view, QUERIES, RowsFor(g.heads, g.d), g.w), Block(view, KEYS, RowsFor(g.kv, g.d), g.w),
        Block(view, VALUES, RowsFor(g.kv, g.d), g.w);
    hide Block, ReshapeTensor, Size, Regrouped, Joined, RowsFor, Select, Selects, GetItem, BlockSelection;
    if q.Some? {
      JoinedIs(t, g, view, q.value, k.value, v.value);
    }
  }

  lemma UnfoldTensor(t: Tensor, g: Layout, view: Tensor)
    requires Valid(t) && Valid(view) && ReshapeTensor(t, GroupShape(g)) == Some(view) && OneList(QUERIES)
             && OneList(KEYS) && OneList(VALUES)
    ensures Regrouped(t, g) ==
            (match (Block(view, QUERIES, RowsFor(g.heads, g.d), g.w), Block(view, KEYS, RowsFor(g.kv, g.d), g.w),
                    Block(view, VALUES, RowsFor(g.kv, g.d), g.w))
             case (Some(q), Some(k), Some(v)) => Joined(q, k, v, t.shape)
             case _ => None)
  {
    hide ReshapeTensor, Block, Joined, OneList, GroupShape, Size;
  }

  lemma JoinedIs(t: Tensor, g: Layout, view: Tensor, q: Tensor, k: Tensor, v: Tensor)
    requires Valid(t) && Size(t.shape) == RowsFor(RowCount(g), g.w) && g.heads == RowsFor(g.kv, g.q)
    requires Valid(view) && view.shape == GroupShape(g)
    requires q == Tensor([RowsFor(g.heads, g.d), g.w], Part(view, g, Range(0, g.q)))
    requires k == Tensor([RowsFor(g.kv, g.d), g.w], Part(view, g, [g.q]))
             && v == Tensor([RowsFor(g.kv, g.d), g.w], Part(view, g, [g.q + 1]))
    ensures Joined(q, k, v, t.shape) == Some(Tensor(t.shape, q.data + k.data + v.data))
  {
    hide *;
    JoinedShapes(g, view, q, k, v);
    JoinedReshape([q, k, v], Tensor([Rows([q, k, v]), g.w], Flatten(Datas([q, k, v]))), q, k, v, t.shape, g.w);
  }

  lemma JoinedShapes(g: Layout, view: Tensor, q: Tensor, k: Tensor, v: Tensor)
    requires Valid(view) && view.shape == GroupShape(g) && g.heads == RowsFor(g.kv, g.q)
    requires q == Tensor([RowsFor(g.heads, g.d), g.w], Part(view, g, Range(0, g.q)))
    requires k == Tensor([RowsFor(g.kv, g.d), g.w], Part(view, g, [g.q]))
             && v == Tensor([RowsFor(g.kv, g.d), g.w], Part(view, g, [g.q + 1]))
    ensures Valid(q) && Valid(k) && Valid(v) && |q.shape| == |k.shape| == |v.shape| == 2
            && q.shape[1] == k.shape[1] == v.shape[1] == g.w
    ensures |q.data| + |k.data| + |v.data| == RowsFor(RowCount(g), g.w)
  {
    MatrixSize(RowsFor(g.heads, g.d), g.w);
    MatrixSize(RowsFor(g.kv, g.d), g.w);
    OneEach(g.kv);
    Counts(g);
    hide Part, Size, RowCount;
    ThreeTimes(RowsFor(g.heads, g.d), RowsFor(g.kv, g.d), g.w);
  }

  lemma OneEach(n: nat)
    ensures RowsFor(n, 1) == n
  {
  }

  lemma ThreeTimes(a: nat, b: nat, w: nat)
    ensures RowsFor(a, w) + RowsFor(b, w) + RowsFor(b, w) == RowsFor(a + b + b, w)
  {
    Distributes(a, b, w);
    Distributes(a + b, b, w);
  }

  lemma JoinedReshape(ts: seq<Tensor>, c: Tensor, q: Tensor, k: Tensor, v: Tensor, shape: Shape, w: nat)
    requires ts == [q, k, v] && Valid(q) && Valid(k) && Valid(v)
    requires |q.shape| == |k.shape| == |v.shape| == 2 && q.shape[1] == k.shape[1] == v.shape[1] == w
    requires |q.data| + |k.data| + |v.data| == Size(shape) && c == Tensor([Rows(ts), w], Flatten(Datas(ts)))
    ensures Joined(q, k, v, shape) == Some(Tensor(shape, q.data + k.data + v.data))
  {
    hide Size, ReshapeTensor, Flatten, Rows;
    ThreeData(q, k, v);
    assert q.shape[1..] == [w] && k.shape[1..] == [w] && v.shape[1..] == [w];
    assert CatFits(ts) && AllValid(ts);
    assert [Rows(ts)] + ts[0].shape[1..] == [Rows(ts), w];
    assert Cat(ts) == Some(c);
    NatShape(c, shape);
  }

  lemma ThreeData(q: Tensor, k: Tensor, v: Tensor)
    requires |q.shape| > 0 && |k.shape| > 0 && |v.shape| > 0
    ensures Flatten(Datas([q, k, v])) == q.data + k.data + v.data
    ensures Rows([q, k, v]) == q.shape[0] + k.shape[0] + v.shape[0]
  {
    var one, two, three := [q], [q, k], [q, k, v];
    assert three == two + [v] && two == one + [k] && one == [] + [q];
    SnocBlock([], q);
    SnocBlock(one, k);
    SnocBlock(two, v);
  }

  lemma SnocBlock(ts: seq<Tensor>, t: Tensor)
    requires |t.shape| > 0 && forall i :: 0 <= i < |ts| ==> |ts[i].shape| > 0
    ensures Flatten(Datas(ts + [t])) == Flatten(Datas(ts)) + t.data && Rows(ts + [t]) == Rows(ts) + t.shape[0]
    ensures Flatten(Datas([])) == [] && Rows([]) == 0
  {
    LastData(ts, t);
    assert (ts + [t])[..|ts|] == ts;
  }

  // ---------------------------------------------------------------- row by row

  /** Row `i` of a buffer. */
  function Chunk(data: seq<int>, i: nat, w: nat): (r: seq<int>)
    requires Cell(i, w, w) <= |data|
    ensures |r| == w
  {
    data[i * w..i * w + w]
  }

  lemma ChunkFits(i: nat, n: nat, w: nat)
    requires i < n
    ensures Cell(i, w, w) <= RowsFor(n, w)
  {
    Distributes(i, 1, w);
    Distributes(i + 1, n - (i + 1), w);
  }

  /** Where the rows of the three blocks are in the new order. */
  lemma PartElement(view: Tensor, g: Layout, out: seq<int>, a: nat, j: nat, e: nat, c: nat)
    requires Valid(view) && view.shape == GroupShape(g) && IsRow(g, a, j, e) && c < g.w
    requires out == Regroup(view, g)
    ensures Cell(NewRow(g, a, j, e), g.w, c) < |out| && Cell(OldRow(g, a, j, e), g.w, c) < |view.data|
    ensures out[Cell(NewRow(g, a, j, e), g.w, c)] == view.data[Cell(OldRow(g, a, j, e), g.w, c)]
  {
    hide *;
    if j < g.q {
      QueryElement(view, g, a, j, e, c);
    } else {
      LastElement(view, g, a, j, e, c);
    }
  }

  lemma QueryElement(view: Tensor, g: Layout, a: nat, j: nat, e: nat, c: nat)
    requires Valid(view) && view.shape == GroupShape(g) && IsRow(g, a, j, e) && c < g.w && j < g.q
    ensures var n, o, out := Cell(NewRow(g, a, j, e), g.w, c), Cell(OldRow(g, a, j, e), g.w, c), Regroup(view, g);
            n < |out| && o < |view.data| && out[n] == view.data[o]
  {
    hide Cell, NewRow, OldRow, RowsFor, Part, Size, GroupShape;
    var n := Cell(Cell(Cell(a, g.q, j), g.d, e), g.w, c);
    NewCell(g, a, j, e, c);
    PartAt(view, g, Range(0, g.q), a, j, e, c);
    InParts(Part(view, g, Range(0, g.q)), Part(view, g, [g.q]), Part(view, g, [g.q + 1]), n);
  }

  lemma LastElement(view: Tensor, g: Layout, a: nat, j: nat, e: nat, c: nat)
    requires Valid(view) && view.shape == GroupShape(g) && IsRow(g, a, j, e) && c < g.w && j >= g.q
    ensures var n, o, out := Cell(NewRow(g, a, j, e), g.w, c), Cell(OldRow(g, a, j, e), g.w, c), Regroup(view, g);
            n < |out| && o < |view.data| && out[n] == view.data[o]
  {
    hide Cell, NewRow, OldRow, RowsFor, Part, Size, GroupShape;
    var n := Cell(Cell(Cell(a, 1, 0), g.d, e), g.w, c);
    NewCell(g, a, j, e, c);
    PartSizes(view, g);
    PartAt(view, g, [j], a, 0, e, c);
    InParts(Part(view, g, Range(0, g.q)), Part(view, g, [g.q]), Part(view, g, [g.q + 1]), n);
  }

  lemma PartAt(view: Tensor, g: Layout, mid: seq<nat>, a: nat, k: nat, e: nat, c: nat)
    requires Valid(view) && view.shape == GroupShape(g) && AllBelow(mid, g.q + 2) && a < g.kv && k < |mid| && e < g.d
             && c < g.w
    ensures var n, o := Cell(Cell(Cell(a, |mid|, k), g.d, e), g.w, c), Cell(OldRow(g, a, mid[k], e), g.w, c);
            n < |Part(view, g, mid)| && o < |view.data| && Part(view, g, mid)[n] == view.data[o]
  {
    hide Select, Cell, Size;
    BlockSelected(view, g, mid);
    BlockElement(view, g, mid, a, k, e, c);
  }

  lemma InParts(x: seq<int>, y: seq<int>, z: seq<int>, n: nat)
    ensures n < |x| ==> (x + y + z)[n] == x[n]
    ensures n < |y| ==> (x + y + z)[|x| + n] == y[n]
    ensures n < |z| ==> (x + y + z)[|x| + |y| + n] == z[n]
  {
  }

  lemma PartSizes(view: Tensor, g: Layout)
    requires Valid(view) && view.shape == GroupShape(g)
    ensures |Part(view, g, Range(0, g.q))| == RowsFor(RowsFor(RowsFor(g.kv, g.q), g.d), g.w)
    ensures |Part(view, g, [g.q])| == |Part(view, g, [g.q + 1])| == RowsFor(RowsFor(g.kv, g.d), g.w)
  {
    OneEach(g.kv);
    hide Part, RowsFor, Size;
  }

  /** A new row's position, counted from where its block starts. */
  lemma NewCell(g: Layout, a: nat, j: nat, e: nat, c: nat)
    requires j < g.q + 2
    ensures var queries, keys := RowsFor(RowsFor(RowsFor(g.kv, g.q), g.d), g.w), RowsFor(RowsFor(g.kv, g.d), g.w);
            Cell(NewRow(g, a, j, e), g.w, c) ==
            if j < g.q then Cell(Cell(Cell(a, g.q, j), g.d, e), g.w, c)
            else (if j == g.q then queries else queries + keys) + Cell(Cell(Cell(a, 1, 0), g.d, e), g.w, c)
  {
    var n, k, i := RowsFor(RowsFor(g.kv, g.q), g.d), RowsFor(g.kv, g.d), Cell(a, g.d, e);
    OnlyDigit(a);
    Offset(n, i, g.w, c);
    Offset(n + k, i, g.w, c);
    Offset(n, k, g.w, 0);
    Zero(n + k, g.w);
    hide RowsFor, Cell;
    assert j == g.q ==> NewRow(g, a, j, e) == n + i;
    assert j == g.q + 1 ==> NewRow(g, a, j, e) == n + k + i;
    hide NewRow;
    Zero(k, g.w);
  }

  lemma Offset(n: nat, i: nat, w: nat, c: nat)
    ensures Cell(n + i, w, c) == RowsFor(n, w) + Cell(i, w, c)
  {
    Distributes(n, i, w);
  }

  lemma Zero(k: nat, w: nat)
    ensures Cell(k, w, 0) == RowsFor(k, w)
  {
  }

  lemma OnlyDigit(a: nat)
    ensures Cell(a, 1, 0) == a
  {
  }

  lemma BlockSelected(view: Tensor, g: Layout, mid: seq<nat>)
    requires Valid(view) && view.shape == GroupShape(g) && AllBelow(mid, g.q + 2)
    ensures Selects(BlockSelection(g, mid), view.shape)
  {
  }

  /**
   Regrouping, row by row: each head's rows keep their order and contents, and the heads come out
   as all queries, all keys, all values, each in group order.
   */
  lemma RegroupedRow(t: Tensor, g: Layout, r: Tensor, a: nat, j: nat, e: nat)
    requires Valid(t) && g.w > 0 && Regrouped(t, g) == Some(r) && IsRow(g, a, j, e)
    ensures r.shape == t.shape && |r.data| == |t.data| == RowsFor(RowCount(g), g.w)
    ensures Cell(OldRow(g, a, j, e), g.w, g.w) <= |t.data| && Cell(NewRow(g, a, j, e), g.w, g.w) <= |r.data|
    ensures Chunk(r.data, NewRow(g, a, j, e), g.w) == Chunk(t.data, OldRow(g, a, j, e), g.w)
  {
    RegroupedIs(t, g);
    RowsHavePlaces(g, a, j, e);
    var i, k := NewRow(g, a, j, e), OldRow(g, a, j, e);
    ChunkFits(i, RowCount(g), g.w);
    ChunkFits(k, RowCount(g), g.w);
    RowByRow(t, g, Tensor(GroupShape(g), t.data), r.data, a, j, e, i, k);
  }

  lemma RowByRow(t: Tensor, g: Layout, view: Tensor, out: seq<int>, a: nat, j: nat, e: nat, i: nat, k: nat)
    requires Valid(view) && view.shape == GroupShape(g) && view.data == t.data && IsRow(g, a, j, e)
    requires out == Regroup(view, g)
    requires i == NewRow(g, a, j, e) && k == OldRow(g, a, j, e) && Cell(i, g.w, g.w) <= |out|
             && Cell(k, g.w, g.w) <= |t.data|
    ensures Chunk(out, i, g.w) == Chunk(t.data, k, g.w)
  {
    var x, y, w := Chunk(out, i, g.w), Chunk(t.data, k, g.w), g.w;
    hide *;
    forall c | 0 <= c < |x|
      ensures x[c] == y[c]
    {
      PartElement(view, g, out, a, j, e, c);
      ChunkAt(out, i, w, c);
      ChunkAt(t.data, k, w, c);
    }
  }

  lemma ChunkAt(data: seq<int>, i: nat, w: nat, c: nat)
    requires Cell(i, w, w) <= |data| && c < w
    ensures Cell(i, w, c) < |data| && Chunk(data, i, w)[c] == data[Cell(i, w, c)]
  {
  }
}
