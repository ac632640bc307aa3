/**
 Reading the vocabulary and the tensor table of a GGML file (convert_llama_ggml_to_gguf.py). Offsets
 are Python integers until the first tensor's size, a 64-bit NumPy integer, is added to them.
 */
module GgmlScan {
  import opened Wrappers
  import opened SliceBounds

  type Byte = x: int | 0 <= x < 256
  type Data = seq<Byte>

  datatype Error = ShortRead | AbsurdItemLength | InvalidDimensions | AbsurdNameLength | UnknownType

  const TWO32 := 0x1_0000_0000
  const TWO63 := 0x8000_0000_0000_0000

  /** A value as a signed 64-bit integer holds it. */
  function Wrap64(x: int): (r: int)
    ensures -TWO63 <= r < TWO63
    ensures -TWO63 <= x < TWO63 ==> r == x
  {
    (x + TWO63) % (2 * TWO63) - TWO63
  }

  /** data[lo:hi]: negative positions count from the end, and the result may be shorter than asked for. */
  function Slice(data: Data, lo: int, hi: int): (r: Data)
    ensures 0 <= lo <= hi <= |data| ==> r == data[lo..hi]
  {
    var l, h := Clamp(lo, |data|), Clamp(hi, |data|);
    if l <= h then data[l..h] else []
  }

  function U32(b: Data): (r: nat)
    requires |b| == 4
    ensures r < TWO32
  {
    var b0: int, b1: int, b2: int, b3: int := b[0], b[1], b[2], b[3];
    b0 + 0x100 * b1 + 0x1_0000 * b2 + 0x100_0000 * b3
  }

  /** struct.unpack of `n` little-endian words; it insists on having all bytes. */
  function ReadU32s(data: Data, offset: int, n: nat): (r: Result<seq<nat>, Error>)
    ensures r.Ok? ==> |r.value| == n && forall i :: 0 <= i < n ==> r.value[i] < TWO32
  {
    var b := Slice(data, offset, offset + 4 * n);
    if |b| != 4 * n then Err(ShortRead)
    else Ok(seq(n, i requires 0 <= i < n => U32(b[4 * i..4 * i + 4])))
  }

  // ---------------------------------------------------------------- the vocabulary

  /** A vocabulary item; the score is kept as its four bytes, or nothing where there are no scores. */
  datatype Item = Item(text: Data, score: Data)

  function ReadItem(data: Data, offset: int, loadScores: bool): Result<(Item, int), Error> {
    match ReadU32s(data, offset, 1)
    case Err(e) => Err(e)
    case Ok(w) =>
      var n := w[0];
      if n >= 4096 then Err(AbsurdItemLength)
      else
        var text := Slice(data, offset + 4, offset + 4 + n);
        if !loadScores then Ok((Item(text, []), offset + 4 + n))
        else
          var score := Slice(data, offset + 4 + n, offset + 8 + n);
          if |score| != 4 then Err(ShortRead) else Ok((Item(text, score), offset + 8 + n))
  }

  /** `n` items from `offset` on, and the offset after them. */
  function ReadItems(data: Data, offset: int, n: nat, loadScores: bool): Result<(seq<Item>, int), Error> {
    if n == 0 then Ok(([], offset))
    else
      match ReadItems(data, offset, n - 1, loadScores)
      case Err(e) => Err(e)
      case Ok((items, o)) =>
        match ReadItem(data, o, loadScores)
        case Err(e) => Err(e)
        case Ok((item, end)) => Ok((items + [item], end))
  }

  lemma {:induction false} ItemsFail(data: Data, offset: int, i: nat, n: nat, loadScores: bool, e: Error)
    requires i <= n && ReadItems(data, offset, i, loadScores) == Err(e)
    ensures ReadItems(data, offset, n, loadScores) == Err(e)
    decreases n
  {
    if i < n {
      ItemsFail(data, offset, i, n - 1, loadScores, e);
    }
  }

  class Vocab {
    const loadScores: bool
    var items: seq<Item>

    constructor (loadScores: bool)
      ensures this.loadScores == loadScores && items == []
    {
      this.loadScores := loadScores;
      items := [];
    }

    /** Vocab.load: the number of bytes read. */
    method Load(data: Data, start: int, nVocab: nat) returns (r: Result<int, Error>)
      modifies this`items
      ensures match ReadItems(data, start, nVocab, loadScores)
              case Err(e) => r == Err(e)
              case Ok((read, end)) => r == Ok(end - start) && items == old(items) + read
    {
      hide ReadU32s, Slice;
      var offset := start;
      ghost var read: seq<Item> := [];
      var i := 0;
      assert items == old(items) + read;
      while i < nVocab
        invariant 0 <= i <= nVocab && items == old(items) + read
        invariant ReadItems(data, start, i, loadScores) == Ok((read, offset))
      {
        ghost var at := offset;
        var w := ReadU32s(data, offset, 1);
        if w.Err? {
          ItemsFail(data, start, i + 1, nVocab, loadScores, w.error);
          return Err(w.error);
        }
        var itemlen := w.value[0];
        if itemlen >= 4096 {
          ItemsFail(data, start, i + 1, nVocab, loadScores, AbsurdItemLength);
          return Err(AbsurdItemLength);
        }
        offset := offset + 4;
        var itemText := Slice(data, offset, offset + itemlen);
        offset := offset + itemlen;
        var itemScore: Data := [];
        if loadScores {
          itemScore := Slice(data, offset, offset + 4);
          if |itemScore| != 4 {
            ItemsFail(data, start, i + 1, nVocab, loadScores, ShortRead);
            return Err(ShortRead);
          }
          offset := offset + 4;
        }
        assert ReadItem(data, at, loadScores) == Ok((Item(itemText, itemScore), offset));
        items := items + [Item(itemText, itemScore)];
        read := read + [Item(itemText, itemScore)];
        i := i + 1;
      }
      return Ok(offset - start);
    }
  }

  // ---------------------------------------------------------------- one tensor

  /** Block size and bytes per block of each quantization type; None for an unknown type. */
  function QuantSize(dtype: nat): (r: Option<(nat, nat)>)
    ensures r.Some? ==> r.value.0 in {1, 32, 256} && 0 < r.value.1 <= 292
  {
    if dtype in {0, 26} then Some((1, 4))
    else if dtype in {1, 25, 30} then Some((1, 2))
    else if dtype in {27, 28} then Some((1, 8))
    else if dtype == 24 then Some((1, 1))
    else if dtype in {2, 20} then Some((32, 18))
    else if dtype == 3 then Some((32, 20))
    else if dtype == 6 then Some((32, 22))
    else if dtype == 7 then Some((32, 24))
    else if dtype == 8 then Some((32, 34))
    else if dtype == 9 then Some((32, 40))
    else if dtype == 10 then Some((256, 84))
    else if dtype == 11 then Some((256, 110))
    else if dtype == 12 then Some((256, 144))
    else if dtype == 13 then Some((256, 176))
    else if dtype == 14 then Some((256, 210))
    else if dtype == 15 then Some((256, 292))
    else if dtype == 16 then Some((256, 66))
    else if dtype == 17 then Some((256, 74))
    else if dtype == 18 then Some((256, 98))
    else if dtype == 19 then Some((256, 50))
    else if dtype == 21 then Some((256, 110))
    else if dtype == 22 then Some((256, 82))
    else if dtype == 23 then Some((256, 136))
    else if dtype == 29 then Some((256, 56))
    else if dtype == 34 then Some((256, 54))
    else if dtype == 35 then Some((256, 66))
    else None
  }

  function Product(dims: seq<nat>): nat {
    if dims == [] then 1 else Product(dims[..|dims| - 1]) * dims[|dims| - 1]
  }

  /** The size as 64-bit arithmetic gives it: products wrap, and the division rounds down. */
  function SizeInBytes(dims: seq<nat>, quant: (nat, nat)): int
    requires quant.0 > 0
  {
    Wrap64(Wrap64(Product(dims)) * quant.1) / quant.0
  }

  /** Rounding up to a multiple of 32, as `(x + 31) & ~31` does for any integer. */
  function Align(x: int): int {
    (x + 31) / 32 * 32
  }

  datatype Entry = Entry(offset: int, name: Data, nameLength: nat, dims: seq<nat>, dtype: nat, start: int, size: int)

  function NameEnd(e: Entry): int {
    e.offset + 12 + 4 * |e.dims| + e.nameLength
  }

  /** The offset after a tensor. */
  function EndOf(e: Entry): int {
    Wrap64(e.start + e.size)
  }

  function ReadTensor(data: Data, offset: int, usePadding: bool): (r: Result<Entry, Error>)
    ensures r.Ok? ==> r.value.offset == offset && |r.value.dims| <= 4 && r.value.nameLength < 4096
    ensures r.Ok? ==> r.value.start == if usePadding then Align(NameEnd(r.value)) else NameEnd(r.value)
  {
    match ReadU32s(data, offset, 3)
    case Err(e) => Err(e)
    case Ok(h) =>
      if h[0] > 4 then Err(InvalidDimensions)
      else if h[1] >= 4096 then Err(AbsurdNameLength)
      else
        match QuantSize(h[2])
        case None => Err(UnknownType)
        case Some(quant) =>
          match ReadU32s(data, offset + 12, h[0])
          case Err(e) => Err(e)
          case Ok(dims) =>
            var nameAt := offset + 12 + 4 * h[0];
            var end := nameAt + h[1];
            Ok(Entry(offset, Slice(data, nameAt, end), h[1], dims, h[2],
                     if usePadding then Align(end) else end, SizeInBytes(dims, quant)))
  }

  class Tensor {
    const usePadding: bool
    var name: Data
    var dims: seq<nat>
    var dtype: nat
    var startOffset: int
    var lenBytes: int

    constructor (usePadding: bool)
      ensures this.usePadding == usePadding
    {
      this.usePadding := usePadding;
      name := [];
      dims := [];
      dtype := 0;
      startOffset := 0;
      lenBytes := 0;
    }

    /** The fields are those of an entry. */
    ghost predicate Is(e: Entry)
      reads this
    {
      name == e.name && dims == e.dims && dtype == e.dtype && startOffset == e.start && lenBytes == e.size
    }

    /** Tensor.load: how far the offset moves. */
    method Load(data: Data, from: int) returns (r: Result<int, Error>)
      modifies this
      ensures match ReadTensor(data, from, usePadding)
              case Err(e) => r == Err(e)
              case Ok(e) => Is(e) && r == Ok(Wrap64(EndOf(e) - from))
    {
      hide ReadU32s, Slice, QuantSize, Wrap64, Align, Product;
      var offset := from;
      var header := ReadU32s(data, offset, 3);
      if header.Err? {
        return Err(header.error);
      }
      var nDims, nameLen, kind := header.value[0], header.value[1], header.value[2];
      if nDims > 4 {
        return Err(InvalidDimensions);
      }
      if nameLen >= 4096 {
        return Err(AbsurdNameLength);
      }
      var quant := QuantSize(kind);
      if quant.None? {
        return Err(UnknownType);
      }
      var (blksize, tysize) := quant.value;
      offset := offset + 12;
      dtype := kind;
      var shape := ReadU32s(data, offset, nDims);
      if shape.Err? {
        return Err(shape.error);
      }
      dims := shape.value;
      offset := offset + 4 * nDims;
      name := Slice(data, offset, offset + nameLen);
      offset := offset + nameLen;
      var pad := if usePadding then Align(offset) - offset else 0;
      offset := offset + pad;
      var nElems := Wrap64(Product(dims));
      var nBytes := Wrap64(nElems * tysize) / blksize;
      startOffset := offset;
      lenBytes := nBytes;
      offset := Wrap64(offset + nBytes);
      return Ok(Wrap64(offset - from));
    }
  }

  // ---------------------------------------------------------------- the scan

  /** The scan for up to `n` tensors; None while there would be more to read. */
  function Scan(data: Data, offset: int, usePadding: bool, n: nat): Option<Result<seq<Entry>, Error>>
    decreases n
  {
    hide ReadTensor;
    if offset >= |data| then Some(Ok([]))
    else if n == 0 then None
    else
      match ReadTensor(data, offset, usePadding)
      case Err(e) => Some(Err(e))
      case Ok(t) =>
        match Scan(data, EndOf(t), usePadding, n - 1)
        case None => None
        case Some(Err(e)) => Some(Err(e))
        case Some(Ok(ts)) => Some(Ok([t] + ts))
  }

  /** A number of rounds after which a scan that ends has ended: two for every byte, and one more. */
  function RoundLimit(data: Data): nat {
    2 * |data| + 1
  }

  /** The scan ends, after however many tensors. */
  ghost predicate Ends(data: Data, offset: int, usePadding: bool) {
    exists n: nat :: Scan(data, offset, usePadding, n).Some?
  }

  /** More steps change nothing once the scan has ended. */
  lemma {:induction false} MoreSteps(data: Data, offset: int, usePadding: bool, n: nat, m: nat)
    requires n <= m && Scan(data, offset, usePadding, n).Some?
    ensures Scan(data, offset, usePadding, m) == Scan(data, offset, usePadding, n)
    decreases n
  {
    hide ReadTensor, EndOf;
    if offset < |data| && ReadTensor(data, offset, usePadding).Ok? {
      MoreSteps(data, EndOf(ReadTensor(data, offset, usePadding).value), usePadding, n - 1, m - 1);
    }
  }

  lemma ScanStep(data: Data, offset: int, usePadding: bool, n: nat)
    requires offset < |data| && Scan(data, offset, usePadding, n).Some?
    ensures n > 0
    ensures var t := ReadTensor(data, offset, usePadding);
            && (t.Err? ==> Scan(data, offset, usePadding, n).value == Err(t.error))
            && (t.Ok? ==> Scan(data, EndOf(t.value), usePadding, n - 1).Some?
                          && Scan(data, offset, usePadding, n).value
                             == Prepended([t.value], Scan(data, EndOf(t.value), usePadding, n - 1).value))
  {
    hide ReadTensor, EndOf;
  }

  lemma ScanEnd(data: Data, offset: int, usePadding: bool, n: nat, es: seq<Entry>)
    requires offset >= |data|
    ensures Scan(data, offset, usePadding, n) == Some(Ok([])) && Prepended(es, Ok([])) == Ok(es)
  {
    assert es + [] == es;
  }

  /** Where the next tensor begins: adding the reported distance gives the end of this one. */
  lemma NextOffset(e: Entry)
    requires -TWO63 <= e.offset < TWO63
    ensures Wrap64(e.offset + Wrap64(EndOf(e) - e.offset)) == EndOf(e)
  {
  }

  lemma Int64Offset(e: Entry)
    ensures -TWO63 <= EndOf(e) < TWO63
  {
  }

  /** Names to positions: later tensors replace earlier ones of the same name. */
  function TensorMap(es: seq<Entry>): map<Data, nat> {
    if es == [] then map[] else TensorMap(es[..|es| - 1])[es[|es| - 1].name := |es| - 1]
  }

  class Model {
    var tensors: seq<Tensor>
    var tensorMap: map<Data, nat>

    constructor ()
      ensures tensors == [] && tensorMap == map[]
    {
      tensors := [];
      tensorMap := map[];
    }

    /** The scanning loop of GGMLModel.load, for files on which it ends. */
    method LoadTensors(data: Data, start: int, usePadding: bool) returns (r: Result<int, Error>)
      requires -TWO63 <= start < TWO63 && |data| < TWO63 && Scan(data, start, usePadding, RoundLimit(data)).Some?
      modifies this
      ensures match Scan(data, start, usePadding, RoundLimit(data)).value
              case Err(e) => r == Err(e)
              case Ok(es) => r == Ok(FinalOffset(es, start))
                             && |tensors| == |es| && (forall i :: 0 <= i < |es| ==> tensors[i].Is(es[i]))
                                && tensorMap == TensorMap(es)
    {
      ghost var steps := RoundLimit(data);
      var offset := start;
      var ts: seq<Tensor>, names: map<Data, nat> := [], map[];
      ghost var es: seq<Entry>, left := [], steps;
      hide ReadTensor, Wrap64, EndOf, Scan, Prepended, TensorMap, FinalOffset, Scanned, Align, NameEnd;
      ScanStarts(data, start, usePadding, steps);
      while offset < |data|
        invariant |ts| == |es| && (forall i :: 0 <= i < |ts| ==> fresh(ts[i]) && ts[i].Is(es[i]))
        invariant names == TensorMap(es)
        invariant Scanned(data, start, usePadding, steps, es, offset, left)
        decreases left
      {
        var tensor := new Tensor(usePadding);
        var moved := tensor.Load(data, offset);
        if moved.Err? {
          ScanFails(data, start, usePadding, steps, es, offset, left, moved.error);
          return Err(moved.error);
        }
        ghost var e := ReadTensor(data, offset, usePadding).value;
        ScanMoves(data, start, usePadding, steps, es, offset, left, e, Wrap64(offset + moved.value));
        offset := Wrap64(offset + moved.value);
        MapOneMore(es, e);
        names := names[tensor.name := |ts|];
        ts := ts + [tensor];
        es := es + [e];
        left := left - 1;
      }
      ScanEnds(data, start, usePadding, steps, es, offset, left);
      tensors := ts;
      tensorMap := names;
      return Ok(offset);
    }
  }

  lemma MapOneMore(es: seq<Entry>, e: Entry)
    ensures TensorMap(es + [e]) == TensorMap(es)[e.name := |es|]
  {
    assert (es + [e])[..|es|] == es;
  }

  /** The offset a scan returns. */
  function FinalOffset(es: seq<Entry>, offset: int): int {
    if es == [] then offset else EndOf(es[|es| - 1])
  }

  /** The loop's invariant: `es` was read, and what is left of the scan completes the whole of it. */
  ghost predicate Scanned(data: Data, start: int, usePadding: bool, steps: nat, es: seq<Entry>, offset: int,
                          left: nat) {
    && -TWO63 <= offset < TWO63 && offset == FinalOffset(es, start)
    && Scan(data, start, usePadding, steps).Some? && Scan(data, offset, usePadding, left).Some?
    && Scan(data, start, usePadding, steps).value == Prepended(es, Scan(data, offset, usePadding, left).value)
  }

  lemma ScanStarts(data: Data, start: int, usePadding: bool, steps: nat)
    requires -TWO63 <= start < TWO63 && Scan(data, start, usePadding, steps).Some?
    ensures Scanned(data, start, usePadding, steps, [], start, steps) && TensorMap([]) == map[]
  {
    hide Scan, Prepended;
    PrependNothing(Scan(data, start, usePadding, steps).value);
  }

  lemma ScanFails(data: Data, start: int, usePadding: bool, steps: nat, es: seq<Entry>, offset: int, left: nat,
                  e: Error)
    requires Scanned(data, start, usePadding, steps, es, offset, left) && offset < |data|
             && ReadTensor(data, offset, usePadding) == Err(e)
    ensures Scan(data, start, usePadding, steps) == Some(Err(e))
  {
    hide Scan, Prepended, ReadTensor, EndOf;
    ScanStep(data, offset, usePadding, left);
    PrependError(es, e);
  }

  lemma ScanMoves(data: Data, start: int, usePadding: bool, steps: nat, es: seq<Entry>, offset: int, left: nat,
                  e: Entry, next: int)
    requires Scanned(data, start, usePadding, steps, es, offset, left) && offset < |data|
             && ReadTensor(data, offset, usePadding) == Ok(e)
    requires next == Wrap64(offset + Wrap64(EndOf(e) - offset))
    ensures left > 0 && Scanned(data, start, usePadding, steps, es + [e], next, left - 1)
  {
    hide Scan, Prepended, ReadTensor, EndOf, Wrap64, Align, NameEnd, FinalOffset;
    ScanStep(data, offset, usePadding, left);
    LastOffset(data, offset, usePadding, e, es, start);
    PrependOne(es, e, Scan(data, EndOf(e), usePadding, left - 1).value);
  }

  lemma LastOffset(data: Data, offset: int, usePadding: bool, e: Entry, es: seq<Entry>, start: int)
    requires ReadTensor(data, offset, usePadding) == Ok(e) && -TWO63 <= offset < TWO63
    ensures FinalOffset(es + [e], start) == EndOf(e) == Wrap64(offset + Wrap64(EndOf(e) - offset))
    ensures -TWO63 <= EndOf(e) < TWO63
  {
    hide ReadTensor, EndOf, Wrap64, Align, NameEnd;
    NextOffset(e);
    Int64Offset(e);
  }

  lemma ScanEnds(data: Data, start: int, usePadding: bool, steps: nat, es: seq<Entry>, offset: int, left: nat)
    requires Scanned(data, start, usePadding, steps, es, offset, left) && offset >= |data|
    ensures Scan(data, start, usePadding, steps) == Some(Ok(es)) && offset == FinalOffset(es, start)
  {
    hide Scan, Prepended;
    ScanEnd(data, offset, usePadding, left, es);
  }

  function Prepended(es: seq<Entry>, r: Result<seq<Entry>, Error>): Result<seq<Entry>, Error> {
    match r
    case Err(e) => Err(e)
    case Ok(ts) => Ok(es + ts)
  }

  lemma PrependNothing(r: Result<seq<Entry>, Error>)
    ensures Prepended([], r) == r
  {
    if r.Ok? {
      assert [] + r.value == r.value;
    }
  }

  lemma PrependError(es: seq<Entry>, e: Error)
    ensures Prepended(es, Err(e)) == Err(e)
  {
  }

  lemma PrependOne(es: seq<Entry>, e: Entry, r: Result<seq<Entry>, Error>)
    ensures Prepended(es, Prepended([e], r)) == Prepended(es + [e], r)
  {
    if r.Ok? {
      assert es + ([e] + r.value) == es + [e] + r.value;
    }
  }
}
