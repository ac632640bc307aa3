/** When the scan of a GGML file moves forward, and how its regions lie (convert_llama_ggml_to_gguf.py). */
module GgmlProperties {
  import opened Wrappers
  import opened GgmlScan

  // ---------------------------------------------------------------- alignment

  /** The padded data starts at the least multiple of 32 that is not before the header's end. */
  lemma AlignIsLeast(x: int)
    ensures Align(x) % 32 == 0 && x <= Align(x) < x + 32
    ensures forall y :: x <= y && y % 32 == 0 ==> Align(x) <= y
  {
    forall y | x <= y && y % 32 == 0
      ensures Align(x) <= y
    {
      var k, m := (x + 31) / 32, y / 32;
      assert y == 32 * m && 32 * k <= x + 31;
    }
  }

  lemma DataIsAligned(data: Data, offset: int, usePadding: bool, e: Entry)
    requires ReadTensor(data, offset, usePadding) == Ok(e)
    ensures NameEnd(e) <= e.start < NameEnd(e) + 32
    ensures if usePadding then e.start == Align(NameEnd(e)) else e.start == NameEnd(e)
  {
    hide Align;
    AlignIsLeast(NameEnd(e));
  }

  // ---------------------------------------------------------------- progress

  /** The data has a size that is not negative, and its end is still a 64-bit offset. */
  predicate Sane(e: Entry) {
    e.size >= 0 && e.start + e.size < TWO63
  }

  /** The data's bytes as the header counts them, without the wrap: elements times bytes per block. */
  function HeaderBytes(e: Entry, quant: (nat, nat)): nat {
    Product(e.dims) * quant.1
  }

  /** How far a size that wraps to a negative number leads back, rounded up to whole blocks. */
  function BackBy(bytes: nat, blocks: nat): int
    requires blocks > 0
  {
    (2 * TWO63 - bytes + blocks - 1) / blocks
  }

  /**
   The tensor moves the offset by at least its fixed header exactly when the bytes that the header
   declares, modulo 2^64, are below 2^63 and end before 2^63, or are so near 2^64 that they lead
   back over no more than the rest of the header, or lead back so far that the offset wraps again.
   */
  lemma AdvancesIff(data: Data, offset: int, usePadding: bool, e: Entry, quant: (nat, nat))
    requires ReadTensor(data, offset, usePadding) == Ok(e) && QuantSize(e.dtype) == Some(quant)
    requires -TWO63 <= offset < TWO63 - 0x1_0000
    ensures var bytes := HeaderBytes(e, quant) % (2 * TWO63);
            EndOf(e) >= offset + 12 <==>
            if bytes < TWO63 then e.start + bytes / quant.0 < TWO63
            else BackBy(bytes, quant.0) <= e.start - offset - 12 || e.start - BackBy(bytes, quant.0) < -TWO63
  {
    var bytes := HeaderBytes(e, quant) % (2 * TWO63);
    hide ReadTensor, Wrap64, Align, QuantSize, HeaderBytes, BackBy;
    DataIsAligned(data, offset, usePadding, e);
    SizeFromHeader(data, offset, usePadding, e, quant);
    BackIsPositive(bytes, quant.0);
    EndAfter(e, if bytes < TWO63 then bytes / quant.0 else -BackBy(bytes, quant.0));
  }

  lemma EndAfter(e: Entry, size: int)
    requires -TWO63 <= e.offset && e.offset + 12 <= e.start < TWO63 && e.start < e.offset + 0x1_0000
    requires -TWO63 <= size < TWO63 && e.size == size
    ensures EndOf(e) >= e.offset + 12 <==>
            if size >= 0 then e.start + size < TWO63 else -size <= e.start - e.offset - 12 || e.start + size < -TWO63
  {
    WrapSum(e.start, e.size);
    hide Wrap64;
  }

  lemma BackIsPositive(bytes: nat, blocks: nat)
    requires blocks in {1, 32, 256} && bytes < 2 * TWO63
    ensures bytes < TWO63 ==> 0 <= bytes / blocks < TWO63
    ensures bytes >= TWO63 ==> 0 < BackBy(bytes, blocks) <= TWO63
  {
    if blocks == 1 {
    } else if blocks == 32 {
    } else {
      assert blocks == 256;
    }
  }

  /** The size that is read, in terms of the header. */
  lemma SizeFromHeader(data: Data, offset: int, usePadding: bool, e: Entry, quant: (nat, nat))
    requires ReadTensor(data, offset, usePadding) == Ok(e) && QuantSize(e.dtype) == Some(quant)
    ensures quant.0 in {1, 32, 256} && -TWO63 <= e.size < TWO63
    ensures var bytes := HeaderBytes(e, quant) % (2 * TWO63);
            e.size == if bytes < TWO63 then bytes / quant.0 else -BackBy(bytes, quant.0)
  {
    hide ReadTensor, Align, Product, BackBy, QuantSize;
    SizeRange(data, offset, usePadding, e);
    WrapProduct(Product(e.dims), quant.1);
    WrapMod(HeaderBytes(e, quant));
    hide Wrap64;
    if HeaderBytes(e, quant) % (2 * TWO63) >= TWO63 {
      BlocksDown(HeaderBytes(e, quant) % (2 * TWO63), quant.0);
    }
  }

  lemma WrapProduct(p: nat, b: nat)
    ensures Wrap64(Wrap64(p) * b) == Wrap64(p * b)
  {
    var k := (p + TWO63) / (2 * TWO63);
    assert p == Wrap64(p) + k * (2 * TWO63);
    assert p * b == Wrap64(p) * b + k * b * (2 * TWO63) by {
      Distribute(Wrap64(p), k, b);
    }
    WrapShift(Wrap64(p) * b, k * b);
  }

  lemma Distribute(w: int, k: int, b: int)
    ensures (w + k * (2 * TWO63)) * b == w * b + k * b * (2 * TWO63)
  {
  }

  lemma WrapShift(x: int, k: int)
    ensures Wrap64(x + k * (2 * TWO63)) == Wrap64(x)
  {
    assert x + k * (2 * TWO63) + TWO63 == (x + TWO63) + (2 * TWO63) * k;
  }

  lemma WrapMod(x: nat)
    ensures var bytes := x % (2 * TWO63); Wrap64(x) == if bytes < TWO63 then bytes else bytes - 2 * TWO63
  {
  }

  lemma BlocksDown(bytes: nat, blocks: nat)
    requires blocks in {1, 32, 256} && TWO63 <= bytes < 2 * TWO63
    ensures (bytes - 2 * TWO63) / blocks == -BackBy(bytes, blocks)
  {
    if blocks == 1 {
    } else if blocks == 32 {
    } else {
      assert blocks == 256;
    }
  }

  /** A tensor of sane size moves the offset to the end of its data. */
  lemma SaneAdvances(data: Data, offset: int, usePadding: bool, e: Entry)
    requires ReadTensor(data, offset, usePadding) == Ok(e) && Sane(e) && 0 <= offset < TWO63 - 0x1_0000
    ensures EndOf(e) == e.start + e.size >= offset + 12
  {
    hide ReadTensor, Wrap64, Align;
    DataIsAligned(data, offset, usePadding, e);
    WrapSum(e.start, e.size);
  }

  lemma WrapSum(a: int, b: int)
    requires -TWO63 <= a < TWO63 && -TWO63 <= b < TWO63
    ensures Wrap64(a + b) ==
            if a + b < -TWO63 then a + b + 2 * TWO63 else if a + b < TWO63 then a + b else a + b - 2 * TWO63
  {
  }

  lemma SizeRange(data: Data, offset: int, usePadding: bool, e: Entry)
    requires ReadTensor(data, offset, usePadding) == Ok(e)
    ensures -TWO63 <= e.size < TWO63
    ensures QuantSize(e.dtype).Some? && e.size == SizeInBytes(e.dims, QuantSize(e.dtype).value)
  {
    hide Slice, U32, Align, QuantSize, ReadU32s;
    var q := QuantSize(e.dtype).value;
    SizeFits(e.dims, q);
    hide SizeInBytes;
  }

  lemma SizeFits(dims: seq<nat>, q: (nat, nat))
    requires q.0 in {1, 32, 256}
    ensures -TWO63 <= SizeInBytes(dims, q) < TWO63
  {
    var w := Wrap64(Wrap64(Product(dims)) * q.1);
    hide Wrap64;
    if q.0 == 1 {
    } else if q.0 == 32 {
    } else {
      assert q.0 == 256;
    }
  }

  /** As long as the true size fits into 63 bits the tensor is read as it is meant. */
  lemma TrueSizeIsSane(data: Data, offset: int, usePadding: bool, e: Entry, quant: (nat, nat))
    requires ReadTensor(data, offset, usePadding) == Ok(e) && QuantSize(e.dtype) == Some(quant)
    requires 0 <= offset < TWO63 - 0x1_0000 && e.start + HeaderBytes(e, quant) < TWO63
    ensures e.size == HeaderBytes(e, quant) / quant.0 && Sane(e)
  {
    var bytes := HeaderBytes(e, quant);
    hide ReadTensor, Align, Wrap64, QuantSize, HeaderBytes, BackBy;
    DataIsAligned(data, offset, usePadding, e);
    SizeFromHeader(data, offset, usePadding, e, quant);
    assert bytes % (2 * TWO63) == bytes;
    BlocksFew(bytes, quant.0);
  }

  lemma BlocksFew(bytes: nat, blocks: nat)
    requires blocks in {1, 32, 256}
    ensures 0 <= bytes / blocks <= bytes
  {
    if blocks == 1 {
    } else if blocks == 32 {
    } else {
      assert blocks == 256;
    }
  }

  /** The tensors that the first `n` rounds of the loop read. */
  function Visited(data: Data, offset: int, usePadding: bool, n: nat): seq<Entry>
    decreases n
  {
    hide ReadTensor;
    if offset >= |data| || n == 0 then []
    else
      match ReadTensor(data, offset, usePadding)
      case Err(_) => []
      case Ok(t) => [t] + Visited(data, EndOf(t), usePadding, n - 1)
  }

  /**
   As long as every tensor the loop reads is sane the loop ends: it reads at most one tensor for
   every twelve bytes.
   */
  lemma {:induction false} SaneScanEnds(data: Data, offset: int, usePadding: bool, n: nat)
    requires |data| < TWO63 - 0x1_0000 && 0 <= offset < TWO63 && |data| - offset <= 12 * n
    requires AllSane(Visited(data, offset, usePadding, n))
    ensures Scan(data, offset, usePadding, n).Some?
    decreases n
  {
    hide ReadTensor, Sane, EndOf, AllSane;
    if offset < |data| && ReadTensor(data, offset, usePadding).Ok? {
      var e := ReadTensor(data, offset, usePadding).value;
      var rest := Visited(data, EndOf(e), usePadding, n - 1);
      assert ([e] + rest)[0] == e && ([e] + rest)[1..] == rest;
      FirstSane([e] + rest);
      SaneAdvances(data, offset, usePadding, e);
      Int64Offset(e);
      SaneScanEnds(data, EndOf(e), usePadding, n - 1);
    }
  }

  // ---------------------------------------------------------------- when the scan ends

  /** The offset at which round `n` of the loop reads; None if the loop is over by then. */
  function RoundAt(data: Data, offset: int, usePadding: bool, n: nat): Option<int>
    decreases n
  {
    hide ReadTensor;
    if offset >= |data| then None
    else if n == 0 then Some(offset)
    else
      match ReadTensor(data, offset, usePadding)
      case Err(_) => None
      case Ok(t) => RoundAt(data, EndOf(t), usePadding, n - 1)
  }

  /** Two different rounds read at the same offset. */
  ghost predicate ReadsTwice(data: Data, offset: int, usePadding: bool) {
    exists i: nat, j: nat :: i < j && SameRound(data, offset, usePadding, i, j)
  }

  predicate SameRound(data: Data, offset: int, usePadding: bool, i: nat, j: nat) {
    RoundAt(data, offset, usePadding, i).Some?
        && RoundAt(data, offset, usePadding, i) == RoundAt(data, offset, usePadding, j)
  }

  lemma {:induction false} NoRoundLeft(data: Data, offset: int, usePadding: bool, n: nat)
    ensures Scan(data, offset, usePadding, n).None? <==> RoundAt(data, offset, usePadding, n).Some?
    decreases n
  {
    hide ReadTensor, EndOf;
    if offset < |data| && n > 0 && ReadTensor(data, offset, usePadding).Ok? {
      NoRoundLeft(data, EndOf(ReadTensor(data, offset, usePadding).value), usePadding, n - 1);
    }
  }

  /** Round `i + k` of a scan is round `k` of the scan that starts where round `i` reads. */
  lemma {:induction false} RoundFrom(data: Data, offset: int, usePadding: bool, i: nat, k: nat)
    requires RoundAt(data, offset, usePadding, i).Some?
    ensures RoundAt(data, offset, usePadding, i + k) ==
            RoundAt(data, RoundAt(data, offset, usePadding, i).value, usePadding, k)
    decreases i
  {
    hide ReadTensor, EndOf;
    if i > 0 {
      RoundFrom(data, EndOf(ReadTensor(data, offset, usePadding).value), usePadding, i - 1, k);
    }
  }

  /** A header can only be read inside the data, counted from either end. */
  lemma ReadsInside(data: Data, offset: int, usePadding: bool)
    requires offset < |data| && ReadTensor(data, offset, usePadding).Ok?
    ensures -|data| <= offset < |data|
  {
    hide U32, QuantSize, Product, Wrap64, Align, SizeInBytes;
    assert ReadU32s(data, offset, 3).Ok?;
    assert |Slice(data, offset, offset + 12)| == 12;
  }

  /** The rounds before one that takes place take place, and read inside the data. */
  lemma EarlierRound(data: Data, offset: int, usePadding: bool, i: nat, n: nat)
    requires i < n && RoundAt(data, offset, usePadding, n).Some?
    ensures RoundAt(data, offset, usePadding, i).Some?
    ensures -|data| <= RoundAt(data, offset, usePadding, i).value < |data|
  {
    hide ReadTensor, EndOf, RoundAt;
    RoundsBefore(data, offset, usePadding, i, n);
    RoundFrom(data, offset, usePadding, i, n - i);
    RoundReads(data, RoundAt(data, offset, usePadding, i).value, usePadding, n - i);
  }

  lemma RoundReads(data: Data, offset: int, usePadding: bool, n: nat)
    requires n > 0 && RoundAt(data, offset, usePadding, n).Some?
    ensures -|data| <= offset < |data|
  {
    hide ReadTensor, EndOf;
    ReadsInside(data, offset, usePadding);
  }

  lemma {:induction false} RoundsBefore(data: Data, offset: int, usePadding: bool, i: nat, n: nat)
    requires i <= n && RoundAt(data, offset, usePadding, n).Some?
    ensures RoundAt(data, offset, usePadding, i).Some?
    decreases i
  {
    hide ReadTensor, EndOf;
    if i > 0 {
      RoundsBefore(data, EndOf(ReadTensor(data, offset, usePadding).value), usePadding, i - 1, n - 1);
    }
  }

  /** Among more than `2 * m` numbers of -m .. m - 1 there are two equal ones. */
  lemma {:induction false} Pigeons(xs: seq<int>, lo: int, m: nat) returns (i: nat, j: nat)
    requires |xs| > m && forall k :: 0 <= k < |xs| ==> lo <= xs[k] < lo + m
    ensures i < j < |xs| && xs[i] == xs[j]
    decreases m
  {
    var last := |xs| - 1;
    if k :| 0 <= k < last && xs[k] == xs[last] {
      return k, last;
    }
    var top := lo + m - 1;
    var rest := seq(last, k requires 0 <= k < last => if xs[k] == top then xs[last] else xs[k]);
    i, j := Pigeons(rest, lo, m - 1);
  }

  lemma TwoRounds(data: Data, offset: int, usePadding: bool, n: nat) returns (i: nat, j: nat)
    requires n > 2 * |data| && RoundAt(data, offset, usePadding, n).Some?
    ensures i < j && SameRound(data, offset, usePadding, i, j)
  {
    hide RoundAt;
    forall k: nat | k < n
      ensures RoundAt(data, offset, usePadding, k).Some?
      ensures -|data| <= RoundAt(data, offset, usePadding, k).value < |data|
    {
      EarlierRound(data, offset, usePadding, k, n);
    }
    var xs := seq(n, k requires 0 <= k < n => RoundAt(data, offset, usePadding, k).value);
    i, j := Pigeons(xs, -|data|, 2 * |data|);
    assert xs[i] == xs[j];
  }

  /** Once an offset comes back there is a round of every number. */
  lemma {:induction false} RoundsGoOn(data: Data, offset: int, usePadding: bool, i: nat, j: nat, n: nat)
    requires i < j && SameRound(data, offset, usePadding, i, j)
    ensures RoundAt(data, offset, usePadding, n).Some?
    decreases n
  {
    hide RoundAt;
    if n <= j {
      RoundsBefore(data, offset, usePadding, n, j);
    } else {
      RoundsGoOn(data, offset, usePadding, i, j, n - (j - i));
      RoundFrom(data, offset, usePadding, i, n - j);
      RoundFrom(data, offset, usePadding, j, n - j);
      assert i + (n - j) == n - (j - i) && j + (n - j) == n;
    }
  }

  /**
   The loop ends exactly when it ends within two rounds for every byte and one more, and it goes on
   for ever exactly when it reads twice at one offset.
   */
  lemma EndsIff(data: Data, offset: int, usePadding: bool)
    ensures Ends(data, offset, usePadding) <==> Scan(data, offset, usePadding, RoundLimit(data)).Some?
    ensures Ends(data, offset, usePadding) <==> !ReadsTwice(data, offset, usePadding)
  {
    hide RoundAt, SameRound, Scan;
    var limit := RoundLimit(data);
    NoRoundLeft(data, offset, usePadding, limit);
    if Scan(data, offset, usePadding, limit).None? {
      var i, j := TwoRounds(data, offset, usePadding, limit);
    }
    if ReadsTwice(data, offset, usePadding) {
      var i: nat, j: nat :| i < j && SameRound(data, offset, usePadding, i, j);
      forall n: nat
        ensures Scan(data, offset, usePadding, n).None?
      {
        RoundsGoOn(data, offset, usePadding, i, j, n);
        NoRoundLeft(data, offset, usePadding, n);
      }
    }
  }

  // ---------------------------------------------------------------- a tensor that does not advance

  /** Four dimensions whose product is 2^69 - 32: as a 64-bit size, minus the 32 bytes of this very header. */
  const STUCK_HEADER: Data := [4, 0, 0, 0] + [4, 0, 0, 0] + [24, 0, 0, 0]
  const STUCK_DIMS: Data := [255, 255, 255, 255] + [0x81, 2, 0, 0] + [0x81, 0x3d, 0x66, 0] + [32, 0, 0, 0]
  const STUCK_NAME: Data := [97, 98, 99, 100]

  function StuckAfter(prefix: Data): Data {
    prefix + STUCK_HEADER + STUCK_DIMS + STUCK_NAME
  }

  lemma StuckProduct()
    ensures Product([0xffff_ffff, 641, 6700417, 32]) == 0xffff_ffff * 641 * 6700417 * 32
    ensures SizeInBytes([0xffff_ffff, 641, 6700417, 32], (1, 1)) == -32
  {
    var d := [0xffff_ffff, 641, 6700417, 32];
    assert d[..3] == [0xffff_ffff, 641, 6700417] && d[..3][..2] == [0xffff_ffff, 641]
        && [0xffff_ffff, 641][..1] == [0xffff_ffff];
    assert [0xffff_ffff, 641, 6700417][..2] == [0xffff_ffff, 641] && [0xffff_ffff][..0] == [];
    assert Product([]) == 1;
    assert Product([0xffff_ffff]) == 0xffff_ffff;
    assert Product([0xffff_ffff, 641]) == 0xffff_ffff * 641;
    assert Product([0xffff_ffff, 641, 6700417]) == 0xffff_ffff * 641 * 6700417;
    assert Product(d) == 0xffff_ffff * 641 * 6700417 * 32;
  }

  lemma StuckTensor(prefix: Data, usePadding: bool)
    requires |prefix| % 32 == 0 && |prefix| < TWO63 - 0x1_0000
    ensures var r := ReadTensor(StuckAfter(prefix), |prefix|, usePadding);
            r.Ok? && r.value.size == -32 && EndOf(r.value) == |prefix|
  {
    var data, o := StuckAfter(prefix), |prefix|;
    hide Product, SizeInBytes, Slice, U32, ReadU32s, Wrap64, Align, StuckAfter;
    StuckHeader(prefix);
    StuckProduct();
    AlignIsLeast(o + 32);
    assert Align(o + 32) == o + 32;
    assert Wrap64(o) == o;
  }

  lemma StuckHeader(prefix: Data)
    ensures ReadU32s(StuckAfter(prefix), |prefix|, 3) == Ok([4, 4, 24])
    ensures ReadU32s(StuckAfter(prefix), |prefix| + 12, 4) == Ok([0xffff_ffff, 641, 6700417, 32])
  {
    StuckWords();
    StuckSlices(prefix);
    var data, o := StuckAfter(prefix), |prefix|;
    hide U32, Slice, StuckAfter;
    FourWords([4, 0, 0, 0], [4, 0, 0, 0], [24, 0, 0, 0], []);
    FourWords([255, 255, 255, 255], [0x81, 2, 0, 0], [0x81, 0x3d, 0x66, 0], [32, 0, 0, 0]);
    assert STUCK_HEADER + [] == STUCK_HEADER;
    assert ReadU32s(data, o, 3).value == [4, 4, 24];
    assert ReadU32s(data, o + 12, 4).value == [0xffff_ffff, 641, 6700417, 32];
  }

  lemma StuckSlices(prefix: Data)
    ensures Slice(StuckAfter(prefix), |prefix|, |prefix| + 12) == STUCK_HEADER
    ensures Slice(StuckAfter(prefix), |prefix| + 12, |prefix| + 28) == STUCK_DIMS
  {
    SliceMiddle(prefix, STUCK_HEADER, STUCK_DIMS + STUCK_NAME);
    SliceMiddle(prefix + STUCK_HEADER, STUCK_DIMS, STUCK_NAME);
    assert StuckAfter(prefix) == prefix + STUCK_HEADER + (STUCK_DIMS + STUCK_NAME);
  }

  lemma SliceMiddle(a: Data, b: Data, c: Data)
    ensures Slice(a + b + c, |a|, |a| + |b|) == b
  {
  }

  lemma FourWords(a: Data, b: Data, c: Data, d: Data)
    requires |a| == |b| == |c| == 4
    ensures var s := a + b + c + d; s[0..4] == a && s[4..8] == b && s[8..12] == c && (|d| == 4 ==> s[12..16] == d)
  {
  }

  lemma StuckWords()
    ensures U32([4, 0, 0, 0]) == 4 && U32([24, 0, 0, 0]) == 24 && U32([255, 255, 255, 255]) == 0xffff_ffff
    ensures U32([0x81, 2, 0, 0]) == 641 && U32([0x81, 0x3d, 0x66, 0]) == 6700417 && U32([32, 0, 0, 0]) == 32
  {
  }

  /** A file on which the loop of GGMLModel.load never ends: this tensor leads back to itself. */
  lemma {:induction false} StuckForever(prefix: Data, usePadding: bool, n: nat)
    requires |prefix| % 32 == 0 && |prefix| < TWO63 - 0x1_0000
    ensures Scan(StuckAfter(prefix), |prefix|, usePadding, n) == None
    decreases n
  {
    assert |prefix| < |StuckAfter(prefix)|;
    hide ReadTensor, EndOf, StuckAfter;
    StuckTensor(prefix, usePadding);
    if n > 0 {
      StuckForever(prefix, usePadding, n - 1);
    }
  }

  lemma StuckNeverEnds(prefix: Data, usePadding: bool)
    requires |prefix| % 32 == 0 && |prefix| < TWO63 - 0x1_0000
    ensures !Ends(StuckAfter(prefix), |prefix|, usePadding)
  {
    forall n: nat
      ensures Scan(StuckAfter(prefix), |prefix|, usePadding, n) == None
    {
      StuckForever(prefix, usePadding, n);
    }
    hide Scan, StuckAfter;
  }

  // ---------------------------------------------------------------- regions

  datatype Region = Region(from: int, to: int)

  /** Header, dimensions, name, padding and data of a tensor. */
  function RegionsOf(e: Entry): (r: seq<Region>)
    ensures |r| == 5
  {
    [Region(e.offset, e.offset + 12),
     Region(e.offset + 12, e.offset + 12 + 4 * |e.dims|),
     Region(e.offset + 12 + 4 * |e.dims|, NameEnd(e)),
     Region(NameEnd(e), e.start),
     Region(e.start, e.start + e.size)]
  }

  function AllRegions(es: seq<Entry>): seq<Region> {
    if es == [] then [] else RegionsOf(es[0]) + AllRegions(es[1..])
  }

  /** The regions lie one after the other, from `lo` to `hi`. */
  predicate Tiles(rs: seq<Region>, lo: int, hi: int)
    decreases |rs|
  {
    if rs == [] then lo == hi else rs[0].from == lo && lo <= rs[0].to && Tiles(rs[1..], rs[0].to, hi)
  }

  lemma {:induction false} TilesJoin(a: seq<Region>, b: seq<Region>, lo: int, mid: int, hi: int)
    requires Tiles(a, lo, mid) && Tiles(b, mid, hi)
    ensures Tiles(a + b, lo, hi)
    decreases |a|
  {
    if a == [] {
      assert a + b == b;
    } else {
      assert (a + b)[0] == a[0] && (a + b)[1..] == a[1..] + b;
      TilesJoin(a[1..], b, a[0].to, mid, hi);
    }
  }

  lemma EntryTiles(data: Data, offset: int, usePadding: bool, e: Entry)
    requires ReadTensor(data, offset, usePadding) == Ok(e) && e.size >= 0
    ensures Tiles(RegionsOf(e), offset, e.start + e.size)
  {
    hide ReadTensor, Align, Tiles;
    DataIsAligned(data, offset, usePadding, e);
    Tiles5(e.offset, e.offset + 12, e.offset + 12 + 4 * |e.dims|, NameEnd(e), e.start, e.start + e.size);
  }

  lemma Tiles5(a: int, b: int, c: int, d: int, e: int, f: int)
    requires a <= b <= c <= d <= e <= f
    ensures Tiles([Region(a, b), Region(b, c), Region(c, d), Region(d, e), Region(e, f)], a, f)
  {
    var v, w, x, y, z := Region(a, b), Region(b, c), Region(c, d), Region(d, e), Region(e, f);
    TileOne(v);
    TileOne(w);
    TileOne(x);
    TileOne(y);
    TileOne(z);
    hide Tiles;
    TilesJoin([v], [w], a, b, c);
    TilesJoin([v] + [w], [x], a, c, d);
    TilesJoin([v] + [w] + [x], [y], a, d, e);
    TilesJoin([v] + [w] + [x] + [y], [z], a, e, f);
    assert [v] + [w] + [x] + [y] + [z] == [v, w, x, y, z];
  }

  lemma TileOne(r: Region)
    requires r.from <= r.to
    ensures Tiles([r], r.from, r.to)
  {
  }

  ghost predicate AllSane(es: seq<Entry>) {
    forall i :: 0 <= i < |es| ==> Sane(es[i])
  }

  /**
   The regions of a scan's tensors tile the bytes from where it starts to the offset it returns,
   without gap or overlap, when every tensor in it is sane.
   */
  lemma {:induction false} ScanTiles(data: Data, offset: int, usePadding: bool, n: nat, es: seq<Entry>)
    requires Scan(data, offset, usePadding, n) == Some(Ok(es)) && AllSane(es) && 0 <= offset
             && |data| < TWO63 - 0x1_0000
    ensures Tiles(AllRegions(es), offset, FinalOffset(es, offset))
    decreases n
  {
    hide ReadTensor, Sane, EndOf, Tiles, Scan, AllSane, Wrap64, Align, NameEnd;
    if es != [] {
      ScanFirst(data, offset, usePadding, n, es);
      FirstSane(es);
      SaneAdvances(data, offset, usePadding, es[0]);
      SaneSize(es[0]);
      EntryTiles(data, offset, usePadding, es[0]);
      assert FinalOffset(es[1..], EndOf(es[0])) == FinalOffset(es, offset);
      hide FinalOffset;
      ScanTiles(data, EndOf(es[0]), usePadding, n - 1, es[1..]);
      TilesJoin(RegionsOf(es[0]), AllRegions(es[1..]), offset, EndOf(es[0]), FinalOffset(es, offset));
    } else {
      TilesNothing(offset);
    }
  }

  lemma TilesNothing(at: int)
    ensures Tiles([], at, at)
  {
  }

  lemma FirstSane(es: seq<Entry>)
    requires AllSane(es) && es != []
    ensures Sane(es[0]) && AllSane(es[1..])
  {
    hide Sane;
    assert forall i :: 0 <= i < |es[1..]| ==> es[1..][i] == es[i + 1];
  }

  lemma SaneSize(e: Entry)
    requires Sane(e)
    ensures e.size >= 0 && e.start + e.size < TWO63
  {
  }

  lemma ScanFirst(data: Data, offset: int, usePadding: bool, n: nat, es: seq<Entry>)
    requires Scan(data, offset, usePadding, n) == Some(Ok(es)) && es != []
    ensures offset < |data| && n > 0 && ReadTensor(data, offset, usePadding) == Ok(es[0])
    ensures Scan(data, EndOf(es[0]), usePadding, n - 1) == Some(Ok(es[1..]))
  {
    hide ReadTensor, EndOf;
    ScanStep(data, offset, usePadding, n);
    var t := ReadTensor(data, offset, usePadding);
    var rest := Scan(data, EndOf(t.value), usePadding, n - 1).value;
    assert es == [t.value] + rest.value;
    assert es[1..] == rest.value;
  }

  predicate Covers(r: Region, p: int) {
    r.from <= p < r.to
  }

  /** In a tiling every position belongs to one region, and to no other. */
  lemma {:induction false} TiledOnce(rs: seq<Region>, lo: int, hi: int, p: int)
    requires Tiles(rs, lo, hi)
    ensures lo <= hi
    ensures lo <= p < hi <==> exists i :: 0 <= i < |rs| && Covers(rs[i], p)
    ensures forall i, j :: 0 <= i < |rs| && 0 <= j < |rs| && Covers(rs[i], p) && Covers(rs[j], p) ==> i == j
    decreases |rs|
  {
    if rs != [] {
      var rest := rs[1..];
      TiledOnce(rest, rs[0].to, hi, p);
      if i :| 0 <= i < |rest| && Covers(rest[i], p) {
        assert rest[i] == rs[i + 1];
      }
      assert forall i :: 1 <= i < |rs| ==> rs[i] == rest[i - 1];
    }
  }

  // ---------------------------------------------------------------- names

  /** A name is mapped to the last tensor that has it. */
  lemma {:induction false} LastWins(es: seq<Entry>, name: Data)
    ensures name in TensorMap(es) <==> exists i :: 0 <= i < |es| && es[i].name == name
    ensures name in TensorMap(es) ==>
              var k := TensorMap(es)[name];
              k < |es| && es[k].name == name && forall i :: k < i < |es| ==> es[i].name != name
    decreases |es|
  {
    if es != [] {
      var init := es[..|es| - 1];
      LastWins(init, name);
      assert forall i :: 0 <= i < |init| ==> init[i] == es[i];
    }
  }
}
