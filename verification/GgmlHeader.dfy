/**
 The layout of a GGML file (convert_llama_ggml_to_gguf.py): what is written as a vocabulary item or a
 tensor header is what is read, and the block sizes of all tensor types.
 */
module GgmlHeader {
  import opened Wrappers
  import opened GgmlScan

  // ---------------------------------------------------------------- writing

  /** A word of four bytes, the least significant first. */
  function Word(n: nat): (b: Data)
    requires n < TWO32
    ensures |b| == 4
  {
    [n % 0x100, n / 0x100 % 0x100, n / 0x1_0000 % 0x100, n / 0x100_0000]
  }

  predicate AllWords(ns: seq<nat>) {
    forall i :: 0 <= i < |ns| ==> ns[i] < TWO32
  }

  function Words(ns: seq<nat>): (b: Data)
    requires AllWords(ns)
    ensures |b| == 4 * |ns|
  {
    if ns == [] then [] else Words(ns[..|ns| - 1]) + Word(ns[|ns| - 1])
  }

  /** A tensor's header: three words, the dimensions, and the name. */
  function Header(dims: seq<nat>, name: Data, dtype: nat): Data
    requires |dims| <= 4 && AllWords(dims) && |name| < 4096 && dtype < TWO32
  {
    Words([|dims|, |name|, dtype]) + Words(dims) + name
  }

  /** A vocabulary item: the length of its text, the text, and the score's four bytes if there are scores. */
  function ItemText(item: Item): Data
    requires |item.text| < 4096
  {
    Word(|item.text|) + item.text + item.score
  }

  // ---------------------------------------------------------------- reading back

  lemma WordReads(n: nat)
    requires n < TWO32
    ensures U32(Word(n)) == n
  {
    var a, b := n / 0x100, n / 0x1_0000;
    assert b == a / 0x100 && n / 0x100_0000 == b / 0x100;
    assert n == 0x100 * a + n % 0x100 && a == 0x100 * b + a % 0x100 && b == 0x100 * (n / 0x100_0000) + b % 0x100;
  }

  lemma {:induction false} WordAt(ns: seq<nat>, i: nat)
    requires AllWords(ns) && i < |ns|
    ensures Words(ns)[4 * i..4 * i + 4] == Word(ns[i])
  {
    hide Word;
    var n := |ns| - 1;
    if i < n {
      WordAt(ns[..n], i);
      assert Words(ns)[4 * i..4 * i + 4] == Words(ns[..n])[4 * i..4 * i + 4];
    }
  }

  /** A position in a slice: counted from the end when negative, and kept within 0 and `n`. */
  function Position(p: int, n: nat): int {
    if p >= n then n else if p >= 0 then p else if p + n >= 0 then p + n else 0
  }

  /** The bytes between two positions, none when the second does not come after the first. */
  lemma SliceBytes(data: Data, lo: int, hi: int)
    ensures var l, h := Position(lo, |data|), Position(hi, |data|);
            && |Slice(data, lo, hi)| == (if l < h then h - l else 0)
            && forall i :: 0 <= i < |Slice(data, lo, hi)| ==> Slice(data, lo, hi)[i] == data[l + i]
  {
  }

  lemma SliceOf(a: Data, b: Data, c: Data)
    ensures Slice(a + b + c, |a|, |a| + |b|) == b
  {
  }

  lemma ReadIs(data: Data, offset: int, n: nat, b: Data)
    requires Slice(data, offset, offset + 4 * n) == b && |b| == 4 * n
    ensures var r := ReadU32s(data, offset, n);
            r.Ok? && |r.value| == n && forall i: nat :: i < n ==> r.value[i] == U32(b[4 * i..4 * i + 4])
  {
    hide Slice, U32;
  }

  /** Words that are written are the words that are read. */
  lemma WordsRead(before: Data, ns: seq<nat>, after: Data)
    requires AllWords(ns)
    ensures ReadU32s(before + Words(ns) + after, |before|, |ns|) == Ok(ns)
  {
    hide Slice, U32, Word, Words, ReadU32s;
    SliceOf(before, Words(ns), after);
    ReadIs(before + Words(ns) + after, |before|, |ns|, Words(ns));
    var r := ReadU32s(before + Words(ns) + after, |before|, |ns|).value;
    forall i: nat | i < |ns|
      ensures r[i] == ns[i]
    {
      WordAt(ns, i);
      WordReads(ns[i]);
    }
    assert r == ns;
  }

  /** A header that is written is the header that is read, wherever it stands and whatever follows it. */
  lemma HeaderReads(before: Data, dims: seq<nat>, name: Data, dtype: nat, after: Data, usePadding: bool)
    requires |dims| <= 4 && AllWords(dims) && |name| < 4096 && dtype < TWO32
    ensures var r := ReadTensor(before + Header(dims, name, dtype) + after, |before|, usePadding);
            && (r.Ok? <==> QuantSize(dtype).Some?)
            && (r.Ok? ==>
                  && r.value.offset == |before| && r.value.dims == dims && r.value.dtype == dtype
                  && r.value.name == name && r.value.nameLength == |name|
                  && NameEnd(r.value) == |before| + |Header(dims, name, dtype)|)
            && (r.Err? ==> r.error == UnknownType)
  {
    hide ReadU32s, Slice, Words, QuantSize, Align, SizeInBytes, Wrap64, Product;
    var h, d := Words([|dims|, |name|, dtype]), Words(dims);
    var data := before + Header(dims, name, dtype) + after;
    assert data == before + h + (d + name + after);
    WordsRead(before, [|dims|, |name|, dtype], d + name + after);
    assert data == (before + h) + d + (name + after);
    WordsRead(before + h, dims, name + after);
    assert data == (before + h + d) + name + after;
    SliceOf(before + h + d, name, after);
  }

  /** What the first three words of a header decide, whatever follows them. */
  lemma HeaderRejects(before: Data, nDims: nat, nameLength: nat, dtype: nat, after: Data, usePadding: bool)
    requires nDims < TWO32 && nameLength < TWO32 && dtype < TWO32
    ensures var r := ReadTensor(before + Words([nDims, nameLength, dtype]) + after, |before|, usePadding);
            && (nDims > 4 ==> r == Err(InvalidDimensions))
            && (nDims <= 4 && nameLength >= 4096 ==> r == Err(AbsurdNameLength))
            && (nDims <= 4 && nameLength < 4096 && QuantSize(dtype).None? ==> r == Err(UnknownType))
  {
    hide ReadU32s, Slice, Words, QuantSize, Align, SizeInBytes;
    WordsRead(before, [nDims, nameLength, dtype], after);
  }

  /** A header needs its three words. */
  lemma HeaderIsShort(data: Data, offset: nat, usePadding: bool)
    requires |data| < offset + 12
    ensures ReadTensor(data, offset, usePadding) == Err(ShortRead)
  {
  }

  /** An item's text is shorter than 4096 bytes. */
  lemma ItemRejects(before: Data, n: nat, after: Data, loadScores: bool)
    requires 4096 <= n < TWO32
    ensures ReadItem(before + Word(n) + after, |before|, loadScores) == Err(AbsurdItemLength)
  {
    hide ReadU32s, Slice, Words, Word;
    OneWord(n);
    WordsRead(before, [n], after);
  }

  /** An item that is written is the item that is read, with the offset after it. */
  lemma ItemReads(before: Data, item: Item, after: Data, loadScores: bool)
    requires |item.text| < 4096 && |item.score| == if loadScores then 4 else 0
    ensures ReadItem(before + ItemText(item) + after, |before|, loadScores)
            == Ok((item, |before| + |ItemText(item)|))
  {
    hide ReadU32s, Slice, Words, Word;
    var n, w := |item.text|, Word(|item.text|);
    var data := before + ItemText(item) + after;
    assert Words([n]) == w by {
      OneWord(n);
    }
    assert data == before + w + (item.text + item.score + after);
    WordsRead(before, [n], item.text + item.score + after);
    assert data == (before + w) + item.text + (item.score + after);
    SliceOf(before + w, item.text, item.score + after);
    assert data == (before + w + item.text) + item.score + after;
    SliceOf(before + w + item.text, item.score, after);
  }

  lemma OneWord(n: nat)
    requires n < TWO32
    ensures Words([n]) == Word(n)
  {
    hide Word;
    assert [n][..0] == [];
    assert Words([n]) == [] + Word(n);
  }

  // ---------------------------------------------------------------- tensor types

  datatype QuantType =
    | F32 | F16 | BF16 | F64 | I8 | I16 | I32 | I64
    | Q4_0 | Q4_1 | Q5_0 | Q5_1 | Q8_0 | Q8_1
    | Q2_K | Q3_K | Q4_K | Q5_K | Q6_K | Q8_K
    | IQ2_XXS | IQ2_XS | IQ2_S | IQ3_XXS | IQ3_S | IQ1_S | IQ1_M | IQ4_NL | IQ4_XS
    | TQ1_0 | TQ2_0

  /** The number that stands for a type in a file. */
  function Code(t: QuantType): nat {
    match t
    case F32 => 0
    case F16 => 1
    case Q4_0 => 2
    case Q4_1 => 3
    case Q5_0 => 6
    case Q5_1 => 7
    case Q8_0 => 8
    case Q8_1 => 9
    case Q2_K => 10
    case Q3_K => 11
    case Q4_K => 12
    case Q5_K => 13
    case Q6_K => 14
    case Q8_K => 15
    case IQ2_XXS => 16
    case IQ2_XS => 17
    case IQ3_XXS => 18
    case IQ1_S => 19
    case IQ4_NL => 20
    case IQ3_S => 21
    case IQ2_S => 22
    case IQ4_XS => 23
    case I8 => 24
    case I16 => 25
    case I32 => 26
    case I64 => 27
    case F64 => 28
    case IQ1_M => 29
    case BF16 => 30
    case TQ1_0 => 34
    case TQ2_0 => 35
  }

  const SUPER: nat := 256

  /** The parts of one block in bytes: scales and minima, then the packed values, for blocks of 32 or of 256. */
  function Block(t: QuantType): (nat, nat) {
    match t
    case F32 => (1, 4)
    case F16 => (1, 2)
    case BF16 => (1, 2)
    case F64 => (1, 8)
    case I8 => (1, 1)
    case I16 => (1, 2)
    case I32 => (1, 4)
    case I64 => (1, 8)
    case Q4_0 => (32, 2 + 16)
    case Q4_1 => (32, 2 + 2 + 16)
    case Q5_0 => (32, 2 + 4 + 16)
    case Q5_1 => (32, 2 + 2 + 4 + 16)
    case Q8_0 => (32, 2 + 32)
    case Q8_1 => (32, 4 + 4 + 32)
    case Q2_K => (SUPER, 2 + 2 + SUPER / 16 + SUPER / 4)
    case Q3_K => (SUPER, 2 + SUPER / 4 + SUPER / 8 + 12)
    case Q4_K => (SUPER, 2 + 2 + SUPER / 2 + 12)
    case Q5_K => (SUPER, 2 + 2 + SUPER / 2 + SUPER / 8 + 12)
    case Q6_K => (SUPER, 2 + SUPER / 2 + SUPER / 4 + SUPER / 16)
    case Q8_K => (SUPER, 4 + SUPER + SUPER / 8)
    case IQ2_XXS => (SUPER, 2 + SUPER / 4)
    case IQ2_XS => (SUPER, 2 + SUPER / 4 + SUPER / 32)
    case IQ2_S => (SUPER, 2 + SUPER / 4 + SUPER / 16)
    case IQ3_XXS => (SUPER, 2 + SUPER / 4 + SUPER / 8)
    case IQ3_S => (SUPER, 2 + SUPER / 4 + SUPER / 8 + SUPER / 32 + 4)
    case IQ1_S => (SUPER, 2 + SUPER / 8 + SUPER / 16)
    case IQ1_M => (SUPER, SUPER / 8 + SUPER / 16 + SUPER / 32)
    case IQ4_NL => (32, 2 + 16)
    case IQ4_XS => (SUPER, 2 + 2 + SUPER / 2 + SUPER / 64)
    case TQ1_0 => (SUPER, 2 + 4 * 13)
    case TQ2_0 => (SUPER, 2 + 64)
  }

  /** Every type has the block that its parts make up. */
  lemma KnownTypes(t: QuantType)
    ensures QuantSize(Code(t)) == Some(Block(t))
  {
  }

  /** And no other number is a type. */
  lemma NoOtherType(dtype: nat) returns (t: QuantType)
    requires QuantSize(dtype).Some?
    ensures Code(t) == dtype
  {
    t := if dtype == 0 then F32 else if dtype == 1 then F16 else if dtype == 2 then Q4_0 else if dtype == 3 then Q4_1
         else if dtype == 6 then Q5_0 else if dtype == 7 then Q5_1 else if dtype == 8 then Q8_0
         else if dtype == 9 then Q8_1 else if dtype == 10 then Q2_K else if dtype == 11 then Q3_K
         else if dtype == 12 then Q4_K else if dtype == 13 then Q5_K else if dtype == 14 then Q6_K
         else if dtype == 15 then Q8_K else if dtype == 16 then IQ2_XXS else if dtype == 17 then IQ2_XS
         else if dtype == 18 then IQ3_XXS else if dtype == 19 then IQ1_S else if dtype == 20 then IQ4_NL
         else if dtype == 21 then IQ3_S else if dtype == 22 then IQ2_S else if dtype == 23 then IQ4_XS
         else if dtype == 24 then I8 else if dtype == 25 then I16 else if dtype == 26 then I32
         else if dtype == 27 then I64 else if dtype == 28 then F64 else if dtype == 29 then IQ1_M
         else if dtype == 30 then BF16 else if dtype == 34 then TQ1_0 else TQ2_0;
  }
}
