/**
 The merge list as text: each pair is written as two words with a blank between them
 (convert_hf_to_gguf.py, _set_vocab_qwen) and read back when the vocabulary is loaded
 (src/llama-vocab.cpp).
 */
module MergeFile {
  import opened Wrappers
  import opened BpeMerge

  /** A byte as the printable code point that GPT-2 vocabularies write for it. */
  function ByteToChar(b: Byte): (c: int)
    ensures c > 0x20
  {
    var n := b as int;
    if 0x21 <= n <= 0x7E || 0xA1 <= n <= 0xAC || 0xAE <= n then n
    else if n <= 0x20 then 0x100 + n
    else if n <= 0xA0 then 0x100 + 33 + (n - 0x7F)
    else 0x100 + 67
  }

  type Text = seq<int>
  const BLANK := 0x20

  function BytesToText(s: Bytes): (t: Text)
    ensures |t| == |s|
    ensures BLANK !in t
  {
    seq(|s|, i requires 0 <= i < |s| => ByteToChar(s[i]))
  }

  function WriteMerge(p: Pair): Text {
    BytesToText(p.0) + [BLANK] + BytesToText(p.1)
  }

  /** The first position of a blank at or after `from`. */
  function FindBlank(t: Text, from: nat): (r: Option<nat>)
    ensures r.Some? ==> from <= r.value < |t| && t[r.value] == BLANK
    decreases |t| - from
  {
    if from >= |t| then None
    else if t[from] == BLANK then Some(from)
    else FindBlank(t, from + 1)
  }

  /** Splits a line at its first blank after the first character. */
  function ReadMerge(line: Text): (Text, Text) {
    match FindBlank(line, 1)
    case None => ([], [])
    case Some(pos) => (line[..pos], line[pos + 1..])
  }

  function TextPosition(lines: seq<Text>, p: (Text, Text)): Option<int> {
    if lines == [] then None
    else if ReadMerge(lines[0]) == p then Some(0)
    else
      match TextPosition(lines[1..], p)
      case None => None
      case Some(i) => Some(i + 1)
  }

  function WriteAll(merges: seq<Pair>): (lines: seq<Text>)
    ensures |lines| == |merges|
    ensures forall i :: 0 <= i < |lines| ==> lines[i] == WriteMerge(merges[i])
  {
    seq(|merges|, i requires 0 <= i < |merges| => WriteMerge(merges[i]))
  }

  /** The printable characters, which stand for themselves. */
  predicate StandsForItself(b: int) {
    '!' as int <= b <= '~' as int || 0xA1 <= b <= 0xAC || 0xAE <= b <= 0xFF
  }

  /** How many of the bytes below `b` do not stand for themselves. */
  function OthersBelow(b: nat): nat {
    if b == 0 then 0 else OthersBelow(b - 1) + if StandsForItself(b - 1) then 0 else 1
  }

  lemma {:induction false} CountOthers(b: nat)
    requires b <= 0x100
    ensures OthersBelow(b) ==
            if b <= 0x21 then b else if b <= 0x7F then 0x21 else if b <= 0xA1 then 0x21 + (b - 0x7F)
            else if b <= 0xAD then 0x43 else 0x44
  {
    if b > 0 {
      CountOthers(b - 1);
    }
  }

  /** The table: all other bytes are numbered from 256 on, in their order. */
  lemma ByteTable(b: Byte)
    ensures ByteToChar(b) == if StandsForItself(b as int) then b as int else 256 + OthersBelow(b as int)
  {
    CountOthers(b as int);
  }

  lemma ByteToCharInjective(a: Byte, b: Byte)
    requires ByteToChar(a) == ByteToChar(b)
    ensures a == b
  {
  }

  lemma BytesToTextInjective(a: Bytes, b: Bytes)
    requires BytesToText(a) == BytesToText(b)
    ensures a == b
  {
    forall i | 0 <= i < |a|
      ensures a[i] == b[i]
    {
      assert BytesToText(a)[i] == BytesToText(b)[i];
      ByteToCharInjective(a[i], b[i]);
    }
  }

  lemma {:induction false} BlankIsAt(t: Text, from: nat, pos: nat)
    requires from <= pos < |t| && t[pos] == BLANK && forall i :: from <= i < pos ==> t[i] != BLANK
    ensures FindBlank(t, from) == Some(pos)
    decreases pos - from
  {
    if from < pos {
      BlankIsAt(t, from + 1, pos);
    }
  }

  /** Every line is split at its first blank behind its first character, and without one it is no pair. */
  lemma ReadsAtBlank(first: Text, second: Text)
    requires first != [] && BLANK !in first[1..]
    ensures ReadMerge(first + [BLANK] + second) == (first, second)
    ensures ReadMerge(first) == ([], [])
  {
    var line := first + [BLANK] + second;
    forall i | 1 <= i < |first|
      ensures line[i] != BLANK && first[i] != BLANK
    {
      assert first[1..][i - 1] == first[i] && line[i] == first[i];
    }
    BlankIsAt(line, 1, |first|);
    NoBlank(first, 1);
    assert line[..|first|] == first && line[|first| + 1..] == second;
  }

  lemma {:induction false} NoBlank(t: Text, from: nat)
    requires forall i :: from <= i < |t| ==> t[i] != BLANK
    ensures FindBlank(t, from).None?
    decreases |t| - from
  {
    if from < |t| {
      NoBlank(t, from + 1);
    }
  }

  /** A written pair reads back as its two words. */
  lemma MergeRoundTrip(p: Pair)
    requires p.0 != []
    ensures ReadMerge(WriteMerge(p)) == (BytesToText(p.0), BytesToText(p.1))
  {
    var line, first := WriteMerge(p), BytesToText(p.0);
    forall i | 1 <= i < |first|
      ensures line[i] != BLANK
    {
      assert line[i] == first[i] && first[i] in first;
    }
    BlankIsAt(line, 1, |first|);
    assert line[..|first|] == first;
    assert line[|first| + 1..] == BytesToText(p.1);
  }

  /** The loaded list ranks every pair as the recorded list does. */
  lemma {:induction false} LoadedRanks(merges: seq<Pair>, p: Pair)
    requires forall i :: 0 <= i < |merges| ==> merges[i].0 != []
    ensures TextPosition(WriteAll(merges), (BytesToText(p.0), BytesToText(p.1))) == PositionOf(merges, p)
  {
    if merges != [] {
      MergeRoundTrip(merges[0]);
      if merges[0] != p {
        if ReadMerge(WriteAll(merges)[0]) == (BytesToText(p.0), BytesToText(p.1)) {
          BytesToTextInjective(merges[0].0, p.0);
          BytesToTextInjective(merges[0].1, p.1);
        }
        assert WriteAll(merges)[1..] == WriteAll(merges[1..]);
        LoadedRanks(merges[1..], p);
      }
    }
  }
}
