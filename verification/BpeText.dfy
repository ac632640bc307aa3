/**
 The converted vocabulary at work: pairs of texts, looked up in the merge lines that were written
 and loaded again (src/llama-vocab.cpp), split the text of a word as the original ranks split its
 bytes.
 */
module BpeText {
  import opened Wrappers
  import opened BpeMerge
  import opened BpeRecovery
  import opened MergeFile

  /** The position among the loaded lines of the pair of texts that starts at `i`. */
  function TextScoreAt(lines: seq<Text>, parts: seq<Text>, i: nat): Option<int>
    requires i + 1 < |parts|
  {
    TextPosition(lines, (parts[i], parts[i + 1]))
  }

  /** Pair `i` is the leftmost among the pairs of texts that come first in the list. */
  ghost predicate IsBestText(lines: seq<Text>, parts: seq<Text>, i: nat) {
    && i + 1 < |parts|
    && TextScoreAt(lines, parts, i).Some?
    && (forall j: nat | j + 1 < |parts| && TextScoreAt(lines, parts, j).Some? ::
          && TextScoreAt(lines, parts, i).value <= TextScoreAt(lines, parts, j).value
          && (j < i ==> TextScoreAt(lines, parts, i).value < TextScoreAt(lines, parts, j).value))
  }

  ghost function TextStep(lines: seq<Text>, parts: seq<Text>): (r: Option<seq<Text>>)
    ensures r.Some? ==> |r.value| + 1 == |parts|
  {
    if i: nat :| IsBestText(lines, parts, i) then Some(Splice(parts, i, parts[i] + parts[i + 1])) else None
  }

  /** The symbols of a text: one for each character. */
  function Characters(text: Text): (r: seq<Text>)
    ensures |r| == |text|
  {
    seq(|text|, i requires 0 <= i < |text| => [text[i]])
  }

  ghost function TextStateAfter(lines: seq<Text>, text: Text, n: nat): (r: Option<seq<Text>>)
    ensures r.Some? ==> |r.value| + n == |text|
  {
    if n == 0 then Some(Characters(text))
    else
      match TextStateAfter(lines, text, n - 1)
      case None => None
      case Some(parts) => TextStep(lines, parts)
  }

  /** `parts` is where merging the characters of `text` stops. */
  ghost predicate TextEncodes(lines: seq<Text>, text: Text, parts: seq<Text>) {
    && |parts| <= |text|
    && TextStateAfter(lines, text, |text| - |parts|) == Some(parts)
    && TextStep(lines, parts) == None
  }

  // ---------------------------------------------------------------- bytes and texts

  function Texts(parts: seq<Bytes>): (r: seq<Text>)
    ensures |r| == |parts| && forall i :: 0 <= i < |parts| ==> r[i] == BytesToText(parts[i])
  {
    seq(|parts|, i requires 0 <= i < |parts| => BytesToText(parts[i]))
  }

  lemma TextOfConcat(a: Bytes, b: Bytes)
    ensures BytesToText(a + b) == BytesToText(a) + BytesToText(b)
  {
  }

  lemma TextOfSingles(word: Bytes)
    ensures Characters(BytesToText(word)) == Texts(Singles(word))
  {
    forall i | 0 <= i < |word|
      ensures Characters(BytesToText(word))[i] == Texts(Singles(word))[i]
    {
      assert BytesToText([word[i]]) == [ByteToChar(word[i])];
    }
  }

  lemma TextOfMerge(parts: seq<Bytes>, i: nat)
    requires i + 1 < |parts|
    ensures Splice(Texts(parts), i, Texts(parts)[i] + Texts(parts)[i + 1]) == Texts(MergeAt(parts, i))
  {
    var t, x := Texts(parts), Texts(parts)[i] + Texts(parts)[i + 1];
    TextOfConcat(parts[i], parts[i + 1]);
    hide BytesToText, Splice;
    forall k: nat | k < |parts| - 1
      ensures Splice(t, i, x)[k] == Texts(MergeAt(parts, i))[k]
    {
      SpliceAt(t, i, x, k);
      SpliceAt(parts, i, parts[i] + parts[i + 1], k);
    }
  }

  /** Every merge that was recovered has a first part. */
  lemma MergesHaveParts(entries: Entries, merges: seq<Pair>)
    requires Recovered(entries, merges)
    ensures forall m :: 0 <= m < |merges| ==> merges[m].0 != []
  {
    hide RanksOf, IsMergeList;
    var ranks := RanksOf(entries);
    forall m: nat | m < |merges|
      ensures merges[m].0 != []
    {
      var k := EntryOfMerge(ranks, entries, merges, m);
      MergeOfEntry(ranks, entries, merges, k);
      var p, token := merges[m], entries[k].0;
      PartsAreNotEmpty(ByRank(ranks), Some(entries[k].1), token, |token| - 2);
      assert [p.0, p.1][0] == p.0;
    }
  }

  // ---------------------------------------------------------------- the same run

  lemma SameScores(merges: seq<Pair>, parts: seq<Bytes>, i: nat)
    requires i + 1 < |parts| && forall m :: 0 <= m < |merges| ==> merges[m].0 != []
    ensures TextScoreAt(WriteAll(merges), Texts(parts), i) == ScoreAt(ByMerge(merges), parts, i)
  {
    LoadedRanks(merges, (parts[i], parts[i + 1]));
  }

  lemma TextStepIs(lines: seq<Text>, parts: seq<Text>, i: nat)
    requires IsBestText(lines, parts, i)
    ensures TextStep(lines, parts) == Some(Splice(parts, i, parts[i] + parts[i + 1]))
  {
    hide Splice;
    forall j: nat | IsBestText(lines, parts, j)
      ensures j == i
    {
      assert TextScoreAt(lines, parts, i).Some? && TextScoreAt(lines, parts, j).Some?;
    }
  }

  lemma SameBestText(merges: seq<Pair>, parts: seq<Bytes>, i: nat)
    requires forall m :: 0 <= m < |merges| ==> merges[m].0 != []
    ensures IsBestText(WriteAll(merges), Texts(parts), i) <==> IsNext(ByMerge(merges), None, parts, i)
  {
    forall j: nat | j + 1 < |parts|
      ensures TextScoreAt(WriteAll(merges), Texts(parts), j) == ScoreAt(ByMerge(merges), parts, j)
    {
      SameScores(merges, parts, j);
    }
    hide TextScoreAt, ScoreAt;
  }

  function TextsOf(parts: Option<seq<Bytes>>): Option<seq<Text>> {
    match parts
    case None => None
    case Some(p) => Some(Texts(p))
  }

  lemma SameTextStep(merges: seq<Pair>, parts: seq<Bytes>)
    requires forall m :: 0 <= m < |merges| ==> merges[m].0 != []
    ensures TextStep(WriteAll(merges), Texts(parts)) == TextsOf(Step(ByMerge(merges), None, parts))
  {
    hide IsBestText, IsNext;
    forall i: nat
      ensures IsBestText(WriteAll(merges), Texts(parts), i) <==> IsNext(ByMerge(merges), None, parts, i)
    {
      SameBestText(merges, parts, i);
    }
    if i: nat :| IsNext(ByMerge(merges), None, parts, i) {
      StepIs(ByMerge(merges), None, parts, i);
      TextStepIs(WriteAll(merges), Texts(parts), i);
      NextIsInside(ByMerge(merges), parts, i);
      TextOfMerge(parts, i);
    }
  }

  lemma NextIsInside(t: Table, parts: seq<Bytes>, i: nat)
    requires IsNext(t, None, parts, i)
    ensures i + 1 < |parts|
  {
  }

  /** The run over the texts, with the loaded lines, is the run over the bytes, with the list. */
  lemma {:induction false} SameTextStates(merges: seq<Pair>, word: Bytes, n: nat)
    requires forall m :: 0 <= m < |merges| ==> merges[m].0 != []
    ensures TextStateAfter(WriteAll(merges), BytesToText(word), n)
            == TextsOf(StateAfter(ByMerge(merges), None, word, n))
  {
    hide Step, TextStep;
    if n == 0 {
      TextOfSingles(word);
    } else {
      SameTextStates(merges, word, n - 1);
      var before := StateAfter(ByMerge(merges), None, word, n - 1);
      if before.Some? {
        SameTextStep(merges, before.value);
      }
    }
  }

  /**
   The whole conversion: for a dictionary in rank order, merging the text of a word with the lines
   that were written and loaded gives the texts of the parts that the original ranks give, and
   nothing else.
   */
  lemma ConvertedTextEncoding(entries: Entries, merges: seq<Pair>, word: Bytes, parts: seq<Bytes>, texts: seq<Text>)
    requires Recovered(entries, merges) && InRankOrder(entries)
    requires Encodes(ByRank(RanksOf(entries)), None, word, parts)
    ensures TextEncodes(WriteAll(merges), BytesToText(word), texts) <==> texts == Texts(parts)
  {
    hide *;
    SameEncoding(entries, merges, word, parts);
    MergesHaveParts(entries, merges);
    TextsAreEncoded(merges, word, parts);
    if TextEncodes(WriteAll(merges), BytesToText(word), texts) {
      var same := BytesAreEncoded(merges, word, texts);
      EncodingIsUnique(ByMerge(merges), None, word, parts, same);
    }
  }

  lemma TextsAreEncoded(merges: seq<Pair>, word: Bytes, parts: seq<Bytes>)
    requires (forall m :: 0 <= m < |merges| ==> merges[m].0 != []) && Encodes(ByMerge(merges), None, word, parts)
    ensures TextEncodes(WriteAll(merges), BytesToText(word), Texts(parts))
  {
    hide WriteAll, StateAfter, Step, TextStateAfter, TextStep;
    SameTextStates(merges, word, |word| - |parts|);
    SameTextStep(merges, parts);
  }

  lemma BytesAreEncoded(merges: seq<Pair>, word: Bytes, texts: seq<Text>) returns (parts: seq<Bytes>)
    requires (forall m :: 0 <= m < |merges| ==> merges[m].0 != [])
             && TextEncodes(WriteAll(merges), BytesToText(word), texts)
    ensures Encodes(ByMerge(merges), None, word, parts) && texts == Texts(parts)
  {
    hide WriteAll, StateAfter, Step, TextStateAfter, TextStep;
    var n := |word| - |texts|;
    SameTextStates(merges, word, n);
    parts := StateAfter(ByMerge(merges), None, word, n).value;
    SameTextStep(merges, parts);
  }
}
