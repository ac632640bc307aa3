/**
 Why the recovered merge list needs the tokens in rank order: the loop of _set_vocab_qwen
 (convert_hf_to_gguf.py) records merges in the dictionary's order and never looks at it again.
 */
module BpeOrder {
  import opened Wrappers
  import opened BpeMerge
  import opened BpeRecovery

  /** A two-byte token stays in two parts under a cap at its own rank. */
  lemma StaysInTwo(ranks: map<Bytes, int>, x: Byte, y: Byte)
    requires [x, y] in ranks
    ensures Encodes(ByRank(ranks), Some(ranks[[x, y]]), [x, y], [[x], [y]])
  {
    var t, parts := ByRank(ranks), [[x], [y]];
    assert Singles([x, y]) == parts;
    assert parts[0] + parts[1] == [x, y];
    forall i: nat
      ensures !IsNext(t, Some(ranks[[x, y]]), parts, i)
    {
    }
  }

  // ---------------------------------------------------------------- three bytes

  /** Three bytes, with the first two merged or the last two. */
  function Merged(x: Byte, y: Byte, z: Byte, first: bool): seq<Bytes> {
    if first then [[x, y], [z]] else [[x], [y, z]]
  }

  lemma MergedAt(x: Byte, y: Byte, z: Byte)
    ensures Singles([x, y, z]) == [[x], [y], [z]]
    ensures MergeAt([[x], [y], [z]], 0) == Merged(x, y, z, true)
    ensures MergeAt([[x], [y], [z]], 1) == Merged(x, y, z, false)
  {
    var s := [[x], [y], [z]];
    assert [x] + [y] == [x, y] && [y] + [z] == [y, z];
    assert MergeAt(s, 0) == s[..0] + [[x] + [y]] + s[2..] == [[x, y], [z]];
    assert MergeAt(s, 1) == s[..1] + [[y] + [z]] + s[3..] == [[x], [y, z]];
  }

  /** One merge out of three bytes, and no further one when the three are no token. */
  lemma OneMerge(t: Table, x: Byte, y: Byte, z: Byte, first: bool)
    requires IsNext(t, None, [[x], [y], [z]], if first then 0 else 1)
    requires Score(t, (Merged(x, y, z, first)[0], Merged(x, y, z, first)[1])).None?
    ensures Encodes(t, None, [x, y, z], Merged(x, y, z, first))
  {
    MergedAt(x, y, z);
    hide Score, Singles, MergeAt;
    var s, parts := [[x], [y], [z]], Merged(x, y, z, first);
    StepIs(t, None, s, if first then 0 else 1);
    assert StateAfter(t, None, [x, y, z], 0) == Some(s);
    assert StateAfter(t, None, [x, y, z], 1) == Some(parts);
    forall j: nat
      ensures !IsNext(t, None, parts, j)
    {
    }
  }

  /** The scores of the two pairs of three bytes, in both tables. */
  lemma PairScores(entries: Entries, merges: seq<Pair>, x: Byte, y: Byte, z: Byte, p: nat, q: nat)
    requires Recovered(entries, merges) && p < |entries| && q < |entries| && entries[p].0 == [x, y]
             && entries[q].0 == [y, z]
    ensures var t, u, s := ByRank(RanksOf(entries)), ByMerge(merges), [[x], [y], [z]];
            && ScoreAt(t, s, 0) == Some(entries[p].1) && ScoreAt(t, s, 1) == Some(entries[q].1)
            && ScoreAt(u, s, 0) == Some(MergePosition(entries, p))
               && ScoreAt(u, s, 1) == Some(MergePosition(entries, q))
  {
    var s := [[x], [y], [z]];
    assert Singles([x, y, z]) == s;
    assert s[0] + s[1] == [x, y] && s[1] + s[2] == [y, z];
    hide RanksOf, IsMergeList, Score, MergePosition;
    IsListedAt(entries, p);
    IsListedAt(entries, q);
    ListedIffRanked(entries, [x, y]);
    ListedIffRanked(entries, [y, z]);
    ListedScores(entries, merges, [x, y, z], 0, s, 0);
    ListedScores(entries, merges, [x, y, z], 0, s, 1);
  }

  lemma IsListedAt(entries: Entries, k: nat)
    requires DistinctKeys(entries) && k < |entries|
    ensures IndexOf(entries, entries[k].0) == Some(k)
  {
  }

  /** Three bytes that are no token have no score as two parts. */
  lemma NoSecondMerge(entries: Entries, merges: seq<Pair>, x: Byte, y: Byte, z: Byte, first: bool)
    requires Recovered(entries, merges) && forall k :: 0 <= k < |entries| ==> entries[k].0 != [x, y, z]
    ensures var parts := Merged(x, y, z, first);
            Score(ByRank(RanksOf(entries)), (parts[0], parts[1])).None?
                && Score(ByMerge(merges), (parts[0], parts[1])).None?
  {
    var p := (Merged(x, y, z, first)[0], Merged(x, y, z, first)[1]);
    assert p.0 + p.1 == [x, y, z];
    ListedIffRanked(entries, [x, y, z]);
    hide RanksOf, IsMergeList, Encodes;
    if Score(ByMerge(merges), p).Some? {
      var m := PositionOf(merges, p).value;
      var k := EntryOfMerge(RanksOf(entries), entries, merges, m);
      MergeOfEntry(RanksOf(entries), entries, merges, k);
      PairBytes(RanksOf(entries), Some(entries[k].1), entries[k].0, p);
    }
  }

  /** Of two pairs in three bytes the one of lower score is merged, the first one on a tie. */
  lemma LowerFirst(t: Table, x: Byte, y: Byte, z: Byte, a: int, b: int)
    requires ScoreAt(t, [[x], [y], [z]], 0) == Some(a) && ScoreAt(t, [[x], [y], [z]], 1) == Some(b)
    ensures IsNext(t, None, [[x], [y], [z]], if a <= b then 0 else 1)
  {
  }

  /**
   Why the order matters, for every dictionary: where two overlapping pairs of bytes are tokens and
   all three bytes are not, the table merges the pair of lower rank and the recovered list the pair
   that is listed first. So the encodings of the three bytes differ exactly when the two tokens are
   listed against their ranks.
   */
  lemma OrderMatters(entries: Entries, merges: seq<Pair>, x: Byte, y: Byte, z: Byte, p: nat, q: nat)
    requires Recovered(entries, merges) && p < |entries| && q < |entries| && entries[p].0 == [x, y]
             && entries[q].0 == [y, z]
    requires forall k :: 0 <= k < |entries| ==> entries[k].0 != [x, y, z]
    ensures Encodes(ByRank(RanksOf(entries)), None, [x, y, z], Merged(x, y, z, entries[p].1 <= entries[q].1))
    ensures Encodes(ByMerge(merges), None, [x, y, z], Merged(x, y, z, p <= q))
    ensures Merged(x, y, z, true) != Merged(x, y, z, false)
  {
    PairScores(entries, merges, x, y, z, p, q);
    SameListing(entries, p, q);
    var byRank, byList := entries[p].1 <= entries[q].1, p <= q;
    NoSecondMerge(entries, merges, x, y, z, byRank);
    NoSecondMerge(entries, merges, x, y, z, byList);
    hide RanksOf, Recovered, Encodes, ScoreAt, Score, MergePosition, IsNext, Merged;
    LowerFirst(ByRank(RanksOf(entries)), x, y, z, entries[p].1, entries[q].1);
    LowerFirst(ByMerge(merges), x, y, z, MergePosition(entries, p), MergePosition(entries, q));
    OneMerge(ByRank(RanksOf(entries)), x, y, z, byRank);
    OneMerge(ByMerge(merges), x, y, z, byList);
    MergesDiffer(x, y, z);
  }

  lemma MergesDiffer(x: Byte, y: Byte, z: Byte)
    ensures Merged(x, y, z, true) != Merged(x, y, z, false)
  {
    assert Merged(x, y, z, true)[0] != Merged(x, y, z, false)[0];
  }

  // ---------------------------------------------------------------- such dictionaries are recovered

  /** Two tokens of two bytes, whatever their ranks: the recovery notices nothing. */
  lemma TwoAreRecovered(a: Byte, b: Byte, c: Byte, d: Byte, low: int, high: int)
    requires low < high && [a, b] != [c, d]
    ensures var entries: Entries := [([c, d], high), ([a, b], low)];
            Recovered(entries, [([c], [d]), ([a], [b])]) && !InRankOrder(entries)
  {
    var entries: Entries := [([c, d], high), ([a, b], low)];
    var merges: seq<Pair> := [([c], [d]), ([a], [b])];
    var ranks := RanksOf(entries);
    RankOfEntry(entries, 0);
    RankOfEntry(entries, 1);
    StaysInTwo(ranks, c, d);
    StaysInTwo(ranks, a, b);
    hide RanksOf, Encodes;
    var one: Entries := [([c, d], high)];
    var none: Entries := [];
    assert entries[..1] == one && one[..0] == none;
    assert merges[..1] == [([c], [d])] && merges[..1][..0] == [];
    assert IsMergeList(ranks, one, merges[..1]);
    assert |entries[0].0| != 1 && |entries[1].0| != 1 && entries[0].1 > entries[1].1;
  }

  /** So two overlapping tokens against their ranks are recovered. */
  lemma UnorderedIsRecovered(x: Byte, y: Byte, z: Byte, low: int, high: int)
    requires low < high && (x != y || y != z)
    ensures var entries: Entries := [([y, z], high), ([x, y], low)];
            Recovered(entries, [([y], [z]), ([x], [y])]) && !InRankOrder(entries)
  {
    assert [y, z][0] == y && [y, z][1] == z && [x, y][0] == x && [x, y][1] == y;
    TwoAreRecovered(x, y, y, z, low, high);
  }
}
