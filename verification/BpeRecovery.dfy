/**
 Rebuilding a pairwise merge list from a rank table (convert_hf_to_gguf.py, _set_vocab_qwen), and
 the proof that the list means the same as the table.
 */
module BpeRecovery {
  import opened Wrappers
  import opened BpeMerge

  /** A dictionary from tokens to ranks, in insertion order. */
  type Entries = seq<(Bytes, int)>

  ghost predicate DistinctKeys(entries: Entries) {
    forall i, j :: 0 <= i < j < |entries| ==> entries[i].0 != entries[j].0
  }

  /** The tokens other than single bytes are listed by strictly increasing rank. */
  ghost predicate InRankOrder(entries: Entries) {
    forall i, j :: 0 <= i < j < |entries| && |entries[i].0| != 1 && |entries[j].0| != 1 ==> entries[i].1 < entries[j].1
  }

  /** The lookup table of the dictionary. */
  function RanksOf(entries: Entries): map<Bytes, int> {
    if entries == [] then map[]
    else
      var last := entries[|entries| - 1];
      RanksOf(entries[..|entries| - 1])[last.0 := last.1]
  }

  /**
   `merges` holds, in the order of `entries`, the two parts that each token other than a single
   byte encodes to under a cap at its own rank.
   */
  ghost predicate IsMergeList(ranks: map<Bytes, int>, entries: Entries, merges: seq<Pair>) {
    if entries == [] then merges == []
    else
      var (token, rank), rest := entries[|entries| - 1], entries[..|entries| - 1];
      if |token| == 1 then IsMergeList(ranks, rest, merges)
      else
        && merges != []
        && IsMergeList(ranks, rest, merges[..|merges| - 1])
        && var p := merges[|merges| - 1]; Encodes(ByRank(ranks), Some(rank), token, [p.0, p.1])
  }

  /** The assertion of the recovery fails on this token. */
  ghost predicate NotTwoParts(ranks: map<Bytes, int>, token: Bytes, rank: int) {
    |token| != 1 && exists parts :: Encodes(ByRank(ranks), Some(rank), token, parts) && |parts| != 2
  }

  /** The merge loop of _set_vocab_qwen; None stands for its failing assertion. */
  method RecoverMerges(entries: Entries) returns (r: Option<seq<Pair>>)
    ensures r.Some? ==> IsMergeList(RanksOf(entries), entries, r.value)
    ensures r.None? <==> exists i :: 0 <= i < |entries| && NotTwoParts(RanksOf(entries), entries[i].0, entries[i].1)
  {
    hide RanksOf, Encodes;
    var ranks := RanksOf(entries);
    var merges: seq<Pair> := [];
    for i := 0 to |entries|
      invariant IsMergeList(ranks, entries[..i], merges)
      invariant forall j :: 0 <= j < i ==> !NotTwoParts(ranks, entries[j].0, entries[j].1)
    {
      var (token, rank) := entries[i];
      assert entries[..i + 1][..i] == entries[..i];
      if |token| != 1 {
        var merged := Bpe(ranks, token, Some(rank));
        if |merged| != 2 {
          assert NotTwoParts(ranks, entries[i].0, entries[i].1);
          return None;
        }
        forall parts | Encodes(ByRank(ranks), Some(rank), token, parts)
          ensures |parts| == 2
        {
          EncodingIsUnique(ByRank(ranks), Some(rank), token, parts, merged);
        }
        assert merged == [merged[0], merged[1]];
        assert (merges + [(merged[0], merged[1])])[..|merges|] == merges;
        merges := merges + [(merged[0], merged[1])];
      }
    }
    assert entries[..|entries|] == entries;
    return Some(merges);
  }

  // ---------------------------------------------------------------- where a token's merge is

  /** How many of the first `k` tokens have a merge: the position of the merge of token `k`. */
  function MergePosition(entries: Entries, k: nat): nat
    requires k <= |entries|
  {
    if k == 0 then 0
    else MergePosition(entries, k - 1) + if |entries[k - 1].0| == 1 then 0 else 1
  }

  lemma {:induction false} PositionsIncrease(entries: Entries, i: nat, j: nat)
    requires i < j <= |entries|
    ensures MergePosition(entries, i) <= MergePosition(entries, j)
    ensures |entries[i].0| != 1 ==> MergePosition(entries, i) < MergePosition(entries, j)
  {
    if i + 1 < j {
      PositionsIncrease(entries, i, j - 1);
    }
  }

  lemma {:induction false} PrefixPosition(entries: Entries, k: nat, n: nat)
    requires k <= n <= |entries|
    ensures MergePosition(entries[..n], k) == MergePosition(entries, k)
  {
    if k > 0 {
      PrefixPosition(entries, k - 1, n);
    }
  }

  lemma {:induction false} RankOfEntry(entries: Entries, k: nat)
    requires DistinctKeys(entries) && k < |entries|
    ensures entries[k].0 in RanksOf(entries) && RanksOf(entries)[entries[k].0] == entries[k].1
  {
    var n := |entries| - 1;
    if k < n {
      RankOfEntry(entries[..n], k);
    }
  }

  lemma {:induction false} EntryOfRank(entries: Entries, token: Bytes) returns (k: nat)
    requires token in RanksOf(entries)
    ensures k < |entries| && entries[k].0 == token
  {
    var n := |entries| - 1;
    if token == entries[n].0 {
      k := n;
    } else {
      k := EntryOfRank(entries[..n], token);
    }
  }

  /** The merge of token `k` is at its position, and is what the capped run leaves of the token. */
  lemma {:induction false} MergeOfEntry(ranks: map<Bytes, int>, entries: Entries, merges: seq<Pair>, k: nat)
    requires IsMergeList(ranks, entries, merges) && k < |entries| && |entries[k].0| != 1
    ensures MergePosition(entries, k) < |merges|
    ensures var p := merges[MergePosition(entries, k)];
            Encodes(ByRank(ranks), Some(entries[k].1), entries[k].0, [p.0, p.1])
  {
    var n := |entries| - 1;
    MergeCount(ranks, entries, merges);
    if k < n {
      var rest := if |entries[n].0| == 1 then merges else merges[..|merges| - 1];
      MergeOfEntry(ranks, entries[..n], rest, k);
      PrefixPosition(entries, k, n);
    }
  }

  lemma {:induction false} MergeCount(ranks: map<Bytes, int>, entries: Entries, merges: seq<Pair>)
    requires IsMergeList(ranks, entries, merges)
    ensures |merges| == MergePosition(entries, |entries|)
  {
    if entries != [] {
      var n := |entries| - 1;
      MergeCount(ranks, entries[..n], if |entries[n].0| == 1 then merges else merges[..|merges| - 1]);
      PrefixPosition(entries, n, n);
    }
  }

  /** Every recorded merge is the merge of some token. */
  lemma {:induction false} EntryOfMerge(ranks: map<Bytes, int>, entries: Entries, merges: seq<Pair>, m: nat)
    returns (k: nat)
    requires IsMergeList(ranks, entries, merges) && m < |merges|
    ensures k < |entries| && |entries[k].0| != 1 && MergePosition(entries, k) == m
  {
    var n := |entries| - 1;
    MergeCount(ranks, entries, merges);
    if |entries[n].0| != 1 && m == |merges| - 1 {
      k := n;
    } else {
      k := EntryOfMerge(ranks, entries[..n], if |entries[n].0| == 1 then merges else merges[..|merges| - 1], m);
      PrefixPosition(entries, k, n);
    }
  }

  // ---------------------------------------------------------------- the list means the table

  /** The recovery of this dictionary succeeds with this list. */
  ghost predicate Recovered(entries: Entries, merges: seq<Pair>) {
    DistinctKeys(entries) && IsMergeList(RanksOf(entries), entries, merges)
  }

  lemma PairBytes(ranks: map<Bytes, int>, cap: Option<int>, token: Bytes, p: Pair)
    requires Encodes(ByRank(ranks), cap, token, [p.0, p.1])
    ensures p.0 + p.1 == token
  {
    StateKeepsBytes(ByRank(ranks), cap, token, |token| - 2);
    FlatPair(p.0, p.1);
  }

  lemma {:induction false} FirstPosition(merges: seq<Pair>, m: nat)
    requires m < |merges| && forall j: nat | j < m :: merges[j] != merges[m]
    ensures PositionOf(merges, merges[m]) == Some(m)
  {
    if m > 0 {
      assert merges[0] != merges[m] && merges[1..][m - 1] == merges[m];
      FirstPosition(merges[1..], m - 1);
    }
  }

  /** No pair is recorded twice. */
  lemma PositionOfMerge(entries: Entries, merges: seq<Pair>, k: nat)
    requires Recovered(entries, merges) && k < |entries| && |entries[k].0| != 1
    ensures MergePosition(entries, k) < |merges|
    ensures var m := MergePosition(entries, k); PositionOf(merges, merges[m]) == Some(m)
  {
    var ranks := RanksOf(entries);
    MergeOfEntry(ranks, entries, merges, k);
    var m := MergePosition(entries, k);
    PairBytes(ranks, Some(entries[k].1), entries[k].0, merges[m]);
    forall j: nat | j < m
      ensures merges[j] != merges[m]
    {
      var i := EntryOfMerge(ranks, entries, merges, j);
      MergeOfEntry(ranks, entries, merges, i);
      PairBytes(ranks, Some(entries[i].1), entries[i].0, merges[j]);
    }
    FirstPosition(merges, m);
  }

  /**
   In a state the rank-driven run reaches, a pair whose concatenation has a rank is the recorded
   merge of that token: locality makes the two parts a state of the token's own run, which has
   only one state of two parts.
   */
  lemma PairIsRecorded(entries: Entries, merges: seq<Pair>, word: Bytes, n: nat, parts: seq<Bytes>, i: nat, k: nat)
    requires Recovered(entries, merges)
    requires StateAfter(ByRank(RanksOf(entries)), None, word, n) == Some(parts) && i + 1 < |parts|
    requires k < |entries| && entries[k].0 == parts[i] + parts[i + 1]
    ensures |entries[k].0| != 1 && MergePosition(entries, k) < |merges|
    ensures merges[MergePosition(entries, k)] == (parts[i], parts[i + 1])
  {
    hide Step, IsMergeList, RanksOf;
    var t := ByRank(RanksOf(entries));
    var (token, rank) := entries[k];
    var j := Locality(t, None, word, n, i, i + 2);
    assert parts[i..i + 2] == [parts[i], parts[i + 1]];
    FlatPair(parts[i], parts[i + 1]);
    MergeOfEntry(RanksOf(entries), entries, merges, k);
    CappedRunIsPrefix(t, Some(rank), token, |token| - 2);
    var p := merges[MergePosition(entries, k)];
    assert [p.0, p.1] == [parts[i], parts[i + 1]];
    assert [p.0, p.1][0] == p.0 && [p.0, p.1][1] == p.1;
  }

  /** In a reachable state the two tables score the same pairs, each by the same token. */
  lemma CandidatesAgree(entries: Entries, merges: seq<Pair>, word: Bytes, n: nat, parts: seq<Bytes>, i: nat)
    returns (k: nat)
    requires Recovered(entries, merges)
    requires StateAfter(ByRank(RanksOf(entries)), None, word, n) == Some(parts) && i + 1 < |parts|
    requires ScoreAt(ByRank(RanksOf(entries)), parts, i).Some? || ScoreAt(ByMerge(merges), parts, i).Some?
    ensures k < |entries| && |entries[k].0| != 1 && entries[k].0 == parts[i] + parts[i + 1]
    ensures ScoreAt(ByRank(RanksOf(entries)), parts, i) == Some(entries[k].1)
    ensures ScoreAt(ByMerge(merges), parts, i) == Some(MergePosition(entries, k))
  {
    var ranks := RanksOf(entries);
    if ScoreAt(ByRank(ranks), parts, i).Some? {
      k := EntryOfRank(entries, parts[i] + parts[i + 1]);
    } else {
      k := EntryOfMerge(ranks, entries, merges, PositionOf(merges, (parts[i], parts[i + 1])).value);
      MergeOfEntry(ranks, entries, merges, k);
      PairBytes(ranks, Some(entries[k].1), entries[k].0, (parts[i], parts[i + 1]));
    }
    RankOfEntry(entries, k);
    PairIsRecorded(entries, merges, word, n, parts, i, k);
    PositionOfMerge(entries, merges, k);
  }

  lemma SameListing(entries: Entries, i: nat, j: nat)
    requires i < |entries| && j < |entries| && |entries[i].0| != 1 && |entries[j].0| != 1
    ensures i <= j <==> MergePosition(entries, i) <= MergePosition(entries, j)
    ensures i < j <==> MergePosition(entries, i) < MergePosition(entries, j)
  {
    if i < j {
      PositionsIncrease(entries, i, j);
    } else if j < i {
      PositionsIncrease(entries, j, i);
    }
  }

  // ---------------------------------------------------------------- one step of both tables

  /** Where a token is listed. */
  function IndexOf(entries: Entries, token: Bytes): (r: Option<nat>)
    ensures r.Some? ==> r.value < |entries| && entries[r.value].0 == token
    ensures r.None? <==> forall k :: 0 <= k < |entries| ==> entries[k].0 != token
  {
    if entries == [] then None
    else if entries[|entries| - 1].0 == token then Some(|entries| - 1)
    else IndexOf(entries[..|entries| - 1], token)
  }

  /** Where the token is listed that two adjacent parts make. */
  function ListedAt(entries: Entries, parts: seq<Bytes>, i: nat): Option<nat>
    requires i + 1 < |parts|
  {
    IndexOf(entries, parts[i] + parts[i + 1])
  }

  /** Of the tokens that adjacent parts make, the one that starts at `i` is listed first. */
  ghost predicate ListedFirst(entries: Entries, parts: seq<Bytes>, i: nat) {
    && i + 1 < |parts|
    && ListedAt(entries, parts, i).Some?
    && forall j: nat :: j + 1 < |parts| && ListedAt(entries, parts, j).Some? ==>
         ListedAt(entries, parts, i).value <= ListedAt(entries, parts, j).value
  }

  /** A token is listed exactly when it has a rank. */
  lemma ListedIffRanked(entries: Entries, token: Bytes)
    requires DistinctKeys(entries)
    ensures IndexOf(entries, token).Some? <==> token in RanksOf(entries)
    ensures IndexOf(entries, token).Some? ==> RanksOf(entries)[token] == entries[IndexOf(entries, token).value].1
  {
    if IndexOf(entries, token).Some? {
      RankOfEntry(entries, IndexOf(entries, token).value);
    }
    if token in RanksOf(entries) {
      var k := EntryOfRank(entries, token);
    }
  }

  /** In a reachable state a pair is scored by the rank of its token, and by the position of its merge. */
  lemma ListedScores(entries: Entries, merges: seq<Pair>, word: Bytes, n: nat, parts: seq<Bytes>, j: nat)
    requires Recovered(entries, merges)
    requires StateAfter(ByRank(RanksOf(entries)), None, word, n) == Some(parts) && j + 1 < |parts|
    ensures var t, u, k := ByRank(RanksOf(entries)), ByMerge(merges), ListedAt(entries, parts, j);
            && (ScoreAt(t, parts, j).Some? <==> k.Some?) && (ScoreAt(u, parts, j).Some? <==> k.Some?)
            && (k.Some? ==>
                  && |entries[k.value].0| != 1 && ScoreAt(t, parts, j) == Some(entries[k.value].1)
                  && ScoreAt(u, parts, j) == Some(MergePosition(entries, k.value)))
  {
    ListedIffRanked(entries, parts[j] + parts[j + 1]);
    if ScoreAt(ByRank(RanksOf(entries)), parts, j).Some? || ScoreAt(ByMerge(merges), parts, j).Some? {
      var k := CandidatesAgree(entries, merges, word, n, parts, j);
      assert ListedAt(entries, parts, j) == Some(k);
    }
  }

  /** The best pair by rank is the best pair of the list exactly when its token is listed first. */
  lemma BestInList(entries: Entries, merges: seq<Pair>, word: Bytes, n: nat, parts: seq<Bytes>, i: nat)
    requires Recovered(entries, merges)
    requires StateAfter(ByRank(RanksOf(entries)), None, word, n) == Some(parts)
             && IsBest(ByRank(RanksOf(entries)), parts, i)
    ensures IsBest(ByMerge(merges), parts, i) <==> ListedFirst(entries, parts, i)
  {
    hide Recovered, StateAfter, RanksOf, Score, IndexOf, MergePosition;
    var t, u := ByRank(RanksOf(entries)), ByMerge(merges);
    ListedScores(entries, merges, word, n, parts, i);
    forall j: nat | j + 1 < |parts|
      ensures ScoreAt(t, parts, j).Some? <==> ListedAt(entries, parts, j).Some?
      ensures ScoreAt(u, parts, j).Some? <==> ListedAt(entries, parts, j).Some?
      ensures ListedAt(entries, parts, j).Some? ==>
                var k, k' := ListedAt(entries, parts, i).value, ListedAt(entries, parts, j).value;
                && (ScoreAt(u, parts, i).value <= ScoreAt(u, parts, j).value <==> k <= k')
                && (ScoreAt(u, parts, i).value < ScoreAt(u, parts, j).value <==> k < k')
                && (k == k' ==> ScoreAt(t, parts, i) == ScoreAt(t, parts, j))
    {
      ListedScores(entries, merges, word, n, parts, j);
      if ListedAt(entries, parts, j).Some? {
        SameListing(entries, ListedAt(entries, parts, i).value, ListedAt(entries, parts, j).value);
      }
    }
    hide ScoreAt, ListedAt;
  }

  /** No part of a reachable state is empty. */
  lemma {:induction false} PartsAreNotEmpty(t: Table, cap: Option<int>, word: Bytes, n: nat)
    requires StateAfter(t, cap, word, n).Some?
    ensures forall i :: 0 <= i < |StateAfter(t, cap, word, n).value| ==> StateAfter(t, cap, word, n).value[i] != []
  {
    if n > 0 {
      PartsAreNotEmpty(t, cap, word, n - 1);
      var i := LastMerge(t, cap, StateAfter(t, cap, word, n - 1).value, StateAfter(t, cap, word, n).value);
    }
  }

  lemma DifferentMerges(parts: seq<Bytes>, i: nat, j: nat)
    requires i < j && j + 1 < |parts| && forall k :: 0 <= k < |parts| ==> parts[k] != []
    ensures MergeAt(parts, i) != MergeAt(parts, j)
  {
    assert MergeAt(parts, i)[i] == parts[i] + parts[i + 1] && MergeAt(parts, j)[i] == parts[i];
    assert |parts[i + 1]| > 0;
  }

  /**
   In every state that the rank-driven run reaches both tables take the same step exactly when the
   best pair by rank makes the token that is listed first, or there is no pair to merge.
   */
  lemma StepsAlikeIff(entries: Entries, merges: seq<Pair>, word: Bytes, n: nat, parts: seq<Bytes>)
    requires Recovered(entries, merges)
    requires StateAfter(ByRank(RanksOf(entries)), None, word, n) == Some(parts)
    ensures Step(ByRank(RanksOf(entries)), None, parts) == Step(ByMerge(merges), None, parts) <==>
            forall i: nat :: IsBest(ByRank(RanksOf(entries)), parts, i) ==> ListedFirst(entries, parts, i)
  {
    hide Recovered, RanksOf, ListedFirst, StateAfter;
    var t, u := ByRank(RanksOf(entries)), ByMerge(merges);
    forall i: nat | IsBest(t, parts, i)
      ensures IsBest(u, parts, i) <==> ListedFirst(entries, parts, i)
    {
      BestInList(entries, merges, word, n, parts, i);
    }
    hide IsBest;
    if i: nat :| IsBest(t, parts, i) {
      StepIs(t, None, parts, i);
      BestIsOne(t, parts, i);
      if IsBest(u, parts, i) {
        StepIs(u, None, parts, i);
      } else if Step(u, None, parts).Some? {
        var j := LastMerge(u, None, parts, Step(u, None, parts).value);
        PartsAreNotEmpty(t, None, word, n);
        if i < j {
          DifferentMerges(parts, i, j);
        } else if j < i {
          DifferentMerges(parts, j, i);
        }
      }
    } else {
      NoBestInList(entries, merges, word, n, parts);
    }
  }

  lemma BestIsOne(t: Table, parts: seq<Bytes>, i: nat)
    requires IsBest(t, parts, i)
    ensures forall j: nat :: IsBest(t, parts, j) ==> j == i
  {
  }

  lemma NoBestInList(entries: Entries, merges: seq<Pair>, word: Bytes, n: nat, parts: seq<Bytes>)
    requires Recovered(entries, merges)
    requires StateAfter(ByRank(RanksOf(entries)), None, word, n) == Some(parts)
    requires forall i: nat :: !IsBest(ByRank(RanksOf(entries)), parts, i)
    ensures Step(ByRank(RanksOf(entries)), None, parts) == None && Step(ByMerge(merges), None, parts) == None
  {
    hide Recovered, RanksOf, StateAfter, Score, IndexOf;
    var t, u := ByRank(RanksOf(entries)), ByMerge(merges);
    forall j: nat | j + 1 < |parts|
      ensures ScoreAt(u, parts, j).None?
    {
      ListedScores(entries, merges, word, n, parts, j);
      if ScoreAt(t, parts, j).Some? {
        SomeBest(t, parts, j);
      }
    }
  }

  /** Where some pair has a score there is a best pair. */
  lemma SomeBest(t: Table, parts: seq<Bytes>, j: nat)
    requires j + 1 < |parts| && ScoreAt(t, parts, j).Some?
    ensures exists i: nat :: IsBest(t, parts, i)
  {
    var best := BestUpTo(t, parts, |parts| - 1);
    assert IsBest(t, parts, best.value);
  }

  lemma {:induction false} BestUpTo(t: Table, parts: seq<Bytes>, n: nat) returns (best: Option<nat>)
    requires n < |parts|
    ensures best.None? ==> forall j: nat | j < n :: ScoreAt(t, parts, j).None?
    ensures best.Some? ==>
              && best.value < n && ScoreAt(t, parts, best.value).Some?
              && forall j: nat | j < n && ScoreAt(t, parts, j).Some? ::
                   && ScoreAt(t, parts, best.value).value <= ScoreAt(t, parts, j).value
                   && (j < best.value ==> ScoreAt(t, parts, best.value).value < ScoreAt(t, parts, j).value)
  {
    if n == 0 {
      best := None;
    } else {
      best := BestUpTo(t, parts, n - 1);
      var last := ScoreAt(t, parts, n - 1);
      if last.Some? && (best.None? || last.value < ScoreAt(t, parts, best.value).value) {
        best := Some(n - 1);
      }
    }
  }

  // ---------------------------------------------------------------- tokens in rank order

  lemma BestIsListedFirst(entries: Entries, merges: seq<Pair>, word: Bytes, n: nat, parts: seq<Bytes>, i: nat)
    requires Recovered(entries, merges) && InRankOrder(entries)
    requires StateAfter(ByRank(RanksOf(entries)), None, word, n) == Some(parts)
             && IsBest(ByRank(RanksOf(entries)), parts, i)
    ensures ListedFirst(entries, parts, i)
  {
    hide Recovered, StateAfter, RanksOf, Score, IndexOf, MergePosition;
    ListedScores(entries, merges, word, n, parts, i);
    forall j: nat | j + 1 < |parts| && ListedAt(entries, parts, j).Some?
      ensures ListedAt(entries, parts, i).value <= ListedAt(entries, parts, j).value
    {
      ListedScores(entries, merges, word, n, parts, j);
    }
  }

  lemma SameStep(entries: Entries, merges: seq<Pair>, word: Bytes, n: nat, parts: seq<Bytes>)
    requires Recovered(entries, merges) && InRankOrder(entries)
    requires StateAfter(ByRank(RanksOf(entries)), None, word, n) == Some(parts)
    ensures Step(ByRank(RanksOf(entries)), None, parts) == Step(ByMerge(merges), None, parts)
  {
    hide Recovered, RanksOf, ListedFirst, StateAfter, IsBest, InRankOrder;
    forall i: nat | IsBest(ByRank(RanksOf(entries)), parts, i)
      ensures ListedFirst(entries, parts, i)
    {
      BestIsListedFirst(entries, merges, word, n, parts, i);
    }
    StepsAlikeIff(entries, merges, word, n, parts);
  }

  /**
   The recovered list means the same as the rank table: on every word both runs are in the same
   state after every number of merges.
   */
  lemma {:induction false} SameStates(entries: Entries, merges: seq<Pair>, word: Bytes, n: nat)
    requires Recovered(entries, merges) && InRankOrder(entries)
    ensures StateAfter(ByRank(RanksOf(entries)), None, word, n) == StateAfter(ByMerge(merges), None, word, n)
  {
    hide Recovered, InRankOrder, RanksOf, Step;
    if n > 0 {
      SameStates(entries, merges, word, n - 1);
      var before := StateAfter(ByRank(RanksOf(entries)), None, word, n - 1);
      if before.Some? {
        SameStep(entries, merges, word, n - 1, before.value);
      }
    }
  }

  /** After every number of merges of every word both tables have the same state. */
  ghost predicate AlwaysSame(entries: Entries, merges: seq<Pair>) {
    forall word, n: nat :: StateAfter(ByRank(RanksOf(entries)), None, word, n)
        == StateAfter(ByMerge(merges), None, word, n)
  }

  /** In every state of every word the best pair by rank makes the token that is listed first. */
  ghost predicate AlwaysListedFirst(entries: Entries) {
    forall word, n: nat, i: nat ::
      var state := StateAfter(ByRank(RanksOf(entries)), None, word, n);
      state.Some? && IsBest(ByRank(RanksOf(entries)), state.value, i) ==> ListedFirst(entries, state.value, i)
  }

  lemma {:induction false} SameWhileListedFirst(entries: Entries, merges: seq<Pair>, word: Bytes, n: nat)
    requires Recovered(entries, merges) && AlwaysListedFirst(entries)
    ensures StateAfter(ByRank(RanksOf(entries)), None, word, n) == StateAfter(ByMerge(merges), None, word, n)
  {
    hide Recovered, RanksOf, ListedFirst, IsBest;
    if n > 0 {
      SameWhileListedFirst(entries, merges, word, n - 1);
      var before := StateAfter(ByRank(RanksOf(entries)), None, word, n - 1);
      if before.Some? {
        StepsAlikeIff(entries, merges, word, n - 1, before.value);
      }
    }
  }

  /** The runs of all words agree state by state exactly under that condition, whatever the order of the tokens. */
  lemma SameStatesIff(entries: Entries, merges: seq<Pair>)
    requires Recovered(entries, merges)
    ensures AlwaysSame(entries, merges) <==> AlwaysListedFirst(entries)
  {
    hide Recovered, RanksOf, ListedFirst, IsBest;
    if AlwaysListedFirst(entries) {
      forall word, n: nat
        ensures StateAfter(ByRank(RanksOf(entries)), None, word, n) == StateAfter(ByMerge(merges), None, word, n)
      {
        SameWhileListedFirst(entries, merges, word, n);
      }
    }
    if AlwaysSame(entries, merges) {
      forall word, n: nat, i: nat
        ensures var state := StateAfter(ByRank(RanksOf(entries)), None, word, n);
                state.Some? && IsBest(ByRank(RanksOf(entries)), state.value, i) ==> ListedFirst(entries, state.value, i)
      {
        var state := StateAfter(ByRank(RanksOf(entries)), None, word, n);
        if state.Some? {
          StepsAlikeIff(entries, merges, word, n, state.value);
          assert StateAfter(ByMerge(merges), None, word, n) == state;
          assert StateAfter(ByRank(RanksOf(entries)), None, word, n + 1)
              == StateAfter(ByMerge(merges), None, word, n + 1);
        }
      }
    }
  }

  /** And so they end with the same parts. */
  lemma SameEncoding(entries: Entries, merges: seq<Pair>, word: Bytes, parts: seq<Bytes>)
    requires Recovered(entries, merges) && InRankOrder(entries)
    ensures Encodes(ByRank(RanksOf(entries)), None, word, parts) <==> Encodes(ByMerge(merges), None, word, parts)
  {
    if |parts| <= |word| {
      var n := |word| - |parts|;
      SameStates(entries, merges, word, n);
      if StateAfter(ByMerge(merges), None, word, n) == Some(parts) {
        SameStep(entries, merges, word, n, parts);
      }
    }
  }

  /** Whatever encodes a word with the recovered list returns what the original encoder returns. */
  lemma ConversionKeepsEncodings(entries: Entries, merges: seq<Pair>, word: Bytes, parts: seq<Bytes>,
                                 tokens: seq<Bytes>)
    requires Recovered(entries, merges) && InRankOrder(entries)
    requires Encodes(ByRank(RanksOf(entries)), None, word, parts)
    requires Encodes(ByMerge(merges), None, word, tokens)
    ensures tokens == parts
  {
    SameEncoding(entries, merges, word, parts);
    EncodingIsUnique(ByMerge(merges), None, word, parts, tokens);
  }
}
