/**
 Dictionaries whose tokens have at most two bytes (convert_hf_to_gguf.py, _set_vocab_qwen): exactly
 when the recovered list gives the encodings of the rank table, although it may merge in another order.
 */
module BpeShortTokens {
  import opened Wrappers
  import opened BpeMerge
  import opened BpeRecovery
  import opened BpeOrder

  /** Which bytes are merged with the one behind them. */
  type Marks = set<nat>

  ghost predicate Apart(word: Bytes, marks: Marks) {
    forall k :: k in marks ==> k + 1 < |word| && k + 1 !in marks
  }

  /** A part begins at `k`. */
  predicate StartsAt(marks: Marks, k: nat) {
    k == 0 || k - 1 !in marks
  }

  /** The parts from position `from` on. */
  function Build(word: Bytes, marks: Marks, from: nat): seq<Bytes>
    requires from <= |word|
    decreases |word| - from
  {
    if from == |word| then []
    else if from in marks && from + 2 <= |word| then [[word[from], word[from + 1]]] + Build(word, marks, from + 2)
    else [[word[from]]] + Build(word, marks, from + 1)
  }

  /** Where part `a` begins. */
  lemma {:induction false} Offset(word: Bytes, marks: Marks, from: nat, a: nat) returns (k: nat)
    requires from <= |word| && Apart(word, marks) && StartsAt(marks, from) && a <= |Build(word, marks, from)|
    ensures from <= k <= |word| && StartsAt(marks, k) && Build(word, marks, from)[a..] == Build(word, marks, k)
    decreases |word| - from
  {
    if a == 0 {
      k := from;
    } else {
      k := Offset(word, marks, if from in marks then from + 2 else from + 1, a - 1);
    }
  }

  /** Which part begins at `k`. */
  lemma {:induction false} PartAt(word: Bytes, marks: Marks, from: nat, k: nat) returns (a: nat)
    requires from <= k <= |word| && Apart(word, marks) && StartsAt(marks, from) && StartsAt(marks, k)
    ensures a <= |Build(word, marks, from)| && Build(word, marks, from)[a..] == Build(word, marks, k)
    ensures from < k ==> a > 0
    decreases |word| - from
  {
    if from == k {
      a := 0;
    } else {
      assert from in marks ==> k != from + 1;
      a := PartAt(word, marks, if from in marks then from + 2 else from + 1, k);
      a := a + 1;
    }
  }

  lemma {:induction false} BuildBehind(word: Bytes, marks: Marks, k: nat, from: nat)
    requires k < from <= |word|
    ensures Build(word, marks + {k}, from) == Build(word, marks, from)
    decreases |word| - from
  {
    if from < |word| {
      if from in marks && from + 2 <= |word| {
        BuildBehind(word, marks, k, from + 2);
      } else {
        BuildBehind(word, marks, k, from + 1);
      }
    }
  }

  /** Two single bytes: nothing is merged around position `k`. */
  ghost predicate Free(word: Bytes, marks: Marks, k: nat) {
    k + 1 < |word| && StartsAt(marks, k) && k !in marks && k + 1 !in marks
  }

  lemma FreeParts(word: Bytes, marks: Marks, k: nat)
    requires Free(word, marks, k)
    ensures Build(word, marks, k) == [[word[k]], [word[k + 1]]] + Build(word, marks, k + 2)
  {
    hide Build;
    SingleFirst(word, marks, k);
    SingleFirst(word, marks, k + 1);
    TwoInFront([word[k]], [word[k + 1]], Build(word, marks, k + 2));
  }

  lemma TwoInFront<T>(a: T, b: T, rest: seq<T>)
    ensures [a] + ([b] + rest) == [a, b] + rest
  {
  }

  lemma SingleFirst(word: Bytes, marks: Marks, k: nat)
    requires k < |word| && k !in marks
    ensures Build(word, marks, k) == [[word[k]]] + Build(word, marks, k + 1)
  {
  }

  lemma MergeBehind(first: Bytes, rest: seq<Bytes>, a: nat)
    requires a + 1 < |rest|
    ensures MergeAt([first] + rest, a + 1) == [first] + MergeAt(rest, a)
  {
  }

  lemma MergeFront(x: Byte, y: Byte, rest: seq<Bytes>)
    ensures MergeAt([[x], [y]] + rest, 0) == [[x, y]] + rest
  {
    var parts := [[x], [y]] + rest;
    assert parts[0] + parts[1] == [x, y] && parts[2..] == rest;
  }

  lemma ShorterBehind(word: Bytes, marks: Marks, from: nat, k: nat)
    requires from < k <= |word| && Apart(word, marks) && StartsAt(marks, from) && StartsAt(marks, k)
    ensures |Build(word, marks, k)| < |Build(word, marks, from)|
  {
    var a := PartAt(word, marks, from, k);
    assert |Build(word, marks, from)[a..]| == |Build(word, marks, from)| - a;
  }

  lemma MergeHere(word: Bytes, marks: Marks, k: nat)
    requires Apart(word, marks) && Free(word, marks, k)
    ensures |Build(word, marks, k)| > 1 && MergeAt(Build(word, marks, k), 0) == Build(word, marks + {k}, k)
  {
    hide MergeAt;
    FreeParts(word, marks, k);
    BuildBehind(word, marks, k, k + 2);
    MergeFront(word[k], word[k + 1], Build(word, marks, k + 2));
  }

  /** The first part and where the next one begins. */
  lemma BuildFirst(word: Bytes, marks: Marks, from: nat, k: nat) returns (first: Bytes, next: nat)
    requires Apart(word, marks) && StartsAt(marks, from) && from < k && Free(word, marks, k)
    ensures from < next <= k && StartsAt(marks, next)
    ensures Build(word, marks, from) == [first] + Build(word, marks, next)
    ensures Build(word, marks + {k}, from) == [first] + Build(word, marks + {k}, next)
  {
    assert from in marks ==> k != from + 1;
    first := if from in marks then [word[from], word[from + 1]] else [word[from]];
    next := if from in marks then from + 2 else from + 1;
  }

  /** Merging two single bytes marks the first of them. */
  lemma {:induction false} MergeMarks(word: Bytes, marks: Marks, from: nat, k: nat, a: nat)
    requires Apart(word, marks) && StartsAt(marks, from) && from <= k && Free(word, marks, k)
    requires a <= |Build(word, marks, from)| && Build(word, marks, from)[a..] == Build(word, marks, k)
    ensures a + 1 < |Build(word, marks, from)|
    ensures MergeAt(Build(word, marks, from), a) == Build(word, marks + {k}, from)
    decreases |word| - from
  {
    hide Build, MergeAt, Apart;
    var parts := Build(word, marks, from);
    assert |parts[a..]| == |parts| - a;
    if from == k {
      MergeHere(word, marks, k);
    } else {
      var first, next := BuildFirst(word, marks, from, k);
      var rest := Build(word, marks, next);
      ShorterBehind(word, marks, from, k);
      assert parts[a..] == rest[a - 1..];
      MergeMarks(word, marks, next, k, a - 1);
      MergeBehind(first, rest, a - 1);
    }
  }

  // ---------------------------------------------------------------- what a run marks

  /** Only single bytes are merged. */
  ghost predicate Short(t: Table) {
    forall p :: Score(t, p).Some? && p.0 != [] && p.1 != [] ==> |p.0| == 1 && |p.1| == 1
  }

  function ScoreOf(t: Table, word: Bytes, k: nat): Option<int>
    requires k + 1 < |word|
  {
    Score(t, ([word[k]], [word[k + 1]]))
  }

  ghost predicate Candidate(t: Table, word: Bytes, k: nat) {
    k + 1 < |word| && ScoreOf(t, word, k).Some?
  }

  /** Of two candidates that share a byte, `i` is merged before `j`. */
  ghost predicate Precedes(t: Table, word: Bytes, i: nat, j: nat) {
    && (i == j + 1 || j == i + 1) && Candidate(t, word, i) && Candidate(t, word, j)
    && (ScoreOf(t, word, i).value < ScoreOf(t, word, j).value
        || (ScoreOf(t, word, i) == ScoreOf(t, word, j) && i < j))
  }

  ghost predicate Blocked(t: Table, word: Bytes, marks: Marks, i: nat) {
    exists j: nat :: j in marks && Precedes(t, word, j, i)
  }

  /** Whatever is not free any more has lost to one that precedes it. */
  ghost predicate Explained(t: Table, word: Bytes, marks: Marks) {
    && Apart(word, marks)
    && (forall k :: k in marks ==> Candidate(t, word, k))
    && (forall k: nat :: Candidate(t, word, k) && k !in marks && !Free(word, marks, k) ==> Blocked(t, word, marks, k))
  }

  /** A scored pair in a state is two single bytes. */
  lemma PairIsFree(t: Table, word: Bytes, marks: Marks, i: nat) returns (k: nat)
    requires Short(t) && Apart(word, marks)
    requires var parts := Build(word, marks, 0); i + 1 < |parts| && ScoreAt(t, parts, i).Some?
    ensures Free(word, marks, k) && Build(word, marks, 0)[i..] == Build(word, marks, k)
    ensures ScoreAt(t, Build(word, marks, 0), i) == ScoreOf(t, word, k)
  {
    var parts := Build(word, marks, 0);
    k := Offset(word, marks, 0, i);
    var rest := Build(word, marks, k);
    assert parts[i..][0] == parts[i] && parts[i..][1] == parts[i + 1];
    var next := if k in marks then k + 2 else k + 1;
    assert rest[1..] == Build(word, marks, next);
    assert rest[1] == Build(word, marks, next)[0];
  }

  /** A free candidate is a scored pair of the state. */
  lemma FreeIsPair(t: Table, word: Bytes, marks: Marks, k: nat) returns (i: nat)
    requires Apart(word, marks) && Free(word, marks, k)
    ensures var parts := Build(word, marks, 0);
            i + 1 < |parts| && parts[i..] == Build(word, marks, k) && ScoreAt(t, parts, i) == ScoreOf(t, word, k)
  {
    i := PartAt(word, marks, 0, k);
    var parts := Build(word, marks, 0);
    FreeParts(word, marks, k);
    assert |parts[i..]| == |parts| - i;
    assert parts[i..][0] == parts[i] && parts[i..][1] == parts[i + 1];
  }

  /** The pair that is merged next precedes every free candidate that it shares a byte with. */
  lemma NextPrecedes(t: Table, word: Bytes, marks: Marks, i: nat, k: nat, j: nat)
    requires Apart(word, marks) && IsNext(t, None, Build(word, marks, 0), i)
    requires Free(word, marks, k) && Build(word, marks, 0)[i..] == Build(word, marks, k)
    requires ScoreAt(t, Build(word, marks, 0), i) == ScoreOf(t, word, k)
    requires Free(word, marks, j) && Candidate(t, word, j) && (j == k + 1 || k == j + 1)
    ensures Precedes(t, word, k, j)
  {
    hide Build, Apart, Free, Score;
    var parts := Build(word, marks, 0);
    FreeCandidate(t, word, marks, k);
    var m := FreeIsPair(t, word, marks, j);
    if j < k {
      EarlierPart(word, marks, m, j, i, k);
    }
    hide ScoreAt, ScoreOf;
  }

  lemma EarlierPart(word: Bytes, marks: Marks, m: nat, j: nat, i: nat, k: nat)
    requires Apart(word, marks) && Free(word, marks, j) && Free(word, marks, k) && j < k
    requires var parts := Build(word, marks, 0);
             && m <= |parts| && parts[m..] == Build(word, marks, j)
             && i <= |parts| && parts[i..] == Build(word, marks, k)
    ensures m < i
  {
    hide Build;
    var parts := Build(word, marks, 0);
    ShorterBehind(word, marks, j, k);
    assert |parts[i..]| == |parts| - i && |parts[m..]| == |parts| - m;
  }

  /** Marking a free candidate that precedes its free neighbours leaves everything explained. */
  lemma StillExplained(t: Table, word: Bytes, marks: Marks, k: nat)
    requires Explained(t, word, marks) && Free(word, marks, k) && Candidate(t, word, k)
    requires forall j: nat :: Free(word, marks, j) && Candidate(t, word, j) && (j == k + 1 || k == j + 1) ==>
               Precedes(t, word, k, j)
    ensures Explained(t, word, marks + {k})
  {
    hide Candidate, Precedes;
    var more := marks + {k};
    forall j: nat | Candidate(t, word, j) && j !in more && !Free(word, more, j)
      ensures Blocked(t, word, more, j)
    {
      if Free(word, marks, j) {
        assert k in more;
      } else {
        var m: nat :| m in marks && Precedes(t, word, m, j);
        assert m in more;
      }
    }
  }

  lemma StepExplained(t: Table, word: Bytes, marks: Marks, i: nat) returns (k: nat)
    requires Short(t) && Explained(t, word, marks) && IsNext(t, None, Build(word, marks, 0), i)
    ensures Explained(t, word, marks + {k}) && Build(word, marks + {k}, 0) == MergeAt(Build(word, marks, 0), i)
  {
    hide Build, Free, Precedes, MergeAt, ScoreAt, ScoreOf, Short, Apart;
    k := PairIsFree(t, word, marks, i);
    FreeCandidate(t, word, marks, k);
    MergeMarks(word, marks, 0, k, i);
    forall j: nat | Free(word, marks, j) && Candidate(t, word, j) && (j == k + 1 || k == j + 1)
      ensures Precedes(t, word, k, j)
    {
      NextPrecedes(t, word, marks, i, k, j);
    }
    StillExplained(t, word, marks, k);
  }

  lemma FreeCandidate(t: Table, word: Bytes, marks: Marks, k: nat)
    requires Free(word, marks, k)
    ensures k + 1 < |word| && (ScoreOf(t, word, k).Some? ==> Candidate(t, word, k))
  {
  }

  lemma {:induction false} BuildSingles(word: Bytes, from: nat)
    requires from <= |word|
    ensures Build(word, {}, from) == Singles(word)[from..]
    decreases |word| - from
  {
    if from < |word| {
      BuildSingles(word, from + 1);
    }
  }

  /** Every state of a run is explained by its marks. */
  lemma {:induction false} StateExplained(t: Table, word: Bytes, n: nat) returns (marks: Marks)
    requires Short(t) && StateAfter(t, None, word, n).Some?
    ensures Explained(t, word, marks) && Build(word, marks, 0) == StateAfter(t, None, word, n).value
  {
    hide Explained, IsNext, Short, Step, MergeAt;
    if n == 0 {
      marks := {};
      BuildSingles(word, 0);
      NothingMarked(t, word);
    } else {
      marks := StateExplained(t, word, n - 1);
      var before := StateAfter(t, None, word, n - 1).value;
      var i := LastMerge(t, None, before, StateAfter(t, None, word, n).value);
      var k := StepExplained(t, word, marks, i);
      marks := marks + {k};
    }
  }

  lemma NothingMarked(t: Table, word: Bytes)
    ensures Explained(t, word, {})
  {
  }

  // ---------------------------------------------------------------- where a run ends

  /** A candidate is merged exactly when none that precedes it is. */
  ghost predicate Settled(t: Table, word: Bytes, marks: Marks) {
    && Apart(word, marks)
    && forall k: nat :: k in marks <==> Candidate(t, word, k) && !Blocked(t, word, marks, k)
  }

  lemma EncodingSettled(t: Table, word: Bytes, parts: seq<Bytes>) returns (marks: Marks)
    requires Short(t) && Encodes(t, None, word, parts)
    ensures Settled(t, word, marks) && parts == Build(word, marks, 0)
  {
    hide StateAfter;
    marks := StateExplained(t, word, |word| - |parts|);
    forall k: nat
      ensures k in marks <==> Candidate(t, word, k) && !Blocked(t, word, marks, k)
    {
      if Candidate(t, word, k) && k !in marks && Free(word, marks, k) {
        var i := FreeIsPair(t, word, marks, k);
        SomeBest(t, parts, i);
        var j: nat :| IsBest(t, parts, j);
        StepIs(t, None, parts, j);
      }
    }
  }

  /** Both tables have the same candidates, and order those that share a byte in the same way. */
  ghost predicate OrderAlike(t: Table, u: Table, word: Bytes) {
    && (forall k: nat :: Candidate(t, word, k) <==> Candidate(u, word, k))
    && (forall i: nat, j: nat :: Precedes(t, word, i, j) <==> Precedes(u, word, i, j))
  }

  lemma PrecedesOneWay(t: Table, word: Bytes, i: nat, j: nat)
    requires Precedes(t, word, i, j)
    ensures !Precedes(t, word, j, i) && (i == j + 1 || j == i + 1) && i + 1 < |word|
  {
  }

  /** A difference at `k` is due to one at a neighbour that precedes it. */
  lemma DifferenceBefore(t: Table, u: Table, word: Bytes, m: Marks, n: Marks, k: nat) returns (j: nat)
    requires OrderAlike(t, u, word) && Settled(t, word, m) && Settled(u, word, n) && k in m && k !in n
    ensures j in n && j !in m && Precedes(t, word, j, k) && !Precedes(u, word, k, j)
    ensures (j == k + 1 || k == j + 1) && j + 1 < |word| && OrderAlike(u, t, word)
  {
    hide Precedes, Candidate;
    j :| j in n && Precedes(u, word, j, k);
    PrecedesOneWay(u, word, j, k);
    assert Precedes(t, word, j, k);
  }

  /** Differences that go on to the left come to an end. */
  lemma {:induction false} NoDifferenceLeft(t: Table, u: Table, word: Bytes, m: Marks, n: Marks, k: nat)
    requires OrderAlike(t, u, word) && Settled(t, word, m) && Settled(u, word, n) && k in m && k !in n
    requires !Precedes(t, word, k + 1, k)
    ensures false
    decreases k
  {
    hide *;
    var j := DifferenceBefore(t, u, word, m, n, k);
    NoDifferenceLeft(u, t, word, n, m, j);
  }

  lemma {:induction false} NoDifferenceRight(t: Table, u: Table, word: Bytes, m: Marks, n: Marks, k: nat)
    requires OrderAlike(t, u, word) && Settled(t, word, m) && Settled(u, word, n) && k in m && k !in n
    requires k == 0 || !Precedes(t, word, k - 1, k)
    ensures false
    decreases |word| - k
  {
    hide *;
    var j := DifferenceBefore(t, u, word, m, n, k);
    NoDifferenceRight(u, t, word, n, m, j);
  }

  lemma NoDifference(t: Table, u: Table, word: Bytes, m: Marks, n: Marks)
    requires OrderAlike(t, u, word) && Settled(t, word, m) && Settled(u, word, n)
    ensures forall k :: k in m ==> k in n
  {
    hide *;
    forall k | k in m
      ensures k in n
    {
      if k !in n {
        var j := DifferenceBefore(t, u, word, m, n, k);
        if j < k {
          NoDifferenceLeft(u, t, word, n, m, j);
        } else {
          NoDifferenceRight(u, t, word, n, m, j);
        }
      }
    }
  }

  /** Tables that order overlapping candidates alike have the same encodings, whatever else they order otherwise. */
  lemma AlikeEncodes(t: Table, u: Table, word: Bytes, parts: seq<Bytes>)
    requires Short(t) && Short(u) && OrderAlike(t, u, word) && Encodes(t, None, word, parts)
    ensures Encodes(u, None, word, parts)
  {
    hide Encodes, Short, OrderAlike, Settled;
    var m := EncodingSettled(t, word, parts);
    var others := EncodingExists(u, word, 0);
    var n := EncodingSettled(u, word, others);
    AlikeIsSymmetric(t, u, word);
    NoDifference(t, u, word, m, n);
    NoDifference(u, t, word, n, m);
    assert m == n;
  }

  lemma AlikeIsSymmetric(t: Table, u: Table, word: Bytes)
    requires OrderAlike(t, u, word)
    ensures OrderAlike(u, t, word)
  {
  }

  lemma {:induction false} EncodingExists(t: Table, word: Bytes, n: nat) returns (parts: seq<Bytes>)
    requires StateAfter(t, None, word, n).Some?
    ensures Encodes(t, None, word, parts)
    decreases |StateAfter(t, None, word, n).value|
  {
    parts := StateAfter(t, None, word, n).value;
    if Step(t, None, parts).Some? {
      parts := EncodingExists(t, word, n + 1);
    }
  }

  // ---------------------------------------------------------------- the recovered list

  ghost predicate AtMostTwoBytes(entries: Entries) {
    forall k :: 0 <= k < |entries| ==> |entries[k].0| <= 2
  }

  /** Tokens that overlap in a byte are listed by rank; of equal ranks the one that comes first in a word goes first. */
  ghost predicate OverlapsInOrder(entries: Entries) {
    forall p: nat, q: nat, x, y, z ::
      p < |entries| && q < |entries| && entries[p].0 == [x, y] && entries[q].0 == [y, z] ==>
        (entries[p].1 <= entries[q].1 <==> p <= q)
  }

  ghost predicate SameEncodings(entries: Entries, merges: seq<Pair>) {
    forall word, parts ::
      Encodes(ByRank(RanksOf(entries)), None, word, parts) <==> Encodes(ByMerge(merges), None, word, parts)
  }

  lemma TablesAreShort(entries: Entries, merges: seq<Pair>)
    requires Recovered(entries, merges) && AtMostTwoBytes(entries)
    ensures Short(ByRank(RanksOf(entries))) && Short(ByMerge(merges))
  {
    var ranks := RanksOf(entries);
    forall p | Score(ByRank(ranks), p).Some? && p.0 != [] && p.1 != []
      ensures |p.0| == 1 && |p.1| == 1
    {
      var k := EntryOfRank(entries, p.0 + p.1);
    }
    forall p | Score(ByMerge(merges), p).Some? && p.0 != [] && p.1 != []
      ensures |p.0| == 1 && |p.1| == 1
    {
      var k := EntryOfMerge(ranks, entries, merges, PositionOf(merges, p).value);
      MergeOfEntry(ranks, entries, merges, k);
      PairBytes(ranks, Some(entries[k].1), entries[k].0, p);
    }
  }

  /** The scores of two neighbouring bytes in both tables. */
  lemma ScoresOf(entries: Entries, merges: seq<Pair>, word: Bytes, k: nat)
    requires Recovered(entries, merges) && k + 1 < |word|
    ensures var t, u, p := ByRank(RanksOf(entries)), ByMerge(merges), IndexOf(entries, [word[k], word[k + 1]]);
            && (ScoreOf(t, word, k).Some? <==> p.Some?) && (ScoreOf(u, word, k).Some? <==> p.Some?)
            && (p.Some? ==>
                  && ScoreOf(t, word, k) == Some(entries[p.value].1)
                  && ScoreOf(u, word, k) == Some(MergePosition(entries, p.value)))
  {
    hide Recovered, RanksOf, Score, IndexOf, MergePosition;
    var s := Singles(word);
    assert s[k] + s[k + 1] == [word[k], word[k + 1]];
    ListedScores(entries, merges, word, 0, s, k);
  }

  /** Two candidates that share a byte, in both tables. */
  lemma NeighboursAlike(entries: Entries, merges: seq<Pair>, word: Bytes, k: nat)
    requires Recovered(entries, merges) && OverlapsInOrder(entries) && k + 2 < |word|
    ensures var t, u := ByRank(RanksOf(entries)), ByMerge(merges);
            && (Precedes(t, word, k, k + 1) <==> Precedes(u, word, k, k + 1))
            && (Precedes(t, word, k + 1, k) <==> Precedes(u, word, k + 1, k))
  {
    hide Recovered, RanksOf, Score, IndexOf, MergePosition, ScoreOf;
    ScoresOf(entries, merges, word, k);
    ScoresOf(entries, merges, word, k + 1);
    var p, q := IndexOf(entries, [word[k], word[k + 1]]), IndexOf(entries, [word[k + 1], word[k + 2]]);
    if p.Some? && q.Some? {
      SameListing(entries, p.value, q.value);
    }
  }

  lemma TablesAlike(entries: Entries, merges: seq<Pair>, word: Bytes)
    requires Recovered(entries, merges) && OverlapsInOrder(entries)
    ensures OrderAlike(ByRank(RanksOf(entries)), ByMerge(merges), word)
  {
    hide Recovered, RanksOf, OverlapsInOrder, ScoreOf;
    var t, u := ByRank(RanksOf(entries)), ByMerge(merges);
    forall k: nat
      ensures Candidate(t, word, k) <==> Candidate(u, word, k)
    {
      if k + 1 < |word| {
        ScoresOf(entries, merges, word, k);
      }
    }
    forall i: nat, j: nat
      ensures Precedes(t, word, i, j) <==> Precedes(u, word, i, j)
    {
      if j == i + 1 && j + 1 < |word| {
        NeighboursAlike(entries, merges, word, i);
      } else if i == j + 1 && i + 1 < |word| {
        NeighboursAlike(entries, merges, word, j);
      }
    }
  }

  /**
   For every recovered dictionary of such tokens: all words have the same encodings exactly when the
   tokens that overlap are listed by rank. Tokens that do not overlap may be in any order.
   */
  lemma SameEncodingsIff(entries: Entries, merges: seq<Pair>)
    requires Recovered(entries, merges) && AtMostTwoBytes(entries)
    ensures SameEncodings(entries, merges) <==> OverlapsInOrder(entries)
  {
    hide Recovered, RanksOf, Encodes, Short, OrderAlike;
    var t, u := ByRank(RanksOf(entries)), ByMerge(merges);
    if OverlapsInOrder(entries) {
      TablesAreShort(entries, merges);
      forall word, parts
        ensures Encodes(t, None, word, parts) <==> Encodes(u, None, word, parts)
      {
        TablesAlike(entries, merges, word);
        AlikeIsSymmetric(t, u, word);
        if Encodes(t, None, word, parts) {
          AlikeEncodes(t, u, word, parts);
        } else if Encodes(u, None, word, parts) {
          AlikeEncodes(u, t, word, parts);
        }
      }
    }
    if SameEncodings(entries, merges) {
      forall p: nat, q: nat, x, y, z | p < |entries| && q < |entries| && entries[p].0 == [x, y]
          && entries[q].0 == [y, z]
        ensures entries[p].1 <= entries[q].1 <==> p <= q
      {
        OrderMatters(entries, merges, x, y, z, p, q);
        EncodingIsUnique(u, None, [x, y, z], Merged(x, y, z, entries[p].1 <= entries[q].1), Merged(x, y, z, p <= q));
        hide Merged;
      }
    }
  }

  /**
   So encodings may agree although the runs do not: two tokens that share no byte end to start, listed
   against their ranks, give every word the same encoding, while the runs of some word differ.
   */
  lemma EncodingsAgreeStatesDiffer(a: Byte, b: Byte, c: Byte, d: Byte, low: int, high: int)
    requires low < high && [a, b] != [c, d] && b != c && d != a
    ensures var entries: Entries, merges: seq<Pair> := [([c, d], high), ([a, b], low)], [([c], [d]), ([a], [b])];
            Recovered(entries, merges) && SameEncodings(entries, merges) && !AlwaysSame(entries, merges)
  {
    hide RanksOf, Recovered, SameEncodings, AlwaysSame, Encodes;
    var entries: Entries, merges: seq<Pair> := [([c, d], high), ([a, b], low)], [([c], [d]), ([a], [b])];
    TwoAreRecovered(a, b, c, d, low, high);
    SameEncodingsIff(entries, merges);
    assert AtMostTwoBytes(entries);
    assert OverlapsInOrder(entries) by {
      OnlyThemselves(a, b, c, d, low, high);
    }
    SameStatesIff(entries, merges);
    SecondIsFirst(entries, merges, a, b, c, d, low, high);
  }

  lemma OnlyThemselves(a: Byte, b: Byte, c: Byte, d: Byte, low: int, high: int)
    requires b != c && d != a
    ensures OverlapsInOrder([([c, d], high), ([a, b], low)])
  {
    var entries: Entries := [([c, d], high), ([a, b], low)];
    forall p: nat, q: nat, x, y, z | p < |entries| && q < |entries| && entries[p].0 == [x, y] && entries[q].0 == [y, z]
      ensures p == q
    {
      assert entries[p].0[1] == y && entries[q].0[0] == y;
    }
  }

  /** The best pair by rank of the bytes `a`, `b`, `c`, `d` is the one that is listed last. */
  lemma SecondIsFirst(entries: Entries, merges: seq<Pair>, a: Byte, b: Byte, c: Byte, d: Byte, low: int, high: int)
    requires low < high && [a, b] != [c, d] && b != c && d != a
    requires entries == [([c, d], high), ([a, b], low)] && Recovered(entries, merges)
    ensures !AlwaysListedFirst(entries)
  {
    hide RanksOf, Recovered, Score, IsMergeList;
    var word := [a, b, c, d];
    var s := Singles(word);
    assert s == [[a], [b], [c], [d]];
    assert s[0] + s[1] == [a, b] && s[1] + s[2] == [b, c] && s[2] + s[3] == [c, d];
    assert [b, c][0] == b && [b, c][1] == c && [c, d][0] == c && [a, b][1] == b;
    IsListedAt(entries, 0);
    IsListedAt(entries, 1);
    forall j: nat | j + 1 < |s|
      ensures ScoreAt(ByRank(RanksOf(entries)), s, j) ==
              if j == 0 then Some(low) else if j == 2 then Some(high) else None
    {
      ListedScores(entries, merges, word, 0, s, j);
    }
    assert StateAfter(ByRank(RanksOf(entries)), None, word, 0) == Some(s);
    assert IsBest(ByRank(RanksOf(entries)), s, 0);
    assert ListedAt(entries, s, 0) == Some(1) && ListedAt(entries, s, 2) == Some(0);
    assert !ListedFirst(entries, s, 0);
  }
}
