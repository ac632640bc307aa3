/**
 Byte-pair encoding driven by a score table (convert_hf_to_gguf.py, QwenModel.bpe).

 A table scores adjacent parts either by the rank of their concatenation (the tokenizer being
 converted) or by the position of the pair in a merge list (the converted vocabulary).
 */
module BpeMerge {
  import opened Wrappers

  newtype Byte = x: int | 0 <= x < 256
  type Bytes = seq<Byte>
  type Pair = (Bytes, Bytes)

  datatype Table = ByRank(ranks: map<Bytes, int>) | ByMerge(merges: seq<Pair>)

  /** The position of the first occurrence of `p`. */
  function PositionOf(merges: seq<Pair>, p: Pair): (r: Option<int>)
    ensures r.Some? ==> 0 <= r.value < |merges| && merges[r.value] == p && p !in merges[..r.value]
    ensures r.None? ==> p !in merges
  {
    if merges == [] then None
    else if merges[0] == p then Some(0)
    else
      match PositionOf(merges[1..], p)
      case None => None
      case Some(i) => Some(i + 1)
  }

  function Score(t: Table, p: Pair): Option<int> {
    match t
    case ByRank(ranks) => if p.0 + p.1 in ranks then Some(ranks[p.0 + p.1]) else None
    case ByMerge(merges) => PositionOf(merges, p)
  }

  /** The score of the pair of parts that starts at `i`. */
  function ScoreAt(t: Table, parts: seq<Bytes>, i: nat): Option<int>
    requires i + 1 < |parts|
  {
    Score(t, (parts[i], parts[i + 1]))
  }

  /** Pair `i` is the leftmost among the pairs of lowest score. */
  ghost predicate IsBest(t: Table, parts: seq<Bytes>, i: nat) {
    && i + 1 < |parts|
    && ScoreAt(t, parts, i).Some?
    && (forall j: nat | j + 1 < |parts| && ScoreAt(t, parts, j).Some? ::
          && ScoreAt(t, parts, i).value <= ScoreAt(t, parts, j).value
          && (j < i ==> ScoreAt(t, parts, i).value < ScoreAt(t, parts, j).value))
  }

  /** Pair `i` is the one to merge next: best, and below the cap when there is one. */
  ghost predicate IsNext(t: Table, cap: Option<int>, parts: seq<Bytes>, i: nat) {
    IsBest(t, parts, i) && (cap.Some? ==> ScoreAt(t, parts, i).value < cap.value)
  }

  function MergeAt(parts: seq<Bytes>, i: nat): (r: seq<Bytes>)
    requires i + 1 < |parts|
    ensures |r| == |parts| - 1
  {
    Splice(parts, i, parts[i] + parts[i + 1])
  }

  /** Puts `x` in the place of the elements `i` and `i + 1`. */
  function Splice<T>(s: seq<T>, i: nat, x: T): (r: seq<T>)
    requires i + 1 < |s|
    ensures |r| == |s| - 1
  {
    s[..i] + [x] + s[i + 2..]
  }

  lemma SpliceAt<T>(s: seq<T>, i: nat, x: T, k: nat)
    requires i + 1 < |s| && k < |s| - 1
    ensures Splice(s, i, x)[k] == if k < i then s[k] else if k == i then x else s[k + 1]
  {
  }

  lemma SpliceWindow<T>(s: seq<T>, i: nat, x: T, l: nat, h: nat)
    requires i + 1 < |s| && l <= h < |s|
    ensures Splice(s, i, x)[l..h] ==
            if i < l then s[l + 1..h + 1] else if h <= i then s[l..h] else Splice(s[l..h + 1], i - l, x)
  {
    hide Splice;
    var a := Splice(s, i, x)[l..h];
    var b := if i < l then s[l + 1..h + 1] else if h <= i then s[l..h] else Splice(s[l..h + 1], i - l, x);
    assert |a| == |b|;
    forall k: nat | k < |a|
      ensures a[k] == b[k]
    {
      SpliceAt(s, i, x, l + k);
      if l <= i < h {
        SpliceAt(s[l..h + 1], i - l, x, k);
      }
    }
  }

  function Singles(token: Bytes): (r: seq<Bytes>)
    ensures |r| == |token|
    ensures forall i :: 0 <= i < |r| ==> r[i] == [token[i]]
  {
    seq(|token|, i requires 0 <= i < |token| => [token[i]])
  }

  function Flat(parts: seq<Bytes>): Bytes {
    if parts == [] then [] else parts[0] + Flat(parts[1..])
  }

  /** One merge, or None when nothing may be merged. */
  ghost function Step(t: Table, cap: Option<int>, parts: seq<Bytes>): (r: Option<seq<Bytes>>)
    ensures r.Some? ==> |r.value| + 1 == |parts|
  {
    if i: nat :| IsNext(t, cap, parts, i) then Some(MergeAt(parts, i)) else None
  }

  /** The parts after exactly `n` merges of `token`, when there are that many. */
  ghost function StateAfter(t: Table, cap: Option<int>, token: Bytes, n: nat): (r: Option<seq<Bytes>>)
    ensures r.Some? ==> |r.value| + n == |token|
  {
    if n == 0 then Some(Singles(token))
    else
      match StateAfter(t, cap, token, n - 1)
      case None => None
      case Some(parts) => Step(t, cap, parts)
  }

  /** `parts` is where the encoding of `token` stops. */
  ghost predicate Encodes(t: Table, cap: Option<int>, token: Bytes, parts: seq<Bytes>) {
    && |parts| <= |token|
    && StateAfter(t, cap, token, |token| - |parts|) == Some(parts)
    && Step(t, cap, parts) == None
  }

  // ---------------------------------------------------------------- steps are deterministic

  lemma StepIs(t: Table, cap: Option<int>, parts: seq<Bytes>, i: nat)
    requires IsNext(t, cap, parts, i)
    ensures Step(t, cap, parts) == Some(MergeAt(parts, i))
  {
    forall j: nat | IsNext(t, cap, parts, j)
      ensures j == i
    {
      assert ScoreAt(t, parts, i).Some? && ScoreAt(t, parts, j).Some?;
    }
  }

  lemma {:induction false} StateStops(t: Table, cap: Option<int>, token: Bytes, m: nat, n: nat)
    requires m < n
    requires StateAfter(t, cap, token, m).Some? && Step(t, cap, StateAfter(t, cap, token, m).value) == None
    ensures StateAfter(t, cap, token, n) == None
    decreases n
  {
    if m + 1 < n {
      StateStops(t, cap, token, m, n - 1);
    }
  }

  /** A token has one encoding. */
  lemma {:induction false} EncodingIsUnique(t: Table, cap: Option<int>, token: Bytes, p: seq<Bytes>, q: seq<Bytes>)
    requires Encodes(t, cap, token, p) && Encodes(t, cap, token, q)
    ensures p == q
  {
    var m, n := |token| - |p|, |token| - |q|;
    if m < n {
      StateStops(t, cap, token, m, n);
    } else if n < m {
      StateStops(t, cap, token, n, m);
    }
  }

  // ---------------------------------------------------------------- concatenations

  lemma {:induction false} FlatConcat(p: seq<Bytes>, q: seq<Bytes>)
    ensures Flat(p + q) == Flat(p) + Flat(q)
  {
    if p == [] {
      assert p + q == q;
    } else {
      assert (p + q)[1..] == p[1..] + q;
      FlatConcat(p[1..], q);
    }
  }

  lemma {:induction false} FlatSingles(token: Bytes)
    ensures Flat(Singles(token)) == token
  {
    if token != [] {
      assert Singles(token)[1..] == Singles(token[1..]);
      FlatSingles(token[1..]);
    }
  }

  lemma FlatOne(a: Bytes)
    ensures Flat([a]) == a
  {
    assert [a][1..] == [];
  }

  lemma FlatPair(a: Bytes, b: Bytes)
    ensures Flat([a, b]) == a + b
  {
    assert [a, b][1..] == [b];
    FlatOne(b);
  }

  lemma FlatMiddle(l: seq<Bytes>, m: seq<Bytes>, m': seq<Bytes>, r: seq<Bytes>)
    requires Flat(m) == Flat(m')
    ensures Flat(l + m + r) == Flat(l + m' + r)
  {
    FlatConcat(l + m, r);
    FlatConcat(l + m', r);
    FlatConcat(l, m);
    FlatConcat(l, m');
  }

  lemma FlatMerge(parts: seq<Bytes>, i: nat)
    requires i + 1 < |parts|
    ensures Flat(MergeAt(parts, i)) == Flat(parts)
  {
    var a, b, l, r := parts[i], parts[i + 1], parts[..i], parts[i + 2..];
    FlatOne(a + b);
    FlatPair(a, b);
    FlatMiddle(l, [a, b], [a + b], r);
    SplitAt(parts, i);
  }

  lemma SplitAt(parts: seq<Bytes>, i: nat)
    requires i + 1 < |parts|
    ensures parts == parts[..i] + [parts[i], parts[i + 1]] + parts[i + 2..]
  {
  }

  /** Merging loses and reorders no byte. */
  lemma {:induction false} StateKeepsBytes(t: Table, cap: Option<int>, token: Bytes, n: nat)
    requires StateAfter(t, cap, token, n).Some?
    ensures Flat(StateAfter(t, cap, token, n).value) == token
  {
    if n == 0 {
      FlatSingles(token);
    } else {
      StateKeepsBytes(t, cap, token, n - 1);
      var parts := StateAfter(t, cap, token, n - 1).value;
      var i := LastMerge(t, cap, parts, StateAfter(t, cap, token, n).value);
      FlatMerge(parts, i);
    }
  }

  // ---------------------------------------------------------------- locality

  /** A best pair of the whole is a best pair of every window that contains it. */
  lemma NextInWindow(t: Table, cap: Option<int>, parts: seq<Bytes>, i: nat, l: nat, h: nat)
    requires IsNext(t, cap, parts, i) && l <= i && i + 2 <= h <= |parts|
    ensures IsNext(t, cap, parts[l..h], i - l)
  {
    var w := parts[l..h];
    forall j: nat | j + 1 < |w|
      ensures ScoreAt(t, w, j) == ScoreAt(t, parts, l + j)
    {
      assert w[j] == parts[l + j] && w[j + 1] == parts[l + j + 1];
    }
  }

  /** What a merge does to a window of the parts it leaves. */
  lemma MergeWindow(parts: seq<Bytes>, i: nat, l: nat, h: nat)
    requires i + 1 < |parts| && l <= h < |parts|
    ensures MergeAt(parts, i)[l..h] ==
            if i < l then parts[l + 1..h + 1] else if h <= i then parts[l..h] else MergeAt(parts[l..h + 1], i - l)
  {
    SpliceWindow(parts, i, parts[i] + parts[i + 1], l, h);
  }

  /** A merge inside a window is a step of that window. */
  lemma StepInWindow(t: Table, cap: Option<int>, parts: seq<Bytes>, i: nat, l: nat, h: nat)
    requires IsNext(t, cap, parts, i) && l <= i < h < |parts|
    ensures Step(t, cap, parts[l..h + 1]) == Some(MergeAt(parts[l..h + 1], i - l))
    ensures Flat(MergeAt(parts[l..h + 1], i - l)) == Flat(parts[l..h + 1])
  {
    NextInWindow(t, cap, parts, i, l, h + 1);
    StepIs(t, cap, parts[l..h + 1], i - l);
    FlatMerge(parts[l..h + 1], i - l);
  }

  /**
   The run on a whole token, restricted to consecutive parts, is the run on their bytes alone:
   any window of a reachable state is itself reached, merge by merge, from the bytes it covers.
   */
  lemma {:induction false} Locality(t: Table, cap: Option<int>, token: Bytes, n: nat, l: nat, h: nat) returns (k: nat)
    requires StateAfter(t, cap, token, n).Some?
    requires l <= h <= |StateAfter(t, cap, token, n).value|
    ensures k <= n
    ensures var w := StateAfter(t, cap, token, n).value[l..h];
            StateAfter(t, cap, Flat(w), k) == Some(w)
  {
    hide IsNext, Step, MergeAt;
    var parts := StateAfter(t, cap, token, n).value;
    if n == 0 {
      assert parts[l..h] == Singles(token[l..h]);
      FlatSingles(token[l..h]);
      k := 0;
    } else {
      var before := StateAfter(t, cap, token, n - 1).value;
      var i := LastMerge(t, cap, before, parts);
      MergeWindow(before, i, l, h);
      if i < l {
        k := Locality(t, cap, token, n - 1, l + 1, h + 1);
      } else if h <= i {
        k := Locality(t, cap, token, n - 1, l, h);
      } else {
        var j := Locality(t, cap, token, n - 1, l, h + 1);
        StepInWindow(t, cap, before, i, l, h);
        k := j + 1;
      }
    }
  }

  lemma LastMerge(t: Table, cap: Option<int>, before: seq<Bytes>, parts: seq<Bytes>) returns (i: nat)
    requires Step(t, cap, before) == Some(parts)
    ensures i + 1 < |before| && IsNext(t, cap, before, i) && parts == MergeAt(before, i)
  {
    i :| IsNext(t, cap, before, i) && parts == MergeAt(before, i);
  }

  /** Every part an encoding returns re-encodes to itself, under the same table and cap. */
  lemma PartsReencodeToThemselves(t: Table, cap: Option<int>, token: Bytes, parts: seq<Bytes>, i: nat)
    requires Encodes(t, cap, token, parts) && i < |parts|
    ensures Encodes(t, cap, parts[i], [parts[i]])
  {
    var k := Locality(t, cap, token, |token| - |parts|, i, i + 1);
    assert parts[i..i + 1] == [parts[i]];
    FlatOne(parts[i]);
    LonePartStops(t, cap, parts[i]);
  }

  lemma LonePartStops(t: Table, cap: Option<int>, part: Bytes)
    ensures Step(t, cap, [part]) == None
  {
  }

  /** A capped run takes the same steps as the uncapped one for as long as it goes on. */
  lemma {:induction false} CappedRunIsPrefix(t: Table, cap: Option<int>, token: Bytes, n: nat)
    requires StateAfter(t, cap, token, n).Some?
    ensures StateAfter(t, None, token, n) == StateAfter(t, cap, token, n)
  {
    if n > 0 {
      CappedRunIsPrefix(t, cap, token, n - 1);
      var parts := StateAfter(t, cap, token, n - 1).value;
      var i := LastMerge(t, cap, parts, StateAfter(t, cap, token, n).value);
      assert IsNext(t, None, parts, i);
      StepIs(t, None, parts, i);
    }
  }

  // ---------------------------------------------------------------- the program

  /** The scan of QwenModel.bpe for the pair of lowest rank; ties go to the leftmost. */
  method FindBest(ranks: map<Bytes, int>, parts: seq<Bytes>) returns (minIdx: Option<nat>, minRank: Option<int>)
    ensures minIdx.None? ==> minRank.None? && forall j: nat | j + 1 < |parts| :: ScoreAt(ByRank(ranks), parts, j).None?
    ensures minIdx.Some? ==>
            IsBest(ByRank(ranks), parts, minIdx.value) && minRank == ScoreAt(ByRank(ranks), parts, minIdx.value)
  {
    ghost var t := ByRank(ranks);
    minIdx, minRank := None, None;
    var i := 0;
    while i + 1 < |parts|
      invariant 0 <= i && (i < |parts| || i == 0)
      invariant minIdx.Some? == minRank.Some?
      invariant minIdx.None? ==> forall j: nat | j < i :: ScoreAt(t, parts, j).None?
      invariant minIdx.Some? ==>
                  && minIdx.value < i
                  && ScoreAt(t, parts, minIdx.value) == minRank
                  && (forall j: nat | j < i && ScoreAt(t, parts, j).Some? ::
                        && minRank.value <= ScoreAt(t, parts, j).value
                        && (j < minIdx.value ==> minRank.value < ScoreAt(t, parts, j).value))
    {
      var joined := parts[i] + parts[i + 1];
      if joined in ranks && (minRank.None? || ranks[joined] < minRank.value) {
        minIdx, minRank := Some(i), Some(ranks[joined]);
      }
      i := i + 1;
    }
  }

  /** QwenModel.bpe: repeatedly merges the leftmost pair of lowest rank while that rank is below the cap. */
  method Bpe(ranks: map<Bytes, int>, token: Bytes, maxRank: Option<int>) returns (parts: seq<Bytes>)
    ensures Encodes(ByRank(ranks), maxRank, token, parts)
  {
    ghost var t := ByRank(ranks);
    ghost var n: nat := 0;
    parts := Singles(token);
    while true
      invariant StateAfter(t, maxRank, token, n) == Some(parts)
      decreases |parts|
    {
      var minIdx, minRank := FindBest(ranks, parts);
      if minRank.None? || (maxRank.Some? && minRank.value >= maxRank.value) {
        StoppedHere(t, maxRank, parts, minIdx);
        return;
      }
      StepIs(t, maxRank, parts, minIdx.value);
      parts := MergeAt(parts, minIdx.value);
      n := n + 1;
    }
  }

  lemma StoppedHere(t: Table, cap: Option<int>, parts: seq<Bytes>, best: Option<nat>)
    requires best.None? ==> forall j: nat | j + 1 < |parts| :: ScoreAt(t, parts, j).None?
    requires best.Some? ==>
             IsBest(t, parts, best.value) && cap.Some? && ScoreAt(t, parts, best.value).value >= cap.value
    ensures Step(t, cap, parts) == None
  {
    forall j: nat | IsNext(t, cap, parts, j)
      ensures false
    {
    }
  }
}
