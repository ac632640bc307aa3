/**
 The queue-driven encoder that runs on the loaded merge list (src/llama-vocab.cpp,
 llm_tokenizer_bpe_session), and the proof that it computes the greedy encoding.

 Symbols form a linked list over the word; merging grows the left symbol and empties the right
 one. Candidate merges wait in a queue that is never cleaned: outdated ones are skipped when popped.
 */
module BpeSession {
  import opened Wrappers
  import opened BpeMerge

  datatype Symbol = Symbol(prev: int, next: int, n: nat)
  datatype Bigram = Bigram(left: int, right: int, text: Bytes, rank: int)

  // ---------------------------------------------------------------- what the fields stand for

  /** The end of block `k` when `word` is cut at `starts`. */
  function End(word: Bytes, starts: seq<nat>, k: nat): nat
    requires k < |starts|
  {
    if k + 1 < |starts| then starts[k + 1] else |word|
  }

  ghost predicate Cuts(word: Bytes, starts: seq<nat>) {
    && (forall k :: 0 <= k < |starts| ==> starts[k] < |word|)
    && (forall j, k :: 0 <= j < k < |starts| ==> starts[j] < starts[k])
  }

  /** The blocks of `word` cut at `starts`. */
  ghost function Blocks(word: Bytes, starts: seq<nat>): (r: seq<Bytes>)
    requires Cuts(word, starts)
    ensures |r| == |starts|
  {
    seq(|starts|, k requires 0 <= k < |starts| => word[starts[k]..End(word, starts, k)])
  }

  /** The linked list runs through the non-empty symbols, which tile the word from `starts`. */
  ghost predicate Linked(word: Bytes, symbols: seq<Symbol>, starts: seq<nat>) {
    && |symbols| == |word|
    && Cuts(word, starts)
    && (word != [] ==> starts != [] && starts[0] == 0)
    && (forall k :: 0 <= k < |starts| ==> symbols[starts[k]] == LinkAt(word, starts, k))
    && (forall i: nat :: i < |symbols| && i !in starts ==> symbols[i].n == 0)
  }

  ghost function LinkAt(word: Bytes, starts: seq<nat>, k: nat): Symbol
    requires Cuts(word, starts) && k < |starts|
  {
    Symbol(if k == 0 then -1 else starts[k - 1],
           if k + 1 < |starts| then starts[k + 1] else -1,
           End(word, starts, k) - starts[k])
  }

  /** A bigram names a recorded pair of adjacent stretches of the word, and its left symbol only grows. */
  ghost predicate Sound(word: Bytes, merges: seq<Pair>, symbols: seq<Symbol>, g: Bigram)
    requires |symbols| == |word|
  {
    && 0 <= g.left < g.right < g.left + |g.text| <= |word|
    && g.text == word[g.left..g.left + |g.text|]
    && PositionOf(merges, (word[g.left..g.right], word[g.right..g.left + |g.text|])) == Some(g.rank)
    && (symbols[g.left].n == 0 || symbols[g.left].n >= g.right - g.left)
  }

  /** If blocks `k` and `k + 1` may be merged, the bigram for them waits in the queue. */
  ghost predicate Queued(word: Bytes, merges: seq<Pair>, starts: seq<nat>, queue: seq<Bigram>, k: nat)
    requires Cuts(word, starts) && k + 1 < |starts|
  {
    var parts := Blocks(word, starts);
    var s := ScoreAt(ByMerge(merges), parts, k);
    s.Some? ==> Bigram(starts[k], starts[k + 1], parts[k] + parts[k + 1], s.value) in queue
  }

  ghost predicate AllSound(word: Bytes, merges: seq<Pair>, symbols: seq<Symbol>, queue: seq<Bigram>)
    requires |symbols| == |word|
  {
    forall g :: g in queue ==> Sound(word, merges, symbols, g)
  }

  // ---------------------------------------------------------------- symbols

  function TextAt(word: Bytes, symbols: seq<Symbol>, i: nat): Bytes
    requires i < |symbols| && i + symbols[i].n <= |word|
  {
    word[i..i + symbols[i].n]
  }

  lemma CutOrder(word: Bytes, starts: seq<nat>, j: nat, k: nat)
    requires Cuts(word, starts) && j < |starts| && k < |starts|
    ensures j < k <==> starts[j] < starts[k]
    ensures starts[k] < End(word, starts, k) <= |word|
  {
    if j < k {
      assert starts[j] < starts[k];
    } else if k < j {
      assert starts[k] < starts[j];
    }
  }

  lemma LinkIs(word: Bytes, symbols: seq<Symbol>, starts: seq<nat>, k: nat)
    requires Linked(word, symbols, starts) && k < |starts|
    ensures |symbols| == |word| && starts[k] < |word| && Cuts(word, starts)
    ensures symbols[starts[k]] == LinkAt(word, starts, k)
  {
  }

  lemma SymbolText(word: Bytes, symbols: seq<Symbol>, starts: seq<nat>, k: nat)
    requires Linked(word, symbols, starts) && k < |starts|
    ensures |symbols| == |word| && Cuts(word, starts) && starts[k] < End(word, starts, k) <= |word|
    ensures symbols[starts[k]].n == End(word, starts, k) - starts[k]
    ensures TextAt(word, symbols, starts[k]) == Blocks(word, starts)[k] == word[starts[k]..End(word, starts, k)]
  {
    hide Cuts, Linked;
    LinkIs(word, symbols, starts, k);
    CutOrder(word, starts, k, k);
  }

  /** The non-empty symbol `i` is some block. */
  lemma BlockOf(word: Bytes, symbols: seq<Symbol>, starts: seq<nat>, i: nat) returns (k: nat)
    requires Linked(word, symbols, starts) && i < |symbols| && symbols[i].n > 0
    ensures k < |starts| && starts[k] == i
  {
    k :| k < |starts| && starts[k] == i;
  }

  /** Joining blocks `k` and `k + 1`. */
  function Join(starts: seq<nat>, k: nat): seq<nat>
    requires k + 1 < |starts|
  {
    starts[..k + 1] + starts[k + 2..]
  }

  /** The field updates of one merge: grow the left symbol, empty the right one, unlink it. */
  function MergeSymbols(symbols: seq<Symbol>, left: nat, right: nat): (r: seq<Symbol>)
    requires left < |symbols| && right < |symbols| && left != right
    requires symbols[right].next < |symbols|
    ensures |r| == |symbols|
  {
    var grown := symbols[left := symbols[left].(n := symbols[left].n + symbols[right].n, next := symbols[right].next)];
    var emptied := grown[right := grown[right].(n := 0)];
    var next := symbols[right].next;
    if next >= 0 then emptied[next := emptied[next].(prev := left)] else emptied
  }

  lemma JoinCuts(word: Bytes, starts: seq<nat>, k: nat)
    requires Cuts(word, starts) && k + 1 < |starts|
    ensures Cuts(word, Join(starts, k))
    ensures Blocks(word, Join(starts, k)) == MergeAt(Blocks(word, starts), k)
  {
    JoinOrder(word, starts, k);
    hide Cuts;
    var s, b := Join(starts, k), Blocks(word, starts);
    forall j | 0 <= j < |s|
      ensures Blocks(word, s)[j] == MergeAt(b, k)[j]
    {
      SpliceAt(b, k, b[k] + b[k + 1], j);
      var i := if j <= k then j else j + 1;
      CutOrder(word, starts, i, i);
      CutOrder(word, s, j, j);
      if j == k {
        CutOrder(word, starts, k + 1, k + 1);
      }
    }
  }

  lemma JoinOrder(word: Bytes, starts: seq<nat>, k: nat)
    requires Cuts(word, starts) && k + 1 < |starts|
    ensures Cuts(word, Join(starts, k))
  {
  }

  lemma MergedAt(symbols: seq<Symbol>, left: nat, right: nat, i: nat)
    requires left < |symbols| && right < |symbols| && left != right && symbols[right].next < |symbols|
    requires symbols[right].next !in {left, right} && i < |symbols|
    ensures var (s, r) := (symbols[i], symbols[right]);
            MergeSymbols(symbols, left, right)[i] ==
            if i == left then s.(n := s.n + r.n, next := r.next)
            else if i == right then s.(n := 0)
            else if i == r.next then s.(prev := left)
            else s
  {
  }

  lemma MergedLink(word: Bytes, symbols: seq<Symbol>, starts: seq<nat>, k: nat, j: nat)
    requires Linked(word, symbols, starts) && k + 1 < |starts| && j < |starts| - 1
    requires |symbols| == |word| && Cuts(word, starts) && Cuts(word, Join(starts, k))
    requires starts[k] < starts[k + 1] < |word| && symbols[starts[k + 1]].next < |symbols|
    requires Join(starts, k)[j] < |word|
    ensures MergeSymbols(symbols, starts[k], starts[k + 1])[Join(starts, k)[j]] == LinkAt(word, Join(starts, k), j)
  {
    hide MergeSymbols, Cuts, Linked;
    var i := if j <= k then j else j + 1;
    LinkIs(word, symbols, starts, k);
    LinkIs(word, symbols, starts, k + 1);
    LinkIs(word, symbols, starts, i);
    CutOrder(word, starts, i, k);
    CutOrder(word, starts, i, k + 1);
    CutOrder(word, starts, k + 1, i);
    if k + 2 < |starts| {
      CutOrder(word, starts, i, k + 2);
      CutOrder(word, starts, k + 2, i);
      CutOrder(word, starts, k + 1, k + 2);
    }
    MergedAt(symbols, starts[k], starts[k + 1], starts[i]);
  }

  lemma StaysEmpty(word: Bytes, symbols: seq<Symbol>, starts: seq<nat>, k: nat, i: nat)
    requires Linked(word, symbols, starts) && k + 1 < |starts| && i < |symbols| && i !in Join(starts, k)
    requires |symbols| == |word| && starts[k] < starts[k + 1] < |word| && symbols[starts[k + 1]].next < |symbols|
    ensures MergeSymbols(symbols, starts[k], starts[k + 1])[i].n == 0
  {
    hide MergeSymbols, Cuts, Linked;
    BlocksExist(word, symbols, starts);
    var s := Join(starts, k);
    LinkIs(word, symbols, starts, k + 1);
    assert s[k] == starts[k];
    if k + 2 < |starts| {
      CutOrder(word, starts, k, k + 2);
      CutOrder(word, starts, k + 1, k + 2);
    }
    MergedAt(symbols, starts[k], starts[k + 1], i);
    if i != starts[k + 1] {
      if i in starts {
        InJoin(starts, k, i);
      }
      EmptyElsewhere(word, symbols, starts, i);
    }
  }

  lemma EmptyElsewhere(word: Bytes, symbols: seq<Symbol>, starts: seq<nat>, i: nat)
    requires Linked(word, symbols, starts) && i < |symbols| && i !in starts
    ensures symbols[i].n == 0
  {
  }

  lemma InJoin(starts: seq<nat>, k: nat, i: nat)
    requires k + 1 < |starts| && i in starts && i != starts[k + 1]
    ensures i in Join(starts, k)
  {
    var j :| 0 <= j < |starts| && starts[j] == i;
    assert Join(starts, k)[if j <= k then j else j - 1] == i;
  }

  lemma MergeKeepsLinks(word: Bytes, symbols: seq<Symbol>, starts: seq<nat>, k: nat)
    requires Linked(word, symbols, starts) && k + 1 < |starts|
    ensures |symbols| == |word| && starts[k] < starts[k + 1] < |word| && symbols[starts[k + 1]].next < |symbols|
    ensures Linked(word, MergeSymbols(symbols, starts[k], starts[k + 1]), Join(starts, k))
  {
    hide MergeSymbols, Blocks, MergeAt, Cuts, LinkAt;
    var s := Join(starts, k);
    LinkIs(word, symbols, starts, k + 1);
    NextIsSymbol(word, symbols, starts, k + 1);
    CutOrder(word, starts, k, k + 1);
    JoinCuts(word, starts, k);
    forall j: nat | j < |s|
      ensures s[j] < |word| && MergeSymbols(symbols, starts[k], starts[k + 1])[s[j]] == LinkAt(word, s, j)
    {
      CutOrder(word, s, j, j);
      MergedLink(word, symbols, starts, k, j);
    }
    forall i: nat | i < |symbols| && i !in s
      ensures MergeSymbols(symbols, starts[k], starts[k + 1])[i].n == 0
    {
      StaysEmpty(word, symbols, starts, k, i);
    }
  }

  lemma NextIsSymbol(word: Bytes, symbols: seq<Symbol>, starts: seq<nat>, k: nat)
    requires Linked(word, symbols, starts) && k < |starts|
    ensures symbols[starts[k]].next < |symbols|
  {
    LinkIs(word, symbols, starts, k);
  }

  lemma MergeKeepsSound(word: Bytes, merges: seq<Pair>, symbols: seq<Symbol>, starts: seq<nat>, k: nat, g: Bigram)
    requires Linked(word, symbols, starts) && k + 1 < |starts|
    requires starts[k] < starts[k + 1] < |word| && symbols[starts[k + 1]].next < |symbols|
    requires Sound(word, merges, symbols, g)
    ensures Sound(word, merges, MergeSymbols(symbols, starts[k], starts[k + 1]), g)
  {
    hide MergeSymbols, PositionOf, Cuts;
    LinkIs(word, symbols, starts, k + 1);
    CutOrder(word, starts, k, k + 1);
    if k + 2 < |starts| {
      CutOrder(word, starts, k, k + 2);
      CutOrder(word, starts, k + 1, k + 2);
    }
    MergedAt(symbols, starts[k], starts[k + 1], g.left);
  }

  /** Only the two pairs next to a merge need a new bigram. */
  lemma MergeKeepsQueued(word: Bytes, merges: seq<Pair>, starts: seq<nat>, queue: seq<Bigram>, g: Bigram,
                         rest: seq<Bigram>, k: nat, j: nat)
    requires Cuts(word, starts) && k + 1 < |starts| && j + 1 < |Join(starts, k)| && j != k && j + 1 != k
    requires Cuts(word, Join(starts, k))
    requires Queued(word, merges, starts, queue, if j < k then j else j + 1)
    requires g.left == starts[k] && forall h :: h in queue && h != g ==> h in rest
    ensures Queued(word, merges, Join(starts, k), rest, j)
  {
    JoinCuts(word, starts, k);
    var b, i := Blocks(word, starts), if j < k then j else j + 1;
    SpliceAt(b, k, b[k] + b[k + 1], j);
    SpliceAt(b, k, b[k] + b[k + 1], j + 1);
    assert starts[i] != starts[k];
  }

  // ---------------------------------------------------------------- popping

  /** A popped bigram is current: both symbols are there and spell its text. */
  predicate Current(word: Bytes, symbols: seq<Symbol>, g: Bigram)
    requires 0 <= g.left < |symbols| && 0 <= g.right < |symbols|
    requires g.left + symbols[g.left].n <= |word| && g.right + symbols[g.right].n <= |word|
  {
    && symbols[g.left].n != 0 && symbols[g.right].n != 0
    && TextAt(word, symbols, g.left) + TextAt(word, symbols, g.right) == g.text
  }

  lemma SymbolFits(word: Bytes, symbols: seq<Symbol>, starts: seq<nat>, i: nat)
    requires Linked(word, symbols, starts) && i < |symbols|
    ensures i + symbols[i].n <= |word|
  {
    if symbols[i].n > 0 {
      var k := BlockOf(word, symbols, starts, i);
    }
  }

  /** A current bigram is the pair of two adjacent blocks, with its rank. */
  lemma CurrentPair(word: Bytes, merges: seq<Pair>, symbols: seq<Symbol>, starts: seq<nat>, g: Bigram) returns (k: nat)
    requires Linked(word, symbols, starts) && Sound(word, merges, symbols, g)
    requires g.left + symbols[g.left].n <= |word| && g.right + symbols[g.right].n <= |word|
    requires Current(word, symbols, g)
    ensures k + 1 < |starts| && starts[k] == g.left && starts[k + 1] == g.right
    ensures ScoreAt(ByMerge(merges), Blocks(word, starts), k) == Some(g.rank)
  {
    hide PositionOf, Cuts, Linked;
    BlocksExist(word, symbols, starts);
    k := BlockOf(word, symbols, starts, g.left);
    var m := BlockOf(word, symbols, starts, g.right);
    CutOrder(word, starts, k, m);
    CutOrder(word, starts, m, k + 1);
    SymbolText(word, symbols, starts, k);
    SymbolText(word, symbols, starts, m);
    var e := End(word, starts, m);
    assert |TextAt(word, symbols, g.left)| + |TextAt(word, symbols, g.right)| == |g.text|;
  }

  lemma BlocksExist(word: Bytes, symbols: seq<Symbol>, starts: seq<nat>)
    requires Linked(word, symbols, starts)
    ensures |symbols| == |word| && Cuts(word, starts)
  {
  }

  /** A bigram that is not current is nobody's waiting pair, so it may be dropped. */
  lemma DropOutdated(word: Bytes, merges: seq<Pair>, symbols: seq<Symbol>, starts: seq<nat>, queue: seq<Bigram>,
                     g: Bigram, rest: seq<Bigram>, k: nat)
    requires Linked(word, symbols, starts) && k + 1 < |starts|
    requires 0 <= g.left < |symbols| && 0 <= g.right < |symbols|
    requires g.left + symbols[g.left].n <= |word| && g.right + symbols[g.right].n <= |word|
    requires !Current(word, symbols, g)
    requires Queued(word, merges, starts, queue, k) && forall h :: h in queue && h != g ==> h in rest
    ensures Queued(word, merges, starts, rest, k)
  {
    SymbolText(word, symbols, starts, k);
    SymbolText(word, symbols, starts, k + 1);
  }

  /** Bigram `a` is popped no later than `b`. */
  predicate Before(a: Bigram, b: Bigram) {
    a.rank < b.rank || (a.rank == b.rank && a.left <= b.left)
  }

  /** The least bigram of the queue, when current, is the next merge of the greedy run. */
  lemma LeastIsNext(word: Bytes, merges: seq<Pair>, starts: seq<nat>, queue: seq<Bigram>, g: Bigram, k: nat)
    requires Cuts(word, starts) && k + 1 < |starts| && g.left == starts[k]
    requires ScoreAt(ByMerge(merges), Blocks(word, starts), k) == Some(g.rank)
    requires forall j: nat | j + 1 < |starts| :: Queued(word, merges, starts, queue, j)
    requires forall h :: h in queue ==> Before(g, h)
    ensures IsNext(ByMerge(merges), None, Blocks(word, starts), k)
  {
    var t, parts := ByMerge(merges), Blocks(word, starts);
    forall j: nat | j + 1 < |parts| && ScoreAt(t, parts, j).Some?
      ensures ScoreAt(t, parts, k).value <= ScoreAt(t, parts, j).value
      ensures j < k ==> ScoreAt(t, parts, k).value < ScoreAt(t, parts, j).value
    {
      assert Queued(word, merges, starts, queue, j);
      var h := Bigram(starts[j], starts[j + 1], parts[j] + parts[j + 1], ScoreAt(t, parts, j).value);
      assert Before(g, h);
    }
  }

  // ---------------------------------------------------------------- the program

  function Indices(n: nat): (r: seq<nat>)
    ensures |r| == n && forall i :: 0 <= i < n ==> r[i] == i
  {
    seq(n, i requires 0 <= i < n => i as nat)
  }

  /** One symbol for each byte. */
  lemma InitialLinks(word: Bytes, symbols: seq<Symbol>)
    requires |symbols| == |word|
    requires forall i :: 0 <= i < |word| ==> symbols[i] == Symbol(i - 1, if i + 1 == |word| then -1 else i + 1, 1)
    ensures Linked(word, symbols, Indices(|word|))
    ensures Blocks(word, Indices(|word|)) == Singles(word)
  {
    var s := Indices(|word|);
    InitialBlocks(word);
    hide Cuts, Blocks;
    forall k: nat | k < |word|
      ensures symbols[s[k]] == LinkAt(word, s, k) && k in s
    {
      assert s[k] == k;
    }
  }

  lemma InitialBlocks(word: Bytes)
    ensures Cuts(word, Indices(|word|)) && Blocks(word, Indices(|word|)) == Singles(word)
  {
    var s := Indices(|word|);
    forall i: nat | i < |word|
      ensures Blocks(word, s)[i] == Singles(word)[i]
    {
      assert End(word, s, i) == i + 1;
      assert word[i..i + 1] == [word[i]];
    }
  }

  class Session {
    const word: Bytes
    const merges: seq<Pair>
    var symbols: seq<Symbol>
    var queue: seq<Bigram>
    /** Where the symbols that are not empty begin. */
    ghost var starts: seq<nat>

    ghost predicate Valid()
      reads this
    {
      Linked(word, symbols, starts) && AllSound(word, merges, symbols, queue)
    }

    constructor (word: Bytes, merges: seq<Pair>)
      ensures this.word == word && this.merges == merges
      ensures Valid() && queue == [] && starts == Indices(|word|) && Blocks(word, starts) == Singles(word)
    {
      this.word, this.merges := word, merges;
      symbols := seq(|word|, i requires 0 <= i < |word| => Symbol(i - 1, if i + 1 == |word| then -1 else i + 1, 1));
      queue := [];
      starts := Indices(|word|);
      InitialLinks(word, seq(|word|, i requires 0 <= i < |word| =>
                             Symbol(i - 1, if i + 1 == |word| then -1 else i + 1, 1)));
    }

    /** add_new_bigram: queues symbols `left` and `right` when their texts are a recorded pair. */
    method AddNewBigram(left: int, right: int, ghost k: int)
      requires Valid()
      requires left == -1 || right == -1 || (0 <= k && k + 1 < |starts| && starts[k] == left && starts[k + 1] == right)
      modifies `queue
      ensures Valid()
      ensures left != -1 && right != -1 ==> Queued(word, merges, starts, queue, k)
      ensures forall j: nat | j + 1 < |starts|
              && Queued(word, merges, starts, old(queue), j) :: Queued(word, merges, starts, queue, j)
    {
      hide PositionOf, Linked, Cuts;
      if left == -1 || right == -1 {
        return;
      }
      SymbolText(word, symbols, starts, k);
      SymbolText(word, symbols, starts, k + 1);
      var leftText, rightText := TextAt(word, symbols, left), TextAt(word, symbols, right);
      var rank := PositionOf(merges, (leftText, rightText));
      if rank.None? {
        return;
      }
      var g := Bigram(left, right, leftText + rightText, rank.value);
      NewBigramSound(word, merges, symbols, g, End(word, starts, k + 1));
      queue := queue + [g];
    }

    /** Takes the least bigram out of the queue. */
    method PopLeast() returns (g: Bigram)
      requires queue != []
      modifies `queue
      ensures g in old(queue) && |queue| + 1 == |old(queue)|
      ensures forall h :: h in old(queue) ==> Before(g, h) && (h == g || h in queue)
      ensures forall h :: h in queue ==> h in old(queue)
    {
      var least := 0;
      for i := 1 to |queue|
        invariant 0 <= least < i
        invariant forall j :: 0 <= j < i ==> Before(queue[least], queue[j])
      {
        if Before(queue[i], queue[least]) {
          least := i;
        }
      }
      g := queue[least];
      queue := queue[..least] + queue[least + 1..];
    }

    /** The merge of one current bigram: update the links, then queue the two new neighbours. */
    method Merge(g: Bigram, ghost k: nat, ghost before: seq<Bigram>)
      requires Valid() && k + 1 < |starts| && g.left == starts[k] && g.right == starts[k + 1]
      requires forall j: nat | j + 1 < |starts| :: Queued(word, merges, starts, before, j)
      requires forall h :: h in before && h != g ==> h in queue
      modifies this
      ensures Valid() && starts == Join(old(starts), k)
      ensures forall j: nat | j + 1 < |starts| :: Queued(word, merges, starts, queue, j)
    {
      hide PositionOf, Linked, Cuts, Blocks, MergeSymbols, Queued, ScoreAt;
      MergeKeepsLinks(word, symbols, starts, k);
      LinkIs(word, symbols, starts, k);
      LinkIs(word, symbols, starts, k + 1);
      forall h | h in queue
        ensures Sound(word, merges, MergeSymbols(symbols, g.left, g.right), h)
      {
        MergeKeepsSound(word, merges, symbols, starts, k, h);
      }
      JoinCuts(word, starts, k);
      forall j: nat | j + 1 < |Join(starts, k)| && j != k && j + 1 != k
        ensures Queued(word, merges, Join(starts, k), queue, j)
      {
        MergeKeepsQueued(word, merges, starts, before, g, queue, k, j);
      }
      symbols := MergeSymbols(symbols, g.left, g.right);
      starts := Join(starts, k);
      LinkIs(word, symbols, starts, k);
      AddNewBigram(symbols[g.left].prev, g.left, k - 1);
      AddNewBigram(g.left, symbols[g.left].next, k);
    }
  }

  /** The loop that drains the queue, for one word. */
  method Tokenize(word: Bytes, merges: seq<Pair>) returns (tokens: seq<Bytes>)
    ensures Encodes(ByMerge(merges), None, word, tokens)
  {
    hide PositionOf, Linked, Cuts, Blocks, Queued, ScoreAt, Step, IsNext, Before;
    var s := new Session(word, merges);
    BlocksExist(word, s.symbols, s.starts);
    var i := 1;
    while i < |word|
      invariant 1 <= i && (i <= |word| || i == 1)
      invariant s.Valid() && s.starts == Indices(|word|) && Cuts(word, s.starts)
      invariant forall k: nat | k + 1 < i && k + 1 < |word| :: Queued(word, merges, s.starts, s.queue, k)
    {
      s.AddNewBigram(i - 1, i, i - 1);
      i := i + 1;
    }
    ghost var n: nat := 0;
    while s.queue != []
      invariant s.Valid() && Cuts(word, s.starts)
      invariant forall k: nat | k + 1 < |s.starts| :: Queued(word, merges, s.starts, s.queue, k)
      invariant StateAfter(ByMerge(merges), None, word, n) == Some(Blocks(word, s.starts))
      decreases |s.starts|, |s.queue|
    {
      ghost var before := s.queue;
      var g := s.PopLeast();
      BlocksExist(word, s.symbols, s.starts);
      assert Sound(word, merges, s.symbols, g);
      SymbolFits(word, s.symbols, s.starts, g.left);
      SymbolFits(word, s.symbols, s.starts, g.right);
      if !Current(word, s.symbols, g) {
        forall k: nat | k + 1 < |s.starts|
          ensures Queued(word, merges, s.starts, s.queue, k)
        {
          DropOutdated(word, merges, s.symbols, s.starts, before, g, s.queue, k);
        }
      } else {
        ghost var k := CurrentPair(word, merges, s.symbols, s.starts, g);
        LeastIsNext(word, merges, s.starts, before, g, k);
        StepIs(ByMerge(merges), None, Blocks(word, s.starts), k);
        JoinCuts(word, s.starts, k);
        s.Merge(g, k, before);
        n := n + 1;
      }
    }
    EmptyQueueStops(word, merges, s.starts);
    tokens := CollectTokens(word, s.symbols, s.starts);
  }

  lemma EmptyQueueStops(word: Bytes, merges: seq<Pair>, starts: seq<nat>)
    requires Cuts(word, starts) && forall k: nat | k + 1 < |starts| :: Queued(word, merges, starts, [], k)
    ensures Step(ByMerge(merges), None, Blocks(word, starts)) == None
  {
    hide PositionOf;
    var parts := Blocks(word, starts);
    forall k: nat | k + 1 < |parts|
      ensures ScoreAt(ByMerge(merges), parts, k).None?
    {
      assert Queued(word, merges, starts, [], k);
    }
  }

  /** The symbols that are not empty, in order. */
  method CollectTokens(word: Bytes, symbols: seq<Symbol>, ghost starts: seq<nat>) returns (tokens: seq<Bytes>)
    requires Linked(word, symbols, starts) && Cuts(word, starts)
    ensures tokens == Blocks(word, starts)
  {
    hide Linked, Blocks;
    BlocksExist(word, symbols, starts);
    tokens := [];
    ghost var c: nat := 0;
    for i := 0 to |symbols|
      invariant c <= |starts| && tokens == Blocks(word, starts)[..c]
      invariant forall k :: 0 <= k < |starts| ==> (k < c <==> starts[k] < i)
    {
      SymbolFits(word, symbols, starts, i);
      if symbols[i].n > 0 {
        ghost var k := BlockOf(word, symbols, starts, i);
        SymbolText(word, symbols, starts, k);
        assert k == c by {
          if c < k {
            CutOrder(word, starts, c, k);
          }
        }
        forall j: nat | j < |starts|
          ensures j < c + 1 <==> starts[j] < i + 1
        {
          CutOrder(word, starts, j, c);
          CutOrder(word, starts, c, j);
        }
        tokens := tokens + [TextAt(word, symbols, i)];
        c := c + 1;
      } else if i in starts {
        ghost var k :| 0 <= k < |starts| && starts[k] == i;
        SymbolText(word, symbols, starts, k);
      }
    }
  }

  lemma NewBigramSound(word: Bytes, merges: seq<Pair>, symbols: seq<Symbol>, g: Bigram, end: nat)
    requires |symbols| == |word| && 0 <= g.left < g.right < end <= |word| && symbols[g.left].n == g.right - g.left
    requires g.text == word[g.left..g.right] + word[g.right..end]
    requires PositionOf(merges, (word[g.left..g.right], word[g.right..end])) == Some(g.rank)
    ensures Sound(word, merges, symbols, g)
  {
    hide PositionOf;
    assert g.text == word[g.left..end];
  }
}
