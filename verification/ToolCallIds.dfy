/**
 Stable ids for streamed tool calls (common/chat.h, ensure_tool_call_ids_set) and the server's use of
 them with the message differences (tools/server/server.cpp, update_chat_msg).
 */
module ToolCallIds {
  import opened Wrappers
  import opened ChatDiff

  const EMPTY := Msg("", "", [])

  /** The ids given out so far, and how many the generator was asked for. */
  datatype Cache = Cache(ids: seq<string>, drawn: nat)

  /** The generator's answers, in the order it is asked. */
  type Generator = nat -> string

  ghost predicate NeverEmpty(gen: Generator) {
    forall k: nat :: gen(k) != ""
  }

  /** The cache after the first `n` calls have been looked at. */
  function Filled(c: Cache, calls: seq<Call>, n: nat, gen: Generator): (r: Cache)
    requires n <= |calls|
    ensures c.ids <= r.ids && |r.ids| == (if |c.ids| < n then n else |c.ids|)
  {
    if n == 0 then c
    else
      var p := Filled(c, calls, n - 1, gen);
      if |p.ids| > n - 1 then p
      else if calls[n - 1].id == "" then Cache(p.ids + [gen(p.drawn)], p.drawn + 1)
      else Cache(p.ids + [calls[n - 1].id], p.drawn)
  }

  /** How many of the calls from position `from` on, up to `n`, come without an id. */
  function EmptyIds(calls: seq<Call>, from: nat, n: nat): nat
    requires n <= |calls|
  {
    if n <= from then 0 else EmptyIds(calls, from, n - 1) + if calls[n - 1].id == "" then 1 else 0
  }

  /**
   What fills the cache: ids that are there stay, a new call's own id is taken if it has one, and the
   generator is asked, in order, for those that have none, and for nothing else.
   */
  lemma {:induction false} FilledIds(c: Cache, calls: seq<Call>, n: nat, gen: Generator)
    requires n <= |calls|
    ensures var r := Filled(c, calls, n, gen);
            && r.drawn == c.drawn + EmptyIds(calls, |c.ids|, n)
            && (forall i :: 0 <= i < |c.ids| ==> r.ids[i] == c.ids[i])
            && forall i: nat :: |c.ids| <= i < n ==>
                 r.ids[i] == if calls[i].id != "" then calls[i].id else gen(c.drawn + EmptyIds(calls, |c.ids|, i))
  {
    if n > 0 {
      FilledIds(c, calls, n - 1, gen);
    }
  }

  function WithIds(calls: seq<Call>, ids: seq<string>): (r: seq<Call>)
    requires |calls| <= |ids|
    ensures |r| == |calls| && forall i :: 0 <= i < |r| ==> r[i] == calls[i].(id := ids[i])
  {
    seq(|calls|, i requires 0 <= i < |calls| => calls[i].(id := ids[i]))
  }

  function Labelled(m: Msg, ids: seq<string>): Msg
    requires |m.calls| <= |ids|
  {
    m.(calls := WithIds(m.calls, ids))
  }

  datatype State = State(chat: Msg, cache: Cache)

  /** The slot with a parsed message stored: the cache is filled for it, and it is labelled from the cache. */
  function Stored(s: State, parsed: Msg, gen: Generator): State {
    var cache := Filled(s.cache, parsed.calls, |parsed.calls|, gen);
    State(Labelled(parsed, cache.ids), cache)
  }

  /** What one parsed message does: an empty one is ignored. */
  function Update(s: State, parsed: Msg, gen: Generator): Result<(State, seq<Diff>), Error> {
    if parsed == EMPTY then Ok((s, []))
    else
      var next := Stored(s, parsed, gen);
      match Diffs(s.chat, next.chat)
      case Err(e) => Err(e)
      case Ok(ds) => Ok((next, ds))
  }

  class Slot {
    const gen: Generator
    var chatMsg: Msg
    var generatedToolCallIds: seq<string>
    var drawn: nat

    constructor (gen: Generator)
      ensures this.gen == gen && Value() == State(EMPTY, Cache([], 0))
    {
      this.gen := gen;
      chatMsg := EMPTY;
      generatedToolCallIds := [];
      drawn := 0;
    }

    ghost function Value(): State
      reads this
    {
      State(chatMsg, Cache(generatedToolCallIds, drawn))
    }

    /** ensure_tool_call_ids_set. */
    method EnsureToolCallIdsSet(m: Msg) returns (r: Msg)
      modifies this`generatedToolCallIds, this`drawn
      ensures Cache(generatedToolCallIds, drawn)
              == Filled(old(Cache(generatedToolCallIds, drawn)), m.calls, |m.calls|, gen)
      ensures r == Labelled(m, generatedToolCallIds)
    {
      var calls := m.calls;
      var i := 0;
      while i < |calls|
        invariant 0 <= i <= |calls| == |m.calls|
        invariant Cache(generatedToolCallIds, drawn) == Filled(old(Cache(generatedToolCallIds, drawn)), m.calls, i, gen)
        invariant forall k :: 0 <= k < i ==> calls[k] == m.calls[k].(id := generatedToolCallIds[k])
        invariant forall k :: i <= k < |calls| ==> calls[k] == m.calls[k]
      {
        if |generatedToolCallIds| <= i {
          var id := calls[i].id;
          if id == "" {
            id := gen(drawn);
            drawn := drawn + 1;
          }
          generatedToolCallIds := generatedToolCallIds + [id];
        }
        calls := calls[i := calls[i].(id := generatedToolCallIds[i])];
        i := i + 1;
      }
      r := m.(calls := calls);
      assert calls == WithIds(m.calls, generatedToolCallIds);
    }

    /** update_chat_msg, from the parsed message on; what is stored stays stored when comparing throws. */
    method UpdateChatMsg(parsed: Msg) returns (r: Result<seq<Diff>, Error>)
      modifies this
      ensures var u := Update(old(Value()), parsed, gen);
              && (r.Ok? <==> u.Ok?)
              && (r.Ok? ==> Value() == u.value.0 && r.value == u.value.1)
              && (r.Err? ==> r.error == u.error)
      ensures Value() == if parsed == EMPTY then old(Value()) else Stored(old(Value()), parsed, gen)
    {
      var previous := chatMsg;
      if parsed == EMPTY {
        return Ok([]);
      }
      var labelled := EnsureToolCallIdsSet(parsed);
      chatMsg := labelled;
      r := ComputeDiffs(previous, labelled);
    }
  }

  // ---------------------------------------------------------------- whole runs

  /** Parsed messages grow: only the last tool call changes, and its name stays. Their ids may be anything. */
  predicate RawExtends(prev: Msg, new_: Msg) {
    && prev.reasoning <= new_.reasoning && prev.content <= new_.content
    && |prev.calls| <= |new_.calls|
    && (forall i :: 0 <= i < |prev.calls| ==> new_.calls[i].name == prev.calls[i].name)
    && (forall i :: 0 <= i < |prev.calls| - 1 ==> new_.calls[i].arguments == prev.calls[i].arguments)
    && (prev.calls != [] ==> prev.calls[|prev.calls| - 1].arguments <= new_.calls[|prev.calls| - 1].arguments)
  }

  ghost predicate RawGrowing(raws: seq<Msg>) {
    forall k :: 0 < k < |raws| ==> RawExtends(raws[k - 1], raws[k])
  }

  function RunUpdates(raws: seq<Msg>, gen: Generator): Result<(State, seq<Diff>), Error> {
    if raws == [] then Ok((State(EMPTY, Cache([], 0)), []))
    else match RunUpdates(raws[..|raws| - 1], gen)
      case Err(e) => Err(e)
      case Ok((s, ds)) =>
        match Update(s, raws[|raws| - 1], gen)
        case Err(e) => Err(e)
        case Ok((s', more)) => Ok((s', ds + more))
  }

  /** The first difference for call `i` carries its id and name, and no later one carries either. */
  ghost predicate SentOnce(ds: seq<Diff>, i: nat, c: Call) {
    exists k :: 0 <= k < |ds| && FirstAt(ds, i, c, k)
  }

  ghost predicate FirstAt(ds: seq<Diff>, i: nat, c: Call, k: nat)
    requires k < |ds|
  {
    && ds[k].index == Some(i) && ds[k].call.id == c.id && ds[k].call.name == c.name
    && forall j :: 0 <= j < |ds| && j != k && ds[j].index == Some(i) ==>
       j > k && ds[j].call.id == "" && ds[j].call.name == ""
  }

  /** What holds after every message of a run; `last` is the last parsed message. */
  ghost predicate Good(s: State, ds: seq<Diff>, last: Msg) {
    && |s.cache.ids| == |last.calls| && s.chat == Labelled(last, s.cache.ids)
    && (forall i :: 0 <= i < |s.cache.ids| ==> s.cache.ids[i] != "")
    && Fold(EMPTY, ds) == s.chat
    && (forall i :: 0 <= i < |s.chat.calls| ==> SentOnce(ds, i, s.chat.calls[i]))
    && (forall j :: 0 <= j < |ds| && ds[j].index.Some? ==> ds[j].index.value < |s.chat.calls|)
  }

  lemma {:induction false} FilledSet(c: Cache, calls: seq<Call>, n: nat, gen: Generator)
    requires n <= |calls| && NeverEmpty(gen) && forall i :: 0 <= i < |c.ids| ==> c.ids[i] != ""
    ensures forall i :: 0 <= i < |Filled(c, calls, n, gen).ids| ==> Filled(c, calls, n, gen).ids[i] != ""
  {
    if n > 0 {
      FilledSet(c, calls, n - 1, gen);
    }
  }

  /** Labelled from one cache, growing messages extend each other. */
  lemma LabelledExtends(prev: Msg, new_: Msg, ids: seq<string>, more: seq<string>)
    requires RawExtends(prev, new_) && |ids| == |prev.calls| && ids <= more && |new_.calls| <= |more|
    ensures Extends(Labelled(prev, ids), Labelled(new_, more))
    ensures forall i :: 0 <= i < |ids| ==>
            Labelled(new_, more).calls[i].id == Labelled(prev, ids).calls[i].id
                && Labelled(new_, more).calls[i].name == Labelled(prev, ids).calls[i].name
  {
    var p, n := Labelled(prev, ids), Labelled(new_, more);
    forall i | 0 <= i < |prev.calls|
      ensures n.calls[i].id == p.calls[i].id && n.calls[i].name == p.calls[i].name
    {
      assert ids[i] == more[i] && new_.calls[i].name == prev.calls[i].name;
    }
    forall i | 0 <= i < |prev.calls| - 1
      ensures n.calls[i] == p.calls[i]
    {
      assert new_.calls[i].arguments == prev.calls[i].arguments;
    }
  }

  /** The differences of one step: old calls get neither id nor name, each new call comes once. */
  lemma StepDiffs(prev: Msg, new_: Msg)
    requires Extends(prev, new_) && Diffs(prev, new_).Ok?
    requires prev.calls != [] ==> prev.calls[|prev.calls| - 1].id == new_.calls[|prev.calls| - 1].id
    ensures var ds, p := Diffs(prev, new_).value, |prev.calls|;
            var off := |ds| - (|new_.calls| - p);
            && off >= 0
            && (forall j :: 0 <= j < off && ds[j].index.Some? ==>
                ds[j].index.value < p && ds[j].call.id == "" && ds[j].call.name == "")
            && (forall j :: off <= j < |ds| ==> ds[j] == Diff("", "", Some(p + j - off), new_.calls[p + j - off]))
  {
    hide StringDiff, Extends;
  }

  /** What `ds` must look like when `prev` had `p` calls and there are now `calls`. */
  ghost predicate NewCallsLast(ds: seq<Diff>, p: nat, calls: seq<Call>) {
    && p <= |calls| && |ds| >= |calls| - p
    && var off := |ds| - (|calls| - p);
       && (forall j :: 0 <= j < off && ds[j].index.Some? ==>
           ds[j].index.value < p && ds[j].call.id == "" && ds[j].call.name == "")
       && (forall j :: off <= j < |ds| ==> ds[j] == Diff("", "", Some(p + j - off), calls[p + j - off]))
  }

  lemma StillSent(sent: seq<Diff>, ds: seq<Diff>, p: nat, calls: seq<Call>, i: nat, was: Call)
    requires NewCallsLast(ds, p, calls) && i < p && SentOnce(sent, i, was) && calls[i].id == was.id
             && calls[i].name == was.name
    ensures SentOnce(sent + ds, i, calls[i])
  {
    var all := sent + ds;
    var k :| 0 <= k < |sent| && FirstAt(sent, i, was, k);
    forall j | 0 <= j < |all| && j != k && all[j].index == Some(i)
      ensures j > k && all[j].call.id == "" && all[j].call.name == ""
    {
      if j < |sent| {
        assert all[j] == sent[j];
      } else {
        assert all[j] == ds[j - |sent|];
      }
    }
    assert FirstAt(all, i, calls[i], k);
  }

  lemma NewlySent(sent: seq<Diff>, ds: seq<Diff>, p: nat, calls: seq<Call>, i: nat)
    requires NewCallsLast(ds, p, calls) && p <= i < |calls|
    requires forall j :: 0 <= j < |sent| && sent[j].index.Some? ==> sent[j].index.value < p
    ensures SentOnce(sent + ds, i, calls[i])
  {
    var all, off := sent + ds, |ds| - (|calls| - p);
    var k := |sent| + off + (i - p);
    assert all[k] == ds[off + (i - p)] == Diff("", "", Some(i), calls[i]);
    forall j | 0 <= j < |all| && j != k
      ensures all[j].index != Some(i)
    {
      if j < |sent| {
        assert all[j] == sent[j];
      } else {
        assert all[j] == ds[j - |sent|];
      }
    }
    assert FirstAt(all, i, calls[i], k);
  }

  lemma IndicesBelow(sent: seq<Diff>, ds: seq<Diff>, p: nat, calls: seq<Call>)
    requires NewCallsLast(ds, p, calls)
             && forall j :: 0 <= j < |sent| && sent[j].index.Some? ==> sent[j].index.value < p
    ensures forall j :: 0 <= j < |sent + ds| && (sent + ds)[j].index.Some? ==> (sent + ds)[j].index.value < |calls|
  {
    forall j | 0 <= j < |sent + ds| && (sent + ds)[j].index.Some?
      ensures (sent + ds)[j].index.value < |calls|
    {
      if j >= |sent| {
        assert (sent + ds)[j] == ds[j - |sent|];
      }
    }
  }

  lemma SentByStep(sent: seq<Diff>, ds: seq<Diff>, prev: Msg, new_: Msg)
    requires Extends(prev, new_) && Diffs(prev, new_) == Ok(ds)
    requires forall i :: 0 <= i < |prev.calls| ==>
             new_.calls[i].id == prev.calls[i].id && new_.calls[i].name == prev.calls[i].name
    requires forall i :: 0 <= i < |prev.calls| ==> SentOnce(sent, i, prev.calls[i])
    requires forall j :: 0 <= j < |sent| && sent[j].index.Some? ==> sent[j].index.value < |prev.calls|
    ensures forall i :: 0 <= i < |new_.calls| ==> SentOnce(sent + ds, i, new_.calls[i])
    ensures forall j :: 0 <= j < |sent + ds| && (sent + ds)[j].index.Some? ==> (sent + ds)[j].index.value < |new_.calls|
  {
    hide NewCallsLast, SentOnce, Diffs;
    var p := |prev.calls|;
    StepDiffs(prev, new_);
    hide Extends;
    IndicesBelow(sent, ds, p, new_.calls);
    forall i | 0 <= i < |new_.calls|
      ensures SentOnce(sent + ds, i, new_.calls[i])
    {
      if i < p {
        StillSent(sent, ds, p, new_.calls, i, prev.calls[i]);
      } else {
        NewlySent(sent, ds, p, new_.calls, i);
      }
    }
  }

  lemma StepKeepsGood(s: State, sent: seq<Diff>, last: Msg, parsed: Msg, gen: Generator)
    requires Good(s, sent, last) && RawExtends(last, parsed) && NeverEmpty(gen)
    ensures Update(s, parsed, gen).Ok?
    ensures var (s', ds) := Update(s, parsed, gen).value; Good(s', sent + ds, parsed) && s.cache.ids <= s'.cache.ids
  {
    hide Diffs, Filled, Extends, SentOnce, Fold, Labelled;
    if parsed == EMPTY {
      assert sent + [] == sent && last == EMPTY;
    } else {
      var next := Stored(s, parsed, gen);
      StoredIs(s, last, parsed, gen);
      AddsUpIff(s.chat, next.chat);
      var ds := Diffs(s.chat, next.chat).value;
      FoldConcat(EMPTY, sent, ds);
      SentByStep(sent, ds, s.chat, next.chat);
    }
  }

  /** The message as stored, with the ids of the cache. */
  lemma StoredIs(s: State, last: Msg, parsed: Msg, gen: Generator)
    requires |s.cache.ids| == |last.calls| && s.chat == Labelled(last, s.cache.ids)
    requires (forall i :: 0 <= i < |s.cache.ids| ==> s.cache.ids[i] != "") && RawExtends(last, parsed)
             && NeverEmpty(gen)
    ensures var next := Stored(s, parsed, gen);
            && s.cache.ids <= next.cache.ids && |next.cache.ids| == |parsed.calls|
            && next.chat == Labelled(parsed, next.cache.ids)
            && (forall i :: 0 <= i < |next.cache.ids| ==> next.cache.ids[i] != "")
            && Extends(s.chat, next.chat)
            && forall i :: 0 <= i < |s.chat.calls| ==>
                 next.chat.calls[i].id == s.chat.calls[i].id && next.chat.calls[i].name == s.chat.calls[i].name
  {
    hide Extends;
    var cache := Filled(s.cache, parsed.calls, |parsed.calls|, gen);
    FilledSet(s.cache, parsed.calls, |parsed.calls|, gen);
    LabelledExtends(last, parsed, s.cache.ids, cache.ids);
  }

  /**
   A run of growing messages from one cache, with a generator that never returns an empty id: nothing
   throws, the differences add up to the last message with its ids, and each tool call's id and name
   are sent once, in the first difference for it.
   */
  lemma {:induction false} RunSendsOnce(raws: seq<Msg>, gen: Generator)
    requires RawGrowing(raws) && NeverEmpty(gen)
    ensures RunUpdates(raws, gen).Ok?
    ensures Good(RunUpdates(raws, gen).value.0, RunUpdates(raws, gen).value.1, LastOf(raws))
  {
    if raws != [] {
      var init := raws[..|raws| - 1];
      InitGrows(raws);
      RunSendsOnce(init, gen);
      var (s, ds) := RunUpdates(init, gen).value;
      LastExtends(raws);
      StepKeepsGood(s, ds, LastOf(init), raws[|raws| - 1], gen);
    }
  }

  function LastOf(raws: seq<Msg>): Msg {
    if raws == [] then EMPTY else raws[|raws| - 1]
  }

  lemma LastExtends(raws: seq<Msg>)
    requires RawGrowing(raws) && raws != []
    ensures RawExtends(LastOf(raws[..|raws| - 1]), raws[|raws| - 1])
  {
    if |raws| > 1 {
      assert raws[..|raws| - 1][|raws| - 2] == raws[|raws| - 2];
    }
  }

  lemma InitGrows(raws: seq<Msg>)
    requires RawGrowing(raws) && raws != []
    ensures RawGrowing(raws[..|raws| - 1])
  {
    var init := raws[..|raws| - 1];
    forall k | 0 < k < |init|
      ensures RawExtends(init[k - 1], init[k])
    {
      assert init[k - 1] == raws[k - 1] && init[k] == raws[k];
    }
  }

  /** What a later state keeps of an earlier one: every call's id. */
  ghost predicate KeepsIds(early: State, late: State) {
    && early.cache.ids <= late.cache.ids
    && |early.chat.calls| <= |late.chat.calls|
    && forall i :: 0 <= i < |early.chat.calls| ==> late.chat.calls[i].id == early.chat.calls[i].id != ""
  }

  lemma KeepsTransitive(a: State, b: State, c: State)
    requires KeepsIds(a, b) && KeepsIds(b, c)
    ensures KeepsIds(a, c)
  {
    forall i | 0 <= i < |a.chat.calls|
      ensures c.chat.calls[i].id == a.chat.calls[i].id != ""
    {
      assert b.chat.calls[i].id == a.chat.calls[i].id && c.chat.calls[i].id == b.chat.calls[i].id;
    }
  }

  /** An id once given stays: every later message shows the same id at that position. */
  lemma {:induction false} IdsNeverChange(raws: seq<Msg>, k: nat, gen: Generator)
    requires RawGrowing(raws) && NeverEmpty(gen) && k <= |raws|
    ensures RunUpdates(raws[..k], gen).Ok? && RunUpdates(raws, gen).Ok?
    ensures KeepsIds(RunUpdates(raws[..k], gen).value.0, RunUpdates(raws, gen).value.0)
    decreases |raws| - k
  {
    if k == |raws| {
      assert raws[..k] == raws;
      RunSendsOnce(raws, gen);
    } else {
      var next := raws[..k + 1];
      IdsNeverChange(raws, k + 1, gen);
      PrefixGrows(raws, k + 1);
      assert next[..k] == raws[..k] && |next| == k + 1;
      OneMore(next, gen);
      hide RunUpdates, KeepsIds, RawGrowing;
      KeepsTransitive(RunUpdates(raws[..k], gen).value.0, RunUpdates(next, gen).value.0, RunUpdates(raws, gen).value.0);
    }
  }

  lemma PrefixGrows(raws: seq<Msg>, k: nat)
    requires RawGrowing(raws) && k <= |raws|
    ensures RawGrowing(raws[..k])
  {
    forall j | 0 < j < k
      ensures RawExtends(raws[..k][j - 1], raws[..k][j])
    {
      assert RawExtends(raws[j - 1], raws[j]);
    }
  }

  lemma OneMore(raws: seq<Msg>, gen: Generator)
    requires raws != [] && RawGrowing(raws) && NeverEmpty(gen)
    ensures RunUpdates(raws[..|raws| - 1], gen).Ok? && RunUpdates(raws, gen).Ok?
    ensures KeepsIds(RunUpdates(raws[..|raws| - 1], gen).value.0, RunUpdates(raws, gen).value.0)
  {
    hide RawGrowing, NeverEmpty, RunUpdates, Good, Update, RawExtends;
    var init := raws[..|raws| - 1];
    InitGrows(raws);
    RunSendsOnce(init, gen);
    RunSendsOnce(raws, gen);
    LastExtends(raws);
    var (s, ds) := RunUpdates(init, gen).value;
    StepKeepsGood(s, ds, LastOf(init), raws[|raws| - 1], gen);
    LastUpdate(raws, gen);
    GoodKeepsIds(s, ds, LastOf(init), RunUpdates(raws, gen).value.0, RunUpdates(raws, gen).value.1, LastOf(raws));
  }

  lemma LastUpdate(raws: seq<Msg>, gen: Generator)
    requires raws != [] && RunUpdates(raws, gen).Ok? && RunUpdates(raws[..|raws| - 1], gen).Ok?
    ensures var (s, ds) := RunUpdates(raws[..|raws| - 1], gen).value;
            var u := Update(s, raws[|raws| - 1], gen);
            u.Ok? && RunUpdates(raws, gen).value == (u.value.0, ds + u.value.1)
  {
    hide Update;
  }

  lemma GoodKeepsIds(s: State, ds: seq<Diff>, last: Msg, t: State, es: seq<Diff>, next: Msg)
    requires Good(s, ds, last) && Good(t, es, next) && RawExtends(last, next) && s.cache.ids <= t.cache.ids
    ensures KeepsIds(s, t)
  {
    hide SentOnce, Fold;
  }
}
