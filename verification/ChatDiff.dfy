/**
 Differences between successive versions of a streamed chat message (common/chat.cpp), and what a
 client that adds them up ends with.
 */
module ChatDiff {
  import opened Wrappers

  datatype Call = Call(name: string, arguments: string, id: string)

  datatype Msg = Msg(reasoning: string, content: string, calls: seq<Call>)

  datatype Diff = Diff(reasoning: string, content: string, index: Option<nat>, call: Call)

  datatype Error = NotAnExtension(last: string, current: string) | FewerCalls | CallMismatch

  const NO_CALL := Call("", "", "")

  function StringDiff(last: string, current: string): Result<string, Error> {
    if last == "" then Ok(current)
    else if !(last <= current) then (if current <= last then Ok("") else Err(NotAnExtension(last, current)))
    else Ok(current[|last|..])
  }

  // ---------------------------------------------------------------- the differences, in order

  function ReasoningDiffs(prev: Msg, new_: Msg): Result<seq<Diff>, Error> {
    if prev.reasoning == new_.reasoning then Ok([])
    else match StringDiff(prev.reasoning, new_.reasoning)
      case Err(e) => Err(e)
      case Ok(d) => Ok([Diff(d, "", None, NO_CALL)])
  }

  function ContentDiffs(prev: Msg, new_: Msg): Result<seq<Diff>, Error> {
    if prev.content == new_.content then Ok([])
    else match StringDiff(prev.content, new_.content)
      case Err(e) => Err(e)
      case Ok(d) => Ok([Diff("", d, None, NO_CALL)])
  }

  /** The last tool call that was there before: the only one that is compared. */
  function LastCallDiffs(prev: Msg, new_: Msg): Result<seq<Diff>, Error>
    requires |prev.calls| <= |new_.calls|
  {
    if prev.calls == [] then Ok([])
    else
      var i := |prev.calls| - 1;
      var p, c := prev.calls[i], new_.calls[i];
      if p.name != c.name then Err(CallMismatch)
      else match StringDiff(p.arguments, c.arguments)
        case Err(e) => Err(e)
        case Ok(d) =>
          if d == "" && p.id == c.id then Ok([])
          else Ok([Diff("", "", Some(i), if p.id != c.id then Call(c.name, d, c.id) else Call("", d, ""))])
  }

  /** One difference for each tool call from position `i` on. */
  function NewCallDiffs(calls: seq<Call>, i: nat): (r: seq<Diff>)
    requires i <= |calls|
    ensures |r| == |calls| - i && forall k :: 0 <= k < |r| ==> r[k] == Diff("", "", Some(i + k), calls[i + k])
    decreases |calls| - i
  {
    if i == |calls| then [] else [Diff("", "", Some(i), calls[i])] + NewCallDiffs(calls, i + 1)
  }

  function Diffs(prev: Msg, new_: Msg): Result<seq<Diff>, Error> {
    match (ReasoningDiffs(prev, new_), ContentDiffs(prev, new_))
    case (Err(e), _) => Err(e)
    case (Ok(_), Err(e)) => Err(e)
    case (Ok(r), Ok(c)) =>
      if |new_.calls| < |prev.calls| then Err(FewerCalls)
      else match LastCallDiffs(prev, new_)
        case Err(e) => Err(e)
        case Ok(l) => Ok(r + c + l + NewCallDiffs(new_.calls, |prev.calls|))
  }

  /** compute_diffs. */
  method ComputeDiffs(prev: Msg, new_: Msg) returns (r: Result<seq<Diff>, Error>)
    ensures r == Diffs(prev, new_)
  {
    hide StringDiff;
    var diffs: seq<Diff> := [];
    if prev.reasoning != new_.reasoning {
      var d := StringDiff(prev.reasoning, new_.reasoning);
      if d.Err? {
        return Err(d.error);
      }
      diffs := diffs + [Diff(d.value, "", None, NO_CALL)];
      assert diffs == [Diff(d.value, "", None, NO_CALL)];
    }
    assert ReasoningDiffs(prev, new_) == Ok(diffs);
    ghost var texts := diffs;
    if prev.content != new_.content {
      var d := StringDiff(prev.content, new_.content);
      if d.Err? {
        return Err(d.error);
      }
      diffs := diffs + [Diff("", d.value, None, NO_CALL)];
    }
    if |new_.calls| < |prev.calls| {
      return Err(FewerCalls);
    }
    assert ContentDiffs(prev, new_).Ok? && diffs == texts + ContentDiffs(prev, new_).value;
    texts := diffs;
    if prev.calls != [] {
      var idx := |prev.calls| - 1;
      var pref, newf := prev.calls[idx], new_.calls[idx];
      if pref.name != newf.name {
        return Err(CallMismatch);
      }
      var argsDiff := StringDiff(pref.arguments, newf.arguments);
      if argsDiff.Err? {
        return Err(argsDiff.error);
      }
      if argsDiff.value != "" || pref.id != newf.id {
        var diff := Diff("", "", Some(idx), NO_CALL);
        if pref.id != newf.id {
          diff := diff.(call := Call(newf.name, "", newf.id));
        }
        diff := diff.(call := diff.call.(arguments := argsDiff.value));
        diffs := diffs + [diff];
      }
    }
    assert LastCallDiffs(prev, new_).Ok? && diffs == texts + LastCallDiffs(prev, new_).value;
    var idx := |prev.calls|;
    hide LastCallDiffs, ContentDiffs, ReasoningDiffs;
    while idx < |new_.calls|
      invariant |prev.calls| <= idx <= |new_.calls|
      invariant Diffs(prev, new_) == Ok(diffs + NewCallDiffs(new_.calls, idx))
    {
      assert diffs + NewCallDiffs(new_.calls, idx)
          == diffs + [Diff("", "", Some(idx), new_.calls[idx])] + NewCallDiffs(new_.calls, idx + 1);
      diffs := diffs + [Diff("", "", Some(idx), new_.calls[idx])];
      idx := idx + 1;
    }
    assert diffs + [] == diffs;
    return Ok(diffs);
  }

  // ---------------------------------------------------------------- the client

  function Updated(c: Call, delta: Call): Call {
    Call(if delta.name != "" then delta.name else c.name, c.arguments + delta.arguments,
         if delta.id != "" then delta.id else c.id)
  }

  /** A client adds text to text, starts a tool call at its first difference, and fills in what later ones carry. */
  function Apply(m: Msg, d: Diff): Msg {
    var calls :=
      if d.index.None? || d.index.value > |m.calls| then m.calls
      else if d.index.value == |m.calls| then m.calls + [d.call]
      else m.calls[d.index.value := Updated(m.calls[d.index.value], d.call)];
    Msg(m.reasoning + d.reasoning, m.content + d.content, calls)
  }

  function Fold(m: Msg, ds: seq<Diff>): Msg
    decreases |ds|
  {
    if ds == [] then m else Fold(Apply(m, ds[0]), ds[1..])
  }

  lemma {:induction false} FoldConcat(m: Msg, a: seq<Diff>, b: seq<Diff>)
    ensures Fold(m, a + b) == Fold(Fold(m, a), b)
    decreases |a|
  {
    if a == [] {
      assert a + b == b;
    } else {
      assert (a + b)[0] == a[0] && (a + b)[1..] == a[1..] + b;
      FoldConcat(Apply(m, a[0]), a[1..], b);
    }
  }

  // ---------------------------------------------------------------- when adding up works

  predicate CallExtends(p: Call, c: Call) {
    p.name == c.name && p.arguments <= c.arguments && (c.id == p.id || c.id != "")
  }

  /** Text only grows, earlier tool calls stay, and the last one only grows; its id is not taken away. */
  predicate Extends(prev: Msg, new_: Msg) {
    && prev.reasoning <= new_.reasoning && prev.content <= new_.content
    && |prev.calls| <= |new_.calls|
    && (forall i :: 0 <= i < |prev.calls| - 1 ==> new_.calls[i] == prev.calls[i])
    && (prev.calls != [] ==> CallExtends(prev.calls[|prev.calls| - 1], new_.calls[|prev.calls| - 1]))
  }

  predicate Comparable(a: string, b: string) {
    a <= b || b <= a
  }

  /** What a client holds that has `last` and is told about `current`: text that got shorter stays. */
  function Held(last: string, current: string): string {
    if last <= current then current else last
  }

  lemma StringDiffIs(last: string, current: string)
    ensures StringDiff(last, current).Ok? <==> Comparable(last, current)
    ensures StringDiff(last, current).Ok? ==> last + StringDiff(last, current).value == Held(last, current)
  {
    if !(last <= current) {
      assert last + "" == last;
    }
  }

  /** When compute_diffs throws: it compares texts, the number of calls, and the last call that was there. */
  lemma ThrowsWhen(prev: Msg, new_: Msg)
    ensures Diffs(prev, new_).Ok? <==>
            && Comparable(prev.reasoning, new_.reasoning) && Comparable(prev.content, new_.content)
            && |prev.calls| <= |new_.calls|
            && (prev.calls != [] ==>
                  var p, c := prev.calls[|prev.calls| - 1], new_.calls[|prev.calls| - 1];
                  p.name == c.name && Comparable(p.arguments, c.arguments))
  {
    StringDiffIs(prev.reasoning, new_.reasoning);
    StringDiffIs(prev.content, new_.content);
    if prev.calls != [] && |prev.calls| <= |new_.calls| {
      StringDiffIs(prev.calls[|prev.calls| - 1].arguments, new_.calls[|prev.calls| - 1].arguments);
    }
    hide StringDiff, Comparable;
  }

  lemma FoldText(m: Msg, prev: Msg, new_: Msg)
    requires ReasoningDiffs(prev, new_).Ok? && ContentDiffs(prev, new_).Ok? && m == prev
    ensures Fold(m, ReasoningDiffs(prev, new_).value + ContentDiffs(prev, new_).value)
            == Msg(Held(prev.reasoning, new_.reasoning), Held(prev.content, new_.content), prev.calls)
  {
    var r, c := ReasoningDiffs(prev, new_).value, ContentDiffs(prev, new_).value;
    StringDiffIs(prev.reasoning, new_.reasoning);
    StringDiffIs(prev.content, new_.content);
    FoldConcat(m, r, c);
    FoldOne(m, r);
    FoldOne(Fold(m, r), c);
    hide StringDiff, Fold;
    assert prev.reasoning + "" == prev.reasoning && prev.content + "" == prev.content;
    assert Held(prev.reasoning, new_.reasoning) + "" == Held(prev.reasoning, new_.reasoning);
  }

  lemma FoldOne(m: Msg, ds: seq<Diff>)
    requires |ds| <= 1
    ensures Fold(m, ds) == if ds == [] then m else Apply(m, ds[0])
  {
    if ds != [] {
      assert ds[1..] == [];
    }
  }

  /** The last old call as a client holds it: its name, its arguments, and the latest id that was sent. */
  function HeldCall(p: Call, c: Call): Call {
    Call(p.name, Held(p.arguments, c.arguments), if c.id != "" then c.id else p.id)
  }

  /** After the last old call: everything but that call is as before. */
  lemma FoldLastCall(m: Msg, prev: Msg, new_: Msg)
    requires |prev.calls| <= |new_.calls| && LastCallDiffs(prev, new_).Ok? && m.calls == prev.calls
    ensures var n := |prev.calls| - 1;
            Fold(m, LastCallDiffs(prev, new_).value)
            == if n < 0 then m else m.(calls := m.calls[n := HeldCall(prev.calls[n], new_.calls[n])])
  {
    var ds := LastCallDiffs(prev, new_).value;
    FoldOne(m, ds);
    assert m.reasoning + "" == m.reasoning && m.content + "" == m.content;
    if prev.calls != [] {
      var p, c := prev.calls[|prev.calls| - 1], new_.calls[|prev.calls| - 1];
      StringDiffIs(p.arguments, c.arguments);
      hide StringDiff, Fold, Held;
      assert p.arguments + "" == p.arguments;
      assert m.calls[|prev.calls| - 1 := p] == m.calls;
    }
  }

  lemma {:induction false} FoldNewCalls(m: Msg, calls: seq<Call>, i: nat)
    requires i == |m.calls| <= |calls|
    ensures Fold(m, NewCallDiffs(calls, i)) == Msg(m.reasoning, m.content, m.calls + calls[i..])
    decreases |calls| - i
  {
    hide Fold, Apply;
    if i == |calls| {
      assert calls[i..] == [] && m.calls + [] == m.calls;
      FoldNothing(m);
    } else {
      var d, rest, next := Diff("", "", Some(i), calls[i]), NewCallDiffs(calls, i + 1),
          Msg(m.reasoning, m.content, m.calls + [calls[i]]);
      FoldFront(m, d, rest);
      ApplyNewCall(m, calls[i]);
      FoldNewCalls(next, calls, i + 1);
      AppendSuffix(m.calls, calls, i);
    }
  }

  lemma FoldNothing(m: Msg)
    ensures Fold(m, []) == m
  {
  }

  lemma FoldFront(m: Msg, d: Diff, rest: seq<Diff>)
    ensures Fold(m, [d] + rest) == Fold(Apply(m, d), rest)
  {
    assert ([d] + rest)[1..] == rest;
  }

  lemma AppendSuffix(before: seq<Call>, calls: seq<Call>, i: nat)
    requires i < |calls|
    ensures before + [calls[i]] + calls[i + 1..] == before + calls[i..]
  {
  }

  lemma ApplyNewCall(m: Msg, c: Call)
    ensures Apply(m, Diff("", "", Some(|m.calls|), c)) == Msg(m.reasoning, m.content, m.calls + [c])
  {
    assert m.reasoning + "" == m.reasoning && m.content + "" == m.content;
  }

  /**
   What a client holds whenever nothing throws: each text is the new one if it grew and else the old
   one, calls before the last old one stay as they were, that one's arguments and id are brought up
   to date in the same way, and new calls are added.
   */
  lemma FoldedMessage(prev: Msg, new_: Msg)
    requires Diffs(prev, new_).Ok?
    ensures |prev.calls| <= |new_.calls|
    ensures var f, n := Fold(prev, Diffs(prev, new_).value), |prev.calls|;
            && f.reasoning == (if prev.reasoning <= new_.reasoning then new_.reasoning else prev.reasoning)
            && f.content == (if prev.content <= new_.content then new_.content else prev.content)
            && |f.calls| == |new_.calls|
            && (forall i :: 0 <= i < n - 1 ==> f.calls[i] == prev.calls[i])
            && (n > 0 ==>
                  var p, c, l := prev.calls[n - 1], new_.calls[n - 1], f.calls[n - 1];
                  && l.name == p.name == c.name
                  && l.arguments == (if p.arguments <= c.arguments then c.arguments else p.arguments)
                  && l.id == (if c.id != "" then c.id else p.id))
            && (forall i :: n <= i < |f.calls| ==> f.calls[i] == new_.calls[i])
  {
    hide Fold, Diffs, LastCallDiffs, ReasoningDiffs, ContentDiffs, NewCallDiffs, StringDiff;
    DiffsAre(prev, new_);
    SameName(prev, new_);
    FoldedIs(prev, new_);
  }

  /** The calls a client holds of those it had before. */
  function HeldCalls(prev: Msg, new_: Msg): seq<Call>
    requires |prev.calls| <= |new_.calls|
  {
    var n := |prev.calls| - 1;
    if n < 0 then [] else prev.calls[n := HeldCall(prev.calls[n], new_.calls[n])]
  }

  lemma FoldedIs(prev: Msg, new_: Msg)
    requires Diffs(prev, new_).Ok?
    ensures |prev.calls| <= |new_.calls|
    ensures Fold(prev, Diffs(prev, new_).value)
            == Msg(Held(prev.reasoning, new_.reasoning), Held(prev.content, new_.content),
                   HeldCalls(prev, new_) + new_.calls[|prev.calls|..])
  {
    hide Fold, Diffs, LastCallDiffs, ReasoningDiffs, ContentDiffs, NewCallDiffs, StringDiff, Held, HeldCall;
    DiffsAre(prev, new_);
    var r, c := ReasoningDiffs(prev, new_).value, ContentDiffs(prev, new_).value;
    var l, n := LastCallDiffs(prev, new_).value, NewCallDiffs(new_.calls, |prev.calls|);
    FoldText(prev, prev, new_);
    var m1 := Fold(prev, r + c);
    FoldLastCall(m1, prev, new_);
    FoldNewCalls(Fold(m1, l), new_.calls, |prev.calls|);
    FoldConcat(prev, r + c, l);
    FoldConcat(prev, r + c + l, n);
  }

  lemma SameName(prev: Msg, new_: Msg)
    requires Diffs(prev, new_).Ok?
    ensures |prev.calls| <= |new_.calls|
    ensures prev.calls != [] ==> prev.calls[|prev.calls| - 1].name == new_.calls[|prev.calls| - 1].name
  {
  }

  lemma DiffsAre(prev: Msg, new_: Msg)
    requires Diffs(prev, new_).Ok?
    ensures ReasoningDiffs(prev, new_).Ok? && ContentDiffs(prev, new_).Ok?
    ensures |prev.calls| <= |new_.calls| && LastCallDiffs(prev, new_).Ok?
    ensures Diffs(prev, new_).value
            == ReasoningDiffs(prev, new_).value + ContentDiffs(prev, new_).value + LastCallDiffs(prev, new_).value
               + NewCallDiffs(new_.calls, |prev.calls|)
  {
  }

  /** What is new in a text: nothing if it does not begin with the old one. */
  function Added(last: string, current: string): string {
    if last <= current then current[|last|..] else ""
  }

  function ReasoningCount(prev: Msg, new_: Msg): nat {
    if prev.reasoning == new_.reasoning then 0 else 1
  }

  function ContentCount(prev: Msg, new_: Msg): nat {
    if prev.content == new_.content then 0 else 1
  }

  function LastCallCount(prev: Msg, new_: Msg): nat
    requires |prev.calls| <= |new_.calls|
  {
    var n := |prev.calls| - 1;
    if n >= 0 && (Added(prev.calls[n].arguments, new_.calls[n].arguments) != "" || prev.calls[n].id != new_.calls[n].id)
    then 1 else 0
  }

  /** What is sent of the last old call: what is new in its arguments, and its name only with a changed id. */
  function LastCallSent(p: Call, q: Call): Call {
    Call(if p.id != q.id then q.name else "", Added(p.arguments, q.arguments), if p.id != q.id then q.id else "")
  }

  /**
   The differences themselves: one for the reasoning if it changed, one for the content if it changed,
   one for the last old call if its arguments grew or its id changed, and one for each new call.
   */
  lemma DiffsInOrder(prev: Msg, new_: Msg)
    requires Diffs(prev, new_).Ok?
    ensures |prev.calls| <= |new_.calls|
    ensures var ds, n := Diffs(prev, new_).value, |prev.calls|;
            var r, c, l := ReasoningCount(prev, new_), ContentCount(prev, new_), LastCallCount(prev, new_);
            && |ds| == r + c + l + |new_.calls| - n
            && (r == 1 ==> ds[0] == Diff(Added(prev.reasoning, new_.reasoning), "", None, NO_CALL))
            && (c == 1 ==> ds[r] == Diff("", Added(prev.content, new_.content), None, NO_CALL))
            && (l == 1 ==>
                  && n > 0
                  && ds[r + c] == Diff("", "", Some(n - 1), LastCallSent(prev.calls[n - 1], new_.calls[n - 1])))
            && (forall k :: n <= k < |new_.calls| ==> ds[r + c + l + k - n] == Diff("", "", Some(k), new_.calls[k]))
  {
    hide *;
    DiffsParts(prev, new_);
    TextDiffsAre(prev, new_);
    LastCallDiffsAre(prev, new_);
    NewCallsAt(Diffs(prev, new_).value, new_.calls, |prev.calls|,
               ReasoningCount(prev, new_) + ContentCount(prev, new_) + LastCallCount(prev, new_));
  }

  lemma NewCallsAt(ds: seq<Diff>, calls: seq<Call>, n: nat, before: nat)
    requires n <= |calls| && |ds| == before + |NewCallDiffs(calls, n)|
    requires forall k :: 0 <= k < |NewCallDiffs(calls, n)| ==> ds[before + k] == NewCallDiffs(calls, n)[k]
    ensures |ds| == before + |calls| - n
    ensures forall k :: n <= k < |calls| ==> ds[before + k - n] == Diff("", "", Some(k), calls[k])
  {
    hide NewCallDiffs;
    NewCallDiffsAre(calls, n);
    forall k | n <= k < |calls|
      ensures ds[before + k - n] == Diff("", "", Some(k), calls[k])
    {
      assert ds[before + (k - n)] == NewCallDiffs(calls, n)[k - n];
    }
  }

  lemma DiffsParts(prev: Msg, new_: Msg)
    requires Diffs(prev, new_).Ok?
    ensures ReasoningDiffs(prev, new_).Ok? && ContentDiffs(prev, new_).Ok?
    ensures |prev.calls| <= |new_.calls| && LastCallDiffs(prev, new_).Ok?
    ensures var ds, a, b := Diffs(prev, new_).value, ReasoningDiffs(prev, new_).value, ContentDiffs(prev, new_).value;
            var c, d := LastCallDiffs(prev, new_).value, NewCallDiffs(new_.calls, |prev.calls|);
            && |ds| == |a| + |b| + |c| + |d|
            && (a != [] ==> ds[0] == a[0]) && (b != [] ==> ds[|a|] == b[0]) && (c != [] ==> ds[|a| + |b|] == c[0])
            && (forall k :: 0 <= k < |d| ==> ds[|a| + |b| + |c| + k] == d[k])
  {
    hide *;
    DiffsJoined(prev, new_);
    Joined(ReasoningDiffs(prev, new_).value, ContentDiffs(prev, new_).value, LastCallDiffs(prev, new_).value,
           NewCallDiffs(new_.calls, |prev.calls|));
  }

  function Join<T>(a: seq<T>, b: seq<T>, c: seq<T>, d: seq<T>): seq<T> {
    a + b + c + d
  }

  lemma DiffsJoined(prev: Msg, new_: Msg)
    requires Diffs(prev, new_).Ok?
    ensures ReasoningDiffs(prev, new_).Ok? && ContentDiffs(prev, new_).Ok?
    ensures |prev.calls| <= |new_.calls| && LastCallDiffs(prev, new_).Ok?
    ensures Diffs(prev, new_).value
            == Join(ReasoningDiffs(prev, new_).value, ContentDiffs(prev, new_).value, LastCallDiffs(prev, new_).value,
                    NewCallDiffs(new_.calls, |prev.calls|))
  {
  }

  lemma Joined<T>(a: seq<T>, b: seq<T>, c: seq<T>, d: seq<T>)
    ensures var all := Join(a, b, c, d);
            && |all| == |a| + |b| + |c| + |d|
            && (a != [] ==> all[0] == a[0]) && (b != [] ==> all[|a|] == b[0]) && (c != [] ==> all[|a| + |b|] == c[0])
            && (forall k :: 0 <= k < |d| ==> all[|a| + |b| + |c| + k] == d[k])
  {
  }

  lemma TextDiffsAre(prev: Msg, new_: Msg)
    requires ReasoningDiffs(prev, new_).Ok? && ContentDiffs(prev, new_).Ok?
    ensures var r, c := ReasoningDiffs(prev, new_).value, ContentDiffs(prev, new_).value;
            && |r| == ReasoningCount(prev, new_) <= 1 && |c| == ContentCount(prev, new_) <= 1
            && (r != [] ==> r[0] == Diff(Added(prev.reasoning, new_.reasoning), "", None, NO_CALL))
            && (c != [] ==> c[0] == Diff("", Added(prev.content, new_.content), None, NO_CALL))
  {
    AddedIs(prev.reasoning, new_.reasoning);
    AddedIs(prev.content, new_.content);
    hide StringDiff, Added;
  }

  lemma LastCallDiffsAre(prev: Msg, new_: Msg)
    requires |prev.calls| <= |new_.calls| && LastCallDiffs(prev, new_).Ok?
    ensures var ds, n := LastCallDiffs(prev, new_).value, |prev.calls|;
            && |ds| == LastCallCount(prev, new_) <= 1
            && (ds != [] ==>
                  && n > 0
                  && ds[0] == Diff("", "", Some(n - 1), LastCallSent(prev.calls[n - 1], new_.calls[n - 1])))
  {
    if prev.calls != [] {
      AddedIs(prev.calls[|prev.calls| - 1].arguments, new_.calls[|prev.calls| - 1].arguments);
    }
    hide StringDiff, Added;
  }

  lemma NewCallDiffsAre(calls: seq<Call>, i: nat)
    requires i <= |calls|
    ensures |NewCallDiffs(calls, i)| == |calls| - i
    ensures forall k :: i <= k < |calls| ==> NewCallDiffs(calls, i)[k - i] == Diff("", "", Some(k), calls[k])
  {
    hide NewCallDiffs;
  }

  lemma AddedIs(last: string, current: string)
    ensures StringDiff(last, current).Ok? ==> StringDiff(last, current).value == Added(last, current)
  {
  }

  /**
   The differences add up to the new message exactly when it extends the old one. (Without that
   the program may still succeed: earlier calls are never compared, and text that got shorter
   yields nothing.)
   */
  lemma AddsUpIff(prev: Msg, new_: Msg)
    ensures Diffs(prev, new_).Ok? && Fold(prev, Diffs(prev, new_).value) == new_ <==> Extends(prev, new_)
  {
    ThrowsWhen(prev, new_);
    hide Fold, Diffs;
    if Diffs(prev, new_).Ok? {
      FoldedMessage(prev, new_);
      var f := Fold(prev, Diffs(prev, new_).value);
      if Extends(prev, new_) {
        assert f.calls == new_.calls;
      }
    }
  }

  // ---------------------------------------------------------------- whole runs

  /** Each message extends the one before. */
  ghost predicate Growing(ms: seq<Msg>) {
    forall k :: 0 < k < |ms| ==> Extends(ms[k - 1], ms[k])
  }

  /** All differences of a run, one after the other. */
  function RunDiffs(ms: seq<Msg>): Result<seq<Diff>, Error> {
    if |ms| <= 1 then Ok([])
    else match RunDiffs(ms[..|ms| - 1])
      case Err(e) => Err(e)
      case Ok(ds) =>
        match Diffs(ms[|ms| - 2], ms[|ms| - 1])
        case Err(e) => Err(e)
        case Ok(d) => Ok(ds + d)
  }

  /** Over a growing run nothing throws, and the client ends with the last message. */
  lemma {:induction false} RunAddsUp(ms: seq<Msg>)
    requires ms != [] && Growing(ms)
    ensures RunDiffs(ms).Ok? && Fold(ms[0], RunDiffs(ms).value) == ms[|ms| - 1]
  {
    hide Diffs, Extends;
    if |ms| == 1 {
      FoldOne(ms[0], []);
    } else {
      var init := ms[..|ms| - 1];
      InitGrows(ms);
      RunAddsUp(init);
      AddsUpIff(ms[|ms| - 2], ms[|ms| - 1]);
      hide Fold;
      FoldConcat(ms[0], RunDiffs(init).value, Diffs(ms[|ms| - 2], ms[|ms| - 1]).value);
    }
  }

  lemma InitGrows(ms: seq<Msg>)
    requires Growing(ms) && |ms| > 1
    ensures Growing(ms[..|ms| - 1]) && Extends(ms[|ms| - 2], ms[|ms| - 1])
  {
    hide Extends;
    var init := ms[..|ms| - 1];
    forall k | 0 < k < |init|
      ensures Extends(init[k - 1], init[k])
    {
      assert init[k - 1] == ms[k - 1] && init[k] == ms[k];
    }
  }
}
