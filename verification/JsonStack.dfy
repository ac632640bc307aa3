/**
 The stack of open containers that the error locator of common/json-partial.cpp keeps from parser
 events, and what it looks like whenever a parser may stop.
 */
module JsonStack {
  import opened Wrappers
  import opened JsonValue
  import opened JsonScanner

  datatype Entry = OBJECT | KEY(key: string) | ARRAY

  datatype Event =
    | Scalar
    | Key(key: string)
    | StartObject
    | EndObject
    | StartArray
    | EndArray

  // ---------------------------------------------------------------- the callbacks

  function CloseValue(stack: seq<Entry>): seq<Entry> {
    if stack != [] && stack[|stack| - 1].KEY? then stack[..|stack| - 1] else stack
  }

  /** The two assertions of the end callbacks. */
  predicate Allowed(stack: seq<Entry>, e: Event) {
    match e
    case EndObject => stack != [] && stack[|stack| - 1] == OBJECT
    case EndArray => stack != [] && stack[|stack| - 1] == ARRAY
    case _ => true
  }

  function Apply(stack: seq<Entry>, e: Event): seq<Entry>
    requires Allowed(stack, e)
  {
    match e
    case Scalar => CloseValue(stack)
    case Key(key) => stack + [KEY(key)]
    case StartObject => stack + [OBJECT]
    case StartArray => stack + [ARRAY]
    case EndObject => CloseValue(stack[..|stack| - 1])
    case EndArray => CloseValue(stack[..|stack| - 1])
  }

  /** The stack after all events, or None when an assertion fails on the way. */
  function ApplyAll(stack: seq<Entry>, events: seq<Event>): Option<seq<Entry>>
    decreases |events|
  {
    if events == [] then Some(stack)
    else if !Allowed(stack, events[0]) then None
    else ApplyAll(Apply(stack, events[0]), events[1..])
  }

  class ErrorLocator {
    var stack: seq<Entry>
    var position: nat
    var foundError: bool

    constructor ()
      ensures stack == [] && !foundError
    {
      stack, position, foundError := [], 0, false;
    }

    method OnCloseValue()
      modifies `stack
      ensures stack == CloseValue(old(stack))
    {
      if stack != [] && stack[|stack| - 1].KEY? {
        stack := stack[..|stack| - 1];
      }
    }

    method OnEvent(e: Event)
      requires Allowed(stack, e)
      modifies `stack
      ensures stack == Apply(old(stack), e)
    {
      match e
      case Scalar => OnCloseValue();
      case Key(key) => stack := stack + [KEY(key)];
      case StartObject => stack := stack + [OBJECT];
      case StartArray => stack := stack + [ARRAY];
      case EndObject => stack := stack[..|stack| - 1]; OnCloseValue();
      case EndArray => stack := stack[..|stack| - 1]; OnCloseValue();
    }

    method OnParseError(at: nat)
      modifies `position, `foundError
      ensures position == at && foundError
    {
      position, foundError := at, true;
    }
  }

  // ---------------------------------------------------------------- events of a whole value

  /** The events a parser emits for a value. */
  function Events(v: Json): seq<Event>
    decreases v, 1
  {
    match v
    case Array(items) => [StartArray] + ItemEvents(items) + [EndArray]
    case Object(members) => [StartObject] + MemberEvents(members) + [EndObject]
    case _ => [Scalar]
  }

  function ItemEvents(items: seq<Json>): seq<Event>
    decreases items, 0
  {
    if items == [] then [] else Events(items[0]) + ItemEvents(items[1..])
  }

  function MemberEvents(members: seq<Member>): seq<Event>
    decreases members, 0
  {
    if members == [] then []
    else
      assert members[0] in members;
      [Key(members[0].key)] + Events(members[0].value) + MemberEvents(members[1..])
  }

  /** A key entry sits on an object; everything else sits on nothing, a key or an array. */
  predicate WellStacked(stack: seq<Entry>) {
    forall i :: 0 <= i < |stack| ==> WellSeated(stack, i)
  }

  predicate WellSeated(stack: seq<Entry>, i: nat)
    requires i < |stack|
  {
    if stack[i].KEY? then i > 0 && stack[i - 1] == OBJECT
    else i == 0 || stack[i - 1].KEY? || stack[i - 1] == ARRAY
  }

  /** A value may start here. */
  predicate ValueMayStart(stack: seq<Entry>) {
    stack == [] || stack[|stack| - 1] != OBJECT
  }

  lemma {:induction false} ApplyConcat(stack: seq<Entry>, a: seq<Event>, b: seq<Event>)
    ensures ApplyAll(stack, a + b) == match ApplyAll(stack, a) case None => None case Some(s) => ApplyAll(s, b)
    decreases |a|
  {
    if a == [] {
      assert a + b == b;
    } else if Allowed(stack, a[0]) {
      assert (a + b)[1..] == a[1..] + b;
      ApplyConcat(Apply(stack, a[0]), a[1..], b);
    }
  }

  /** After events `p` above `base`: no assertion failed and the stack is in order and holds `base`. */
  ghost predicate RunsAbove(base: seq<Entry>, p: seq<Event>) {
    var r := ApplyAll(base, p);
    r.Some? && WellStacked(r.value) && base <= r.value
  }

  lemma PrefixOfConcat<T>(p: seq<T>, a: seq<T>, b: seq<T>)
    requires p <= a + b
    ensures p <= a || (a <= p && p == a + p[|a|..] && p[|a|..] <= b)
  {
    if |a| <= |p| {
      assert a == p[..|a|];
      assert forall i :: |a| <= i < |p| ==> p[i] == (a + b)[i];
    }
  }

  lemma ApplyOne(stack: seq<Entry>, e: Event)
    requires Allowed(stack, e)
    ensures ApplyAll(stack, [e]) == Some(Apply(stack, e))
  {
    assert [e][1..] == [];
  }

  lemma PushKeepsOrder(stack: seq<Entry>, e: Entry)
    requires WellStacked(stack)
    requires if e.KEY? then stack != [] && stack[|stack| - 1] == OBJECT else ValueMayStart(stack)
    ensures WellStacked(stack + [e])
  {
    forall i | 0 <= i <= |stack|
      ensures WellSeated(stack + [e], i)
    {
      if i < |stack| {
        assert WellSeated(stack, i);
      }
    }
  }

  lemma PrefixKeepsOrder(stack: seq<Entry>, n: nat)
    requires WellStacked(stack) && n <= |stack|
    ensures WellStacked(stack[..n])
  {
    forall i | 0 <= i < n
      ensures WellSeated(stack[..n], i)
    {
      assert WellSeated(stack, i);
    }
  }

  lemma CloseKeepsOrder(stack: seq<Entry>)
    requires WellStacked(stack)
    ensures WellStacked(CloseValue(stack))
  {
    if stack != [] {
      PrefixKeepsOrder(stack, |stack| - 1);
    }
  }

  /** After the opening event of a container and events `q` inside it. */
  lemma InsideContainer(base: seq<Entry>, opener: Event, q: seq<Event>)
    requires opener == StartArray || opener == StartObject
    requires RunsAbove(Apply(base, opener), q)
    ensures RunsAbove(base, [opener] + q) && |base| < |ApplyAll(base, [opener] + q).value|
  {
    ApplyOne(base, opener);
    ApplyConcat(base, [opener], q);
    hide ApplyAll, WellStacked;
    var s := ApplyAll(base, [opener] + q).value;
    assert Apply(base, opener) <= s && base <= Apply(base, opener);
  }

  /** After all events of a container. */
  lemma ClosedContainer(base: seq<Entry>, opener: Event, inner: seq<Event>, closer: Event)
    requires (opener == StartArray && closer == EndArray) || (opener == StartObject && closer == EndObject)
    requires ApplyAll(Apply(base, opener), inner) == Some(Apply(base, opener))
    ensures ApplyAll(base, [opener] + inner + [closer]) == Some(CloseValue(base))
  {
    ApplyOne(base, opener);
    ApplyConcat(base, [opener], inner);
    ApplyConcat(base, [opener] + inner, [closer]);
    ApplyOne(Apply(base, opener), closer);
    assert Apply(base, opener)[..|base|] == base;
  }

  /** Where the events of a container may stop. */
  lemma SplitContainer(p: seq<Event>, opener: Event, inner: seq<Event>, closer: Event)
    requires p <= [opener] + inner + [closer]
    ensures p == [] || p == [opener] + inner + [closer] || (p == [opener] + p[1..] && p[1..] <= inner)
  {
    var all := [opener] + inner + [closer];
    assert p == all[..|p|];
    if 0 < |p| <= 1 + |inner| {
      assert p[1..] == inner[..|p| - 1];
    }
  }

  /**
   Inside a value: no assertion fails, the stack stays in order, and it is longer than before
   the value started until the value is complete, when it is as before without the value's key.
   */
  lemma {:induction false} ValueRuns(v: Json, base: seq<Entry>, p: seq<Event>)
    requires p <= Events(v) && WellStacked(base) && ValueMayStart(base)
    ensures ApplyAll(base, p).Some? && WellStacked(ApplyAll(base, p).value)
    ensures p == Events(v) ==> ApplyAll(base, p).value == CloseValue(base)
    ensures p != Events(v) ==> base <= ApplyAll(base, p).value && (p != [] ==> |base| < |ApplyAll(base, p).value|)
    decreases v, 1
  {
    CloseKeepsOrder(base);
    match v
    case Array(items) =>
      var inner := ItemEvents(items);
      PushKeepsOrder(base, ARRAY);
      SplitContainer(p, StartArray, inner, EndArray);
      ItemsRun(items, base + [ARRAY], inner);
      ClosedContainer(base, StartArray, inner, EndArray);
      if p != [] && p != Events(v) {
        ItemsRun(items, base + [ARRAY], p[1..]);
        InsideContainer(base, StartArray, p[1..]);
      }
    case Object(members) =>
      var inner := MemberEvents(members);
      PushKeepsOrder(base, OBJECT);
      SplitContainer(p, StartObject, inner, EndObject);
      MembersRun(members, base + [OBJECT], inner);
      ClosedContainer(base, StartObject, inner, EndObject);
      if p != [] && p != Events(v) {
        MembersRun(members, base + [OBJECT], p[1..]);
        InsideContainer(base, StartObject, p[1..]);
      }
    case _ =>
      if p != [] {
        assert p == [Scalar];
        ApplyOne(base, Scalar);
      }
  }

  lemma {:induction false} ItemsRun(items: seq<Json>, base: seq<Entry>, p: seq<Event>)
    requires p <= ItemEvents(items) && WellStacked(base) && base != [] && base[|base| - 1] == ARRAY
    ensures RunsAbove(base, p)
    ensures p == ItemEvents(items) ==> ApplyAll(base, p).value == base
    decreases items, 0
  {
    if items != [] {
      var first, rest := Events(items[0]), ItemEvents(items[1..]);
      PrefixOfConcat(p, first, rest);
      if p <= first && p != first {
        ValueRuns(items[0], base, p);
      } else {
        ValueRuns(items[0], base, first);
        var q := p[|first|..];
        assert p == first + q;
        ItemsRun(items[1..], base, q);
        ApplyConcat(base, first, q);
      }
    }
  }

  lemma {:induction false} MembersRun(members: seq<Member>, base: seq<Entry>, p: seq<Event>)
    requires p <= MemberEvents(members) && WellStacked(base) && base != [] && base[|base| - 1] == OBJECT
    ensures RunsAbove(base, p)
    ensures p == MemberEvents(members) ==> ApplyAll(base, p).value == base
    decreases members, 0
  {
    if members != [] && p != [] {
      assert members[0] in members;
      var k, first, rest := Key(members[0].key), Events(members[0].value), MemberEvents(members[1..]);
      assert MemberEvents(members) == [k] + (first + rest);
      assert p[0] == k;
      var keyed, p1 := base + [KEY(members[0].key)], p[1..];
      assert p1 <= first + rest;
      PushKeepsOrder(base, KEY(members[0].key));
      PrefixOfConcat(p1, first, rest);
      if p1 <= first && p1 != first {
        ValueRuns(members[0].value, keyed, p1);
      } else {
        ValueRuns(members[0].value, keyed, first);
        assert CloseValue(keyed) == base;
        var q := p1[|first|..];
        assert p1 == first + q;
        MembersRun(members[1..], base, q);
        ApplyConcat(keyed, first, q);
      }
    }
  }

  /**
   For every value and every point where its event stream may stop: the assertions hold, keys sit
   on objects and containers on keys or arrays, and the stack is empty exactly before the value
   starts and after it is complete.
   */
  lemma ParserStack(v: Json, p: seq<Event>)
    requires p <= Events(v)
    ensures ApplyAll([], p).Some? && WellStacked(ApplyAll([], p).value)
    ensures ApplyAll([], p).value == [] <==> p == [] || p == Events(v)
  {
    ValueRuns(v, [], p);
  }

  // ---------------------------------------------------------------- events of a scan

  /** The entries for the open containers, outermost first. */
  function StackOf(f: Frames): seq<Entry> {
    match f
    case Bottom => []
    case InArray(_, below) => StackOf(below) + [ARRAY]
    case InObject(_, below) => StackOf(below) + [OBJECT]
    case InMember(_, key, below) => StackOf(below) + [OBJECT, KEY(key)]
  }

  /** The event for a character after a complete value. */
  function EventsAfter(c: char): seq<Event> {
    if c == ']' then [EndArray] else if c == '}' then [EndObject] else []
  }

  /** The events that reading `c` in state `st` sets off. */
  function StepEvents(st: State, c: char): seq<Event> {
    match st.mode
    case WantValue => if c == '[' then [StartArray] else if c == '{' then [StartObject] else []
    case FirstItem => if c == '[' then [StartArray] else if c == '{' then [StartObject] else EventsAfter(c)
    case FirstKey => EventsAfter(c)
    case AfterValue => EventsAfter(c)
    case InString(isKey, s) => if c != '\"' then [] else if isKey then [Key(s)] else [Scalar]
    case InLiteral(rest, _) => if |rest| == 1 then [Scalar] else []
    case InNumber(_, phase) => if NextPhase(phase, c).Some? then [] else [Scalar] + EventsAfter(c)
    case _ => []
  }

  lemma CloseReady(f: Frames)
    requires Ready(f) && Stacked(f)
    ensures CloseValue(StackOf(f)) == StackOf(Deliver(f, Null).frames)
    ensures forall v :: StackOf(Deliver(f, v).frames) == StackOf(Deliver(f, Null).frames)
  {
    if f.InMember? {
      assert (StackOf(f.below) + [OBJECT, KEY(f.key)])[..|StackOf(f)| - 1] == StackOf(f.below) + [OBJECT];
    }
  }

  /** A bracket closes the innermost container. */
  lemma CloseContainer(f: Frames, v: Json)
    requires Stacked(f) && (f.InArray? || f.InObject?)
    ensures ApplyAll(StackOf(f), [if f.InArray? then EndArray else EndObject])
            == Some(StackOf(Deliver(f.below, v).frames))
  {
    ApplyOne(StackOf(f), if f.InArray? then EndArray else EndObject);
    assert StackOf(f)[..|StackOf(f)| - 1] == StackOf(f.below);
    CloseReady(f.below);
  }

  lemma AfterFollows(st: State, c: char)
    requires WellFormed(st) && (st.mode.AfterValue? || st.mode.Done?) && StepAfter(st, c).Some?
    ensures ApplyAll(StackOf(st.frames), EventsAfter(c)) == Some(StackOf(StepAfter(st, c).value.frames))
  {
    if c == ']' {
      CloseContainer(st.frames, Array(st.frames.items));
    } else if c == '}' {
      CloseContainer(st.frames, Object(st.frames.members));
    }
  }

  /** The locator's stack follows the scan: it always is the entries of the open containers. */
  lemma StackFollows(st: State, c: char)
    requires WellFormed(st) && Step(st, c).Some?
    ensures ApplyAll(StackOf(st.frames), StepEvents(st, c)) == Some(StackOf(Step(st, c).value.frames))
  {
    var f, stack := st.frames, StackOf(st.frames);
    match st.mode
    case WantValue => if c == '[' { ApplyOne(stack, StartArray); } else if c == '{' { ApplyOne(stack, StartObject); }
    case FirstItem =>
      if c == '[' { ApplyOne(stack, StartArray); }
      else if c == '{' { ApplyOne(stack, StartObject); }
      else if c == ']' { CloseContainer(f, Array([])); }
    case FirstKey => if c == '}' { CloseContainer(f, Object([])); }
    case AfterValue => AfterFollows(st, c);
    case Done(_) => AfterFollows(st, c);
    case InString(isKey, s) =>
      if c == '\"' {
        ApplyOne(stack, if isKey then Key(s) else Scalar);
        if isKey {
          assert StackOf(f.below) + [OBJECT] + [KEY(s)] == StackOf(f.below) + [OBJECT, KEY(s)];
        } else {
          CloseReady(f);
        }
      }
    case InLiteral(rest, v) => if |rest| == 1 { ApplyOne(stack, Scalar); CloseReady(f); }
    case InNumber(text, phase) =>
      if NextPhase(phase, c).None? {
        CloseReady(f);
        ApplyOne(stack, Scalar);
        AfterFollows(Deliver(f, Number(text)), c);
        ApplyConcat(stack, [Scalar], EventsAfter(c));
      }
    case _ =>
  }
}
