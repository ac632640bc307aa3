/**
 Scanning and dumping are inverse: a scan of a dump yields the value, and at every point of a
 compact text the state, written out, is the text read so far.
 */
module JsonRender {
  import opened JsonValue
  import opened JsonScanner
  import opened JsonTail

  // ---------------------------------------------------------------- states as text

  /** The text of the open containers up to where the next value goes. */
  function OpenText(f: Frames): string
    requires Ready(f) && Stacked(f)
  {
    match f
    case Bottom => ""
    case InArray(items, below) => OpenText(below) + "[" + ItemCommas(items)
    case InMember(members, key, below) => OpenText(below) + "{" + MemberCommas(members) + Quote(key) + ":"
  }

  /** The text of the open containers up to where the next key goes. */
  function OpenObject(members: seq<Member>, below: Frames): string
    requires Ready(below) && Stacked(below)
  {
    OpenText(below) + "{" + MemberCommas(members)
  }

  /** The text up to where a string begins. */
  function OpenPlace(f: Frames): string
    requires Stacked(f)
  {
    if f.InObject? then OpenObject(f.members, f.below) else OpenText(f)
  }

  /** The compact text that leads to a state. */
  function Render(st: State): string
    requires WellFormed(st)
  {
    var f := st.frames;
    match st.mode
    case WantColon => OpenObject(f.members, f.below) + Quote(f.key)
    case AfterValue =>
      OpenText(f.below) + (if f.InArray? then "[" + DumpItems(f.items) else "{" + DumpMembers(f.members))
    case InString(_, s) => OpenPlace(f) + "\"" + Escape(s)
    case InEscape(_, s) => OpenPlace(f) + "\"" + Escape(s) + "\\"
    case InHex(_, s, digits) => OpenPlace(f) + "\"" + Escape(s) + "\\u" + digits
    case InLiteral(rest, v) => OpenText(f) + Dump(v)[..|Dump(v)| - |rest|]
    case InNumber(text, _) => OpenText(f) + text
    case Done(v) => Dump(v)
    case _ => OpenPlace(f)
  }

  /** No key that is being filled is there already. */
  ghost predicate Fresh(f: Frames) {
    match f
    case Bottom => true
    case InArray(_, below) => Fresh(below)
    case InObject(_, below) => Fresh(below)
    case InMember(members, key, below) => !HasKey(members, key) && Fresh(below)
  }

  /** `c` is what a dump would write next: no white space, no other escape, no key a second time. */
  ghost predicate CompactStep(st: State, c: char)
    requires WellFormed(st)
  {
    match st.mode
    case InString(isKey, s) => isKey && c == '\"' ==> !HasKey(st.frames.members, s)
    case InEscape(_, _) => c != '/'
    case InHex(_, _, digits) =>
      |digits| == 3 && StepHex(st.frames, st.mode.isKey, st.mode.s, digits, c).Some? ==>
        EscapeChar(HexCode(digits + [c]) as char) == "\\u" + (digits + [c])
    case _ => !IsSpace(c)
  }

  ghost predicate CompactRun(st: State, text: string)
    requires WellFormed(st)
    decreases |text|
  {
    text == "" ||
    (Step(st, text[0]).Some? && CompactStep(st, text[0]) && CompactRun(Step(st, text[0]).value, text[1..]))
  }

  // ---------------------------------------------------------------- one step

  lemma Regroup(a: string, b: string, c: string, d: string)
    ensures a + (b + (c + d)) == a + b + c + d
    ensures a + (b + c) == a + b + c
    ensures a + b + (c + d) == a + (b + c) + d
    ensures a + (b + c + d) == a + b + c + d
  {
  }

  lemma RegroupMember(a: string, b: string, c: string, d: string, e: string, f: string)
    ensures a + (b + (c + (d + e + f))) == a + b + c + d + e + f
  {
  }

  lemma DumpItemsSnoc(items: seq<Json>, v: Json)
    ensures DumpItems(items + [v]) == ItemCommas(items) + Dump(v)
  {
    assert (items + [v])[..|items|] == items;
  }

  lemma DumpMembersSnoc(members: seq<Member>, key: string, v: Json)
    ensures DumpMembers(members + [Member(key, v)]) == MemberCommas(members) + (Quote(key) + ":" + Dump(v))
  {
    assert (members + [Member(key, v)])[..|members|] == members;
  }

  lemma RenderDeliver(f: Frames, v: Json)
    requires Ready(f) && Stacked(f) && Fresh(f)
    ensures Render(Deliver(f, v)) == OpenText(f) + Dump(v)
    ensures Fresh(Deliver(f, v).frames)
  {
    hide Dump, DumpItems, DumpMembers, ItemCommas, MemberCommas, Quote;
    match f
    case Bottom =>
      assert "" + Dump(v) == Dump(v);
    case InArray(items, below) =>
      DumpItemsSnoc(items, v);
      Regroup(OpenText(below), "[", ItemCommas(items), Dump(v));
    case InMember(members, key, below) =>
      DumpMembersSnoc(members, key, v);
      RegroupMember(OpenText(below), "{", MemberCommas(members), Quote(key), ":", Dump(v));
  }

  lemma RenderCloseArray(items: seq<Json>, below: Frames)
    requires Ready(below) && Stacked(below) && Fresh(below) && items != []
    ensures var t := Render(State(InArray(items, below), AfterValue));
            && Render(Deliver(below, Array(items))) == t + "]"
            && Render(State(InArray(items, below), WantValue)) == t + ","
    ensures Fresh(Deliver(below, Array(items)).frames)
  {
    RenderDeliver(below, Array(items));
    hide DumpItems, Deliver;
    var o, d := OpenText(below), DumpItems(items);
    Regroup(o, "[", d, "]");
    Regroup(o, "[", d, ",");
  }

  lemma RenderCloseObject(members: seq<Member>, below: Frames)
    requires Ready(below) && Stacked(below) && Fresh(below) && members != []
    ensures var t := Render(State(InObject(members, below), AfterValue));
            && Render(Deliver(below, Object(members))) == t + "}"
            && Render(State(InObject(members, below), WantKey)) == t + ","
    ensures Fresh(Deliver(below, Object(members)).frames)
  {
    RenderDeliver(below, Object(members));
    hide DumpMembers, Deliver;
    var o, d := OpenText(below), DumpMembers(members);
    Regroup(o, "{", d, "}");
    Regroup(o, "{", d, ",");
  }

  lemma RenderClose(st: State, c: char)
    requires WellFormed(st) && (st.mode.AfterValue? || st.mode.Done?) && Fresh(st.frames) && !IsSpace(c)
    requires StepAfter(st, c).Some?
    ensures Render(StepAfter(st, c).value) == Render(st) + [c] && Fresh(StepAfter(st, c).value.frames)
  {
    hide Render, Deliver;
    match st.frames
    case InArray(items, below) => RenderCloseArray(items, below);
    case InObject(members, below) => RenderCloseObject(members, below);
  }

  lemma RenderStart(st: State, c: char)
    requires WellFormed(st) && AtValue(st, st.frames) && Fresh(st.frames) && StartValue(st.frames, c).Some?
    ensures Render(StartValue(st.frames, c).value) == Render(st) + [c] && Fresh(StartValue(st.frames, c).value.frames)
  {
    var f := st.frames;
    if c == '[' {
      assert OpenText(f) + "[" + "" == OpenText(f) + [c];
    } else if c == '{' {
      assert OpenText(f) + "{" + "" == OpenText(f) + [c];
    } else if c == '\"' {
      assert OpenText(f) + "\"" + "" == OpenText(f) + [c];
    } else if StartLiteral(c).Some? {
      assert Dump(StartLiteral(c).value)[..1] == [c];
    }
  }

  lemma EscapeSnoc(s: string, c: char)
    ensures Escape(s + [c]) == Escape(s) + EscapeChar(c)
  {
    assert (s + [c])[..|s|] == s;
  }

  lemma RenderQuote(f: Frames, isKey: bool, s: string)
    requires Stacked(f) && f.InObject? == isKey && Fresh(f) && (isKey ==> !HasKey(f.members, s))
    ensures Render(EndString(f, isKey, s)) == OpenPlace(f) + "\"" + Escape(s) + "\""
    ensures Fresh(EndString(f, isKey, s).frames)
  {
    Regroup(OpenPlace(f), "\"", Escape(s), "\"");
    if !isKey {
      RenderDeliver(f, String(s));
    }
    hide Escape, OpenObject, OpenText, Deliver;
  }

  lemma RenderInString(f: Frames, isKey: bool, s: string, c: char)
    requires WellFormed(State(f, InString(isKey, s))) && Fresh(f)
    requires var st := State(f, InString(isKey, s)); Step(st, c).Some? && CompactStep(st, c)
    ensures var st := State(f, InString(isKey, s));
            Render(Step(st, c).value) == Render(st) + [c] && Fresh(Step(st, c).value.frames)
  {
    hide OpenPlace, Escape, EndString, Fresh;
    if c == '\"' {
      RenderQuote(f, isKey, s);
    } else if c != '\\' {
      EscapeSnoc(s, c);
      Regroup(OpenPlace(f), "\"", Escape(s), [c]);
    }
  }

  lemma RenderInEscape(f: Frames, isKey: bool, s: string, c: char)
    requires WellFormed(State(f, InEscape(isKey, s))) && Fresh(f)
    requires var st := State(f, InEscape(isKey, s)); Step(st, c).Some? && CompactStep(st, c)
    ensures var st := State(f, InEscape(isKey, s));
            Render(Step(st, c).value) == Render(st) + [c] && Fresh(Step(st, c).value.frames)
  {
    hide OpenPlace, Escape;
    var o, e := OpenPlace(f) + "\"" + Escape(s), Escape(s);
    if c == 'u' {
      assert o + "\\u" + "" == o + "\\" + [c];
    } else {
      var d := Unescape(c).value;
      EscapeSnoc(s, d);
      assert EscapeChar(d) == "\\" + [c];
      assert OpenPlace(f) + "\"" + (e + ("\\" + [c])) == o + "\\" + [c];
    }
  }

  lemma RenderInHex(f: Frames, isKey: bool, s: string, digits: string, c: char)
    requires WellFormed(State(f, InHex(isKey, s, digits))) && Fresh(f)
    requires var st := State(f, InHex(isKey, s, digits)); Step(st, c).Some? && CompactStep(st, c)
    ensures var st := State(f, InHex(isKey, s, digits));
            Render(Step(st, c).value) == Render(st) + [c] && Fresh(Step(st, c).value.frames)
  {
    hide OpenPlace, Escape, HexCode, EscapeChar;
    var o, e := OpenPlace(f) + "\"" + Escape(s), Escape(s);
    if |digits| < 3 {
      assert o + "\\u" + (digits + [c]) == o + "\\u" + digits + [c];
    } else {
      EscapeSnoc(s, HexCode(digits + [c]) as char);
      assert OpenPlace(f) + "\"" + (e + ("\\u" + (digits + [c]))) == o + "\\u" + digits + [c];
    }
  }

  lemma RenderInLiteral(f: Frames, rest: string, v: Json)
    requires WellFormed(State(f, InLiteral(rest, v))) && Fresh(f)
    ensures var next := Step(State(f, InLiteral(rest, v)), rest[0]).value;
            Render(next) == Render(State(f, InLiteral(rest, v))) + [rest[0]] && Fresh(next.frames)
  {
    var d := Dump(v);
    var n := |d| - |rest|;
    assert rest[0] == d[n];
    assert d[..n] + [d[n]] == d[..n + 1];
    assert OpenText(f) + (d[..n] + [d[n]]) == OpenText(f) + d[..n] + [d[n]];
    if |rest| == 1 {
      assert d[..n + 1] == d;
      RenderDeliver(f, v);
    }
  }

  lemma NothingMore(a: string)
    ensures a + "" == a
  {
  }

  lemma RenderFirstItem(f: Frames, c: char)
    requires WellFormed(State(f, FirstItem)) && Fresh(f) && Step(State(f, FirstItem), c).Some? && !IsSpace(c)
    ensures var next := Step(State(f, FirstItem), c).value;
            Render(next) == Render(State(f, FirstItem)) + [c] && Fresh(next.frames)
  {
    if c == ']' {
      RenderDeliver(f.below, Array([]));
      hide Deliver, OpenText;
      assert Dump(Array([])) == "[" + "" + "]";
      NothingMore(OpenText(f.below) + "[");
      Regroup(OpenText(f.below), "[", "", "]");
    } else {
      RenderStart(State(f, FirstItem), c);
    }
  }

  lemma RenderKeyPlace(st: State, c: char)
    requires WellFormed(st) && (st.mode.FirstKey? || st.mode.WantKey?) && Fresh(st.frames) && Step(st, c).Some?
             && !IsSpace(c)
    ensures Render(Step(st, c).value) == Render(st) + [c] && Fresh(Step(st, c).value.frames)
  {
    var f := st.frames;
    if c == '}' {
      RenderDeliver(f.below, Object([]));
      hide Deliver, OpenText;
      assert Dump(Object([])) == "{" + "" + "}";
      NothingMore(OpenText(f.below) + "{");
      Regroup(OpenText(f.below), "{", "", "}");
    } else {
      hide OpenObject;
      NothingMore(OpenPlace(f) + "\"");
    }
  }

  lemma RenderNumber(f: Frames, text: string, phase: Phase, c: char)
    requires WellFormed(State(f, InNumber(text, phase))) && Fresh(f) && Step(State(f, InNumber(text, phase)), c).Some?
             && !IsSpace(c)
    ensures var next := Step(State(f, InNumber(text, phase)), c).value;
            Render(next) == Render(State(f, InNumber(text, phase))) + [c] && Fresh(next.frames)
  {
    hide OpenText;
    if NextPhase(phase, c).Some? {
      Regroup(OpenText(f), text, [c], "");
    } else {
      RenderDeliver(f, Number(text));
      hide Deliver;
      RenderClose(Deliver(f, Number(text)), c);
    }
  }

  lemma RenderStep(st: State, c: char)
    requires WellFormed(st) && Fresh(st.frames) && Step(st, c).Some? && CompactStep(st, c)
    ensures Render(Step(st, c).value) == Render(st) + [c] && Fresh(Step(st, c).value.frames)
  {
    hide OpenText, OpenObject, Deliver, StepAfter, StartValue, HexCode;
    var f := st.frames;
    match st.mode
    case WantValue => RenderStart(st, c);
    case FirstItem => RenderFirstItem(f, c);
    case FirstKey => RenderKeyPlace(st, c);
    case WantKey => RenderKeyPlace(st, c);
    case WantColon => ColonText(f);
    case AfterValue => RenderClose(st, c);
    case Done(_) => RenderClose(st, c);
    case InLiteral(rest, v) => RenderInLiteral(f, rest, v);
    case InNumber(text, phase) => RenderNumber(f, text, phase, c);
    case InString(isKey, s) => RenderInString(f, isKey, s, c);
    case InEscape(isKey, s) => RenderInEscape(f, isKey, s, c);
    case InHex(isKey, s, digits) => RenderInHex(f, isKey, s, digits, c);
  }

  lemma ColonText(f: Frames)
    requires f.InMember? && Stacked(f)
    ensures OpenText(f) == OpenObject(f.members, f.below) + Quote(f.key) + ":"
  {
  }

  /** Reading a compact text: the state always writes out as what was read. */
  lemma {:induction false} RenderRun(st: State, text: string)
    requires WellFormed(st) && Fresh(st.frames) && CompactRun(st, text)
    ensures Run(st, text).Some? && Fresh(Run(st, text).value.frames)
    ensures Render(Run(st, text).value) == Render(st) + text
    decreases |text|
  {
    hide Step, Render, CompactStep, Fresh;
    if text == "" {
      assert Render(st) + "" == Render(st);
    } else {
      RenderStep(st, text[0]);
      RenderRun(Step(st, text[0]).value, text[1..]);
      assert Render(st) + [text[0]] + text[1..] == Render(st) + text;
    }
  }
}
