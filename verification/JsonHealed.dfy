/**
 What the healed text is: it parses, to the open containers closed around a last leaf that holds
 the marker; and exactly when healing inside a unicode escape fails.
 */
module JsonHealed {
  import opened Wrappers
  import opened JsonValue
  import opened JsonScanner
  import opened JsonTail
  import opened JsonProbe
  import opened JsonHealing

  /** The text stops where a scalar is cut away. */
  predicate CutsBack(st: State, text: string) {
    st.mode.InLiteral? || st.mode.InNumber? || st.mode.InHex? || (st.mode.AfterValue? && EndsWith(text, 'e'))
  }

  /** The cut leaves a text in which a value is due, with the same brackets open. */
  predicate CutLands(text: string)
    requires Run(START, text).Some?
  {
    var f := Run(START, text).value.frames;
    var n := CutBack(text, f.InArray?);
    && n > 0
    && Run(START, text[..n]).Some?
    && var m := Run(START, text[..n]).value; AtValue(m, m.frames) && Closers(m.frames) == Closers(f)
  }

  /** A text that healing can close: always, but inside a unicode escape only if the cut lands. */
  predicate Healable(text: string)
    requires Run(START, text).Some?
  {
    !Run(START, text).value.frames.Bottom? && (Run(START, text).value.mode.InHex? ==> CutLands(text))
  }

  datatype Target = Target(frames: Frames, leaf: Json)

  function KeyTarget(f: Frames, key: string): Target
    requires f.InObject?
  {
    Target(InMember(f.members, key, f.below), Number("1"))
  }

  /** Where the marker ends up: the open containers and the last leaf, or the last key and its dummy value. */
  function TargetOf(text: string, marker: string): (t: Target)
    requires Run(START, text).Some? && Healable(text)
    ensures Ready(t.frames) && Stacked(t.frames)
  {
    var st := Run(START, text).value;
    var f := st.frames;
    if CutsBack(st, text) then
      CutLandsWhenHealable(text);
      Target(Run(START, text[..CutBack(text, f.InArray?)]).value.frames, String(marker))
    else
      match st.mode
      case FirstKey => KeyTarget(f, marker)
      case WantKey => KeyTarget(f, marker)
      case AfterValue => if f.InObject? then KeyTarget(f, marker) else Target(f, String(marker))
      case InString(isKey, s) => if isKey then KeyTarget(f, s + marker) else Target(f, String(s + marker))
      case InEscape(isKey, s) => if isKey then KeyTarget(f, s + "\\" + marker) else Target(f, String(s + "\\" + marker))
      case _ => Target(f, String(marker))
  }

  /** Cutting back always lands, except that inside a unicode escape it may not. */
  lemma CutLandsUnlessHex(text: string)
    requires Run(START, text).Some? && !Run(START, text).value.frames.Bottom?
    requires CutsBack(Run(START, text).value, text) && !Run(START, text).value.mode.InHex?
    ensures CutLands(text)
  {
    var st := Run(START, text).value;
    hide Run, Step;
    if st.mode.AfterValue? {
      var f, v := CutBackAfterLiteral(text);
    } else {
      CutBackInToken(text);
    }
  }

  lemma CutLandsWhenHealable(text: string)
    requires Run(START, text).Some? && Healable(text) && CutsBack(Run(START, text).value, text)
    ensures CutLands(text)
  {
    hide Run;
    if !Run(START, text).value.mode.InHex? {
      CutLandsUnlessHex(text);
    }
  }

  // ---------------------------------------------------------------- runs of the appended text

  predicate Plain(m: string) {
    forall i :: 0 <= i < |m| ==> m[i] >= ' ' && m[i] != '\"' && m[i] != '\\'
  }

  lemma {:induction false} PlainRun(f: Frames, isKey: bool, s: string, m: string)
    requires WellFormed(State(f, InString(isKey, s))) && Plain(m)
    ensures Run(State(f, InString(isKey, s)), m) == Some(State(f, InString(isKey, s + m)))
    decreases |m|
  {
    if m == "" {
      assert s + m == s;
    } else {
      PlainRun(f, isKey, s + [m[0]], m[1..]);
      assert s + [m[0]] + m[1..] == s + m;
    }
  }

  lemma RunParts(st: State, a: string, b: string, mid: State)
    requires WellFormed(st) && Run(st, a) == Some(mid)
    ensures Run(st, a + b) == Run(mid, b)
  {
    RunConcat(st, a, b);
  }

  /** From inside a string: the marker, then the end of the value or of the key, then the brackets. */
  lemma FinishString(f: Frames, isKey: bool, s: string, marker: string)
    requires Stacked(f) && f.InObject? == isKey && !f.Bottom? && IsMarker(marker)
    ensures var t := if isKey then KeyTarget(f, s + marker) else Target(f, String(s + marker));
            Run(State(f, InString(isKey, s)), marker + ((if isKey then "\": 1" else "\"") + Closers(f)))
            == Some(State(Bottom, Done(Nest(t.frames, t.leaf))))
  {
    hide Step, Nest;
    var st, mid := State(f, InString(isKey, s)), State(f, InString(isKey, s + marker));
    PlainRun(f, isKey, s, marker);
    RunParts(st, marker, (if isKey then "\": 1" else "\"") + Closers(f), mid);
    if isKey {
      EndKey(mid);
    } else {
      EndValueString(mid);
    }
  }

  /** Where the glue leads from the kept text: into a string on top of the target's containers. */
  lemma GlueRuns(m: State, glue: string, isKey: bool)
    requires WellFormed(m) && !m.frames.Bottom?
    requires (AtValue(m, m.frames) && glue == "\"" && !isKey)
             || (m.mode.WantColon? && glue == ":\"" && !isKey)
             || ((m.mode.FirstKey? || m.mode.WantKey?) && glue == "\"" && isKey)
             || (m.mode.AfterValue? && glue == ",\"" && isKey == m.frames.InObject?)
    ensures Stacked(m.frames) && m.frames.InObject? == isKey
    ensures Run(m, glue) == Some(State(m.frames, InString(isKey, "")))
  {
    if |glue| == 1 {
      assert glue == ['\"'] + "";
      RunFirst(m, '\"', "");
    } else {
      assert glue == [glue[0]] + (['\"'] + "");
      RunFirst(m, glue[0], ['\"'] + "");
      RunFirst(Step(m, glue[0]).value, '\"', "");
    }
  }

  lemma Reassociate(a: string, b: string, c: string, d: string, e: string)
    ensures a + (b + c) + d + e == a + (b + (c + (d + e)))
  {
  }

  /** From the kept text, through the glue into a string, to the end. */
  lemma FromKept(kept: string, glue: string, marker: string, m: State, mid: State)
    requires Run(START, kept) == Some(m) && WellFormed(m) && Run(m, glue) == Some(mid)
    requires mid.mode.InString? && !mid.frames.Bottom? && IsMarker(marker)
    ensures WellFormed(mid)
    ensures var isKey, s := mid.mode.isKey, mid.mode.s;
            var t := if isKey then KeyTarget(mid.frames, s + marker) else Target(mid.frames, String(s + marker));
            Run(START, kept + (glue + marker) + (if isKey then "\": 1" else "\"") + Closers(mid.frames))
            == Some(State(Bottom, Done(Nest(t.frames, t.leaf))))
  {
    hide Step, Nest, Closers;
    var tail, c := if mid.mode.isKey then "\": 1" else "\"", Closers(mid.frames);
    Reassociate(kept, glue, marker, tail, c);
    RunParts(START, kept, glue + (marker + (tail + c)), m);
    RunParts(m, glue, marker + (tail + c), mid);
    FinishString(mid.frames, mid.mode.isKey, mid.mode.s, marker);
  }

  /** The healed text parses to the target closed. */
  lemma HealedParses(text: string, marker: string)
    requires Run(START, text).Some? && Healable(text) && IsMarker(marker)
    ensures var st, t := Run(START, text).value, TargetOf(text, marker);
            PlanFor(st, text).kept > 0 &&
            Run(START, Healed(text, PlanFor(st, text), marker, Closers(st.frames)))
            == Some(State(Bottom, Done(Nest(t.frames, t.leaf))))
  {
    var st := Run(START, text).value;
    var p := PlanFor(st, text);
    if CutsBack(st, text) {
      CutLandsWhenHealable(text);
    }
    NonBlank(text);
    assert text[..|text|] == text;
    hide Step, Nest, Run, Closers;
    var m := Run(START, text[..p.kept]).value;
    if st.mode.InString? {
      RunNothing(m);
      FromKept(text, "", marker, m, m);
    } else if st.mode.InEscape? {
      BackslashRuns(m);
      FromKept(text, "\\", marker, m, State(m.frames, InString(p.asKey, st.mode.s + "\\")));
    } else {
      GlueRuns(m, p.glue, p.asKey);
      assert "" + marker == marker;
      FromKept(text[..p.kept], p.glue, marker, m, State(m.frames, InString(p.asKey, "")));
    }
  }

  lemma RunNothing(m: State)
    requires WellFormed(m)
    ensures Run(m, "") == Some(m)
  {
  }

  lemma BackslashRuns(m: State)
    requires WellFormed(m) && m.mode.InEscape?
    ensures Run(m, "\\") == Some(State(m.frames, InString(m.mode.isKey, m.mode.s + "\\")))
  {
    assert "\\" == ['\\'] + "";
    RunFirst(m, '\\', "");
  }

  lemma NonBlank(text: string)
    requires Run(START, text).Some? && !Run(START, text).value.frames.Bottom?
    ensures text != ""
  {
  }

  // ---------------------------------------------------------------- when the cut does not land

  /** Behind a separator a value or key is due, or a string is open. */
  lemma AfterSeparator(text: string, inArray: bool)
    requires Run(START, text).Some? && text != "" && IsSeparator(inArray, text[|text| - 1])
    ensures var m := Run(START, text).value;
            AtValue(m, m.frames) || m.mode.WantKey? || m.mode.InString?
  {
    TailOf(text);
  }

  lemma RunsOutOfString(m: State, marker: string, rest: string)
    requires WellFormed(m) && m.mode.InString? && IsMarker(marker)
    ensures !Accepts(m, "\"" + (marker + rest))
  {
    var next := EndString(m.frames, m.mode.isKey, m.mode.s);
    AcceptsFirst(m, '\"', marker + rest);
    assert marker[0] >= ' ';
    assert (marker + rest)[0] == marker[0];
    if next.mode.WantColon? {
      assert Step(next, marker[0]).None?;
    }
    FirstRejected(next, marker + rest);
  }

  /** A cut that does not land leaves a text that does not parse. */
  lemma CutThatFails(text: string, marker: string)
    requires Run(START, text).Some? && !Run(START, text).value.frames.Bottom? && IsMarker(marker)
    requires Run(START, text).value.mode.InHex? && !CutLands(text)
    ensures var st := Run(START, text).value;
            PlanFor(st, text).kept > 0 ==> Parse(Healed(text, PlanFor(st, text), marker, Closers(st.frames))).None?
  {
    var st := Run(START, text).value;
    var f := st.frames;
    var n, c := CutBack(text, f.InArray?), Closers(st.frames);
    if n > 0 {
      PrefixRuns(text, n);
      AfterSeparator(text[..n], f.InArray?);
      var m := Run(START, text[..n]).value;
      Reassociate(text[..n], "\"", marker, "\"", c);
      ParseExtends(text[..n], "\"" + (marker + ("\"" + c)));
      if m.mode.InString? {
        RunsOutOfString(m, marker, "\"" + c);
      } else {
        WrongBrackets(m, f, marker);
      }
    }
  }

  lemma PrefixRuns(text: string, n: nat)
    requires Run(START, text).Some? && n <= |text|
    ensures Run(START, text[..n]).Some?
  {
    assert text == text[..n] + text[n..];
    RunConcat(START, text[..n], text[n..]);
  }

  /** A quoted marker, read where a value or a key is due. */
  lemma QuotedMarker(m: State, marker: string, rest: string)
    requires WellFormed(m) && IsMarker(marker) && (m.mode.WantKey? || AtValue(m, m.frames))
    ensures Run(m, "\"" + (marker + ("\"" + rest))) == Run(EndString(m.frames, m.mode.WantKey?, marker), rest)
  {
    var isKey := m.mode.WantKey?;
    var open, full := State(m.frames, InString(isKey, "")), State(m.frames, InString(isKey, marker));
    RunFirst(m, '\"', marker + ("\"" + rest));
    PlainRun(m.frames, isKey, "", marker);
    assert "" + marker == marker;
    RunParts(open, marker, "\"" + rest, full);
    RunFirst(full, '\"', rest);
  }

  lemma WrongBrackets(m: State, f: Frames, marker: string)
    requires WellFormed(m) && IsMarker(marker) && !f.Bottom?
    requires m.mode.WantKey? || (AtValue(m, m.frames) && Closers(m.frames) != Closers(f))
    ensures !Accepts(m, "\"" + (marker + ("\"" + Closers(f))))
  {
    QuotedMarker(m, marker, Closers(f));
    ClosersQuoteless(f);
    ClosersAreClosers(f);
    if m.mode.WantKey? {
      FirstRejected(EndString(m.frames, true, marker), Closers(f));
    } else {
      NotDone(m.frames, String(marker), Closers(f));
    }
  }

  /** Brackets never leave a number open. */
  lemma {:induction false} NotDone(g: Frames, v: Json, c: string)
    requires Ready(g) && Stacked(g) && OnlyClosers(c) && c != Closers(g)
    ensures !Accepts(Deliver(g, v), c)
    decreases |c|
  {
    if c != "" {
      assert c == [c[0]] + c[1..];
      AcceptsFirst(Deliver(g, v), c[0], c[1..]);
      match g
      case Bottom =>
      case InArray(items, below) =>
        if c[0] == ']' {
          NotDone(below, Array(items + [v]), c[1..]);
        }
      case InMember(members, key, below) =>
        if c[0] == '}' {
          NotDone(below, Object(Put(members, key, v)), c[1..]);
        }
    }
  }

  // ---------------------------------------------------------------- healing

  /**
   Healing a text with open containers succeeds exactly unless the text stops inside a unicode
   escape from which cutting back does not land; what it then parses to is the target closed.
   */
  lemma HealingSucceedsIff(text: string, marker: string)
    requires Run(START, text).Some? && !Run(START, text).value.frames.Bottom? && IsMarker(marker)
    ensures (ByPlan(text, marker).Ok? && Parse(ByPlan(text, marker).value.0).Some?) <==> Healable(text)
    ensures Healable(text) ==>
              var t := TargetOf(text, marker);
              Parse(ByPlan(text, marker).value.0) == Some(Nest(t.frames, t.leaf))
  {
    hide Run, Step, Nest, Healed;
    if Healable(text) {
      HealedParses(text, marker);
    } else {
      CutThatFails(text, marker);
    }
  }

  // ---------------------------------------------------------------- unicode escapes

  /** The scan of an array that stops inside its first string. */
  lemma OpenStringRun(s: string)
    requires Plain(s)
    ensures Run(START, "[\"" + s) == Some(State(InArray([], Bottom), InString(false, s)))
  {
    var open, inside := State(InArray([], Bottom), FirstItem), State(InArray([], Bottom), InString(false, ""));
    assert Step(START, '[') == Some(open) && Step(open, '\"') == Some(inside);
    hide Step;
    assert "[\"" + s == ['['] + (['\"'] + s);
    RunFirst(START, '[', ['\"'] + s);
    RunFirst(open, '\"', s);
    PlainRun(inside.frames, false, "", s);
    assert "" + s == s;
  }

  lemma OpenEscapeRun(s: string)
    requires Plain(s)
    ensures Run(START, "[\"" + s + "\\u") == Some(State(InArray([], Bottom), InHex(false, s, "")))
  {
    OpenStringRun(s);
    var text, f := "[\"" + s, InArray([], Bottom);
    var inside, escape, hex := State(f, InString(false, s)), State(f, InEscape(false, s)),
        State(f, InHex(false, s, ""));
    assert Step(inside, '\\') == Some(escape) && Step(escape, 'u') == Some(hex);
    hide Step;
    assert text + "\\u" == text + (['\\'] + (['u'] + ""));
    RunConcat(START, text, ['\\'] + (['u'] + ""));
    RunFirst(inside, '\\', ['u'] + "");
    RunFirst(escape, 'u', "");
    RunNothing(hex);
  }

  /** The separator before the first string of an array, unless the string has one itself. */
  lemma OpenEscapeCut(s: string)
    ensures var n := CutBack("[\"" + s + "\\u", true);
            if ',' in s || '[' in s then 2 < n <= 2 + |s| else n == 1
  {
    hide CutBack;
    var text := "[\"" + s + "\\u";
    var n := CutBack(text, true);
    assert text[0] == '[' && IsSeparator(true, text[0]) && !IsSeparator(true, text[1]);
    assert !IsSeparator(true, text[2 + |s|]) && !IsSeparator(true, text[3 + |s|]);
    assert forall i :: 0 <= i < |s| ==> text[2 + i] == s[i];
    if i :| 0 <= i < |s| && (s[i] == ',' || s[i] == '[') {
      assert IsSeparator(true, text[2 + i]);
    }
    if 2 < n <= 2 + |s| {
      assert text[n - 1] == s[n - 3];
    }
  }

  /** A string cut inside a unicode escape is healed exactly when it has no separator before it. */
  lemma HexHealsIff(s: string)
    requires Plain(s)
    ensures Run(START, "[\"" + s + "\\u").Some?
    ensures Healable("[\"" + s + "\\u") <==> ',' !in s && '[' !in s
  {
    var text := "[\"" + s + "\\u";
    OpenEscapeRun(s);
    OpenEscapeCut(s);
    var n := CutBack(text, true);
    if n == 1 {
      assert text[..1] == ['['] + "";
      RunFirst(START, '[', "");
      RunNothing(State(InArray([], Bottom), FirstItem));
    } else {
      assert text[..n] == "[\"" + s[..n - 2];
      OpenStringRun(s[..n - 2]);
    }
  }

  /** So healing fails on this text. */
  lemma SeparatorInString()
    ensures Run(START, "[\",\\u").Some? && !Healable("[\",\\u")
  {
    assert "[\"" + "," + "\\u" == "[\",\\u";
    HexHealsIff(",");
  }
}
