/**
 The healing marker is a decimal number that does not occur in the message (common/chat-parser.cpp).
 For messages without unicode escapes and without repeated keys that is enough for the marker to
 occur nowhere in what is read of them, white space removed.
 */
module DrawnMarker {
  import opened Wrappers
  import opened JsonValue
  import opened JsonScanner
  import opened JsonTail
  import opened JsonHealing
  import opened JsonHealed
  import opened JsonRender
  import opened JsonPartial
  import opened JsonHealedDump
  import opened ChatCleaner
  import opened CleanerProperties
  import opened ChatJson
  import opened HealingTheorems

  predicate AllDigits(s: string) {
    forall i :: 0 <= i < |s| ==> IsDigit(s[i])
  }

  /** A marker as it is drawn. */
  predicate IsDecimal(m: string) {
    m != "" && AllDigits(m)
  }

  lemma DecimalIsMarker(m: string)
    requires IsDecimal(m)
    ensures IsMarker(m)
  {
  }

  /** The character is not the `u` of an escape, and does not end a key that is there already. */
  ghost predicate SimpleStep(st: State, c: char)
    requires WellFormed(st)
  {
    && (st.mode.InEscape? ==> c != 'u')
    && (st.mode.InString? && st.mode.isKey && c == '\"' ==> !HasKey(st.frames.members, st.mode.s))
  }

  /** A message without unicode escapes, in which no object repeats a key. */
  ghost predicate SimpleText(text: string) {
    forall i :: 0 <= i < |text| && Run(START, text[..i]).Some? ==> SimpleStep(Run(START, text[..i]).value, text[i])
  }

  lemma SimplePrefix(text: string, n: nat)
    requires SimpleText(text) && n <= |text|
    ensures SimpleText(text[..n])
  {
    hide SimpleStep, Run;
    forall i | 0 <= i < n && Run(START, text[..n][..i]).Some?
      ensures SimpleStep(Run(START, text[..n][..i]).value, text[..n][i])
    {
      assert text[..n][..i] == text[..i] && text[..n][i] == text[i];
    }
  }

  // ---------------------------------------------------------------- digits at the end

  /** How many digits the text ends with. */
  function Trailing(s: string): (k: nat)
    ensures k <= |s|
    ensures forall i :: |s| - k <= i < |s| ==> IsDigit(s[i])
    ensures k < |s| ==> !IsDigit(s[|s| - k - 1])
  {
    if s == "" || !IsDigit(s[|s| - 1]) then 0 else 1 + Trailing(s[..|s| - 1])
  }

  lemma TrailingSnoc(s: string, c: char)
    ensures Trailing(s + [c]) == if IsDigit(c) then 1 + Trailing(s) else 0
  {
    assert (s + [c])[..|s|] == s;
  }

  /** Both texts end with the same digits. */
  predicate EndsAlike(r: string, text: string) {
    Trailing(r) <= |text| && r[|r| - Trailing(r)..] == text[|text| - Trailing(r)..]
  }

  lemma AlikeSnoc(r: string, text: string, c: char)
    requires EndsAlike(r, text) || !IsDigit(c)
    ensures EndsAlike(r + [c], text + [c])
  {
    TrailingSnoc(r, c);
    var k := Trailing(r);
    if IsDigit(c) {
      assert (r + [c])[|r| - k..] == r[|r| - k..] + [c];
      assert (text + [c])[|text| - k..] == text[|text| - k..] + [c];
    }
  }

  /** A number that appears at the end has appeared in the text. */
  lemma NoneAppears(r: string, text: string, c: char, m: string)
    requires IsDecimal(m) && !Contains(r, m) && !Contains(text + [c], m) && (EndsAlike(r, text) || !IsDigit(c))
    ensures !Contains(r + [c], m)
  {
    AlikeSnoc(r, text, c);
    hide EndsAlike;
    forall i
      ensures !OccursAt(r + [c], m, i)
    {
      if 0 <= i && i + |m| <= |r| {
        assert (r + [c])[i..i + |m|] == r[i..i + |m|];
        assert !OccursAt(r, m, i);
      } else if 0 <= i && i + |m| == |r| + 1 {
        if (r + [c])[i..i + |m|] == m {
          SuffixInText(r + [c], text + [c], m);
        }
      }
    }
  }

  lemma SuffixInText(r: string, text: string, m: string)
    requires IsDecimal(m) && EndsAlike(r, text) && |m| <= |r| && r[|r| - |m|..] == m
    ensures Contains(text, m)
  {
    DigitsAreTrailing(r, m);
    hide *;
    AlikeSuffixes(r, text, |m|);
    SuffixOccurs(text, m);
  }

  lemma AlikeSuffixes(r: string, text: string, n: nat)
    requires EndsAlike(r, text) && n <= Trailing(r)
    ensures n <= |text| && r[|r| - n..] == text[|text| - n..]
  {
    hide Trailing;
    var k := Trailing(r);
    SuffixOfSuffix(r, k, n);
    SuffixOfSuffix(text, k, n);
  }

  lemma SuffixOccurs(text: string, m: string)
    requires |m| <= |text| && text[|text| - |m|..] == m
    ensures Contains(text, m)
  {
    assert OccursAt(text, m, |text| - |m|);
  }

  lemma DigitsAreTrailing(r: string, m: string)
    requires AllDigits(m) && |m| <= |r| && r[|r| - |m|..] == m
    ensures |m| <= Trailing(r)
  {
    hide Trailing;
    forall j | |r| - |m| <= j < |r|
      ensures IsDigit(r[j])
    {
      assert r[j] == m[j - (|r| - |m|)];
    }
  }

  lemma SuffixOfSuffix(s: string, k: nat, n: nat)
    requires n <= k <= |s|
    ensures s[|s| - n..] == s[|s| - k..][k - n..]
  {
  }

  // ---------------------------------------------------------------- one character

  /** What was read, written out, is free of the marker, and ends as the text does unless a value has ended. */
  ghost predicate Clear(st: State, text: string, m: string)
    requires WellFormed(st)
  {
    && Fresh(st.frames) && !st.mode.InHex? && !Contains(Render(st), m)
    && (st.mode.AfterValue? || st.mode.Done? || EndsAlike(Render(st), text))
  }

  /** White space that is skipped. */
  predicate Skips(st: State, c: char) {
    IsSpace(c) && !st.mode.InString? && !st.mode.InEscape? && !st.mode.InHex?
  }

  lemma SkipStep(st: State, c: char)
    requires WellFormed(st) && Skips(st, c) && Step(st, c).Some? && Fresh(st.frames)
    ensures var n := Step(st, c).value;
            && Render(n) == Render(st) && Fresh(n.frames) && !n.mode.InHex?
            && (n == st || n.mode.AfterValue? || n.mode.Done?)
  {
    hide Render, Fresh, Deliver;
    match st.mode
    case InLiteral(rest, v) => LiteralLetters(rest, v);
    case InNumber(text, phase) =>
      NumberText(st.frames, text, phase);
      DeliveredMode(st.frames, Number(text));
    case _ =>
  }

  lemma NumberText(f: Frames, text: string, phase: Phase)
    requires WellFormed(State(f, InNumber(text, phase))) && Fresh(f)
    ensures Render(Deliver(f, Number(text))) == Render(State(f, InNumber(text, phase)))
            && Fresh(Deliver(f, Number(text)).frames)
  {
    RenderDeliver(f, Number(text));
    hide OpenText;
  }

  lemma DeliveredMode(f: Frames, v: Json)
    requires Ready(f) && Stacked(f)
    ensures Deliver(f, v).mode.AfterValue? || Deliver(f, v).mode.Done?
  {
  }

  /** What opens a place for a value or key does not end with a digit. */
  lemma OpenPlaceEnds(f: Frames)
    requires Stacked(f)
    ensures Trailing(OpenPlace(f)) == 0
  {
    match f
    case Bottom =>
    case InArray(items, below) =>
      if items == [] {
        LastCharacter(OpenText(below), "", '[');
        assert OpenText(below) + "[" + "" == OpenText(below) + ("" + ['[']);
      } else {
        LastCharacter(OpenText(below) + "[", DumpItems(items), ',');
      }
    case InObject(members, below) =>
      if members == [] {
        LastCharacter(OpenText(below), "", '{');
        assert OpenText(below) + "{" + "" == OpenText(below) + ("" + ['{']);
      } else {
        LastCharacter(OpenText(below) + "{", DumpMembers(members), ',');
      }
    case InMember(members, key, below) =>
      LastCharacter(OpenText(below) + "{" + MemberCommas(members) + Quote(key), "", ':');
  }

  lemma PlaceEnds(st: State)
    requires WellFormed(st)
    requires st.mode.WantValue? || st.mode.FirstItem? || st.mode.FirstKey? || st.mode.WantKey? || st.mode.WantColon?
    ensures Trailing(Render(st)) == 0
  {
    hide Trailing, OpenPlace, OpenObject, Escape;
    var f := st.frames;
    if st.mode.WantColon? {
      LastCharacter(OpenObject(f.members, f.below), "\"" + Escape(f.key), '\"');
    } else {
      OpenPlaceEnds(f);
    }
  }

  lemma LastCharacter(a: string, b: string, c: char)
    requires !IsDigit(c)
    ensures Trailing(a + (b + [c])) == 0
  {
    assert (a + (b + [c]))[|a + (b + [c])| - 1] == c;
  }

  /** A character that a complete value cannot be followed by. */
  lemma NoDigitAfter(st: State, c: char)
    requires WellFormed(st) && (st.mode.AfterValue? || st.mode.Done?) && Step(st, c).Some?
    ensures !IsDigit(c)
  {
  }

  lemma SolidusStep(st: State, text: string, m: string)
    requires WellFormed(st) && st.mode.InEscape? && IsDecimal(m) && Clear(st, text, m)
    ensures Step(st, '/').Some? && Clear(Step(st, '/').value, text + ['/'], m)
  {
    var s, o := st.mode.s, OpenPlace(st.frames) + "\"";
    var next := State(st.frames, InString(st.mode.isKey, s + ['/']));
    assert Step(st, '/') == Some(next);
    EscapeSnoc(s, '/');
    hide Contains, OpenPlace, Escape, Step, Fresh;
    var before := o + Escape(s);
    assert Render(st) == before + "\\" && Render(next) == o + (Escape(s) + "/") == before + "/";
    NoneOfIt(before, text, m);
    AlikeSnoc(before, text, '/');
  }

  lemma NoneOfIt(before: string, text: string, m: string)
    requires IsDecimal(m) && !Contains(before + "\\", m)
    ensures !Contains(before + "/", m)
  {
    forall i
      ensures !OccursAt(before + "/", m, i)
    {
      if 0 <= i && i + |m| <= |before| {
        assert (before + "/")[i..i + |m|] == (before + "\\")[i..i + |m|];
        assert !OccursAt(before + "\\", m, i);
      } else if 0 <= i && i + |m| == |before| + 1 {
        assert (before + "/")[i..i + |m|][|m| - 1] == '/';
      }
    }
  }

  /** One character more keeps it so. */
  lemma ClearStep(st: State, text: string, c: char, m: string)
    requires WellFormed(st) && Step(st, c).Some? && SimpleStep(st, c) && IsDecimal(m)
    requires Clear(st, text, m) && !Contains(text + [c], m)
    ensures Clear(Step(st, c).value, text + [c], m)
  {
    hide Step, Render, Contains, Fresh, EndsAlike, IsDecimal;
    var n := Step(st, c).value;
    if Skips(st, c) {
      SkipStep(st, c);
      if n == st && !st.mode.AfterValue? && !st.mode.Done? {
        SkipsAtPlace(st, c);
        PlaceEnds(st);
        NothingAlike(Render(st), text + [c]);
      }
    } else if st.mode.InEscape? && c == '/' {
      SolidusStep(st, text, m);
    } else {
      RenderStep(st, c);
      NoHexAfter(st, c);
      if st.mode.AfterValue? || st.mode.Done? {
        NoDigitAfter(st, c);
      }
      AlikeSnoc(Render(st), text, c);
      NoneAppears(Render(st), text, c, m);
    }
  }

  lemma SkipsAtPlace(st: State, c: char)
    requires WellFormed(st) && Skips(st, c) && Step(st, c) == Some(st) && !st.mode.AfterValue? && !st.mode.Done?
    ensures st.mode.WantValue? || st.mode.FirstItem? || st.mode.FirstKey? || st.mode.WantKey? || st.mode.WantColon?
  {
    hide Deliver;
    match st.mode
    case InLiteral(rest, v) => LiteralLetters(rest, v);
    case InNumber(text, _) => DeliveredMode(st.frames, Number(text));
    case _ =>
  }

  lemma NothingAlike(r: string, text: string)
    requires Trailing(r) == 0
    ensures EndsAlike(r, text)
  {
    assert r[|r|..] == "" && text[|text|..] == "";
  }

  lemma NoHexAfter(st: State, c: char)
    requires WellFormed(st) && Step(st, c).Some? && SimpleStep(st, c) && !st.mode.InHex?
    ensures !Step(st, c).value.mode.InHex?
  {
    hide Dump, Put;
  }

  // ---------------------------------------------------------------- the whole message

  lemma {:induction false} ClearRun(text: string, m: string)
    requires SimpleText(text) && Run(START, text).Some? && IsDecimal(m) && !Contains(text, m)
    ensures Clear(Run(START, text).value, text, m)
  {
    hide Run, Step, Clear, Contains, IsDecimal, SimpleStep;
    if text == "" {
      StartIsClear(m);
    } else {
      var n := |text| - 1;
      var a := text[..n];
      assert text == a + [text[n]];
      RunSnoc(START, text);
      SimplePrefix(text, n);
      if Contains(a, m) {
        ContainsLeft(a, [text[n]], m);
      }
      ClearRun(a, m);
      ClearStep(Run(START, a).value, a, text[n], m);
    }
  }

  lemma StartIsClear(m: string)
    requires IsDecimal(m)
    ensures Run(START, "") == Some(START) && Clear(START, "", m)
  {
    assert Render(START) == "";
  }

  /** The drawn marker is nowhere in what is read. */
  lemma DrawnIsAbsent(text: string, marker: string)
    requires SimpleText(text) && IsDecimal(marker) && !Contains(text, marker)
    ensures MarkerAbsent(text, marker)
  {
    hide Run, Contains, IsDecimal, ReadLength, Healable, Parse, Render, Fresh, KeptState, Dump, SimpleText;
    var str := text[..ReadLength(START, text)];
    SimplePrefix(text, |str|);
    PartIsFree(text, |str|, marker);
    if Parse(str).Some? {
      ReadIsClear(str, marker);
    } else if Run(START, str).Some? && Healable(str) {
      KeptIsClear(str, marker);
    }
  }

  lemma PartIsFree(text: string, n: nat, m: string)
    requires n <= |text| && !Contains(text, m)
    ensures !Contains(text[..n], m)
  {
    if Contains(text[..n], m) {
      ContainsSlice(text, m, 0, n);
    }
  }

  lemma ReadIsClear(str: string, m: string)
    requires Parse(str).Some? && SimpleText(str) && IsDecimal(m) && !Contains(str, m)
    ensures Unmarked(Parse(str).value, m)
  {
    hide Run, Contains, IsDecimal, SimpleText;
    ClearRun(str, m);
    var st := Run(START, str).value;
    if st.mode.InNumber? {
      NumberText(st.frames, st.mode.text, st.mode.phase);
    }
  }

  lemma KeptIsClear(str: string, m: string)
    requires Run(START, str).Some? && Healable(str) && SimpleText(str) && IsDecimal(m) && !Contains(str, m)
    ensures Fresh(KeptState(str).frames) && !Contains(Render(KeptState(str)), m)
  {
    hide Run, Contains, IsDecimal, SimpleText, Render, Fresh;
    var n := if CutsBack(Run(START, str).value, str) then PlanFor(Run(START, str).value, str).kept else |str|;
    assert str[..|str|] == str;
    if CutsBack(Run(START, str).value, str) {
      CutLandsWhenHealable(str);
    }
    SimplePrefix(str, n);
    PartIsFree(str, n, m);
    ClearRun(str[..n], m);
  }

  /**
   The guarantee of cleaning for the marker as the parser draws it: in a message without unicode
   escapes and repeated keys no key or string of the result has it, and the result is partial
   exactly when something was healed, or a complete bare string is consumed as content.
   */
  lemma CleanedWithDrawnMarker(text: string, marker: string, isPartial: bool, argsPaths: seq<Path>,
                               contentPaths: seq<Path>)
    requires SimpleText(text) && IsDecimal(marker) && !Contains(text, marker)
    ensures var o := DumpedOf(text, marker, isPartial, argsPaths, contentPaths);
            o.Ok? && o.value.Some? ==>
              var j := ConsumedOf(text, marker, isPartial).value.value;
              && NoMarker(o.value.value.0, marker)
              && (o.value.value.1 <==> j.marker != "" || BareContent(j.json, argsPaths, contentPaths))
  {
    DrawnIsAbsent(text, marker);
    DecimalIsMarker(marker);
    hide MarkerAbsent, DumpedOf, ConsumedOf, IsMarker;
    CleanedResult(text, marker, isPartial, argsPaths, contentPaths);
  }
}
