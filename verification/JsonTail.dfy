/**
 What the end of a partial JSON text says about the parser's state, and back. Healing
 (common/json-partial.cpp) looks at last characters and searches backwards for separators; these
 lemmas connect both with the state the text leads to.
 */
module JsonTail {
  import opened Wrappers
  import opened JsonValue
  import opened JsonScanner

  /** The last character that is not white space. */
  function LastNonSpace(text: string): Option<char> {
    if text == "" then None
    else if IsSpace(text[|text| - 1]) then LastNonSpace(text[..|text| - 1])
    else Some(text[|text| - 1])
  }

  predicate EndsWith(text: string, c: char) {
    text != "" && text[|text| - 1] == c
  }

  predicate IsLetter(c: char) {
    'a' <= c <= 'z'
  }

  /** A character that can end a value other than a number. */
  predicate EndsValue(c: char) {
    c == '\"' || c == ']' || c == '}' || IsLetter(c)
  }

  /** What the end of the text looks like in each state. */
  ghost predicate Tail(st: State, text: string) {
    var last := LastNonSpace(text);
    match st.mode
    case WantValue => !st.frames.Bottom? ==> last == Some(if st.frames.InArray? then ',' else ':')
    case FirstItem => last == Some('[')
    case FirstKey => last == Some('{')
    case WantKey => last == Some(',')
    case WantColon => last == Some('\"')
    case AfterValue =>
      && last.Some? && (EndsValue(last.value) || IsDigit(last.value))
      && text != "" && (IsSpace(text[|text| - 1]) || EndsValue(text[|text| - 1]))
    case InString(_, _) => true
    case InEscape(_, _) => EndsWith(text, '\\')
    case InHex(_, _, _) => text != "" && (IsHexDigit(text[|text| - 1]) || EndsWith(text, 'u'))
    case InLiteral(_, _) => text != "" && IsLetter(text[|text| - 1])
    case InNumber(_, p) =>
      && text != "" && (IsDigit(text[|text| - 1]) || text[|text| - 1] in ".eE+-")
      && (IsFinal(p) ==> IsDigit(text[|text| - 1]))
    case Done(_) => last.Some? && (EndsValue(last.value) || IsDigit(last.value))
  }

  lemma LiteralLetters(rest: string, v: Json)
    requires RestOf(rest, v)
    ensures IsLetter(rest[0])
  {
    assert rest[0] == Dump(v)[|Dump(v)| - |rest|];
  }

  lemma TailStepAfter(st: State, text: string, c: char)
    requires WellFormed(st) && (st.mode.AfterValue? || st.mode.Done?) && StepAfter(st, c).Some?
    requires LastNonSpace(text).Some? && (EndsValue(LastNonSpace(text).value) || IsDigit(LastNonSpace(text).value))
    ensures Tail(StepAfter(st, c).value, text + [c])
  {
    assert (text + [c])[..|text|] == text;
  }

  /** One step keeps the tail in line with the state. */
  lemma TailStep(st: State, text: string, c: char)
    requires WellFormed(st) && Tail(st, text) && Step(st, c).Some?
    ensures Tail(Step(st, c).value, text + [c])
  {
    hide HexCode, Put, Dump;
    var t := text + [c];
    assert t[..|t| - 1] == text && t[|t| - 1] == c;
    match st.mode
    case AfterValue => TailStepAfter(st, text, c);
    case Done(_) => TailStepAfter(st, text, c);
    case InLiteral(rest, v) => LiteralLetters(rest, v);
    case InNumber(s, p) =>
      if NextPhase(p, c).None? {
        assert !IsSpace(text[|text| - 1]);
        TailStepAfter(Deliver(st.frames, Number(s)), text, c);
      }
    case _ =>
  }

  lemma {:induction false} TailOf(text: string)
    requires Run(START, text).Some?
    ensures Tail(Run(START, text).value, text)
  {
    if text != "" {
      RunSnoc(START, text);
      var a := text[..|text| - 1];
      TailOf(a);
      TailStep(Run(START, a).value, a, text[|text| - 1]);
      assert a + [text[|text| - 1]] == text;
    }
  }

  // ---------------------------------------------------------------- cutting back

  /** What precedes a value: a bracket or comma in an array, a colon in an object. */
  predicate IsSeparator(inArray: bool, c: char) {
    if inArray then c == '[' || c == ',' else c == ':'
  }

  /** The length of the text up to and with its last separator, 0 when it has none. */
  function CutBack(text: string, inArray: bool): (n: nat)
    ensures n <= |text|
    ensures n > 0 ==> IsSeparator(inArray, text[n - 1])
    ensures forall i :: n <= i < |text| ==> !IsSeparator(inArray, text[i])
  {
    if text == "" then 0
    else if IsSeparator(inArray, text[|text| - 1]) then |text|
    else CutBack(text[..|text| - 1], inArray)
  }

  /** The parser is about to read a value on top of `f`. */
  predicate AtValue(st: State, f: Frames) {
    st.frames == f && (st.mode.WantValue? || st.mode.FirstItem?)
  }

  predicate InToken(st: State) {
    st.mode.WantValue? || st.mode.FirstItem? || st.mode.InLiteral? || st.mode.InNumber?
  }

  /** Within a literal or number in a container, the last separator is the one before it. */
  lemma {:induction false} CutBackInToken(text: string)
    requires Run(START, text).Some?
    requires var st := Run(START, text).value; InToken(st) && !st.frames.Bottom?
    ensures var f := Run(START, text).value.frames;
            var n := CutBack(text, f.InArray?);
            n > 0 && Run(START, text[..n]).Some? && AtValue(Run(START, text[..n]).value, f)
  {
    var st := Run(START, text).value;
    assert text != "";
    RunSnoc(START, text);
    var a, c := text[..|text| - 1], text[|text| - 1];
    var before := Run(START, a).value;
    TailOf(text);
    if IsSeparator(st.frames.InArray?, c) {
      assert text[..|text|] == text;
      assert AtValue(st, st.frames);
    } else {
      BeforeInToken(before, c);
      CutBackInToken(a);
      assert a[..CutBack(a, st.frames.InArray?)] == text[..CutBack(a, st.frames.InArray?)];
    }
  }

  /** How a state inside a token is entered other than through a separator. */
  lemma BeforeInToken(before: State, c: char)
    requires WellFormed(before) && Step(before, c).Some? && InToken(Step(before, c).value)
    requires !Step(before, c).value.frames.Bottom? && !IsSeparator(Step(before, c).value.frames.InArray?, c)
    ensures InToken(before) && before.frames == Step(before, c).value.frames
  {
  }

  /** Right after a literal, the last separator is the one before the literal. */
  lemma CutBackAfterLiteral(text: string) returns (f: Frames, v: Json)
    requires Run(START, text).Some? && Run(START, text).value.mode.AfterValue? && text != "" && text[|text| - 1] == 'e'
    ensures Ready(f) && Stacked(f) && !f.Bottom? && Run(START, text).value == Deliver(f, v)
    ensures var n := CutBack(text, f.InArray?);
            n > 0 && Run(START, text[..n]).Some? && AtValue(Run(START, text[..n]).value, f)
  {
    RunSnoc(START, text);
    var a := text[..|text| - 1];
    var before := Run(START, a).value;
    f, v := BeforeLiteralEnd(before);
    CutBackInToken(a);
    assert a[..CutBack(a, f.InArray?)] == text[..CutBack(a, f.InArray?)];
  }

  lemma BeforeLiteralEnd(before: State) returns (f: Frames, v: Json)
    requires WellFormed(before) && Step(before, 'e').Some? && Step(before, 'e').value.mode.AfterValue?
    ensures before.mode.InLiteral? && f == before.frames && Ready(f) && Stacked(f) && !f.Bottom?
    ensures Step(before, 'e').value == Deliver(f, v)
  {
    f, v := before.frames, before.mode.v;
  }
}
