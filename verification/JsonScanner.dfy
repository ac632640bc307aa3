/**
 A JSON text parser that reads one character at a time (RFC 8259, sections 2 to 7), standing in for
 the JSON library's lexer and parser. Since it keeps its state between characters, it says for every
 text how far parsing got: `Run` is defined exactly on the texts that some continuation completes.
 */
module JsonScanner {
  import opened Wrappers
  import opened JsonValue

  /** The open containers, innermost first; `InMember` is an object whose next key has been read. */
  datatype Frames =
    | Bottom
    | InArray(items: seq<Json>, below: Frames)
    | InObject(members: seq<Member>, below: Frames)
    | InMember(members: seq<Member>, key: string, below: Frames)

  datatype Phase = Minus | Zero | Digits | Dot | Fraction | Exponent | ExponentSign | ExponentDigits

  datatype Mode =
    | WantValue
    | FirstItem
    | FirstKey
    | WantKey
    | WantColon
    | AfterValue
    | InString(isKey: bool, s: string)
    | InEscape(isKey: bool, s: string)
    | InHex(isKey: bool, s: string, digits: string)
    | InLiteral(rest: string, v: Json)
    | InNumber(text: string, phase: Phase)
    | Done(value: Json)

  datatype State = State(frames: Frames, mode: Mode)

  const START := State(Bottom, WantValue)

  /** A value may be stored on top of these frames. */
  predicate Ready(f: Frames) {
    !f.InObject?
  }

  predicate Stacked(f: Frames) {
    match f
    case Bottom => true
    case InArray(_, below) => Ready(below) && Stacked(below)
    case InObject(_, below) => Ready(below) && Stacked(below)
    case InMember(_, _, below) => Ready(below) && Stacked(below)
  }

  /** The letters that are still to come of a literal. */
  predicate RestOf(rest: string, v: Json) {
    && (v.Null? || v.Bool?)
    && 0 < |rest| < |Dump(v)|
    && rest == Dump(v)[|Dump(v)| - |rest|..]
  }

  predicate WellFormed(st: State) {
    var f := st.frames;
    && Stacked(f)
    && match st.mode
       case WantValue => Ready(f) && (f.InArray? ==> f.items != [])
       case FirstItem => f.InArray? && f.items == []
       case FirstKey => f.InObject? && f.members == []
       case WantKey => f.InObject? && f.members != []
       case WantColon => f.InMember?
       case AfterValue => (f.InArray? && f.items != []) || (f.InObject? && f.members != [])
       case InString(isKey, _) => f.InObject? == isKey
       case InEscape(isKey, _) => f.InObject? == isKey
       case InHex(isKey, _, digits) => f.InObject? == isKey && |digits| < 4 && forall c :: c in digits ==> IsHexDigit(c)
       case InLiteral(rest, v) => Ready(f) && RestOf(rest, v)
       case InNumber(text, _) => Ready(f) && text != ""
       case Done(_) => f.Bottom?
  }

  /** A value is complete. */
  function Deliver(f: Frames, v: Json): (st: State)
    requires Ready(f) && Stacked(f)
    ensures WellFormed(st)
  {
    match f
    case Bottom => State(Bottom, Done(v))
    case InArray(items, below) => State(InArray(items + [v], below), AfterValue)
    case InMember(members, key, below) => State(InObject(Put(members, key, v), below), AfterValue)
  }

  predicate IsSpace(c: char) {
    c == ' ' || c == '\n' || c == '\r' || c == '\t'
  }

  predicate IsDigit(c: char) {
    '0' <= c <= '9'
  }

  function NextPhase(p: Phase, c: char): Option<Phase> {
    match p
    case Minus => if c == '0' then Some(Zero) else if IsDigit(c) then Some(Digits) else None
    case Zero => if c == '.' then Some(Dot) else if c == 'e' || c == 'E' then Some(Exponent) else None
    case Digits =>
      if IsDigit(c) then Some(Digits) else if c == '.' then Some(Dot) else if c == 'e' || c == 'E' then Some(Exponent)
          else None
    case Dot => if IsDigit(c) then Some(Fraction) else None
    case Fraction => if IsDigit(c) then Some(Fraction) else if c == 'e' || c == 'E' then Some(Exponent) else None
    case Exponent => if IsDigit(c) then Some(ExponentDigits) else if c == '+' || c == '-' then Some(ExponentSign)
        else None
    case ExponentSign => if IsDigit(c) then Some(ExponentDigits) else None
    case ExponentDigits => if IsDigit(c) then Some(ExponentDigits) else None
  }

  predicate IsFinal(p: Phase) {
    p.Zero? || p.Digits? || p.Fraction? || p.ExponentDigits?
  }

  function FirstPhase(c: char): Option<Phase> {
    if c == '-' then Some(Minus) else NextPhase(Minus, c)
  }

  function StartLiteral(c: char): Option<Json> {
    if c == 'n' then Some(Null) else if c == 't' then Some(Bool(true)) else if c == 'f' then Some(Bool(false)) else None
  }

  /** The character behind a backslash, for the escapes of two characters. */
  function Unescape(c: char): Option<char> {
    if c == '\"' || c == '\\' || c == '/' then Some(c)
    else if c == 'b' then Some(BACKSPACE)
    else if c == 'f' then Some(FORM_FEED)
    else if c == 'n' then Some('\n')
    else if c == 'r' then Some('\r')
    else if c == 't' then Some('\t')
    else None
  }

  function HexCode(digits: string): (r: nat)
    requires |digits| == 4 && forall c :: c in digits ==> IsHexDigit(c)
    ensures r < 0x1_0000
  {
    ((HexValue(digits[0]) * 16 + HexValue(digits[1])) * 16 + HexValue(digits[2])) * 16 + HexValue(digits[3])
  }

  function StartValue(f: Frames, c: char): (r: Option<State>)
    requires Ready(f) && Stacked(f)
    ensures r.Some? ==> WellFormed(r.value)
  {
    if c == '\"' then Some(State(f, InString(false, "")))
    else if c == '[' then Some(State(InArray([], f), FirstItem))
    else if c == '{' then Some(State(InObject([], f), FirstKey))
    else if StartLiteral(c).Some? then
      var v := StartLiteral(c).value;
      Some(State(f, InLiteral(Dump(v)[1..], v)))
    else if FirstPhase(c).Some? then Some(State(f, InNumber([c], FirstPhase(c).value)))
    else None
  }

  /** A character after a complete value. */
  function StepAfter(st: State, c: char): (r: Option<State>)
    requires WellFormed(st) && (st.mode.AfterValue? || st.mode.Done?)
    ensures r.Some? ==> WellFormed(r.value)
  {
    if IsSpace(c) then Some(st)
    else
      match st.frames
      case InArray(items, below) =>
        if c == ',' then Some(State(st.frames, WantValue))
        else if c == ']' then Some(Deliver(below, Array(items)))
        else None
      case InObject(members, below) =>
        if c == ',' then Some(State(st.frames, WantKey))
        else if c == '}' then Some(Deliver(below, Object(members)))
        else None
      case _ => None
  }

  function EndString(f: Frames, isKey: bool, s: string): (st: State)
    requires Stacked(f) && f.InObject? == isKey
    ensures WellFormed(st)
  {
    if isKey then State(InMember(f.members, s, f.below), WantColon) else Deliver(f, String(s))
  }

  function StepHex(f: Frames, isKey: bool, s: string, digits: string, c: char): (r: Option<State>)
    requires WellFormed(State(f, InHex(isKey, s, digits)))
    ensures r.Some? ==> WellFormed(r.value)
  {
    if !IsHexDigit(c) then None
    else if |digits| < 3 then Some(State(f, InHex(isKey, s, digits + [c])))
    else
      var n := HexCode(digits + [c]);
      if 0xD800 <= n < 0xE000 then None else Some(State(f, InString(isKey, s + [n as char])))
  }

  function Step(st: State, c: char): (r: Option<State>)
    requires WellFormed(st)
    ensures r.Some? ==> WellFormed(r.value)
  {
    var f := st.frames;
    match st.mode
    case WantValue => if IsSpace(c) then Some(st) else StartValue(f, c)
    case FirstItem =>
      if IsSpace(c) then Some(st) else if c == ']' then Some(Deliver(f.below, Array([]))) else StartValue(f, c)
    case FirstKey =>
      if IsSpace(c) then Some(st)
      else if c == '}' then Some(Deliver(f.below, Object([])))
      else if c == '\"' then Some(State(f, InString(true, "")))
      else None
    case WantKey =>
      if IsSpace(c) then Some(st) else if c == '\"' then Some(State(f, InString(true, ""))) else None
    case WantColon =>
      if IsSpace(c) then Some(st) else if c == ':' then Some(State(f, WantValue)) else None
    case AfterValue => StepAfter(st, c)
    case Done(_) => StepAfter(st, c)
    case InString(isKey, s) =>
      if c == '\"' then Some(EndString(f, isKey, s))
      else if c == '\\' then Some(State(f, InEscape(isKey, s)))
      else if c < ' ' then None
      else Some(State(f, InString(isKey, s + [c])))
    case InEscape(isKey, s) =>
      if c == 'u' then Some(State(f, InHex(isKey, s, "")))
      else if Unescape(c).Some? then Some(State(f, InString(isKey, s + [Unescape(c).value])))
      else None
    case InHex(isKey, s, digits) => StepHex(f, isKey, s, digits, c)
    case InLiteral(rest, v) =>
      if c != rest[0] then None
      else if |rest| == 1 then Some(Deliver(f, v))
      else Some(State(f, InLiteral(rest[1..], v)))
    case InNumber(text, phase) =>
      if NextPhase(phase, c).Some? then Some(State(f, InNumber(text + [c], NextPhase(phase, c).value)))
      else if IsFinal(phase) then StepAfter(Deliver(f, Number(text)), c)
      else None
  }

  function Run(st: State, text: string): (r: Option<State>)
    requires WellFormed(st)
    ensures r.Some? ==> WellFormed(r.value)
    decreases |text|
  {
    if text == "" then Some(st)
    else
      match Step(st, text[0])
      case None => None
      case Some(next) => Run(next, text[1..])
  }

  /** At the end of the text a number that may end there is complete. */
  function AtEnd(st: State): (r: State)
    requires WellFormed(st)
    ensures WellFormed(r)
  {
    match st.mode
    case InNumber(text, phase) => if IsFinal(phase) then Deliver(st.frames, Number(text)) else st
    case _ => st
  }

  function Parse(text: string): Option<Json> {
    match Run(START, text)
    case None => None
    case Some(st) => if AtEnd(st).mode.Done? then Some(AtEnd(st).mode.value) else None
  }

  // ---------------------------------------------------------------- runs

  lemma {:induction false} RunConcat(st: State, a: string, b: string)
    requires WellFormed(st)
    ensures Run(st, a + b) == match Run(st, a) case None => None case Some(m) => Run(m, b)
    decreases |a|
  {
    hide Step, WellFormed;
    if a == "" {
      assert a + b == b;
    } else {
      assert (a + b)[0] == a[0] && (a + b)[1..] == a[1..] + b;
      match Step(st, a[0])
      case None =>
      case Some(next) => RunConcat(next, a[1..], b);
    }
  }

  lemma RunOne(st: State, c: char)
    requires WellFormed(st)
    ensures Run(st, [c]) == Step(st, c)
  {
    hide Step;
    assert [c][1..] == "";
    match Step(st, c)
    case None =>
    case Some(next) => assert Run(next, "") == Some(next);
  }

  /** The run on a text, one character from its end. */
  lemma RunSnoc(st: State, text: string)
    requires WellFormed(st) && text != ""
    ensures Run(st, text) ==
            match Run(st, text[..|text| - 1]) case None => None case Some(m) => Step(m, text[|text| - 1])
  {
    hide Step, WellFormed;
    var a, c := text[..|text| - 1], text[|text| - 1];
    assert text == a + [c];
    RunConcat(st, a, [c]);
    match Run(st, a)
    case None =>
    case Some(m) => RunOne(m, c);
  }

  // ---------------------------------------------------------------- closing what is open

  /** The brackets that close all open containers, innermost first. */
  function Closers(f: Frames): string {
    match f
    case Bottom => ""
    case InArray(_, below) => "]" + Closers(below)
    case InObject(_, below) => "}" + Closers(below)
    case InMember(_, _, below) => "}" + Closers(below)
  }

  /** The whole value, once `v` is stored in the innermost container and all are closed. */
  function Nest(f: Frames, v: Json): Json
    requires Ready(f) && Stacked(f)
  {
    match f
    case Bottom => v
    case InArray(items, below) => Nest(below, Array(items + [v]))
    case InMember(members, key, below) => Nest(below, Object(Put(members, key, v)))
  }

  lemma {:induction false} ClosersClose(f: Frames, v: Json)
    requires Ready(f) && Stacked(f)
    ensures Run(Deliver(f, v), Closers(f)) == Some(State(Bottom, Done(Nest(f, v))))
  {
    match f
    case Bottom =>
    case InArray(items, below) =>
      assert Closers(f)[1..] == Closers(below);
      ClosersClose(below, Array(items + [v]));
    case InMember(members, key, below) =>
      assert Closers(f)[1..] == Closers(below);
      ClosersClose(below, Object(Put(members, key, v)));
  }

  predicate OnlyClosers(t: string) {
    forall i :: 0 <= i < |t| ==> t[i] == ']' || t[i] == '}'
  }

  lemma {:induction false} ClosersAreClosers(f: Frames)
    ensures OnlyClosers(Closers(f))
  {
    if !f.Bottom? {
      ClosersAreClosers(f.below);
    }
  }

  /** No other brackets close what is open. */
  lemma {:induction false} OnlyItsClosersClose(f: Frames, v: Json, t: string)
    requires Ready(f) && Stacked(f) && OnlyClosers(t)
    requires Run(Deliver(f, v), t).Some? && Run(Deliver(f, v), t).value.mode.Done?
    ensures t == Closers(f)
  {
    if t != "" {
      assert t == [t[0]] + t[1..];
      match f
      case Bottom =>
      case InArray(items, below) =>
        OnlyItsClosersClose(below, Array(items + [v]), t[1..]);
      case InMember(members, key, below) =>
        OnlyItsClosersClose(below, Object(Put(members, key, v)), t[1..]);
    }
  }
}
