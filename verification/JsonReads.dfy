/**
 What the parser reads besides compact dumps (RFC 8259, sections 2 and 7): white space between tokens
 means nothing, and a string is the characters that it spells, whichever escapes it uses.
 */
module JsonReads {
  import opened Wrappers
  import opened JsonValue
  import opened JsonScanner
  import opened JsonProbe
  import opened JsonHealed

  // ---------------------------------------------------------------- white space

  /** White space as section 2 of RFC 8259 lists it. */
  predicate IsBlank(c: char) {
    c == ' ' || c == '\t' || c == '\n' || c == '\r'
  }

  predicate AllBlank(ws: string) {
    forall i :: 0 <= i < |ws| ==> IsBlank(ws[i])
  }

  /** The parser is at a place where a token may begin. */
  predicate AtToken(st: State) {
    || st.mode.WantValue? || st.mode.FirstItem? || st.mode.FirstKey? || st.mode.WantKey? || st.mode.WantColon?
    || st.mode.AfterValue? || st.mode.Done?
  }

  /** Where a token ends and `b` goes on with another: after a number only if `b` does not continue it. */
  predicate BetweenTokens(st: State, b: string) {
    AtToken(st)
    || (st.mode.InNumber? && IsFinal(st.mode.phase) && (b == "" || NextPhase(st.mode.phase, b[0]).None?))
  }

  lemma BlankStays(st: State, c: char)
    requires WellFormed(st) && AtToken(st) && IsBlank(c)
    ensures Step(st, c) == Some(st)
  {
  }

  lemma {:induction false} BlanksStay(st: State, ws: string)
    requires WellFormed(st) && AtToken(st) && AllBlank(ws)
    ensures Run(st, ws) == Some(st)
    decreases |ws|
  {
    hide Step, WellFormed;
    if ws != "" {
      BlankStays(st, ws[0]);
      BlanksStay(st, ws[1..]);
    }
  }

  /** After the first blank a number is complete. */
  lemma BlankEndsNumber(st: State, c: char)
    requires WellFormed(st) && st.mode.InNumber? && IsFinal(st.mode.phase) && IsBlank(c)
    ensures Step(st, c) == Some(AtEnd(st)) && AtToken(AtEnd(st))
  {
  }

  lemma NumberThen(st: State, b: string)
    requires WellFormed(st) && st.mode.InNumber? && BetweenTokens(st, b)
    ensures Accepts(st, b) <==> Accepts(AtEnd(st), b)
    ensures Accepts(st, b) ==> AtEnd(Run(st, b).value) == AtEnd(Run(AtEnd(st), b).value)
  {
    if b != "" {
      hide Deliver;
      assert b == [b[0]] + b[1..];
      DeliveredAfter(st.frames, Number(st.mode.text));
      assert Step(st, b[0]) == Step(AtEnd(st), b[0]);
      RunFirst(st, b[0], b[1..]);
      RunFirst(AtEnd(st), b[0], b[1..]);
    }
  }

  lemma DeliveredAfter(f: Frames, v: Json)
    requires Ready(f) && Stacked(f)
    ensures Deliver(f, v).mode.AfterValue? || Deliver(f, v).mode.Done?
  {
  }

  /** White space between tokens changes nothing. */
  lemma BlanksBetweenTokens(a: string, ws: string, b: string)
    requires Run(START, a).Some? && AllBlank(ws) && BetweenTokens(Run(START, a).value, b)
    ensures Parse(a + ws + b) == Parse(a + b)
  {
    hide Run, Step, AtEnd, AllBlank, IsBlank, Accepts, BetweenTokens, IsFinal, NextPhase;
    var st := Run(START, a).value;
    assert a + ws + b == a + (ws + b);
    ParseFrom(a, ws + b);
    ParseFrom(a, b);
    if ws == "" {
      assert ws + b == b;
    } else if st.mode.InNumber? {
      var c := ws[0];
      BlankParts(ws);
      BetweenIsFinal(st, b);
      BlankEndsNumber(st, c);
      assert ws + b == [c] + (ws[1..] + b);
      RunFirst(st, c, ws[1..] + b);
      BlanksStay(AtEnd(st), ws[1..]);
      RunConcat(AtEnd(st), ws[1..], b);
      NumberThen(st, b);
      AcceptsIs(st, ws + b);
      AcceptsIs(st, b);
      AcceptsIs(AtEnd(st), b);
    } else {
      TokenPlace(st, b);
      BlanksStay(st, ws);
      RunConcat(st, ws, b);
    }
  }

  lemma BlankParts(ws: string)
    requires AllBlank(ws) && ws != ""
    ensures ws == [ws[0]] + ws[1..] && IsBlank(ws[0]) && AllBlank(ws[1..])
  {
  }

  lemma BetweenIsFinal(st: State, b: string)
    requires BetweenTokens(st, b) && st.mode.InNumber?
    ensures IsFinal(st.mode.phase)
  {
  }

  lemma TokenPlace(st: State, b: string)
    requires BetweenTokens(st, b) && !st.mode.InNumber?
    ensures AtToken(st)
  {
  }

  /** What a run from `st` over `t` parses to. */
  function ParsedFrom(st: State, t: string): Option<Json>
    requires WellFormed(st)
  {
    match Run(st, t)
    case None => None
    case Some(end) => if AtEnd(end).mode.Done? then Some(AtEnd(end).mode.value) else None
  }

  lemma ParseFrom(a: string, t: string)
    requires Run(START, a).Some?
    ensures Parse(a + t) == ParsedFrom(Run(START, a).value, t)
  {
    RunConcat(START, a, t);
    hide Run, AtEnd;
  }

  lemma AcceptsIs(st: State, t: string)
    requires WellFormed(st)
    ensures Accepts(st, t) <==> ParsedFrom(st, t).Some?
    ensures Accepts(st, t) ==> ParsedFrom(st, t) == Some(AtEnd(Run(st, t).value).mode.value)
  {
    hide Run, AtEnd;
  }

  /** The characters a token can begin with at each place, besides white space. */
  lemma TokensBegin(st: State, c: char)
    requires WellFormed(st) && AtToken(st) && Step(st, c).Some? && !IsBlank(c)
    ensures match st.mode
            case WantColon => c == ':'
            case WantKey => c == '\"'
            case FirstKey => c == '\"' || c == '}'
            case AfterValue => c == ',' || c == (if st.frames.InArray? then ']' else '}')
            case Done(_) => false
            case FirstItem => BeginsValue(c) || c == ']'
            case _ => BeginsValue(c)
  {
    hide Deliver;
  }

  predicate BeginsValue(c: char) {
    c == '\"' || c == '[' || c == '{' || c == 'n' || c == 't' || c == 'f' || c == '-' || '0' <= c <= '9'
  }

  // ---------------------------------------------------------------- strings

  /** A piece of a string as it is written: a character, an escape of two, or one of six. */
  datatype Piece = Itself(c: char) | Short(letter: char, c: char) | Unicode(digits: string, c: char)

  const LOWER_DIGITS := "0123456789abcdef"
  const UPPER_DIGITS := "0123456789ABCDEF"

  predicate IsDigitFor(c: char, d: nat) {
    d < 16 && (c == LOWER_DIGITS[d] || c == UPPER_DIGITS[d])
  }

  /** The escapes of section 7 of RFC 8259; characters outside the basic plane are written as themselves. */
  predicate ValidPiece(p: Piece) {
    match p
    case Itself(c) => c >= ' ' && c != '\"' && c != '\\'
    case Short(l, c) =>
      || (l == '\"' && c == '\"') || (l == '\\' && c == '\\') || (l == '/' && c == '/')
      || (l == 'b' && c as int == 8) || (l == 'f' && c as int == 12) || (l == 'n' && c as int == 10)
      || (l == 'r' && c as int == 13) || (l == 't' && c as int == 9)
    case Unicode(d, c) =>
      var n := c as int;
      && |d| == 4 && n < 0x1_0000
      && IsDigitFor(d[0], n / 0x1000) && IsDigitFor(d[1], n / 0x100 % 0x10)
      && IsDigitFor(d[2], n / 0x10 % 0x10) && IsDigitFor(d[3], n % 0x10)
  }

  function PieceText(p: Piece): string {
    match p
    case Itself(c) => [c]
    case Short(l, _) => ['\\', l]
    case Unicode(d, _) => "\\u" + d
  }

  function Written(ps: seq<Piece>): string {
    if ps == [] then "" else Written(ps[..|ps| - 1]) + PieceText(ps[|ps| - 1])
  }

  function Spelled(ps: seq<Piece>): (s: string)
    ensures |s| == |ps| && forall i :: 0 <= i < |s| ==> s[i] == ps[i].c
  {
    seq(|ps|, i requires 0 <= i < |ps| => ps[i].c)
  }

  lemma DigitReads(c: char, d: nat)
    requires IsDigitFor(c, d)
    ensures IsHexDigit(c) && HexValue(c) == d
  {
  }

  predicate HexDigits(digits: string) {
    |digits| == 4 && forall x :: x in digits ==> IsHexDigit(x)
  }

  lemma FourDigits(digits: string, c: char)
    requires ValidPiece(Unicode(digits, c))
    ensures HexDigits(digits) && HexCode(digits) == c as int
  {
    var n := c as int;
    DigitReads(digits[0], n / 0x1000);
    DigitReads(digits[1], n / 0x100 % 0x10);
    DigitReads(digits[2], n / 0x10 % 0x10);
    DigitReads(digits[3], n % 0x10);
    Nibbles(n);
    hide IsDigitFor, HexValue, IsHexDigit;
  }

  lemma Nibbles(n: nat)
    ensures ((n / 0x1000 * 16 + n / 0x100 % 0x10) * 16 + n / 0x10 % 0x10) * 16 + n % 0x10 == n
  {
    var a, b := n / 0x100, n / 0x10;
    assert n / 0x1000 == a / 0x10 && a == b / 0x10;
    assert a == a / 0x10 * 16 + a % 0x10 && b == b / 0x10 * 16 + b % 0x10 && n == n / 0x10 * 16 + n % 0x10;
  }

  lemma HexStep(f: Frames, isKey: bool, s: string, digits: string, c: char)
    requires WellFormed(State(f, InHex(isKey, s, digits))) && |digits| < 3 && IsHexDigit(c)
    ensures WellFormed(State(f, InHex(isKey, s, digits + [c])))
    ensures Run(State(f, InHex(isKey, s, digits)), [c]) == Some(State(f, InHex(isKey, s, digits + [c])))
  {
    hide HexCode;
    RunOne(State(f, InHex(isKey, s, digits)), c);
  }

  lemma LastHexStep(f: Frames, isKey: bool, s: string, digits: string, c: char, x: char)
    requires WellFormed(State(f, InHex(isKey, s, digits))) && |digits| == 3 && IsHexDigit(c)
    requires HexCode(digits + [c]) == x as int
    ensures Run(State(f, InHex(isKey, s, digits)), [c]) == Some(State(f, InString(isKey, s + [x])))
  {
    hide HexCode;
    RunOne(State(f, InHex(isKey, s, digits)), c);
  }

  lemma EscapeOpens(f: Frames, isKey: bool, s: string)
    requires WellFormed(State(f, InString(isKey, s)))
    ensures WellFormed(State(f, InEscape(isKey, s))) && WellFormed(State(f, InHex(isKey, s, "")))
    ensures Run(State(f, InString(isKey, s)), "\\") == Some(State(f, InEscape(isKey, s)))
    ensures Run(State(f, InEscape(isKey, s)), "u") == Some(State(f, InHex(isKey, s, "")))
  {
    RunOne(State(f, InString(isKey, s)), '\\');
    RunOne(State(f, InEscape(isKey, s)), 'u');
  }

  /** The digits that are left of an escape, read one by one. */
  lemma {:induction false} DigitsRun(f: Frames, isKey: bool, s: string, before: string, rest: string, c: char)
    requires WellFormed(State(f, InHex(isKey, s, before))) && |before| + |rest| == 4
    requires forall i :: 0 <= i < |rest| ==> IsHexDigit(rest[i])
    requires HexDigits(before + rest) && HexCode(before + rest) == c as int
    ensures Run(State(f, InHex(isKey, s, before)), rest) == Some(State(f, InString(isKey, s + [c])))
    decreases |rest|
  {
    hide Run, HexCode, IsHexDigit, HexDigits;
    assert rest == [rest[0]] + rest[1..];
    if |rest| == 1 {
      assert rest == [rest[0]];
      LastHexStep(f, isKey, s, before, rest[0], c);
    } else {
      HexStep(f, isKey, s, before, rest[0]);
      assert before + [rest[0]] + rest[1..] == before + rest;
      DigitsRun(f, isKey, s, before + [rest[0]], rest[1..], c);
      RunParts(State(f, InHex(isKey, s, before)), [rest[0]], rest[1..], State(f, InHex(isKey, s, before + [rest[0]])));
    }
  }

  lemma FourAre(d: string, c: char)
    requires ValidPiece(Unicode(d, c))
    ensures |d| == 4
  {
  }

  lemma UnicodeRuns(f: Frames, isKey: bool, s: string, d: string, c: char)
    requires WellFormed(State(f, InString(isKey, s))) && ValidPiece(Unicode(d, c))
    ensures Run(State(f, InString(isKey, s)), "\\u" + d) == Some(State(f, InString(isKey, s + [c])))
  {
    hide Run, ValidPiece, HexCode, IsHexDigit, IsDigitFor;
    FourDigits(d, c);
    FourAre(d, c);
    assert "" + d == d;
    EscapeOpens(f, isKey, s);
    DigitsRun(f, isKey, s, "", d, c);
    hide WellFormed;
    var st, escape := State(f, InString(isKey, s)), State(f, InEscape(isKey, s));
    EscapeText(d);
    RunParts(st, "\\", "u" + d, escape);
    RunParts(escape, "u", d, State(f, InHex(isKey, s, "")));
  }

  lemma EscapeText(d: string)
    ensures "\\u" + d == "\\" + ("u" + d)
  {
    assert "\\u" == "\\" + "u";
  }

  lemma PieceRuns(f: Frames, isKey: bool, s: string, p: Piece)
    requires WellFormed(State(f, InString(isKey, s))) && ValidPiece(p)
    ensures Run(State(f, InString(isKey, s)), PieceText(p)) == Some(State(f, InString(isKey, s + [p.c])))
  {
    var st := State(f, InString(isKey, s));
    match p
    case Itself(c) => RunOne(st, c);
    case Short(l, c) =>
      EscapeOpens(f, isKey, s);
      RunOne(State(f, InEscape(isKey, s)), l);
      assert ['\\', l] == "\\" + [l];
      hide Run;
      RunParts(st, "\\", [l], State(f, InEscape(isKey, s)));
    case Unicode(d, c) => UnicodeRuns(f, isKey, s, d, c);
  }

  lemma {:induction false} PiecesRun(f: Frames, isKey: bool, ps: seq<Piece>)
    requires WellFormed(State(f, InString(isKey, ""))) && forall i :: 0 <= i < |ps| ==> ValidPiece(ps[i])
    ensures Run(State(f, InString(isKey, "")), Written(ps)) == Some(State(f, InString(isKey, Spelled(ps))))
  {
    hide PieceText, ValidPiece;
    var st := State(f, InString(isKey, ""));
    if ps == [] {
      assert Spelled(ps) == "";
      RunNothing(st);
    } else {
      var n := |ps| - 1;
      PiecesRun(f, isKey, ps[..n]);
      PieceRuns(f, isKey, Spelled(ps[..n]), ps[n]);
      hide Run;
      RunParts(st, Written(ps[..n]), PieceText(ps[n]), State(f, InString(isKey, Spelled(ps[..n]))));
      assert Spelled(ps[..n]) + [ps[n].c] == Spelled(ps);
    }
  }

  /** Every way of writing a string parses to its characters. */
  lemma StringsParse(ps: seq<Piece>)
    requires forall i :: 0 <= i < |ps| ==> ValidPiece(ps[i])
    ensures Parse("\"" + Written(ps) + "\"") == Some(String(Spelled(ps)))
  {
    var open, full := State(Bottom, InString(false, "")), State(Bottom, InString(false, Spelled(ps)));
    QuoteSteps(Spelled(ps));
    PiecesRun(Bottom, false, ps);
    hide *;
    assert "\"" + Written(ps) + "\"" == "\"" + (Written(ps) + "\"");
    RunParts(START, "\"", Written(ps) + "\"", open);
    RunParts(open, Written(ps), "\"", full);
    DoneParses("\"" + Written(ps) + "\"", String(Spelled(ps)));
  }

  lemma QuoteSteps(s: string)
    ensures WellFormed(START) && WellFormed(State(Bottom, InString(false, "")))
    ensures WellFormed(State(Bottom, InString(false, s)))
    ensures Run(START, "\"") == Some(State(Bottom, InString(false, "")))
    ensures Run(State(Bottom, InString(false, s)), "\"") == Some(State(Bottom, Done(String(s))))
  {
    var full := State(Bottom, InString(false, s));
    assert Step(START, '\"') == Some(State(Bottom, InString(false, "")));
    assert Step(full, '\"') == Some(State(Bottom, Done(String(s))));
    hide Run, Step;
    RunOne(START, '\"');
    RunOne(full, '\"');
  }

  lemma DoneParses(text: string, v: Json)
    requires Run(START, text) == Some(State(Bottom, Done(v)))
    ensures Parse(text) == Some(v)
  {
  }

  /** A backslash is followed by one of these letters, and by nothing else. */
  lemma EscapesAre(st: State, c: char)
    requires WellFormed(st) && st.mode.InEscape?
    ensures Step(st, c).Some? <==> c == 'u' || exists x :: ValidPiece(Short(c, x))
  {
    if Step(st, c).Some? && c != 'u' {
      assert ValidPiece(Short(c, Unescape(c).value));
    }
  }

  /**
   How a dump writes a character: in the shortest way there is, and with small hexadecimal digits
   where only a unicode escape will do.
   */
  lemma ShortestSpelling(c: char) returns (p: Piece)
    ensures ValidPiece(p) && p.c == c && PieceText(p) == EscapeChar(c)
    ensures forall q :: ValidPiece(q) && q.c == c ==> |EscapeChar(c)| <= |PieceText(q)|
    ensures p.Unicode? ==> forall i :: 0 <= i < 4 ==> p.digits[i] in LOWER_DIGITS
  {
    var t := EscapeChar(c);
    if |t| == 1 {
      p := Itself(c);
    } else if |t| == 2 {
      p := Short(t[1], c);
    } else {
      p := SixLong(c);
    }
  }

  lemma ControlEscape(c: char)
    requires |EscapeChar(c)| > 2
    ensures c < ' '
    ensures EscapeChar(c) == ['\\', 'u', '0', '0', LowHexDigit(c as int / 16), LowHexDigit(c as int % 16)]
    ensures forall q :: ValidPiece(q) && q.c == c ==> q.Unicode?
  {
  }

  lemma SmallDigits(n: nat)
    requires n < 32
    ensures IsDigitFor('0', n / 0x1000) && IsDigitFor('0', n / 0x100 % 0x10)
    ensures IsDigitFor(LowHexDigit(n / 16), n / 0x10 % 0x10) && IsDigitFor(LowHexDigit(n % 16), n % 0x10)
    ensures LowHexDigit(n / 16) in LOWER_DIGITS && LowHexDigit(n % 16) in LOWER_DIGITS && '0' in LOWER_DIGITS
  {
    assert n / 16 < 2 && n / 0x1000 == 0 && n / 0x100 == 0;
    assert LOWER_DIGITS[n / 16] == LowHexDigit(n / 16) && LOWER_DIGITS[n % 16] == LowHexDigit(n % 16);
    assert LOWER_DIGITS[0] == '0';
  }

  /** Control characters without a short escape have two zeros and two small hexadecimal digits. */
  lemma SixLong(c: char) returns (p: Piece)
    requires |EscapeChar(c)| > 2
    ensures ValidPiece(p) && p.Unicode? && p.c == c && PieceText(p) == EscapeChar(c)
    ensures forall i :: 0 <= i < 4 ==> p.digits[i] in LOWER_DIGITS
    ensures forall q :: ValidPiece(q) && q.c == c ==> q.Unicode?
  {
    hide IsDigitFor, EscapeChar, LowHexDigit, LOWER_DIGITS;
    ControlEscape(c);
    var hi, lo := LowHexDigit(c as int / 16), LowHexDigit(c as int % 16);
    p := Unicode(['0', '0', hi, lo], c);
    SmallDigits(c as int);
    assert "\\u" + ['0', '0', hi, lo] == ['\\', 'u', '0', '0', hi, lo];
  }
}
