/**
 Which completions make a partial JSON text parse: the outcome of every `can_parse` that the
 branch tables of common/json-partial.cpp try, for every state the text can stop in.
 */
module JsonProbe {
  import opened Wrappers
  import opened JsonValue
  import opened JsonScanner
  import opened JsonTail

  /** Reading `t` from `st` completes a text. */
  predicate Accepts(st: State, t: string)
    requires WellFormed(st)
  {
    Run(st, t).Some? && AtEnd(Run(st, t).value).mode.Done?
  }

  lemma ParseExtends(text: string, t: string)
    requires Run(START, text).Some?
    ensures Parse(text + t).Some? <==> Accepts(Run(START, text).value, t)
  {
    RunConcat(START, text, t);
  }

  lemma RunFirst(st: State, c: char, t: string)
    requires WellFormed(st)
    ensures Run(st, [c] + t) == match Step(st, c) case None => None case Some(next) => Run(next, t)
  {
    assert ([c] + t)[0] == c && ([c] + t)[1..] == t;
  }

  lemma AcceptsFirst(st: State, c: char, t: string)
    requires WellFormed(st)
    ensures Accepts(st, [c] + t) <==> Step(st, c).Some? && Accepts(Step(st, c).value, t)
  {
    RunFirst(st, c, t);
  }

  /** Inside a string, a text without quotes leads nowhere but further into the string. */
  lemma {:induction false} NoQuoteNoAccept(st: State, t: string)
    requires WellFormed(st) && (st.mode.InString? || st.mode.InEscape? || st.mode.InHex?)
    requires '\"' !in t
    ensures !Accepts(st, t)
    decreases |t|
  {
    if t != "" {
      assert t[0] in t && t == [t[0]] + t[1..];
      AcceptsFirst(st, t[0], t[1..]);
      StepInQuotes(st, t[0]);
      if Step(st, t[0]).Some? {
        NoQuoteNoAccept(Step(st, t[0]).value, t[1..]);
      }
    }
  }

  lemma StepInQuotes(st: State, c: char)
    requires WellFormed(st) && (st.mode.InString? || st.mode.InEscape? || st.mode.InHex?) && c != '\"'
    ensures var n := Step(st, c); n.Some? ==> n.value.mode.InString? || n.value.mode.InEscape? || n.value.mode.InHex?
  {
    hide HexCode;
  }

  // ---------------------------------------------------------------- closing brackets

  /** A number of one digit in a container, then the closing brackets. */
  lemma DigitThenClosers(f: Frames)
    requires Ready(f) && Stacked(f) && !f.Bottom?
    ensures Run(State(f, InNumber("1", Digits)), Closers(f)) == Some(State(Bottom, Done(Nest(f, Number("1")))))
  {
    var c := Closers(f);
    assert c == [c[0]] + c[1..];
    RunFirst(State(f, InNumber("1", Digits)), c[0], c[1..]);
    RunFirst(Deliver(f, Number("1")), c[0], c[1..]);
    ClosersClose(f, Number("1"));
  }

  lemma AcceptsDigit(st: State)
    requires WellFormed(st) && AtValue(st, st.frames) && !st.frames.Bottom?
    ensures Run(st, "1" + Closers(st.frames)) == Some(State(Bottom, Done(Nest(st.frames, Number("1")))))
  {
    RunFirst(st, '1', Closers(st.frames));
    DigitThenClosers(st.frames);
  }

  /** A key has been read: a colon, a digit and the brackets complete the text. */
  lemma AcceptsColonDigit(st: State)
    requires WellFormed(st) && st.mode.WantColon?
    ensures Run(st, ": 1" + Closers(st.frames)) == Some(State(Bottom, Done(Nest(st.frames, Number("1")))))
  {
    var c, f := Closers(st.frames), st.frames;
    assert Step(st, ':') == Some(State(f, WantValue)) && Step(State(f, WantValue), ' ') == Some(State(f, WantValue));
    hide Step, Run, Closers, Nest;
    assert ": 1" + c == [':'] + ([' '] + ("1" + c));
    RunFirst(st, ':', [' '] + ("1" + c));
    RunFirst(State(f, WantValue), ' ', "1" + c);
    AcceptsDigit(State(f, WantValue));
  }

  lemma AcceptsClosers(st: State)
    requires WellFormed(st) && (st.mode.AfterValue? || st.mode.FirstKey?)
    ensures Accepts(st, Closers(st.frames))
  {
    var f, c := st.frames, Closers(st.frames);
    assert c == [c[0]] + Closers(f.below);
    AcceptsFirst(st, c[0], Closers(f.below));
    ClosersClose(f.below, if f.InArray? then Array(f.items) else Object(f.members));
  }

  /** Where the quote of a key leads. */
  function KeyRead(f: Frames, key: string): State
    requires f.InObject? && Stacked(f)
  {
    State(InMember(f.members, key, f.below), WantColon)
  }

  lemma EndKey(st: State)
    requires WellFormed(st) && st.mode.InString? && st.mode.isKey
    ensures Run(st, "\": 1" + Closers(st.frames)) ==
            Some(State(Bottom, Done(Nest(InMember(st.frames.members, st.mode.s, st.frames.below), Number("1")))))
  {
    var c := Closers(st.frames);
    assert "\": 1" + c == ['\"'] + (": 1" + c);
    RunFirst(st, '\"', ": 1" + c);
    AcceptsColonDigit(KeyRead(st.frames, st.mode.s));
  }

  lemma EndValueString(st: State)
    requires WellFormed(st) && st.mode.InString? && !st.mode.isKey && !st.frames.Bottom?
    ensures Run(st, "\"" + Closers(st.frames)) == Some(State(Bottom, Done(Nest(st.frames, String(st.mode.s)))))
  {
    RunFirst(st, '\"', Closers(st.frames));
    ClosersClose(st.frames, String(st.mode.s));
  }

  lemma AcceptsNewKey(st: State)
    requires WellFormed(st) && (st.mode.FirstKey? || st.mode.WantKey?)
    ensures Accepts(st, "\"\": 1" + Closers(st.frames))
  {
    var t := "\": 1" + Closers(st.frames);
    assert "\"\": 1" + Closers(st.frames) == ['\"'] + t;
    AcceptsFirst(st, '\"', t);
    EndKey(State(st.frames, InString(true, "")));
  }

  lemma AcceptsNext(st: State)
    requires WellFormed(st) && st.mode.AfterValue?
    ensures st.frames.InArray? ==> Accepts(st, ", 1" + Closers(st.frames))
    ensures st.frames.InObject? ==> Accepts(st, ",\"\": 1" + Closers(st.frames))
  {
    var c, f := Closers(st.frames), st.frames;
    if f.InArray? {
      assert ", 1" + c == [','] + ([' '] + ("1" + c));
      AcceptsFirst(st, ',', [' '] + ("1" + c));
      AcceptsFirst(State(f, WantValue), ' ', "1" + c);
      AcceptsDigit(State(f, WantValue));
    } else {
      assert ",\"\": 1" + c == [','] + ("\"\": 1" + c);
      AcceptsFirst(st, ',', "\"\": 1" + c);
      AcceptsNewKey(State(f, WantKey));
    }
  }

  /** After a backslash, a second one and a quote end the string. */
  lemma AcceptsAfterEscape(st: State)
    requires WellFormed(st) && st.mode.InEscape? && !st.frames.Bottom?
    ensures !st.mode.isKey ==> Accepts(st, "\\\"" + Closers(st.frames))
    ensures st.mode.isKey ==> Accepts(st, "\\\": 1" + Closers(st.frames))
  {
    var c, in' := Closers(st.frames), State(st.frames, InString(st.mode.isKey, st.mode.s + "\\"));
    if st.mode.isKey {
      assert "\\\": 1" + c == ['\\'] + ("\": 1" + c);
      AcceptsFirst(st, '\\', "\": 1" + c);
      EndKey(in');
    } else {
      assert "\\\"" + c == ['\\'] + ("\"" + c);
      AcceptsFirst(st, '\\', "\"" + c);
      EndValueString(in');
    }
  }

  // ---------------------------------------------------------------- what is rejected

  lemma ClosersQuoteless(f: Frames)
    ensures '\"' !in Closers(f)
    ensures !f.Bottom? ==> Closers(f) != "" && (Closers(f)[0] == ']' || Closers(f)[0] == '}')
  {
    ClosersAreClosers(f);
  }

  /** In a string every completion without a quote is rejected. */
  lemma StringRejects(st: State)
    requires WellFormed(st) && (st.mode.InString? || st.mode.InEscape? || st.mode.InHex?)
    ensures var c := Closers(st.frames);
            !Accepts(st, "1" + c) && !Accepts(st, ": 1" + c) && !Accepts(st, c) && !Accepts(st, ", 1" + c)
  {
    ClosersQuoteless(st.frames);
    var c := Closers(st.frames);
    NoQuoteNoAccept(st, "1" + c);
    NoQuoteNoAccept(st, ": 1" + c);
    NoQuoteNoAccept(st, c);
    NoQuoteNoAccept(st, ", 1" + c);
  }

  /** After a backslash a lone quote is part of the string; in a unicode escape it is an error. */
  lemma EscapeRejectsQuote(st: State)
    requires WellFormed(st) && (st.mode.InEscape? || st.mode.InHex?)
    ensures var c := Closers(st.frames); !Accepts(st, "\"" + c) && !Accepts(st, "\": 1" + c)
  {
    ClosersQuoteless(st.frames);
    var c := Closers(st.frames);
    assert "\": 1" + c == ['\"'] + (": 1" + c);
    AcceptsFirst(st, '\"', c);
    AcceptsFirst(st, '\"', ": 1" + c);
    if st.mode.InEscape? {
      StringRejects(Step(st, '\"').value);
    }
  }

  /** In a string a backslash and a quote leave the string open. */
  lemma StringRejectsEscape(st: State)
    requires WellFormed(st) && st.mode.InString?
    ensures var c := Closers(st.frames); !Accepts(st, "\\\"" + c) && !Accepts(st, "\\\": 1" + c)
  {
    var c, e := Closers(st.frames), State(st.frames, InEscape(st.mode.isKey, st.mode.s));
    assert "\\\"" + c == ['\\'] + ("\"" + c) && "\\\": 1" + c == ['\\'] + ("\": 1" + c);
    AcceptsFirst(st, '\\', "\"" + c);
    AcceptsFirst(st, '\\', "\": 1" + c);
    EscapeRejectsQuote(e);
  }

  /** In a key two quotes in a row are an error, also behind a comma. */
  lemma KeyRejectsNewKey(st: State)
    requires WellFormed(st) && (st.mode.InString? || st.mode.InEscape? || st.mode.InHex?) && st.mode.isKey
    ensures var c := Closers(st.frames);
            (st.mode.InString? ==> !Accepts(st, "\"\": 1" + c)) && !Accepts(st, ",\"\": 1" + c)
  {
    var c, t := Closers(st.frames), "\": 1" + Closers(st.frames);
    assert "\"\": 1" + c == ['\"'] + t && ",\"\": 1" + c == [','] + (['\"'] + t);
    AcceptsFirst(st, '\"', t);
    AcceptsFirst(st, ',', ['\"'] + t);
    if st.mode.InString? {
      AcceptsFirst(Step(st, '\"').value, '\"', ": 1" + c);
      assert t == ['\"'] + (": 1" + c);
      var comma := Step(st, ',').value;
      AcceptsFirst(comma, '\"', t);
      AcceptsFirst(Step(comma, '\"').value, '\"', ": 1" + c);
    }
  }

  /** Before a value, a quote opens a string that nothing closes. */
  lemma ValueRejectsQuote(st: State)
    requires WellFormed(st) && (AtValue(st, st.frames) || st.mode.FirstKey? || st.mode.WantKey?)
    ensures var c := Closers(st.frames);
            (AtValue(st, st.frames) ==> !Accepts(st, "\"" + c)) && (st.frames.InObject? ==> !Accepts(st, "\": 1" + c))
  {
    var c, f := Closers(st.frames), st.frames;
    if f.InObject? {
      assert "\": 1" + c == ['\"'] + (": 1" + c);
      AcceptsFirst(st, '\"', ": 1" + c);
      StringRejects(State(f, InString(true, "")));
    } else {
      AcceptsFirst(st, '\"', c);
      StringRejects(State(f, InString(false, "")));
    }
  }

  /** Nothing that starts with a character the state rejects is accepted. */
  lemma FirstRejected(st: State, t: string)
    requires WellFormed(st) && t != "" && Step(st, t[0]).None?
    ensures !Accepts(st, t)
  {
    assert t == [t[0]] + t[1..];
    AcceptsFirst(st, t[0], t[1..]);
  }

  // ---------------------------------------------------------------- the branch tables

  predicate IsCSpace(c: char) {
    IsSpace(c) || c as int == 11 || c as int == 12
  }

  /** The text may stop inside a number. */
  predicate WasMaybeNumber(text: string) {
    if text != "" && IsCSpace(text[|text| - 1]) then false
    else
      var last := LastNonSpace(text);
      last.Some? && (IsDigit(last.value) || last.value == '.' || last.value == 'e' || last.value == 'E'
                     || last.value == '-')
  }

  /** Inside a value string. */
  lemma ValueStringTable(text: string)
    requires Run(START, text).Some? && WellFormed(Run(START, text).value)
    requires var st := Run(START, text).value;
             (st.mode.InString? || st.mode.InEscape? || st.mode.InHex?) && !st.mode.isKey && !st.frames.Bottom?
    ensures var st := Run(START, text).value;
            var c := Closers(st.frames);
            && !Accepts(st, "1" + c) && !Accepts(st, ": 1" + c) && !Accepts(st, c) && !Accepts(st, ", 1" + c)
            && (Accepts(st, "\"" + c) <==> st.mode.InString?)
            && ((EndsWith(text, '\\') && Accepts(st, "\\\"" + c)) <==> st.mode.InEscape?)
  {
    hide Step, Run, Closers;
    var st := Run(START, text).value;
    TailOf(text);
    StringRejects(st);
    match st.mode
    case InString(_, _) =>
      EndValueString(st);
      StringRejectsEscape(st);
    case InEscape(_, _) =>
      EscapeRejectsQuote(st);
      AcceptsAfterEscape(st);
    case InHex(_, _, _) =>
      EscapeRejectsQuote(st);
  }

  /** Inside a key. */
  lemma KeyStringTable(text: string)
    requires Run(START, text).Some? && WellFormed(Run(START, text).value)
    requires var st := Run(START, text).value;
             (st.mode.InString? || st.mode.InEscape? || st.mode.InHex?) && st.mode.isKey
    ensures var st, last := Run(START, text).value, LastNonSpace(text);
            var c := Closers(st.frames);
            && !Accepts(st, c) && (last == Some(',') ==> !Accepts(st, "\"\": 1" + c)) && !Accepts(st, ",\"\": 1" + c)
            && (Accepts(st, "\": 1" + c) <==> st.mode.InString?)
            && ((EndsWith(text, '\\') && Accepts(st, "\\\": 1" + c)) <==> st.mode.InEscape?)
  {
    hide Step, Run, Closers;
    var st := Run(START, text).value;
    TailOf(text);
    StringRejects(st);
    KeyRejectsNewKey(st);
    match st.mode
    case InString(_, _) =>
      EndKey(st);
      StringRejectsEscape(st);
    case InEscape(_, _) =>
      EscapeRejectsQuote(st);
      AcceptsAfterEscape(st);
    case InHex(_, _, _) =>
      EscapeRejectsQuote(st);
  }

  /** Rejection by the first character, outside strings. */
  lemma TokenRejects(st: State, t: string)
    requires WellFormed(st) && (st.mode.InLiteral? || st.mode.InNumber? || st.mode.AfterValue? || st.mode.WantColon?)
    requires t != "" && (t[0] == '\"' || t[0] == '\\' || (t[0] == ':' && !st.mode.WantColon?)
                         || (t[0] == ',' && !st.mode.AfterValue? && (st.mode.InNumber? ==> !IsFinal(st.mode.phase))))
    ensures !Accepts(st, t)
  {
    if st.mode.InLiteral? {
      LiteralLetters(st.mode.rest, st.mode.v);
    }
    FirstRejected(st, t);
  }

  lemma TokenRejectsClosers(st: State)
    requires WellFormed(st) && !st.frames.Bottom?
    requires st.mode.WantValue? || st.mode.WantColon? || st.mode.InLiteral?
             || (st.mode.InNumber? && !IsFinal(st.mode.phase))
    ensures !Accepts(st, Closers(st.frames))
  {
    ClosersQuoteless(st.frames);
    if st.mode.InLiteral? {
      LiteralLetters(st.mode.rest, st.mode.v);
    }
    FirstRejected(st, Closers(st.frames));
  }

  /** The conditions tried when a key is on top of the stack: each says which state this is. */
  lemma KeyTable(text: string)
    requires Run(START, text).Some? && AtEnd(Run(START, text).value).frames.InMember?
    ensures var st, last := Run(START, text).value, LastNonSpace(text);
            var c := Closers(st.frames);
            && ((last == Some(':') && Accepts(st, "1" + c)) <==> st.mode.WantValue?)
            && (Accepts(st, ": 1" + c) <==> st.mode.WantColon?)
            && !(last == Some('{') && Accepts(st, c))
            && (Accepts(st, "\"" + c) <==> st.mode.InString?)
            && ((EndsWith(text, '\\') && Accepts(st, "\\\"" + c)) <==> st.mode.InEscape?)
  {
    hide Step, Run, Closers, LastNonSpace;
    var st := Run(START, text).value;
    var c, m := Closers(st.frames), st.mode;
    TailOf(text);
    if m.InString? || m.InEscape? || m.InHex? {
      ValueStringTable(text);
    } else {
      TokenRejectsClosers(st);
      if m.WantValue? {
        AcceptsDigit(st);
        ValueRejectsQuote(st);
        WantValueRejects(st, ": 1" + c);
        RejectsBackslash(st, "\\\"" + c);
      } else {
        TokenRejects(st, "\"" + c);
        TokenRejects(st, "\\\"" + c);
        if m.WantColon? {
          AcceptsColonDigit(st);
        } else {
          NotAfterSeparator(text);
          TokenRejects(st, ": 1" + c);
        }
      }
    }
  }

  lemma WantValueRejects(st: State, t: string)
    requires WellFormed(st) && AtValue(st, st.frames) && t != "" && t[0] in ":,"
    ensures !Accepts(st, t)
  {
    FirstRejected(st, t);
  }

  lemma NotAfterSeparator(text: string)
    requires Run(START, text).Some? && (Run(START, text).value.mode.InLiteral? || Run(START, text).value.mode.InNumber?)
    ensures LastNonSpace(text).Some? && LastNonSpace(text).value !in ":,[{"
  {
    TailOf(text);
  }

  /** After a value, the text may stop inside a number exactly when it ends in the `e` of a literal. */
  lemma MaybeNumberAfterValue(text: string)
    requires Run(START, text).Some? && Run(START, text).value.mode.AfterValue?
    ensures WasMaybeNumber(text) <==> EndsWith(text, 'e')
  {
    TailOf(text);
  }

  lemma MaybeNumberInNumber(text: string)
    requires Run(START, text).Some? && Run(START, text).value.mode.InNumber?
             && IsFinal(Run(START, text).value.mode.phase)
    ensures WasMaybeNumber(text)
  {
    TailOf(text);
  }

  /** The conditions tried when an array is on top of the stack. */
  lemma ArrayTable(text: string)
    requires Run(START, text).Some? && AtEnd(Run(START, text).value).frames.InArray?
    ensures var st, last := Run(START, text).value, LastNonSpace(text);
            var c := Closers(st.frames);
            && (((last == Some(',') || last == Some('[')) && Accepts(st, "1" + c)) <==> AtValue(st, st.frames))
            && (Accepts(st, "\"" + c) <==> st.mode.InString?)
            && ((EndsWith(text, '\\') && Accepts(st, "\\\"" + c)) <==> st.mode.InEscape?)
            && ((!WasMaybeNumber(text) && Accepts(st, ", 1" + c)) <==> st.mode.AfterValue? && !EndsWith(text, 'e'))
  {
    hide Step, Run, Closers, LastNonSpace, WasMaybeNumber;
    var st := Run(START, text).value;
    var c, m := Closers(st.frames), st.mode;
    TailOf(text);
    if m.InString? || m.InEscape? || m.InHex? {
      ValueStringTable(text);
    } else if AtValue(st, st.frames) {
      AcceptsDigit(st);
      ValueRejectsQuote(st);
      WantValueRejects(st, ", 1" + c);
      RejectsBackslash(st, "\\\"" + c);
    } else {
      TokenRejects(st, "\"" + c);
      TokenRejects(st, "\\\"" + c);
      if m.AfterValue? {
        AcceptsNext(st);
        MaybeNumberAfterValue(text);
      } else {
        NotAfterSeparator(text);
        if m.InNumber? && IsFinal(m.phase) {
          MaybeNumberInNumber(text);
        } else {
          TokenRejects(st, ", 1" + c);
        }
      }
    }
  }

  lemma RejectsBackslash(st: State, t: string)
    requires WellFormed(st) && (AtValue(st, st.frames) || st.mode.FirstKey? || st.mode.WantKey?) && t != ""
             && t[0] == '\\'
    ensures !Accepts(st, t)
  {
    FirstRejected(st, t);
  }

  lemma KeyPlaceRejectsComma(st: State, t: string)
    requires WellFormed(st) && (st.mode.FirstKey? || st.mode.WantKey?) && t != "" && t[0] == ','
    ensures !Accepts(st, t)
  {
    FirstRejected(st, t);
  }

  /** The conditions tried when an object is on top of the stack. */
  lemma ObjectTable(text: string)
    requires Run(START, text).Some? && AtEnd(Run(START, text).value).frames.InObject?
    ensures var st, last := Run(START, text).value, LastNonSpace(text);
            var c := Closers(st.frames);
            && ((last == Some('{') && Accepts(st, c)) || (last == Some(',') && Accepts(st, "\"\": 1" + c))
                <==> st.mode.FirstKey? || st.mode.WantKey?)
            && ((!WasMaybeNumber(text) && Accepts(st, ",\"\": 1" + c)) <==> st.mode.AfterValue? && !EndsWith(text, 'e'))
            && (Accepts(st, "\": 1" + c) <==> st.mode.InString?)
            && ((EndsWith(text, '\\') && Accepts(st, "\\\": 1" + c)) <==> st.mode.InEscape?)
  {
    hide Step, Run, Closers, LastNonSpace, WasMaybeNumber;
    var st := Run(START, text).value;
    var c, m := Closers(st.frames), st.mode;
    TailOf(text);
    if m.InString? || m.InEscape? || m.InHex? {
      KeyStringTable(text);
    } else if m.FirstKey? || m.WantKey? {
      ValueRejectsQuote(st);
      AcceptsNewKey(st);
      KeyPlaceRejectsComma(st, ",\"\": 1" + c);
      RejectsBackslash(st, "\\\": 1" + c);
      if m.FirstKey? {
        AcceptsClosers(st);
      }
    } else {
      TokenRejects(st, "\": 1" + c);
      TokenRejects(st, "\\\": 1" + c);
      if m.AfterValue? {
        AcceptsNext(st);
        MaybeNumberAfterValue(text);
      } else {
        NotAfterSeparator(text);
        MaybeNumberInNumber(text);
      }
    }
  }
}
