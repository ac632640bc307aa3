/**
 Every storable value scans back from its dump, and its dump is compact at every point.
 */
module JsonRoundTrip {
  import opened Wrappers
  import opened JsonValue
  import opened JsonScanner
  import opened JsonTail
  import opened JsonRender

  /** The phase a number's text ends in. */
  function NumberPhase(text: string): Option<Phase> {
    if text == "" then None
    else if |text| == 1 then FirstPhase(text[0])
    else
      match NumberPhase(text[..|text| - 1])
      case None => None
      case Some(p) => NextPhase(p, text[|text| - 1])
  }

  predicate IsNumber(text: string) {
    NumberPhase(text).Some? && IsFinal(NumberPhase(text).value)
  }

  ghost predicate DistinctKeys(members: seq<Member>) {
    forall i, j :: 0 <= i < j < |members| ==> members[i].key != members[j].key
  }

  /** Numbers are numbers, and no object has a key twice. */
  ghost predicate Storable(v: Json) {
    match v
    case Number(text) => IsNumber(text)
    case Array(items) => forall i :: 0 <= i < |items| ==> Storable(items[i])
    case Object(members) => DistinctKeys(members) && forall i :: 0 <= i < |members| ==> Storable(members[i].value)
    case _ => true
  }

  // ---------------------------------------------------------------- compact runs

  lemma {:induction false} CompactConcat(st: State, a: string, b: string)
    requires WellFormed(st) && CompactRun(st, a) && Run(st, a).Some? && CompactRun(Run(st, a).value, b)
    ensures CompactRun(st, a + b) && Run(st, a + b) == Run(Run(st, a).value, b)
    decreases |a|
  {
    hide Step, CompactStep;
    RunConcat(st, a, b);
    if a == "" {
      assert a + b == b;
    } else {
      assert (a + b)[0] == a[0] && (a + b)[1..] == a[1..] + b;
      CompactConcat(Step(st, a[0]).value, a[1..], b);
    }
  }

  lemma {:induction false} CompactPrefix(st: State, a: string, b: string)
    requires WellFormed(st) && CompactRun(st, a + b)
    ensures CompactRun(st, a)
    decreases |a|
  {
    hide Step, CompactStep;
    if a != "" {
      assert (a + b)[0] == a[0] && (a + b)[1..] == a[1..] + b;
      CompactPrefix(Step(st, a[0]).value, a[1..], b);
    }
  }

  /** A compact run from `st` over `text` to `end`. */
  ghost predicate Leads(st: State, text: string, end: State) {
    WellFormed(st) && CompactRun(st, text) && Run(st, text) == Some(end)
  }

  lemma LeadsOne(st: State, c: char, end: State)
    requires WellFormed(st) && Step(st, c) == Some(end) && CompactStep(st, c)
    ensures Leads(st, [c], end)
  {
    RunOne(st, c);
    assert [c][1..] == "";
  }

  lemma LeadsConcat(st: State, a: string, mid: State, b: string, end: State)
    requires Leads(st, a, mid) && Leads(mid, b, end)
    ensures Leads(st, a + b, end)
  {
    CompactConcat(st, a, b);
  }

  // ---------------------------------------------------------------- strings

  lemma EscapeLeads(f: Frames, isKey: bool, s: string, c: char)
    requires WellFormed(State(f, InString(isKey, s)))
    ensures Leads(State(f, InString(isKey, s)), EscapeChar(c), State(f, InString(isKey, s + [c])))
  {
    var st, e, next := State(f, InString(isKey, s)), State(f, InEscape(isKey, s)), State(f, InString(isKey, s + [c]));
    var t := EscapeChar(c);
    if |t| == 1 {
      LeadsOne(st, c, next);
    } else {
      LeadsOne(st, '\\', e);
      if |t| == 2 {
        assert t == ['\\'] + [t[1]];
        LeadsOne(e, t[1], next);
        LeadsConcat(st, ['\\'], e, [t[1]], next);
      } else {
        UnicodeLeads(f, isKey, s, c);
        assert t == ['\\'] + t[1..];
        LeadsConcat(st, ['\\'], e, t[1..], next);
      }
    }
  }

  lemma HexLeads(f: Frames, isKey: bool, s: string, digits: string, c: char)
    requires WellFormed(State(f, InHex(isKey, s, digits))) && |digits| < 3 && IsHexDigit(c)
    ensures Leads(State(f, InHex(isKey, s, digits)), [c], State(f, InHex(isKey, s, digits + [c])))
    ensures WellFormed(State(f, InHex(isKey, s, digits + [c])))
  {
    hide HexCode, EscapeChar;
    LeadsOne(State(f, InHex(isKey, s, digits)), c, State(f, InHex(isKey, s, digits + [c])));
  }

  lemma EscapeUnicode(f: Frames, isKey: bool, s: string)
    requires WellFormed(State(f, InEscape(isKey, s)))
    ensures Leads(State(f, InEscape(isKey, s)), "u", State(f, InHex(isKey, s, "")))
    ensures WellFormed(State(f, InHex(isKey, s, "")))
  {
    LeadsOne(State(f, InEscape(isKey, s)), 'u', State(f, InHex(isKey, s, "")));
  }

  lemma ControlDigits(c: char)
    requires |EscapeChar(c)| == 6
    ensures var hi, lo := LowHexDigit(c as int / 16), LowHexDigit(c as int % 16);
            && c < ' '
            && EscapeChar(c)[1..] == "u" + "0" + "0" + [hi] + [lo]
            && EscapeChar(c) == "\\u" + (['0', '0', hi] + [lo])
            && HexCode(['0', '0', hi] + [lo]) == c as int
  {
  }

  lemma LeadsChain(s0: State, a: string, s1: State, b: string, s2: State, c: string, s3: State, d: string, s4: State)
    requires Leads(s0, a, s1) && Leads(s1, b, s2) && Leads(s2, c, s3) && Leads(s3, d, s4)
    ensures Leads(s0, a + b + c + d, s4)
  {
    hide Leads;
    LeadsConcat(s0, a, s1, b, s2);
    LeadsConcat(s0, a + b, s2, c, s3);
    LeadsConcat(s0, a + b + c, s3, d, s4);
  }

  lemma UnicodeLeads(f: Frames, isKey: bool, s: string, c: char)
    requires WellFormed(State(f, InEscape(isKey, s))) && |EscapeChar(c)| == 6
    ensures Leads(State(f, InEscape(isKey, s)), EscapeChar(c)[1..], State(f, InString(isKey, s + [c])))
  {
    ControlDigits(c);
    hide Leads, HexCode, EscapeChar, WellFormed;
    var hi, lo := LowHexDigit(c as int / 16), LowHexDigit(c as int % 16);
    var e, end := State(f, InEscape(isKey, s)), State(f, InString(isKey, s + [c]));
    var h0, h1 := State(f, InHex(isKey, s, "")), State(f, InHex(isKey, s, ['0']));
    var h2, h3 := State(f, InHex(isKey, s, ['0', '0'])), State(f, InHex(isKey, s, ['0', '0', hi]));
    assert "" + ['0'] == ['0'] && ['0'] + ['0'] == ['0', '0'] && ['0', '0'] + [hi] == ['0', '0', hi];
    EscapeUnicode(f, isKey, s);
    HexLeads(f, isKey, s, "", '0');
    HexLeads(f, isKey, s, ['0'], '0');
    HexLeads(f, isKey, s, ['0', '0'], hi);
    LastHexLeads(f, isKey, s, ['0', '0', hi], lo, c);
    LeadsChain(e, "u", h0, "0", h1, "0", h2, [hi], h3);
    LeadsConcat(e, "u" + "0" + "0" + [hi], h3, [lo], end);
  }

  lemma LastHexLeads(f: Frames, isKey: bool, s: string, digits: string, lo: char, c: char)
    requires WellFormed(State(f, InHex(isKey, s, digits))) && |digits| == 3 && IsHexDigit(lo)
    requires HexCode(digits + [lo]) == c as int && EscapeChar(c) == "\\u" + (digits + [lo])
    ensures Leads(State(f, InHex(isKey, s, digits)), [lo], State(f, InString(isKey, s + [c])))
  {
    hide HexCode, EscapeChar;
    LeadsOne(State(f, InHex(isKey, s, digits)), lo, State(f, InString(isKey, s + [c])));
  }

  lemma {:induction false} StringLeads(f: Frames, isKey: bool, s: string)
    requires WellFormed(State(f, InString(isKey, "")))
    ensures Leads(State(f, InString(isKey, "")), Escape(s), State(f, InString(isKey, s)))
  {
    hide EscapeChar;
    var st := State(f, InString(isKey, ""));
    if s != "" {
      var n := |s| - 1;
      StringLeads(f, isKey, s[..n]);
      EscapeLeads(f, isKey, s[..n], s[n]);
      assert s[..n] + [s[n]] == s;
      LeadsConcat(st, Escape(s[..n]), State(f, InString(isKey, s[..n])), EscapeChar(s[n]),
                  State(f, InString(isKey, s)));
    }
  }

  lemma QuoteLeads(st: State, isKey: bool, s: string)
    requires WellFormed(st) && (if isKey then st.mode.FirstKey? || st.mode.WantKey? else AtValue(st, st.frames))
    requires isKey ==> !HasKey(st.frames.members, s)
    ensures Leads(st, Quote(s), EndString(st.frames, isKey, s))
  {
    hide Escape;
    var f := st.frames;
    var in0, in1 := State(f, InString(isKey, "")), State(f, InString(isKey, s));
    LeadsOne(st, '\"', in0);
    StringLeads(f, isKey, s);
    LeadsOne(in1, '\"', EndString(f, isKey, s));
    LeadsConcat(st, ['\"'], in0, Escape(s), in1);
    LeadsConcat(st, ['\"'] + Escape(s), in1, ['\"'], EndString(f, isKey, s));
  }

  // ---------------------------------------------------------------- literals and numbers

  lemma {:induction false} LiteralLeads(f: Frames, rest: string, v: Json)
    requires WellFormed(State(f, InLiteral(rest, v)))
    ensures Leads(State(f, InLiteral(rest, v)), rest, Deliver(f, v))
    decreases |rest|
  {
    hide Deliver;
    LiteralLetters(rest, v);
    var st := State(f, InLiteral(rest, v));
    assert rest == [rest[0]] + rest[1..];
    if |rest| == 1 {
      assert rest == [rest[0]];
      LeadsOne(st, rest[0], Deliver(f, v));
    } else {
      var next := State(f, InLiteral(rest[1..], v));
      LeadsOne(st, rest[0], next);
      LiteralLeads(f, rest[1..], v);
      LeadsConcat(st, [rest[0]], next, rest[1..], Deliver(f, v));
    }
  }

  lemma {:induction false} NumberLeads(st: State, text: string)
    requires WellFormed(st) && AtValue(st, st.frames) && NumberPhase(text).Some?
    ensures Leads(st, text, State(st.frames, InNumber(text, NumberPhase(text).value)))
  {
    var f := st.frames;
    var n := |text| - 1;
    if n == 0 {
      assert text == [text[0]];
      LeadsOne(st, text[0], State(f, InNumber(text, NumberPhase(text).value)));
    } else {
      NumberLeads(st, text[..n]);
      assert text == text[..n] + [text[n]];
      var before := State(f, InNumber(text[..n], NumberPhase(text[..n]).value));
      NumberStep(before, text[n]);
      LeadsConcat(st, text[..n], before, [text[n]], State(f, InNumber(text, NumberPhase(text).value)));
    }
  }

  lemma NumberStep(st: State, c: char)
    requires WellFormed(st) && st.mode.InNumber? && NextPhase(st.mode.phase, c).Some?
    ensures Leads(st, [c], State(st.frames, InNumber(st.mode.text + [c], NextPhase(st.mode.phase, c).value)))
  {
    LeadsOne(st, c, State(st.frames, InNumber(st.mode.text + [c], NextPhase(st.mode.phase, c).value)));
  }

  // ---------------------------------------------------------------- values

  /** `a` is `b`, or will be once a number that is being read has ended. */
  predicate Settles(a: State, b: State)
    requires WellFormed(a)
  {
    a == b || (a.mode.InNumber? && AtEnd(a) == b)
  }

  /** Reading `text` from `st` completes it to `end`, perhaps but for the end of a number. */
  ghost predicate Reaches(st: State, text: string, end: State) {
    WellFormed(st) && CompactRun(st, text) && Run(st, text).Some? && Settles(Run(st, text).value, end)
  }

  /** A comma or bracket after a value. */
  lemma ReachesThen(st: State, text: string, mid: State, c: char, end: State)
    requires Reaches(st, text, mid) && WellFormed(mid) && (mid.mode.AfterValue? || mid.mode.Done?)
    requires StepAfter(mid, c) == Some(end) && c in ",]}"
    ensures Leads(st, text + [c], end)
  {
    var a := Run(st, text).value;
    SettledStep(a, mid, c);
    hide Step, StepAfter;
    LeadsOne(a, c, end);
    LeadsConcat(st, text, a, [c], end);
  }

  lemma SettledStep(a: State, mid: State, c: char)
    requires WellFormed(a) && WellFormed(mid) && Settles(a, mid) && (mid.mode.AfterValue? || mid.mode.Done?)
             && c in ",]}"
    ensures Step(a, c) == StepAfter(mid, c) && CompactStep(a, c)
  {
  }

  lemma LeadsReaches(st: State, a: string, mid: State, b: string, end: State)
    requires Leads(st, a, mid) && Reaches(mid, b, end)
    ensures Reaches(st, a + b, end)
  {
    CompactConcat(st, a, b);
  }

  /** A scan of a dump delivers the value. */
  lemma {:induction false} DumpReaches(v: Json, st: State)
    requires Storable(v) && WellFormed(st) && AtValue(st, st.frames)
    ensures Reaches(st, Dump(v), Deliver(st.frames, v))
    decreases v, 2
  {
    hide Step, Run, CompactRun, Deliver;
    var f := st.frames;
    match v
    case Number(text) =>
      NumberLeads(st, text);
      NumberSettles(st.frames, text);
    case String(s) =>
      QuoteLeads(st, false, s);
      StringDelivers(f, s);
    case Array(items) =>
      ArrayReaches(items, st);
    case Object(members) =>
      ObjectReaches(members, st);
    case _ =>
      ScalarLeads(v, st);
  }

  lemma StringDelivers(f: Frames, s: string)
    requires Ready(f) && Stacked(f)
    ensures EndString(f, false, s) == Deliver(f, String(s))
  {
  }

  lemma NumberSettles(f: Frames, text: string)
    requires Ready(f) && Stacked(f) && IsNumber(text)
    ensures WellFormed(State(f, InNumber(text, NumberPhase(text).value)))
    ensures Settles(State(f, InNumber(text, NumberPhase(text).value)), Deliver(f, Number(text)))
  {
  }

  lemma ScalarLeads(v: Json, st: State)
    requires (v.Null? || v.Bool?) && WellFormed(st) && AtValue(st, st.frames)
    ensures Leads(st, Dump(v), Deliver(st.frames, v))
  {
    hide Deliver;
    var d, f := Dump(v), st.frames;
    var next := State(f, InLiteral(d[1..], v));
    assert d == [d[0]] + d[1..];
    LeadsOne(st, d[0], next);
    LiteralLeads(f, d[1..], v);
    LeadsConcat(st, [d[0]], next, d[1..], Deliver(f, v));
  }

  lemma {:induction false} ArrayReaches(items: seq<Json>, st: State)
    requires (forall i :: 0 <= i < |items| ==> Storable(items[i])) && WellFormed(st) && AtValue(st, st.frames)
    ensures Leads(st, Dump(Array(items)), Deliver(st.frames, Array(items)))
    decreases items, 1
  {
    hide Run, CompactRun, Deliver;
    var f := st.frames;
    var open := State(InArray([], f), FirstItem);
    var end := Deliver(f, Array(items));
    LeadsOne(st, '[', open);
    if items == [] {
      LeadsOne(open, ']', end);
      LeadsConcat(st, "[", open, "]", end);
      assert "[" + DumpItems([]) + "]" == "[" + "]";
    } else {
      ItemsReach(items, f);
      var after := State(InArray(items, f), AfterValue);
      ReachesThen(open, DumpItems(items), after, ']', end);
      LeadsConcat(st, "[", open, DumpItems(items) + "]", end);
      assert "[" + DumpItems(items) + "]" == "[" + (DumpItems(items) + "]");
    }
  }

  lemma {:induction false} ItemsReach(items: seq<Json>, below: Frames)
    requires items != [] && (forall i :: 0 <= i < |items| ==> Storable(items[i])) && Ready(below) && Stacked(below)
    ensures Reaches(State(InArray([], below), FirstItem), DumpItems(items), State(InArray(items, below), AfterValue))
    decreases items, 0
  {
    hide Run, CompactRun;
    var n := |items| - 1;
    var init, open := items[..n], State(InArray([], below), FirstItem);
    assert init + [items[n]] == items;
    if n == 0 {
      DumpReaches(items[n], open);
      assert init == [];
      assert DumpItems(items) == "" + Dump(items[n]) == Dump(items[n]);
    } else {
      ItemsReach(init, below);
      var after, want := State(InArray(init, below), AfterValue), State(InArray(init, below), WantValue);
      ReachesThen(open, DumpItems(init), after, ',', want);
      DumpReaches(items[n], want);
      LeadsReaches(open, DumpItems(init) + ",", want, Dump(items[n]), State(InArray(items, below), AfterValue));
    }
  }

  lemma {:induction false} ObjectReaches(members: seq<Member>, st: State)
    requires DistinctKeys(members) && (forall i :: 0 <= i < |members| ==> Storable(members[i].value))
    requires WellFormed(st) && AtValue(st, st.frames)
    ensures Leads(st, Dump(Object(members)), Deliver(st.frames, Object(members)))
    decreases members, 1
  {
    hide Run, CompactRun, Deliver;
    var f := st.frames;
    var open := State(InObject([], f), FirstKey);
    var end := Deliver(f, Object(members));
    LeadsOne(st, '{', open);
    if members == [] {
      LeadsOne(open, '}', end);
      LeadsConcat(st, "{", open, "}", end);
      assert "{" + DumpMembers([]) + "}" == "{" + "}";
    } else {
      MembersReach(members, f);
      var after := State(InObject(members, f), AfterValue);
      ReachesThen(open, DumpMembers(members), after, '}', end);
      LeadsConcat(st, "{", open, DumpMembers(members) + "}", end);
      assert "{" + DumpMembers(members) + "}" == "{" + (DumpMembers(members) + "}");
    }
  }

  lemma {:induction false} MembersReach(members: seq<Member>, below: Frames)
    requires members != [] && DistinctKeys(members) && (forall i :: 0 <= i < |members| ==> Storable(members[i].value))
    requires Ready(below) && Stacked(below)
    ensures Reaches(State(InObject([], below), FirstKey), DumpMembers(members),
                    State(InObject(members, below), AfterValue))
    decreases members, 0
  {
    hide Run, CompactRun;
    var n := |members| - 1;
    var init, open := members[..n], State(InObject([], below), FirstKey);
    var last := members[n];
    assert last in members;
    var start := if n == 0 then open else State(InObject(init, below), WantKey);
    assert !HasKey(init, last.key);
    if n > 0 {
      MembersReach(init, below);
      ReachesThen(open, DumpMembers(init), State(InObject(init, below), AfterValue), ',', start);
    } else {
      assert init == [];
    }
    MemberReaches(init, last, below, start);
    assert init + [last] == members;
    var end := State(InObject(members, below), AfterValue);
    if n > 0 {
      LeadsReaches(open, DumpMembers(init) + ",", start, DumpMember(last), end);
    } else {
      assert DumpMembers(members) == "" + DumpMember(last) == DumpMember(last);
    }
  }

  lemma {:induction false} MemberReaches(init: seq<Member>, last: Member, below: Frames, start: State)
    requires WellFormed(start) && start.frames == InObject(init, below) && (start.mode.FirstKey? || start.mode.WantKey?)
    requires !HasKey(init, last.key) && Storable(last.value)
    ensures Reaches(start, DumpMember(last), State(InObject(init + [last], below), AfterValue))
    decreases last, 3
  {
    hide Run, CompactRun, Quote;
    var f := InMember(init, last.key, below);
    var colon, want := State(f, WantColon), State(f, WantValue);
    QuoteLeads(start, true, last.key);
    LeadsOne(colon, ':', want);
    LeadsConcat(start, Quote(last.key), colon, ":", want);
    DumpReaches(last.value, want);
    LeadsReaches(start, Quote(last.key) + ":", want, Dump(last.value), Deliver(f, last.value));
  }

  /** Parsing a dump gives the value back. */
  lemma ParseDump(v: Json)
    requires Storable(v)
    ensures Parse(Dump(v)) == Some(v)
  {
    DumpReaches(v, START);
  }

  /** Every prefix of a dump is where the scan stands, written out. */
  lemma PrefixIsRendered(v: Json, n: nat)
    requires Storable(v) && n <= |Dump(v)|
    ensures Run(START, Dump(v)[..n]).Some?
    ensures var st := Run(START, Dump(v)[..n]).value; Render(st) == Dump(v)[..n] && Fresh(st.frames)
  {
    DumpReaches(v, START);
    var d := Dump(v);
    assert d == d[..n] + d[n..];
    CompactPrefix(START, d[..n], d[n..]);
    RenderRun(START, d[..n]);
    assert "" + d[..n] == d[..n];
  }
}
