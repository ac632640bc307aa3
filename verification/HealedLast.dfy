/**
 What becomes of the last value in front of the place where a text stops (common/json-partial.cpp):
 numbers and literals that might go on are dropped, any other value is kept.
 */
module HealedLast {
  import opened Wrappers
  import opened JsonValue
  import opened JsonScanner
  import opened JsonTail
  import opened JsonProbe
  import opened JsonHealing
  import opened JsonHealed
  import opened JsonRender
  import opened JsonRoundTrip
  import opened JsonPartial
  import opened JsonEnd
  import opened JsonReads

  /** A text that stops where a value of an open container is due. */
  ghost predicate ValueIsDue(p: string) {
    && Run(START, p).Some?
    && var st := Run(START, p).value; AtValue(st, st.frames) && !st.frames.Bottom?
  }

  /** The open containers closed, with `v` and then the marker in the innermost one. */
  function ClosedAfter(f: Frames, v: Json, marker: string): Json
    requires Ready(f) && Stacked(f) && !f.Bottom?
  {
    match f
    case InArray(items, below) => Nest(below, Array(items + [v, String(marker)]))
    case InMember(members, key, below) =>
      Nest(below, Object(Put(Put(members, key, v), marker, Number("1"))))
  }

  // ---------------------------------------------------------------- within a number or a literal

  lemma LiteralStep(f: Frames, rest: string, v: Json)
    requires WellFormed(State(f, InLiteral(rest, v))) && |rest| > 1
    ensures Step(State(f, InLiteral(rest, v)), rest[0]) == Some(State(f, InLiteral(rest[1..], v)))
  {
  }

  lemma LiteralStart(st: State, v: Json)
    requires WellFormed(st) && AtValue(st, st.frames) && (v.Null? || v.Bool?)
    ensures |Dump(v)| > 1 && Step(st, Dump(v)[0]) == Some(State(st.frames, InLiteral(Dump(v)[1..], v)))
  {
  }

  lemma {:induction false} LiteralBegun(st: State, v: Json, k: nat)
    requires WellFormed(st) && AtValue(st, st.frames) && (v.Null? || v.Bool?) && 0 < k < |Dump(v)|
    ensures Run(st, Dump(v)[..k]) == Some(State(st.frames, InLiteral(Dump(v)[k..], v)))
  {
    LiteralStart(st, v);
    hide Run, Step, Dump;
    var d := Dump(v);
    if k == 1 {
      assert d[..1] == [d[0]];
      RunOne(st, d[0]);
    } else {
      LiteralBegun(st, v, k - 1);
      RunSnoc(st, d[..k]);
      assert d[..k][..k - 1] == d[..k - 1] && d[k - 1..][0] == d[k - 1] && d[k - 1..][1..] == d[k..];
      LiteralStep(st.frames, d[k - 1..], v);
    }
  }

  lemma {:induction false} NumberBegun(text: string, k: nat)
    requires NumberPhase(text).Some? && 0 < k <= |text|
    ensures NumberPhase(text[..k]).Some?
    decreases |text|
  {
    if k == |text| {
      assert text[..k] == text;
    } else {
      var n := |text| - 1;
      NumberBegun(text[..n], k);
      assert text[..n][..k] == text[..k];
    }
  }

  /** Where the scan stands within a number or literal, or right behind a number. */
  lemma ScalarBegun(st: State, v: Json, k: nat)
    requires WellFormed(st) && AtValue(st, st.frames) && Storable(v) && k <= |Dump(v)|
    requires v.Number? || ((v.Null? || v.Bool?) && k < |Dump(v)|)
    ensures var r := Run(st, Dump(v)[..k]);
            r.Some? && r.value.frames == st.frames && (k == 0 ==> r.value == st)
            && (k > 0 ==> r.value.mode.InNumber? || r.value.mode.InLiteral?)
  {
    if k > 0 {
      if v.Number? {
        NumberBegun(v.text, k);
        NumberLeads(st, v.text[..k]);
      } else {
        LiteralBegun(st, v, k);
      }
    }
  }

  lemma TokenTarget(text: string, marker: string)
    requires Run(START, text).Some?
    requires var st := Run(START, text).value; InToken(st) && !st.frames.Bottom?
    ensures var st := Run(START, text).value;
            && Ready(st.frames) && Stacked(st.frames) && Healable(text)
            && TargetOf(text, marker) == Target(st.frames, String(marker)) && PlanFor(st, text).glue == "\""
  {
    hide Run, CutBack;
    CutBackInToken(text);
  }

  /** A text that stops in a token, or where a value is due: the token is dropped. */
  lemma TokenDropped(text: string, marker: string)
    requires Run(START, text).Some? && IsMarker(marker)
    requires var st := Run(START, text).value; InToken(st) && !st.frames.Bottom?
    ensures var f := Run(START, text).value.frames;
            && Ready(f) && Stacked(f)
            && OutcomeOf(text, marker) == Parsed(Nest(f, String(marker)), marker, "\"" + marker, |text|)
  {
    hide *;
    TokenTarget(text, marker);
    WholeIsRead(text, marker);
  }

  /** Text that scans to its end with a container open and can be healed. */
  lemma WholeIsRead(text: string, marker: string)
    requires Run(START, text).Some? && !Run(START, text).value.frames.Bottom? && IsMarker(marker)
    ensures Healable(text) ==>
              var t, glue := TargetOf(text, marker), PlanFor(Run(START, text).value, text).glue;
              OutcomeOf(text, marker) == Parsed(Nest(t.frames, t.leaf), marker, glue + marker, |text|)
  {
    hide Run, Nest, TargetOf, PlanFor, Healable, OutcomeOf;
    assert text[..|text|] == text;
    StillOpen(text);
    OutcomeIs(text, |text|, marker);
    MarkerIsText(marker);
  }

  lemma MarkerIsText(marker: string)
    requires IsMarker(marker)
    ensures marker != ""
  {
  }

  lemma StillOpen(text: string)
    requires Run(START, text).Some? && !Run(START, text).value.frames.Bottom?
    ensures Parse(text).None?
  {
    hide Run;
  }

  /** A number, or the beginning of a number or literal, in front of the end is dropped. */
  lemma ScalarDropped(p: string, v: Json, k: nat, marker: string)
    requires ValueIsDue(p) && IsMarker(marker) && Storable(v) && k <= |Dump(v)|
    requires v.Number? || ((v.Null? || v.Bool?) && k < |Dump(v)|)
    ensures var f, text := Run(START, p).value.frames, p + Dump(v)[..k];
            && Ready(f) && Stacked(f)
            && OutcomeOf(text, marker) == Parsed(Nest(f, String(marker)), marker, "\"" + marker, |text|)
  {
    hide Run, Nest, Dump, Storable, IsMarker, OutcomeOf;
    ScalarBegun(Run(START, p).value, v, k);
    RunConcat(START, p, Dump(v)[..k]);
    TokenDropped(p + Dump(v)[..k], marker);
  }

  lemma BoolTarget(p: string, b: bool, marker: string)
    requires ValueIsDue(p)
    ensures var f, text := Run(START, p).value.frames, p + Dump(Bool(b));
            && Ready(f) && Stacked(f) && Run(START, text) == Some(Deliver(f, Bool(b))) && Healable(text)
            && TargetOf(text, marker) == Target(f, String(marker))
            && PlanFor(Run(START, text).value, text).glue == "\""
  {
    BoolEnds(b);
    hide Run, Nest, Step, CutBack, Dump;
    var d, st := Dump(Bool(b)), Run(START, p).value;
    var n, text := |d| - 1, p + d;
    LiteralBegun(st, Bool(b), n);
    RunConcat(START, p, d[..n]);
    var a := p + d[..n];
    CutBackInToken(a);
    ScalarLeads(Bool(b), st);
    RunConcat(START, p, d);
    hide CompactRun;
    DeliversOpen(st.frames, Bool(b));
    assert text[..|text| - 1] == a && text[|text| - 1] == 'e';
    var m := CutBack(a, st.frames.InArray?);
    assert a[..m] == text[..m];
    CutOneBack(text, st.frames.InArray?);
    hide Deliver;
  }

  lemma BoolEnds(b: bool)
    ensures var d := Dump(Bool(b)); |d| > 1 && d[|d| - 1] == 'e'
  {
  }

  /** A complete `true` or `false` in front of the end is dropped too: its last letter might end a number. */
  lemma BoolDropped(p: string, b: bool, marker: string)
    requires ValueIsDue(p) && IsMarker(marker)
    ensures var f, text := Run(START, p).value.frames, p + Dump(Bool(b));
            && Ready(f) && Stacked(f)
            && OutcomeOf(text, marker) == Parsed(Nest(f, String(marker)), marker, "\"" + marker, |text|)
  {
    hide Run, Nest, IsMarker, OutcomeOf, CutBack, Dump, Step, Deliver, Healable, TargetOf, PlanFor;
    BoolTarget(p, b, marker);
    DeliversOpen(Run(START, p).value.frames, Bool(b));
    WholeIsRead(p + Dump(Bool(b)), marker);
  }

  lemma CutOneBack(text: string, inArray: bool)
    requires text != "" && text[|text| - 1] == 'e'
    ensures CutBack(text, inArray) == CutBack(text[..|text| - 1], inArray)
  {
  }

  lemma DeliversOpen(f: Frames, v: Json)
    requires Ready(f) && Stacked(f) && !f.Bottom?
    ensures var st := Deliver(f, v); st.mode.AfterValue? && !st.frames.Bottom? && (st.frames.InArray? <==> f.InArray?)
  {
  }

  // ---------------------------------------------------------------- behind a complete value

  lemma DeliversAtOnce(st: State, v: Json)
    requires WellFormed(st) && AtValue(st, st.frames) && Storable(v) && !v.Number?
    ensures Run(st, Dump(v)) == Some(Deliver(st.frames, v))
  {
    match v
    case String(s) =>
      QuoteLeads(st, false, s);
    case Array(items) =>
      ArrayReaches(items, st);
    case Object(members) =>
      ObjectReaches(members, st);
    case _ =>
      ScalarLeads(v, st);
  }

  /** Where the scan stands behind a value, or behind it and white space. */
  lemma BehindValue(st: State, v: Json, ws: string)
    requires WellFormed(st) && AtValue(st, st.frames) && Storable(v) && AllBlank(ws) && !st.frames.Bottom?
    requires v.Number? ==> ws != ""
    ensures Run(st, Dump(v) + ws) == Some(Deliver(st.frames, v))
  {
    hide Run, AllBlank, Deliver, Step, NumberPhase;
    RunConcat(st, Dump(v), ws);
    var end := Deliver(st.frames, v);
    DeliversOpen(st.frames, v);
    if v.Number? {
      NumberLeads(st, v.text);
      NumberSettles(st.frames, v.text);
      var a := State(st.frames, InNumber(v.text, NumberPhase(v.text).value));
      BlankParts(ws);
      BlankEndsNumber(a, ws[0]);
      RunFirst(a, ws[0], ws[1..]);
      BlanksStay(end, ws[1..]);
    } else {
      DeliversAtOnce(st, v);
      BlanksStay(end, ws);
    }
  }

  lemma LastOfDump(v: Json)
    requires !v.Number? && !v.Bool?
    ensures Dump(v) != "" && Dump(v)[|Dump(v)| - 1] != 'e'
  {
  }

  /** Every other value is kept, and so are numbers and literals with white space behind them. */
  lemma ValueKept(p: string, v: Json, ws: string, marker: string)
    requires ValueIsDue(p) && IsMarker(marker) && Storable(v) && AllBlank(ws)
    requires ws == "" ==> !v.Number? && !v.Bool?
    ensures var f, text := Run(START, p).value.frames, p + (Dump(v) + ws);
            && Ready(f) && Stacked(f)
            && OutcomeOf(text, marker) == Parsed(ClosedAfter(f, v, marker), marker, ",\"" + marker, |text|)
  {
    hide Run, Nest, Dump, IsMarker, OutcomeOf, Storable, Step;
    var st, text := Run(START, p).value, p + (Dump(v) + ws);
    BehindValue(st, v, ws);
    RunConcat(START, p, Dump(v) + ws);
    DeliversOpen(st.frames, v);
    if ws == "" {
      LastOfDump(v);
    }
    assert !EndsWith(text, 'e') by {
      LastIsNoLetter(p, Dump(v), ws);
    }
    hide AllBlank;
    WholeIsRead(text, marker);
    NestAfter(st.frames, v, marker);
    hide Put;
  }

  lemma LastIsNoLetter(p: string, d: string, ws: string)
    requires AllBlank(ws) && (ws == "" ==> d != "" && d[|d| - 1] != 'e')
    ensures !EndsWith(p + (d + ws), 'e')
  {
  }

  lemma NestAfter(f: Frames, v: Json, marker: string)
    requires Ready(f) && Stacked(f) && !f.Bottom?
    ensures var g := Deliver(f, v).frames;
            && (g.InObject? ==> Nest(InMember(g.members, marker, g.below), Number("1")) == ClosedAfter(f, v, marker))
            && (g.InArray? ==> Nest(g, String(marker)) == ClosedAfter(f, v, marker))
  {
    if f.InArray? {
      assert f.items + [v] + [String(marker)] == f.items + [v, String(marker)];
    }
  }
}
