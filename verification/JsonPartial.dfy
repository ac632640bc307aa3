/**
 common_json_parse as a whole (common/json-partial.cpp): scan, and on an error parse what comes
 before it, or heal it.
 */
module JsonPartial {
  import opened Wrappers
  import opened JsonValue
  import opened JsonScanner
  import opened JsonProbe
  import opened JsonStack
  import opened JsonHealing

  /** How many characters some JSON text starts with. */
  function ReadLength(st: State, text: string): (n: nat)
    requires WellFormed(st)
    ensures n <= |text|
    decreases |text|
  {
    if text == "" then 0
    else
      match Step(st, text[0])
      case None => 0
      case Some(next) => 1 + ReadLength(next, text[1..])
  }

  /** A parsed value, the marker and its form in the dump (empty if not healed), and how much was read. */
  datatype Outcome =
    | Parsed(json: Json, marker: string, dumpMarker: string, end: nat)
    | NotParsed
    | Throws(failure: Failure)

  function OutcomeOf(text: string, marker: string): Outcome {
    var n := ReadLength(START, text);
    var str := text[..n];
    if Parse(str).Some? then Parsed(Parse(str).value, "", "", n)
    else if Run(START, str).None? || marker == "" || Run(START, str).value.frames.Bottom? then NotParsed
    else
      match ByPlan(str, marker)
      case Err(e) => Throws(e)
      case Ok((healed, mark)) =>
        if Parse(healed).Some? then Parsed(Parse(healed).value, marker, mark, n) else Throws(DoesNotParse)
  }

  lemma {:induction false} ReadRuns(st: State, text: string)
    requires WellFormed(st)
    ensures var n := ReadLength(st, text);
            Run(st, text[..n]).Some? && (n < |text| ==> Step(Run(st, text[..n]).value, text[n]).None?)
    decreases |text|
  {
    hide Step, WellFormed;
    if text != "" && Step(st, text[0]).Some? {
      var n := ReadLength(st, text);
      ReadRuns(Step(st, text[0]).value, text[1..]);
      assert text[..n][0] == text[0] && text[..n][1..] == text[1..][..n - 1];
    }
  }

  /** A text that scans to its end is read to its end. */
  lemma {:induction false} ReadsAll(st: State, text: string)
    requires WellFormed(st) && Run(st, text).Some?
    ensures ReadLength(st, text) == |text|
    decreases |text|
  {
    hide Step, WellFormed;
    if text != "" {
      ReadsAll(Step(st, text[0]).value, text[1..]);
    }
  }

  lemma {:induction false} ReadLengthIs(st: State, text: string, i: nat)
    requires WellFormed(st) && i <= |text| && Run(st, text[..i]).Some?
    requires i < |text| ==> Step(Run(st, text[..i]).value, text[i]).None?
    ensures ReadLength(st, text) == i
    decreases i
  {
    hide Step, WellFormed;
    if i > 0 {
      assert text[..i][0] == text[0] && text[..i][1..] == text[1..][..i - 1];
      ReadLengthIs(Step(st, text[0]).value, text[1..], i - 1);
    }
  }

  // ---------------------------------------------------------------- the program

  /** Feeds the events of one character to the locator. */
  method Notify(loc: ErrorLocator, st: State, events: seq<Event>)
    requires ApplyAll(loc.stack, events).Some?
    modifies loc`stack
    ensures Some(loc.stack) == ApplyAll(old(loc.stack), events)
  {
    for i := 0 to |events|
      invariant ApplyAll(loc.stack, events[i..]) == ApplyAll(old(loc.stack), events)
    {
      assert events[i..][1..] == events[i + 1..];
      loc.OnEvent(events[i]);
    }
  }

  /** The event of a number that the end of the text completes. */
  function EndEvents(st: State): seq<Event>
    requires WellFormed(st)
  {
    if st.mode.InNumber? && IsFinal(st.mode.phase) then [Scalar] else []
  }

  lemma EndFollows(st: State)
    requires WellFormed(st)
    ensures ApplyAll(StackOf(st.frames), EndEvents(st)) == Some(StackOf(AtEnd(st).frames))
  {
    if EndEvents(st) != [] {
      ApplyOne(StackOf(st.frames), Scalar);
      CloseReady(st.frames);
    }
  }

  /** The event-driven parse: the locator follows the scan up to the first error. */
  method SaxParse(text: string, loc: ErrorLocator)
    requires loc.stack == [] && !loc.foundError
    modifies loc
    ensures loc.foundError <==> Parse(text).None?
    ensures loc.foundError ==>
              && loc.position == ReadLength(START, text)
              && Run(START, text[..loc.position]).Some?
              && loc.stack == StackOf(AtEnd(Run(START, text[..loc.position]).value).frames)
  {
    hide Step, AtEnd, StepEvents;
    var st := START;
    var i := 0;
    assert text[..0] == "";
    while i < |text| && Step(st, text[i]).Some?
      invariant 0 <= i <= |text| && !loc.foundError
      invariant Run(START, text[..i]) == Some(st) && WellFormed(st)
      invariant loc.stack == StackOf(st.frames)
    {
      StackFollows(st, text[i]);
      Notify(loc, st, StepEvents(st, text[i]));
      assert text[..i + 1][..i] == text[..i];
      RunSnoc(START, text[..i + 1]);
      st := Step(st, text[i]).value;
      i := i + 1;
    }
    ReadLengthIs(START, text, i);
    EndFollows(st);
    Notify(loc, st, EndEvents(st));
    assert text[..|text|] == text;
    if i < |text| {
      StuckDoesNotParse(text, i);
      loc.OnParseError(i);
    } else if !AtEnd(st).mode.Done? {
      loc.OnParseError(i);
    }
  }

  lemma StuckDoesNotParse(text: string, i: nat)
    requires i < |text| && Run(START, text[..i]).Some? && Step(Run(START, text[..i]).value, text[i]).None?
    ensures Parse(text).None?
  {
    hide Step;
    assert text == text[..i] + ([text[i]] + text[i + 1..]);
    RunConcat(START, text[..i], [text[i]] + text[i + 1..]);
    RunFirst(Run(START, text[..i]).value, text[i], text[i + 1..]);
  }

  method CommonJsonParse(text: string, marker: string) returns (r: Outcome)
    ensures r == OutcomeOf(text, marker)
  {
    hide Parse, Run, ByPlan, ReadLength, AtEnd, Step;
    var loc := new ErrorLocator();
    SaxParse(text, loc);
    assert text[..|text|] == text;
    if loc.foundError {
      var str := text[..loc.position];
      if Parse(str).Some? {
        return Parsed(Parse(str).value, "", "", loc.position);
      }
      TopOfStack(str);
      if marker != "" && loc.stack != [] {
        var healing := ChooseHealing(str, loc.stack, marker);
        if healing.Err? {
          return Throws(healing.error);
        }
        var (healed, mark) := healing.value;
        if Parse(healed).None? {
          return Throws(DoesNotParse);
        }
        return Parsed(Parse(healed).value, marker, mark, loc.position);
      }
      return NotParsed;
    }
    ParsedIsRead(text);
    return Parsed(Parse(text).value, "", "", |text|);
  }

  lemma ParsedIsRead(text: string)
    requires Parse(text).Some?
    ensures ReadLength(START, text) == |text| && text[..|text|] == text
  {
    ReadsAll(START, text);
  }
}
