/**
 Healing a truncated JSON text (common/json-partial.cpp, common_json_parse): what is appended, or
 cut back to and appended, so that the text parses with a marker in its last place.
 */
module JsonHealing {
  import opened Wrappers
  import opened JsonScanner
  import opened JsonTail
  import opened JsonProbe
  import opened JsonStack

  /** A marker is plain text, without separators, that cannot continue a JSON text outside strings. */
  predicate IsMarker(m: string) {
    && m != ""
    && (forall i :: 0 <= i < |m| ==> m[i] >= ' ' && m[i] != '\"' && m[i] != '\\' && m[i] != ',' && m[i] != ':')
    && m[0] !in " ]}"
  }

  /** Keep `kept` characters, append `glue`, the marker, and the end of a key or of a value. */
  datatype Plan = Plan(kept: nat, glue: string, asKey: bool)

  /** What healing does for each state a text can stop in. */
  function PlanFor(st: State, text: string): (p: Plan)
    ensures p.kept <= |text|
  {
    var all := |text|;
    match st.mode
    case WantValue => Plan(all, "\"", false)
    case FirstItem => Plan(all, "\"", false)
    case WantColon => Plan(all, ":\"", false)
    case FirstKey => Plan(all, "\"", true)
    case WantKey => Plan(all, "\"", true)
    case InString(isKey, _) => Plan(all, "", isKey)
    case InEscape(isKey, _) => Plan(all, "\\", isKey)
    case AfterValue =>
      if EndsWith(text, 'e') then Plan(CutBack(text, st.frames.InArray?), "\"", false)
      else Plan(all, ",\"", st.frames.InObject?)
    case _ => Plan(CutBack(text, st.frames.InArray?), "\"", false)
  }

  function Healed(text: string, p: Plan, marker: string, closing: string): string
    requires p.kept <= |text|
  {
    text[..p.kept] + (p.glue + marker) + (if p.asKey then "\": 1" else "\"") + closing
  }

  // ---------------------------------------------------------------- the program

  predicate CanParse(text: string) {
    Parse(text).Some?
  }

  /** The brackets for the first `n` entries, read from the top down. */
  function ClosersOf(stack: seq<Entry>, n: nat): string
    requires n <= |stack|
  {
    if n == 0 then ""
    else
      (match stack[n - 1]
       case OBJECT => "}"
       case ARRAY => "]"
       case KEY(_) => "") + ClosersOf(stack, n - 1)
  }

  /** The closing computation: brackets read off the stack from its top, keys skipped. */
  method ClosingOf(stack: seq<Entry>) returns (closing: string)
    ensures closing == ClosersOf(stack, |stack|)
  {
    closing := "";
    var i := |stack|;
    while i > 0
      invariant 0 <= i <= |stack|
      invariant closing + ClosersOf(stack, i) == ClosersOf(stack, |stack|)
    {
      var el := stack[i - 1];
      if el == OBJECT {
        closing := closing + "}";
      } else if el == ARRAY {
        closing := closing + "]";
      }
      i := i - 1;
    }
  }

  lemma {:induction false} ClosersOfPrefix(stack: seq<Entry>, more: seq<Entry>, n: nat)
    requires n <= |stack|
    ensures ClosersOf(stack + more, n) == ClosersOf(stack, n)
  {
    if n > 0 {
      ClosersOfPrefix(stack, more, n - 1);
    }
  }

  lemma {:induction false} ClosersOfFrames(f: Frames)
    ensures ClosersOf(StackOf(f), |StackOf(f)|) == Closers(f)
  {
    if !f.Bottom? {
      ClosersOfFrames(f.below);
      var s := StackOf(f.below);
      ClosersOfPrefix(s, StackOf(f)[|s|..], |s|);
      assert StackOf(f) == s + StackOf(f)[|s|..];
    }
  }

  /** The end of the last occurrence of a separator; 0 when there is none. */
  method FindLastSeparator(text: string, inArray: bool) returns (n: nat)
    ensures n == CutBack(text, inArray)
  {
    n := |text|;
    while n > 0 && !IsSeparator(inArray, text[n - 1])
      invariant n <= |text| && CutBack(text, inArray) == CutBack(text[..n], inArray)
    {
      assert text[..n][..n - 1] == text[..n - 1];
      n := n - 1;
    }
    assert n > 0 ==> text[..n][n - 1] == text[n - 1];
  }

  lemma {:induction false} BlankText(text: string)
    requires LastNonSpace(text).None?
    ensures Run(START, text) == Some(START)
  {
    if text != "" {
      RunSnoc(START, text);
      BlankText(text[..|text| - 1]);
    }
  }

  /** What the top of the stack says about the open containers. */
  lemma TopOfStack(text: string)
    requires Run(START, text).Some?
    ensures var f, g := AtEnd(Run(START, text).value).frames, Run(START, text).value.frames;
            var s := StackOf(f);
            && (s == [] <==> f.Bottom?) && (s == [] <==> g.Bottom?)
            && Closers(f) == Closers(g) && (f.InArray? <==> g.InArray?)
            && (s != [] ==> (s[|s| - 1].KEY? <==> f.InMember?) && (s[|s| - 1] == ARRAY <==> f.InArray?)
                            && (s[|s| - 1] == OBJECT <==> f.InObject?) && LastNonSpace(text).Some? && text != "")
  {
    if LastNonSpace(text).None? {
      BlankText(text);
    }
  }

  datatype Failure = UnknownLocation | DoesNotParse

  /** The healed text, and the part of its dump that marks the healing, as the parser's state has it. */
  function ByPlan(str: string, marker: string): Result<(string, string), Failure>
    requires Run(START, str).Some?
  {
    var st := Run(START, str).value;
    var p := PlanFor(st, str);
    if p.kept == 0 then Err(UnknownLocation)
    else Ok((Healed(str, p, marker, Closers(st.frames)), p.glue + marker))
  }

  /** The branches for a key on top of the stack: inside an object value. */
  method HealInMember(str: string, closing: string, marker: string) returns (r: Result<(string, string), Failure>)
    requires Run(START, str).Some? && AtEnd(Run(START, str).value).frames.InMember?
    requires closing == Closers(Run(START, str).value.frames)
    ensures r == ByPlan(str, marker)
  {
    hide Run, Step, Parse, Accepts, LastNonSpace, WasMaybeNumber, EndsWith, Closers;
    TopOfStack(str);
    KeyTable(str);
    ParseExtends(str, "1" + closing);
    ParseExtends(str, ": 1" + closing);
    ParseExtends(str, closing);
    ParseExtends(str, "\"" + closing);
    ParseExtends(str, "\\\"" + closing);
    assert str[..|str|] == str;
    var last := LastNonSpace(str);
    var mark, healed: string;
    if last == Some(':') && CanParse(str + ("1" + closing)) {
      mark := "\"" + marker;
      healed := str + mark + "\"" + closing;
    } else if CanParse(str + (": 1" + closing)) {
      mark := ":\"" + marker;
      healed := str + mark + "\"" + closing;
    } else if last == Some('{') && CanParse(str + closing) {
      mark := "\"" + marker;
      healed := str + mark + "\": 1" + closing;
    } else if CanParse(str + ("\"" + closing)) {
      mark := marker;
      healed := str + mark + "\"" + closing;
    } else if EndsWith(str, '\\') && CanParse(str + ("\\\"" + closing)) {
      mark := "\\" + marker;
      healed := str + mark + "\"" + closing;
    } else {
      var n := FindLastSeparator(str, false);
      if n == 0 {
        return Err(UnknownLocation);
      }
      mark := "\"" + marker;
      healed := str[..n] + mark + "\"" + closing;
    }
    assert mark == PlanFor(Run(START, str).value, str).glue + marker;
    return Ok((healed, mark));
  }

  /** The branches for an array on top of the stack. */
  method HealInArray(str: string, closing: string, marker: string) returns (r: Result<(string, string), Failure>)
    requires Run(START, str).Some? && AtEnd(Run(START, str).value).frames.InArray?
    requires closing == Closers(Run(START, str).value.frames)
    ensures r == ByPlan(str, marker)
  {
    hide Run, Step, Parse, Accepts, LastNonSpace, WasMaybeNumber, EndsWith, Closers;
    TopOfStack(str);
    ArrayTable(str);
    ParseExtends(str, "1" + closing);
    ParseExtends(str, "\"" + closing);
    ParseExtends(str, "\\\"" + closing);
    ParseExtends(str, ", 1" + closing);
    assert str[..|str|] == str;
    var last := LastNonSpace(str);
    var mark, healed: string;
    if (last == Some(',') || last == Some('[')) && CanParse(str + ("1" + closing)) {
      mark := "\"" + marker;
      healed := str + mark + "\"" + closing;
    } else if CanParse(str + ("\"" + closing)) {
      mark := marker;
      healed := str + mark + "\"" + closing;
    } else if EndsWith(str, '\\') && CanParse(str + ("\\\"" + closing)) {
      mark := "\\" + marker;
      healed := str + mark + "\"" + closing;
    } else if !WasMaybeNumber(str) && CanParse(str + (", 1" + closing)) {
      mark := ",\"" + marker;
      healed := str + mark + "\"" + closing;
    } else {
      var n := FindLastSeparator(str, true);
      if n == 0 {
        return Err(UnknownLocation);
      }
      mark := "\"" + marker;
      healed := str[..n] + mark + "\"" + closing;
    }
    assert mark == PlanFor(Run(START, str).value, str).glue + marker;
    return Ok((healed, mark));
  }

  /** The branches for an object on top of the stack. */
  method HealInObject(str: string, closing: string, marker: string) returns (r: Result<(string, string), Failure>)
    requires Run(START, str).Some? && AtEnd(Run(START, str).value).frames.InObject?
    requires closing == Closers(Run(START, str).value.frames)
    ensures r == ByPlan(str, marker)
  {
    hide Run, Step, Parse, Accepts, LastNonSpace, WasMaybeNumber, EndsWith, Closers;
    TopOfStack(str);
    ObjectTable(str);
    ParseExtends(str, closing);
    ParseExtends(str, "\"\": 1" + closing);
    ParseExtends(str, ",\"\": 1" + closing);
    ParseExtends(str, "\": 1" + closing);
    ParseExtends(str, "\\\": 1" + closing);
    assert str[..|str|] == str;
    var last := LastNonSpace(str);
    var mark, healed: string;
    if (last == Some('{') && CanParse(str + closing)) || (last == Some(',') && CanParse(str + ("\"\": 1" + closing))) {
      mark := "\"" + marker;
      healed := str + mark + "\": 1" + closing;
    } else if !WasMaybeNumber(str) && CanParse(str + (",\"\": 1" + closing)) {
      mark := ",\"" + marker;
      healed := str + mark + "\": 1" + closing;
    } else if CanParse(str + ("\": 1" + closing)) {
      mark := marker;
      healed := str + mark + "\": 1" + closing;
    } else if EndsWith(str, '\\') && CanParse(str + ("\\\": 1" + closing)) {
      mark := "\\" + marker;
      healed := str + mark + "\": 1" + closing;
    } else {
      var n := FindLastSeparator(str, false);
      if n == 0 {
        return Err(UnknownLocation);
      }
      mark := "\"" + marker;
      healed := str[..n] + mark + "\"" + closing;
    }
    assert mark == PlanFor(Run(START, str).value, str).glue + marker;
    return Ok((healed, mark));
  }

  /** The healing of common_json_parse, which tries completions in turn, does what the plan says. */
  method ChooseHealing(str: string, stack: seq<Entry>, marker: string) returns (r: Result<(string, string), Failure>)
    requires Run(START, str).Some? && stack == StackOf(AtEnd(Run(START, str).value).frames) && stack != []
    ensures r == ByPlan(str, marker)
  {
    hide Run, Step, ByPlan, PlanFor;
    TopOfStack(str);
    ClosersOfFrames(AtEnd(Run(START, str).value).frames);
    if LastNonSpace(str).None? {
      return Err(UnknownLocation);
    }
    var closing := ClosingOf(stack);
    var top := stack[|stack| - 1];
    if top.KEY? {
      r := HealInMember(str, closing, marker);
    } else if top == ARRAY {
      r := HealInArray(str, closing, marker);
    } else {
      r := HealInObject(str, closing, marker);
    }
  }
}
