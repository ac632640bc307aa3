/**
 How far common_json_parse reads (common/json-partial.cpp): over everything that some JSON text starts
 with, and no further.
 */
module JsonEnd {
  import opened Wrappers
  import opened JsonValue
  import opened JsonScanner
  import opened JsonProbe
  import opened JsonHealing
  import opened JsonHealed
  import opened JsonRoundTrip
  import opened JsonPartial

  /** The first `n` characters begin a JSON text, and no more of them do. */
  ghost predicate ReadsLongest(text: string, n: nat) {
    && n <= |text| && Run(START, text[..n]).Some?
    && forall k :: n < k <= |text| ==> Run(START, text[..k]).None?
  }

  /** Where a parsed outcome ends, healed or not. */
  lemma EndIsLongest(text: string, marker: string)
    requires OutcomeOf(text, marker).Parsed?
    ensures ReadsLongest(text, OutcomeOf(text, marker).end)
  {
    hide Run, Step, Parse;
    var n := OutcomeOf(text, marker).end;
    ReadRuns(START, text);
    forall k | n < k <= |text|
      ensures Run(START, text[..k]).None?
    {
      StuckHere(text, n, k);
    }
  }

  lemma StuckHere(text: string, n: nat, k: nat)
    requires n < k <= |text| && Run(START, text[..n]).Some? && Step(Run(START, text[..n]).value, text[n]).None?
    ensures Run(START, text[..k]).None?
  {
    hide Step;
    assert text[..k] == text[..n] + ([text[n]] + text[n + 1..k]);
    RunConcat(START, text[..n], [text[n]] + text[n + 1..k]);
    RunFirst(Run(START, text[..n]).value, text[n], text[n + 1..k]);
  }

  lemma LongestIs(text: string, n: nat)
    requires ReadsLongest(text, n)
    ensures ReadLength(START, text) == n
  {
    hide Run, Step;
    var i := ReadLength(START, text);
    ReadRuns(START, text);
    if i < n {
      StuckHere(text, i, n);
    }
  }

  /**
   What common_json_parse returns: the value of what was read, if it is one; nothing, if no marker was
   given or no container is open; else the containers closed around the marker, or an error.
   */
  lemma OutcomeIs(text: string, n: nat, marker: string)
    requires ReadsLongest(text, n) && (marker == "" || IsMarker(marker))
    ensures var o, str, st := OutcomeOf(text, marker), text[..n], Run(START, text[..n]).value;
            if Parse(str).Some? then o == Parsed(Parse(str).value, "", "", n)
            else if marker == "" || st.frames.Bottom? then o == NotParsed
            else if Healable(str) then
              var t := TargetOf(str, marker);
              o == Parsed(Nest(t.frames, t.leaf), marker, PlanFor(st, str).glue + marker, n)
            else o.Throws?
  {
    LongestIs(text, n);
    hide Run, Step, Parse, ReadLength, Nest, TargetOf, Healable, Healed, IsMarker;
    var str := text[..n];
    if Parse(str).None? && marker != "" && !Run(START, str).value.frames.Bottom? {
      HealingSucceedsIff(str, marker);
    }
  }

  /** What may follow a value without being read with it. */
  predicate NothingToSkip(rest: string) {
    rest == "" || !IsSpace(rest[0])
  }

  /** A complete value is read to its end, whatever follows it. */
  lemma CompleteIsRead(v: Json, rest: string, marker: string)
    requires Storable(v) && !v.Number? && NothingToSkip(rest)
    ensures OutcomeOf(Dump(v) + rest, marker) == Parsed(v, "", "", |Dump(v)|)
  {
    hide Run, Dump, Storable, ReadLength;
    var d, text := Dump(v), Dump(v) + rest;
    ParseDump(v);
    assert text[..|d|] == d;
    DumpEnds(v);
    if rest != "" {
      assert text[|d|] == rest[0];
      NothingFollows(Run(START, d).value, rest[0]);
    }
    ReadLengthIs(START, text, |d|);
  }

  lemma DumpEnds(v: Json)
    requires Parse(Dump(v)) == Some(v) && !v.Number?
    ensures Run(START, Dump(v)).Some? && Run(START, Dump(v)).value.mode.Done?
  {
    hide Run, Dump;
  }

  lemma NothingFollows(st: State, c: char)
    requires WellFormed(st) && st.mode.Done? && !IsSpace(c)
    ensures Step(st, c).None?
  {
  }
}
