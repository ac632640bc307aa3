/**
 The dump of a healed text: for compact input it is the kept text, then the dump marker, then the
 rest of the closing; so cutting the dump at the marker gives the input back.
 */
module JsonHealedDump {
  import opened JsonValue
  import opened JsonScanner
  import opened JsonTail
  import opened JsonProbe
  import opened JsonHealing
  import opened JsonHealed
  import opened JsonRender

  // ---------------------------------------------------------------- dumps of nested values

  lemma {:induction false} NestDump(f: Frames, v: Json)
    requires Ready(f) && Stacked(f) && Fresh(f)
    ensures Dump(Nest(f, v)) == OpenText(f) + Dump(v) + Closers(f)
  {
    match f
    case Bottom =>
      assert "" + Dump(v) + "" == Dump(v);
    case InArray(items, below) =>
      NestDump(below, Array(items + [v]));
      DumpItemsSnoc(items, v);
      NestArrayText(OpenText(below), ItemCommas(items), Dump(v), Closers(below));
    case InMember(members, key, below) =>
      NestDump(below, Object(members + [Member(key, v)]));
      DumpMembersSnoc(members, key, v);
      hide Dump, ItemCommas, MemberCommas, Quote;
      NestObjectText(OpenText(below), MemberCommas(members), Quote(key), Dump(v), Closers(below));
  }

  lemma NestArrayText(o: string, commas: string, d: string, c: string)
    ensures o + ("[" + (commas + d) + "]") + c == o + "[" + commas + d + ("]" + c)
  {
  }

  lemma NestObjectText(o: string, commas: string, q: string, d: string, c: string)
    ensures o + ("{" + (commas + (q + ":" + d)) + "}") + c == o + "{" + commas + q + ":" + d + ("}" + c)
  {
  }

  lemma {:induction false} EscapePlain(m: string)
    requires Plain(m)
    ensures Escape(m) == m
  {
    if m != "" {
      EscapePlain(m[..|m| - 1]);
      assert m[..|m| - 1] + [m[|m| - 1]] == m;
    }
  }

  lemma EscapeMarked(s: string, m: string)
    requires Plain(m)
    ensures Escape(s + m) == Escape(s) + m
    ensures Escape(s + "\\" + m) == Escape(s) + "\\\\" + m
  {
    EscapePlain(m);
    EscapeConcat(s, m);
    EscapeConcat(s + "\\", m);
    EscapeSnoc(s, '\\');
  }

  // ---------------------------------------------------------------- strings that contain the marker

  lemma EscapeContains(s: string, m: string)
    requires Plain(m) && Contains(s, m)
    ensures Contains(Escape(s), m)
  {
    var i :| OccursAt(s, m, i);
    var a, b := s[..i], s[i + |m|..];
    assert s == a + m + b;
    EscapePlain(m);
    EscapeConcat(a + m, b);
    EscapeConcat(a, m);
    OccursIn(Escape(a), m, Escape(b));
  }

  lemma QuoteContains(s: string, m: string)
    requires Plain(m) && Contains(s, m)
    ensures Contains(Quote(s), m)
  {
    EscapeContains(s, m);
    hide Escape;
    ContainsRight("\"", Escape(s), m);
    ContainsLeft("\"" + Escape(s), "\"", m);
  }

  lemma {:induction false} ItemInDump(items: seq<Json>, i: nat, part: string)
    requires i < |items| && Contains(Dump(items[i]), part)
    ensures Contains(DumpItems(items), part)
  {
    hide Dump, Contains;
    var n := |items| - 1;
    if i < n {
      ItemInDump(items[..n], i, part);
      ContainsLeft(DumpItems(items[..n]), ",", part);
      ContainsLeft(ItemCommas(items[..n]), Dump(items[n]), part);
    } else {
      ContainsRight(ItemCommas(items[..n]), Dump(items[n]), part);
    }
  }

  lemma {:induction false} MemberInDump(members: seq<Member>, i: nat, part: string)
    requires i < |members| && Contains(DumpMember(members[i]), part)
    ensures Contains(DumpMembers(members), part)
  {
    hide DumpMember, Contains;
    var n := |members| - 1;
    if i < n {
      MemberInDump(members[..n], i, part);
      ContainsLeft(DumpMembers(members[..n]), ",", part);
      ContainsLeft(MemberCommas(members[..n]), DumpMember(members[n]), part);
    } else {
      ContainsRight(MemberCommas(members[..n]), DumpMember(members[n]), part);
    }
  }

  lemma KeyInMember(m: Member, part: string)
    ensures Contains(Quote(m.key), part) ==> Contains(DumpMember(m), part)
    ensures Contains(Dump(m.value), part) ==> Contains(DumpMember(m), part)
  {
    hide Quote, Dump, Contains;
    if Contains(Quote(m.key), part) {
      ContainsLeft(Quote(m.key), ":", part);
      ContainsLeft(Quote(m.key) + ":", Dump(m.value), part);
    }
    if Contains(Dump(m.value), part) {
      ContainsRight(Quote(m.key) + ":", Dump(m.value), part);
    }
  }

  /** A key that contains the marker shows in the dump. */
  lemma KeyShows(members: seq<Member>, key: string, m: string)
    requires Plain(m) && HasKey(members, key) && Contains(key, m)
    ensures Contains(DumpMembers(members), m) && Contains(MemberCommas(members), m)
  {
    hide Contains, DumpMember, Quote, DumpMembers;
    var i :| 0 <= i < |members| && members[i].key == key;
    QuoteContains(key, m);
    KeyInMember(members[i], m);
    MemberInDump(members, i, m);
    ContainsLeft(DumpMembers(members), ",", m);
  }

  /** A key that ends in the marker is new in an object that does not contain the marker. */
  lemma MarkedKeyIsFresh(st: State, s: string, m: string)
    requires WellFormed(st) && st.frames.InObject? && !st.mode.InNumber? && !Contains(Render(st), m) && Plain(m)
    ensures !HasKey(st.frames.members, s + m)
  {
    var ms, o := st.frames.members, OpenText(st.frames.below);
    if HasKey(ms, s + m) {
      OccursIn(s, m, "");
      assert s + m + "" == s + m;
      KeyShows(ms, s + m, m);
      hide OpenText, MemberCommas, DumpMembers, Escape, Contains;
      ContainsRight(o + "{", MemberCommas(ms), m);
      ContainsRight("{", DumpMembers(ms), m);
      ContainsRight(o, "{" + DumpMembers(ms), m);
      match st.mode
      case InString(_, k) =>
        ContainsLeft(OpenPlace(st.frames), "\"", m);
        ContainsLeft(OpenPlace(st.frames) + "\"", Escape(k), m);
      case InEscape(_, k) =>
        ContainsLeft(OpenPlace(st.frames), "\"", m);
        ContainsLeft(OpenPlace(st.frames) + "\"", Escape(k), m);
        ContainsLeft(OpenPlace(st.frames) + "\"" + Escape(k), "\\", m);
      case InHex(_, k, d) =>
        ContainsLeft(OpenPlace(st.frames), "\"", m);
        ContainsLeft(OpenPlace(st.frames) + "\"", Escape(k), m);
        ContainsLeft(OpenPlace(st.frames) + "\"" + Escape(k), "\\u", m);
        ContainsLeft(OpenPlace(st.frames) + "\"" + Escape(k) + "\\u", d, m);
      case _ =>
    }
  }

  // ---------------------------------------------------------------- where the marker is

  /** The state after the part of the text that healing keeps. */
  function KeptState(text: string): (k: State)
    requires Run(START, text).Some? && Healable(text)
    ensures WellFormed(k) && !k.frames.Bottom?
  {
    var st := Run(START, text).value;
    if CutsBack(st, text) then
      CutLandsWhenHealable(text);
      CutIsNested(text);
      Run(START, text[..PlanFor(st, text).kept]).value
    else st
  }

  lemma CutIsNested(text: string)
    requires Run(START, text).Some? && !Run(START, text).value.frames.Bottom? && CutLands(text)
    ensures var f := Run(START, text).value.frames;
            !Run(START, text[..CutBack(text, f.InArray?)]).value.frames.Bottom?
  {
    ClosersQuoteless(Run(START, text).value.frames);
  }

  /** The dump of a target whose leaf is the string `x`. */
  lemma ValueTargetDump(f: Frames, x: string)
    requires Ready(f) && Stacked(f) && Fresh(f)
    ensures Dump(Nest(f, String(x))) == OpenPlace(f) + "\"" + Escape(x) + ("\"" + Closers(f))
  {
    NestDump(f, String(x));
    hide Dump, OpenText, Closers, Escape;
    assert Dump(String(x)) == Quote(x);
    RegroupQuote(OpenText(f), Escape(x), Closers(f));
  }

  lemma RegroupQuote(o: string, e: string, c: string)
    ensures o + ("\"" + e + "\"") + c == o + "\"" + e + ("\"" + c)
  {
  }

  /** The dump of a target whose last key is `x`. */
  lemma KeyTargetDump(f: Frames, x: string)
    requires f.InObject? && Stacked(f) && Fresh(f) && !HasKey(f.members, x)
    ensures var t := KeyTarget(f, x);
            Dump(Nest(t.frames, t.leaf)) == OpenPlace(f) + "\"" + Escape(x) + ("\":1" + Closers(f))
  {
    var t := KeyTarget(f, x);
    NestDump(t.frames, t.leaf);
    assert Dump(Number("1")) == "1";
    hide OpenObject, Closers, Escape;
    RegroupKey(OpenPlace(f), Escape(x), Closers(f));
  }

  lemma RegroupKey(o: string, e: string, c: string)
    ensures o + ("\"" + e + "\"") + ":" + "1" + c == o + "\"" + e + ("\":1" + c)
  {
  }

  lemma JoinGlue(a: string, glue: string, m: string, rest: string)
    ensures a + glue + m + rest == a + (glue + m) + rest
  {
  }

  /** Behind the glue a string opens where the kept text stops. */
  lemma GlueText(k: State, glue: string)
    requires WellFormed(k) && !k.frames.Bottom?
    requires (k.mode.WantColon? && glue == ":\"")
             || ((AtValue(k, k.frames) || k.mode.FirstKey? || k.mode.WantKey?) && glue == "\"")
             || (k.mode.AfterValue? && glue == ",\"")
    ensures OpenPlace(k.frames) + "\"" == Render(k) + glue
  {
    match k.mode
    case WantColon => ColonGlue(OpenObject(k.frames.members, k.frames.below), Quote(k.frames.key));
    case AfterValue =>
      if k.frames.InArray? {
        CommaGlue(OpenText(k.frames.below), "[", DumpItems(k.frames.items));
      } else {
        CommaGlue(OpenText(k.frames.below), "{", DumpMembers(k.frames.members));
      }
    case _ =>
  }

  lemma ColonGlue(o: string, q: string)
    ensures o + q + ":" + "\"" == o + q + ":\""
  {
  }

  lemma CommaGlue(o: string, b: string, d: string)
    ensures o + b + (d + ",") + "\"" == o + (b + d) + ",\""
  {
  }

  lemma MarkerIsPlain(m: string)
    requires IsMarker(m)
    ensures Plain(m)
  {
  }

  /** The dump when a new string or key opens behind the kept text. */
  lemma GlueDump(k: State, glue: string, asKey: bool, marker: string) returns (rest: string)
    requires WellFormed(k) && !k.frames.Bottom? && Fresh(k.frames) && !Contains(Render(k), marker) && Plain(marker)
    requires (k.mode.WantColon? && glue == ":\"" && !asKey)
             || (AtValue(k, k.frames) && glue == "\"" && !asKey)
             || ((k.mode.FirstKey? || k.mode.WantKey?) && glue == "\"" && asKey)
             || (k.mode.AfterValue? && glue == ",\"" && asKey == k.frames.InObject?)
    ensures var t := if asKey then KeyTarget(k.frames, marker) else Target(k.frames, String(marker));
            Dump(Nest(t.frames, t.leaf)) == Render(k) + (glue + marker) + rest
    ensures rest == (if asKey then "\":1" else "\"") + Closers(k.frames)
  {
    hide Run, Step, Render, OpenText, OpenObject, OpenPlace, Dump, Nest, Closers, Contains, Fresh;
    EscapePlain(marker);
    GlueText(k, glue);
    rest := (if asKey then "\":1" else "\"") + Closers(k.frames);
    if asKey {
      assert "" + marker == marker;
      MarkedKeyIsFresh(k, "", marker);
      KeyTargetDump(k.frames, marker);
    } else {
      ValueTargetDump(k.frames, marker);
    }
    JoinGlue(Render(k), glue, marker, rest);
  }

  /** The dump of the healed value: what was kept, then the dump marker, then the closing. */
  lemma HealedDump(text: string, marker: string) returns (rest: string)
    requires Run(START, text).Some? && Healable(text) && IsMarker(marker)
    requires Fresh(KeptState(text).frames) && !Contains(Render(KeptState(text)), marker)
    ensures var t, p := TargetOf(text, marker), PlanFor(Run(START, text).value, text);
            Dump(Nest(t.frames, t.leaf)) == Render(KeptState(text)) + (p.glue + marker) + rest
    ensures rest == (if PlanFor(Run(START, text).value, text).asKey then "\":1" else "\"")
            + Closers(KeptState(text).frames)
  {
    hide Run, Step, Render, Dump, Nest, Contains, IsMarker, Fresh, Closers;
    var st, k, t := Run(START, text).value, KeptState(text), TargetOf(text, marker);
    var p := PlanFor(st, text);
    if CutsBack(st, text) {
      CutLandsWhenHealable(text);
    }
    MarkerIsPlain(marker);
    match k.mode
    case InString(isKey, s) => rest := StringDump(k, isKey, s, "", s + marker, marker);
    case InEscape(isKey, s) => rest := StringDump(k, isKey, s, "\\", s + "\\" + marker, marker);
    case _ => rest := GlueDump(k, p.glue, p.asKey, marker);
  }

  /** The same inside a string or after its backslash. */
  lemma StringDump(k: State, isKey: bool, s: string, glue: string, x: string, marker: string) returns (rest: string)
    requires WellFormed(k) && Fresh(k.frames) && !Contains(Render(k), marker) && Plain(marker)
    requires (k.mode == InString(isKey, s) && glue == "" && x == s + marker)
             || (k.mode == InEscape(isKey, s) && glue == "\\" && x == s + "\\" + marker)
    ensures var t := if isKey then KeyTarget(k.frames, x) else Target(k.frames, String(x));
            Dump(Nest(t.frames, t.leaf)) == Render(k) + (glue + marker) + rest
    ensures rest == (if isKey then "\":1" else "\"") + Closers(k.frames)
  {
    hide OpenPlace, Escape, Closers, Nest, Contains, Dump, Fresh, OpenText, OpenObject;
    EscapeMarked(s, marker);
    rest := (if isKey then "\":1" else "\"") + Closers(k.frames);
    if isKey {
      MarkedKeyIsFresh(k, if glue == "" then s else s + "\\", marker);
      KeyTargetDump(k.frames, x);
    } else {
      ValueTargetDump(k.frames, x);
    }
    if glue == "" {
      PlainTail(OpenPlace(k.frames), Escape(s), marker, rest);
    } else {
      EscapedTail(OpenPlace(k.frames), Escape(s), marker, rest);
    }
  }

  lemma PlainTail(o: string, e: string, m: string, rest: string)
    ensures o + "\"" + (e + m) + rest == o + "\"" + e + ("" + m) + rest
  {
    assert "" + m == m;
  }

  lemma EscapedTail(o: string, e: string, m: string, rest: string)
    ensures o + "\"" + (e + "\\\\" + m) + rest == o + "\"" + e + "\\" + ("\\" + m) + rest
  {
  }

  // ---------------------------------------------------------------- finding the marker

  /** No proper beginning of the marker is also its end. */
  ghost predicate Unbordered(m: string) {
    forall l :: 0 < l < |m| ==> m[..l] != m[|m| - l..]
  }

  /** Cutting at the first dump marker cuts at or before the place where it was put. */
  lemma CutIsPrefix(a: string, mark: string, rest: string, i: int)
    requires FirstAt(a + mark + rest, mark, i)
    ensures 0 <= i <= |a| && (a + mark + rest)[..i] == a[..i]
  {
    OccursIn(a, mark, rest);
  }

  /** An occurrence before that place overlaps the marker with itself. */
  lemma EarlyIsOverlap(a: string, mark: string, rest: string, i: int)
    requires 0 <= i < |a| && OccursAt(a + mark + rest, mark, i)
    ensures i + |mark| <= |a| ==> Contains(a, mark)
    ensures i + |mark| > |a| ==> var l := i + |mark| - |a|; 0 < l < |mark| && mark[..l] == mark[|mark| - l..]
  {
    var d := a + mark + rest;
    if i + |mark| <= |a| {
      assert d[i..i + |mark|] == a[i..i + |mark|];
      assert OccursAt(a, mark, i);
    } else {
      var l := i + |mark| - |a|;
      forall j | 0 <= j < l
        ensures mark[j] == mark[|mark| - l + j]
      {
        assert d[|a| + j] == mark[j];
        assert d[i..i + |mark|][|mark| - l + j] == d[|a| + j];
      }
      assert mark[..l] == mark[|mark| - l..];
    }
  }

  /** The dump marker overlaps itself only if the marker does. */
  lemma MarkUnbordered(glue: string, m: string)
    requires IsMarker(m) && Unbordered(m) && glue in {"", "\"", ":\"", ",\"", "\\"}
    ensures Unbordered(glue + m)
  {
    var k := glue + m;
    forall l | 0 < l < |k|
      ensures k[..l] != k[|k| - l..]
    {
      if glue == "" {
        assert k == m;
      } else {
        GlueStartsOnce(glue, m, |k| - l);
        assert k[..l][0] != k[|k| - l..][0];
      }
    }
  }

  lemma GlueStartsOnce(glue: string, m: string, j: nat)
    requires IsMarker(m) && glue in {"\"", ":\"", ",\"", "\\"} && 0 < j < |glue + m|
    ensures (glue + m)[j] != (glue + m)[0]
  {
    if j >= |glue| {
      assert (glue + m)[j] == m[j - |glue|];
    }
  }

  /** An unbordered marker that is not in the kept text is found exactly where it was put. */
  lemma CutIsExact(a: string, glue: string, m: string, rest: string, i: int)
    requires IsMarker(m) && Unbordered(m) && !Contains(a, m) && glue in {"", "\"", ":\"", ",\"", "\\"}
    requires FirstAt(a + (glue + m) + rest, glue + m, i)
    ensures i == |a|
  {
    CutIsPrefix(a, glue + m, rest, i);
    if i < |a| {
      EarlyIsOverlap(a, glue + m, rest, i);
      MarkUnbordered(glue, m);
      if Contains(a, glue + m) {
        MarkInMark(a, glue, m);
      }
    }
  }

  lemma MarkInMark(a: string, glue: string, m: string)
    requires Contains(a, glue + m)
    ensures Contains(a, m)
  {
    var j :| OccursAt(a, glue + m, j);
    SliceOfSlice(a, j, j + |glue + m|, |glue|, |glue + m|);
    assert (glue + m)[|glue|..] == m;
    assert OccursAt(a, m, j + |glue|);
  }
}
