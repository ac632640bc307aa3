/**
 How often the marker occurs in a healed value: once, over all its keys and strings, in every healed
 value if and only if the marker does not overlap itself.
 */
module MarkerOnce {
  import opened JsonValue
  import opened JsonScanner
  import opened JsonHealing
  import opened JsonHealed
  import opened JsonRender
  import opened JsonHealedDump
  import opened CleanerProperties
  import opened ChatJson
  import opened HealingTheorems

  /** The number of places at which `m` occurs in `s`. */
  function Count(s: string, m: string): nat {
    if s == "" || |s| < |m| then 0 else (if s[..|m|] == m then 1 else 0) + Count(s[1..], m)
  }

  /** The number of places at which `m` occurs in the keys and strings of `v`. */
  function Marks(v: Json, m: string): nat
    decreases v, 1
  {
    match v
    case String(s) => Count(s, m)
    case Array(items) => MarksInItems(items, m)
    case Object(members) => MarksInMembers(members, m)
    case _ => 0
  }

  function MarksInItems(items: seq<Json>, m: string): nat
    decreases items, 0
  {
    if items == [] then 0
    else
      var n := |items| - 1;
      MarksInItems(items[..n], m) + Marks(items[n], m)
  }

  function MarksInMembers(members: seq<Member>, m: string): nat
    decreases members, 0
  {
    if members == [] then 0
    else
      var n := |members| - 1;
      assert members[n] in members;
      MarksInMembers(members[..n], m) + (Count(members[n].key, m) + Marks(members[n].value, m))
  }

  // ---------------------------------------------------------------- counting in a string

  lemma OccursInTail(s: string, m: string, i: int)
    requires s != ""
    ensures OccursAt(s[1..], m, i) <==> i >= 0 && OccursAt(s, m, i + 1)
  {
    if 0 <= i && i + |m| <= |s| - 1 {
      assert s[1..][i..i + |m|] == s[i + 1..i + 1 + |m|];
    }
  }

  lemma {:induction false} CountIsZero(s: string, m: string)
    requires m != "" && !Contains(s, m)
    ensures Count(s, m) == 0
  {
    if s != "" && |s| >= |m| {
      assert !OccursAt(s, m, 0);
      forall i
        ensures !OccursAt(s[1..], m, i)
      {
        OccursInTail(s, m, i);
      }
      CountIsZero(s[1..], m);
    }
  }

  /** Behind a text without it an unbordered marker occurs once. */
  lemma {:induction false} CountsOnce(s: string, m: string)
    requires m != "" && Unbordered(m) && !Contains(s, m)
    ensures Count(s + m, m) == 1
  {
    if s == "" {
      assert s + m == m && m[..|m|] == m;
      assert |m[1..]| < |m|;
    } else {
      if OccursAt(s + m, m, 0) {
        assert s + m + "" == s + m;
        EarlyIsOverlap(s, m, "", 0);
      }
      forall i
        ensures !OccursAt(s[1..], m, i)
      {
        OccursInTail(s, m, i);
      }
      CountsOnce(s[1..], m);
      assert (s + m)[1..] == s[1..] + m;
      assert !OccursAt(s + m, m, 0);
    }
  }

  /** Two places make two. */
  lemma {:induction false} CountsTwice(s: string, m: string, i: nat, j: nat)
    requires m != "" && i < j && OccursAt(s, m, i) && OccursAt(s, m, j)
    ensures Count(s, m) >= 2
  {
    if i == 0 {
      OccursInTail(s, m, j - 1);
      CountsSome(s[1..], m, j - 1);
    } else {
      OccursInTail(s, m, i - 1);
      OccursInTail(s, m, j - 1);
      CountsTwice(s[1..], m, i - 1, j - 1);
    }
  }

  lemma {:induction false} CountsSome(s: string, m: string, i: nat)
    requires m != "" && OccursAt(s, m, i)
    ensures Count(s, m) >= 1
    decreases i
  {
    if i > 0 {
      OccursInTail(s, m, i - 1);
      CountsSome(s[1..], m, i - 1);
    }
  }

  // ---------------------------------------------------------------- counting in a value

  lemma {:induction false} NoMarksIn(v: Json, m: string)
    requires m != "" && NoMarker(v, m)
    ensures Marks(v, m) == 0
    decreases v, 1
  {
    hide Contains;
    match v
    case String(s) => CountIsZero(s, m);
    case Array(items) => NoMarksInItems(items, m);
    case Object(members) => NoMarksInMembers(members, m);
    case _ =>
  }

  lemma {:induction false} NoMarksInItems(items: seq<Json>, m: string)
    requires m != "" && forall i :: 0 <= i < |items| ==> NoMarker(items[i], m)
    ensures MarksInItems(items, m) == 0
    decreases items, 0
  {
    hide Contains, NoMarker;
    if items != [] {
      NoMarksInItems(items[..|items| - 1], m);
      NoMarksIn(items[|items| - 1], m);
    }
  }

  lemma {:induction false} NoMarksInMembers(members: seq<Member>, m: string)
    requires m != "" && NoMarkerIn(members, m)
    ensures MarksInMembers(members, m) == 0
    decreases members, 0
  {
    hide Contains, NoMarker;
    if members != [] {
      var n := |members| - 1;
      assert members[n] in members;
      NoMarksInMembers(members[..n], m);
      CountIsZero(members[n].key, m);
      NoMarksIn(members[n].value, m);
    }
  }

  /** Beside items without the marker only the last one counts. */
  lemma LastItemCounts(items: seq<Json>, v: Json, m: string)
    requires Plain(m) && m != "" && forall i :: 0 <= i < |items| ==> Unmarked(items[i], m)
    ensures Marks(Array(items + [v]), m) == Marks(v, m)
  {
    hide Contains, Unmarked;
    forall i | 0 <= i < |items|
      ensures NoMarker(items[i], m)
    {
      UnmarkedHasNoMarker(items[i], m);
    }
    NoMarksInItems(items, m);
    assert (items + [v])[..|items|] == items;
  }

  lemma LastMemberCounts(members: seq<Member>, last: Member, m: string)
    requires Plain(m) && m != "" && forall i :: 0 <= i < |members| ==> UnmarkedMember(members[i], m)
    ensures Marks(Object(members + [last]), m) == Count(last.key, m) + Marks(last.value, m)
  {
    hide Contains, Unmarked;
    forall i | 0 <= i < |members|
      ensures !Contains(members[i].key, m) && NoMarker(members[i].value, m)
    {
      UnmarkedHasNoMarker(members[i].value, m);
    }
    NoMarksInMembers(members, m);
    assert (members + [last])[..|members|] == members;
  }

  /** Containers whose text is free of the marker add none. */
  lemma {:induction false} NestCounts(f: Frames, v: Json, m: string)
    requires Ready(f) && Stacked(f) && Fresh(f) && Plain(m) && m != "" && !Contains(OpenText(f), m)
    ensures Marks(Nest(f, v), m) == Marks(v, m)
    decreases f
  {
    hide Contains, Marks, Unmarked, ItemCommas, MemberCommas, Quote;
    PlaceUnmarked(f, m);
    match f
    case Bottom =>
    case InArray(items, below) =>
      PartsLackMarker(OpenText(below), "[", ItemCommas(items), m);
      LastItemCounts(items, v, m);
      NestCounts(below, Array(items + [v]), m);
    case InMember(members, key, below) =>
      PartsLackMarker(OpenText(below) + "{" + MemberCommas(members), Quote(key), ":", m);
      PartsLackMarker(OpenText(below), "{", MemberCommas(members), m);
      CountIsZero(key, m);
      LastMemberCounts(members, Member(key, v), m);
      NestCounts(below, Object(members + [Member(key, v)]), m);
  }

  // ---------------------------------------------------------------- the healed value

  /** What of a string or key was read does not contain the marker. */
  lemma OpenStringUnmarked(k: State, m: string)
    requires WellFormed(k) && !Contains(Render(k), m) && Plain(m) && m != ""
    requires k.mode.InString? || k.mode.InEscape?
    ensures !Contains(k.mode.s, m) && !Contains(k.mode.s + "\\", m)
  {
    hide OpenPlace, Escape, Contains;
    var s, o := k.mode.s, OpenPlace(k.frames) + "\"";
    if Contains(s, m) {
      EscapeContains(s, m);
      ContainsRight(o, Escape(s), m);
      ContainsLeft(o + Escape(s), "\\", m);
    }
    BackslashAdds(s, m);
  }

  lemma BackslashAdds(s: string, m: string)
    requires Plain(m) && m != "" && !Contains(s, m)
    ensures !Contains(s + "\\", m)
  {
    forall i
      ensures !OccursAt(s + "\\", m, i)
    {
      if 0 <= i && i + |m| == |s| + 1 {
        assert (s + "\\")[i..i + |m|][|m| - 1] == '\\';
      } else if 0 <= i && i + |m| <= |s| {
        assert (s + "\\")[i..i + |m|] == s[i..i + |m|];
        assert !OccursAt(s, m, i);
      }
    }
  }

  /** The leaf and the last key of the target hold an unbordered marker once between them. */
  lemma TargetCounts(text: string, m: string)
    requires Run(START, text).Some? && Healable(text) && IsMarker(m) && Unbordered(m)
    requires !Contains(Render(KeptState(text)), m)
    ensures var t, asKey := TargetOf(text, m), PlanFor(Run(START, text).value, text).asKey;
            && (asKey ==> t.frames.InMember? && Count(t.frames.key, m) == 1)
            && (!asKey ==> Marks(t.leaf, m) == 1)
  {
    hide Run, Contains, Unbordered, Count, IsMarker, Render;
    MarkerNotEmpty(m);
    MarkerIsPlain(m);
    EmptyHasNoMarker(m);
    CountsOnce("", m);
    assert "" + m == m;
    var st := Run(START, text).value;
    if CutsBack(st, text) {
      CutLandsWhenHealable(text);
    } else if st.mode.InString? {
      OpenStringUnmarked(st, m);
      CountsOnce(st.mode.s, m);
    } else if st.mode.InEscape? {
      OpenStringUnmarked(st, m);
      CountsOnce(st.mode.s + "\\", m);
    }
  }

  /** In a context where the marker does not occur in what was kept. */
  ghost predicate Kept(text: string, m: string) {
    && Run(START, text).Some? && Healable(text)
    && Fresh(KeptState(text).frames) && !Contains(Render(KeptState(text)), m)
  }

  function HealedValue(text: string, m: string): Json
    requires Run(START, text).Some? && Healable(text)
  {
    var t := TargetOf(text, m);
    Nest(t.frames, t.leaf)
  }

  /** The innermost container holds the marker as often as its last key and leaf do. */
  lemma InnerCounts(text: string, m: string)
    requires Kept(text, m) && IsMarker(m)
    ensures var t, asKey := TargetOf(text, m), PlanFor(Run(START, text).value, text).asKey;
            && !t.frames.Bottom?
            && Marks(InnerOf(t), m) == if asKey then Count(t.frames.key, m) else Marks(t.leaf, m)
  {
    hide Contains, Dump, Run, Render, PlanFor, KeptState, TargetOf, Healable, IsMarker, Marks, Count, Unmarked;
    var t, k := TargetOf(text, m), KeptState(text);
    TargetFrames(text, m);
    MarkerIsPlain(m);
    MarkerNotEmpty(m);
    StateUnmarked(k, m);
    TargetHasMarker(text, m);
    if t.frames.InMember? {
      KeyIsNew(k.frames, t, m);
      LastMemberCounts(t.frames.members, Member(t.frames.key, t.leaf), m);
      if PlanFor(Run(START, text).value, text).asKey {
        DummyCounts(m);
      } else {
        CountIsZero(t.frames.key, m);
      }
    } else {
      LastItemCounts(t.frames.items, t.leaf, m);
    }
  }

  lemma DummyCounts(m: string)
    ensures Marks(Number("1"), m) == 0
  {
  }

  lemma HealedCounts(text: string, m: string)
    requires Kept(text, m) && IsMarker(m) && Unbordered(m)
    ensures Marks(HealedValue(text, m), m) == 1
  {
    hide Contains, Run, Render, PlanFor, KeptState, TargetOf, Healable, IsMarker, Marks, Count, Unbordered, OpenText,
        InnerOf, Nest, Fresh;
    var t, k := TargetOf(text, m), KeptState(text);
    MarkerIsPlain(m);
    MarkerNotEmpty(m);
    TargetFrames(text, m);
    TargetCounts(text, m);
    InnerCounts(text, m);
    NestOnce(t);
    FreshBelow(k.frames);
    var q := RenderAbove(k);
    var below := t.frames.below;
    assert OpenText(below) + q + "" == OpenText(below) + q;
    PartsLackMarker(OpenText(below), q, "", m);
    NestCounts(below, InnerOf(t), m);
  }

  lemma OverlapTwice(m: string, l: nat)
    requires IsMarker(m) && Overlaps(m, l)
    ensures Count(m[..|m| - l] + m, m) >= 2
  {
    hide IsMarker, Count;
    MarkerNotEmpty(m);
    var s := m[..|m| - l];
    assert m == m[..l] + m[l..] && s + m[..l] == m;
    assert s + m == m + m[l..];
    OccursIn("", m, m[l..]);
    OccursIn(s, m, "");
    assert "" + m + m[l..] == s + m && s + m + "" == s + m;
    CountsTwice(s + m, m, 0, |s|);
  }

  lemma OverlapIsKept(m: string, l: nat)
    requires IsMarker(m) && Overlaps(m, l)
    ensures Kept("[\"" + m[..|m| - l], m)
  {
    hide Run, Contains, Dump, Render, IsMarker, KeptState, Overlaps, Healable, PlanFor, Fresh;
    WitnessIsTruncated(m, l);
    var v, n, text := OverlapWitness(m, l), 2 + |m| - l, "[\"" + m[..|m| - l];
    KeptIsPrefix(v, n);
    assert text[..|text|] == text;
  }

  lemma OverlapValue(s: string, m: string)
    requires Plain(s)
    ensures var text := "[\"" + s;
            Run(START, text).Some? && Healable(text) && HealedValue(text, m) == Array([] + [String(s + m)])
  {
    hide Run;
    OpenStringRun(s);
    var f: Frames := InArray([], Bottom);
    assert TargetOf("[\"" + s, m) == Target(f, String(s + m));
    assert Nest(f, String(s + m)) == Nest(Bottom, Array([] + [String(s + m)]));
  }

  /** A marker that overlaps itself is there twice when the string it is appended to ends in its beginning. */
  lemma OverlapCountsTwice(m: string, l: nat)
    requires IsMarker(m) && Overlaps(m, l)
    ensures var text := "[\"" + m[..|m| - l]; Kept(text, m) && Marks(HealedValue(text, m), m) >= 2
  {
    hide Run, Healable, HealedValue, Count, Marks, Kept;
    OverlapIsKept(m, l);
    OverlapValue(m[..|m| - l], m);
    OverlapTwice(m, l);
    LeafCounts(m[..|m| - l] + m, m);
  }

  lemma LeafCounts(s: string, m: string)
    ensures Marks(Array([] + [String(s)]), m) == Count(s, m)
  {
    var none: seq<Json> := [];
    var items := none + [String(s)];
    assert items[..0] == none && |items| == 1;
    assert MarksInItems(none, m) == 0;
    assert MarksInItems(items, m) == MarksInItems(items[..0], m) + Marks(items[0], m);
  }

  ghost predicate AlwaysOnce(m: string) {
    forall text :: Kept(text, m) ==> Marks(HealedValue(text, m), m) == 1
  }

  /**
   Over all keys and strings of every healed value there is exactly one occurrence of the marker, if
   and only if no proper beginning of the marker is also its end.
   */
  lemma OnceIffUnbordered(m: string)
    requires IsMarker(m)
    ensures AlwaysOnce(m) <==> Unbordered(m)
  {
    hide IsMarker, Marks, HealedValue, Run, Healable, KeptState, Render, Fresh, Contains;
    if Unbordered(m) {
      forall text | Kept(text, m)
        ensures Marks(HealedValue(text, m), m) == 1
      {
        HealedCounts(text, m);
      }
    } else {
      var l :| 0 < l < |m| && m[..l] == m[|m| - l..];
      OverlapCountsTwice(m, l);
    }
  }
}
