/**
 Healing and cleaning together, for every input: the marker never survives, a result is partial
 exactly when something was healed, and truncated arguments come back as a prefix of themselves.
 */
module HealingTheorems {
  import opened Wrappers
  import opened JsonValue
  import opened JsonScanner
  import opened JsonProbe
  import opened JsonHealing
  import opened JsonHealed
  import opened JsonRender
  import opened JsonRoundTrip
  import opened JsonPartial
  import opened JsonHealedDump
  import opened ChatCleaner
  import opened CleanerProperties
  import opened ChatJson

  // ---------------------------------------------------------------- what was read is unmarked

  /** Nothing stored in the innermost container contains the marker. */
  ghost predicate InnerUnmarked(f: Frames, m: string) {
    match f
    case Bottom => true
    case InArray(items, _) => forall i :: 0 <= i < |items| ==> Unmarked(items[i], m)
    case InObject(members, _) => forall i :: 0 <= i < |members| ==> UnmarkedMember(members[i], m)
    case InMember(members, key, _) =>
      && !Contains(key, m)
      && forall i :: 0 <= i < |members| ==> UnmarkedMember(members[i], m)
  }

  lemma PlaceUnmarked(f: Frames, m: string)
    requires Stacked(f) && !Contains(OpenPlace(f), m) && Plain(m)
    ensures InnerUnmarked(f, m)
  {
    hide Contains, Unmarked, UnmarkedMember;
    match f
    case Bottom =>
    case InArray(items, below) =>
      PartsLackMarker(OpenText(below), "[", ItemCommas(items), m);
      ItemsAreUnmarked(items, m);
    case InObject(members, below) =>
      PartsLackMarker(OpenText(below), "{", MemberCommas(members), m);
      MembersAreUnmarked(members, m);
    case InMember(members, key, below) =>
      PartsLackMarker(OpenText(below) + "{" + MemberCommas(members), Quote(key), ":", m);
      PartsLackMarker(OpenText(below), "{", MemberCommas(members), m);
      MembersAreUnmarked(members, m);
      if Contains(key, m) {
        QuoteContains(key, m);
      }
  }

  lemma DumpedAreUnmarked(f: Frames, m: string)
    requires Plain(m) && Stacked(f)
    requires (f.InArray? && !Contains("[" + DumpItems(f.items), m))
             || (f.InObject? && !Contains("{" + DumpMembers(f.members), m))
    ensures InnerUnmarked(f, m)
  {
    hide Contains, Dump;
    if f.InArray? {
      forall i: nat | i < |f.items|
        ensures Unmarked(f.items[i], m)
      {
        if !Unmarked(f.items[i], m) {
          ItemInDump(f.items, i, m);
          ContainsRight("[", DumpItems(f.items), m);
        }
      }
    } else {
      forall i: nat | i < |f.members|
        ensures UnmarkedMember(f.members[i], m)
      {
        KeyInMember(f.members[i], m);
        if Contains(f.members[i].key, m) {
          QuoteContains(f.members[i].key, m);
        }
        if Contains(DumpMember(f.members[i]), m) {
          MemberInDump(f.members, i, m);
          ContainsRight("{", DumpMembers(f.members), m);
        }
      }
    }
  }

  lemma StateUnmarked(k: State, m: string)
    requires WellFormed(k) && !k.frames.Bottom? && !k.mode.InLiteral? && !k.mode.InNumber?
    requires !Contains(Render(k), m) && Plain(m)
    ensures InnerUnmarked(k.frames, m)
  {
    var f := k.frames;
    match k.mode
    case WantColon =>
      hide Contains, Unmarked, UnmarkedMember;
      var place := OpenText(f.below) + "{" + MemberCommas(f.members);
      assert place + Quote(f.key) + "" == place + Quote(f.key);
      PartsLackMarker(place, Quote(f.key), "", m);
      PartsLackMarker(OpenText(f.below), "{", MemberCommas(f.members), m);
      MembersAreUnmarked(f.members, m);
      if Contains(f.key, m) {
        QuoteContains(f.key, m);
      }
    case AfterValue =>
      hide Contains, InnerUnmarked;
      var inner := if f.InArray? then "[" + DumpItems(f.items) else "{" + DumpMembers(f.members);
      if Contains(inner, m) {
        ContainsRight(OpenText(f.below), inner, m);
      }
      DumpedAreUnmarked(f, m);
    case _ =>
      hide Contains, InnerUnmarked, OpenPlace, Escape;
      PlaceInRender(k, m);
      PlaceUnmarked(f, m);
  }

  lemma PlaceInRender(k: State, m: string)
    requires WellFormed(k) && !k.mode.InLiteral? && !k.mode.InNumber? && !k.mode.WantColon? && !k.mode.AfterValue?
             && !k.mode.Done?
    requires !Contains(Render(k), m)
    ensures !Contains(OpenPlace(k.frames), m)
  {
    hide Contains, OpenPlace, Escape;
    var o := OpenPlace(k.frames);
    if Contains(o, m) {
      match k.mode
      case InString(_, s) => ContainsLeft(o, "\"", m); ContainsLeft(o + "\"", Escape(s), m);
      case InEscape(_, s) =>
        ContainsLeft(o, "\"", m);
        ContainsLeft(o + "\"", Escape(s), m);
        ContainsLeft(o + "\"" + Escape(s), "\\", m);
      case InHex(_, s, d) =>
        ContainsLeft(o, "\"", m);
        ContainsLeft(o + "\"", Escape(s), m);
        ContainsLeft(o + "\"" + Escape(s), "\\u", m);
        ContainsLeft(o + "\"" + Escape(s) + "\\u", d, m);
      case _ =>
    }
  }

  // ---------------------------------------------------------------- the healed value

  lemma MarkerIsIn(s: string, m: string)
    ensures Contains(s + m, m) && Contains(m, m)
  {
    OccursIn(s, m, "");
    OccursIn("", m, "");
    assert s + m + "" == s + m && "" + m + "" == m;
  }

  /** The leaf or the last key of the target holds the marker. */
  lemma TargetHasMarker(text: string, m: string)
    requires Run(START, text).Some? && Healable(text)
    ensures var t := TargetOf(text, m);
            (t.leaf.String? && Contains(t.leaf.s, m)) || (t.frames.InMember? && Contains(t.frames.key, m))
  {
    hide Contains;
    var st := Run(START, text).value;
    MarkerIsIn("", m);
    if st.mode.InString? {
      MarkerIsIn(st.mode.s, m);
    } else if st.mode.InEscape? {
      MarkerIsIn(st.mode.s + "\\", m);
    }
  }

  /** The innermost healed container is marked last. */
  lemma InnerMarked(c: Context, text: string, q: string, rest: string)
    requires HealedIn(c, text)
    requires var t := TargetOf(text, c.marker); !t.frames.Bottom? && Ready(t.frames) && Stacked(t.frames)
    requires Dump(InnerOf(TargetOf(text, c.marker))) == q + c.dumpMarker + rest
    requires !Contains(q, c.marker)
    ensures MarkedLast(c, InnerOf(TargetOf(text, c.marker)))
  {
    hide Contains, Dump, Run, Render, PlanFor, KeptState, TargetOf, Healable, IsMarker;
    var t, k := TargetOf(text, c.marker), KeptState(text);
    TargetFrames(text, c.marker);
    MarkerIsPlain(c.marker);
    StateUnmarked(k, c.marker);
    TargetHasMarker(text, c.marker);
    CutsCleanAt(c, InnerOf(t), q, rest);
    if t.frames.InMember? {
      KeyIsNew(k.frames, t, c.marker);
      assert Put(t.frames.members, t.frames.key, t.leaf) == t.frames.members + [Member(t.frames.key, t.leaf)];
    }
  }

  lemma KeyIsNew(f: Frames, t: Target, m: string)
    requires t.frames.InMember? && InnerUnmarked(f, m) && Fresh(f)
    requires t.frames == f || (f.InObject? && t.frames.members == f.members && Contains(t.frames.key, m))
    ensures !HasKey(t.frames.members, t.frames.key)
  {
    hide Contains, Unmarked;
    if f.InObject? {
      forall i | 0 <= i < |f.members|
        ensures f.members[i].key != t.frames.key
      {
        assert UnmarkedMember(f.members[i], m);
      }
    }
  }

  /** The healed value holds the marker in its last leaf or last key, and nothing before that has it. */
  lemma HealedIsMarkedLast(c: Context, text: string)
    requires HealedIn(c, text)
    ensures var t := TargetOf(text, c.marker);
            MarkedLast(c, Nest(t.frames, t.leaf)) && !Nest(t.frames, t.leaf).String?
  {
    hide Contains, Dump, Run, Render, PlanFor, KeptState, TargetOf, Healable, Nest, MarkedLast, InnerOf, OpenText,
        IsMarker;
    var t := TargetOf(text, c.marker);
    var q, rest := InnermostDump(text, c);
    assert OpenText(t.frames.below) + q + "" == OpenText(t.frames.below) + q;
    PartsLackMarker(OpenText(t.frames.below), q, "", c.marker);
    InnerMarked(c, text, q, rest);
    NestMarked(c, t.frames.below, InnerOf(t), q, rest);
    NestIsContainer(t.frames, t.leaf);
  }

  lemma {:induction false} NestIsContainer(f: Frames, v: Json)
    requires Ready(f) && Stacked(f) && (f.Bottom? ==> v.Array? || v.Object?)
    ensures Nest(f, v).Array? || Nest(f, v).Object?
    decreases f
  {
    match f
    case Bottom =>
    case InArray(items, below) => NestIsContainer(below, Array(items + [v]));
    case InMember(members, key, below) => NestIsContainer(below, Object(Put(members, key, v)));
  }

  // ---------------------------------------------------------------- no marker survives

  /** The marker occurs nowhere in what was read, and no key is being filled a second time. */
  ghost predicate MarkerAbsent(text: string, marker: string) {
    var str := text[..ReadLength(START, text)];
    if Parse(str).Some? then Unmarked(Parse(str).value, marker)
    else
      Run(START, str).Some? && Healable(str) ==>
        Fresh(KeptState(str).frames) && !Contains(Render(KeptState(str)), marker)
  }

  /** How a text is consumed when it is healed. */
  lemma ConsumedHealed(text: string, marker: string, isPartial: bool)
    requires IsMarker(marker)
    ensures var o, str := ConsumedOf(text, marker, isPartial), text[..ReadLength(START, text)];
            o.Ok? && o.value.Some? ==>
              var j := o.value.value;
              if Parse(str).Some? then j == Consumed(Parse(str).value, "", "")
              else
                && Run(START, str).Some? && Healable(str) && isPartial
                && j == Consumed(Nest(TargetOf(str, marker).frames, TargetOf(str, marker).leaf), marker,
                                 PlanFor(Run(START, str).value, str).glue + marker)
  {
    hide Run, Parse, Nest, TargetOf, Healable, PlanFor, ReadLength;
    var str := text[..ReadLength(START, text)];
    if Parse(str).None? && Run(START, str).Some? && !Run(START, str).value.frames.Bottom? {
      HealingSucceedsIff(str, marker);
    }
  }

  /** The one way a value that was not healed is called partial: a bare string consumed as content. */
  predicate BareContent(j: Json, argsPaths: seq<Path>, contentPaths: seq<Path>) {
    j.String? && argsPaths != [] && [] !in argsPaths && [] in contentPaths
  }

  /**
   For every input, paths and mode: the cleaned value has the marker in no key and no string, and
   it is called partial exactly when healing happened, or when a complete bare string is consumed
   as content.
   */
  lemma CleanedResult(text: string, marker: string, isPartial: bool, argsPaths: seq<Path>, contentPaths: seq<Path>)
    requires IsMarker(marker) && MarkerAbsent(text, marker)
    ensures var o := DumpedOf(text, marker, isPartial, argsPaths, contentPaths);
            o.Ok? && o.value.Some? ==>
              var j := ConsumedOf(text, marker, isPartial).value.value;
              && NoMarker(o.value.value.0, marker)
              && (o.value.value.1 <==> j.marker != "" || BareContent(j.json, argsPaths, contentPaths))
  {
    var o := ConsumedOf(text, marker, isPartial);
    ConsumedHealed(text, marker, isPartial);
    hide ConsumedOf, Run, Parse, Nest, TargetOf, Healable, PlanFor, ReadLength, Contains, Walk, KeptState, Render, Dump,
        IsMarker;
    if o.Ok? && o.value.Some? {
      var j, str := o.value.value, text[..ReadLength(START, text)];
      var c := ContextOf(j, marker, isPartial, argsPaths, contentPaths);
      MarkerNotEmpty(marker);
      if j.marker == "" {
        WalkUnmarked(c, j.json, []);
        MarkerIsPlain(marker);
        UnmarkedHasNoMarker(j.json, marker);
      } else {
        MarkerIsIn(PlanFor(Run(START, str).value, str).glue, marker);
        HealedIsMarkedLast(c, str);
        WalkMarked(c, j.json, []);
      }
    }
  }

  lemma MarkerNotEmpty(m: string)
    requires IsMarker(m)
    ensures m != ""
  {
  }

  /** That case is real: a complete string consumed as content at the root comes back empty, and partial. */
  lemma BareContentIsLost(s: string, marker: string, isPartial: bool, argsPaths: seq<Path>, contentPaths: seq<Path>)
    requires BareContent(String(s), argsPaths, contentPaths)
    ensures DumpedOf(Dump(String(s)), marker, isPartial, argsPaths, contentPaths) == Ok(Some((String(""), true)))
  {
    ParseDump(String(s));
    hide Run, Parse, Dump, Contains;
    ParsedIsRead(Dump(String(s)));
    assert OccursAt(s, "", 0);
    ContainsAt(s, "", 0);
    assert s[..0] == "";
  }

  // ---------------------------------------------------------------- truncated arguments

  /** A scan that has seen a bracket is inside a container or done. */
  lemma {:induction false} InsideOrDone(st: State, text: string)
    requires WellFormed(st) && (!st.frames.Bottom? || st.mode.Done?) && Run(st, text).Some?
    ensures var end := Run(st, text).value; !end.frames.Bottom? || end.mode.Done?
    decreases |text|
  {
    if text != "" {
      InsideOrDoneStep(st, text[0]);
      InsideOrDone(Step(st, text[0]).value, text[1..]);
    }
  }

  lemma InsideOrDoneStep(st: State, c: char)
    requires WellFormed(st) && (!st.frames.Bottom? || st.mode.Done?) && Step(st, c).Some?
    ensures var n := Step(st, c).value; !n.frames.Bottom? || n.mode.Done?
  {
    hide HexCode;
  }

  lemma FirstOfContainer(v: Json)
    requires v.Array? || v.Object?
    ensures Dump(v) != "" && (Dump(v)[0] == '[' || Dump(v)[0] == '{')
  {
  }

  /** A proper prefix of the dump of a container stops inside a container. */
  lemma PrefixIsOpen(v: Json, n: nat)
    requires Storable(v) && (v.Array? || v.Object?) && 0 < n < |Dump(v)|
    ensures Run(START, Dump(v)[..n]).Some? && !Run(START, Dump(v)[..n]).value.frames.Bottom?
  {
    hide Storable, Render, Dump;
    var d := Dump(v);
    var p := d[..n];
    PrefixIsRendered(v, n);
    PrefixIsRendered(v, n + 1);
    FirstOfContainer(v);
    assert p[0] == d[0] && p == [p[0]] + p[1..];
    RunFirst(START, p[0], p[1..]);
    InsideOrDone(Step(START, p[0]).value, p[1..]);
    var st := Run(START, p).value;
    if st.frames.Bottom? {
      RunSnoc(START, d[..n + 1]);
      assert d[..n + 1][..n] == p;
      DoneStays(st, d[n]);
    }
  }

  lemma DoneStays(st: State, c: char)
    requires WellFormed(st) && st.mode.Done? && Step(st, c).Some?
    ensures Step(st, c).value == st
  {
  }

  /** What is kept of a prefix of a dump is a prefix of it. */
  lemma KeptIsPrefix(v: Json, n: nat)
    requires Storable(v) && n <= |Dump(v)| && Run(START, Dump(v)[..n]).Some? && Healable(Dump(v)[..n])
    ensures var p := Dump(v)[..n];
            Render(KeptState(p)) == p[..PlanFor(Run(START, p).value, p).kept] && Fresh(KeptState(p).frames)
  {
    hide Storable, Render, Dump, Run, Fresh;
    var p := Dump(v)[..n];
    var k := PlanFor(Run(START, p).value, p).kept;
    PrefixIsRendered(v, n);
    PrefixIsRendered(v, k);
    assert p[..k] == Dump(v)[..k];
    assert p[..n] == p;
    if CutsBack(Run(START, p).value, p) {
      CutLandsWhenHealable(p);
    }
  }

  /** Arguments of which only a proper prefix has arrived. */
  function TruncatedArguments(p: string, marker: string): Wrappers.Result<Option<(Json, bool)>, Exception> {
    DumpedOf(p, marker, true, [[]], [])
  }

  /** A text that stops inside a container does not parse. */
  lemma OpenDoesNotParse(p: string)
    requires Run(START, p).Some? && !Run(START, p).value.frames.Bottom?
    ensures Parse(p).None?
  {
  }

  /** The first argument path is the root: the healed value is dumped and cut. */
  lemma RootIsDumped(p: string, marker: string)
    requires marker != "" && ReadLength(START, p) == |p| && Parse(p).None?
    requires Run(START, p).Some? && !Run(START, p).value.frames.Bottom?
    ensures var plan, o := ByPlan(p, marker), TruncatedArguments(p, marker);
            if plan.Ok? && Parse(plan.value.0).Some? then
              var c := Context([[]], [], marker, true, plan.value.1, true);
              var (a, found) := DumpArguments(c, Parse(plan.value.0).value);
              o == Ok(Some((String(a), found)))
            else o.Err?
  {
    hide Run, Parse, ByPlan, DumpArguments, ReadLength;
    assert p[..|p|] == p;
    var root: Path := [];
    assert root in [root];
  }

  /** Cutting a dump that holds the dump marker behind the kept text `a`: it stops at its first occurrence. */
  lemma CutArguments(c: Context, hv: Json, a: string, rest: string) returns (i: nat)
    requires c.healed && c.isPartial
    requires Dump(hv) == a + c.dumpMarker + rest && (a != "" ==> a[0] != '\"')
    ensures FirstAt(a + c.dumpMarker + rest, c.dumpMarker, i) && i <= |a|
    ensures DumpArguments(c, hv) == (a[..i], true)
  {
    hide Dump, Contains;
    OccursIn(a, c.dumpMarker, rest);
    ContainsAt(Dump(hv), c.dumpMarker, |a|);
    i := Find(Dump(hv), c.dumpMarker).value;
    CutIsPrefix(a, c.dumpMarker, rest, i);
  }

  lemma GlueIsOneOf(st: State, text: string)
    ensures PlanFor(st, text).glue in {"", "\"", ":\"", ",\"", "\\"}
  {
  }

  /** A proper prefix of the dump of a storable object or array, in which the marker does not occur. */
  ghost predicate IsTruncated(v: Json, n: nat, marker: string) {
    Storable(v) && (v.Array? || v.Object?) && 0 < n < |Dump(v)| && !Contains(Dump(v)[..n], marker)
  }

  /** What comes back of truncated arguments: an error, or the text up to the first dump marker in the healed dump. */
  lemma ArgumentsOrError(p: string, marker: string)
    requires Run(START, p).Some? && !Run(START, p).value.frames.Bottom? && IsMarker(marker)
    ensures TruncatedArguments(p, marker).Ok? <==> Healable(p)
    ensures Healable(p) ==>
              var t, plan := TargetOf(p, marker), PlanFor(Run(START, p).value, p);
              var (a, found) := DumpArguments(Context([[]], [], marker, true, plan.glue + marker, true),
                                              Nest(t.frames, t.leaf));
              TruncatedArguments(p, marker) == Ok(Some((String(a), found)))
  {
    ReadsAll(START, p);
    OpenDoesNotParse(p);
    HealingSucceedsIff(p, marker);
    MarkerNotEmpty(marker);
    RootIsDumped(p, marker);
    hide Run, Nest, TargetOf, PlanFor, ReadLength, Parse, Healable, Healed, DumpArguments, TruncatedArguments;
  }

  lemma ArgumentsCut(v: Json, n: nat, marker: string) returns (rest: string, i: nat)
    requires IsTruncated(v, n, marker) && IsMarker(marker)
    requires Run(START, Dump(v)[..n]).Some? && Healable(Dump(v)[..n])
    ensures var p := Dump(v)[..n];
            var plan := PlanFor(Run(START, p).value, p);
            && FirstAt(p[..plan.kept] + (plan.glue + marker) + rest, plan.glue + marker, i) && i <= plan.kept
            && TruncatedArguments(p, marker) == Ok(Some((String(p[..i]), true)))
            && rest == (if plan.asKey then "\":1" else "\"") + Closers(KeptState(p).frames)
            && !Contains(p[..plan.kept], marker)
  {
    hide Run, Storable, Nest, TargetOf, PlanFor, KeptState, Render, Fresh, Contains, IsMarker, Closers;
    hide Healable, Dump, DumpArguments, TruncatedArguments;
    var p := Dump(v)[..n];
    PrefixIsOpen(v, n);
    ArgumentsOrError(p, marker);
    KeptIsPrefix(v, n);
    FirstOfContainer(v);
    var t, plan := TargetOf(p, marker), PlanFor(Run(START, p).value, p);
    assert p[..plan.kept] + p[plan.kept..] + "" == p;
    PartsLackMarker(p[..plan.kept], p[plan.kept..], "", marker);
    rest := HealedDump(p, marker);
    var c := Context([[]], [], marker, true, plan.glue + marker, true);
    i := CutArguments(c, Nest(t.frames, t.leaf), p[..plan.kept], rest);
    assert p[..plan.kept][..i] == p[..i];
  }

  /** How much of a truncated text is kept before healing begins. */
  function KeptOf(p: string): (n: nat)
    requires Run(START, p).Some?
    ensures n <= |p|
  {
    PlanFor(Run(START, p).value, p).kept
  }

  /**
   Every proper prefix of the compact dump of an object or array, consumed as partial arguments:
   it succeeds unless the prefix stops in a unicode escape from which cutting back does not land,
   and then returns a prefix of it; with a marker that does not overlap itself, exactly the text
   up to where healing began.
   */
  lemma TruncatedArgumentsArePrefix(v: Json, n: nat, marker: string)
    requires IsTruncated(v, n, marker) && IsMarker(marker)
    ensures var p := Dump(v)[..n];
            Run(START, p).Some? &&
            var o, kept := TruncatedArguments(p, marker), KeptOf(p);
            && (o.Ok? <==> Healable(p))
            && (o.Ok? ==>
                  && o.value.Some? && o.value.value.0.String? && o.value.value.1
                  && o.value.value.0.s <= p[..kept]
                  && (Unbordered(marker) ==> o.value.value.0.s == p[..kept]))
  {
    hide Run, Storable, Contains, IsMarker, Healable, Dump, TruncatedArguments, Unbordered, PlanFor, Closers, KeptState,
        FirstAt;
    var p := Dump(v)[..n];
    PrefixIsOpen(v, n);
    ArgumentsOrError(p, marker);
    if Healable(p) {
      var rest, i := ArgumentsCut(v, n, marker);
      var plan := PlanFor(Run(START, p).value, p);
      assert p[..i] <= p[..plan.kept];
      if Unbordered(marker) {
        GlueIsOneOf(Run(START, p).value, p);
        CutIsExact(p[..plan.kept], plan.glue, marker, rest, i);
      }
    }
  }

  /** Where the scan of a dump stands inside a unicode escape the dump has one. */
  lemma HexShows(v: Json, n: nat)
    requires Storable(v) && n <= |Dump(v)| && Run(START, Dump(v)[..n]).Some?
             && Run(START, Dump(v)[..n]).value.mode.InHex?
    ensures Contains(Dump(v), "\\u")
  {
    PrefixIsRendered(v, n);
    hide Dump, OpenPlace, Escape, Run, Storable;
    var st := Run(START, Dump(v)[..n]).value;
    var before := OpenPlace(st.frames) + "\"" + Escape(st.mode.s);
    OccursIn(before, "\\u", st.mode.digits);
    ContainsAt(Dump(v)[..n], "\\u", |before|);
    ContainsSlice(Dump(v), "\\u", 0, n);
  }

  /** Every truncation of a dump without unicode escapes is healed. */
  lemma EscapeFreeHeals(v: Json, n: nat, marker: string)
    requires IsTruncated(v, n, marker) && IsMarker(marker) && !Contains(Dump(v), "\\u")
    ensures Run(START, Dump(v)[..n]).Some? && Healable(Dump(v)[..n]) && TruncatedArguments(Dump(v)[..n], marker).Ok?
  {
    hide Run, Storable, Contains, IsMarker, Dump, TruncatedArguments;
    PrefixIsOpen(v, n);
    ArgumentsOrError(Dump(v)[..n], marker);
    if Run(START, Dump(v)[..n]).value.mode.InHex? {
      HexShows(v, n);
    }
  }

  // ---------------------------------------------------------------- when the cut is exact

  /** Whatever was truncated, and wherever: if healing succeeds all of the kept text comes back. */
  ghost predicate AlwaysExact(marker: string) {
    forall v, n: nat :: IsTruncated(v, n, marker) ==> IsExact(Dump(v)[..n], marker)
  }

  ghost predicate IsExact(p: string, marker: string) {
    Run(START, p).Some? && Healable(p) ==> TruncatedArguments(p, marker) == Ok(Some((String(p[..KeptOf(p)]), true)))
  }

  /** The marker begins and ends with the same `l` characters. */
  predicate Overlaps(m: string, l: nat) {
    0 < l < |m| && m[..l] == m[|m| - l..]
  }

  /** An array of one string, which is the marker up to where its second copy may begin. */
  function OverlapWitness(m: string, l: nat): Json
    requires l <= |m|
  {
    Array([String(m[..|m| - l])])
  }

  lemma WitnessDump(s: string)
    requires Plain(s)
    ensures Dump(Array([String(s)])) == "[\"" + s + "\"]"
  {
    EscapePlain(s);
    var v := [String(s)];
    assert v[..0] == [];
    assert DumpItems(v) == "" + Quote(s) == Quote(s);
    assert "[" + ("\"" + s + "\"") + "]" == "[\"" + s + "\"]";
  }

  /** The marker is found too early when the text behind it completes an earlier copy. */
  lemma OverlapIsFound(m: string, l: nat, rest: string)
    requires IsMarker(m) && Overlaps(m, l)
    ensures var a := "[\"" + m[..|m| - l]; OccursAt(a + m + rest, m, 2) && !Contains(a, m) && 2 < |a|
  {
    var s := m[..|m| - l];
    var a := "[\"" + s;
    assert a + m + rest == "[\"" + (s + m[..l]) + (m[l..] + rest) by {
      assert m == m[..l] + m[l..];
    }
    assert s + m[..l] == m;
    OccursIn("[\"", m, m[l..] + rest);
    forall i
      ensures !OccursAt(a, m, i)
    {
      if 0 <= i && i + |m| <= |a| {
        assert a[i..i + |m|][0] == a[i] && a[i..i + |m|][1] == a[i + 1];
      }
    }
  }

  lemma WitnessIsTruncated(m: string, l: nat)
    requires IsMarker(m) && Overlaps(m, l)
    ensures var v, n, p := OverlapWitness(m, l), 2 + |m| - l, "[\"" + m[..|m| - l];
            && IsTruncated(v, n, m) && Dump(v)[..n] == p
            && Run(START, p).Some? && Healable(p) && PlanFor(Run(START, p).value, p) == Plan(|p|, "", false)
  {
    var s, v := m[..|m| - l], OverlapWitness(m, l);
    WitnessDump(s);
    OpenStringRun(s);
    OverlapIsFound(m, l, "");
    assert Storable(v) by {
      assert Storable(String(s));
    }
    hide Run, Dump, Contains, IsMarker, Storable;
    assert Dump(v)[..2 + |s|] == "[\"" + s;
  }

  /** With a marker that overlaps itself that array, cut inside its string, comes back cut too early. */
  lemma OverlapCutsEarly(m: string, l: nat)
    requires IsMarker(m) && Overlaps(m, l)
    ensures var v, n := OverlapWitness(m, l), 2 + |m| - l;
            && IsTruncated(v, n, m) && Run(START, Dump(v)[..n]).Some? && Healable(Dump(v)[..n])
               && KeptOf(Dump(v)[..n]) == n
            && TruncatedArguments(Dump(v)[..n], m).Ok? && !IsExact(Dump(v)[..n], m)
  {
    var v, n := OverlapWitness(m, l), 2 + |m| - l;
    var p := "[\"" + m[..|m| - l];
    WitnessIsTruncated(m, l);
    hide Run, Dump, Contains, TruncatedArguments, IsMarker, IsTruncated, Healable, PlanFor, OverlapWitness, Overlaps,
        Closers, KeptState;
    assert p[..|p|] == p;
    var rest, i := ArgumentsCut(v, n, m);
    assert "" + m == m;
    OverlapIsFound(m, l, rest);
    assert i <= 2;
    assert |p[..i]| < |p|;
  }

  /**
   Which markers are safe: all of the kept text comes back from every truncation of every object or
   array if and only if no proper beginning of the marker is also its end.
   */
  lemma ExactIffUnbordered(marker: string)
    requires IsMarker(marker)
    ensures AlwaysExact(marker) <==> Unbordered(marker)
  {
    hide IsMarker, IsExact, Storable, Contains, Dump;
    if Unbordered(marker) {
      forall v, n: nat | IsTruncated(v, n, marker)
        ensures IsExact(Dump(v)[..n], marker)
      {
        UnborderedIsExact(v, n, marker);
      }
    } else {
      var l :| 0 < l < |marker| && marker[..l] == marker[|marker| - l..];
      OverlapCutsEarly(marker, l);
    }
  }

  lemma UnborderedIsExact(v: Json, n: nat, marker: string)
    requires IsTruncated(v, n, marker) && IsMarker(marker) && Unbordered(marker)
    ensures IsExact(Dump(v)[..n], marker)
  {
    hide Run, Healable, Dump, TruncatedArguments, Unbordered, IsTruncated, KeptOf;
    TruncatedArgumentsArePrefix(v, n, marker);
  }
}
