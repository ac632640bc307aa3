/**
 Arguments inside an object (common/chat-parser.cpp): where the caller names the path of one member,
 the text found there is exactly what comes back when the member's own text is consumed alone.
 */
module NestedArguments {
  import opened Wrappers
  import opened JsonValue
  import opened JsonScanner
  import opened JsonTail
  import opened JsonHealing
  import opened JsonHealed
  import opened JsonRender
  import opened JsonRoundTrip
  import opened JsonHealedDump
  import opened JsonPartial
  import opened ChatCleaner
  import opened CleanerProperties
  import opened ChatJson
  import opened HealingTheorems

  // ---------------------------------------------------------------- the same scan inside a container

  /** The frames on top of `base` instead of nothing. */
  function Graft(f: Frames, base: Frames): (g: Frames)
    ensures !f.Bottom? ==> g.InArray? == f.InArray? && g.InObject? == f.InObject? && g.InMember? == f.InMember?
  {
    match f
    case Bottom => base
    case InArray(items, below) => InArray(items, Graft(below, base))
    case InObject(members, below) => InObject(members, Graft(below, base))
    case InMember(members, key, below) => InMember(members, key, Graft(below, base))
  }

  lemma {:induction false} GraftStacked(f: Frames, base: Frames)
    requires Stacked(f) && Stacked(base) && Ready(base)
    ensures Stacked(Graft(f, base)) && (Ready(f) ==> Ready(Graft(f, base)))
  {
    if !f.Bottom? {
      GraftStacked(f.below, base);
    }
  }

  function GraftState(st: State, base: Frames): State {
    State(Graft(st.frames, base), st.mode)
  }

  lemma GraftWellFormed(st: State, base: Frames)
    requires WellFormed(st) && !st.frames.Bottom? && Stacked(base) && Ready(base)
    ensures WellFormed(GraftState(st, base))
  {
    GraftStacked(st.frames, base);
    hide Dump, Stacked;
  }

  lemma GraftDeliver(f: Frames, v: Json, base: Frames)
    requires Ready(f) && Stacked(f) && !f.Bottom? && Stacked(base) && Ready(base)
    ensures Ready(Graft(f, base)) && Stacked(Graft(f, base))
    ensures Deliver(Graft(f, base), v) == GraftState(Deliver(f, v), base)
  {
    GraftStacked(f, base);
    hide Put;
  }

  lemma GraftStart(f: Frames, c: char, base: Frames)
    requires Ready(f) && Stacked(f) && Stacked(base) && Ready(base)
    ensures Ready(Graft(f, base)) && Stacked(Graft(f, base))
    ensures StartValue(Graft(f, base), c) == match StartValue(f, c) case None => None
            case Some(n) => Some(GraftState(n, base))
  {
    GraftStacked(f, base);
    hide StartLiteral, FirstPhase, Dump, Stacked;
  }

  lemma GraftAfter(st: State, c: char, base: Frames)
    requires WellFormed(st) && st.mode.AfterValue? && Stacked(base) && Ready(base)
    requires StepAfter(st, c).Some? && !StepAfter(st, c).value.frames.Bottom?
    ensures WellFormed(GraftState(st, base))
    ensures StepAfter(GraftState(st, base), c) == Some(GraftState(StepAfter(st, c).value, base))
  {
    GraftWellFormed(st, base);
    var f := st.frames;
    hide IsSpace, Put, Deliver;
    DeliveredIsOpen(f.below, if f.InArray? then Array(f.items) else Object(f.members));
    if !f.below.Bottom? {
      GraftDeliver(f.below, if f.InArray? then Array(f.items) else Object(f.members), base);
    }
  }

  lemma DeliveredIsOpen(f: Frames, v: Json)
    requires Ready(f) && Stacked(f)
    ensures Deliver(f, v).frames.Bottom? <==> f.Bottom?
  {
  }

  lemma GraftPlace(st: State, c: char, base: Frames)
    requires st.mode.WantValue? || st.mode.FirstItem? || st.mode.FirstKey? || st.mode.WantKey? || st.mode.WantColon?
    requires WellFormed(st) && !st.frames.Bottom? && Stacked(base) && Ready(base)
    requires Step(st, c).Some? && !Step(st, c).value.frames.Bottom?
    ensures WellFormed(GraftState(st, base))
            && Step(GraftState(st, base), c) == Some(GraftState(Step(st, c).value, base))
  {
    hide HexCode, Put, NextPhase, Dump, StartLiteral, StepAfter, StartValue, Deliver, IsSpace, Unescape, IsHexDigit,
        Graft, Stacked;
    GraftWellFormed(st, base);
    var f := st.frames;
    match st.mode
    case WantValue => GraftStart(f, c, base);
    case FirstItem =>
      GraftStart(f, c, base);
      GraftEmpty(f, Array([]), base);
    case FirstKey => GraftEmpty(f, Object([]), base);
    case _ =>
  }

  lemma GraftString(st: State, c: char, base: Frames)
    requires st.mode.InString? || st.mode.InEscape? || st.mode.InHex?
    requires WellFormed(st) && !st.frames.Bottom? && Stacked(base) && Ready(base)
    requires Step(st, c).Some? && !Step(st, c).value.frames.Bottom?
    ensures WellFormed(GraftState(st, base))
            && Step(GraftState(st, base), c) == Some(GraftState(Step(st, c).value, base))
  {
    hide HexCode, Put, NextPhase, Dump, StartLiteral, StepAfter, StartValue, Deliver, IsSpace, Unescape, IsHexDigit,
        Graft, Stacked;
    GraftWellFormed(st, base);
    if st.mode.InString? {
      if st.mode.isKey {
        GraftKey(st.frames, st.mode.s, base);
      } else {
        GraftDeliver(st.frames, String(st.mode.s), base);
      }
    }
  }

  lemma GraftKey(f: Frames, key: string, base: Frames)
    requires f.InObject?
    ensures var g := Graft(f, base);
            g.InObject? && InMember(g.members, key, g.below) == Graft(InMember(f.members, key, f.below), base)
  {
  }

  lemma GraftScalar(st: State, c: char, base: Frames)
    requires st.mode.AfterValue? || st.mode.InLiteral? || st.mode.InNumber?
    requires WellFormed(st) && !st.frames.Bottom? && Stacked(base) && Ready(base)
    requires Step(st, c).Some? && !Step(st, c).value.frames.Bottom?
    ensures WellFormed(GraftState(st, base))
            && Step(GraftState(st, base), c) == Some(GraftState(Step(st, c).value, base))
  {
    hide HexCode, Put, NextPhase, Dump, StartLiteral, StepAfter, StartValue, Deliver, IsSpace, Unescape, IsHexDigit,
        Graft, Stacked;
    GraftWellFormed(st, base);
    var f := st.frames;
    match st.mode
    case AfterValue => GraftAfter(st, c, base);
    case InLiteral(rest, v) => GraftDeliver(f, v, base);
    case InNumber(text, phase) =>
      GraftDeliver(f, Number(text), base);
      if NextPhase(phase, c).None? {
        NumberDone(f, text);
        GraftAfter(Deliver(f, Number(text)), c, base);
      }
  }

  /** A step that stays inside a container is the same step on top of any frames. */
  lemma GraftStep(st: State, c: char, base: Frames)
    requires WellFormed(st) && !st.frames.Bottom? && Stacked(base) && Ready(base)
    requires Step(st, c).Some? && !Step(st, c).value.frames.Bottom?
    ensures WellFormed(GraftState(st, base))
            && Step(GraftState(st, base), c) == Some(GraftState(Step(st, c).value, base))
  {
    hide Step, GraftState, Dump;
    match st.mode
    case AfterValue => GraftScalar(st, c, base);
    case InLiteral(_, _) => GraftScalar(st, c, base);
    case InNumber(_, _) => GraftScalar(st, c, base);
    case InString(_, _) => GraftString(st, c, base);
    case InEscape(_, _) => GraftString(st, c, base);
    case InHex(_, _, _) => GraftString(st, c, base);
    case Done(_) =>
    case _ => GraftPlace(st, c, base);
  }

  lemma NumberDone(f: Frames, text: string)
    requires Ready(f) && Stacked(f) && !f.Bottom?
    ensures Deliver(f, Number(text)).mode.AfterValue?
  {
  }

  /** An empty container that is closed. */
  lemma GraftEmpty(f: Frames, v: Json, base: Frames)
    requires Stacked(f) && (f.InArray? || f.InObject?) && Stacked(base) && Ready(base)
    ensures Ready(f.below) && Stacked(f.below) && Graft(f, base).below == Graft(f.below, base)
    ensures !Deliver(f.below, v).frames.Bottom? ==>
              && Ready(Graft(f.below, base)) && Stacked(Graft(f.below, base))
              && Deliver(Graft(f.below, base), v) == GraftState(Deliver(f.below, v), base)
  {
    hide Deliver, Put;
    DeliveredIsOpen(f.below, v);
    if !f.below.Bottom? {
      GraftDeliver(f.below, v, base);
    }
  }

  lemma {:induction false} GraftClosers(f: Frames, base: Frames)
    ensures Closers(Graft(f, base)) == Closers(f) + Closers(base)
  {
    if f.Bottom? {
      assert "" + Closers(base) == Closers(base);
    } else {
      var c := if f.InArray? then "]" else "}";
      GraftClosers(f.below, base);
      CloseOne(f, c);
      CloseOne(Graft(f, base), c);
      hide Closers;
      assert c + (Closers(f.below) + Closers(base)) == c + Closers(f.below) + Closers(base);
    }
  }

  lemma CloseOne(f: Frames, c: string)
    requires !f.Bottom? && c == if f.InArray? then "]" else "}"
    ensures Closers(f) == c + Closers(f.below)
  {
  }

  lemma {:induction false} GraftNest(f: Frames, base: Frames, leaf: Json)
    requires Ready(f) && Stacked(f) && Ready(base) && Stacked(base)
    ensures Ready(Graft(f, base)) && Stacked(Graft(f, base))
    ensures Nest(Graft(f, base), leaf) == Nest(base, Nest(f, leaf))
    decreases f
  {
    GraftStacked(f, base);
    match f
    case Bottom =>
    case InArray(items, below) => GraftNest(below, base, Array(items + [leaf]));
    case InMember(members, key, below) => GraftNest(below, base, Object(Put(members, key, leaf)));
  }

  /** A text that leads to the place for a value on top of `base`. */
  ghost predicate LeadsTo(pre: string, base: Frames) {
    Stacked(base) && Ready(base) && Run(START, pre) == Some(State(base, WantValue))
  }

  /** Behind such a text a truncated dump leads to the same state, on top of `base`. */
  lemma {:induction false} GraftRun(pre: string, base: Frames, v: Json, n: nat)
    requires LeadsTo(pre, base) && Storable(v) && (v.Array? || v.Object?) && 0 < n < |Dump(v)|
    ensures Run(START, Dump(v)[..n]).Some? && !Run(START, Dump(v)[..n]).value.frames.Bottom?
    ensures Run(START, pre + Dump(v)[..n]) == Some(GraftState(Run(START, Dump(v)[..n]).value, base))
    decreases n
  {
    hide Run, Dump, Storable;
    var d := Dump(v);
    var q, a, c := d[..n], d[..n - 1], d[n - 1];
    PrefixIsOpen(v, n);
    assert q == a + [c] && q[..n - 1] == a && pre + q == pre + a + [c];
    RunSnoc(START, q);
    RunSnoc(START, pre + q);
    assert (pre + q)[..|pre + q| - 1] == pre + a;
    if n == 1 {
      FirstOfContainer(v);
      assert a == "" && pre + a == pre;
      EmptyRun();
      GraftFirst(base, c);
    } else {
      GraftRun(pre, base, v, n - 1);
      GraftStep(Run(START, a).value, c, base);
    }
  }

  lemma EmptyRun()
    ensures Run(START, "") == Some(START)
  {
  }

  lemma GraftFirst(base: Frames, c: char)
    requires Stacked(base) && Ready(base) && (c == '[' || c == '{')
    ensures WellFormed(State(base, WantValue)) ==>
              Step(START, c).Some? && Step(State(base, WantValue), c) == Some(GraftState(Step(START, c).value, base))
  {
    assert Graft(Bottom, base) == base;
    assert Graft(InArray([], Bottom), base) == InArray([], base)
        && Graft(InObject([], Bottom), base) == InObject([], base);
  }

  // ---------------------------------------------------------------- cutting back

  /** The last separator is in the second part, if there is one in it. */
  lemma CutBackTail(pre: string, q: string, inArray: bool)
    ensures CutBack(pre + q, inArray) == if CutBack(q, inArray) > 0 then |pre| + CutBack(q, inArray)
            else CutBack(pre, inArray)
  {
    hide CutBack, IsSeparator;
    var i, j := CutBack(pre, inArray), CutBack(q, inArray);
    assert forall k :: 0 <= k < |pre| ==> (pre + q)[k] == pre[k];
    assert forall k :: 0 <= k < |q| ==> (pre + q)[|pre| + k] == q[k];
    forall k | |pre| + j <= k < |pre + q|
      ensures !IsSeparator(inArray, (pre + q)[k])
    {
      assert (pre + q)[k] == q[k - |pre|];
    }
    if j > 0 {
      assert (pre + q)[|pre| + (j - 1)] == q[j - 1];
      CutBackIs(pre + q, inArray, |pre| + j);
    } else {
      CutBackIs(pre + q, inArray, i);
    }
  }

  lemma CutBackIs(text: string, inArray: bool, n: nat)
    requires n <= |text| && (n > 0 ==> IsSeparator(inArray, text[n - 1]))
    requires forall i :: n <= i < |text| ==> !IsSeparator(inArray, text[i])
    ensures CutBack(text, inArray) == n
  {
  }

  /** Inside a value or in an array the text since it began has the separator that precedes the value. */
  lemma SeparatorInDump(v: Json, n: nat)
    requires Storable(v) && n <= |Dump(v)| && Run(START, Dump(v)[..n]).Some?
    requires var st := Run(START, Dump(v)[..n]).value; st.mode.InHex? && (st.frames.InArray? || st.frames.InMember?)
    ensures CutBack(Dump(v)[..n], Run(START, Dump(v)[..n]).value.frames.InArray?) > 0
  {
    hide Run, Storable, Dump, CutBack, OpenPlace, Escape;
    PrefixIsRendered(v, n);
    var q, st := Dump(v)[..n], Run(START, Dump(v)[..n]).value;
    var rest := "\"" + Escape(st.mode.s) + "\\u" + st.mode.digits;
    assert q == OpenPlace(st.frames) + rest;
    PlaceHasSeparator(st.frames, rest);
  }

  lemma PlaceHasSeparator(f: Frames, rest: string)
    requires Stacked(f) && (f.InArray? || f.InMember?)
    ensures CutBack(OpenPlace(f) + rest, f.InArray?) > 0
  {
    hide CutBack, OpenText, MemberCommas, ItemCommas, Quote;
    var before := if f.InArray? then OpenText(f.below)
        else OpenText(f.below) + "{" + MemberCommas(f.members) + Quote(f.key);
    assert OpenText(f) == before + (if f.InArray? then "[" + ItemCommas(f.items) else ":") by {
      OpenTextOf(f);
    }
    var text := OpenPlace(f) + rest;
    assert text[|before|] == if f.InArray? then '[' else ':';
    assert IsSeparator(f.InArray?, text[|before|]);
  }

  lemma OpenTextOf(f: Frames)
    requires Stacked(f) && (f.InArray? || f.InMember?)
    ensures Ready(f) && Ready(f.below) && Stacked(f.below)
    ensures OpenText(f) ==
            if f.InArray? then OpenText(f.below) + ("[" + ItemCommas(f.items))
            else OpenText(f.below) + "{" + MemberCommas(f.members) + Quote(f.key) + ":"
  {
  }

  /** Healing behind `pre` is healing of the part behind it, on top of `base`. */
  ghost predicate SameHealing(pre: string, base: Frames, q: string, marker: string)
    requires Run(START, q).Some? && Run(START, pre + q).Some?
  {
    var p, plan, whole := pre + q, PlanFor(Run(START, q).value, q), PlanFor(Run(START, pre + q).value, pre + q);
    && Healable(q) && Healable(p)
    && whole.glue == plan.glue && whole.kept == |pre| + plan.kept
    && TargetOf(p, marker) == Target(Graft(TargetOf(q, marker).frames, base), TargetOf(q, marker).leaf)
  }

  lemma CutRuns(pre: string, base: Frames, v: Json, n: nat)
    requires LeadsTo(pre, base) && Storable(v) && (v.Array? || v.Object?) && 0 < n < |Dump(v)|
    requires Run(START, Dump(v)[..n]).Some? && Run(START, pre + Dump(v)[..n]).Some?
    requires CutBack(Dump(v)[..n], Run(START, Dump(v)[..n]).value.frames.InArray?) > 0
    ensures var q := Dump(v)[..n];
            var k := CutBack(q, Run(START, q).value.frames.InArray?);
            && CutBack(pre + q, Run(START, pre + q).value.frames.InArray?) == |pre| + k
            && Run(START, pre + q).value == GraftState(Run(START, q).value, base)
            && Run(START, q[..k]).Some? && (pre + q)[..|pre| + k] == pre + q[..k]
            && Run(START, pre + q[..k]) == Some(GraftState(Run(START, q[..k]).value, base))
  {
    hide *;
    StartsWell();
    var q := Dump(v)[..n];
    PrefixIsOpen(v, n);
    GraftRun(pre, base, v, n);
    var f := Run(START, q).value.frames;
    GraftKind(f, base);
    GraftFrames(Run(START, q).value, base);
    CutBackTail(pre, q, f.InArray?);
    var k := CutBack(q, f.InArray?);
    GraftRun(pre, base, v, k);
    TakeTwice(pre, Dump(v), n, k);
  }

  lemma GraftKind(f: Frames, base: Frames)
    requires !f.Bottom?
    ensures Graft(f, base).InArray? == f.InArray?
  {
  }

  lemma StartsWell()
    ensures WellFormed(START)
  {
  }

  lemma GraftFrames(st: State, base: Frames)
    ensures GraftState(st, base).frames == Graft(st.frames, base)
  {
  }

  lemma TakeTwice(pre: string, d: string, n: nat, k: nat)
    requires k <= n <= |d|
    ensures d[..n][..k] == d[..k] && (pre + d[..n])[..|pre| + k] == pre + d[..n][..k]
  {
  }

  lemma LandsTogether(pre: string, base: Frames, v: Json, n: nat)
    requires LeadsTo(pre, base) && Storable(v) && (v.Array? || v.Object?) && 0 < n < |Dump(v)|
    requires Run(START, Dump(v)[..n]).Some? && Run(START, pre + Dump(v)[..n]).Some?
    requires CutBack(Dump(v)[..n], Run(START, Dump(v)[..n]).value.frames.InArray?) > 0
    ensures CutLands(Dump(v)[..n]) <==> CutLands(pre + Dump(v)[..n])
  {
    hide Run, Storable, Dump, CutBack, Closers, Graft;
    CutRuns(pre, base, v, n);
    var q := Dump(v)[..n];
    var f := Run(START, q).value.frames;
    var k := CutBack(q, f.InArray?);
    var m := Run(START, q[..k]).value;
    GraftClosers(f, base);
    GraftClosers(m.frames, base);
    SameTails(Closers(f), Closers(m.frames), Closers(base));
    hide LeadsTo;
  }

  lemma SameTails(a: string, b: string, c: string)
    ensures a + c == b + c <==> a == b
  {
    if a + c == b + c {
      assert |a| == |b|;
      assert a == (a + c)[..|a|] && b == (b + c)[..|b|];
    }
  }

  /** Where healing cuts back, and the cut lands. */
  lemma CutTogether(pre: string, base: Frames, v: Json, n: nat, marker: string)
    requires LeadsTo(pre, base) && Storable(v) && (v.Array? || v.Object?) && 0 < n < |Dump(v)|
    requires Run(START, Dump(v)[..n]).Some? && Run(START, pre + Dump(v)[..n]).Some?
             && !Run(START, Dump(v)[..n]).value.frames.Bottom?
    requires CutsBack(Run(START, Dump(v)[..n]).value, Dump(v)[..n]) && CutLands(Dump(v)[..n])
    ensures SameHealing(pre, base, Dump(v)[..n], marker)
  {
    hide Run, Storable, Dump, CutBack, CutLands;
    var q := Dump(v)[..n];
    assert CutBack(q, Run(START, q).value.frames.InArray?) > 0 by {
      LandingIsSomewhere(q);
    }
    GraftRun(pre, base, v, n);
    CutRuns(pre, base, v, n);
    LandsTogether(pre, base, v, n);
  }

  lemma LandingIsSomewhere(q: string)
    requires Run(START, q).Some? && CutLands(q)
    ensures CutBack(q, Run(START, q).value.frames.InArray?) > 0
  {
  }

  /** Where nothing is cut away. */
  lemma KeepTogether(pre: string, base: Frames, v: Json, n: nat, marker: string)
    requires LeadsTo(pre, base) && Storable(v) && (v.Array? || v.Object?) && 0 < n < |Dump(v)|
    requires Run(START, Dump(v)[..n]).Some? && Run(START, pre + Dump(v)[..n]).Some?
    requires !CutsBack(Run(START, Dump(v)[..n]).value, Dump(v)[..n])
    ensures SameHealing(pre, base, Dump(v)[..n], marker)
  {
    hide Run, Storable, Dump, CutBack, CutLands;
    GraftRun(pre, base, v, n);
  }

  /** Healing a text succeeds exactly when healing the value it stops in does, and does the same to it. */
  lemma HealsTogether(pre: string, base: Frames, v: Json, n: nat, marker: string)
    requires LeadsTo(pre, base) && EndsWith(pre, ':') && Storable(v) && (v.Array? || v.Object?) && 0 < n < |Dump(v)|
    ensures Run(START, Dump(v)[..n]).Some? && Run(START, pre + Dump(v)[..n]).Some?
    ensures Healable(pre + Dump(v)[..n]) <==> Healable(Dump(v)[..n])
    ensures Healable(Dump(v)[..n]) ==> SameHealing(pre, base, Dump(v)[..n], marker)
  {
    hide Run, Storable, Dump, CutBack, CutLands;
    var q := Dump(v)[..n];
    GraftRun(pre, base, v, n);
    var st := Run(START, q).value;
    if !CutsBack(st, q) {
      KeepTogether(pre, base, v, n, marker);
    } else if Healable(q) {
      CutLandsWhenHealable(q);
      CutTogether(pre, base, v, n, marker);
    } else {
      NoneHeals(pre, base, v, n);
    }
  }

  lemma NoneHeals(pre: string, base: Frames, v: Json, n: nat)
    requires LeadsTo(pre, base) && EndsWith(pre, ':') && Storable(v) && (v.Array? || v.Object?) && 0 < n < |Dump(v)|
    requires Run(START, Dump(v)[..n]).Some? && Run(START, pre + Dump(v)[..n]).Some?
    requires !Healable(Dump(v)[..n]) && Run(START, Dump(v)[..n]).value.mode.InHex?
    ensures !Healable(pre + Dump(v)[..n])
  {
    hide Run, Storable, Dump, CutBack, Closers;
    var q := Dump(v)[..n];
    PrefixIsOpen(v, n);
    GraftRun(pre, base, v, n);
    var f := Run(START, q).value.frames;
    if CutBack(q, f.InArray?) > 0 {
      LandsTogether(pre, base, v, n);
    } else {
      if !f.InObject? {
        SeparatorInDump(v, n);
      }
      CutBackTail(pre, q, false);
      CutBackIsAll(pre);
      assert (pre + q)[..|pre|] == pre;
      GraftClosers(f, base);
      SomeCloser(f);
    }
  }

  lemma CutBackIsAll(pre: string)
    requires EndsWith(pre, ':')
    ensures CutBack(pre, false) == |pre|
  {
  }

  lemma SomeCloser(f: Frames)
    requires !f.Bottom?
    ensures Closers(f) != ""
  {
  }

  // ---------------------------------------------------------------- the walk to one member

  /** A healed context whose paths are all that of one member of the root. */
  ghost predicate OnlyAt(c: Context, key: string) {
    && Sensible(c) && c.healed
    && (forall p :: p in c.argsPaths ==> p == [key])
    && (forall p :: p in c.contentPaths ==> p == [key])
  }

  /** A healed context whose only path is that of a member of the root. */
  ghost predicate AtMember(c: Context, key: string) {
    Sensible(c) && c.healed && c.argsPaths == [[key]] && c.contentPaths == []
  }

  /** Values without the marker, off the path, stay as they are. */
  lemma {:induction false} WalkKeeps(c: Context, j: Json, path: Path, key: string)
    requires OnlyAt(c, key) && path != [] && path[0] != key && Storable(j) && Unmarked(j, c.marker)
    ensures Walk(c, j, path) == Cleaned(j, path, false)
    decreases j, 1, 0
  {
    hide Contains, Dump, DumpArguments, CleanContent;
    assert path != [key];
    match j
    case Object(members) =>
      forall i | 0 <= i < |members|
        ensures UnmarkedMember(members[i], c.marker)
      {
        UnmarkedMemberOf(members, i, c.marker);
      }
      MembersKept(c, members, |members|, path, key);
      assert members[|members|..] == [] && members[..|members|] == members;
    case Array(items) =>
      forall i | 0 <= i < |items|
        ensures Unmarked(items[i], c.marker)
      {
        UnmarkedItem(items, i, c.marker);
      }
      ItemsKept(c, items, |items|, path, key);
      assert items[|items|..] == [] && items[..|items|] == items;
    case _ =>
  }

  lemma {:induction false} MembersKept(c: Context, members: seq<Member>, n: nat, path: Path, key: string)
    requires OnlyAt(c, key) && n <= |members| && DistinctKeys(members)
    requires forall i :: 0 <= i < n ==> UnmarkedMember(members[i], c.marker) && Storable(members[i].value)
    requires forall i :: 0 <= i < n ==> (path + [members[i].key])[0] != key
    ensures WalkMembers(c, members, [], path, false) == WalkMembers(c, members[n..], members[..n], path, false)
    decreases members, 0, n
  {
    hide Contains, Dump, Walk, WalkMembers, Storable, Unmarked;
    if n == 0 {
      assert members[0..] == members;
    } else {
      MembersKept(c, members, n - 1, path, key);
      var m := members[n - 1];
      assert UnmarkedMember(m, c.marker);
      if m.value.String? {
        UnmarkedString(m.value.s, c.marker);
      } else {
        assert m in members;
        WalkKeeps(c, m.value, path + [m.key], key);
      }
      MemberKept(c, members, n - 1, path);
    }
  }

  /** One member without the marker that its walk does not change. */
  lemma MemberKept(c: Context, members: seq<Member>, k: nat, path: Path)
    requires k < |members| && DistinctKeys(members) && !Contains(members[k].key, c.marker)
    requires var v := members[k].value;
             if v.String? then !Contains(v.s, c.marker)
             else Walk(c, v, path + [members[k].key]) == Cleaned(v, path + [members[k].key], false)
    ensures WalkMembers(c, members[k..], members[..k], path, false)
            == WalkMembers(c, members[k + 1..], members[..k + 1], path, false)
  {
    hide Contains, Walk;
    var m := members[k];
    assert members[k..][0] == m && members[k..][1..] == members[k + 1..];
    assert members[..k] + [Member(m.key, m.value)] == members[..k + 1];
    assert !HasKey(members[..k], m.key);
    assert Pop(path + [m.key]) == path;
  }

  lemma {:induction false} ItemsKept(c: Context, items: seq<Json>, n: nat, path: Path, key: string)
    requires OnlyAt(c, key) && n <= |items| && path != [] && path[0] != key
    requires forall i :: 0 <= i < n ==> Unmarked(items[i], c.marker) && Storable(items[i])
    ensures WalkItems(c, items, [], path, false) == WalkItems(c, items[n..], items[..n], path, false)
    decreases items, 0, n
  {
    hide Contains, Dump, DumpArguments, CleanContent, Walk, Storable;
    if n == 0 {
      assert items[0..] == items;
    } else {
      ItemsKept(c, items, n - 1, path, key);
      var v := items[n - 1];
      assert items[n - 1..][0] == v && items[n - 1..][1..] == items[n..];
      assert items[..n - 1] + [v] == items[..n];
      if v.String? {
        UnmarkedString(v.s, c.marker);
      }
      WalkKeeps(c, v, path, key);
    }
  }

  /** What surrounds the member: the members before it, without the marker, and its own new key. */
  ghost predicate Before(ms: seq<Member>, key: string, marker: string) {
    && DistinctKeys(ms) && !HasKey(ms, key) && !Contains(key, marker)
    && forall i :: 0 <= i < |ms| ==> UnmarkedMember(ms[i], marker) && Storable(ms[i].value)
  }

  /** The walk dumps the member that was healed, and leaves those before it. */
  lemma WalkToMember(c: Context, ms: seq<Member>, key: string, v: Json)
    requires AtMember(c, key) && Before(ms, key, c.marker) && !v.String?
    ensures var (a, found) := DumpArguments(c, v);
            Walk(c, Object(ms + [Member(key, v)]), []) == Cleaned(Object(ms + [Member(key, String(a))]), [], found)
  {
    hide Contains, Dump, DumpArguments, CleanContent, Storable, Unmarked;
    var all, last := ms + [Member(key, v)], Member(key, v);
    var root: Path := [];
    assert root != [key];
    assert forall i :: 0 <= i < |ms| ==> all[i] == ms[i];
    forall i, j | 0 <= i < j < |all|
      ensures all[i].key != all[j].key
    {
      assert !HasKey(ms, key);
    }
    MembersKept(c, all, |ms|, root, key);
    assert all[|ms|..] == [last] && all[..|ms|] == ms && [last][1..] == [];
    LastWalk(c, ms, key, v);
  }

  lemma LastWalk(c: Context, ms: seq<Member>, key: string, v: Json)
    requires AtMember(c, key) && Before(ms, key, c.marker) && !v.String?
    ensures var (a, found) := DumpArguments(c, v);
            WalkMembers(c, [Member(key, v)], ms, [], false) == Cleaned(Object(ms + [Member(key, String(a))]), [], found)
  {
    hide Contains, Dump, DumpArguments, CleanContent, Storable, Unmarked;
    var last, root: Path := Member(key, v), [];
    assert root + [key] == [key] && Pop([key]) == root;
    assert [last][1..] == [];
  }

  // ---------------------------------------------------------------- the arguments of a member

  /** The healed value is consumed, with its marker. */
  ghost predicate ConsumedOpenIs(p: string, marker: string)
    requires Run(START, p).Some?
  {
    Healable(p) ==>
      var t := TargetOf(p, marker);
      ConsumedOf(p, marker, true)
      == Ok(Some(Consumed(Nest(t.frames, t.leaf), marker, PlanFor(Run(START, p).value, p).glue + marker)))
  }

  /** What is consumed of a text that stops inside a container. */
  lemma ConsumedOpen(p: string, marker: string)
    requires Run(START, p).Some? && !Run(START, p).value.frames.Bottom? && IsMarker(marker)
    ensures ConsumedOpenIs(p, marker)
    ensures !Healable(p) ==> ConsumedOf(p, marker, true).Err?
  {
    ReadsAll(START, p);
    OpenDoesNotParse(p);
    HealingSucceedsIff(p, marker);
    MarkerNotEmpty(marker);
    hide Run, Parse, Healable, Nest, TargetOf, Healed, IsMarker, ReadLength;
    assert p[..|p|] == p;
  }

  lemma NestMember(ms: seq<Member>, key: string, v: Json, marker: string)
    requires Before(ms, key, marker)
    ensures Nest(InMember(ms, key, Bottom), v) == Object(ms + [Member(key, v)])
  {
  }

  lemma SameDump(c: Context, d: Context, v: Json)
    requires c.isPartial == d.isPartial && c.healed == d.healed && c.dumpMarker == d.dumpMarker
    ensures DumpArguments(c, v) == DumpArguments(d, v)
  {
  }

  lemma GlueHasMarker(glue: string, marker: string)
    ensures Contains(glue + marker, marker)
  {
    MarkerIsIn(glue, marker);
  }

  /** The value a healed text parses to is an array or an object. */
  lemma HealedIsContainer(q: string, marker: string)
    requires Run(START, q).Some? && Healable(q)
    ensures var t := TargetOf(q, marker); !Nest(t.frames, t.leaf).String?
  {
    hide Run;
    TargetFrames(q, marker);
    var t := TargetOf(q, marker);
    NestIsContainer(t.frames, t.leaf);
  }

  /** A message in which one member of the root object has begun to arrive. */
  ghost predicate InMemberOf(pre: string, ms: seq<Member>, key: string, marker: string) {
    LeadsTo(pre, InMember(ms, key, Bottom)) && EndsWith(pre, ':') && Before(ms, key, marker)
  }

  lemma GraftIsOpen(f: Frames, base: Frames)
    requires !base.Bottom?
    ensures !Graft(f, base).Bottom?
  {
  }

  lemma MemberHealed(pre: string, ms: seq<Member>, key: string, q: string, marker: string)
    requires Run(START, q).Some? && Run(START, pre + q).Some? && !Run(START, q).value.frames.Bottom?
    requires SameHealing(pre, InMember(ms, key, Bottom), q, marker) && Before(ms, key, marker) && IsMarker(marker)
    requires ConsumedOpenIs(pre + q, marker)
    ensures var t, plan := TargetOf(q, marker), PlanFor(Run(START, q).value, q);
            var (a, found) := DumpArguments(Context([[]], [], marker, true, plan.glue + marker, true),
                                            Nest(t.frames, t.leaf));
            DumpedOf(pre + q, marker, true, [[key]], []) == Ok(Some((Object(ms + [Member(key, String(a))]), found)))
  {
    hide Run, Contains, IsMarker, Healable, PlanFor, TargetOf, Nest, Walk, ConsumedOf, DumpArguments, Graft, Before;
    var t, glue := TargetOf(q, marker), PlanFor(Run(START, q).value, q).glue;
    var v, c := Nest(t.frames, t.leaf), Context([[key]], [], marker, true, glue + marker, true);
    MarkerNotEmpty(marker);
    GlueHasMarker(glue, marker);
    HealedIsContainer(q, marker);
    GraftNest(t.frames, InMember(ms, key, Bottom), t.leaf);
    NestMember(ms, key, v, marker);
    SameDump(c, Context([[]], [], marker, true, glue + marker, true), v);
    WalkToMember(c, ms, key, v);
  }

  /**
   Partial arguments at the path of one member: the result is an error exactly when consuming the
   member's own text is, and otherwise the object with the members before it untouched and, at the
   path, the very text that consuming the member's own text returns.
   */
  lemma MemberArguments(pre: string, ms: seq<Member>, key: string, v: Json, n: nat, marker: string)
    requires InMemberOf(pre, ms, key, marker) && IsTruncated(v, n, marker) && IsMarker(marker)
    ensures var o, a := DumpedOf(pre + Dump(v)[..n], marker, true, [[key]], []),
            TruncatedArguments(Dump(v)[..n], marker);
            && (o.Ok? <==> a.Ok?)
            && (a.Ok? ==> a.value.Some?
                          && o == Ok(Some((Object(ms + [Member(key, a.value.value.0)]), a.value.value.1))))
  {
    hide Run, Storable, Contains, IsMarker, Healable, Dump, TruncatedArguments, PlanFor, TargetOf, Nest, Walk,
        ConsumedOf, DumpArguments, Graft;
    hide SameHealing, Before;
    var base, q := InMember(ms, key, Bottom), Dump(v)[..n];
    var p := pre + q;
    HealsTogether(pre, base, v, n, marker);
    GraftRun(pre, base, v, n);
    GraftIsOpen(Run(START, q).value.frames, base);
    ArgumentsOrError(q, marker);
    ConsumedOpen(p, marker);
    if Healable(q) {
      MemberHealed(pre, ms, key, q, marker);
    }
  }

  // ---------------------------------------------------------------- of a dumped object

  /** The dump of an object up to the value of member `k`. */
  function TextBefore(members: seq<Member>, k: nat): string
    requires k < |members|
  {
    "{" + MemberCommas(members[..k]) + Quote(members[k].key) + ":"
  }

  lemma {:induction false} MembersBegin(members: seq<Member>, k: nat)
    requires k < |members|
    ensures MemberCommas(members[..k]) + DumpMember(members[k]) <= DumpMembers(members)
    decreases |members|
  {
    hide DumpMember;
    var n := |members| - 1;
    if k < n {
      MembersBegin(members[..n], k);
      assert members[..n][..k] == members[..k];
      assert DumpMembers(members[..n]) <= MemberCommas(members[..n]) <= DumpMembers(members);
    }
  }

  lemma MemberText(members: seq<Member>, k: nat)
    requires k < |members|
    ensures TextBefore(members, k) + Dump(members[k].value) <= Dump(Object(members))
  {
    MembersBegin(members, k);
    var c, q, d := MemberCommas(members[..k]), Quote(members[k].key), Dump(members[k].value);
    hide MemberCommas, Quote, DumpMembers;
    assert DumpMember(members[k]) == q + ":" + d;
    assert Dump(Object(members)) == "{" + DumpMembers(members) + "}";
    hide Dump;
    BeginsMember(c, q, d, DumpMembers(members));
  }

  lemma BeginsMember(c: string, q: string, d: string, all: string)
    requires c + (q + ":" + d) <= all
    ensures "{" + c + q + ":" + d <= "{" + all + "}"
  {
    assert "{" + c + q + ":" + d == "{" + (c + (q + ":" + d));
  }

  lemma PlaceOfMember(members: seq<Member>, k: nat)
    requires Storable(Object(members)) && k < |members|
    ensures LeadsTo(TextBefore(members, k), InMember(members[..k], members[k].key, Bottom))
  {
    hide Run, Step, Quote, CompactRun, CompactStep, MemberCommas, DumpMembers;
    var init, key := members[..k], members[k].key;
    var open := State(InObject([], Bottom), FirstKey);
    var start := if k == 0 then open else State(InObject(init, Bottom), WantKey);
    var colon, want := State(InMember(init, key, Bottom), WantColon), State(InMember(init, key, Bottom), WantValue);
    assert !HasKey(init, key);
    MembersLead(init, start);
    QuoteLeads(start, true, key);
    ColonLeads(colon, want);
    LeadsConcat(START, "{" + MemberCommas(init), start, Quote(key), colon);
    LeadsConcat(START, "{" + MemberCommas(init) + Quote(key), colon, ":", want);
  }

  lemma ColonLeads(colon: State, want: State)
    requires WellFormed(colon) && colon.mode.WantColon? && want == State(colon.frames, WantValue)
    ensures Leads(colon, ":", want)
  {
    LeadsOne(colon, ':', want);
  }

  lemma OpensObject(open: State)
    requires open == State(InObject([], Bottom), FirstKey)
    ensures WellFormed(open) && Leads(START, "{", open)
  {
    LeadsOne(START, '{', open);
  }

  lemma MembersLead(init: seq<Member>, start: State)
    requires DistinctKeys(init) && forall i :: 0 <= i < |init| ==> Storable(init[i].value)
    requires start == if init == [] then State(InObject([], Bottom), FirstKey)
             else State(InObject(init, Bottom), WantKey)
    ensures Leads(START, "{" + MemberCommas(init), start)
  {
    var open := State(InObject([], Bottom), FirstKey);
    OpensObject(open);
    hide *;
    if init == [] {
      NoCommas(init);
    } else {
      MembersThenComma(init, open, start);
      SomeCommas(init);
      LeadsConcat(START, "{", open, DumpMembers(init) + ",", start);
    }
  }

  lemma MembersThenComma(init: seq<Member>, open: State, start: State)
    requires init != [] && DistinctKeys(init) && forall i :: 0 <= i < |init| ==> Storable(init[i].value)
    requires open == State(InObject([], Bottom), FirstKey) && start == State(InObject(init, Bottom), WantKey)
    ensures Leads(open, DumpMembers(init) + ",", start)
  {
    hide Run, Step, CompactRun, CompactStep, DumpMembers, Leads, Reaches;
    MembersReach(init, Bottom);
    ReachesThen(open, DumpMembers(init), State(InObject(init, Bottom), AfterValue), ',', start);
  }

  lemma NoCommas(members: seq<Member>)
    requires members == []
    ensures "{" + MemberCommas(members) == "{"
  {
  }

  lemma SomeCommas(members: seq<Member>)
    requires members != []
    ensures MemberCommas(members) == DumpMembers(members) + ","
  {
  }

  lemma MembersBefore(members: seq<Member>, k: nat, marker: string)
    requires Storable(Object(members)) && k < |members| && Plain(marker) && !Contains(TextBefore(members, k), marker)
    ensures Before(members[..k], members[k].key, marker)
  {
    hide Contains, Unmarked, MemberCommas, Quote;
    var init, key := members[..k], members[k].key;
    PartsLackMarker("{" + MemberCommas(init), Quote(key), ":", marker);
    PartsLackMarker("{", MemberCommas(init), "", marker) by {
      assert "{" + MemberCommas(init) + "" == "{" + MemberCommas(init);
    }
    MembersAreUnmarked(init, marker);
    if Contains(key, marker) {
      QuoteContains(key, marker);
    }
  }

  /**
   An object whose dump has arrived up to somewhere inside the array or object at `key`: if anything
   is returned, the text at the path `[key]` is a prefix of the dump of that member's value.
   */
  lemma MemberIsPrefix(members: seq<Member>, k: nat, n: nat, marker: string)
    requires Storable(Object(members)) && k < |members| && IsMarker(marker)
    requires IsTruncated(members[k].value, n, marker) && !Contains(TextBefore(members, k), marker)
    ensures var key, d := members[k].key, Dump(members[k].value);
            var p := TextBefore(members, k) + d[..n];
            var o := DumpedOf(p, marker, true, [[key]], []);
            && p <= Dump(Object(members))
            && (o.Ok? ==>
                  exists s :: s <= d[..n] && o == Ok(Some((Object(members[..k] + [Member(key, String(s))]), true))))
  {
    hide Run, Storable, Contains, IsMarker, Healable, Dump, TruncatedArguments, PlanFor, DumpedOf, TextBefore, Before,
        KeptOf;
    var d, key := Dump(members[k].value), members[k].key;
    MemberText(members, k);
    PlaceOfMember(members, k);
    MarkerIsPlain(marker);
    MembersBefore(members, k, marker);
    ColonIsLast(members, k);
    MemberArguments(TextBefore(members, k), members[..k], key, members[k].value, n, marker);
    TruncatedArgumentsArePrefix(members[k].value, n, marker);
    assert TextBefore(members, k) + d[..n] <= TextBefore(members, k) + d;
  }

  lemma ColonIsLast(members: seq<Member>, k: nat)
    requires k < |members|
    ensures EndsWith(TextBefore(members, k), ':')
  {
    hide MemberCommas, Quote;
  }
}
