/**
 Consuming a value that was healed (common/chat-parser.cpp): everything before the marker comes back as
 from a complete value, and at the marker arguments and content are cut and all else is dropped.
 */
module HealedResult {
  import opened Wrappers
  import opened JsonValue
  import opened JsonScanner
  import opened JsonHealing
  import opened JsonHealed
  import opened JsonRender
  import opened JsonRoundTrip
  import opened JsonPartial
  import opened JsonEnd
  import opened JsonHealedDump
  import opened ChatCleaner
  import opened CleanerProperties
  import opened ChatJson
  import opened HealingTheorems
  import opened CompleteArguments

  // ---------------------------------------------------------------- what consuming is to return

  /** A text up to the first marker. */
  ghost predicate UpTo(s: string, m: string, t: string) {
    t <= s && FirstAt(s, m, |t|)
  }

  /** Arguments: the dump up to the first dump marker; a lone quote was put there by healing. */
  ghost predicate ArgumentsUpTo(v: Json, m: string, t: string) {
    exists d :: UpTo(Dump(v), m, d) && t == if d == "\"" then "" else d
  }

  /** A string with the marker is kept only as content in which the text stopped. */
  predicate KeepsString(c: Context, path: Path) {
    path in c.contentPaths && c.marker == c.dumpMarker
  }

  ghost predicate StringCut(c: Context, s: string, w: Json, path: Path) {
    && w.String?
    && if path in c.argsPaths then ArgumentsUpTo(String(s), c.dumpMarker, w.s) else UpTo(s, c.marker, w.s)
  }

  /**
   `w` is what comes back for the healed container `v`: dumped up to the marker at an argument path;
   otherwise all members or items before the last as if complete, and the last one cut in its turn,
   dropped when its key has the marker, or when it is a string that is not kept.
   */
  ghost predicate CutAtMarker(c: Context, v: Json, w: Json, path: Path)
    decreases v
  {
    if path in c.argsPaths then w.String? && ArgumentsUpTo(v, c.dumpMarker, w.s)
    else
      match v
      case Object(members) =>
        var n := |members| - 1;
        && n >= 0 && w.Object?
        && var last, inner := members[n], path + [members[n].key];
           if Contains(last.key, c.marker) || (last.value.String? && !KeepsString(c, inner))
           then MembersDressed(c, members, w.members, path, n)
           else
             && |w.members| == n + 1 && MembersDressed(c, members, w.members[..n], path, n)
             && w.members[n].key == last.key
             && if last.value.String? then StringCut(c, last.value.s, w.members[n].value, inner)
                else CutAtMarker(c, last.value, w.members[n].value, inner)
      case Array(items) =>
        var n := |items| - 1;
        && n >= 0 && w.Array?
        && if items[n].String? then ItemsDressed(c, items, w.items, path, n)
           else
             && |w.items| == n + 1 && ItemsDressed(c, items, w.items[..n], path, n)
             && CutAtMarker(c, items[n], w.items[n], path)
      case _ => false
  }

  /** No container stands at a content path, up to the marker. */
  ghost predicate NoContainerIsContent(c: Context, v: Json, path: Path)
    decreases v
  {
    if path in c.argsPaths then true
    else if path in c.contentPaths then false
    else
      match v
      case Object(members) =>
        var n := |members| - 1;
        && (forall i :: 0 <= i < n ==>
              members[i].value.String? || Fits(c, members[i].value, path + [members[i].key]))
        && (n >= 0 && !Contains(members[n].key, c.marker) && !members[n].value.String? ==>
              NoContainerIsContent(c, members[n].value, path + [members[n].key]))
      case Array(items) =>
        var n := |items| - 1;
        && (forall i :: 0 <= i < n ==> Fits(c, items[i], path))
        && (n >= 0 && !items[n].String? ==> NoContainerIsContent(c, items[n], path))
      case _ => true
  }

  // ---------------------------------------------------------------- the walk over a healed value

  ghost predicate Healing(c: Context) {
    Sensible(c) && c.healed
  }

  lemma FoundAt(s: string, m: string)
    requires Contains(s, m)
    ensures var i := Find(s, m); i.Some? && i.value <= |s| && UpTo(s, m, s[..i.value])
  {
  }

  lemma ArgumentsCut(c: Context, v: Json)
    requires Healing(c) && Contains(Dump(v), c.dumpMarker)
    ensures var (a, found) := DumpArguments(c, v); ArgumentsUpTo(v, c.dumpMarker, a) && found
  {
    hide Contains, Dump, FirstAt;
    FoundAt(Dump(v), c.dumpMarker);
  }

  lemma StringIsCut(c: Context, s: string, path: Path)
    requires Healing(c) && Contains(s, c.marker) && KeepsString(c, path)
    ensures var w := Walk(c, String(s), path); w.Cleaned? && w.found && StringCut(c, s, w.value, path)
  {
    FoundAt(s, c.marker);
    if path in c.argsPaths {
      QuoteContains(s, c.marker);
      hide Contains, Dump;
      assert Dump(String(s)) == Quote(s) by {
        StringDump(s);
      }
      ArgumentsCut(c, String(s));
    }
  }

  lemma StringDump(s: string)
    ensures Dump(String(s)) == Quote(s)
  {
  }

  lemma {:induction false} WalkHealed(c: Context, v: Json, path: Path)
    requires Healing(c) && MarkedLast(c, v) && !v.String? && Storable(v)
    ensures var w := Walk(c, v, path);
            && (w.Cleaned? <==> NoContainerIsContent(c, v, path))
            && (w.Cleaned? ==> CutAtMarker(c, v, w.value, path) && w.found)
    decreases v, 1
  {
    hide Contains, Dump, DumpArguments, CleanContent, ArgumentsUpTo, DressedIn, Fits, Unmarked, StringCut, Storable,
        MembersDressed, ItemsDressed;
    if path in c.argsPaths {
      ArgumentsCut(c, v);
    } else if path in c.contentPaths {
      ContentThrows(c, v, path);
    } else {
      match v
      case Object(members) => MembersHealed(c, members, path);
      case Array(items) => ItemsHealed(c, items, path);
    }
  }

  lemma {:induction false} MembersHealed(c: Context, members: seq<Member>, path: Path)
    requires Healing(c) && MarkedLast(c, Object(members)) && Storable(Object(members))
    requires path !in c.argsPaths && path !in c.contentPaths
    ensures var v, w := Object(members), WalkMembers(c, members, [], path, false);
            && (w.Cleaned? <==> NoContainerIsContent(c, v, path))
            && (w.Cleaned? ==> CutAtMarker(c, v, w.value, path) && w.found)
    decreases members, 0
  {
    hide Contains, Dump, Walk, ArgumentsUpTo, DressedIn, Fits, Unmarked, StringCut;
    var n := |members| - 1;
    var done := MembersComplete(c, members, [], path, 0, n);
    assert members[0..] == members && members[n..] == [members[n]];
    assert members[n] in members;
    if !Contains(members[n].key, c.marker) && !members[n].value.String? {
      WalkHealed(c, members[n].value, path + [members[n].key]);
    }
    if MembersDressed(c, members, done, path, n) {
      LastMember(c, members, done, path);
    }
  }

  lemma {:induction false} ItemsHealed(c: Context, items: seq<Json>, path: Path)
    requires Healing(c) && MarkedLast(c, Array(items)) && Storable(Array(items))
    requires path !in c.argsPaths && path !in c.contentPaths
    ensures var v, w := Array(items), WalkItems(c, items, [], path, false);
            && (w.Cleaned? <==> NoContainerIsContent(c, v, path))
            && (w.Cleaned? ==> CutAtMarker(c, v, w.value, path) && w.found)
    decreases items, 0
  {
    hide Contains, Dump, Walk, ArgumentsUpTo, DressedIn, Fits, Unmarked, StringCut;
    var n := |items| - 1;
    var done := ItemsComplete(c, items, [], path, 0, n);
    assert items[0..] == items && items[n..] == [items[n]] && items[n] in items;
    if !items[n].String? {
      WalkHealed(c, items[n], path);
    }
  }

  /** The last member, after those before it were kept as `done`. */
  lemma LastMember(c: Context, members: seq<Member>, done: seq<Member>, path: Path)
    requires Healing(c) && members != [] && DistinctKeys(members)
    requires var n := |members| - 1;
             && MembersDressed(c, members, done, path, n)
             && (!Contains(members[n].key, c.marker) && members[n].value.String? ==>
                   Contains(members[n].value.s, c.marker))
    ensures var n := |members| - 1;
            var last, inner := members[n], path + [members[n].key];
            var w, v := WalkMembers(c, [last], done, path, false), Walk(c, last.value, inner);
            if Contains(last.key, c.marker) || (last.value.String? && !KeepsString(c, inner))
            then w.Cleaned? && w.value == Object(done) && w.found
            else
              && (last.value.String? ==> v.Cleaned? && StringCut(c, last.value.s, v.value, inner))
              && (v.Threw? ==> w.Threw?)
              && (v.Cleaned? ==> w.Cleaned? && w.value == Object(done + [Member(last.key, v.value)])
                                 && (w.found <==> v.found || last.value.String?))
  {
    hide Contains, Walk, DressedIn, StringCut;
    var n := |members| - 1;
    var last, inner := members[n], path + [members[n].key];
    NewKey(members, done, n);
    if !Contains(last.key, c.marker) && last.value.String? && KeepsString(c, inner) {
      StringIsCut(c, last.value.s, inner);
    }
  }

  // ---------------------------------------------------------------- consuming a healed message

  lemma HealableIsOpen(text: string)
    requires Run(START, text).Some? && Healable(text)
    ensures !Run(START, text).value.frames.Bottom?
  {
  }

  /**
   For every partial text that is healed and all paths: consuming throws exactly when a container
   stands at a content path, and else returns the healed value cut at its marker, as partial.
   */
  lemma HealedResult(text: string, marker: string, argsPaths: seq<Path>, contentPaths: seq<Path>)
    requires IsMarker(marker) && MarkerAbsent(text, marker)
    requires var str := text[..ReadLength(START, text)];
             Run(START, str).Some? && Parse(str).None? && Healable(str)
    ensures var str := text[..ReadLength(START, text)];
            var t, glue := TargetOf(str, marker), PlanFor(Run(START, str).value, str).glue;
            var v, c := Nest(t.frames, t.leaf), Context(argsPaths, contentPaths, marker, true, glue + marker, true);
            var o := DumpedOf(text, marker, true, argsPaths, contentPaths);
            && (o.Ok? <==> NoContainerIsContent(c, v, []))
            && (o.Ok? ==> o.value.Some? && o.value.value.1 && CutAtMarker(c, v, o.value.value.0, []))
  {
    hide Run, Contains, Walk, IsMarker, Storable, ReadLength, KeptState, Nest, TargetOf, PlanFor, Render, Dump, Healed,
        Healable, Parse, MarkedLast;
    var str := text[..ReadLength(START, text)];
    MarkerNotEmpty(marker);
    HealableIsOpen(str);
    HealingSucceedsIff(str, marker);
    ParsedIsStorable(ByPlan(str, marker).value.0);
    var t, glue := TargetOf(str, marker), PlanFor(Run(START, str).value, str).glue;
    var c := Context(argsPaths, contentPaths, marker, true, glue + marker, true);
    MarkerIsIn(glue, marker);
    HealedIsMarkedLast(c, str);
    WalkHealed(c, Nest(t.frames, t.leaf), []);
  }

  /**
   A message that is not partial never gets a healed value: it throws when what was read has an open
   container, and returns nothing when it has none and is no value.
   */
  lemma CutMessageThrows(text: string, n: nat, marker: string)
    requires ReadsLongest(text, n) && IsMarker(marker) && Parse(text[..n]).None?
    ensures var str, o := text[..n], ConsumedOf(text, marker, false);
            if Run(START, str).value.frames.Bottom? then o == Ok(None)
            else if Healable(str) then o == Err(PartialMessage)
            else o.Err? && o.error.HealingFailed?
  {
    hide Run, Parse, ReadLength, Nest, TargetOf, Healable, PlanFor, IsMarker;
    MarkerNotEmpty(marker);
    OutcomeIs(text, n, marker);
  }
}
