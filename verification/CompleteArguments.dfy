/**
 Consuming a value that is complete (common/chat-parser.cpp): at every argument path stands a text
 that parses to the value there, content stays, and so does everything else.
 */
module CompleteArguments {
  import opened Wrappers
  import opened JsonValue
  import opened JsonScanner
  import opened JsonHealing
  import opened JsonRoundTrip
  import opened JsonPartial
  import opened JsonHealedDump
  import opened ChatCleaner
  import opened CleanerProperties
  import opened ChatJson
  import opened HealingTheorems

  // ---------------------------------------------------------------- what is parsed can be dumped

  ghost predicate StorableFrames(f: Frames) {
    match f
    case Bottom => true
    case InArray(items, below) => Storable(Array(items)) && StorableFrames(below)
    case InObject(members, below) => Storable(Object(members)) && StorableFrames(below)
    case InMember(members, _, below) => Storable(Object(members)) && StorableFrames(below)
  }

  /** All values read so far can be dumped, and a number that is being read is one so far. */
  ghost predicate StorableState(st: State) {
    && StorableFrames(st.frames)
    && (st.mode.InNumber? ==> NumberPhase(st.mode.text) == Some(st.mode.phase))
    && (st.mode.Done? ==> Storable(st.mode.value))
  }

  lemma {:induction false} PutKeepsKeys(members: seq<Member>, key: string, v: Json, k: string)
    ensures HasKey(Put(members, key, v), k) <==> HasKey(members, k) || k == key
  {
    if members == [] {
      assert Put(members, key, v)[0].key == key;
    } else {
      var rest, m := members[1..], members[0];
      assert HasKey(members, k) <==> m.key == k || HasKey(rest, k) by {
        KeysOfFirst(m, rest, k);
        assert [m] + rest == members;
      }
      if m.key == key {
        KeysOfFirst(Member(key, v), rest, k);
      } else {
        PutKeepsKeys(rest, key, v, k);
        KeysOfFirst(m, Put(rest, key, v), k);
      }
    }
  }

  lemma KeysOfFirst(m: Member, rest: seq<Member>, k: string)
    ensures HasKey([m] + rest, k) <==> m.key == k || HasKey(rest, k)
  {
    var all := [m] + rest;
    if m.key == k {
      assert all[0].key == k;
    }
    if i :| 0 <= i < |rest| && rest[i].key == k {
      assert all[i + 1].key == k;
    }
  }

  lemma DistinctFirst(m: Member, rest: seq<Member>)
    ensures Storable(Object([m] + rest)) <==> Storable(m.value) && Storable(Object(rest)) && !HasKey(rest, m.key)
  {
    var all := [m] + rest;
    assert all[0] == m && all[1..] == rest;
    assert forall i :: 0 <= i < |rest| ==> all[i + 1] == rest[i];
    if DistinctKeys(all) {
      forall i | 0 <= i < |rest|
        ensures rest[i].key != m.key
      {
        assert all[0].key != all[i + 1].key;
      }
      forall i, j | 0 <= i < j < |rest|
        ensures rest[i].key != rest[j].key
      {
        assert all[i + 1].key != all[j + 1].key;
      }
    }
  }

  lemma {:induction false} PutKeepsStorable(members: seq<Member>, key: string, v: Json)
    requires Storable(Object(members)) && Storable(v)
    ensures Storable(Object(Put(members, key, v)))
  {
    hide Storable;
    var none: seq<Member> := [];
    if members == [] {
      DistinctFirst(Member(key, v), none);
      assert [Member(key, v)] + none == [Member(key, v)];
      assert !HasKey(none, key);
    } else {
      var m, rest := members[0], members[1..];
      assert members == [m] + rest;
      DistinctFirst(m, rest);
      if m.key == key {
        DistinctFirst(Member(key, v), rest);
      } else {
        PutKeepsStorable(rest, key, v);
        PutKeepsKeys(rest, key, v, m.key);
        DistinctFirst(m, Put(rest, key, v));
      }
    }
  }

  lemma DeliverStorable(f: Frames, v: Json)
    requires Ready(f) && Stacked(f) && StorableFrames(f) && Storable(v)
    ensures StorableState(Deliver(f, v))
  {
    match f
    case Bottom =>
    case InArray(items, below) =>
    case InMember(members, key, below) =>
      PutKeepsStorable(members, key, v);
      hide Put, Storable;
  }

  lemma NumberGrows(text: string, c: char)
    ensures text != "" && NumberPhase(text).Some? ==> NumberPhase(text + [c]) == NextPhase(NumberPhase(text).value, c)
    ensures NumberPhase([c]) == FirstPhase(c)
  {
    assert (text + [c])[..|text|] == text;
  }

  lemma AfterStorable(st: State, c: char)
    requires WellFormed(st) && (st.mode.AfterValue? || st.mode.Done?) && StorableState(st) && StepAfter(st, c).Some?
    ensures StorableState(StepAfter(st, c).value)
  {
    hide Deliver, Storable;
    match st.frames
    case InArray(items, below) => DeliverStorable(below, Array(items));
    case InObject(members, below) => DeliverStorable(below, Object(members));
    case _ =>
  }

  lemma StartStorable(f: Frames, c: char)
    requires Ready(f) && Stacked(f) && StorableFrames(f) && StartValue(f, c).Some?
    ensures StorableState(StartValue(f, c).value)
  {
    NumberGrows("", c);
    hide NumberPhase, FirstPhase, StartLiteral, Dump;
  }

  lemma StepStorable(st: State, c: char)
    requires WellFormed(st) && StorableState(st) && Step(st, c).Some?
    ensures StorableState(Step(st, c).value)
  {
    hide Deliver, StepAfter, StartValue, Storable, NumberPhase, NextPhase, HexCode, Dump;
    var f := st.frames;
    match st.mode
    case WantValue => if !IsSpace(c) { StartStorable(f, c); }
    case FirstItem =>
      EmptyStorable();
      if c == ']' {
        DeliverStorable(f.below, Array([]));
      } else if !IsSpace(c) {
        StartStorable(f, c);
      }
    case FirstKey =>
      EmptyStorable();
      if c == '}' {
        DeliverStorable(f.below, Object([]));
      }
    case AfterValue => AfterStorable(st, c);
    case Done(_) => AfterStorable(st, c);
    case InString(isKey, s) =>
      if c == '\"' && !isKey {
        ScalarStorable(String(s));
        DeliverStorable(f, String(s));
      }
    case InLiteral(rest, v) =>
      ScalarStorable(v);
      if |rest| == 1 {
        DeliverStorable(f, v);
      }
    case InNumber(text, phase) =>
      NumberGrows(text, c);
      if NextPhase(phase, c).None? {
        NumberStorable(text);
        DeliverStorable(f, Number(text));
        DeliveredMode(f, Number(text));
        AfterStorable(Deliver(f, Number(text)), c);
      }
    case _ =>
  }

  lemma DeliveredMode(f: Frames, v: Json)
    requires Ready(f) && Stacked(f)
    ensures Deliver(f, v).mode.AfterValue? || Deliver(f, v).mode.Done?
  {
  }

  lemma EmptyStorable()
    ensures Storable(Array([])) && Storable(Object([]))
  {
  }

  lemma ScalarStorable(v: Json)
    requires v.String? || v.Null? || v.Bool?
    ensures Storable(v)
  {
  }

  lemma NumberStorable(text: string)
    requires NumberPhase(text).Some?
    ensures Storable(Number(text)) <==> IsFinal(NumberPhase(text).value)
  {
  }

  lemma {:induction false} RunStorable(text: string)
    requires Run(START, text).Some?
    ensures StorableState(Run(START, text).value)
  {
    hide Step, StorableState;
    if text == "" {
      assert StorableState(START) by {
        StartIsStorable();
      }
    } else {
      var n := |text| - 1;
      RunSnoc(START, text);
      RunStorable(text[..n]);
      StepStorable(Run(START, text[..n]).value, text[n]);
    }
  }

  lemma StartIsStorable()
    ensures StorableState(START)
  {
  }

  /** Every parsed value can be dumped and parsed again: its numbers are numbers, and no key is there twice. */
  lemma ParsedIsStorable(text: string)
    requires Parse(text).Some?
    ensures Storable(Parse(text).value)
  {
    hide Run, Storable;
    RunStorable(text);
    var st := Run(START, text).value;
    if st.mode.InNumber? {
      NumberStorable(st.mode.text);
    }
  }

  // ---------------------------------------------------------------- what consuming is to return

  /**
   `w` is `v` with the values at argument paths replaced by their dumps, which parse to them: members are
   visited with their keys added to the path, items with the path of their array. Strings in members
   are returned as they are, whatever their path.
   */
  ghost predicate Dressed(v: Json, w: Json, path: Path, argsPaths: seq<Path>, contentPaths: seq<Path>)
    decreases v
  {
    if path in argsPaths then w.String? && w.s == Dump(v) && Parse(w.s) == Some(v)
    else if path in contentPaths then w == v
    else
      match v
      case Object(members) =>
        && w.Object? && |w.members| == |members|
        && forall i :: 0 <= i < |members| ==>
             && w.members[i].key == members[i].key
             && if members[i].value.String? then w.members[i].value == members[i].value
                else Dressed(members[i].value, w.members[i].value, path + [members[i].key], argsPaths, contentPaths)
      case Array(items) =>
        && w.Array? && |w.items| == |items|
        && forall i :: 0 <= i < |items| ==> Dressed(items[i], w.items[i], path, argsPaths, contentPaths)
      case _ => w == v
  }

  /** What stands at a content path is a string. */
  ghost predicate ContentsAreStrings(v: Json, path: Path, argsPaths: seq<Path>, contentPaths: seq<Path>)
    decreases v
  {
    if path in argsPaths then true
    else if path in contentPaths then v.String?
    else
      match v
      case Object(members) =>
        forall i :: 0 <= i < |members| ==>
          members[i].value.String?
          || ContentsAreStrings(members[i].value, path + [members[i].key], argsPaths, contentPaths)
      case Array(items) =>
        forall i :: 0 <= i < |items| ==> ContentsAreStrings(items[i], path, argsPaths, contentPaths)
      case _ => true
  }

  // ---------------------------------------------------------------- the walk over a complete value

  ghost predicate DressedIn(c: Context, v: Json, w: Json, path: Path) {
    Dressed(v, w, path, c.argsPaths, c.contentPaths)
  }

  ghost predicate Fits(c: Context, v: Json, path: Path) {
    ContentsAreStrings(v, path, c.argsPaths, c.contentPaths)
  }

  lemma DumpedWhole(c: Context, v: Json)
    requires Sensible(c) && Storable(v) && Unmarked(v, c.marker)
    ensures var (a, found) := DumpArguments(c, v); a == Dump(v) && Parse(a) == Some(v) && !found
  {
    ParseDump(v);
    LoneQuote();
    if c.healed {
      NotFoundUnmarked(c, v);
    }
    hide Dump, Parse;
  }

  lemma LoneQuote()
    ensures Parse("\"").None?
  {
    RunOne(START, '\"');
  }

  lemma ContentWhole(c: Context, v: Json, path: Path)
    requires Sensible(c) && Unmarked(v, c.marker) && (v.String? ==> c.healed)
    ensures CleanContent(c, v, path) == if v.String? then Cleaned(v, path, false) else Threw
  {
    if v.String? {
      UnmarkedString(v.s, c.marker);
    }
  }

  /** Walking a value without the marker, in a healed message or a complete one. */
  lemma {:induction false} WalkComplete(c: Context, v: Json, path: Path)
    requires Sensible(c) && Storable(v) && Unmarked(v, c.marker) && !LosesContent(c, v, path)
    ensures var w := Walk(c, v, path);
            && (w.Cleaned? <==> Fits(c, v, path))
            && (w.Cleaned? ==> DressedIn(c, v, w.value, path) && w.path == path && !w.found)
    decreases v, 1, 0
  {
    hide Contains, Dump, DumpArguments, Parse;
    if path in c.argsPaths {
      DumpedWhole(c, v);
    } else if path in c.contentPaths {
      ContentWhole(c, v, path);
    } else {
      match v
      case Object(members) =>
        forall i | 0 <= i < |members|
          ensures UnmarkedMember(members[i], c.marker)
        {
          UnmarkedMemberOf(members, i, c.marker);
        }
        var done := MembersComplete(c, members, [], path, 0, |members|);
        assert members[0..] == members && members[|members|..] == [];
      case Array(items) =>
        forall i | 0 <= i < |items|
          ensures Unmarked(items[i], c.marker)
        {
          UnmarkedItem(items, i, c.marker);
        }
        var done := ItemsComplete(c, items, [], path, 0, |items|);
        assert items[0..] == items && items[|items|..] == [];
      case _ =>
    }
  }

  /** The members before `n` have been walked and kept. */
  ghost predicate MembersDressed(c: Context, members: seq<Member>, kept: seq<Member>, path: Path, n: nat) {
    && |kept| == n <= |members|
    && forall i :: 0 <= i < n ==>
         && kept[i].key == members[i].key
         && if members[i].value.String? then kept[i].value == members[i].value
            else DressedIn(c, members[i].value, kept[i].value, path + [members[i].key])
  }

  ghost predicate MembersFit(c: Context, members: seq<Member>, path: Path, n: nat, m: nat)
    requires n <= m <= |members|
  {
    forall i :: n <= i < m ==> members[i].value.String? || Fits(c, members[i].value, path + [members[i].key])
  }

  lemma MembersFitFrom(c: Context, members: seq<Member>, path: Path, n: nat, m: nat)
    requires n < m <= |members|
    ensures MembersFit(c, members, path, n, m) <==>
            && (members[n].value.String? || Fits(c, members[n].value, path + [members[n].key]))
            && MembersFit(c, members, path, n + 1, m)
  {
    hide Fits;
  }

  lemma OneMoreDressed(c: Context, members: seq<Member>, kept: seq<Member>, path: Path, n: nat, w: Json)
    requires n < |members| && MembersDressed(c, members, kept, path, n)
    requires if members[n].value.String? then w == members[n].value
             else DressedIn(c, members[n].value, w, path + [members[n].key])
    ensures MembersDressed(c, members, kept + [Member(members[n].key, w)], path, n + 1)
  {
    hide DressedIn;
  }

  /** Walking the members from `n` to `m`, none of which has the marker. */
  lemma {:induction false} MembersComplete(c: Context, members: seq<Member>, kept: seq<Member>, path: Path, n: nat,
                                           m: nat) returns (done: seq<Member>)
    requires Sensible(c) && DistinctKeys(members) && n <= m <= |members| && MembersDressed(c, members, kept, path, n)
    requires forall i :: 0 <= i < m ==> Storable(members[i].value) && UnmarkedMember(members[i], c.marker)
    ensures var w := WalkMembers(c, members[n..], kept, path, false);
            if MembersFit(c, members, path, n, m)
            then MembersDressed(c, members, done, path, m) && w == WalkMembers(c, members[m..], done, path, false)
            else w.Threw?
    decreases members, 0, m - n
  {
    hide Contains, Dump, Walk, Storable, DressedIn, Fits, Unmarked, MembersFit, MembersDressed;
    done := kept;
    if n < m {
      var first := members[n];
      assert first in members && members[n..][0] == first && members[n..][1..] == members[n + 1..];
      var inner := path + [first.key];
      assert Pop(inner) == path;
      NewKeyBehind(c, members, kept, path, n);
      MembersFitFrom(c, members, path, n, m);
      if first.value.String? {
        UnmarkedString(first.value.s, c.marker);
        OneMoreDressed(c, members, kept, path, n, first.value);
        done := MembersComplete(c, members, kept + [Member(first.key, first.value)], path, n + 1, m);
      } else {
        WalkComplete(c, first.value, inner);
        var w := Walk(c, first.value, inner);
        if w.Cleaned? {
          OneMoreDressed(c, members, kept, path, n, w.value);
          done := MembersComplete(c, members, kept + [Member(first.key, w.value)], path, n + 1, m);
        }
      }
    } else {
      NothingLeft(c, members, path, n);
    }
  }

  lemma NothingLeft(c: Context, members: seq<Member>, path: Path, n: nat)
    requires n <= |members|
    ensures MembersFit(c, members, path, n, n)
  {
  }

  lemma NewKeyBehind(c: Context, members: seq<Member>, kept: seq<Member>, path: Path, n: nat)
    requires DistinctKeys(members) && n < |members| && MembersDressed(c, members, kept, path, n)
    ensures !HasKey(kept, members[n].key)
  {
    NewKey(members, kept, n);
  }

  lemma NewKey(members: seq<Member>, kept: seq<Member>, n: nat)
    requires DistinctKeys(members) && |kept| == n < |members|
             && forall i :: 0 <= i < n ==> kept[i].key == members[i].key
    ensures !HasKey(kept, members[n].key)
  {
  }

  ghost predicate ItemsDressed(c: Context, items: seq<Json>, kept: seq<Json>, path: Path, n: nat) {
    |kept| == n <= |items| && forall i :: 0 <= i < n ==> DressedIn(c, items[i], kept[i], path)
  }

  lemma {:induction false} ItemsComplete(c: Context, items: seq<Json>, kept: seq<Json>, path: Path, n: nat, m: nat)
    returns (done: seq<Json>)
    requires Sensible(c) && n <= m <= |items| && ItemsDressed(c, items, kept, path, n)
    requires path !in c.argsPaths && path !in c.contentPaths
    requires forall i :: 0 <= i < m ==> Storable(items[i]) && Unmarked(items[i], c.marker)
    ensures var w := WalkItems(c, items[n..], kept, path, false);
            if forall i :: n <= i < m ==> Fits(c, items[i], path)
            then ItemsDressed(c, items, done, path, m) && w == WalkItems(c, items[m..], done, path, false)
            else w.Threw?
    decreases items, 0, m - n
  {
    hide Contains, Dump, Walk, Storable, DressedIn, Fits, Unmarked;
    done := kept;
    if n < m {
      var v := items[n];
      assert v in items && items[n..][0] == v && items[n..][1..] == items[n + 1..];
      if v.String? {
        UnmarkedString(v.s, c.marker);
      }
      WalkComplete(c, v, path);
      var w := Walk(c, v, path);
      if w.Cleaned? {
        done := ItemsComplete(c, items, kept + [w.value], path, n + 1, m);
      }
    }
  }

  // ---------------------------------------------------------------- consuming a complete value

  /**
   For every text whose read part parses, all paths and both modes: without argument paths the value
   is returned as it is. Otherwise consuming throws exactly when something other than a string stands
   at a content path; else the result is not partial, every argument path holds a text that parses to
   the value there, and the rest is unchanged. The one exception is a bare string consumed as content.
   */
  lemma CompleteResult(text: string, marker: string, isPartial: bool, argsPaths: seq<Path>, contentPaths: seq<Path>)
    requires IsMarker(marker) && MarkerAbsent(text, marker) && Parse(text[..ReadLength(START, text)]).Some?
    requires !BareContent(Parse(text[..ReadLength(START, text)]).value, argsPaths, contentPaths)
    ensures var v := Parse(text[..ReadLength(START, text)]).value;
            var o := DumpedOf(text, marker, isPartial, argsPaths, contentPaths);
            && (argsPaths == [] ==> o == Ok(Some((v, false))))
            && (argsPaths != [] ==>
                  && (o.Ok? <==> ContentsAreStrings(v, [], argsPaths, contentPaths))
                  && (o.Ok? ==>
                        && o.value.Some? && !o.value.value.1
                        && Dressed(v, o.value.value.0, [], argsPaths, contentPaths)))
  {
    hide Run, Parse, Dump, Contains, Walk, IsMarker, Storable, ReadLength, KeptState;
    var str := text[..ReadLength(START, text)];
    var v := Parse(str).value;
    ParsedIsStorable(str);
    ParseDump(v);
    var root: Path := [];
    if argsPaths != [] && root !in argsPaths {
      var c := Context(argsPaths, contentPaths, marker, false, "", isPartial);
      WalkComplete(c, v, root);
    }
  }
}
