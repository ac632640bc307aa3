/**
 What cleaning guarantees: no key or string of the cleaned value contains the marker, the result is
 called partial exactly when healing happened, and the path that is left behind does no harm.
 */
module CleanerProperties {
  import opened Wrappers
  import opened JsonValue
  import opened JsonHealing
  import opened JsonHealed
  import opened JsonHealedDump
  import opened ChatCleaner

  /** No string and no key contains `m`. */
  ghost predicate NoMarker(v: Json, m: string) {
    match v
    case String(s) => !Contains(s, m)
    case Array(items) => forall i :: 0 <= i < |items| ==> NoMarker(items[i], m)
    case Object(members) => NoMarkerIn(members, m)
    case _ => true
  }

  ghost predicate NoMarkerIn(members: seq<Member>, m: string) {
    forall i :: 0 <= i < |members| ==> !Contains(members[i].key, m) && NoMarker(members[i].value, m)
  }

  /** The marker does not occur in the value, however it is written. */
  ghost predicate Unmarked(v: Json, m: string) {
    !Contains(Dump(v), m)
  }

  /** The first dump marker in the dump has no marker before it. */
  ghost predicate CutsClean(c: Context, v: Json) {
    var i := Find(Dump(v), c.dumpMarker);
    i.Some? && !Contains(Dump(v)[..i.value], c.marker)
  }

  /** The marker is in the last leaf or the last key, and nothing before that has it. */
  ghost predicate MarkedLast(c: Context, v: Json) {
    match v
    case String(s) => Contains(s, c.marker)
    case Array(items) =>
      var n := |items| - 1;
      && items != [] && CutsClean(c, v) && MarkedLast(c, items[n])
      && forall i :: 0 <= i < n ==> Unmarked(items[i], c.marker)
    case Object(members) =>
      var n := |members| - 1;
      && members != [] && CutsClean(c, v)
      && (!Contains(members[n].key, c.marker) ==> MarkedLast(c, members[n].value))
      && forall i :: 0 <= i < n ==> UnmarkedMember(members[i], c.marker)
    case _ => false
  }

  ghost predicate UnmarkedMember(m: Member, marker: string) {
    !Contains(m.key, marker) && Unmarked(m.value, marker)
  }

  /** A parser's context: a proper marker, and a dump marker that contains it when healed. */
  ghost predicate Sensible(c: Context) {
    && IsMarker(c.marker)
    && (c.healed ==> c.isPartial && Contains(c.dumpMarker, c.marker))
  }

  // ---------------------------------------------------------------- the same walk with scoped paths

  /** The walk in which every value is visited with its own path. */
  function Scoped(c: Context, j: Json, path: Path): Option<(Json, bool)>
    decreases j, 1
  {
    if path in c.argsPaths then
      var (arguments, found) := DumpArguments(c, j);
      Some((String(arguments), found))
    else if path in c.contentPaths then
      match CleanContent(c, j, path)
      case Threw => None
      case Cleaned(v, _, f) => Some((v, f))
    else
      match j
      case Object(members) => ScopedMembers(c, members, [], path, false)
      case Array(items) => ScopedItems(c, items, [], path, false)
      case _ => Some((j, false))
  }

  function ScopedMembers(c: Context, members: seq<Member>, kept: seq<Member>, path: Path,
                         found: bool): Option<(Json, bool)>
    decreases members, 0
  {
    if members == [] then Some((Object(kept), found))
    else
      var m := members[0];
      assert m in members;
      if Find(m.key, c.marker).Some? then Some((Object(kept), true))
      else if m.value.String? && Find(m.value.s, c.marker).Some? then
        if path + [m.key] in c.contentPaths && c.ValueMarker() == c.dumpMarker then
          match Scoped(c, m.value, path + [m.key])
          case None => None
          case Some((v, _)) => Some((Object(Put(kept, m.key, v)), true))
        else Some((Object(kept), true))
      else
        var r: Option<(Json, bool)> := if m.value.String? then Some((m.value, false))
            else Scoped(c, m.value, path + [m.key]);
        match r
        case None => None
        case Some((v, f)) => ScopedMembers(c, members[1..], Put(kept, m.key, v), path, found || f)
  }

  function ScopedItems(c: Context, items: seq<Json>, kept: seq<Json>, path: Path, found: bool): Option<(Json, bool)>
    decreases items, 0
  {
    if items == [] then Some((Array(kept), found))
    else if items[0].String? && Find(items[0].s, c.marker).Some? then Some((Array(kept), true))
    else
      match Scoped(c, items[0], path)
      case None => None
      case Some((v, f)) => ScopedItems(c, items[1..], kept + [v], path, found || f)
  }

  /** A walk's result without the path it leaves. */
  function Result(w: Cleaned): Option<(Json, bool)> {
    match w
    case Threw => None
    case Cleaned(v, _, f) => Some((v, f))
  }

  // ---------------------------------------------------------------- unmarked values

  lemma UnmarkedItem(items: seq<Json>, i: nat, m: string)
    requires i < |items| && Unmarked(Array(items), m)
    ensures Unmarked(items[i], m)
  {
    hide Contains;
    if !Unmarked(items[i], m) {
      ItemInDump(items, i, m);
      ContainsRight("[", DumpItems(items), m);
      ContainsLeft("[" + DumpItems(items), "]", m);
    }
  }

  lemma UnmarkedMemberOf(members: seq<Member>, i: nat, m: string)
    requires i < |members| && Unmarked(Object(members), m) && Plain(m)
    ensures UnmarkedMember(members[i], m)
  {
    hide Contains;
    KeyInMember(members[i], m);
    if Contains(members[i].key, m) {
      QuoteContains(members[i].key, m);
    }
    if Contains(DumpMember(members[i]), m) {
      MemberInDump(members, i, m);
      ContainsRight("{", DumpMembers(members), m);
      ContainsLeft("{" + DumpMembers(members), "}", m);
    }
  }

  lemma UnmarkedString(s: string, m: string)
    requires Unmarked(String(s), m) && Plain(m)
    ensures !Contains(s, m)
  {
    if Contains(s, m) {
      QuoteContains(s, m);
    }
  }

  lemma {:induction false} UnmarkedHasNoMarker(v: Json, m: string)
    requires Unmarked(v, m) && Plain(m)
    ensures NoMarker(v, m)
  {
    match v
    case String(s) => UnmarkedString(s, m);
    case Array(items) =>
      forall i | 0 <= i < |items|
        ensures NoMarker(items[i], m)
      {
        UnmarkedItem(items, i, m);
        UnmarkedHasNoMarker(items[i], m);
      }
    case Object(members) =>
      forall i | 0 <= i < |members|
        ensures !Contains(members[i].key, m) && NoMarker(members[i].value, m)
      {
        UnmarkedMemberOf(members, i, m);
        UnmarkedHasNoMarker(members[i].value, m);
      }
    case _ =>
  }

  lemma {:induction false} PutKeepsNoMarker(members: seq<Member>, key: string, v: Json, m: string)
    requires NoMarkerIn(members, m) && !Contains(key, m) && NoMarker(v, m)
    ensures NoMarkerIn(Put(members, key, v), m)
  {
    hide Contains, NoMarker;
    if members != [] && members[0].key != key {
      PutKeepsNoMarker(members[1..], key, v, m);
    }
  }

  lemma NotFoundUnmarked(c: Context, j: Json)
    requires Sensible(c) && c.healed && Unmarked(j, c.marker)
    ensures Find(Dump(j), c.dumpMarker).None?
  {
    if Contains(Dump(j), c.dumpMarker) {
      var i :| OccursAt(Dump(j), c.dumpMarker, i);
      assert Dump(j)[i..i + |c.dumpMarker|] == c.dumpMarker;
      ContainsSlice(Dump(j), c.marker, i, i + |c.dumpMarker|);
    }
  }

  /** A string that is content at the root, when nothing was healed, is cut to nothing. */
  predicate LosesContent(c: Context, j: Json, path: Path) {
    !c.healed && j.String? && path !in c.argsPaths && path in c.contentPaths
  }

  /** Walking a value without the marker: nothing is found, and the path is restored. */
  lemma {:induction false} WalkUnmarked(c: Context, j: Json, path: Path)
    requires Sensible(c) && Unmarked(j, c.marker)
    ensures var w := Walk(c, j, path);
            w.Cleaned? ==> NoMarker(w.value, c.marker) && w.path == path && (w.found <==> LosesContent(c, j, path))
    ensures Result(Walk(c, j, path)) == Scoped(c, j, path)
    decreases j, 1
  {
    hide Contains, Dump, CleanContent, DumpArguments;
    UnmarkedHasNoMarker(j, c.marker);
    if path in c.argsPaths {
      ArgumentsUnmarked(c, j);
    } else if path in c.contentPaths {
      ContentUnmarked(c, j, path);
    } else {
      match j
      case Object(members) =>
        forall i | 0 <= i < |members|
          ensures UnmarkedMember(members[i], c.marker)
        {
          UnmarkedMemberOf(members, i, c.marker);
        }
        MembersUnmarked(c, members, [], path, false);
      case Array(items) =>
        forall i | 0 <= i < |items|
          ensures Unmarked(items[i], c.marker)
        {
          UnmarkedItem(items, i, c.marker);
        }
        ItemsUnmarked(c, items, [], path, false);
      case _ =>
    }
  }

  lemma ArgumentsUnmarked(c: Context, j: Json)
    requires Sensible(c) && Unmarked(j, c.marker)
    ensures !DumpArguments(c, j).1 && !Contains(DumpArguments(c, j).0, c.marker)
  {
    if c.healed {
      NotFoundUnmarked(c, j);
      EmptyHasNoMarker(c.marker);
    }
  }

  lemma EmptyHasNoMarker(m: string)
    requires m != ""
    ensures !Contains("", m)
  {
  }

  lemma ContentUnmarked(c: Context, j: Json, path: Path)
    requires Sensible(c) && Unmarked(j, c.marker)
    ensures var w := CleanContent(c, j, path);
            w.Cleaned? ==> j.String? && NoMarker(w.value, c.marker) && w.path == path && (w.found <==> !c.healed)
  {
    if j.String? {
      UnmarkedString(j.s, c.marker);
      if !c.healed {
        assert OccursAt(j.s, "", 0);
        assert j.s[..0] == "";
        EmptyHasNoMarker(c.marker);
      }
    }
  }

  lemma {:induction false} MembersUnmarked(c: Context, members: seq<Member>, kept: seq<Member>, path: Path, found: bool)
    requires Sensible(c) && NoMarkerIn(kept, c.marker)
    requires forall i :: 0 <= i < |members| ==> UnmarkedMember(members[i], c.marker)
    ensures var w := WalkMembers(c, members, kept, path, found);
            w.Cleaned? ==> NoMarker(w.value, c.marker) && w.path == path && w.found == found
    ensures Result(WalkMembers(c, members, kept, path, found)) == ScopedMembers(c, members, kept, path, found)
    decreases members, 0
  {
    hide Contains, Dump, Walk, Scoped;
    if members != [] {
      var m := members[0];
      assert m in members && UnmarkedMember(m, c.marker);
      var inner := path + [m.key];
      assert Pop(inner) == path;
      if m.value.String? {
        UnmarkedString(m.value.s, c.marker);
        PutKeepsNoMarker(kept, m.key, m.value, c.marker);
        MembersUnmarked(c, members[1..], Put(kept, m.key, m.value), path, found);
      } else {
        WalkUnmarked(c, m.value, inner);
        var w := Walk(c, m.value, inner);
        if w.Cleaned? {
          PutKeepsNoMarker(kept, m.key, w.value, c.marker);
          MembersUnmarked(c, members[1..], Put(kept, m.key, w.value), path, found);
        }
      }
    }
  }

  lemma {:induction false} ItemsUnmarked(c: Context, items: seq<Json>, kept: seq<Json>, path: Path, found: bool)
    requires Sensible(c) && NoMarker(Array(kept), c.marker) && path !in c.argsPaths && path !in c.contentPaths
    requires forall i :: 0 <= i < |items| ==> Unmarked(items[i], c.marker)
    ensures var w := WalkItems(c, items, kept, path, found);
            w.Cleaned? ==> NoMarker(w.value, c.marker) && w.path == path && w.found == found
    ensures Result(WalkItems(c, items, kept, path, found)) == ScopedItems(c, items, kept, path, found)
    decreases items, 0
  {
    hide Contains, Dump, Walk, Scoped;
    if items != [] {
      if items[0].String? {
        UnmarkedString(items[0].s, c.marker);
      }
      WalkUnmarked(c, items[0], path);
      var w := Walk(c, items[0], path);
      if w.Cleaned? {
        ItemsUnmarked(c, items[1..], kept + [w.value], path, found);
      }
    }
  }

  // ---------------------------------------------------------------- the marked value

  lemma ArgumentsMarked(c: Context, j: Json)
    requires Sensible(c) && c.healed && CutsClean(c, j)
    ensures DumpArguments(c, j).1 && !Contains(DumpArguments(c, j).0, c.marker)
  {
    EmptyHasNoMarker(c.marker);
  }

  /** Walking a value with the marker in its last place: it is found and cut away. */
  lemma {:induction false} WalkMarked(c: Context, j: Json, path: Path)
    requires Sensible(c) && c.healed && MarkedLast(c, j) && !j.String?
    ensures var w := Walk(c, j, path); w.Cleaned? ==> NoMarker(w.value, c.marker) && w.found
    ensures Result(Walk(c, j, path)) == Scoped(c, j, path)
    decreases j, 1
  {
    hide Contains, Dump, DumpArguments, CleanContent;
    if path in c.argsPaths {
      ArgumentsMarked(c, j);
    } else if path in c.contentPaths {
      ContentThrows(c, j, path);
    } else {
      match j
      case Object(members) => MembersMarked(c, members, [], path, false);
      case Array(items) => ItemsMarked(c, items, [], path, false);
    }
  }

  lemma ContentThrows(c: Context, j: Json, path: Path)
    requires !j.String?
    ensures CleanContent(c, j, path) == Threw
  {
  }

  /** The members of an object that is marked last, or what is left of them. */
  ghost predicate MembersMarkedLast(c: Context, members: seq<Member>) {
    var n := |members| - 1;
    && members != []
    && (!Contains(members[n].key, c.marker) ==> MarkedLast(c, members[n].value))
    && forall i :: 0 <= i < n ==> UnmarkedMember(members[i], c.marker)
  }

  lemma ContentMarked(c: Context, s: string, path: Path)
    requires Sensible(c) && c.healed && Contains(s, c.marker) && path in c.contentPaths && c.marker == c.dumpMarker
    ensures var w := Walk(c, String(s), path);
            w.Cleaned? && NoMarker(w.value, c.marker) && Result(w) == Scoped(c, String(s), path)
  {
    if path in c.argsPaths {
      QuoteContains(s, c.marker);
      var d := Dump(String(s));
      var i := Find(d, c.dumpMarker).value;
      BeforeFirst(d, c.marker, i);
      EmptyHasNoMarker(c.marker);
    } else {
      BeforeFirst(s, c.marker, Find(s, c.marker).value);
    }
  }

  lemma {:induction false} MembersMarked(c: Context, members: seq<Member>, kept: seq<Member>, path: Path, found: bool)
    requires Sensible(c) && c.healed && NoMarkerIn(kept, c.marker) && MembersMarkedLast(c, members)
    ensures var w := WalkMembers(c, members, kept, path, found); w.Cleaned? ==> NoMarker(w.value, c.marker) && w.found
    ensures Result(WalkMembers(c, members, kept, path, found)) == ScopedMembers(c, members, kept, path, found)
    decreases members, 0
  {
    hide Contains, Dump, Walk, Scoped, MarkedLast;
    var m := members[0];
    assert m in members;
    var inner := path + [m.key];
    assert Pop(inner) == path;
    if |members| == 1 {
      LastMemberMarked(c, m, kept, path, found);
      assert members == [m];
    } else {
      assert UnmarkedMember(m, c.marker);
      assert MembersMarkedLast(c, members[1..]);
      if m.value.String? {
        UnmarkedString(m.value.s, c.marker);
        PutKeepsNoMarker(kept, m.key, m.value, c.marker);
        MembersMarked(c, members[1..], Put(kept, m.key, m.value), path, found);
      } else {
        WalkUnmarked(c, m.value, inner);
        var w := Walk(c, m.value, inner);
        if w.Cleaned? {
          PutKeepsNoMarker(kept, m.key, w.value, c.marker);
          MembersMarked(c, members[1..], Put(kept, m.key, w.value), path, found);
        }
      }
    }
  }

  lemma {:induction false} LastMemberMarked(c: Context, m: Member, kept: seq<Member>, path: Path, found: bool)
    requires Sensible(c) && c.healed && NoMarkerIn(kept, c.marker)
    requires !Contains(m.key, c.marker) ==> MarkedLast(c, m.value)
    ensures var w := WalkMembers(c, [m], kept, path, found); w.Cleaned? ==> NoMarker(w.value, c.marker) && w.found
    ensures Result(WalkMembers(c, [m], kept, path, found)) == ScopedMembers(c, [m], kept, path, found)
    decreases m, 2
  {
    hide Contains, Dump, Walk, Scoped;
    var inner := path + [m.key];
    assert [m][1..] == [];
    if !Contains(m.key, c.marker) {
      if m.value.String? {
        if inner in c.contentPaths && c.marker == c.dumpMarker {
          ContentMarked(c, m.value.s, inner);
          PutKeepsNoMarker(kept, m.key, Walk(c, m.value, inner).value, c.marker);
        }
      } else {
        WalkMarked(c, m.value, inner);
        var w := Walk(c, m.value, inner);
        if w.Cleaned? {
          PutKeepsNoMarker(kept, m.key, w.value, c.marker);
        }
      }
    }
  }

  lemma {:induction false} ItemsMarked(c: Context, items: seq<Json>, kept: seq<Json>, path: Path, found: bool)
    requires Sensible(c) && c.healed && NoMarker(Array(kept), c.marker) && path !in c.argsPaths
             && path !in c.contentPaths
    requires items != [] && MarkedLast(c, items[|items| - 1])
    requires forall i :: 0 <= i < |items| - 1 ==> Unmarked(items[i], c.marker)
    ensures var w := WalkItems(c, items, kept, path, found); w.Cleaned? ==> NoMarker(w.value, c.marker) && w.found
    ensures Result(WalkItems(c, items, kept, path, found)) == ScopedItems(c, items, kept, path, found)
    decreases items, 0
  {
    hide Contains, Dump, Walk, Scoped;
    if |items| == 1 {
      assert items[1..] == [];
      if !items[0].String? {
        WalkMarked(c, items[0], path);
      }
    } else {
      if items[0].String? {
        UnmarkedString(items[0].s, c.marker);
      }
      WalkUnmarked(c, items[0], path);
      var w := Walk(c, items[0], path);
      if w.Cleaned? {
        ItemsMarked(c, items[1..], kept + [w.value], path, found);
      }
    }
  }
}
