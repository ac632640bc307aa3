/**
 Removing a healing again (common/chat-parser.cpp, try_consume_json_with_dumped_args): the walk that
 dumps arguments up to the marker and drops what else healing added.
 */
module ChatCleaner {
  import opened Wrappers
  import opened JsonValue

  type Path = seq<string>

  /** What the walk knows: the paths to dump and to keep as content, the parser's marker, and the healing. */
  datatype Context = Context(argsPaths: seq<Path>, contentPaths: seq<Path>, marker: string,
                             healed: bool, dumpMarker: string, isPartial: bool)
  {
    /** The marker of the parsed value: empty when nothing was healed. */
    function ValueMarker(): string {
      if healed then marker else ""
    }
  }

  /** The cleaned value, the path the walk leaves behind, and whether it met the marker. */
  datatype Cleaned = Cleaned(value: Json, path: Path, found: bool) | Threw

  /** An arguments value: its dump, cut at the dump marker when healed. */
  function DumpArguments(c: Context, j: Json): (r: (string, bool)) {
    var d := Dump(j);
    if !c.isPartial || !c.healed then (d, false)
    else
      var i := Find(d, c.dumpMarker);
      var cut := if i.Some? then d[..i.value] else d;
      (if cut == "\"" then "" else cut, i.Some?)
  }

  /** A content value: a string, cut at the marker. */
  function CleanContent(c: Context, j: Json, path: Path): Cleaned {
    if !j.String? then Threw
    else
      match Find(j.s, c.ValueMarker())
      case Some(i) => Cleaned(String(j.s[..i]), path, true)
      case None => Cleaned(j, path, false)
  }

  function Pop(path: Path): Path {
    if path == [] then [] else path[..|path| - 1]
  }

  // ---------------------------------------------------------------- the walk, with its shared path

  function Walk(c: Context, j: Json, path: Path): Cleaned
    decreases j, 1
  {
    if path in c.argsPaths then
      var (arguments, found) := DumpArguments(c, j);
      Cleaned(String(arguments), path, found)
    else if path in c.contentPaths then CleanContent(c, j, path)
    else
      match j
      case Object(members) => WalkMembers(c, members, [], path, false)
      case Array(items) => WalkItems(c, items, [], path, false)
      case _ => Cleaned(j, path, false)
  }

  /** The members still to come, with those kept so far and whether the marker was met. */
  function WalkMembers(c: Context, members: seq<Member>, kept: seq<Member>, path: Path, found: bool): Cleaned
    decreases members, 0
  {
    if members == [] then Cleaned(Object(kept), path, found)
    else
      var m := members[0];
      assert m in members;
      if Find(m.key, c.marker).Some? then Cleaned(Object(kept), path, true)
      else
        var inner := path + [m.key];
        if m.value.String? then
          if Find(m.value.s, c.marker).Some? then
            if inner in c.contentPaths && c.ValueMarker() == c.dumpMarker then
              match Walk(c, m.value, inner)
              case Threw => Threw
              case Cleaned(v, p, _) => Cleaned(Object(Put(kept, m.key, v)), p, true)
            else Cleaned(Object(kept), inner, true)
          else WalkMembers(c, members[1..], Put(kept, m.key, m.value), path, found)
        else
          match Walk(c, m.value, inner)
          case Threw => Threw
          case Cleaned(v, p, f) => WalkMembers(c, members[1..], Put(kept, m.key, v), Pop(p), found || f)
  }

  function WalkItems(c: Context, items: seq<Json>, kept: seq<Json>, path: Path, found: bool): Cleaned
    decreases items, 0
  {
    if items == [] then Cleaned(Array(kept), path, found)
    else if items[0].String? && Find(items[0].s, c.marker).Some? then Cleaned(Array(kept), path, true)
    else
      match Walk(c, items[0], path)
      case Threw => Threw
      case Cleaned(v, p, f) => WalkItems(c, items[1..], kept + [v], p, found || f)
  }

  // ---------------------------------------------------------------- the program

  /** The recursive cleaner, with the path and the flag that all its calls share. */
  class Cleaner {
    const c: Context
    var path: Path
    var found: bool

    constructor (c: Context)
      ensures this.c == c && path == [] && !found
    {
      this.c, path, found := c, [], false;
    }

    method Clean(j: Json) returns (r: Option<Json>)
      modifies this
      ensures var w := Walk(c, j, old(path));
              if w.Threw? then r == None
              else r == Some(w.value) && path == w.path && found == (old(found) || w.found)
      decreases j, 1
    {
      if path in c.argsPaths {
        var arguments := Dump(j);
        if c.isPartial && c.healed {
          var idx := Find(arguments, c.dumpMarker);
          if idx.Some? {
            arguments := arguments[..idx.value];
            found := true;
          }
          if arguments == "\"" {
            arguments := "";
          }
        }
        return Some(String(arguments));
      }
      if path in c.contentPaths {
        if !j.String? {
          return None;
        }
        var idx := Find(j.s, c.ValueMarker());
        if idx.Some? {
          found := true;
          return Some(String(j.s[..idx.value]));
        }
        return Some(j);
      }
      if j.Object? {
        r := CleanMembers(j.members);
      } else if j.Array? {
        r := CleanItems(j.items);
      } else {
        r := Some(j);
      }
    }

    method CleanMembers(members: seq<Member>) returns (r: Option<Json>)
      modifies this
      ensures var w := WalkMembers(c, members, [], old(path), false);
              if w.Threw? then r == None
              else r == Some(w.value) && path == w.path && found == (old(found) || w.found)
      decreases members, 0
    {
      var obj: seq<Member> := [];
      ghost var met := false;
      var i := 0;
      while i < |members|
        invariant 0 <= i <= |members|
        invariant WalkMembers(c, members, [], old(path), false) == WalkMembers(c, members[i..], obj, path, met)
        invariant found == (old(found) || met)
      {
        var m := members[i];
        assert m in members && members[i..][0] == m && members[i..][1..] == members[i + 1..];
        if Find(m.key, c.marker).Some? {
          found := true;
          return Some(Object(obj));
        }
        ghost var outer := path;
        path := path + [m.key];
        if m.value.String? {
          if Find(m.value.s, c.marker).Some? {
            found := true;
            if path in c.contentPaths && c.ValueMarker() == c.dumpMarker {
              var v := Clean(m.value);
              if v.None? {
                return None;
              }
              obj := Put(obj, m.key, v.value);
            }
            return Some(Object(obj));
          }
          obj := Put(obj, m.key, m.value);
        } else {
          ghost var w := Walk(c, m.value, path);
          var v := Clean(m.value);
          if v.None? {
            return None;
          }
          obj := Put(obj, m.key, v.value);
          met := met || w.found;
        }
        path := Pop(path);
        i := i + 1;
      }
      assert members[i..] == [];
      r := Some(Object(obj));
    }

    method CleanItems(items: seq<Json>) returns (r: Option<Json>)
      modifies this
      ensures var w := WalkItems(c, items, [], old(path), false);
              if w.Threw? then r == None
              else r == Some(w.value) && path == w.path && found == (old(found) || w.found)
      decreases items, 0
    {
      var arr: seq<Json> := [];
      ghost var met := false;
      var i := 0;
      while i < |items|
        invariant 0 <= i <= |items|
        invariant WalkItems(c, items, [], old(path), false) == WalkItems(c, items[i..], arr, path, met)
        invariant found == (old(found) || met)
      {
        assert items[i..][0] == items[i] && items[i..][1..] == items[i + 1..];
        if items[i].String? && Find(items[i].s, c.marker).Some? {
          found := true;
          return Some(Array(arr));
        }
        ghost var w := Walk(c, items[i], path);
        var v := Clean(items[i]);
        if v.None? {
          return None;
        }
        arr := arr + [v.value];
        met := met || w.found;
        i := i + 1;
      }
      assert items[i..] == [];
      r := Some(Array(arr));
    }
  }
}
