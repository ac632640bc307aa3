/**
 Consuming JSON out of a message that may be cut anywhere (common/chat-parser.cpp): the parser, and
 what its results are for every input.
 */
module ChatJson {
  import opened Wrappers
  import opened JsonValue
  import opened JsonScanner
  import opened JsonHealing
  import opened JsonHealed
  import opened JsonRender
  import opened JsonRoundTrip
  import opened JsonPartial
  import opened JsonEnd
  import opened JsonHealedDump
  import opened ChatCleaner
  import opened CleanerProperties

  datatype Exception = PartialMessage | HealingFailed(failure: Failure) | NotAString

  /** A consumed value with its healing marker, as common_json has them. */
  datatype Consumed = Consumed(json: Json, marker: string, dumpMarker: string)

  /** try_consume_json on the rest of the input: None when there is no JSON, an error when it throws. */
  function ConsumedOf(rest: string, marker: string, isPartial: bool): Wrappers.Result<Option<Consumed>, Exception> {
    match OutcomeOf(rest, marker)
    case NotParsed => Ok(None)
    case Throws(e) => Err(HealingFailed(e))
    case Parsed(json, m, dumpMarker, _) =>
      if m != "" && !isPartial then Err(PartialMessage) else Ok(Some(Consumed(json, m, dumpMarker)))
  }

  function ContextOf(j: Consumed, marker: string, isPartial: bool, argsPaths: seq<Path>,
                     contentPaths: seq<Path>): Context {
    Context(argsPaths, contentPaths, marker, j.marker != "", j.dumpMarker, isPartial)
  }

  /** try_consume_json_with_dumped_args: the value and whether it is partial. */
  function DumpedOf(rest: string, marker: string, isPartial: bool, argsPaths: seq<Path>, contentPaths: seq<Path>)
    : Wrappers.Result<Option<(Json, bool)>, Exception>
  {
    match ConsumedOf(rest, marker, isPartial)
    case Err(e) => Err(e)
    case Ok(None) => Ok(None)
    case Ok(Some(j)) =>
      if j.marker == "" && argsPaths == [] then Ok(Some((j.json, false)))
      else if j.marker == "" && [] in argsPaths then Ok(Some((String(Dump(j.json)), false)))
      else
        match Walk(ContextOf(j, marker, isPartial, argsPaths, contentPaths), j.json, [])
        case Threw => Err(NotAString)
        case Cleaned(v, _, found) => Ok(Some((v, found)))
  }

  class ChatMsgParser {
    const input: string
    const isPartial: bool
    const healingMarker: string
    var pos: nat

    /** The marker is drawn until it is not in the input; the draw is a parameter here. */
    constructor (input: string, isPartial: bool, marker: string)
      requires !Contains(input, marker)
      ensures this.input == input && this.isPartial == isPartial && healingMarker == marker && pos == 0
    {
      this.input, this.isPartial, healingMarker, pos := input, isPartial, marker, 0;
    }

    method TryConsumeJson() returns (r: Wrappers.Result<Option<Consumed>, Exception>)
      requires pos <= |input|
      modifies this
      ensures r == ConsumedOf(input[old(pos)..], healingMarker, isPartial)
      ensures if OutcomeOf(input[old(pos)..], healingMarker).Parsed?
              then pos >= old(pos) && ReadsLongest(input[old(pos)..], pos - old(pos))
              else pos == old(pos)
      ensures forall v, rest ::
                input[old(pos)..] == Dump(v) + rest && Storable(v) && !v.Number? && NothingToSkip(rest) ==>
                r == Ok(Some(Consumed(v, "", ""))) && pos == old(pos) + |Dump(v)|
      ensures pos <= |input|
    {
      hide ReadsLongest, Storable, NothingToSkip, Dump;
      var outcome := CommonJsonParse(input[pos..], healingMarker);
      ReadsNoFurther(input[pos..], healingMarker);
      if outcome.Parsed? {
        EndIsLongest(input[pos..], healingMarker);
      }
      forall v, rest | input[pos..] == Dump(v) + rest && Storable(v) && !v.Number? && NothingToSkip(rest)
        ensures outcome == Parsed(v, "", "", |Dump(v)|)
      {
        CompleteIsRead(v, rest, healingMarker);
      }
      match outcome
      case NotParsed => r := Ok(None);
      case Throws(e) => r := Err(HealingFailed(e));
      case Parsed(json, marker, dumpMarker, end) =>
        pos := pos + end;
        if marker == "" {
          return Ok(Some(Consumed(json, marker, dumpMarker)));
        }
        if !isPartial {
          return Err(PartialMessage);
        }
        r := Ok(Some(Consumed(json, marker, dumpMarker)));
    }

    method TryConsumeJsonWithDumpedArgs(argsPaths: seq<Path>, contentPaths: seq<Path>)
      returns (r: Wrappers.Result<Option<(Json, bool)>, Exception>)
      requires pos <= |input|
      modifies this
      ensures r == DumpedOf(input[old(pos)..], healingMarker, isPartial, argsPaths, contentPaths)
      ensures pos <= |input|
    {
      hide OutcomeOf, ConsumedOf;
      var partial := TryConsumeJson();
      if partial.Err? {
        return Err(partial.error);
      }
      if partial.value.None? {
        return Ok(None);
      }
      var j := partial.value.value;
      if j.marker == "" {
        if argsPaths == [] {
          return Ok(Some((j.json, false)));
        }
        if [] in argsPaths {
          return Ok(Some((String(Dump(j.json)), false)));
        }
      }
      var cleaner := new Cleaner(ContextOf(j, healingMarker, isPartial, argsPaths, contentPaths));
      var cleaned := cleaner.Clean(j.json);
      if cleaned.None? {
        return Err(NotAString);
      }
      r := Ok(Some((cleaned.value, cleaner.found)));
    }
  }

  lemma ReadsNoFurther(text: string, marker: string)
    ensures OutcomeOf(text, marker).Parsed? ==> OutcomeOf(text, marker).end <= |text|
  {
  }

  // ---------------------------------------------------------------- the healed value is marked last

  /** The text of a state beyond that of its outer containers. */
  lemma RenderAbove(k: State) returns (q: string)
    requires WellFormed(k) && !k.frames.Bottom? && !k.mode.InLiteral? && !k.mode.InNumber?
    ensures Ready(k.frames.below) && Stacked(k.frames.below)
    ensures Render(k) == OpenText(k.frames.below) + q
  {
    var f, o := k.frames, OpenText(k.frames.below);
    var place := match f
                 case InArray(items, _) => "[" + ItemCommas(items)
                 case InObject(members, _) => "{" + MemberCommas(members)
                 case InMember(members, key, _) => "{" + MemberCommas(members) + Quote(key) + ":";
    Place(f, place);
    hide OpenText, ItemCommas, MemberCommas, DumpItems, DumpMembers, Quote, Escape, OpenPlace;
    match k.mode
    case InString(_, s) => q := place + "\"" + Escape(s); Append(o, place, "\"", Escape(s), "");
    case InEscape(_, s) => q := place + "\"" + Escape(s) + "\\"; Append(o, place, "\"", Escape(s), "\\");
    case InHex(_, s, d) =>
      q := place + "\"" + Escape(s) + "\\u" + d;
      Append(o, place, "\"", Escape(s), "\\u");
      Append(o, place + "\"" + Escape(s) + "\\u", d, "", "");
    case WantColon =>
      q := "{" + MemberCommas(f.members) + Quote(f.key);
      ObjectPlace(f.members, f.below);
      Append(o, "{", MemberCommas(f.members), Quote(f.key), "");
    case AfterValue => q := if f.InArray? then "[" + DumpItems(f.items) else "{" + DumpMembers(f.members);
    case _ => q := place;
  }

  lemma Append(a: string, b: string, c: string, d: string, e: string)
    ensures a + b + c + d + e == a + (b + c + d + e)
    ensures a + b + c + d == a + (b + c + d)
    ensures a + b + c == a + (b + c)
  {
  }

  lemma ObjectPlace(members: seq<Member>, below: Frames)
    requires Ready(below) && Stacked(below)
    ensures OpenObject(members, below) == OpenText(below) + "{" + MemberCommas(members)
  {
  }

  lemma Place(f: Frames, place: string)
    requires Stacked(f) && !f.Bottom?
    requires place == match f
                      case InArray(items, _) => "[" + ItemCommas(items)
                      case InObject(members, _) => "{" + MemberCommas(members)
                      case InMember(members, key, _) => "{" + MemberCommas(members) + Quote(key) + ":"
    ensures OpenPlace(f) == OpenText(f.below) + place
  {
    match f
    case InArray(items, below) => Append(OpenText(below), "[", ItemCommas(items), "", "");
    case InObject(members, below) => Append(OpenText(below), "{", MemberCommas(members), "", "");
    case InMember(members, key, below) => Append(OpenText(below), "{", MemberCommas(members), Quote(key), ":");
  }

  /** A dump cut at its first dump marker, which was put behind `q`, has no marker left. */
  lemma CutsCleanAt(c: Context, v: Json, q: string, rest: string)
    requires Dump(v) == q + c.dumpMarker + rest && !Contains(q, c.marker)
    ensures CutsClean(c, v)
  {
    OccursIn(q, c.dumpMarker, rest);
    var i := Find(Dump(v), c.dumpMarker).value;
    CutIsPrefix(q, c.dumpMarker, rest, i);
    if Contains(q[..i], c.marker) {
      ContainsSlice(q, c.marker, 0, i);
    }
  }

  /** From the innermost healed container outwards: every container around it is marked last. */
  lemma {:induction false} NestMarked(c: Context, below: Frames, v: Json, q: string, rest: string)
    requires Sensible(c) && Ready(below) && Stacked(below) && Fresh(below)
    requires MarkedLast(c, v) && Dump(v) == q + c.dumpMarker + rest && !Contains(OpenText(below) + q, c.marker)
    ensures MarkedLast(c, Nest(below, v))
    decreases below
  {
    hide Contains, Dump;
    match below
    case Bottom =>
    case InArray(items, outer) =>
      var v' := Array(items + [v]);
      ArrayMarked(c, items, v, q, rest, OpenText(outer));
      ArrayDump(items, v, q, c.dumpMarker, rest);
      Append(OpenText(outer), "[", ItemCommas(items), q, "");
      NestMarked(c, outer, v', "[" + ItemCommas(items) + q, rest + "]");
    case InMember(members, key, outer) =>
      var v' := Object(members + [Member(key, v)]);
      ObjectMarked(c, members, key, v, q, rest, OpenText(outer));
      ObjectDump(members, key, v, q, c.dumpMarker, rest);
      MemberPlace(OpenText(outer), MemberCommas(members), Quote(key), q);
      NestMarked(c, outer, v', "{" + MemberCommas(members) + Quote(key) + ":" + q, rest + "}");
  }

  lemma MemberPlace(o: string, commas: string, k: string, q: string)
    ensures o + "{" + commas + k + ":" + q == o + ("{" + commas + k + ":" + q)
  {
  }

  lemma ArrayDump(items: seq<Json>, v: Json, q: string, mark: string, rest: string)
    requires Dump(v) == q + mark + rest
    ensures Dump(Array(items + [v])) == "[" + ItemCommas(items) + q + mark + (rest + "]")
  {
    DumpItemsSnoc(items, v);
    hide ItemCommas, DumpItems;
    var d := ItemCommas(items);
    assert "[" + (d + (q + mark + rest)) + "]" == "[" + d + q + mark + (rest + "]");
  }

  lemma ObjectDump(members: seq<Member>, key: string, v: Json, q: string, mark: string, rest: string)
    requires Dump(v) == q + mark + rest
    ensures Dump(Object(members + [Member(key, v)]))
         == "{" + MemberCommas(members) + Quote(key) + ":" + q + mark + (rest + "}")
  {
    DumpMembersSnoc(members, key, v);
    hide MemberCommas, DumpMembers, Quote;
    ObjectDumpText(MemberCommas(members), Quote(key), q, mark, rest);
  }

  lemma ObjectDumpText(d: string, k: string, q: string, mark: string, rest: string)
    ensures "{" + (d + (k + ":" + (q + mark + rest))) + "}" == "{" + d + k + ":" + q + mark + (rest + "}")
  {
  }

  /** Items listed before a place without the marker are unmarked. */
  lemma ItemsAreUnmarked(items: seq<Json>, m: string)
    requires !Contains(ItemCommas(items), m)
    ensures forall i :: 0 <= i < |items| ==> Unmarked(items[i], m)
  {
    hide Contains, Dump;
    forall i: nat | i < |items|
      ensures Unmarked(items[i], m)
    {
      if !Unmarked(items[i], m) {
        ItemInDump(items, i, m);
        ContainsLeft(DumpItems(items), ",", m);
      }
    }
  }

  lemma MembersAreUnmarked(members: seq<Member>, m: string)
    requires !Contains(MemberCommas(members), m) && Plain(m)
    ensures forall i :: 0 <= i < |members| ==> UnmarkedMember(members[i], m)
  {
    hide Contains, Dump;
    forall i: nat | i < |members|
      ensures UnmarkedMember(members[i], m)
    {
      KeyInMember(members[i], m);
      if Contains(members[i].key, m) {
        QuoteContains(members[i].key, m);
      }
      if Contains(DumpMember(members[i]), m) {
        MemberInDump(members, i, m);
        ContainsLeft(DumpMembers(members), ",", m);
      }
    }
  }

  lemma PartsLackMarker(a: string, b: string, c: string, m: string)
    requires !Contains(a + b + c, m)
    ensures !Contains(a, m) && !Contains(b, m) && !Contains(c, m) && !Contains(b + c, m)
  {
    hide Contains;
    assert a + b + c == a + (b + c);
    if Contains(a, m) { ContainsLeft(a, b, m); ContainsLeft(a + b, c, m); }
    if Contains(b, m) { ContainsPart(a, b, c, m); }
    if Contains(c, m) { ContainsRight(a + b, c, m); }
    if Contains(b + c, m) { ContainsRight(a, b + c, m); }
  }

  /** An array whose last item is marked, behind a place `o` without the marker. */
  lemma ArrayMarked(c: Context, items: seq<Json>, v: Json, q: string, rest: string, o: string)
    requires Sensible(c) && MarkedLast(c, v) && Dump(v) == q + c.dumpMarker + rest
    requires !Contains(o + "[" + ItemCommas(items) + q, c.marker)
    ensures MarkedLast(c, Array(items + [v]))
  {
    hide Contains, Dump, ItemCommas;
    ArrayDump(items, v, q, c.dumpMarker, rest);
    PartsLackMarker(o + "[", ItemCommas(items), q, c.marker);
    Append(o, "[", ItemCommas(items), q, "");
    var place := "[" + ItemCommas(items) + q;
    assert o + place + "" == o + "[" + ItemCommas(items) + q;
    PartsLackMarker(o, place, "", c.marker);
    ItemsAreUnmarked(items, c.marker);
    CutsCleanAt(c, Array(items + [v]), "[" + ItemCommas(items) + q, rest + "]");
  }

  lemma ColonPlace(commas: string, k: string, q: string)
    ensures "{" + commas + (k + ":" + q) == "{" + commas + k + ":" + q
  {
  }

  lemma ObjectMarked(c: Context, members: seq<Member>, key: string, v: Json, q: string, rest: string, o: string)
    requires Sensible(c) && MarkedLast(c, v) && Dump(v) == q + c.dumpMarker + rest
    requires !Contains(o + "{" + MemberCommas(members) + Quote(key) + ":" + q, c.marker)
    ensures MarkedLast(c, Object(members + [Member(key, v)]))
  {
    hide Contains, Dump, MemberCommas, Quote;
    ObjectDump(members, key, v, q, c.dumpMarker, rest);
    var place := "{" + MemberCommas(members) + Quote(key) + ":" + q;
    MemberPlace(o, MemberCommas(members), Quote(key), q);
    assert o + place + "" == o + place;
    PartsLackMarker(o, place, "", c.marker);
    ColonPlace(MemberCommas(members), Quote(key), q);
    PartsLackMarker("{", MemberCommas(members), Quote(key) + ":" + q, c.marker);
    MembersAreUnmarked(members, c.marker);
    CutsCleanAt(c, Object(members + [Member(key, v)]), place, rest + "}");
  }

  /** The innermost healed container: its value, and the containers around it. */
  function InnerOf(t: Target): Json
    requires Ready(t.frames) && !t.frames.Bottom?
  {
    if t.frames.InArray? then Array(t.frames.items + [t.leaf])
    else Object(Put(t.frames.members, t.frames.key, t.leaf))
  }

  /** What was kept of a text, and the dump marker, in a parser's context. */
  ghost predicate HealedIn(c: Context, text: string) {
    && Run(START, text).Some? && Healable(text) && Sensible(c) && c.healed
    && Fresh(KeptState(text).frames) && !Contains(Render(KeptState(text)), c.marker)
    && c.dumpMarker == PlanFor(Run(START, text).value, text).glue + c.marker
  }

  /** The containers around the marker are those that were open in what was kept. */
  lemma TargetFrames(text: string, marker: string)
    requires Run(START, text).Some? && Healable(text)
    ensures var k, t, p := KeptState(text), TargetOf(text, marker), PlanFor(Run(START, text).value, text);
            && !t.frames.Bottom? && t.frames.below == k.frames.below && !k.mode.InLiteral? && !k.mode.InNumber?
            && (p.asKey ==>
                  && k.frames.InObject? && t.frames.InMember? && t.frames.members == k.frames.members
                  && t.leaf == Number("1"))
            && (!p.asKey ==> t.frames == k.frames && t.leaf.String?)
  {
    hide Run, Step;
    if CutsBack(Run(START, text).value, text) {
      CutLandsWhenHealable(text);
    }
  }

  lemma NestOnce(t: Target)
    requires Ready(t.frames) && Stacked(t.frames) && !t.frames.Bottom?
    ensures Ready(t.frames.below) && Stacked(t.frames.below)
    ensures Nest(t.frames, t.leaf) == Nest(t.frames.below, InnerOf(t))
  {
  }

  lemma FreshBelow(f: Frames)
    requires Fresh(f) && !f.Bottom?
    ensures Fresh(f.below)
  {
  }

  lemma InnermostDump(text: string, c: Context) returns (q: string, rest: string)
    requires HealedIn(c, text)
    ensures var t := TargetOf(text, c.marker);
            && !t.frames.Bottom? && Ready(t.frames.below) && Stacked(t.frames.below) && Fresh(t.frames.below)
            && Nest(t.frames, t.leaf) == Nest(t.frames.below, InnerOf(t))
            && Dump(InnerOf(t)) == q + c.dumpMarker + rest
            && OpenText(t.frames.below) + q == Render(KeptState(text))
  {
    hide Dump, OpenText, Closers, Render, PlanFor, Contains, Run, Healable, KeptState, TargetOf, Nest, InnerOf, Fresh,
        IsMarker;
    var t, k, p := TargetOf(text, c.marker), KeptState(text), PlanFor(Run(START, text).value, text);
    TargetFrames(text, c.marker);
    NestOnce(t);
    FreshBelow(k.frames);
    q := RenderAbove(k);
    var all := HealedDump(text, c.marker);
    var below := t.frames.below;
    NestDump(below, InnerOf(t));
    ClosersSplit(k.frames);
    rest := (if p.asKey then "\":1" else "\"") + (if k.frames.InArray? then "]" else "}");
    assert all == rest + Closers(below);
    StripBoth(OpenText(below), Dump(InnerOf(t)), Closers(below), q, c.dumpMarker, all, rest);
  }

  lemma ClosersSplit(f: Frames)
    requires !f.Bottom?
    ensures Closers(f) == (if f.InArray? then "]" else "}") + Closers(f.below)
  {
  }

  /** Equal texts with equal beginnings and ends are equal in between. */
  lemma StripBoth(o: string, d: string, e: string, q: string, mark: string, all: string, rest: string)
    requires o + d + e == o + q + mark + all && all == rest + e
    ensures d == q + mark + rest
  {
    assert o + q + mark + (rest + e) == o + (q + mark + rest) + e;
    assert (o + d + e)[|o|..] == d + e;
    assert (o + (q + mark + rest) + e)[|o|..] == q + mark + rest + e;
    var n := |d|;
    assert d == (d + e)[..n];
    assert (q + mark + rest) == (q + mark + rest + e)[..n];
  }
}
