/**
 Content that has arrived in part (common/chat-parser.cpp): the string at a content path comes back as
 the characters that were received.
 */
module HealedContent {
  import opened Wrappers
  import opened JsonValue
  import opened JsonScanner
  import opened JsonHealing
  import opened JsonRoundTrip
  import opened JsonHealed
  import opened JsonHealedDump
  import opened ChatCleaner
  import opened CleanerProperties
  import opened ChatJson
  import opened HealingTheorems
  import opened NestedArguments

  /** A message that stops in the string of member `key`, of which `s` has been read. */
  ghost predicate InContentOf(text: string, ms: seq<Member>, key: string, s: string, marker: string) {
    && Run(START, text) == Some(State(InMember(ms, key, Bottom), InString(false, s)))
    && Before(ms, key, marker) && !Contains(s, marker)
  }

  /** Where the marker is found behind the characters that were received. */
  lemma FoundBehind(s: string, marker: string) returns (i: nat)
    requires marker != "" && !Contains(s, marker)
    ensures Find(s + marker, marker) == Some(i) && i <= |s|
    ensures Unbordered(marker) ==> i == |s|
  {
    assert s + marker + "" == s + marker;
    OccursIn(s, marker, "");
    ContainsAt(s + marker, marker, |s|);
    i := Find(s + marker, marker).value;
    assert FirstAt(s + marker, marker, i);
    if i < |s| {
      EarlyIsOverlap(s, marker, "", i);
    }
  }

  /** A healed context whose only path is that of a content member of the root. */
  ghost predicate AtContent(c: Context, key: string) {
    Sensible(c) && c.healed && c.argsPaths == [] && c.contentPaths == [[key]] && c.dumpMarker == c.marker
  }

  /** The walk keeps the members before the content and cuts the content at the marker. */
  lemma WalkToContent(c: Context, ms: seq<Member>, key: string, s: string, i: nat)
    requires AtContent(c, key) && Before(ms, key, c.marker) && Find(s, c.marker) == Some(i) && i <= |s|
    ensures Walk(c, Object(ms + [Member(key, String(s))]), []) ==
            Cleaned(Object(ms + [Member(key, String(s[..i]))]), [key], true)
  {
    hide Contains, Dump, Storable, Unmarked;
    var all, last := ms + [Member(key, String(s))], Member(key, String(s));
    var root: Path := [];
    assert root != [key];
    assert forall i :: 0 <= i < |ms| ==> all[i] == ms[i];
    forall i, j | 0 <= i < j < |all|
      ensures all[i].key != all[j].key
    {
      assert !HasKey(ms, key);
    }
    MembersKept(c, all, |ms|, root, key);
    assert all[|ms|..] == [last] && all[..|ms|] == ms;
    LastContent(c, ms, key, s, i);
  }

  lemma LastContent(c: Context, ms: seq<Member>, key: string, s: string, i: nat)
    requires AtContent(c, key) && Before(ms, key, c.marker) && Find(s, c.marker) == Some(i) && i <= |s|
    ensures WalkMembers(c, [Member(key, String(s))], ms, [], false) ==
            Cleaned(Object(ms + [Member(key, String(s[..i]))]), [key], true)
  {
    hide Contains, Dump, Storable, Unmarked, Find;
    var root: Path := [];
    assert root + [key] == [key];
    assert Walk(c, String(s), [key]) == Cleaned(String(s[..i]), [key], true);
  }

  /**
   Content of which a part has arrived, consumed at its path: the members before it are untouched and
   the content is the characters received up to where the marker is found; with a marker that does
   not overlap itself, all of them.
   */
  lemma ContentOfMember(text: string, ms: seq<Member>, key: string, s: string, marker: string)
    requires InContentOf(text, ms, key, s, marker) && IsMarker(marker)
    ensures var o := DumpedOf(text, marker, true, [], [[key]]);
            && o.Ok? && o.value.Some? && o.value.value.1
            && exists t :: t <= s && (Unbordered(marker) ==> t == s)
                           && o.value.value.0 == Object(ms + [Member(key, String(t))])
  {
    hide Run, Contains, IsMarker, Healable, PlanFor, TargetOf, Nest, Walk, ConsumedOf, Find, Unbordered, HasKey;
    MarkerNotEmpty(marker);
    var i := FoundBehind(s, marker);
    ConsumedOpen(text, marker);
    ContentTarget(text, ms, key, s, marker);
    OccursIn("", marker, "");
    assert "" + marker + "" == marker && "" + marker == marker;
    ContainsAt(marker, marker, 0);
    hide Before;
    var c := Context([], [[key]], marker, true, marker, true);
    assert (s + marker)[..i] == s[..i];
    assert s[..|s|] == s;
    WalkToContent(c, ms, key, s + marker, i);
  }

  lemma ContentTarget(text: string, ms: seq<Member>, key: string, s: string, marker: string)
    requires Run(START, text) == Some(State(InMember(ms, key, Bottom), InString(false, s))) && !HasKey(ms, key)
    ensures Healable(text) && PlanFor(Run(START, text).value, text).glue == ""
    ensures var t := TargetOf(text, marker);
            Nest(t.frames, t.leaf) == Object(ms + [Member(key, String(s + marker))])
  {
    hide Run;
    assert TargetOf(text, marker) == Target(InMember(ms, key, Bottom), String(s + marker));
    var leaf := String(s + marker);
    assert Nest(InMember(ms, key, Bottom), leaf) == Nest(Bottom, Object(Put(ms, key, leaf)));
  }
}
