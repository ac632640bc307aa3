/**
 JSON values and their compact dump (RFC 8259), standing in for the JSON library that
 common/json-partial.cpp and common/chat-parser.cpp use. A number is the text it was written with.
 */
module JsonValue {
  import opened Wrappers

  datatype Json =
    | Null
    | Bool(b: bool)
    | Number(text: string)
    | String(s: string)
    | Array(items: seq<Json>)
    | Object(members: seq<Member>)

  datatype Member = Member(key: string, value: Json)

  // ---------------------------------------------------------------- strings

  predicate IsHexDigit(c: char) {
    '0' <= c <= '9' || 'a' <= c <= 'f' || 'A' <= c <= 'F'
  }

  function HexValue(c: char): (r: nat)
    requires IsHexDigit(c)
    ensures r < 16
  {
    if c <= '9' then c as int - '0' as int
    else if c <= 'F' then c as int - 'A' as int + 10
    else c as int - 'a' as int + 10
  }

  function LowHexDigit(n: nat): (c: char)
    requires n < 16
    ensures IsHexDigit(c) && HexValue(c) == n
  {
    "0123456789abcdef"[n]
  }

  const BACKSPACE: char := 8 as char
  const FORM_FEED: char := 12 as char

  /** How a character is written inside a string. */
  function EscapeChar(c: char): (r: string)
    ensures r != ""
  {
    if c == '\"' then "\\\""
    else if c == '\\' then "\\\\"
    else if c == BACKSPACE then "\\b"
    else if c == FORM_FEED then "\\f"
    else if c == '\n' then "\\n"
    else if c == '\r' then "\\r"
    else if c == '\t' then "\\t"
    else if c < ' ' then ['\\', 'u', '0', '0', LowHexDigit(c as int / 16), LowHexDigit(c as int % 16)]
    else [c]
  }

  function Escape(s: string): string {
    if s == "" then "" else Escape(s[..|s| - 1]) + EscapeChar(s[|s| - 1])
  }

  function Quote(s: string): string {
    "\"" + Escape(s) + "\""
  }

  // ---------------------------------------------------------------- dump

  function Dump(v: Json): string
    decreases v, 1
  {
    match v
    case Null => "null"
    case Bool(b) => if b then "true" else "false"
    case Number(text) => text
    case String(s) => Quote(s)
    case Array(items) => "[" + DumpItems(items) + "]"
    case Object(members) => "{" + DumpMembers(members) + "}"
  }

  function DumpItems(items: seq<Json>): string
    decreases items, 0
  {
    if items == [] then ""
    else
      var n := |items| - 1;
      ItemCommas(items[..n]) + Dump(items[n])
  }

  /** The items, each followed by a comma. */
  function ItemCommas(items: seq<Json>): string
    decreases items, 1
  {
    if items == [] then "" else DumpItems(items) + ","
  }

  function DumpMember(m: Member): string
    decreases m, 0
  {
    Quote(m.key) + ":" + Dump(m.value)
  }

  function DumpMembers(members: seq<Member>): string
    decreases members, 0
  {
    if members == [] then ""
    else
      var n := |members| - 1;
      MemberCommas(members[..n]) + DumpMember(members[n])
  }

  function MemberCommas(members: seq<Member>): string
    decreases members, 1
  {
    if members == [] then "" else DumpMembers(members) + ","
  }

  // ---------------------------------------------------------------- members

  ghost predicate HasKey(members: seq<Member>, key: string) {
    exists i :: 0 <= i < |members| && members[i].key == key
  }

  /** Storing a member: a key that is there keeps its place and gets the new value. */
  function Put(members: seq<Member>, key: string, value: Json): (r: seq<Member>)
    ensures r != []
    ensures !HasKey(members, key) ==> r == members + [Member(key, value)]
  {
    if members == [] then [Member(key, value)]
    else if members[0].key == key then [Member(key, value)] + members[1..]
    else
      assert !HasKey(members, key) ==> !HasKey(members[1..], key);
      [members[0]] + Put(members[1..], key, value)
  }

  // ---------------------------------------------------------------- searching text

  predicate OccursAt(text: string, pattern: string, i: int) {
    0 <= i && i + |pattern| <= |text| && text[i..i + |pattern|] == pattern
  }

  ghost predicate Contains(text: string, pattern: string) {
    exists i :: OccursAt(text, pattern, i)
  }

  /** `i` is where a search for `pattern` stops: its first occurrence. */
  ghost predicate FirstAt(text: string, pattern: string, i: int) {
    OccursAt(text, pattern, i) && forall j :: 0 <= j < i ==> !OccursAt(text, pattern, j)
  }

  /** Searching for the first occurrence from `from` on. */
  function FindFrom(text: string, pattern: string, from: nat): (r: Option<nat>)
    ensures r.Some? ==>
              && from <= r.value && OccursAt(text, pattern, r.value)
              && forall j :: from <= j < r.value ==> !OccursAt(text, pattern, j)
    ensures r.None? ==> forall j :: from <= j ==> !OccursAt(text, pattern, j)
    decreases |text| - from
  {
    if from > |text| then None
    else if OccursAt(text, pattern, from) then Some(from)
    else FindFrom(text, pattern, from + 1)
  }

  function Find(text: string, pattern: string): (r: Option<nat>)
    ensures r.Some? ==> FirstAt(text, pattern, r.value)
    ensures r.None? <==> !Contains(text, pattern)
  {
    FindFrom(text, pattern, 0)
  }

  lemma ContainsAt(text: string, pattern: string, i: int)
    requires OccursAt(text, pattern, i)
    ensures Contains(text, pattern)
  {
  }

  lemma OccursIn(a: string, pattern: string, b: string)
    ensures OccursAt(a + pattern + b, pattern, |a|)
  {
    assert (a + pattern + b)[|a|..|a| + |pattern|] == pattern;
  }

  lemma SliceOfSlice<T>(s: seq<T>, l: nat, h: nat, a: nat, b: nat)
    requires l <= h <= |s| && a <= b <= h - l
    ensures s[l..h][a..b] == s[l + a..l + b]
  {
    var x, y := s[l..h][a..b], s[l + a..l + b];
    assert |x| == |y|;
    forall k | 0 <= k < |x|
      ensures x[k] == y[k]
    {
      assert s[l..h][a + k] == s[l + (a + k)];
    }
  }

  lemma OccursInSlice(text: string, pattern: string, l: nat, h: nat)
    requires l <= h <= |text|
    ensures forall j :: OccursAt(text[l..h], pattern, j) ==> OccursAt(text, pattern, l + j)
  {
    forall j | OccursAt(text[l..h], pattern, j)
      ensures OccursAt(text, pattern, l + j)
    {
      SliceOfSlice(text, l, h, j, j + |pattern|);
    }
  }

  lemma ContainsSlice(text: string, pattern: string, l: nat, h: nat)
    requires l <= h <= |text| && Contains(text[l..h], pattern)
    ensures Contains(text, pattern)
  {
    OccursInSlice(text, pattern, l, h);
  }

  lemma ContainsPart(a: string, b: string, c: string, pattern: string)
    requires Contains(b, pattern)
    ensures Contains(a + b + c, pattern)
  {
    assert (a + b + c)[|a|..|a| + |b|] == b;
    ContainsSlice(a + b + c, pattern, |a|, |a| + |b|);
  }

  lemma ContainsLeft(a: string, b: string, pattern: string)
    requires Contains(a, pattern)
    ensures Contains(a + b, pattern)
  {
    assert (a + b)[..|a|] == a;
    ContainsSlice(a + b, pattern, 0, |a|);
  }

  lemma ContainsRight(a: string, b: string, pattern: string)
    requires Contains(b, pattern)
    ensures Contains(a + b, pattern)
  {
    assert (a + b)[|a|..|a + b|] == b;
    ContainsSlice(a + b, pattern, |a|, |a + b|);
  }

  /** What stands before the first occurrence does not contain the pattern. */
  lemma BeforeFirst(text: string, pattern: string, i: int)
    requires FirstAt(text, pattern, i) && pattern != ""
    ensures 0 <= i <= |text| && !Contains(text[..i], pattern)
  {
    OccursInSlice(text, pattern, 0, i);
    assert text[..i] == text[0..i];
  }

  lemma {:induction false} EscapeConcat(a: string, b: string)
    ensures Escape(a + b) == Escape(a) + Escape(b)
  {
    hide EscapeChar;
    if b == "" {
      assert a + b == a;
    } else {
      var n, c := |b| - 1, b[|b| - 1];
      var e := EscapeChar(c);
      assert (a + b)[..|a + b| - 1] == a + b[..n] && (a + b)[|a + b| - 1] == c;
      EscapeConcat(a, b[..n]);
      assert Escape(a + b) == Escape(a + b[..n]) + e;
      assert Escape(b) == Escape(b[..n]) + e;
    }
  }
}
