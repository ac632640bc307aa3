/**
 Arguments that arrive piece by piece: what is returned for a longer piece extends what was returned
 for a shorter one, as the differences between messages assume, unless the longer piece stops inside
 a unicode escape.
 */
module GrowingArguments {
  import opened Wrappers
  import opened JsonValue
  import opened JsonScanner
  import opened JsonTail
  import opened JsonHealing
  import opened JsonHealed
  import opened JsonRender
  import opened JsonRoundTrip
  import opened JsonHealedDump
  import opened HealingTheorems

  // ---------------------------------------------------------------- tokens

  /** The text of open containers ends with what precedes a value. */
  lemma OpenTextEnds(f: Frames)
    requires Ready(f) && Stacked(f) && !f.Bottom?
    ensures var o := OpenText(f); o != "" && IsSeparator(f.InArray?, o[|o| - 1])
  {
    match f
    case InArray(items, below) =>
      if items != [] {
        EndsIn(OpenText(below) + "[", DumpItems(items), ',');
      }
    case InMember(members, key, below) =>
      EndsIn(OpenText(below) + "{" + MemberCommas(members) + Quote(key), "", ':');
  }

  lemma EndsIn(a: string, b: string, c: char)
    ensures var t := a + (b + [c]); t != "" && t[|t| - 1] == c
  {
  }

  /** A literal or number, or the letter that ends a literal: what is cut away again. */
  predicate InScalar(st: State, text: string) {
    !st.frames.Bottom? && !st.mode.InHex? && CutsBack(st, text)
  }

  /** One character of a literal or number: the one before belongs to it, or the value began there. */
  lemma ScalarStep(b: State, text: string, c: char)
    requires WellFormed(b) && Step(b, c).Some? && InScalar(Step(b, c).value, text + [c])
    ensures var st := Step(b, c).value;
            && !IsSeparator(st.frames.InArray?, c) && b.frames.InArray? == st.frames.InArray? && !b.frames.Bottom?
            && (b.mode.InLiteral? || b.mode.InNumber? || AtValue(b, st.frames))
  {
    hide HexCode, Put, Dump;
    match b.mode
    case InLiteral(rest, v) => LiteralLetters(rest, v);
    case _ =>
  }

  lemma CutBackSnoc(text: string, inArray: bool, c: char)
    requires !IsSeparator(inArray, c)
    ensures CutBack(text + [c], inArray) == CutBack(text, inArray)
  {
    assert (text + [c])[..|text|] == text;
  }

  // ---------------------------------------------------------------- what is kept grows

  /** While a literal or number goes on, as much is kept as before it. */
  lemma KeptStep(a: string, c: char)
    requires Run(START, a + [c]).Some? && Run(START, a).Some? && Step(Run(START, a).value, c) == Run(START, a + [c])
    requires InScalar(Run(START, a + [c]).value, a + [c])
    ensures var b, st := Run(START, a).value, Run(START, a + [c]).value;
            && (InScalar(b, a) ==> KeptOf(a + [c]) == KeptOf(a))
            && (!InScalar(b, a) ==> AtValue(b, st.frames) && KeptOf(a + [c]) == CutBack(a, st.frames.InArray?))
            && b.frames.InArray? == st.frames.InArray? && !b.frames.Bottom?
  {
    hide Run, Step, CutBack, Closers;
    var b, st := Run(START, a).value, Run(START, a + [c]).value;
    ScalarStep(b, a, c);
    CutBackSnoc(a, st.frames.InArray?, c);
  }

  lemma KeptInScalar(v: Json, n: nat)
    requires Storable(v) && 0 < n <= |Dump(v)| && Run(START, Dump(v)[..n]).Some?
    requires InScalar(Run(START, Dump(v)[..n]).value, Dump(v)[..n])
    ensures Run(START, Dump(v)[..n - 1]).Some?
    ensures var a := Dump(v)[..n - 1];
            KeptOf(Dump(v)[..n]) == if InScalar(Run(START, a).value, a) then KeptOf(a) else n - 1
  {
    hide Run, Step, Storable, Dump, CutBack, InScalar, KeptOf, OpenText;
    var d := Dump(v);
    var text, a, c := d[..n], d[..n - 1], d[n - 1];
    RunSnoc(START, text);
    assert text[..n - 1] == a && text == a + [c];
    KeptStep(a, c);
    var b := Run(START, a).value;
    if !InScalar(b, a) {
      PrefixIsRendered(v, n - 1);
      OpenTextEnds(b.frames);
      CutBackAtEnd(a, b.frames.InArray?);
    }
  }

  lemma CutBackAtEnd(text: string, inArray: bool)
    requires text != "" && IsSeparator(inArray, text[|text| - 1])
    ensures CutBack(text, inArray) == |text|
  {
  }

  lemma KeptAll(p: string)
    requires Run(START, p).Some? && !Run(START, p).value.mode.InHex? && !Run(START, p).value.frames.Bottom?
    requires !InScalar(Run(START, p).value, p)
    ensures KeptOf(p) == |p|
  {
    hide Run;
  }

  /** Of a longer piece at least as much is kept, unless it stops inside a unicode escape. */
  lemma {:induction false} KeptGrows(v: Json, m: nat, n: nat)
    requires Storable(v) && (v.Array? || v.Object?) && 0 < m <= n < |Dump(v)|
    requires Run(START, Dump(v)[..m]).Some? && Run(START, Dump(v)[..n]).Some?
    requires !Run(START, Dump(v)[..n]).value.mode.InHex?
    ensures KeptOf(Dump(v)[..m]) <= KeptOf(Dump(v)[..n])
    decreases n
  {
    hide Run, Storable, Dump, CutBack, PlanFor;
    PrefixIsOpen(v, n);
    var d := Dump(v);
    if m < n {
      if InScalar(Run(START, d[..n]).value, d[..n]) {
        KeptInScalar(v, n);
        if InScalar(Run(START, d[..n - 1]).value, d[..n - 1]) {
          KeptGrows(v, m, n - 1);
        }
      } else {
        KeptAll(d[..n]);
      }
    }
  }

  /**
   For an unbordered marker: of two pieces of one dump that are both healed, the longer one's result
   extends the shorter one's exactly when no less of it is kept.
   */
  lemma GrowsIffKept(v: Json, m: nat, n: nat, marker: string)
    requires IsTruncated(v, m, marker) && IsTruncated(v, n, marker) && m <= n && IsMarker(marker) && Unbordered(marker)
    requires Run(START, Dump(v)[..m]).Some? && Healable(Dump(v)[..m])
    requires Run(START, Dump(v)[..n]).Some? && Healable(Dump(v)[..n])
    ensures var a, b := TruncatedArguments(Dump(v)[..m], marker), TruncatedArguments(Dump(v)[..n], marker);
            && a.Ok? && a.value.Some? && a.value.value.0.String? && b.Ok? && b.value.Some? && b.value.value.0.String?
            && (a.value.value.0.s <= b.value.value.0.s <==> KeptOf(Dump(v)[..m]) <= KeptOf(Dump(v)[..n]))
  {
    hide Run, Healable, Storable, Contains, IsMarker, Unbordered, TruncatedArguments, KeptOf, Dump;
    TruncatedArgumentsArePrefix(v, m, marker);
    TruncatedArgumentsArePrefix(v, n, marker);
    var d := Dump(v);
    var i, j := KeptOf(d[..m]), KeptOf(d[..n]);
    assert d[..m][..i] == d[..i] && d[..n][..j] == d[..j];
  }

  /** So the results grow from piece to piece, whenever the longer piece does not stop inside a unicode escape. */
  lemma ArgumentsGrow(v: Json, m: nat, n: nat, marker: string)
    requires IsTruncated(v, m, marker) && IsTruncated(v, n, marker) && m <= n && IsMarker(marker) && Unbordered(marker)
    requires Run(START, Dump(v)[..m]).Some? && Healable(Dump(v)[..m])
    requires Run(START, Dump(v)[..n]).Some? && !Run(START, Dump(v)[..n]).value.mode.InHex?
    ensures var a, b := TruncatedArguments(Dump(v)[..m], marker), TruncatedArguments(Dump(v)[..n], marker);
            && a.Ok? && a.value.Some? && a.value.value.0.String? && b.Ok? && b.value.Some? && b.value.value.0.String?
            && a.value.value.0.s <= b.value.value.0.s
  {
    hide Run, IsMarker, Unbordered, TruncatedArguments, KeptOf, Dump, Storable, Contains;
    PrefixIsOpen(v, n);
    KeptGrows(v, m, n);
    GrowsIffKept(v, m, n, marker);
  }

  // ---------------------------------------------------------------- inside a unicode escape

  /** An array of one string that goes on with a control character. */
  function EscapeWitness(s: string): Json {
    Array([String(s + [1 as char])])
  }

  lemma EscapeWitnessDump(s: string)
    requires Plain(s)
    ensures Dump(EscapeWitness(s)) == "[\"" + s + "\\u0001\"]" && Storable(EscapeWitness(s))
  {
    ControlText(s);
    var v := String(s + [1 as char]);
    assert Storable(v);
    hide Escape;
    OneItemDump(v);
    assert "[" + ("\"" + (s + "\\u0001") + "\"") + "]" == "[\"" + s + "\\u0001\"]";
  }

  lemma ControlText(s: string)
    requires Plain(s)
    ensures Escape(s + [1 as char]) == s + "\\u0001"
  {
    EscapePlain(s);
    EscapeSnoc(s, 1 as char);
    hide Escape;
    assert EscapeChar(1 as char) == "\\u0001";
  }

  lemma OneItemDump(v: Json)
    ensures Dump(Array([v])) == "[" + Dump(v) + "]"
  {
    hide Escape;
    var items := [v];
    assert items[..0] == [];
    assert DumpItems(items) == "" + Dump(v) == Dump(v);
  }

  /**
   Inside one they can shrink: a string without separators is returned as far as it has come, and
   not at all when the next two characters have come too.
   */
  lemma EscapesShrink(s: string, marker: string)
    requires Plain(s) && s != "" && ',' !in s && '[' !in s && IsMarker(marker) && Unbordered(marker)
    requires !Contains("[\"" + s + "\\u", marker)
    ensures TruncatedArguments("[\"" + s, marker) == Ok(Some((String("[\"" + s), true)))
    ensures TruncatedArguments("[\"" + s + "\\u", marker) == Ok(Some((String("["), true)))
  {
    hide Run, Dump, Storable, IsMarker, Unbordered, TruncatedArguments, Contains, CutBack, CutLands, Plain;
    var v, p, q := EscapeWitness(s), "[\"" + s, "[\"" + s + "\\u";
    EscapeWitnessDump(s);
    OpenStringRun(s);
    OpenEscapeRun(s);
    OpenEscapeCut(s);
    HexHealsIff(s);
    assert Dump(v)[..|p|] == p && Dump(v)[..|q|] == q;
    assert p + "\\u" == q;
    if Contains(p, marker) {
      ContainsLeft(p, "\\u", marker);
    }
    UnborderedResult(v, |p|, marker);
    UnborderedResult(v, |q|, marker);
    assert p[..|p|] == p && q[..1] == "[";
  }

  lemma UnborderedResult(v: Json, n: nat, marker: string)
    requires IsTruncated(v, n, marker) && IsMarker(marker) && Unbordered(marker)
    requires Run(START, Dump(v)[..n]).Some? && Healable(Dump(v)[..n])
    ensures TruncatedArguments(Dump(v)[..n], marker) == Ok(Some((String(Dump(v)[..n][..KeptOf(Dump(v)[..n])]), true)))
  {
    hide Run, Healable, Storable, Contains, IsMarker, Unbordered, TruncatedArguments, KeptOf, Dump;
    TruncatedArgumentsArePrefix(v, n, marker);
  }
}
