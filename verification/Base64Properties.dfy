/** Round trips of base64 in both directions, and what automatic alphabets mean (common/base64.hpp). */
module Base64Properties {
  import opened Wrappers
  import opened Base64

  /** The alphabet that encoding uses: everything but URL-safe means the standard one. */
  function Used(a: Alphabet): Alphabet {
    if a == UrlSafe then UrlSafe else Standard
  }

  // ---------------------------------------------------------------- characters and bits

  /** Every entry of an alphabet is read back as its index, and by no other alphabet differently. */
  lemma AlphaValue(a: Alphabet, b: Alphabet, v: Byte)
    requires v < 64 && (b == Used(a) || b == Auto)
    ensures Alpha(a, v) != PAD && Value(b, Alpha(a, v)).Ok?
    ensures Value(b, Alpha(a, v)).value.0 == v
    ensures Value(b, Alpha(a, v)).value.1 == Used(a) || Value(b, Alpha(a, v)).value.1 == Auto
  {
  }

  lemma ValueAlpha(a: Alphabet, c: Byte)
    requires a != Auto && Value(a, c).Ok?
    ensures Value(a, c).value.1 == a && Alpha(a, Value(a, c).value.0) == c
  {
  }

  /** The three bytes can be read off the four characters. */
  lemma JoinBytes(i0: Byte, i1: Byte, i2: Byte)
    ensures Joined(First(i0), Second(i0, i1), 6) == i0
    ensures Joined(Second(i0, i1), Third(i1, i2), 4) == i1
    ensures Joined(Third(i1, i2), Fourth(i2), 2) == i2
  {
  }

  /** The four characters can be read off the three bytes. */
  lemma SplitValues(v0: Byte, v1: Byte, v2: Byte, v3: Byte)
    requires v0 < 64 && v1 < 64 && v2 < 64 && v3 < 64
    ensures First(Joined(v0, v1, 6)) == v0
    ensures Second(Joined(v0, v1, 6), Joined(v1, v2, 4)) == v1
    ensures Third(Joined(v1, v2, 4), Joined(v2, v3, 2)) == v2
    ensures Fourth(Joined(v2, v3, 2)) == v3
  {
  }

  /** The last characters of a short group keep their value exactly when the bits left over are zero. */
  lemma SplitShort(v0: Byte, v1: Byte, v2: Byte)
    requires v0 < 64 && v1 < 64 && v2 < 64
    ensures Second(Joined(v0, v1, 6), 0) == v1 <==> v1 & 0xf == 0
    ensures Third(Joined(v1, v2, 4), 0) == v2 <==> v2 & 0x3 == 0
  {
  }

  // ---------------------------------------------------------------- groups of four characters

  /** One character, from the middle of a group or from its start. */
  lemma RunOne(s: State, c: Byte, v: Byte, a: Alphabet, rest: seq<Byte>)
    requires Phase(s.bits) && Value(s.alphabet, c) == Ok((v, a))
    ensures s.bits == 0 ==> Run(s, [c] + rest) == Run(State(v, 6, a, s.out), rest)
    ensures s.bits > 0 ==>
            s.bits in {2, 4, 6} && Run(s, [c] + rest)
                == Run(State(v, s.bits - 2, a, s.out + [Joined(s.last, v, s.bits)]), rest)
  {
    StepMoves(s, c, v, a);
    hide Value, Joined, Step;
    assert ([c] + rest)[0] == c && ([c] + rest)[1..] == rest;
  }

  lemma Cons4(c0: Byte, c1: Byte, c2: Byte, c3: Byte, rest: seq<Byte>)
    ensures [c0, c1, c2, c3] + rest == [c0] + ([c1] + ([c2] + ([c3] + rest)))
  {
  }

  lemma Snoc3(out: seq<Byte>, x: Byte, y: Byte, z: Byte)
    ensures out + [x] + [y] == out + [x, y] && out + [x] + [y] + [z] == out + [x, y, z]
  {
  }

  /** Four characters read from a byte boundary give three bytes and end on a byte boundary. */
  lemma RunGroup(s: State, c0: Byte, c1: Byte, c2: Byte, c3: Byte, v0: Byte, v1: Byte, v2: Byte, v3: Byte,
                 a0: Alphabet, a1: Alphabet, a2: Alphabet, a3: Alphabet, rest: seq<Byte>)
    requires s.bits == 0 && Value(s.alphabet, c0) == Ok((v0, a0)) && Value(a0, c1) == Ok((v1, a1))
    requires Value(a1, c2) == Ok((v2, a2)) && Value(a2, c3) == Ok((v3, a3))
    ensures Run(s, [c0, c1, c2, c3] + rest)
            == Run(State(v3, 0, a3, s.out + [Joined(v0, v1, 6), Joined(v1, v2, 4), Joined(v2, v3, 2)]), rest)
  {
    hide Value, Joined, Run;
    var x, y, z := Joined(v0, v1, 6), Joined(v1, v2, 4), Joined(v2, v3, 2);
    Snoc3(s.out, x, y, z);
    Cons4(c0, c1, c2, c3, rest);
    RunOne(s, c0, v0, a0, [c1] + ([c2] + ([c3] + rest)));
    RunOne(State(v0, 6, a0, s.out), c1, v1, a1, [c2] + ([c3] + rest));
    RunOne(State(v1, 4, a1, s.out + [x]), c2, v2, a2, [c3] + rest);
    RunOne(State(v2, 2, a2, s.out + [x] + [y]), c3, v3, a3, rest);
  }

  /** Two or three characters at the end give one or two bytes. */
  lemma RunShort(s: State, text: seq<Byte>, c0: Byte, c1: Byte, c2: Byte, v0: Byte, v1: Byte, v2: Byte, a0: Alphabet,
                 a1: Alphabet, a2: Alphabet)
    requires s.bits == 0 && Value(s.alphabet, c0) == Ok((v0, a0)) && Value(a0, c1) == Ok((v1, a1))
    requires text == [c0, c1] || (text == [c0, c1, c2] && Value(a1, c2) == Ok((v2, a2)))
    ensures Run(s, text) ==
            if |text| == 2 then Ok(State(v1, 4, a1, s.out + [Joined(v0, v1, 6)]))
            else Ok(State(v2, 2, a2, s.out + [Joined(v0, v1, 6), Joined(v1, v2, 4)]))
  {
    var x, y := Joined(v0, v1, 6), Joined(v1, v2, 4);
    Snoc3(s.out, x, y, y);
    assert [c0, c1] == [c0] + ([c1] + []) && [c0, c1, c2] == [c0] + ([c1] + ([c2] + []));
    RunEnd(State(v1, 4, a1, s.out + [x]));
    RunEnd(State(v2, 2, a2, s.out + [x] + [y]));
    hide Value, Joined, Run;
    var tail := if |text| == 2 then [] else [c2] + [];
    RunOne(s, c0, v0, a0, [c1] + tail);
    RunOne(State(v0, 6, a0, s.out), c1, v1, a1, tail);
    if |text| == 3 {
      RunOne(State(v1, 4, a1, s.out + [x]), c2, v2, a2, []);
    }
  }

  lemma RunEnd(s: State)
    requires Phase(s.bits)
    ensures Run(s, []) == Ok(s)
  {
  }

  lemma DataGroup(c0: Byte, c1: Byte, c2: Byte, c3: Byte, rest: seq<Byte>)
    requires c0 != PAD && c1 != PAD && c2 != PAD && c3 != PAD
    ensures var text, m := [c0, c1, c2, c3] + rest, DataLength(rest);
            DataLength(text) == m + 4 && text[..m + 4] == [c0, c1, c2, c3] + rest[..m] && text[m + 4..] == rest[m..]
  {
    var text, m := [c0, c1, c2, c3] + rest, DataLength(rest);
    hide DataLength;
    assert text[..m + 4] == [c0, c1, c2, c3] + rest[..m];
    DataEndsAt(text, m + 4);
  }

  // ---------------------------------------------------------------- decoding an encoding

  /** Reading an encoding from a byte boundary appends the bytes that were encoded. */
  lemma {:induction false} RunEncoding(bytes: seq<Byte>, a: Alphabet, s: State)
    requires s.bits == 0 && (s.alphabet == Used(a) || s.alphabet == Auto)
    ensures var text := Encode(bytes, a);
            var n := DataLength(text);
            AllPad(text[n..]) && Run(s, text[..n]).Ok? && Run(s, text[..n]).value.out == s.out + bytes
    decreases |bytes|
  {
    var text := Encode(bytes, a);
    if bytes == [] {
      assert s.out + bytes == s.out;
    } else if |bytes| < 3 {
      ShortEncoding(bytes, a, s);
    } else {
      var i0, i1, i2, rest := bytes[0], bytes[1], bytes[2], bytes[3..];
      GroupEncoding(bytes, a);
      JoinBytes(i0, i1, i2);
      assert s.out + [i0, i1, i2] + rest == s.out + bytes;
      hide *;
      var v0, v1, v2, v3 := First(i0), Second(i0, i1), Third(i1, i2), Fourth(i2);
      var a0 := AfterAlpha(s.alphabet, a, v0);
      var a1 := AfterAlpha(a0, a, v1);
      var a2 := AfterAlpha(a1, a, v2);
      var a3 := AfterAlpha(a2, a, v3);
      var m := DataLength(Encode(rest, a));
      DataGroup(Alpha(a, v0), Alpha(a, v1), Alpha(a, v2), Alpha(a, v3), Encode(rest, a));
      RunGroup(s, Alpha(a, v0), Alpha(a, v1), Alpha(a, v2), Alpha(a, v3), v0, v1, v2, v3, a0, a1, a2, a3,
               Encode(rest, a)[..m]);
      RunEncoding(rest, a, State(v3, 0, a3, s.out + [i0, i1, i2]));
    }
  }

  /** The alphabet after reading an entry of the alphabet of `a`. */
  lemma AfterAlpha(b: Alphabet, a: Alphabet, v: Byte) returns (after: Alphabet)
    requires v < 64 && (b == Used(a) || b == Auto)
    ensures Alpha(a, v) != PAD && Value(b, Alpha(a, v)) == Ok((v, after)) && (after == Used(a) || after == Auto)
  {
    AlphaValue(a, b, v);
    after := Value(b, Alpha(a, v)).value.1;
  }

  lemma GroupEncoding(bytes: seq<Byte>, a: Alphabet)
    requires |bytes| >= 3
    ensures Encode(bytes, a) == [Alpha(a, First(bytes[0])), Alpha(a, Second(bytes[0], bytes[1])),
                                 Alpha(a, Third(bytes[1], bytes[2])), Alpha(a, Fourth(bytes[2]))]
                                     + Encode(bytes[3..], a)
  {
  }

  lemma ShortEncoding(bytes: seq<Byte>, a: Alphabet, s: State)
    requires 0 < |bytes| < 3 && s.bits == 0 && (s.alphabet == Used(a) || s.alphabet == Auto)
    ensures var text := Encode(bytes, a);
            var n := DataLength(text);
            && n == |bytes| + 1 && |text| == 4
            && AllPad(text[n..]) && Run(s, text[..n]).Ok? && Run(s, text[..n]).value.out == s.out + bytes
  {
    var i0, i1 := bytes[0], if |bytes| == 2 then bytes[1] else 0;
    var v0, v1, v2 := First(i0), Second(i0, i1), Third(i1, 0);
    ShortText(bytes, a, v0, v1, v2);
    JoinBytes(i0, i1, 0);
    assert bytes == if |bytes| == 1 then [i0] else [i0, i1];
    hide *;
    var a0 := AfterAlpha(s.alphabet, a, v0);
    var a1 := AfterAlpha(a0, a, v1);
    var a2 := AfterAlpha(a1, a, v2);
    RunShort(s, Encode(bytes, a)[..|bytes| + 1], Alpha(a, v0), Alpha(a, v1), Alpha(a, v2), v0, v1, v2, a0, a1, a2);
  }

  lemma ShortText(bytes: seq<Byte>, a: Alphabet, v0: Byte, v1: Byte, v2: Byte)
    requires 0 < |bytes| < 3 && var i1 := if |bytes| == 2 then bytes[1] else 0;
             v0 == First(bytes[0]) && v1 == Second(bytes[0], i1) && v2 == Third(i1, 0)
    ensures var text := Encode(bytes, a);
            && |text| == 4 && DataLength(text) == |bytes| + 1 && AllPad(text[|bytes| + 1..])
            && text[..|bytes| + 1] == if |bytes| == 1 then [Alpha(a, v0), Alpha(a, v1)]
               else [Alpha(a, v0), Alpha(a, v1), Alpha(a, v2)]
  {
    var text := Encode(bytes, a);
    AlphaValue(a, Auto, v0);
    AlphaValue(a, Auto, v1);
    AlphaValue(a, Auto, v2);
    assert |bytes| == 2 ==> text == [Alpha(a, v0), Alpha(a, v1), Alpha(a, v2), PAD];
    assert |bytes| == 1 ==> text == [Alpha(a, v0), Alpha(a, v1), PAD, PAD];
    hide Encode, Value, Alpha, First, Second, Third, DataLength;
    assert text[..|bytes| + 1] == if |bytes| == 1 then [Alpha(a, v0), Alpha(a, v1)]
        else [Alpha(a, v0), Alpha(a, v1), Alpha(a, v2)];
    DataEndsAt(text, |bytes| + 1);
  }

  /** Decoding any encoding gives the bytes back, with the alphabet it was made with or automatically. */
  lemma RoundTrip(bytes: seq<Byte>, a: Alphabet, b: Alphabet, behavior: Behavior)
    requires b == Used(a) || b == Auto
    ensures Decode(Encode(bytes, a), b, behavior) == Ok(bytes)
  {
    RunEncoding(bytes, a, Start(b));
    assert [] + bytes == bytes;
  }

  // ---------------------------------------------------------------- encoding what was decoded

  /** Section 3.5 of RFC 4648: whole groups, no more padding than needed, and no bits left over. */
  predicate Canonical(text: seq<Byte>, a: Alphabet) {
    var n := DataLength(text);
    && |text| % 4 == 0 && |text| - n <= 2 && AllPad(text[n..])
    && (n % 4 == 2 ==> LastBits(text, n, a, 0xf))
    && (n % 4 == 3 ==> LastBits(text, n, a, 0x3))
  }

  /** The last data character has none of the bits of `mask`. */
  predicate LastBits(text: seq<Byte>, n: nat, a: Alphabet, mask: Byte)
    requires 0 < n <= |text|
  {
    Value(a, text[n - 1]).Ok? && Value(a, text[n - 1]).value.0 & mask == 0
  }

  /** With a settled alphabet, a character that is read has its one value. */
  lemma ReadsOne(s: State, c: Byte, rest: seq<Byte>) returns (v: Byte)
    requires Phase(s.bits) && s.alphabet != Auto && Run(s, [c] + rest).Ok?
    ensures v < 64 && Value(s.alphabet, c) == Ok((v, s.alphabet)) && Alpha(s.alphabet, v) == c
  {
    assert ([c] + rest)[0] == c;
    ValueAlpha(s.alphabet, c);
    v := Value(s.alphabet, c).value.0;
  }

  lemma ReadsGroup(s: State, c0: Byte, c1: Byte, c2: Byte, c3: Byte, rest: seq<Byte>)
    returns (v0: Byte, v1: Byte, v2: Byte, v3: Byte)
    requires s.bits == 0 && s.alphabet != Auto && Run(s, [c0, c1, c2, c3] + rest).Ok?
    ensures v0 < 64 && v1 < 64 && v2 < 64 && v3 < 64
    ensures var a := s.alphabet;
            && c0 == Alpha(a, v0) && c1 == Alpha(a, v1) && c2 == Alpha(a, v2) && c3 == Alpha(a, v3)
            && Run(s, [c0, c1, c2, c3] + rest) == Run(State(v3, 0, a, s.out
                                                            + [Joined(v0, v1, 6), Joined(v1, v2, 4),
                                                               Joined(v2, v3, 2)]), rest)
  {
    Cons4(c0, c1, c2, c3, rest);
    var a := s.alphabet;
    hide Value, Joined, Run, Alpha;
    v0 := ReadsOne(s, c0, [c1] + ([c2] + ([c3] + rest)));
    RunOne(s, c0, v0, a, [c1] + ([c2] + ([c3] + rest)));
    var s1 := State(v0, 6, a, s.out);
    v1 := ReadsOne(s1, c1, [c2] + ([c3] + rest));
    RunOne(s1, c1, v1, a, [c2] + ([c3] + rest));
    var s2 := State(v1, 4, a, s.out + [Joined(v0, v1, 6)]);
    v2 := ReadsOne(s2, c2, [c3] + rest);
    RunOne(s2, c2, v2, a, [c3] + rest);
    v3 := ReadsOne(State(v2, 2, a, s2.out + [Joined(v1, v2, 4)]), c3, rest);
    RunGroup(s, c0, c1, c2, c3, v0, v1, v2, v3, a, a, a, a, rest);
  }

  /** What encoding the bytes read from `text` gives, when the text is canonical. */
  ghost predicate Restores(text: seq<Byte>, a: Alphabet, s: State) {
    s.bits == 0 && var r := Run(s, text[..DataLength(text)]);
    r.Ok? && s.out <= r.value.out && Encode(r.value.out[|s.out|..], a) == text
  }

  lemma {:induction false} CanonicalRestores(text: seq<Byte>, a: Alphabet, s: State)
    requires a != Auto && s.alphabet == a && s.bits == 0 && Canonical(text, a) && Run(s, text[..DataLength(text)]).Ok?
    ensures Restores(text, a, s)
    decreases |text|
  {
    var n := DataLength(text);
    if text == [] {
    } else if n >= 4 {
      var c0, c1, c2, c3, rest := text[0], text[1], text[2], text[3], text[4..];
      FirstFour(text, n);
      hide Value, Joined, Alpha, First, Second, Third, Fourth, DataLength, Run, Encode, Restores, AllPad, Canonical;
      DataGroup(c0, c1, c2, c3, rest);
      var m := DataLength(rest);
      var v0, v1, v2, v3 := ReadsGroup(s, c0, c1, c2, c3, rest[..m]);
      var t := State(v3, 0, a, s.out + [Joined(v0, v1, 6), Joined(v1, v2, 4), Joined(v2, v3, 2)]);
      CanonicalRest(text, c0, c1, c2, c3, rest, a);
      CanonicalRestores(rest, a, t);
      RestoresGroup(text, rest, a, s, t, v0, v1, v2, v3);
    } else {
      ShortRestores(text, a, s);
    }
  }

  lemma FirstFour(text: seq<Byte>, n: nat)
    requires n == DataLength(text) >= 4
    ensures |text| >= 4 && text[0] != PAD && text[1] != PAD && text[2] != PAD && text[3] != PAD
    ensures text == [text[0], text[1], text[2], text[3]] + text[4..]
  {
    hide DataLength;
    assert text[..n][0] != PAD && text[..n][1] != PAD && text[..n][2] != PAD && text[..n][3] != PAD;
  }

  lemma CanonicalRest(text: seq<Byte>, c0: Byte, c1: Byte, c2: Byte, c3: Byte, rest: seq<Byte>, a: Alphabet)
    requires text == [c0, c1, c2, c3] + rest && DataLength(text) == DataLength(rest) + 4
             && text[DataLength(text)..] == rest[DataLength(rest)..]
    ensures Canonical(text, a) <==> Canonical(rest, a)
  {
    hide Value, DataLength, AllPad;
    var n, m := DataLength(text), DataLength(rest);
    assert n % 4 == m % 4;
    assert m > 0 ==> text[n - 1] == rest[m - 1];
  }

  lemma RestoresGroup(text: seq<Byte>, rest: seq<Byte>, a: Alphabet, s: State, t: State, v0: Byte, v1: Byte, v2: Byte,
                      v3: Byte)
    requires s.bits == 0 && v0 < 64 && v1 < 64 && v2 < 64 && v3 < 64 && Restores(rest, a, t)
    requires t.out == s.out + [Joined(v0, v1, 6), Joined(v1, v2, 4), Joined(v2, v3, 2)]
    requires text == [Alpha(a, v0), Alpha(a, v1), Alpha(a, v2), Alpha(a, v3)] + rest
    requires Run(s, text[..DataLength(text)]) == Run(t, rest[..DataLength(rest)])
    ensures Restores(text, a, s)
  {
    SplitValues(v0, v1, v2, v3);
    var out := Run(t, rest[..DataLength(rest)]).value.out;
    var x, y, z := Joined(v0, v1, 6), Joined(v1, v2, 4), Joined(v2, v3, 2);
    hide Value, Joined, Alpha, First, Second, Third, Fourth, DataLength, Run, Encode;
    ThreeThenRest(out, s.out, t.out, x, y, z);
    GroupEncoding(out[|s.out|..], a);
  }

  lemma ThreeThenRest(out: seq<Byte>, before: seq<Byte>, after: seq<Byte>, x: Byte, y: Byte, z: Byte)
    requires after == before + [x, y, z] && after <= out
    ensures before <= out
    ensures var bytes := out[|before|..];
            |bytes| >= 3 && bytes[0] == x && bytes[1] == y && bytes[2] == z && bytes[3..] == out[|after|..]
  {
    assert out[|before|] == after[|before|] && out[|before| + 1] == after[|before| + 1]
        && out[|before| + 2] == after[|before| + 2];
  }

  lemma ShortRestores(text: seq<Byte>, a: Alphabet, s: State)
    requires a != Auto && s.alphabet == a && s.bits == 0 && Canonical(text, a) && text != []
    requires DataLength(text) < 4 && Run(s, text[..DataLength(text)]).Ok?
    ensures Restores(text, a, s)
  {
    var n := DataLength(text);
    ShortShape(text, n, a);
    var c0, c1, c2 := text[0], text[1], text[2];
    assert text[..n] == if n == 2 then [c0] + ([c1] + []) else [c0] + ([c1] + ([c2] + []));
    assert [c0] + ([c1] + []) == [c0, c1] && [c0] + ([c1] + ([c2] + [])) == [c0, c1, c2];
    hide Value, Joined, Alpha, DataLength, Run, Encode, Restores, AllPad, Canonical, First, Second, Third, LastBits;
    var tail := if n == 2 then [] else [c2] + [];
    var v0 := ReadsOne(s, c0, [c1] + tail);
    RunOne(s, c0, v0, a, [c1] + tail);
    var v1 := ReadsOne(State(v0, 6, a, s.out), c1, tail);
    RunOne(State(v0, 6, a, s.out), c1, v1, a, tail);
    var v2: Byte := 0;
    if n == 3 {
      v2 := ReadsOne(State(v1, 4, a, s.out + [Joined(v0, v1, 6)]), c2, []);
    }
    RunShort(s, text[..n], c0, c1, c2, v0, v1, v2, a, a, a);
    ShortRestored(text, n, a, s, v0, v1, v2);
  }

  lemma ShortShape(text: seq<Byte>, n: nat, a: Alphabet)
    requires Canonical(text, a) && text != [] && n == DataLength(text) < 4
    ensures |text| == 4 && (n == 2 || n == 3) && text[3] == PAD
            && (n == 2 ==> text[2] == PAD && LastBits(text, 2, a, 0xf)) && (n == 3 ==> LastBits(text, 3, a, 0x3))
  {
    hide Value, DataLength, LastBits;
    assert text[n..][|text| - n - 1] == PAD && text[n..][0] == PAD;
  }

  lemma ShortRestored(text: seq<Byte>, n: nat, a: Alphabet, s: State, v0: Byte, v1: Byte, v2: Byte)
    requires (n == 2 || n == 3) && |text| == 4 && n == DataLength(text) && s.bits == 0 && v0 < 64 && v1 < 64 && v2 < 64
             && a != Auto
    requires text[0] == Alpha(a, v0) && text[1] == Alpha(a, v1) && text[3] == PAD
    requires n == 2 ==> text[2] == PAD && LastBits(text, 2, a, 0xf)
    requires n == 3 ==> text[2] == Alpha(a, v2) && LastBits(text, 3, a, 0x3)
    requires Run(s, text[..n]).Ok? && Run(s, text[..n]).value.out == s.out + if n == 2 then [Joined(v0, v1, 6)]
             else [Joined(v0, v1, 6), Joined(v1, v2, 4)]
    ensures Restores(text, a, s)
  {
    hide Value, Joined, Alpha, First, Second, Third, Fourth, DataLength, Run;
    AlphaValue(a, a, v1);
    AlphaValue(a, a, v2);
    SplitShort(v0, v1, v2);
    SplitValues(v0, v1, v2, 0);
    var out := Run(s, text[..n]).value.out;
    assert out[|s.out|..] == if n == 2 then [Joined(v0, v1, 6)] else [Joined(v0, v1, 6), Joined(v1, v2, 4)];
  }

  /** Every encoding is canonical. */
  lemma {:induction false} EncodingIsCanonical(bytes: seq<Byte>, a: Alphabet)
    requires a != Auto
    ensures Canonical(Encode(bytes, a), a)
    decreases |bytes|
  {
    if bytes == [] {
    } else if |bytes| < 3 {
      ShortIsCanonical(bytes, a);
    } else {
      EncodingIsCanonical(bytes[3..], a);
      GroupEncoding(bytes, a);
      hide Encode, First, Second, Third, Fourth, Value, DataLength, Canonical;
      var c0, c1, c2, c3 := Alpha(a, First(bytes[0])), Alpha(a, Second(bytes[0], bytes[1])),
          Alpha(a, Third(bytes[1], bytes[2])), Alpha(a, Fourth(bytes[2]));
      hide Alpha;
      AlphaValue(a, a, First(bytes[0]));
      AlphaValue(a, a, Second(bytes[0], bytes[1]));
      AlphaValue(a, a, Third(bytes[1], bytes[2]));
      AlphaValue(a, a, Fourth(bytes[2]));
      DataGroup(c0, c1, c2, c3, Encode(bytes[3..], a));
      CanonicalRest(Encode(bytes, a), c0, c1, c2, c3, Encode(bytes[3..], a), a);
    }
  }

  lemma ShortIsCanonical(bytes: seq<Byte>, a: Alphabet)
    requires a != Auto && 0 < |bytes| < 3
    ensures Canonical(Encode(bytes, a), a)
  {
    var i1 := if |bytes| == 2 then bytes[1] else 0;
    var v0, v1, v2 := First(bytes[0]), Second(bytes[0], i1), Third(i1, 0);
    ShortText(bytes, a, v0, v1, v2);
    AlphaValue(a, a, v1);
    AlphaValue(a, a, v2);
    ZeroBits(bytes[0], i1);
    var text := Encode(bytes, a);
    assert text[|bytes|] == text[..|bytes| + 1][|bytes|];
    hide Encode, First, Second, Third, Value, DataLength, Alpha, AllPad;
  }

  lemma ZeroBits(i0: Byte, i1: Byte)
    ensures Second(i0, 0) & 0xf == 0 && Third(i1, 0) & 0x3 == 0
  {
  }

  /** Text that decodes comes back from encoding exactly when it is canonical. */
  lemma Reencodes(text: seq<Byte>, a: Alphabet, behavior: Behavior)
    requires a != Auto && Decode(text, a, behavior).Ok?
    ensures Encode(Decode(text, a, behavior).value, a) == text <==> Canonical(text, a)
  {
    var bytes := Decode(text, a, behavior).value;
    if Canonical(text, a) {
      CanonicalRestores(text, a, Start(a));
    }
    EncodingIsCanonical(bytes, a);
  }

  // ---------------------------------------------------------------- the automatic alphabet

  /** The first special character settles the alphabet; until then both alphabets read alike. */
  lemma {:induction false} AutoRun(s: State, std: State, url: State, text: seq<Byte>)
    requires Phase(s.bits) && s.alphabet == Auto && std == s.(alphabet := Standard) && url == s.(alphabet := UrlSafe)
    ensures Run(s, text).Ok? <==> Run(std, text).Ok? || Run(url, text).Ok?
    ensures Run(std, text).Ok? ==> Run(s, text).Ok? && Run(s, text).value.out == Run(std, text).value.out
    ensures Run(url, text).Ok? ==> Run(s, text).Ok? && Run(s, text).value.out == Run(url, text).value.out
    decreases |text|
  {
    hide Value, Joined;
    if text != [] {
      var c := text[0];
      AutoValue(c);
      var v := Value(Auto, c);
      if v.Ok? && v.value.1 == Auto {
        AutoRun(Step(s, c).value, Step(std, c).value, Step(url, c).value, text[1..]);
      }
    }
  }

  lemma AutoValue(c: Byte)
    ensures var v := Value(Auto, c);
            && (v.Err? ==> Value(Standard, c).Err? && Value(UrlSafe, c).Err?)
            && (v.Ok? && v.value.1 == Auto ==>
                Value(Standard, c) == Ok((v.value.0, Standard)) && Value(UrlSafe, c) == Ok((v.value.0, UrlSafe)))
            && (v.Ok? && v.value.1 == Standard ==> Value(Standard, c) == v && Value(UrlSafe, c).Err?)
            && (v.Ok? && v.value.1 == UrlSafe ==> Value(UrlSafe, c) == v && Value(Standard, c).Err?)
  {
  }

  /** Automatic decoding succeeds exactly when one of the alphabets does, with that result. */
  lemma AutoIsEither(text: seq<Byte>, behavior: Behavior)
    ensures Decode(text, Auto, behavior) == if Decode(text, Standard, behavior).Ok?
            then Decode(text, Standard, behavior) else Decode(text, UrlSafe, behavior)
    ensures Decode(text, Standard, behavior).Ok? && Decode(text, UrlSafe, behavior).Ok? ==>
            Decode(text, Standard, behavior) == Decode(text, UrlSafe, behavior)
  {
    var n := DataLength(text);
    AutoRun(Start(Auto), Start(Standard), Start(UrlSafe), text[..n]);
    hide Run, DataLength, AllPad;
    var auto, url := Decode(text, Auto, behavior), Decode(text, UrlSafe, behavior);
    if auto.Err? && url.Err? {
      OneError(auto.error, url.error);
    }
  }

  lemma OneError(e: Error, f: Error)
    ensures e == f
  {
  }

  // ---------------------------------------------------------------- sizes

  lemma {:induction false} EncodedSize(bytes: seq<Byte>, a: Alphabet)
    ensures |Encode(bytes, a)| == RequiredEncodeSize(|bytes|)
    decreases |bytes|
  {
    if |bytes| >= 3 {
      EncodedSize(bytes[3..], a);
    }
  }

  /** Decoding writes a byte for every eight bits of data, never more than the announced maximum. */
  lemma DecodedSize(text: seq<Byte>, a: Alphabet, behavior: Behavior)
    requires Decode(text, a, behavior).Ok?
    ensures |Decode(text, a, behavior).value| == 3 * DataLength(text) / 4 <= MaxDecodeSize(|text|)
  {
    var n := DataLength(text);
    Written(Start(a), text[..n], 0);
    assert |text[..n]| == n <= |text|;
    Quarters(n, |text|);
  }

  lemma Quarters(n: nat, m: nat)
    requires n <= m
    ensures 3 * n / 4 <= MaxDecodeSize(m)
  {
    var q, r := m / 4, m % 4;
    assert m == 4 * q + r;
    assert 3 * n <= 3 * (4 * q + r);
    if r == 0 {
      assert 3 * n / 4 <= 12 * q / 4;
    } else {
      assert 3 * n / 4 <= (12 * q + 9) / 4;
    }
  }

  /** The announced maximum is three bytes for each group of four characters, the last one whole or not. */
  lemma MaximumIsLeast(size: nat, groups: nat)
    ensures 3 * groups >= MaxDecodeSize(size) <==> 4 * groups >= size
  {
    var q, r := size / 4, size % 4;
    assert size == 4 * q + r;
  }
}
