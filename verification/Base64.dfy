/**
 Base64 (common/base64.hpp): encoding and decoding with the standard and the URL-safe alphabet of
 RFC 4648, sections 4 and 5. Characters and bytes are 8-bit words.
 */
module Base64 {
  import opened Wrappers

  type Byte = bv8

  datatype Alphabet = Auto | Standard | UrlSafe

  datatype Behavior = Moderate | Loose

  datatype Error = InvalidCharacter

  const PAD: Byte := 61
  const PLUS: Byte := 43
  const SLASH: Byte := 47
  const MINUS: Byte := 45
  const UNDERSCORE: Byte := 95

  // ---------------------------------------------------------------- the alphabets

  /** Entry `i` of the encoding table: letters, digits and the two that depend on the alphabet. */
  function Alpha(a: Alphabet, i: Byte): Byte
    requires i < 64
  {
    if i < 26 then i + 65
    else if i < 52 then i + 71
    else if i < 62 then i - 4
    else if i == 62 then (if a == UrlSafe then MINUS else PLUS)
    else (if a == UrlSafe then UNDERSCORE else SLASH)
  }

  /** The value of a character, and the alphabet from then on: the first special character settles `Auto`. */
  function Value(a: Alphabet, c: Byte): (r: Result<(Byte, Alphabet), Error>)
    ensures r.Ok? ==> r.value.0 < 64
  {
    if 65 <= c <= 90 then Ok((c - 65, a))
    else if 97 <= c <= 122 then Ok((c - 71, a))
    else if 48 <= c <= 57 then Ok((c + 4, a))
    else if c == PLUS && a != UrlSafe then Ok((62, Standard))
    else if c == SLASH && a != UrlSafe then Ok((63, Standard))
    else if c == MINUS && a != Standard then Ok((62, UrlSafe))
    else if c == UNDERSCORE && a != Standard then Ok((63, UrlSafe))
    else Err(InvalidCharacter)
  }

  /** _base64_value, which may change the alphabet it is given. */
  method Base64Value(alphabet: Alphabet, c: Byte) returns (r: Result<Byte, Error>, after: Alphabet)
    ensures match Value(alphabet, c)
            case Err(e) => r == Err(e)
            case Ok((v, a)) => r == Ok(v) && after == a
  {
    after := alphabet;
    if c >= 65 && c <= 90 {
      return Ok(c - 65), after;
    } else if c >= 97 && c <= 122 {
      return Ok(c - 97 + 26), after;
    } else if c >= 48 && c <= 57 {
      return Ok(c - 48 + 52), after;
    }
    match alphabet {
    case Standard =>
      if c == PLUS {
        return Ok(62), after;
      } else if c == SLASH {
        return Ok(63), after;
      }
    case UrlSafe =>
      if c == MINUS {
        return Ok(62), after;
      } else if c == UNDERSCORE {
        return Ok(63), after;
      }
    case Auto =>
      if c == PLUS {
        return Ok(62), Standard;
      } else if c == SLASH {
        return Ok(63), Standard;
      } else if c == MINUS {
        return Ok(62), UrlSafe;
      } else if c == UNDERSCORE {
        return Ok(63), UrlSafe;
      }
    }
    r := Err(InvalidCharacter);
  }

  // ---------------------------------------------------------------- encoding

  function First(i0: Byte): (v: Byte)
    ensures v < 64
  {
    (i0 >> 2) & 0x3f
  }

  function Second(i0: Byte, i1: Byte): (v: Byte)
    ensures v < 64
  {
    ((i0 & 0x3) << 4) | ((i1 >> 4) & 0x0f)
  }

  function Third(i1: Byte, i2: Byte): (v: Byte)
    ensures v < 64
  {
    ((i1 & 0xf) << 2) | ((i2 >> 6) & 0x03)
  }

  function Fourth(i2: Byte): (v: Byte)
    ensures v < 64
  {
    i2 & 0x3f
  }

  /** Section 4 of RFC 4648: three bytes give four characters, and a short last group is padded. */
  function Encode(s: seq<Byte>, a: Alphabet): (r: seq<Byte>) {
    if s == [] then []
    else if |s| == 1 then [Alpha(a, First(s[0])), Alpha(a, Second(s[0], 0)), PAD, PAD]
    else if |s| == 2 then [Alpha(a, First(s[0])), Alpha(a, Second(s[0], s[1])), Alpha(a, Third(s[1], 0)), PAD]
    else
      [Alpha(a, First(s[0])), Alpha(a, Second(s[0], s[1])), Alpha(a, Third(s[1], s[2])), Alpha(a, Fourth(s[2]))]
      + Encode(s[3..], a)
  }

  function RequiredEncodeSize(size: nat): nat {
    (size / 3 + (if size % 3 != 0 then 1 else 0)) * 4
  }

  function MaxDecodeSize(size: nat): nat {
    (size / 4 + (if size % 4 != 0 then 1 else 0)) * 3
  }

  /** base64::encode into a string. */
  method EncodeBytes(s: seq<Byte>, alphabet: Alphabet) returns (out: seq<Byte>)
    ensures out == Encode(s, alphabet)
  {
    hide Alpha, First, Second, Third, Fourth, Encode;
    out := [];
    var i := 0;
    assert s[0..] == s;
    while i < |s|
      invariant 0 <= i <= |s|
      invariant Encode(s, alphabet) == out + Encode(s[i..], alphabet)
    {
      EncodeFront(s, i, alphabet);
      ghost var before := out;
      var i0 := s[i];
      i := i + 1;
      out := out + [Alpha(alphabet, First(i0))];
      if i == |s| {
        NoSecond(i0);
        out := out + [Alpha(alphabet, (i0 & 0x3) << 4)];
        out := out + [PAD];
        out := out + [PAD];
        Regroup(before, Alpha(alphabet, First(i0)), Alpha(alphabet, Second(i0, 0)), PAD, PAD, []);
        EncodeNothing(s, alphabet);
        break;
      }
      var i1 := s[i];
      i := i + 1;
      out := out + [Alpha(alphabet, Second(i0, i1))];
      if i == |s| {
        NoThird(i1);
        out := out + [Alpha(alphabet, (i1 & 0xf) << 2)];
        out := out + [PAD];
        Regroup(before, Alpha(alphabet, First(i0)), Alpha(alphabet, Second(i0, i1)), Alpha(alphabet, Third(i1, 0)), PAD,
                []);
        EncodeNothing(s, alphabet);
        break;
      }
      var i2 := s[i];
      i := i + 1;
      out := out + [Alpha(alphabet, Third(i1, i2))];
      out := out + [Alpha(alphabet, Fourth(i2))];
      Regroup(before, Alpha(alphabet, First(i0)), Alpha(alphabet, Second(i0, i1)), Alpha(alphabet, Third(i1, i2)),
              Alpha(alphabet, Fourth(i2)), Encode(s[i..], alphabet));
    }
    EncodeNothing(s, alphabet);
  }

  lemma EncodeNothing(s: seq<Byte>, a: Alphabet)
    ensures Encode(s[|s|..], a) == []
  {
  }

  lemma Regroup(before: seq<Byte>, w: Byte, x: Byte, y: Byte, z: Byte, rest: seq<Byte>)
    ensures before + [w] + [x] + [y] + [z] + rest == before + ([w, x, y, z] + rest)
  {
  }

  /** The next group of what is left to encode. */
  lemma EncodeFront(s: seq<Byte>, i: nat, a: Alphabet)
    requires i < |s|
    ensures Encode(s[i..], a) ==
            if i + 1 == |s| then [Alpha(a, First(s[i])), Alpha(a, Second(s[i], 0)), PAD, PAD] + []
            else if i + 2 == |s| then [Alpha(a, First(s[i])), Alpha(a, Second(s[i], s[i + 1])),
                                       Alpha(a, Third(s[i + 1], 0)), PAD] + []
            else [Alpha(a, First(s[i])), Alpha(a, Second(s[i], s[i + 1])), Alpha(a, Third(s[i + 1], s[i + 2])),
                  Alpha(a, Fourth(s[i + 2]))] + Encode(s[i + 3..], a)
  {
    hide Alpha, First, Second, Third, Fourth;
    var t := s[i..];
    if |t| >= 3 {
      assert t[3..] == s[i + 3..];
    }
  }

  lemma NoSecond(i0: Byte)
    ensures Second(i0, 0) == (i0 & 0x3) << 4
  {
  }

  lemma NoThird(i1: Byte)
    ensures Third(i1, 0) == (i1 & 0xf) << 2
  {
  }

  // ---------------------------------------------------------------- decoding

  datatype State = State(last: Byte, bits: nat, alphabet: Alphabet, out: seq<Byte>)

  function Start(a: Alphabet): State {
    State(0, 0, a, [])
  }

  predicate Phase(bits: nat) {
    bits == 0 || bits == 2 || bits == 4 || bits == 6
  }

  /** The byte made of what is left of the last character and the beginning of this one. */
  function Joined(last: Byte, part: Byte, bits: nat): Byte
    requires bits == 2 || bits == 4 || bits == 6
  {
    (last << (8 - bits)) | (part >> (bits - 2))
  }

  function Step(s: State, c: Byte): (r: Result<State, Error>)
    requires Phase(s.bits)
    ensures r.Ok? ==> Phase(r.value.bits)
  {
    match Value(s.alphabet, c)
    case Err(e) => Err(e)
    case Ok((part, a)) =>
      if s.bits + 6 >= 8 then Ok(State(part, s.bits - 2, a, s.out + [Joined(s.last, part, s.bits)]))
      else Ok(State(part, s.bits + 6, a, s.out))
  }

  function Run(s: State, text: seq<Byte>): (r: Result<State, Error>)
    requires Phase(s.bits)
    ensures r.Ok? ==> Phase(r.value.bits)
    decreases |text|
  {
    if text == [] then Ok(s)
    else
      match Step(s, text[0])
      case Err(e) => Err(e)
      case Ok(s') => Run(s', text[1..])
  }

  /** Where the data ends: at the first padding character. */
  function DataLength(text: seq<Byte>): (n: nat)
    ensures n <= |text| && PAD !in text[..n] && (n < |text| ==> text[n] == PAD)
  {
    if text == [] || text[0] == PAD then 0
    else
      var n := DataLength(text[1..]);
      assert text[..n + 1] == [text[0]] + text[1..][..n];
      1 + n
  }

  predicate AllPad(text: seq<Byte>) {
    forall i :: 0 <= i < |text| ==> text[i] == PAD
  }

  function Decode(text: seq<Byte>, a: Alphabet, b: Behavior): Result<seq<Byte>, Error> {
    var n := DataLength(text);
    match Run(Start(a), text[..n])
    case Err(e) => Err(e)
    case Ok(s) => if b == Loose || AllPad(text[n..]) then Ok(s.out) else Err(InvalidCharacter)
  }

  lemma DataEndsAt(text: seq<Byte>, n: nat)
    requires n <= |text| && PAD !in text[..n] && (n < |text| ==> text[n] == PAD)
    ensures n == DataLength(text)
  {
  }

  /** base64::decode into a fresh string. */
  method DecodeText(text: seq<Byte>, alphabet: Alphabet, behavior: Behavior) returns (r: Result<seq<Byte>, Error>)
    ensures r == Decode(text, alphabet, behavior)
  {
    hide Value, Joined, Run, DataLength, AllPad;
    var last: Byte, bits: nat, a, out := 0, 0, alphabet, [];
    var pos := 0;
    ghost var n := DataLength(text);
    ghost var data := text[..n];
    assert data[0..] == data;
    while pos < |text| && text[pos] != PAD
      invariant 0 <= pos <= n && Phase(bits)
      invariant Run(Start(alphabet), data) == Run(State(last, bits, a, out), data[pos..])
    {
      var c := text[pos];
      RunStep(Start(alphabet), data, State(last, bits, a, out), pos);
      var part, after := Base64Value(a, c);
      if part.Err? {
        return Err(part.error);
      }
      if bits + 6 >= 8 {
        out := out + [Joined(last, part.value, bits)];
        bits := bits - 2;
      } else {
        bits := bits + 6;
      }
      a := after;
      last := part.value;
      pos := pos + 1;
    }
    assert pos == n;
    RunDone(Start(alphabet), data, State(last, bits, a, out));
    if behavior != Loose {
      var ok := AllPadding(text, pos);
      if !ok {
        return Err(InvalidCharacter);
      }
    }
    return Ok(out);
  }

  /** Only padding after the data: the check that `loose` leaves out. */
  method AllPadding(text: seq<Byte>, from: nat) returns (ok: bool)
    requires from <= |text|
    ensures ok == AllPad(text[from..])
  {
    var pos := from;
    while pos < |text|
      invariant from <= pos <= |text| && forall i :: from <= i < pos ==> text[i] == PAD
    {
      if text[pos] != PAD {
        assert text[from..][pos - from] != PAD;
        return false;
      }
      pos := pos + 1;
    }
    return true;
  }

  /** The bytes written after `i` characters, and the bits that are left over. */
  function BytesAfter(i: nat): nat {
    3 * i / 4
  }

  function BitsAfter(i: nat): nat {
    (6 * i) % 8
  }

  /** One more character: six more bits, and a byte whenever eight are there. */
  lemma Counted(i: nat)
    ensures BytesAfter(i + 1) == BytesAfter(i) + (if BitsAfter(i) + 6 >= 8 then 1 else 0)
    ensures BitsAfter(i + 1) == (if BitsAfter(i) + 6 >= 8 then BitsAfter(i) - 2 else BitsAfter(i) + 6)
    ensures BytesAfter(i) <= i && (BitsAfter(i) + 6 >= 8 ==> BytesAfter(i) < i)
  {
    var q, r := i / 4, i % 4;
    if r == 0 {
      CountedAt(q);
    } else if r == 1 {
      CountedAt(q);
    } else if r == 2 {
      CountedAt(q);
    } else {
      CountedAt(q);
    }
  }

  /** The counts repeat after four characters. */
  lemma CountedAt(q: nat)
    ensures BytesAfter(4 * q) == 3 * q && BytesAfter(4 * q + 1) == 3 * q
    ensures BytesAfter(4 * q + 2) == 3 * q + 1 && BytesAfter(4 * q + 3) == 3 * q + 2
            && BytesAfter(4 * q + 4) == 3 * q + 3
    ensures BitsAfter(4 * q) == 0 && BitsAfter(4 * q + 1) == 6
    ensures BitsAfter(4 * q + 2) == 4 && BitsAfter(4 * q + 3) == 2 && BitsAfter(4 * q + 4) == 0
  {
  }

  /** Reading one more character of the data. */
  lemma RunStep(start: State, data: seq<Byte>, cur: State, pos: nat)
    requires Phase(start.bits) && Phase(cur.bits) && pos < |data| && Run(start, data) == Run(cur, data[pos..])
    ensures Run(start, data) == match Step(cur, data[pos]) case Err(e) => Err(e) case Ok(s) => Run(s, data[pos + 1..])
  {
    hide Step;
    assert data[pos..][0] == data[pos] && data[pos..][1..] == data[pos + 1..];
  }

  lemma RunDone(start: State, data: seq<Byte>, cur: State)
    requires Phase(start.bits) && Phase(cur.bits) && Run(start, data) == Run(cur, data[|data|..])
    ensures Run(start, data) == Ok(cur)
  {
  }

  /** The same check on an array. */
  method OnlyPadding(str: array<Byte>, from: nat) returns (ok: bool)
    requires from <= str.Length
    ensures ok == AllPad(str[from..])
  {
    var pos := from;
    while pos < str.Length
      invariant from <= pos <= str.Length && forall i :: from <= i < pos ==> str[i] == PAD
    {
      if str[pos] != PAD {
        assert str[from..][pos - from] != PAD;
        return false;
      }
      pos := pos + 1;
    }
    return true;
  }

  /** Characters read against bytes written: floor(3i/4), with what is left over in `bits`. */
  lemma {:induction false} Written(s: State, text: seq<Byte>, i: nat)
    requires Phase(s.bits) && |s.out| == BytesAfter(i) && s.bits == BitsAfter(i) && Run(s, text).Ok?
    ensures |Run(s, text).value.out| == BytesAfter(i + |text|) && Run(s, text).value.bits == BitsAfter(i + |text|)
    decreases |text|
  {
    hide Value, Joined, BytesAfter, BitsAfter;
    if text != [] {
      Counted(i);
      Written(Step(s, text[0]).value, text[1..], i + 1);
    }
  }

  /** The reading loop of base64::decode on one array: it stops at padding or at the end. */
  method DecodeDataInplace(str: array<Byte>, alphabet: Alphabet) returns (r: Result<nat, Error>, pos: nat)
    modifies str
    ensures var text := old(str[..]);
            var n := DataLength(text);
            match Run(Start(alphabet), text[..n])
            case Err(e) => r == Err(e)
            case Ok(s) => r == Ok(|s.out|) && pos == n && |s.out| == BytesAfter(n) <= n && InPlace(text, str[..], s.out)
  {
    ghost var text, buffer := str[..], str[..];
    ghost var state := Start(alphabet);
    var last: Byte, bits: nat, a := 0, 0, alphabet;
    var out := 0;
    pos := 0;
    ReadNothing(text, alphabet);
    hide *;
    while pos < str.Length && str[pos] != PAD
      invariant 0 <= pos <= str.Length == |text| && Phase(bits)
      invariant state == State(last, bits, a, state.out) && out == |state.out| <= pos
      invariant buffer == str[..] && Reading(text, buffer, alphabet, state, pos)
    {
      var c := str[pos];
      Unread(text, buffer, alphabet, state, pos);
      var part, after := Base64Value(a, c);
      if part.Err? {
        ReadFails(text, buffer, alphabet, state, pos, part.error);
        return Err(part.error), pos;
      }
      ReadOne(text, buffer, alphabet, state, pos, part.value, after);
      state := Step(state, c).value;
      pos := pos + 1;
      if bits + 6 >= 8 {
        buffer := buffer[out := Joined(last, part.value, bits)];
        str[out] := Joined(last, part.value, bits);
        assert state == State(part.value, bits - 2, after, state.out) && |state.out| == out + 1 <= pos
            && Phase(bits - 2);
        assert buffer == str[..] && Reading(text, buffer, alphabet, state, pos);
        out := out + 1;
        bits := bits - 2;
      } else {
        assert state == State(part.value, bits + 6, after, state.out) && |state.out| == out <= pos && Phase(bits + 6);
        bits := bits + 6;
      }
      a := after;
      last := part.value;
    }
    ReadAll(text, buffer, alphabet, state, pos);
    return Ok(out), pos;
  }

  /** The reading loop's invariant: what was read gave `s`, whose bytes stand before the text's own. */
  ghost predicate Reading(text: seq<Byte>, buffer: seq<Byte>, a: Alphabet, s: State, pos: nat) {
    var n := DataLength(text);
    && pos <= n && Phase(s.bits) && |s.out| == BytesAfter(pos) <= pos && s.bits == BitsAfter(pos)
    && InPlace(text, buffer, s.out) && Run(Start(a), text[..n]) == Run(s, text[..n][pos..])
  }

  lemma ReadNothing(text: seq<Byte>, a: Alphabet)
    ensures Reading(text, text, a, Start(a), 0) && Phase(0)
  {
    hide Run;
    assert text[..DataLength(text)][0..] == text[..DataLength(text)];
  }

  /** The next character is still the text's own, since no more was written than read. */
  lemma Unread(text: seq<Byte>, buffer: seq<Byte>, a: Alphabet, s: State, pos: nat)
    requires Reading(text, buffer, a, s, pos) && pos < |text|
    ensures pos < |buffer| && buffer[pos] == text[pos] && Phase(s.bits) && (text[pos] != PAD ==> pos < DataLength(text))
  {
    hide Run, BytesAfter, BitsAfter, DataLength;
    assert buffer[pos] == text[|s.out|..][pos - |s.out|];
  }

  lemma ReadFails(text: seq<Byte>, buffer: seq<Byte>, a: Alphabet, s: State, pos: nat, e: Error)
    requires Reading(text, buffer, a, s, pos) && pos < DataLength(text) && Value(s.alphabet, text[pos]) == Err(e)
    ensures Run(Start(a), text[..DataLength(text)]) == Err(e)
  {
    RunStep(Start(a), text[..DataLength(text)], s, pos);
    StepFails(s, text[pos], e);
    hide Run, Step, DataLength;
  }

  lemma ReadOne(text: seq<Byte>, buffer: seq<Byte>, a: Alphabet, s: State, pos: nat, part: Byte, after: Alphabet)
    requires Reading(text, buffer, a, s, pos) && pos < DataLength(text)
             && Value(s.alphabet, text[pos]) == Ok((part, after))
    ensures Phase(s.bits) && Step(s, text[pos]).Ok?
    ensures var t := Step(s, text[pos]).value;
            && |s.out| <= pos < |buffer| && t.last == part && t.alphabet == after && Phase(t.bits) && |t.out| <= pos + 1
            && (s.bits + 6 < 8 ==> t == State(part, s.bits + 6, after, s.out) && Reading(text, buffer, a, t, pos + 1))
            && (s.bits + 6 >= 8 ==>
                  && (s.bits == 2 || s.bits == 4 || s.bits == 6)
                  && t == State(part, s.bits - 2, after, s.out + [Joined(s.last, part, s.bits)])
                  && Reading(text, buffer[|s.out| := Joined(s.last, part, s.bits)], a, t, pos + 1))
  {
    Counted(pos);
    Counted(pos + 1);
    RunStep(Start(a), text[..DataLength(text)], s, pos);
    StepMoves(s, text[pos], part, after);
    hide Run, Step, DataLength, BytesAfter, BitsAfter, Joined, Value, InPlace;
    if s.bits >= 2 {
      Overwrites(text, buffer, s.out, Joined(s.last, part, s.bits));
    }
  }

  lemma ReadAll(text: seq<Byte>, buffer: seq<Byte>, a: Alphabet, s: State, pos: nat)
    requires Reading(text, buffer, a, s, pos) && (pos < |text| ==> pos < |buffer| && buffer[pos] == PAD)
             && pos <= |text|
    ensures var n := DataLength(text);
            pos == n && Run(Start(a), text[..n]) == Ok(s) && |s.out| == BytesAfter(n) <= n
                && InPlace(text, buffer, s.out)
  {
    if pos < |text| {
      Unread(text, buffer, a, s, pos);
    }
    assert pos == DataLength(text);
    RunDone(Start(a), text[..pos], s);
  }

  lemma StepFails(s: State, c: Byte, e: Error)
    requires Phase(s.bits) && Value(s.alphabet, c) == Err(e)
    ensures Step(s, c) == Err(e)
  {
  }

  lemma StepMoves(s: State, c: Byte, part: Byte, a: Alphabet)
    requires Phase(s.bits) && Value(s.alphabet, c) == Ok((part, a))
    ensures s.bits < 2 ==> s.bits == 0 && Step(s, c) == Ok(State(part, 6, a, s.out))
    ensures s.bits >= 2 ==>
            s.bits in {2, 4, 6} && Step(s, c) == Ok(State(part, s.bits - 2, a, s.out + [Joined(s.last, part, s.bits)]))
    ensures Step(s, c).Ok? && Phase(Step(s, c).value.bits)
  {
  }

  /** base64::decode_inplace: reading and writing one array. */
  method DecodeInplace(str: array<Byte>, alphabet: Alphabet, behavior: Behavior) returns (r: Result<nat, Error>)
    modifies str
    ensures match Decode(old(str[..]), alphabet, behavior)
            case Err(e) => r == Err(e)
            case Ok(bytes) =>
              && r == Ok(|bytes|) && |bytes| <= str.Length
              && str[..|bytes|] == bytes && str[|bytes|..] == old(str[|bytes|..])
  {
    var written, pos := DecodeDataInplace(str, alphabet);
    hide Run, AllPad, DataLength;
    if written.Err? {
      return written;
    }
    if behavior != Loose {
      assert str[pos..] == old(str[..])[pos..];
      var ok := OnlyPadding(str, pos);
      if !ok {
        return Err(InvalidCharacter);
      }
    }
    return written;
  }

  /** The buffer while decoding: the bytes written so far, then the text as it was. */
  ghost predicate InPlace(text: seq<Byte>, buffer: seq<Byte>, out: seq<Byte>) {
    |buffer| == |text| && |out| <= |text| && buffer == out + text[|out|..]
  }

  lemma Overwrites(text: seq<Byte>, buffer: seq<Byte>, out: seq<Byte>, b: Byte)
    requires InPlace(text, buffer, out) && |out| < |text|
    ensures InPlace(text, buffer[|out| := b], out + [b])
  {
  }
}
