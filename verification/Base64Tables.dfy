/** The two alphabets of base64 as RFC 4648 prints them (sections 4 and 5), and the check of the padding. */
module Base64Tables {
  import opened Base64

  const UPPER: string := "ABCDEFGHIJKLMNOPQRSTUVWXYZ"
  const LOWER: string := "abcdefghijklmnopqrstuvwxyz"
  const DIGITS: string := "0123456789"

  /** The table with the two characters that differ. */
  function Table(a: Alphabet): (t: string)
    ensures |t| == 64
  {
    UPPER + LOWER + DIGITS + (if a == UrlSafe then "-_" else "+/")
  }

  lemma LettersAndDigits()
    ensures forall i :: 0 <= i < 26 ==> UPPER[i] as int == 65 + i && LOWER[i] as int == 97 + i
    ensures forall i :: 0 <= i < 10 ==> DIGITS[i] as int == 48 + i
  {
  }

  /** Entry `i` of the encoding table is character `i` of the printed one. */
  lemma AlphaIsPrinted(a: Alphabet, i: Byte)
    requires i < 64
    ensures Alpha(a, i) as int == Table(a)[i as int] as int
  {
    LettersAndDigits();
    var n := i as int;
    if n < 26 {
      assert Table(a)[n] == UPPER[n];
    } else if n < 52 {
      assert Table(a)[n] == LOWER[n - 26];
    } else if n < 62 {
      assert Table(a)[n] == DIGITS[n - 52];
    } else {
      assert Table(a)[62] == (if a == UrlSafe then '-' else '+') && Table(a)[63] == (if a == UrlSafe then '_' else '/');
    }
  }

  /** Moderate decoding rejects every text with another character behind a padding character. */
  lemma PaddingIsChecked(text: seq<Byte>, a: Alphabet, i: nat, j: nat)
    requires i < j < |text| && text[i] == PAD && text[j] != PAD
    ensures Decode(text, a, Moderate).Err?
  {
    hide Run;
    var n := DataLength(text);
    assert n <= i;
    assert text[n..][j - n] == text[j];
  }

  /** Otherwise it is loose decoding, which never looks behind the first padding character. */
  lemma PaddingIsLoose(text: seq<Byte>, a: Alphabet, n: nat)
    requires n < |text| && text[n] == PAD && PAD !in text[..n]
    ensures Decode(text, a, Loose) == Decode(text[..n], a, Loose)
    ensures (forall j :: n <= j < |text| ==> text[j] == PAD) ==> Decode(text, a, Moderate) == Decode(text, a, Loose)
  {
    hide Run;
    DataEndsAt(text, n);
    DataEndsAt(text[..n], n);
    assert text[..n][..n] == text[..n];
  }

  /** The four values of a group are the 24 bits of its three bytes, six by six. */
  lemma GroupIsNumber(b0: Byte, b1: Byte, b2: Byte)
    ensures ((b0 as bv24) << 16) | ((b1 as bv24) << 8) | (b2 as bv24)
         == ((First(b0) as bv24) << 18) | ((Second(b0, b1) as bv24) << 12)
            | ((Third(b1, b2) as bv24) << 6) | (Fourth(b2) as bv24)
  {
  }
}
