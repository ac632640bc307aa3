/** The numbers of JSON: what the parser's phases accept is the grammar of section 6 of RFC 8259. */
module JsonNumbers {
  import opened Wrappers
  import opened JsonScanner
  import opened JsonRoundTrip

  predicate AllDigits(s: string) {
    s != "" && forall i :: 0 <= i < |s| ==> '0' <= s[i] <= '9'
  }

  /** `0`, or digits that do not begin with it. */
  predicate IsInt(s: string) {
    AllDigits(s) && (s[0] == '0' ==> |s| == 1)
  }

  predicate IsFraction(s: string) {
    s != "" && s[0] == '.' && AllDigits(s[1..])
  }

  predicate IsExponentStart(s: string) {
    (|s| == 1 && (s[0] == 'e' || s[0] == 'E'))
    || (|s| == 2 && (s[0] == 'e' || s[0] == 'E') && (s[1] == '+' || s[1] == '-'))
  }

  predicate IsExponent(s: string) {
    |s| > 1 && ((IsExponentStart(s[..1]) && AllDigits(s[1..])) || (IsExponentStart(s[..2]) && AllDigits(s[2..])))
  }

  /** A number in its four parts: sign, integer, fraction and exponent; all but the second may be missing. */
  predicate IsNumberOf(sign: string, int_: string, fraction: string, exponent: string) {
    && (sign == "" || sign == "-") && IsInt(int_)
    && (fraction == "" || IsFraction(fraction)) && (exponent == "" || IsExponent(exponent))
  }

  // ---------------------------------------------------------------- the phases follow the grammar

  lemma PhaseMore(t: string, c: char)
    requires t != ""
    ensures NumberPhase(t + [c]) == match NumberPhase(t) case None => None case Some(p) => NextPhase(p, c)
  {
    assert (t + [c])[..|t|] == t;
  }

  lemma {:induction false} PhaseDigits(t: string, ds: string, p: Phase)
    requires t != "" && NumberPhase(t) == Some(p) && (p.Digits? || p.Fraction? || p.ExponentDigits?)
    requires forall i :: 0 <= i < |ds| ==> '0' <= ds[i] <= '9'
    ensures NumberPhase(t + ds) == Some(p)
    decreases |ds|
  {
    hide NumberPhase;
    if ds == "" {
      assert t + ds == t;
    } else {
      PhaseMore(t, ds[0]);
      PhaseDigits(t + [ds[0]], ds[1..], p);
      assert t + [ds[0]] + ds[1..] == t + ds;
    }
  }

  lemma PhaseInt(sign: string, int_: string)
    requires (sign == "" || sign == "-") && IsInt(int_)
    ensures NumberPhase(sign + int_) == Some(if int_[0] == '0' then Zero else Digits)
  {
    assert int_ == [int_[0]] + int_[1..];
    assert sign + int_ == (sign + [int_[0]]) + int_[1..];
    if sign == "" {
      assert sign + [int_[0]] == [int_[0]];
    } else {
      assert NumberPhase("-") == Some(Minus);
      PhaseMore(sign, int_[0]);
    }
    if int_[0] == '0' {
      assert int_[1..] == "";
      assert sign + int_ == sign + [int_[0]];
    } else {
      PhaseDigits(sign + [int_[0]], int_[1..], Digits);
    }
  }

  lemma PhaseFraction(t: string, fraction: string)
    requires t != "" && (NumberPhase(t) == Some(Zero) || NumberPhase(t) == Some(Digits)) && IsFraction(fraction)
    ensures NumberPhase(t + fraction) == Some(Fraction)
  {
    hide NumberPhase;
    PhaseMore(t, '.');
    PhaseMore(t + ['.'], fraction[1]);
    PhaseDigits(t + ['.'] + [fraction[1]], fraction[2..], Fraction);
    assert t + ['.'] + [fraction[1]] + fraction[2..] == t + fraction;
  }

  lemma PhaseExponent(t: string, exponent: string)
    requires t != "" && NumberPhase(t).Some? && NumberPhase(t).value in {Zero, Digits, Fraction} && IsExponent(exponent)
    ensures NumberPhase(t + exponent) == Some(ExponentDigits)
  {
    hide NumberPhase;
    PhaseMore(t, exponent[0]);
    var a := t + [exponent[0]];
    if IsExponentStart(exponent[..1]) && AllDigits(exponent[1..]) {
      PhaseMore(a, exponent[1]);
      PhaseDigits(a + [exponent[1]], exponent[2..], ExponentDigits);
      assert a + [exponent[1]] + exponent[2..] == t + exponent;
    } else {
      assert exponent[..2][1] == exponent[1] && exponent[2..][0] == exponent[2];
      PhaseMore(a, exponent[1]);
      PhaseMore(a + [exponent[1]], exponent[2]);
      PhaseDigits(a + [exponent[1]] + [exponent[2]], exponent[3..], ExponentDigits);
      assert a + [exponent[1]] + [exponent[2]] + exponent[3..] == t + exponent;
    }
  }

  /** Everything of this form is a number to the parser. */
  lemma GrammarIsRead(sign: string, int_: string, fraction: string, exponent: string)
    requires IsNumberOf(sign, int_, fraction, exponent)
    ensures IsNumber(sign + int_ + fraction + exponent)
  {
    hide NumberPhase, IsInt, IsFraction, IsExponent;
    NonEmptyInt(int_);
    PhaseInt(sign, int_);
    var a := sign + int_;
    if fraction == "" {
      assert a + fraction == a;
    } else {
      PhaseFraction(a, fraction);
    }
    if exponent == "" {
      assert a + fraction + exponent == a + fraction;
    } else {
      PhaseExponent(a + fraction, exponent);
    }
  }

  lemma NonEmptyInt(s: string)
    requires IsInt(s)
    ensures s != ""
  {
  }

  // ---------------------------------------------------------------- and nothing else does

  /** How far the parts have come in each phase. */
  predicate PartsIn(p: Phase, m: string, i: string, f: string, e: string) {
    && (m == "" || m == "-")
    && match p
       case Minus => m == "-" && i == "" && f == "" && e == ""
       case Zero => i == "0" && f == "" && e == ""
       case Digits => IsInt(i) && i[0] != '0' && f == "" && e == ""
       case Dot => IsInt(i) && f == "." && e == ""
       case Fraction => IsInt(i) && IsFraction(f) && e == ""
       case Exponent => IsInt(i) && (f == "" || IsFraction(f)) && |e| == 1 && IsExponentStart(e)
       case ExponentSign => IsInt(i) && (f == "" || IsFraction(f)) && |e| == 2 && IsExponentStart(e)
       case ExponentDigits => IsInt(i) && (f == "" || IsFraction(f)) && IsExponent(e)
  }

  lemma PartsMore(p: Phase, m: string, i: string, f: string, e: string, c: char)
    returns (i': string, f': string, e': string)
    requires PartsIn(p, m, i, f, e) && NextPhase(p, c).Some?
    ensures PartsIn(NextPhase(p, c).value, m, i', f', e') && m + i' + f' + e' == m + i + f + e + [c]
  {
    i', f', e' := i, f, e;
    match NextPhase(p, c).value {
      case Zero => i' := i + [c];
      case Digits => i' := i + [c];
      case Dot => f' := f + [c];
      case Fraction =>
        f' := f + [c];
        assert f'[1..] == f[1..] + [c];
      case Exponent => e' := e + [c];
      case ExponentSign => e' := e + [c];
      case ExponentDigits =>
        e' := e + [c];
        ExponentMore(e, c);
      case Minus =>
    }
    if i' != i {
      assert m + (i + [c]) + "" + "" == m + i + "" + "" + [c];
    } else if f' != f {
      assert m + i + (f + [c]) + "" == m + i + f + "" + [c];
    } else {
      assert m + i + f + (e + [c]) == m + i + f + e + [c];
    }
  }

  lemma ExponentMore(e: string, c: char)
    requires (IsExponent(e) || IsExponentStart(e)) && '0' <= c <= '9'
    ensures IsExponent(e + [c])
  {
    var x := e + [c];
    if IsExponentStart(e) {
      assert x[..|e|] == e && x[|e|..] == [c];
    } else if IsExponentStart(e[..1]) && AllDigits(e[1..]) {
      assert x[..1] == e[..1] && x[1..] == e[1..] + [c];
    } else {
      assert x[..2] == e[..2] && x[2..] == e[2..] + [c];
    }
  }

  lemma {:induction false} PartsOf(t: string) returns (m: string, i: string, f: string, e: string)
    requires NumberPhase(t).Some?
    ensures PartsIn(NumberPhase(t).value, m, i, f, e) && t == m + i + f + e
  {
    var n := |t| - 1;
    assert t == t[..n] + [t[n]];
    if n == 0 {
      m, i, f, e := if t[0] == '-' then t else "", if t[0] == '-' then "" else t, "", "";
    } else {
      m, i, f, e := PartsOf(t[..n]);
      i, f, e := PartsMore(NumberPhase(t[..n]).value, m, i, f, e, t[n]);
    }
  }

  /** Every number of the parser has this form. */
  lemma NumberIsGrammar(t: string) returns (sign: string, int_: string, fraction: string, exponent: string)
    requires IsNumber(t)
    ensures IsNumberOf(sign, int_, fraction, exponent) && t == sign + int_ + fraction + exponent
  {
    sign, int_, fraction, exponent := PartsOf(t);
  }
}
