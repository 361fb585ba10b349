/** Which strings Python's float() accepts, restricted to ASCII: optional
    surrounding whitespace, an optional sign, then a decimal literal (digit
    groups may be joined by single underscores, an optional fraction, an
    optional exponent) or one of "inf", "infinity", "nan" in any letter case.
    The number a string denotes is not modelled: a converted value is kept
    as the text it came from. */
module PyFloat {
  import opened Results
  import opened Text

  /** The converted NAV: opaque, identified by the text that was converted. */
  datatype Float = Float(literal: string)

  /** The whitespace float() strips from ASCII text: \t \n \v \f \r and
      the space (the C-locale set; the separators 0x1C..0x1F stay). */
  predicate IsSpace(c: char)
  {
    ('\t' <= c <= '\r') || c == ' '
  }

  function TrimStart(s: string): (r: string)
    ensures |r| <= |s|
    ensures r == s[|s| - |r|..]
    ensures r != [] ==> !IsSpace(r[0])
  {
    if s != [] && IsSpace(s[0]) then TrimStart(s[1..]) else s
  }

  function TrimEnd(s: string): (r: string)
    ensures |r| <= |s|
    ensures r == s[..|r|]
    ensures r != [] ==> !IsSpace(r[|r| - 1])
  {
    if s != [] && IsSpace(s[|s| - 1]) then TrimEnd(s[..|s| - 1]) else s
  }

  function Strip(s: string): string
  {
    TrimEnd(TrimStart(s))
  }

  /** digit (["_"] digit)* */
  predicate IsDigitPart(s: string)
  {
    && |s| > 0
    && IsAsciiDigit(s[0])
    && IsAsciiDigit(s[|s| - 1])
    && (forall i :: 0 <= i < |s| ==> IsAsciiDigit(s[i]) || s[i] == '_')
    && (forall i :: 0 <= i < |s| - 1 ==> s[i] == '_' ==> s[i + 1] != '_')
  }

  /** [digitpart] "." digitpart | digitpart ["."] */
  predicate IsNumberPart(s: string)
  {
    || IsDigitPart(s)
    || (|s| > 1 && s[|s| - 1] == '.' && IsDigitPart(s[..|s| - 1]))
    || exists i :: 0 <= i < |s| && s[i] == '.' && (i == 0 || IsDigitPart(s[..i])) && IsDigitPart(s[i + 1..])
  }

  /** ("e" | "E") ["+" | "-"] digitpart */
  predicate IsExponent(s: string)
  {
    && |s| >= 2
    && (s[0] == 'e' || s[0] == 'E')
    && (IsDigitPart(s[1..]) || ((s[1] == '+' || s[1] == '-') && IsDigitPart(s[2..])))
  }

  /** number [exponent] */
  predicate IsFloatNumber(s: string)
  {
    || IsNumberPart(s)
    || exists i :: 0 < i < |s| && (s[i] == 'e' || s[i] == 'E') && IsNumberPart(s[..i]) && IsExponent(s[i..])
  }

  predicate IsSpecial(s: string)
  {
    var l := Lower(s);
    l == "inf" || l == "infinity" || l == "nan"
  }

  /** [sign] (floatnumber | infinity | nan) */
  predicate IsFloatValue(s: string)
  {
    || IsFloatNumber(s)
    || IsSpecial(s)
    || (|s| > 0 && (s[0] == '+' || s[0] == '-') && (IsFloatNumber(s[1..]) || IsSpecial(s[1..])))
  }

  /** float(s) returns instead of raising ValueError. */
  predicate IsNumeric(s: string)
  {
    IsFloatValue(Strip(s))
  }

  /** float(s): the value when the text converts, None for ValueError. */
  function ToFloat(s: string): (r: Option<Float>)
    ensures r.Some? <==> IsNumeric(s)
    ensures r.Some? ==> r.value.literal == s
  {
    if IsNumeric(s) then Some(Float(s)) else None
  }

  /** A decimal literal starts with a digit or with the decimal point. */
  lemma NumberPartLeadingChar(s: string)
    requires IsNumberPart(s)
    ensures |s| > 0 && (IsAsciiDigit(s[0]) || s[0] == '.')
  {
    if !IsDigitPart(s) && !(|s| > 1 && s[|s| - 1] == '.' && IsDigitPart(s[..|s| - 1])) {
      var i :| 0 <= i < |s| && s[i] == '.' && (i == 0 || IsDigitPart(s[..i])) && IsDigitPart(s[i + 1..]);
      if i > 0 {
        assert s[..i][0] == s[0];
      }
    } else if !IsDigitPart(s) {
      assert s[..|s| - 1][0] == s[0];
    }
  }

  lemma FloatNumberLeadingChar(s: string)
    requires IsFloatNumber(s)
    ensures |s| > 0 && (IsAsciiDigit(s[0]) || s[0] == '.')
  {
    if !IsNumberPart(s) {
      var i :| 0 < i < |s| && (s[i] == 'e' || s[i] == 'E') && IsNumberPart(s[..i]) && IsExponent(s[i..]);
      NumberPartLeadingChar(s[..i]);
      assert s[..i][0] == s[0];
    } else {
      NumberPartLeadingChar(s);
    }
  }

  /** Text that starts (after whitespace) with a letter other than i or n,
      in either case, never converts. */
  lemma LetterStartIsNotNumeric(s: string)
    requires Strip(s) != []
    requires var c := Strip(s)[0]; 'a' <= LowerChar(c) <= 'z' && LowerChar(c) != 'i' && LowerChar(c) != 'n'
    ensures !IsNumeric(s)
  {
    var t := Strip(s);
    if IsFloatNumber(t) {
      FloatNumberLeadingChar(t);
    }
    assert Lower(t)[0] == LowerChar(t[0]);
  }

  /** A run of digits with no underscores is a digit group. */
  lemma DigitsAreDigitPart(s: string)
    requires s != [] && AllDigits(s)
    ensures IsDigitPart(s)
  {
  }

  /** A plain decimal, digits, a point and digits, converts. */
  lemma PlainDecimalIsNumeric(whole: string, frac: string)
    requires whole != [] && frac != [] && AllDigits(whole) && AllDigits(frac)
    ensures IsNumeric(whole + "." + frac)
  {
    var t := whole + "." + frac;
    var i := |whole|;
    assert t[0] == whole[0] && t[|t| - 1] == frac[|frac| - 1];
    UnpaddedIsNumeric(t);
    assert t[..i] == whole && t[i] == '.' && t[i + 1..] == frac;
    DigitsAreDigitPart(whole);
    DigitsAreDigitPart(frac);
    assert IsNumberPart(t);
  }

  predicate AllSpace(s: string)
  {
    forall i :: 0 <= i < |s| ==> IsSpace(s[i])
  }

  /** Trimming the front of a concatenation: the second part is reached
      only when the first is all whitespace. */
  lemma {:induction false} TrimStartAppend(s: string, t: string)
    ensures TrimStart(s + t) == if TrimStart(s) == [] then TrimStart(t) else TrimStart(s) + t
  {
    if s == [] {
      assert s + t == t;
    } else if IsSpace(s[0]) {
      assert (s + t)[1..] == s[1..] + t;
      TrimStartAppend(s[1..], t);
    }
  }

  lemma {:induction false} AllSpaceTrimStart(s: string)
    ensures TrimStart(s) == [] <==> AllSpace(s)
  {
    if s != [] {
      AllSpaceTrimStart(s[1..]);
      if IsSpace(s[0]) {
        assert AllSpace(s[1..]) ==> AllSpace(s) by {
          if AllSpace(s[1..]) {
            forall i | 0 < i < |s|
              ensures IsSpace(s[i])
            {
              assert s[i] == s[1..][i - 1];
            }
          }
        }
      }
    }
  }

  /** Trimming the back ignores a whitespace tail. */
  lemma {:induction false} TrimEndSpaces(s: string, post: string)
    requires AllSpace(post)
    ensures TrimEnd(s + post) == TrimEnd(s)
    decreases |post|
  {
    if post == [] {
      assert s + post == s;
    } else {
      var init := post[..|post| - 1];
      assert (s + post)[..|s + post| - 1] == s + init;
      TrimEndSpaces(s, init);
    }
  }

  /** Whitespace around a text does not change whether it converts. */
  lemma PaddedIsNumeric(pre: string, s: string, post: string)
    requires AllSpace(pre) && AllSpace(post)
    ensures IsNumeric(pre + s + post) <==> IsNumeric(s)
  {
    StripPadded(pre, s, post);
  }

  /** Stripping a padded text strips the padding with it. */
  lemma StripPadded(pre: string, s: string, post: string)
    requires AllSpace(pre) && AllSpace(post)
    ensures Strip(pre + s + post) == Strip(s)
  {
    var x := s + post;
    assert pre + s + post == pre + x;
    AllSpaceTrimStart(pre);
    TrimStartAppend(pre, x);
    assert TrimStart(pre + x) == TrimStart(x);
    TrimStartAppend(s, post);
    var t := TrimStart(s);
    if t == [] {
      AllSpaceTrimStart(post);
      assert TrimStart(x) == [];
    } else {
      assert TrimStart(x) == t + post;
      TrimEndSpaces(t, post);
    }
  }

  lemma SignedExponent(x: string, marker: char, sign: char, e: string)
    requires x == [marker, sign] + e
    requires (marker == 'e' || marker == 'E') && (sign == '+' || sign == '-')
    requires IsDigitPart(e)
    ensures IsExponent(x)
  {
    assert x[2..] == e;
  }

  /** A number part followed by an exponent is a float number. */
  lemma NumberThenExponent(t: string, m: string, x: string)
    requires t == m + x && IsNumberPart(m) && IsExponent(x)
    ensures IsFloatNumber(t)
  {
    NumberPartLeadingChar(m);
    assert t[..|m|] == m && t[|m|..] == x;
  }

  lemma UnpaddedFloatNumber(t: string)
    requires t != [] && !IsSpace(t[0]) && !IsSpace(t[|t| - 1])
    requires IsFloatNumber(t)
    ensures IsNumeric(t)
  {
    UnpaddedIsNumeric(t);
  }

  /** A number followed by an exponent marker, a sign and a digit group converts. */
  lemma ExponentIsNumeric(m: string, marker: char, sign: char, e: string)
    requires IsNumberPart(m) && (marker == 'e' || marker == 'E') && (sign == '+' || sign == '-')
    requires IsDigitPart(e)
    ensures IsNumeric(m + [marker, sign] + e)
  {
    var x := [marker, sign] + e;
    var t := m + x;
    SignedExponent(x, marker, sign, e);
    NumberThenExponent(t, m, x);
    NumberPartLeadingChar(m);
    assert t[0] == m[0];
    assert x[|x| - 1] == e[|e| - 1];
    assert t[|t| - 1] == x[|x| - 1];
    UnpaddedFloatNumber(t);
    assert m + [marker, sign] + e == t;
  }

  /** For example "1_000.5e-3": grouped digits, a fraction and a signed exponent. */
  lemma ScientificIsNumeric(t: string)
    requires t == "1_000.5e-3"
    ensures IsNumeric(t)
  {
    var m := "1_000.5";
    assert m[..5] == "1_000" && m[6..] == "5";
    assert IsDigitPart("1_000") && IsDigitPart("5");
    assert IsNumberPart(m);
    assert IsDigitPart("3");
    ExponentIsNumeric(m, 'e', '-', "3");
    assert t == m + ['e', '-'] + "3";
  }

  /** Text without surrounding whitespace converts exactly when it is a float value. */
  lemma UnpaddedIsNumeric(s: string)
    requires s != [] && !IsSpace(s[0]) && !IsSpace(s[|s| - 1])
    ensures IsNumeric(s) <==> IsFloatValue(s)
  {
    assert TrimStart(s) == s;
    assert TrimEnd(s) == s;
  }

  /** float() accepts "nan" and signed infinities: a converted NAV need not be finite. */
  lemma NanIsNumeric(nan: string)
    requires nan == "nan"
    ensures IsNumeric(nan)
  {
    UnpaddedIsNumeric(nan);
    assert Lower(nan) == nan;
    assert IsSpecial(nan);
  }

  /** A sign followed by a spelling of infinity or nan converts. */
  lemma SignedSpecialIsNumeric(s: string)
    requires |s| > 1 && (s[0] == '+' || s[0] == '-') && !IsSpace(s[|s| - 1])
    requires IsSpecial(s[1..])
    ensures IsNumeric(s)
  {
    UnpaddedIsNumeric(s);
  }

  lemma InfinityIsSpecial(inf: string)
    requires inf == "Infinity"
    ensures IsSpecial(inf)
  {
    assert inf == ['I'] + "nfinity";
    LowerAppend(['I'], "nfinity");
    assert Lower(['I']) == "i";
    assert Lower("nfinity") == "nfinity";
  }

  lemma NegativeInfinityIsNumeric(negInf: string)
    requires negInf == "-Infinity"
    ensures IsNumeric(negInf)
  {
    InfinityIsSpecial(negInf[1..]);
    SignedSpecialIsNumeric(negInf);
  }

  lemma WordIsNotNumeric(t: string)
    requires t == "not-a-number"
    ensures !IsNumeric(t)
  {
    assert Strip(t) == t by {
      assert TrimStart(t) == t;
      assert TrimEnd(t) == t;
    }
    assert !IsFloatNumber(t) by {
      if IsFloatNumber(t) {
        FloatNumberLeadingChar(t);
      }
    }
    assert !IsSpecial(t) by {
      assert |Lower(t)| == 12;
    }
    assert t[0] == 'n';
  }

  lemma EmptyIsNotFloatValue(t: string)
    requires t == []
    ensures !IsFloatValue(t)
  {
    assert |Lower(t)| == 0;
  }

  /** Empty and all-whitespace texts do not convert. */
  lemma BlankIsNotNumeric(s: string)
    requires AllSpace(s)
    ensures !IsNumeric(s)
  {
    AllSpaceTrimStart(s);
    EmptyIsNotFloatValue(Strip(s));
  }

  /** Two underscores in a row break a digit group. */
  lemma DoubleUnderscoreIsNotNumeric(t: string)
    requires t == "1__0"
    ensures !IsNumeric(t)
  {
    UnpaddedIsNumeric(t);
    assert !IsDigitPart(t) by { assert t[1] == '_' && t[2] == '_'; }
    assert !IsSpecial(t) by { assert |Lower(t)| == 4 && Lower(t)[0] == '1'; }
  }
}
