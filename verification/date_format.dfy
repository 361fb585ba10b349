/** Day-month-year text as strptime reads and strftime writes it with the
    formats `%d<sep>%m<sep>%Y`. Rendering always pads day and month to two
    digits. Parsing also takes a one-digit day or month and a day written as
    a space and one digit, as the strptime patterns for %d and %m allow; the
    year is always four digits. The separator is a parameter. */
module DateFormat {
  import opened Results
  import opened Text
  import opened Calendar

  function Pow10(w: nat): (p: nat)
    ensures p >= 1
  {
    if w == 0 then 1 else 10 * Pow10(w - 1)
  }

  function DigitValue(c: char): (n: nat)
    requires IsAsciiDigit(c)
    ensures n < 10
  {
    c as int - '0' as int
  }

  function DigitChar(n: nat): (c: char)
    requires n < 10
    ensures IsAsciiDigit(c) && DigitValue(c) == n
  {
    ('0' as int + n) as char
  }

  /** The number a digit string denotes, most significant digit first. */
  function DigitsValue(s: string): (n: nat)
    requires AllDigits(s)
    ensures n < Pow10(|s|)
  {
    if s == [] then 0 else DigitsValue(s[..|s| - 1]) * 10 + DigitValue(s[|s| - 1])
  }

  /** `n` written with exactly `w` digits, zero-padded on the left. */
  function Digits(n: nat, w: nat): (s: string)
    ensures |s| == w && AllDigits(s)
  {
    if w == 0 then [] else Digits(n / 10, w - 1) + [DigitChar(n % 10)]
  }

  /** Division is determined by any quotient and in-range remainder. */
  lemma DivModUnique(n: int, b: int, q: int, r: int)
    requires b > 0 && 0 <= r < b && n == b * q + r
    ensures n / b == q && n % b == r
  {
    var x := q - n / b;
    assert b * x == n % b - r;
    MulAwayFromZero(b, x);
  }

  lemma MulAwayFromZero(b: int, x: int)
    requires b > 0
    ensures x >= 1 ==> b * x >= b
    ensures x <= -1 ==> b * x <= -b
  {
  }

  lemma ModTen(n: nat, p: nat)
    requires p >= 1
    ensures (n / 10 % p) * 10 + n % 10 == n % (10 * p)
  {
    var q := n / 10;
    var r := n % 10;
    var k := q / p;
    var m := q % p;
    assert q == p * k + m;
    assert n == 10 * q + r;
    assert n == (10 * p) * k + (10 * m + r) by {
      assert 10 * q == 10 * (p * k) + 10 * m;
      assert 10 * (p * k) == (10 * p) * k;
    }
    assert 10 * m + r < 10 * p by {
      assert m <= p - 1;
      assert 10 * m <= 10 * p - 10;
    }
    DivModUnique(n, 10 * p, k, 10 * m + r);
  }

  /** Reading back `w` padded digits recovers `n` modulo 10^w. */
  lemma {:induction false} DigitsValueOfDigits(n: nat, w: nat)
    ensures DigitsValue(Digits(n, w)) == n % Pow10(w)
  {
    if w > 0 {
      var s := Digits(n, w);
      assert s[..|s| - 1] == Digits(n / 10, w - 1);
      DigitsValueOfDigits(n / 10, w - 1);
      ModTen(n, Pow10(w - 1));
    }
  }

  /** Writing back the value of a digit string at its own width gives the string. */
  lemma {:induction false} DigitsOfDigitsValue(s: string)
    requires AllDigits(s)
    ensures Digits(DigitsValue(s), |s|) == s
  {
    if s != [] {
      var init := s[..|s| - 1];
      DigitsOfDigitsValue(init);
      var v := DigitsValue(s);
      assert s[..|s| - 1] == init;
      DivModUnique(v, 10, DigitsValue(init), DigitValue(s[|s| - 1]));
      assert Digits(v, |s|) == Digits(v / 10, |s| - 1) + [DigitChar(v % 10)];
      assert s == init + [s[|s| - 1]];
    }
  }

  /** How a day or month field is written: two digits, one digit, or (days
      only) a space and one digit. */
  datatype FieldForm = Padded | Bare | SpacePadded

  /** `n` can be written in `form`; `spaceOk` says whether the field admits
      the space-padded form (%d does, %m does not). */
  predicate FieldFits(n: int, form: FieldForm, spaceOk: bool)
  {
    match form
    case Padded => 0 <= n < 100
    case Bare => 0 <= n < 10
    case SpacePadded => spaceOk && 0 <= n < 10
  }

  function FieldText(n: nat, form: FieldForm): (t: string)
    requires FieldFits(n, form, true)
    ensures 1 <= |t| <= 2 && IsAsciiDigit(t[|t| - 1])
    ensures forall k :: 0 <= k < |t| ==> IsAsciiDigit(t[k]) || t[k] == ' '
  {
    match form
    case Padded => Digits(n, 2)
    case Bare => [DigitChar(n)]
    case SpacePadded => [' ', DigitChar(n)]
  }

  /** A character that can separate the fields: never part of a field. */
  predicate IsSeparator(c: char)
  {
    !IsAsciiDigit(c) && c != ' '
  }

  predicate FormsFit(d: Date, dayForm: FieldForm, monthForm: FieldForm)
  {
    FieldFits(d.day, dayForm, true) && FieldFits(d.month, monthForm, false)
  }

  /** `d` written with the given day and month forms and a four-digit year. */
  function Render(d: Date, dayForm: FieldForm, monthForm: FieldForm, sep: char): string
    requires IsValid(d) && FormsFit(d, dayForm, monthForm)
  {
    FieldText(d.day, dayForm) + [sep] + FieldText(d.month, monthForm) + [sep] + Digits(d.year, 4)
  }

  /** `d` rendered as dd<sep>mm<sep>yyyy (strftime with zero padding). */
  function FormatDate(d: Date, sep: char): (s: string)
    requires IsValid(d)
    ensures |s| == 10 && s[2] == sep && s[5] == sep
    ensures AllDigits(s[..2]) && AllDigits(s[3..5]) && AllDigits(s[6..])
  {
    Render(d, Padded, Padded, sep)
  }

  /** `s` is one of the ways of writing `d` that the parser reads. */
  ghost predicate IsRendering(s: string, d: Date, sep: char)
  {
    exists dayForm: FieldForm, monthForm: FieldForm ::
      IsValid(d) && FormsFit(d, dayForm, monthForm) && Render(d, dayForm, monthForm, sep) == s
  }

  /** Reads one day or month field, with its value and form. */
  function ParseField(t: string, spaceOk: bool): (r: Option<(nat, FieldForm)>)
    ensures r.Some? ==> FieldFits(r.value.0, r.value.1, spaceOk) && FieldText(r.value.0, r.value.1) == t
  {
    if |t| == 1 && IsAsciiDigit(t[0]) then
      assert DigitChar(DigitValue(t[0])) == t[0];
      Some((DigitValue(t[0]), Bare))
    else if |t| == 2 && IsAsciiDigit(t[0]) && IsAsciiDigit(t[1]) then
      assert AllDigits(t);
      DigitsOfDigitsValue(t);
      Some((DigitsValue(t), Padded))
    else if |t| == 2 && spaceOk && t[0] == ' ' && IsAsciiDigit(t[1]) then
      assert DigitChar(DigitValue(t[1])) == t[1];
      Some((DigitValue(t[1]), SpacePadded))
    else None
  }

  /** Splits `s` at its two separators into day, month and year text. The
      day and month take one or two characters and the year four. */
  function SplitDate(s: string, sep: char): (r: Option<(string, string, string)>)
    ensures r.Some? ==> s == r.value.0 + [sep] + r.value.1 + [sep] + r.value.2
    ensures r.Some? ==> 1 <= |r.value.0| <= 2 && 1 <= |r.value.1| <= 2 && |r.value.2| == 4
  {
    var i := if |s| > 1 && s[1] == sep then 1 else 2;
    if |s| <= i || s[i] != sep then None
    else
      var j := if |s| > i + 2 && s[i + 2] == sep then i + 2 else i + 3;
      if |s| != j + 5 || s[j] != sep then None
      else
        assert s[..i + 1] == s[..i] + [sep];
        assert s[..j] == s[..i + 1] + s[i + 1..j];
        assert s[..j + 1] == s[..j] + [sep];
        assert s == s[..j + 1] + s[j + 1..];
        Some((s[..i], s[i + 1..j], s[j + 1..]))
  }

  /** Parses day<sep>month<sep>yyyy; anything else, and any impossible date,
      is None. Whatever it returns is a real date the input text writes. */
  function ParseDate(s: string, sep: char): (r: Option<Date>)
    ensures r.Some? ==> IsValid(r.value) && IsRendering(s, r.value, sep)
  {
    match SplitDate(s, sep)
    case None => None
    case Some((dayText, monthText, yearText)) =>
      match (ParseField(dayText, true), ParseField(monthText, false))
      case (Some((day, dayForm)), Some((month, monthForm))) =>
        if AllDigits(yearText) then
          var d := Date(day, month, DigitsValue(yearText));
          if IsValid(d) then
            DigitsOfDigitsValue(yearText);
            assert Render(d, dayForm, monthForm, sep) == s;
            Some(d)
          else None
        else None
      case _ => None
  }

  /** A text whose second and third characters are not the separator has
      no day field and is not a date. */
  lemma NoEarlySeparator(s: string, sep: char)
    requires |s| > 2 && s[1] != sep && s[2] != sep
    ensures ParseDate(s, sep) == None
  {
  }

  /** Splitting three fields joined by a separator that none contains gives them back. */
  lemma SplitJoin(a: string, b: string, y: string, sep: char)
    requires 1 <= |a| <= 2 && 1 <= |b| <= 2 && |y| == 4
    requires sep !in a && sep !in b
    ensures SplitDate(a + [sep] + b + [sep] + y, sep) == Some((a, b, y))
  {
    var s := a + [sep] + b + [sep] + y;
    var i, j := |a|, |a| + 1 + |b|;
    assert s[..i] == a && s[i] == sep;
    assert s[i + 1..j] == b by {
      forall k | 0 <= k < |b|
        ensures s[i + 1..j][k] == b[k]
      {
        assert s[i + 1 + k] == b[k];
      }
    }
    assert s[j] == sep;
    assert s[j + 1..] == y by {
      forall k | 0 <= k < |y|
        ensures s[j + 1..][k] == y[k]
      {
        assert s[j + 1 + k] == y[k];
      }
    }
    assert |a| == 2 ==> s[1] == a[1];
    assert |b| == 2 ==> s[i + 2] == b[1];
  }

  /** A field written in a form it fits reads back as its value. */
  lemma FieldRoundTrip(n: nat, form: FieldForm, spaceOk: bool)
    requires FieldFits(n, form, spaceOk)
    ensures ParseField(FieldText(n, form), spaceOk) == Some((n, form))
  {
    var t := FieldText(n, form);
    if form == Padded {
      assert Pow10(2) == 100;
      DigitsValueOfDigits(n, 2);
      DivModUnique(n, 100, 0, n);
    }
  }

  /** Every way of writing a valid date parses back to that date. */
  lemma RenderThenParse(d: Date, dayForm: FieldForm, monthForm: FieldForm, sep: char)
    requires IsValid(d) && FormsFit(d, dayForm, monthForm) && IsSeparator(sep)
    ensures ParseDate(Render(d, dayForm, monthForm, sep), sep) == Some(d)
  {
    var a, b, y := FieldText(d.day, dayForm), FieldText(d.month, monthForm), Digits(d.year, 4);
    assert sep !in a && sep !in b;
    SplitJoin(a, b, y, sep);
    FieldRoundTrip(d.day, dayForm, true);
    FieldRoundTrip(d.month, monthForm, false);
    assert Pow10(4) == 10000;
    DigitsValueOfDigits(d.year, 4);
    DivModUnique(d.year, 10000, 0, d.year);
  }

  /** Rendering a valid date and parsing it back with the same separator
      gives the same day, month and year. */
  lemma FormatThenParse(d: Date, sep: char)
    requires IsValid(d) && IsSeparator(sep)
    ensures ParseDate(FormatDate(d, sep), sep) == Some(d)
  {
    RenderThenParse(d, Padded, Padded, sep);
  }

  /** The parser accepts exactly the ways of writing valid dates. */
  lemma ParseDateExact(s: string, sep: char, d: Date)
    requires IsSeparator(sep)
    ensures ParseDate(s, sep) == Some(d) <==> IsValid(d) && IsRendering(s, d, sep)
  {
    if IsValid(d) && IsRendering(s, d, sep) {
      var dayForm, monthForm :| FormsFit(d, dayForm, monthForm) && Render(d, dayForm, monthForm, sep) == s;
      RenderThenParse(d, dayForm, monthForm, sep);
    }
  }

  /** Re-rendering a parsed `-` date with `/` and parsing that with `/`
      gives the date parsed from the original text. */
  lemma ReformatRoundTrip(s: string)
    requires ParseDate(s, '-').Some?
    ensures ParseDate(FormatDate(ParseDate(s, '-').value, '/'), '/') == ParseDate(s, '-')
  {
    FormatThenParse(ParseDate(s, '-').value, '/');
  }

  /** strptime reads unpadded and space-padded days and months as well. */
  lemma UnpaddedDate(s: string, t: string)
    requires s == "1-2-2023" && t == " 5-11-2023"
    ensures ParseDate(s, '-') == Some(Date(1, 2, 2023))
    ensures ParseDate(t, '-') == Some(Date(5, 11, 2023))
  {
    var d, e := Date(1, 2, 2023), Date(5, 11, 2023);
    assert Digits(2023, 4) == "2023" && Digits(11, 2) == "11";
    assert Render(d, Bare, Bare, '-') == s;
    assert Render(e, SpacePadded, Padded, '-') == t;
    RenderThenParse(d, Bare, Bare, '-');
    RenderThenParse(e, SpacePadded, Padded, '-');
  }
}
