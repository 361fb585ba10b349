/** The NAV history sanitizer (mf.py:108-125). The provider's history,
    date text to NAV text in the provider's order, is walked once; an entry
    is kept when its date parses as dd-mm-yyyy and its NAV converts with
    float(), and it is then stored with the date re-rendered as dd/mm/yyyy.
    A failing entry is skipped and the walk goes on. The kept rows are later
    parsed back with %d/%m/%Y. Nothing is sorted. */
module NavHistory {
  import opened Results
  import opened Calendar
  import opened DateFormat
  import opened PyFloat
  import opened FilterMaps
  import opened Text

  /** The history as the provider lists it: (date text, NAV text) pairs. */
  type RawHistory = seq<(string, string)>

  /** One appended row of mf.py:111-116: the re-rendered date and the converted NAV. */
  datatype NavRow = NavRow(date: string, nav: Float)

  /** One row after the Date column is parsed back (mf.py:125). */
  datatype NavPoint = NavPoint(date: Date, nav: Float)

  /** The days a nanosecond pandas Timestamp can hold, 22 September 1677
      to 11 April 2262; outside them pd.to_datetime raises
      OutOfBoundsDatetime, a ValueError. */
  predicate InTimestampRange(d: Date)
  {
    && (d.year > 1677 || (d.year == 1677 && (d.month > 9 || (d.month == 9 && d.day >= 22))))
    && (d.year < 2262 || (d.year == 2262 && (d.month < 4 || (d.month == 4 && d.day <= 11))))
  }

  /** pd.to_datetime on one text with the format day<sep>month<sep>year. */
  function ToDatetime(s: string, sep: char): (r: Option<Date>)
    ensures r.Some? <==> ParseDate(s, sep).Some? && InTimestampRange(ParseDate(s, sep).value)
    ensures r.Some? ==> IsValid(r.value) && IsRendering(s, r.value, sep)
  {
    match ParseDate(s, sep)
    case Some(d) => if InTimestampRange(d) then Some(d) else None
    case None => None
  }

  /** A date pandas can hold, rendered and converted back, is itself. */
  lemma FormatThenConvert(d: Date, sep: char)
    requires IsValid(d) && InTimestampRange(d) && IsSeparator(sep)
    ensures ToDatetime(FormatDate(d, sep), sep) == Some(d)
  {
    FormatThenParse(d, sep);
  }

  /** The first and last days pandas can hold, and the days just outside. */
  lemma TimestampRangeEnds()
    ensures !InTimestampRange(Date(21, 9, 1677)) && InTimestampRange(Date(22, 9, 1677))
    ensures InTimestampRange(Date(11, 4, 2262)) && !InTimestampRange(Date(12, 4, 2262))
  {
  }

  /** A real date outside the Timestamp range parses but does not convert. */
  lemma OutOfRangeIsRejected(d: Date, sep: char)
    requires IsValid(d) && !InTimestampRange(d) && IsSeparator(sep)
    ensures ParseDate(FormatDate(d, sep), sep) == Some(d)
    ensures ToDatetime(FormatDate(d, sep), sep) == None
  {
    FormatThenParse(d, sep);
  }

  /** The entry survives both conversions of mf.py:113-114: its date
      text converts with %d-%m-%Y and its NAV with float(). */
  predicate IsValidEntry(entry: (string, string))
  {
    ToDatetime(entry.0, '-').Some? && IsNumeric(entry.1)
  }

  /** One pass of the loop body: a row, or None where ValueError is caught. */
  function SanitizeEntry(entry: (string, string)): (r: Option<NavRow>)
    ensures r.Some? <==> IsValidEntry(entry)
    ensures r.Some? ==> ToDatetime(r.value.date, '/') == ToDatetime(entry.0, '-')
    ensures r.Some? ==> r.value.nav == Float(entry.1)
  {
    match ToDatetime(entry.0, '-')
    case None => None
    case Some(d) =>
      match ToFloat(entry.1)
      case None => None
      case Some(v) =>
        FormatThenConvert(d, '/');
        Some(NavRow(FormatDate(d, '/'), v))
  }

  /** The rows the loop of mf.py:109-119 has appended after the whole
      history; never more rows than entries. */
  function Sanitize(raw: RawHistory): (rows: seq<NavRow>)
    ensures |rows| <= |raw|
  {
    FilterMap(SanitizeEntry, raw)
  }

  /** The positions of the entries that survive. */
  function KeptEntries(raw: RawHistory): (ks: seq<nat>)
    ensures forall k :: 0 <= k < |ks| ==> ks[k] < |raw| && IsValidEntry(raw[ks[k]])
    ensures forall j :: 0 <= j < |raw| && IsValidEntry(raw[j]) ==> j in ks
    ensures forall a, b :: 0 <= a < b < |ks| ==> ks[a] < ks[b]
  {
    Kept(SanitizeEntry, raw)
  }

  /** The sanitizer is a filter-map in input order: its rows are the rows of
      the valid entries, one each, in the order the entries came, and every
      valid entry yields one. */
  lemma SanitizeIsFilterMap(raw: RawHistory)
    ensures |Sanitize(raw)| == |KeptEntries(raw)|
    ensures forall k :: 0 <= k < |Sanitize(raw)| ==>
              SanitizeEntry(raw[KeptEntries(raw)[k]]) == Some(Sanitize(raw)[k])
  {
    FilterMapKept(SanitizeEntry, raw);
  }

  /** A bad entry is skipped on its own: the entries after it are still
      sanitized as if it were not there. */
  lemma SkipsInvalidEntry(a: RawHistory, e: (string, string), b: RawHistory)
    requires !IsValidEntry(e)
    ensures Sanitize(a + [e] + b) == Sanitize(a) + Sanitize(b)
  {
    FilterMapSkips(SanitizeEntry, a, e, b);
  }

  /** The "no valid data" case arises exactly when no entry is valid. */
  lemma SanitizeEmptyIff(raw: RawHistory)
    ensures Sanitize(raw) == [] <==> forall j :: 0 <= j < |raw| ==> !IsValidEntry(raw[j])
  {
    FilterMapEmpty(SanitizeEntry, raw);
  }

  /** The loop of mf.py:108-119 as written: it appends one row per valid
      entry and skips the rest, computing the sanitized rows. */
  method SanitizeLoop(raw: RawHistory) returns (rows: seq<NavRow>)
    ensures rows == Sanitize(raw)
  {
    rows := [];
    for i := 0 to |raw|
      invariant rows == Sanitize(raw[..i])
    {
      var (date, navValue) := raw[i];
      LoopStep(raw, i);
      var parsed := ToDatetime(date, '-');
      EntryOutcome(raw[i], parsed, ToFloat(navValue));
      if parsed.Some? {
        var value := ToFloat(navValue);
        if value.Some? {
          rows := rows + [NavRow(FormatDate(parsed.value, '/'), value.value)];
        }
      }
    }
    assert raw[..|raw|] == raw;
  }

  /** One loop step: the entry's row is appended when the entry is valid,
      and nothing is appended when it is not. */
  lemma LoopStep(raw: RawHistory, i: nat)
    requires i < |raw|
    ensures IsValidEntry(raw[i]) ==> Sanitize(raw[..i + 1]) == Sanitize(raw[..i]) + [SanitizeEntry(raw[i]).value]
    ensures !IsValidEntry(raw[i]) ==> Sanitize(raw[..i + 1]) == Sanitize(raw[..i])
  {
    FilterMapPrefix(SanitizeEntry, raw, i);
  }

  /** The outcome of one entry in terms of its two conversions, in the
      order the loop body tries them. */
  lemma EntryOutcome(entry: (string, string), parsed: Option<Date>, value: Option<Float>)
    requires parsed == ToDatetime(entry.0, '-') && value == ToFloat(entry.1)
    ensures parsed.None? ==> SanitizeEntry(entry) == None
    ensures parsed.Some? && value.None? ==> SanitizeEntry(entry) == None
    ensures parsed.Some? && value.Some? ==> SanitizeEntry(entry) == Some(NavRow(FormatDate(parsed.value, '/'), value.value))
  {
  }

  /** mf.py:125 for one row: its date text parsed back with %d/%m/%Y. */
  function ReparseRow(row: NavRow): Option<NavPoint>
  {
    match ToDatetime(row.date, '/')
    case None => None
    case Some(d) => Some(NavPoint(d, row.nav))
  }

  /** mf.py:125: the Date column parsed back. Pandas raises for the whole
      column when one text fails, so the result is all or nothing. */
  function Reparse(rows: seq<NavRow>): (r: Option<seq<NavPoint>>)
    ensures r.Some? <==> forall k :: 0 <= k < |rows| ==> ToDatetime(rows[k].date, '/').Some?
    ensures r.Some? ==> |r.value| == |rows|
    ensures r.Some? ==> forall k :: 0 <= k < |rows| ==>
              Some(r.value[k].date) == ToDatetime(rows[k].date, '/') && r.value[k].nav == rows[k].nav
  {
    MapAll(ReparseRow, rows)
  }

  /** The series that reaches the chart: parsing back the sanitized rows
      never fails, and point k carries the date parsed from the k-th valid
      entry's own text and that entry's converted NAV. */
  lemma SanitizedSeries(raw: RawHistory)
    ensures Reparse(Sanitize(raw)).Some?
    ensures |Reparse(Sanitize(raw)).value| == |KeptEntries(raw)|
    ensures forall k :: 0 <= k < |KeptEntries(raw)| ==>
              var entry := raw[KeptEntries(raw)[k]];
              Reparse(Sanitize(raw)).value[k] == NavPoint(ToDatetime(entry.0, '-').value, Float(entry.1))
  {
    SanitizeIsFilterMap(raw);
    var rows := Sanitize(raw);
    var points := Reparse(rows).value;
    var ks := KeptEntries(raw);
    forall k | 0 <= k < |rows|
      ensures ToDatetime(rows[k].date, '/').Some?
    {
      assert SanitizeEntry(raw[ks[k]]) == Some(rows[k]);
    }
    forall k | 0 <= k < |ks|
      ensures points[k] == NavPoint(ToDatetime(raw[ks[k]].0, '-').value, Float(raw[ks[k]].1))
    {
      var entry := raw[ks[k]];
      assert SanitizeEntry(entry) == Some(rows[k]);
      assert Some(points[k].date) == ToDatetime(rows[k].date, '/') == ToDatetime(entry.0, '-');
    }
  }

  /** A valid entry becomes the row holding its date re-rendered with
      slashes and its converted NAV. */
  lemma ValidEntryRow(date: string, nav: string, d: Date)
    requires IsValid(d) && InTimestampRange(d) && date == FormatDate(d, '-') && IsNumeric(nav)
    ensures SanitizeEntry((date, nav)) == Some(NavRow(FormatDate(d, '/'), Float(nav)))
  {
    FormatThenConvert(d, '-');
  }

  lemma PaddedDigit(n: nat)
    requires n < 10
    ensures FieldText(n, Padded) == ['0', DigitChar(n)]
  {
    assert Digits(n, 2) == Digits(0, 1) + [DigitChar(n)];
  }

  /** The texts of a single-digit day of January 2023. */
  lemma JanuaryText(day: int, sep: char)
    requires 1 <= day <= 9
    ensures IsValid(Date(day, 1, 2023))
    ensures FormatDate(Date(day, 1, 2023), sep) == ['0', DigitChar(day), sep, '0', '1', sep, '2', '0', '2', '3']
  {
    var d := Date(day, 1, 2023);
    PaddedDigit(day);
    PaddedDigit(1);
    assert Digits(2023, 4) == "2023";
    assert FormatDate(d, sep) == FieldText(day, Padded) + [sep] + FieldText(1, Padded) + [sep] + Digits(2023, 4);
  }

  lemma JanuaryEntryDate(day: int, date: string, shown: string)
    requires 1 <= day <= 9
    requires date == ['0', DigitChar(day), '-', '0', '1', '-', '2', '0', '2', '3']
    requires shown == ['0', DigitChar(day), '/', '0', '1', '/', '2', '0', '2', '3']
    ensures IsValid(Date(day, 1, 2023))
    ensures date == FormatDate(Date(day, 1, 2023), '-') && shown == FormatDate(Date(day, 1, 2023), '/')
  {
    JanuaryText(day, '-');
    JanuaryText(day, '/');
  }

  lemma DecimalNav(nav: string, point: int)
    requires 0 < point < |nav| - 1 && nav[point] == '.'
    requires AllDigits(nav[..point]) && AllDigits(nav[point + 1..])
    ensures IsNumeric(nav)
  {
    PlainDecimalIsNumeric(nav[..point], nav[point + 1..]);
    assert nav == nav[..point] + "." + nav[point + 1..];
  }

  lemma FirstOfJanuary(date: string, nav: string)
    requires date == "01-01-2023" && nav == "10.5"
    ensures SanitizeEntry((date, nav)) == Some(NavRow("01/01/2023", Float("10.5")))
  {
    assert DigitChar(1) == '1';
    JanuaryEntryDate(1, date, "01/01/2023");
    DecimalNav(nav, 2);
    ValidEntryRow(date, nav, Date(1, 1, 2023));
  }

  lemma ThirdOfJanuary(date: string, nav: string)
    requires date == "03-01-2023" && nav == "12.2"
    ensures SanitizeEntry((date, nav)) == Some(NavRow("03/01/2023", Float("12.2")))
  {
    assert DigitChar(3) == '3';
    JanuaryEntryDate(3, date, "03/01/2023");
    DecimalNav(nav, 2);
    ValidEntryRow(date, nav, Date(3, 1, 2023));
  }

  lemma BadEntries(e1: (string, string), e2: (string, string))
    requires e1 == ("bad-date", "11.0") && e2 == ("02-01-2023", "not-a-number")
    ensures SanitizeEntry(e1) == None && SanitizeEntry(e2) == None
  {
    assert |e1.0| == 8 && e1.0[1] == 'a' && e1.0[2] == 'd';
    NoEarlySeparator(e1.0, '-');
    WordIsNotNumeric(e2.1);
  }

  /** Two elements that both convert are both kept, in order. */
  lemma FilterMapKeepsPair<A, B>(f: A -> Option<B>, xs: seq<A>, y0: B, y1: B)
    requires |xs| == 2 && f(xs[0]) == Some(y0) && f(xs[1]) == Some(y1)
    ensures FilterMap(f, xs) == [y0, y1]
  {
    FilterMapSingle(f, xs[0]);
    FilterMapSingle(f, xs[1]);
    FilterMapPair(f, xs[0], xs[1]);
    assert xs == [xs[0], xs[1]];
  }

  /** Filter-mapping a four-element sequence, one outcome per element. */
  lemma FilterMapFour<A, B>(f: A -> Option<B>, xs: seq<A>)
    requires |xs| == 4
    ensures FilterMap(f, xs) == FilterMap(f, [xs[0]]) + FilterMap(f, [xs[1]]) + FilterMap(f, [xs[2]]) + FilterMap(f, [xs[3]])
  {
    FilterMapPair(f, xs[0], xs[1]);
    FilterMapPair(f, xs[2], xs[3]);
    FilterMapConcat(f, [xs[0], xs[1]], [xs[2], xs[3]]);
    assert xs == [xs[0], xs[1]] + [xs[2], xs[3]];
  }

  /** Of four elements, the two inner ones fail and are skipped; the outer two are kept in order. */
  lemma FilterMapKeepsOuter<A, B>(f: A -> Option<B>, xs: seq<A>, y0: B, y3: B)
    requires |xs| == 4 && f(xs[0]) == Some(y0) && f(xs[1]) == None && f(xs[2]) == None && f(xs[3]) == Some(y3)
    ensures FilterMap(f, xs) == [y0, y3]
  {
    FilterMapFour(f, xs);
    FilterMapSingle(f, xs[0]);
    FilterMapSingle(f, xs[1]);
    FilterMapSingle(f, xs[2]);
    FilterMapSingle(f, xs[3]);
  }

  /** An example history: an unparsable date and a non-numeric
      NAV are dropped, the two good entries kept. */
  lemma MixedHistoryExample(raw: RawHistory)
    requires raw == [("01-01-2023", "10.5"), ("bad-date", "11.0"), ("02-01-2023", "not-a-number"), ("03-01-2023", "12.2")]
    ensures Sanitize(raw) == [NavRow("01/01/2023", Float("10.5")), NavRow("03/01/2023", Float("12.2"))]
  {
    FirstOfJanuary(raw[0].0, raw[0].1);
    BadEntries(raw[1], raw[2]);
    ThirdOfJanuary(raw[3].0, raw[3].1);
    FilterMapKeepsOuter(SanitizeEntry, raw, NavRow("01/01/2023", Float("10.5")), NavRow("03/01/2023", Float("12.2")));
  }

  /** Rows keep the provider's order: a later date listed first stays first. */
  lemma KeepsInputOrderExample(raw: RawHistory)
    requires raw == [("03-01-2023", "12.2"), ("01-01-2023", "10.5")]
    ensures Sanitize(raw) == [NavRow("03/01/2023", Float("12.2")), NavRow("01/01/2023", Float("10.5"))]
  {
    ThirdOfJanuary(raw[0].0, raw[0].1);
    FirstOfJanuary(raw[1].0, raw[1].1);
    FilterMapKeepsPair(SanitizeEntry, raw, NavRow("03/01/2023", Float("12.2")), NavRow("01/01/2023", Float("10.5")));
  }
}
