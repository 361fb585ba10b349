# Mutual fund dashboard: search, detail projection and NAV history

A Dafny model of the data handling behind the "Mutual Fund Details" tab of a
Streamlit dashboard (`mf.py`). The tab does three things with what the
`mftool` provider returns:

- **Scheme search.** The scheme directory (code to name) is filtered down to
  the schemes whose name contains the query, ignoring case (mf.py:66-70).
  An empty query searches nothing (mf.py:62).
- **Detail projection.** The raw detail record of the selected scheme is cut
  down to seven fixed fields. Each field is read with the default "N/A"
  (mf.py:86-94).
- **NAV history sanitizer.** The history (date text to NAV text) is walked in
  provider order (mf.py:108-119):
  - An entry is kept when its date converts with `pd.to_datetime(...,
    format="%d-%m-%Y")` and its NAV converts with `float()`. It is stored with
    the date re-rendered as dd/mm/yyyy.
  - Any other entry is skipped.
  - The kept dates are then parsed back with `%d/%m/%Y` (mf.py:125).
  - No kept rows shows a warning (mf.py:134-135). An exception shows an
    error (mf.py:136-137).

The modules follow that structure:

- `Results` holds `Option` and `Fetch`. A `Fetch` is either the provider's
  data or the message of the exception it raised.
- `Text` covers ASCII lower-casing and the substring test `in`.
- `Calendar` covers Gregorian dates as Python's `datetime` accepts them.
- `DateFormat` covers the strptime/strftime day-month-year formats.
- `PyFloat` gives the syntax `float()` accepts.
- `FilterMaps` gives the shape of the sanitizer loop and of the
  all-or-nothing column conversion.
- `SchemeSearch`, `SchemeDetails` and `NavHistory` model the three parts
  above.
- `FundTab` is the tab's outcome for one query, one provider answer and one
  selection.

Some modelling choices, each following the code:

- **No sorting.** The history rows reach the table and the chart in the
  provider's order. `KeepsInputOrderExample` shows a later date listed first
  staying first.
- **Non-finite values pass.** `float()` accepts "nan" and "-Infinity", so a
  kept NAV need not be finite (`NanIsNumeric`, `NegativeInfinityIsNumeric`).
- **Names only.** The prompt reads "Scheme Name or Code" and the comment at
  mf.py:64 says "by name or code", but only names are searched. A query equal
  to a scheme's code finds nothing as soon as one of its digits occurs in no
  name (`SearchByCodeFindsNothing`).
- **Timestamp range.** `pd.to_datetime` rejects dates a nanosecond Timestamp
  cannot hold (before 22 September 1677 or after 11 April 2262). It raises
  `OutOfBoundsDatetime`, a `ValueError`, so such entries are skipped
  (`ToDatetime`, `OutOfRangeIsRejected`).
- **Lenient date fields.** The `%d` and `%m` patterns also read a one-digit
  day or month, and `%d` also reads a space and one digit (`ParseDate`,
  `UnpaddedDate`).
- **The re-parse never fails.** The error branch that a failing re-parse at
  mf.py:125 would reach cannot be reached from a history the provider
  returned (`NavSectionOfHistory`).

## Model

| member | source | states |
|---|---|---|
| SchemeSearch.Match | mf.py:66-70 | A scheme is in the result exactly when it is in the directory and its lower-cased name contains the lower-cased query. Nothing is added or altered, and the result is never longer than the directory. |
| SchemeSearch.MatchKeepsOrder | mf.py:66-70 | The matches are a subsequence of the directory: the comprehension keeps the directory's order. |
| SchemeSearch.MatchUniqueCodes | mf.py:66-70 | A directory with unique codes (a dict) yields matches with unique codes. |
| SchemeSearch.MatchKeepsNames | mf.py:66-70 | Every code in the result maps to the name the directory gives it, and that name contains the query. |
| SchemeSearch.MatchIgnoresCode | mf.py:69 | Two entries with the same name are kept or dropped together, whatever their codes. |
| SchemeSearch.SearchByCodeFindsNothing | mf.py:60-70 | For every directory and every query, the search finds nothing when some digit of the query occurs in no scheme name. So such a code finds nothing, although the prompt offers search by code. |
| SchemeSearch.SearchByCodeExample | mf.py:60-70 | Example: the code "100001" finds nothing in a directory that lists it as "Alpha Growth Fund". |
| SchemeSearch.NothingMatches | mf.py:66-70 | When no name contains the query, the match is empty. |
| SchemeSearch.MatchIgnoresQueryCase | mf.py:69 | Lower-casing the query first does not change the result. |
| SchemeSearch.MatchSameDecisions | mf.py:66-70 | Two queries that accept the same names in a directory give the same result on it. |
| SchemeSearch.EmptyQueryMatchesAll | mf.py:62-70 | Matching the empty query would keep the whole directory; this is what the guard at line 62 prevents. |
| SchemeSearch.MatchIdempotent | mf.py:66-70 | Filtering the matches again with the same query changes nothing. |
| SchemeSearch.AlphaExample | mf.py:66-70 | In a two-scheme directory the query "alpha" finds "Alpha Growth Fund" and not "Beta Bond Fund". |
| Text.Lower | mf.py:69 | Lower-casing keeps the length and maps each character to its lower-case form; no upper-case letter survives. |
| Text.LowerIdempotent | mf.py:69 | Lower-casing twice is lower-casing once. |
| Text.ContainsIsSubstring | mf.py:69 | The left-to-right scan for `needle in hay` succeeds exactly when the needle occurs at some position of the haystack. |
| Text.EmptyIsEverywhere | mf.py:69 | The empty string is in every string. |
| Text.MissingCharNotContained | mf.py:69 | A needle holding a character the haystack lacks is not found. |
| SchemeDetails.Project | mf.py:86-94 | Each of the seven fields holds the raw value under its source key when the record has that key, and "N/A" when it does not. |
| SchemeDetails.TableOfRecord | mf.py:86-98 | For every raw record, the one-row table shown has seven columns. Column i is headed by field i's label and holds the record's value under that field's key, or "N/A" when the key is missing. |
| SchemeDetails.TableDeterminesDetail | mf.py:96-98 | Two details with the same table are the same detail: the table drops no field. |
| SchemeDetails.TableHeadings | mf.py:87-93 | The headings are always the seven fixed labels, in order, whatever the record holds. |
| SchemeDetails.FieldsDistinct | mf.py:87-93 | No two fields share a heading or a source key. |
| SchemeDetails.ShowsNotAvailable | mf.py:86-94 | A field shows "N/A" exactly when its key is missing or the raw value is itself "N/A". |
| SchemeDetails.ProjectReadsOnlySourceKeys | mf.py:86-94 | Records that agree on the seven source keys project to the same detail; other keys are ignored. |
| SchemeDetails.PartialRecordExample | mf.py:86-94 | A record with only a fund house and a NAV projects to those two values and "N/A" elsewhere. |
| Calendar.IsValid | mf.py:113 | The date check inside `pd.to_datetime`: year 1 to 9999, month 1 to 12, and a day within the month. It is characterised by `DaysInMonth` and `LeapDays`. |
| Calendar.DaysInMonth | mf.py:113 | Months have 28 to 31 days. February has 29 exactly in leap years and 28 otherwise. |
| Calendar.YearLength | mf.py:113 | The month lengths add up to 366 days in a leap year and 365 otherwise. |
| Calendar.DayOfYearInRange | mf.py:113 | Every valid date falls on a day 1 to 365 (366 in a leap year) of its year. |
| Calendar.LeapDays | mf.py:113 | 29 February is valid in 2000 and 2024 and invalid in 1900 and 2023. 31 April, month 13, day 0 and year 0 are invalid. |
| DateFormat.DigitsValueOfDigits | mf.py:113 | Reading back a number written with w zero-padded digits gives the number modulo 10^w. |
| DateFormat.DigitsOfDigitsValue | mf.py:113 | Writing back the value of a digit string at its own width gives the string. |
| DateFormat.FormatDate | mf.py:113 | The strftime rendering is ten characters: two-digit day and month, four-digit year, separators at positions 2 and 5. |
| DateFormat.ParseField | mf.py:113 | A day or month field reads as a value and a form that write the field back exactly. |
| DateFormat.SplitDate | mf.py:113 | A split gives day and month texts of one or two characters and a four-character year that rejoin to the input. |
| DateFormat.ParseDate | mf.py:113 | Whatever the parse returns is a real calendar date that the input text writes in one of the accepted forms. |
| DateFormat.NoEarlySeparator | mf.py:113 | A text with no separator at its second or third character is not a date. |
| DateFormat.RenderThenParse | mf.py:113 | Every accepted way of writing a valid date parses back to that date. |
| DateFormat.FormatThenParse | mf.py:113-125 | A valid date rendered with a separator parses back, with the same separator, to itself. |
| DateFormat.ParseDateExact | mf.py:113 | The parse yields d exactly when d is valid and the text is one of d's accepted renderings. |
| DateFormat.ReformatRoundTrip | mf.py:113-125 | A date parsed from dd-mm-yyyy, re-rendered with slashes and parsed with `%d/%m/%Y`, is the same date. |
| DateFormat.UnpaddedDate | mf.py:113 | "1-2-2023" and " 5-11-2023" convert, to 1 February and 5 November 2023. |
| NavHistory.ToDatetime | mf.py:113 | The conversion succeeds exactly when the text parses and the date lies in the Timestamp range; the result is a real date the text writes. |
| NavHistory.FormatThenConvert | mf.py:113-125 | A date in the Timestamp range, rendered and converted back, is itself. |
| NavHistory.TimestampRangeEnds | mf.py:113 | 22 September 1677 and 11 April 2262 are the first and last days accepted; the days beyond them are not. |
| NavHistory.OutOfRangeIsRejected | mf.py:113-119 | A real date outside the Timestamp range parses but does not convert, so its entry is skipped. |
| NavHistory.SanitizeEntry | mf.py:110-119 | An entry yields a row exactly when its date converts and its NAV is numeric. The row's date re-converts with `/` to the original date, and its NAV is the converted text. |
| NavHistory.Sanitize | mf.py:108-119 | The sanitized history never has more rows than the provider's history. |
| NavHistory.KeptEntries | mf.py:108-119 | The kept positions are strictly increasing, every one is a valid entry, and every valid entry is among them. |
| NavHistory.SanitizeIsFilterMap | mf.py:108-119 | Row k is the row of the k-th valid entry, and there is one row per valid entry. |
| NavHistory.SkipsInvalidEntry | mf.py:117-119 | An invalid entry is dropped on its own: the entries before and after it are sanitized as if it were absent. |
| NavHistory.SanitizeEmptyIff | mf.py:121-135 | No rows survive exactly when no entry is valid. |
| NavHistory.SanitizeLoop | mf.py:108-119 | The loop that appends a row per convertible entry and skips the rest computes the sanitized history. |
| NavHistory.LoopStep | mf.py:109-119 | One pass of the loop appends the entry's own row after the rows so far exactly when the entry is valid, and appends nothing otherwise. |
| NavHistory.Reparse | mf.py:125 | The column converts exactly when every row's date converts. Then point k has row k's date and NAV. |
| NavHistory.SanitizedSeries | mf.py:108-125 | Parsing back the sanitized rows never fails. Point k carries the date converted from the k-th valid entry's own text and that entry's NAV. |
| NavHistory.ValidEntryRow | mf.py:110-116 | A valid in-range date written dd-mm-yyyy with a numeric NAV becomes the row with the date written dd/mm/yyyy and that NAV. |
| NavHistory.BadEntries | mf.py:113-119 | "bad-date" is not a date and "not-a-number" is not a NAV: both entries are skipped. |
| NavHistory.MixedHistoryExample | mf.py:108-119 | A four-entry history with one bad date and one bad NAV sanitizes to the two good rows, in order, with slashed dates. |
| NavHistory.KeepsInputOrderExample | mf.py:108-125 | A later date listed before an earlier one stays first: the rows are not sorted. |
| PyFloat.IsNumeric | mf.py:114 | Whether `float()` accepts a text. It is characterised by `UnpaddedIsNumeric` (unpadded text converts exactly when it is a float literal or a spelling of infinity or nan) and `PaddedIsNumeric` (whitespace padding never changes the answer). |
| PyFloat.LetterStartIsNotNumeric | mf.py:114 | Text whose first non-space character is a letter other than i or n never converts. |
| PyFloat.PlainDecimalIsNumeric | mf.py:114 | Digits, a point and digits always convert. |
| PyFloat.StripPadded | mf.py:114 | Stripping a text padded with whitespace gives the same result as stripping the text alone. |
| PyFloat.PaddedIsNumeric | mf.py:114 | For every text and all whitespace before and after it, the padded text converts exactly when the text itself does. Whitespace is tab, line feed, vertical tab, form feed, carriage return and space. |
| PyFloat.TrimStartAppend | mf.py:114 | Stripping the front of a joined text reaches the second part only when the first part is all whitespace. |
| PyFloat.AllSpaceTrimStart | mf.py:114 | Stripping the front leaves nothing exactly when the text is all whitespace. |
| PyFloat.TrimEndSpaces | mf.py:114 | Stripping the back ignores any whitespace tail. |
| PyFloat.ExponentIsNumeric | mf.py:114 | Every decimal number followed by e or E, a sign and a digit group converts. |
| PyFloat.ScientificIsNumeric | mf.py:114 | Example: "1_000.5e-3", with underscore-grouped digits, a fraction and a signed exponent, converts. |
| PyFloat.UnpaddedIsNumeric | mf.py:114 | Text without surrounding whitespace converts exactly when it is a float literal or a spelling of infinity or nan. |
| PyFloat.NanIsNumeric | mf.py:114 | "nan" converts, so a NAV need not be finite. |
| PyFloat.NegativeInfinityIsNumeric | mf.py:114 | "-Infinity" converts. |
| PyFloat.WordIsNotNumeric | mf.py:114 | "not-a-number" does not convert. |
| PyFloat.BlankIsNotNumeric | mf.py:114 | No empty or all-whitespace text converts. |
| PyFloat.DoubleUnderscoreIsNotNumeric | mf.py:114 | Two underscores in a row break a digit group, so "1__0" does not convert. |
| FilterMaps.FilterMapKept | mf.py:108-119 | The k-th output of the filter-map is the converted value of the k-th element that converts. |
| FilterMaps.FilterMapConcat | mf.py:108-119 | Filter-mapping two pieces and joining the outputs is filter-mapping the whole. |
| FilterMaps.FilterMapEmpty | mf.py:121 | The output is empty exactly when no element converts. |
| FilterMaps.MapAll | mf.py:125 | An all-or-nothing conversion succeeds exactly when every element converts. It then holds one converted value per element, in order. |
| FundTab.Tab | mf.py:62-141 | Nothing is searched exactly when the query is empty. The directory call's failure is reported exactly when it raised. "No matches" appears exactly when the match is empty; otherwise the shown list is the match. |
| FundTab.SchemeSection | mf.py:81-105 | The details section of the selected code: nothing for an empty selection, the provider's message when the detail call raises, and otherwise the projected detail with its NAV section. `ShownSchemeIsMatched` states this for the shown scheme. |
| FundTab.Selected | mf.py:77-79 | The selected code is the code of one of the matched schemes. |
| FundTab.EverySchemeSelectable | mf.py:77-79 | Every matched scheme can be selected by some choice. |
| FundTab.SelectedIsChosenScheme | mf.py:77-79 | When codes are unique, an in-range choice selects the code of the scheme at that position, and that code names that scheme. |
| FundTab.EmptyQueryShowsNothing | mf.py:62 | An empty query shows nothing, although matching it would keep every scheme. |
| FundTab.NavSection | mf.py:103-137 | The NAV section: an error when the history call raises, "no valid data" when nothing survives sanitizing, and otherwise the re-parsed chart rows. `NavSectionOfHistory` and `NavSectionOfFailure` characterise it. |
| FundTab.NavSectionOfHistory | mf.py:121-137 | A returned history never ends in the error branch. It ends in "no valid data" exactly when no entry is valid; otherwise the chart rows are the sanitized history, one point per valid entry. |
| FundTab.NavSectionOfFailure | mf.py:103-137 | A failing history call is reported as an error, never as "no valid data". |
| FundTab.EmptyHistoryIsNoValidData | mf.py:121-135 | An empty history gives the "no valid data" warning, not an error. |
| FundTab.ShownSchemeIsMatched | mf.py:77-105 | The scheme whose details are shown is one of the matches. Its details are the projection of its own record and its chart is built from its own history. |

## Left out

- Rendering is not modelled: headers, widgets, the DataFrame tables, the line chart (mf.py:133), the sidebar menu, the login, investment, blog and insurance pages, images and embedded scripts. The model stops at the values those calls would display.
- The three `mftool` calls (mf.py:65, 83, 105) and the network behind them are inputs (`FundTab.Provider`): each returns data or raises with a message.
- FundTab.Selected: the user's pick is an index into the matches; an index past the end falls back to the first match, which the select box shows before any pick.
- PyFloat.ToFloat: the number a text denotes is not computed; a converted NAV is identified by its text, because only acceptance decides what the sanitizer keeps.
- PyFloat.IsNumeric: only ASCII digits and ASCII whitespace are modelled. Python's `float()` also accepts other Unicode digits and spaces. The ASCII separators 0x1C-0x1F count as whitespace for `str.isspace()` but not for `float()`, and the model follows `float()`.
- Text.Lower: only ASCII letters are lower-cased; Python's `str.lower` also maps other Unicode letters, some to more than one character.
- DateFormat.ParseDate: only ASCII digits are read, although the `\d` of the strptime pattern also matches other Unicode digits.
- NavHistory.ToDatetime: pandas turns "now" and "today" into the current time in some versions; the clock is not modelled, so these texts are rejected.
- NavHistory.ToDatetime: the Timestamp range is the nanosecond one; it depends on the pandas version in use.
- The raw detail record is modelled as a map from text to text. `get` at mf.py:87-93 copies a value of any type unchanged and never raises, so the projection would show values of other types as they are; only text values are modelled. A record that is not a mapping would raise on `get` and be reported at mf.py:140-141, which is not modelled.
- Exceptions other than `ValueError` inside the sanitizer loop cannot arise from text entries and are not modelled.
