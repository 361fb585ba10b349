/** What the "Mutual Fund Details" tab ends up showing for one query
    (mf.py:58-141). The three provider calls are inputs: each is the data it
    returns or the message of the exception it raises. */
module FundTab {
  import opened Results
  import opened SchemeSearch
  import opened SchemeDetails
  import opened NavHistory

  datatype Provider = Provider(
    schemeCodes: Fetch<Directory>,
    schemeDetails: string -> Fetch<RawDetail>,
    historicalNav: string -> Fetch<RawHistory>)

  /** Why the NAV section shows "Error fetching NAV history" (mf.py:136-137):
      the provider call raised, or the Date column failed to parse back. */
  datatype NavError = ProviderError(message: string) | DateColumnError

  datatype NavOutcome =
    | NavFailed(error: NavError)                           // mf.py:136-137
    | NoValidData                                          // mf.py:134-135
    | NavChart(rows: seq<NavRow>, points: seq<NavPoint>)   // mf.py:121-133

  datatype SchemeOutcome =
    | NothingSelected                                      // mf.py:81, an empty code
    | DetailFailed(message: string)                        // raised at mf.py:83, reported at 140-141
    | SchemeShown(code: string, detail: SchemeDetail, nav: NavOutcome)

  datatype TabOutcome =
    | NoSearch                                             // mf.py:62, empty query
    | SearchFailed(message: string)                        // mf.py:140-141
    | NoMatches                                            // mf.py:138-139
    | Matched(schemes: Directory, scheme: SchemeOutcome)   // mf.py:72-137

  /** The NAV section, mf.py:103-137. */
  function NavSection(history: Fetch<RawHistory>): (r: NavOutcome)
  {
    match history
    case FetchFailed(message) => NavFailed(ProviderError(message))
    case Fetched(raw) =>
      var rows := Sanitize(raw);
      if rows == [] then NoValidData
      else
        match Reparse(rows)
        case None => NavFailed(DateColumnError)
        case Some(points) => NavChart(rows, points)
  }

  /** The select box shows the matched codes in order and preselects the
      first; a choice out of range falls back to that default. */
  function Selected(schemes: Directory, choice: nat): (code: string)
    requires schemes != []
    ensures exists s :: s in schemes && s.code == code
  {
    var i := if choice < |schemes| then choice else 0;
    assert schemes[i] in schemes;
    schemes[i].code
  }

  /** Every matched scheme can be chosen. */
  lemma EverySchemeSelectable(schemes: Directory, s: Scheme)
    requires s in schemes
    ensures exists choice: nat :: Selected(schemes, choice) == s.code
  {
    var i :| 0 <= i < |schemes| && schemes[i] == s;
    assert Selected(schemes, i) == s.code;
  }

  /** With unique codes, an in-range choice selects the scheme shown at
      that position: its code names that scheme and no other. */
  lemma SelectedIsChosenScheme(schemes: Directory, choice: nat)
    requires UniqueCodes(schemes) && choice < |schemes|
    ensures NameOf(schemes, Selected(schemes, choice)) == Some(schemes[choice].name)
  {
    NameOfMember(schemes, choice);
  }

  /** The scheme section for the selected code, mf.py:81-137. */
  function SchemeSection(provider: Provider, code: string): SchemeOutcome
  {
    if code == "" then NothingSelected
    else
      match provider.schemeDetails(code)
      case FetchFailed(message) => DetailFailed(message)
      case Fetched(raw) => SchemeShown(code, Project(raw), NavSection(provider.historicalNav(code)))
  }

  /** The whole tab for one query and one selection. */
  function Tab(query: string, provider: Provider, choice: nat): (r: TabOutcome)
    ensures r.NoSearch? <==> query == ""
    ensures r.SearchFailed? <==> query != "" && provider.schemeCodes.FetchFailed?
    ensures r.NoMatches? <==> query != "" && provider.schemeCodes.Fetched? && Match(provider.schemeCodes.value, query) == []
    ensures r.Matched? ==> provider.schemeCodes.Fetched? && r.schemes == Match(provider.schemeCodes.value, query) && r.schemes != []
  {
    if query == "" then NoSearch
    else
      match provider.schemeCodes
      case FetchFailed(message) => SearchFailed(message)
      case Fetched(dir) =>
        var schemes := Match(dir, query);
        if schemes == [] then NoMatches
        else Matched(schemes, SchemeSection(provider, Selected(schemes, choice)))
  }

  /** With an empty query nothing is searched, even though matching the
      empty query would keep every scheme. */
  lemma EmptyQueryShowsNothing(provider: Provider, choice: nat)
    ensures Tab("", provider, choice) == NoSearch
    ensures provider.schemeCodes.Fetched? ==> Match(provider.schemeCodes.value, "") == provider.schemeCodes.value
  {
    if provider.schemeCodes.Fetched? {
      EmptyQueryMatchesAll(provider.schemeCodes.value);
    }
  }

  /** A history the provider did return never ends in the error branch:
      the sanitized dates always parse back. It ends in "no valid data"
      exactly when no entry has both a real dd-mm-yyyy date and a numeric
      NAV; otherwise the chart gets one point per such entry. */
  lemma NavSectionOfHistory(raw: RawHistory)
    ensures !NavSection(Fetched(raw)).NavFailed?
    ensures NavSection(Fetched(raw)).NoValidData? <==> forall j :: 0 <= j < |raw| ==> !IsValidEntry(raw[j])
    ensures NavSection(Fetched(raw)).NavChart? ==>
              NavSection(Fetched(raw)).rows == Sanitize(raw)
              && |NavSection(Fetched(raw)).points| == |KeptEntries(raw)|
  {
    SanitizedSeries(raw);
    SanitizeEmptyIff(raw);
  }

  /** A failed history call is reported as such, never as "no valid data". */
  lemma NavSectionOfFailure(message: string)
    ensures NavSection(FetchFailed(message)) == NavFailed(ProviderError(message))
    ensures !NavSection(FetchFailed(message)).NoValidData?
  {
  }

  /** An empty history is "no valid data", not an error. */
  lemma EmptyHistoryIsNoValidData()
    ensures NavSection(Fetched([])) == NoValidData
  {
  }

  /** The scheme shown is one of the matches, and its details and NAV
      history are fetched for that code. */
  lemma ShownSchemeIsMatched(query: string, provider: Provider, choice: nat)
    requires Tab(query, provider, choice).Matched?
    requires Tab(query, provider, choice).scheme.SchemeShown?
    ensures var r := Tab(query, provider, choice);
            && (exists s :: s in r.schemes && s.code == r.scheme.code)
            && provider.schemeDetails(r.scheme.code).Fetched?
            && r.scheme.detail == Project(provider.schemeDetails(r.scheme.code).value)
            && r.scheme.nav == NavSection(provider.historicalNav(r.scheme.code))
  {
  }
}
