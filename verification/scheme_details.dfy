/** The scheme detail table (mf.py:86-94): the provider's raw detail record
    is cut down to seven fixed fields, each read with a default of "N/A". */
module SchemeDetails {

  /** The provider's detail record: field name to value. */
  type RawDetail = map<string, string>

  /** The seven displayed fields, in display order. */
  datatype Field =
    | FundHouse | SchemeType | SchemeCategory | SchemeCode
    | SchemeName | SchemeStartDate | NavValue

  const AllFields: seq<Field> :=
    [FundHouse, SchemeType, SchemeCategory, SchemeCode, SchemeName, SchemeStartDate, NavValue]

  /** The default for a field the record lacks. */
  const NotAvailable: string := "N/A"

  /** The key a field is read from in the raw record. */
  function SourceKey(f: Field): string
  {
    match f
    case FundHouse => "fund_house"
    case SchemeType => "scheme_type"
    case SchemeCategory => "scheme_category"
    case SchemeCode => "scheme_code"
    case SchemeName => "scheme_name"
    case SchemeStartDate => "scheme_start_date"
    case NavValue => "nav"
  }

  /** The column heading a field is shown under. */
  function Label(f: Field): string
  {
    match f
    case FundHouse => "Fund House"
    case SchemeType => "Scheme Type"
    case SchemeCategory => "Scheme Category"
    case SchemeCode => "Scheme Code"
    case SchemeName => "Scheme Name"
    case SchemeStartDate => "Scheme Start Date"
    case NavValue => "NAV Value"
  }

  datatype SchemeDetail = SchemeDetail(
    fundHouse: string,
    schemeType: string,
    schemeCategory: string,
    schemeCode: string,
    schemeName: string,
    schemeStartDate: string,
    navValue: string)

  function Get(d: SchemeDetail, f: Field): string
  {
    match f
    case FundHouse => d.fundHouse
    case SchemeType => d.schemeType
    case SchemeCategory => d.schemeCategory
    case SchemeCode => d.schemeCode
    case SchemeName => d.schemeName
    case SchemeStartDate => d.schemeStartDate
    case NavValue => d.navValue
  }

  /** `raw.get(key, "N/A")` */
  function GetOrNA(raw: RawDetail, key: string): string
  {
    if key in raw then raw[key] else NotAvailable
  }

  /** The projection of mf.py:86-94. Every field of the result is the raw
      value under the field's key when there is one, and "N/A" when not. */
  function Project(raw: RawDetail): (d: SchemeDetail)
    ensures forall f: Field :: SourceKey(f) in raw ==> Get(d, f) == raw[SourceKey(f)]
    ensures forall f: Field :: SourceKey(f) !in raw ==> Get(d, f) == NotAvailable
  {
    SchemeDetail(
      fundHouse := GetOrNA(raw, "fund_house"),
      schemeType := GetOrNA(raw, "scheme_type"),
      schemeCategory := GetOrNA(raw, "scheme_category"),
      schemeCode := GetOrNA(raw, "scheme_code"),
      schemeName := GetOrNA(raw, "scheme_name"),
      schemeStartDate := GetOrNA(raw, "scheme_start_date"),
      navValue := GetOrNA(raw, "nav"))
  }

  /** The one-row table shown: heading and value per field, in display order. */
  function Table(d: SchemeDetail): seq<(string, string)>
  {
    seq(|AllFields|, i requires 0 <= i < |AllFields| => (Label(AllFields[i]), Get(d, AllFields[i])))
  }

  function Headings(rows: seq<(string, string)>): seq<string>
  {
    seq(|rows|, i requires 0 <= i < |rows| => rows[i].0)
  }

  /** The table always has exactly the seven headings of mf.py:87-93, in
      that order, whatever the raw record holds. */
  lemma TableHeadings(d: SchemeDetail)
    ensures Headings(Table(d)) == ["Fund House", "Scheme Type", "Scheme Category", "Scheme Code",
                                   "Scheme Name", "Scheme Start Date", "NAV Value"]
  {
    var h := Headings(Table(d));
    assert |h| == 7;
    assert h[0] == Label(FundHouse);
    assert h[1] == Label(SchemeType);
    assert h[2] == Label(SchemeCategory);
    assert h[3] == Label(SchemeCode);
    assert h[4] == Label(SchemeName);
    assert h[5] == Label(SchemeStartDate);
    assert h[6] == Label(NavValue);
  }

  /** What the dashboard shows for a raw record: row i is field i's heading
      with the raw value under its key, or "N/A" when the key is missing. */
  lemma TableOfRecord(raw: RawDetail)
    ensures |Table(Project(raw))| == 7
    ensures forall i :: 0 <= i < |Table(Project(raw))| ==>
      Table(Project(raw))[i]
        == (Label(AllFields[i]), if SourceKey(AllFields[i]) in raw then raw[SourceKey(AllFields[i])] else NotAvailable)
  {
    var t := Table(Project(raw));
    forall i | 0 <= i < |t|
      ensures t[i] == (Label(AllFields[i]), GetOrNA(raw, SourceKey(AllFields[i])))
    {
      var f := AllFields[i];
      assert t[i] == (Label(f), Get(Project(raw), f));
    }
  }

  /** Nothing is lost between the detail and its table: two details with the
      same table are the same detail. */
  lemma TableDeterminesDetail(d1: SchemeDetail, d2: SchemeDetail)
    requires Table(d1) == Table(d2)
    ensures d1 == d2
  {
    forall i | 0 <= i < |AllFields|
      ensures Get(d1, AllFields[i]) == Get(d2, AllFields[i])
    {
      assert Table(d1)[i] == Table(d2)[i];
    }
    assert Get(d1, AllFields[0]) == Get(d2, AllFields[0]);
    assert Get(d1, AllFields[1]) == Get(d2, AllFields[1]);
    assert Get(d1, AllFields[2]) == Get(d2, AllFields[2]);
    assert Get(d1, AllFields[3]) == Get(d2, AllFields[3]);
    assert Get(d1, AllFields[4]) == Get(d2, AllFields[4]);
    assert Get(d1, AllFields[5]) == Get(d2, AllFields[5]);
    assert Get(d1, AllFields[6]) == Get(d2, AllFields[6]);
  }

  /** No two fields share a heading or a source key. */
  lemma FieldsDistinct(f: Field, g: Field)
    ensures Label(f) == Label(g) ==> f == g
    ensures SourceKey(f) == SourceKey(g) ==> f == g
  {
  }

  /** A field shows "N/A" exactly when its key is missing or the raw value
      is itself "N/A": a missing field cannot be told from that value. */
  lemma ShowsNotAvailable(raw: RawDetail, f: Field)
    ensures Get(Project(raw), f) == NotAvailable
        <==> SourceKey(f) !in raw || raw[SourceKey(f)] == NotAvailable
  {
  }

  /** Keys other than the seven source keys have no effect on the projection. */
  lemma ProjectReadsOnlySourceKeys(raw1: RawDetail, raw2: RawDetail)
    requires forall f: Field :: (SourceKey(f) in raw1 <==> SourceKey(f) in raw2)
    requires forall f: Field :: SourceKey(f) in raw1 ==> raw1[SourceKey(f)] == raw2[SourceKey(f)]
    ensures Project(raw1) == Project(raw2)
  {
    var d1, d2 := Project(raw1), Project(raw2);
    assert Get(d1, FundHouse) == Get(d2, FundHouse);
    assert Get(d1, SchemeType) == Get(d2, SchemeType);
    assert Get(d1, SchemeCategory) == Get(d2, SchemeCategory);
    assert Get(d1, SchemeCode) == Get(d2, SchemeCode);
    assert Get(d1, SchemeName) == Get(d2, SchemeName);
    assert Get(d1, SchemeStartDate) == Get(d2, SchemeStartDate);
    assert Get(d1, NavValue) == Get(d2, NavValue);
  }

  /** The projection of a record holding only a fund house and a NAV. */
  lemma PartialRecordExample()
    ensures Project(map["fund_house" := "XYZ AMC", "nav" := "45.67"])
         == SchemeDetail("XYZ AMC", "N/A", "N/A", "N/A", "N/A", "N/A", "45.67")
  {
  }
}
