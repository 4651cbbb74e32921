/**
 The cookie script (`LuoguBusAutoCookie__DANGEROUS.py`) around the shared
 pieces: its colours, its CSV writer (which appends every record twice) and
 `LuoguDiaryGenerator.run`, which takes the credentials from the browser or,
 failing that, from the user.
 */
module AutoCookie {
  import opened Common
  import opened Submissions
  import opened Export
  import opened ChromeCookies

  /** The header fill and `status_colors` of this script: six-digit colours. */
  const Colours: Palette := Palette("4F81BD", map[
    "AC" := "00B050", "WA" := "FF0000", "TLE" := "FFC000",
    "MLE" := "7030A0", "RE" := "FF0000", "CE" := "000000"])

  /** Exactly the codes of AC, WA, TLE, MLE, RE and CE get a colour; Half AC and unknown codes do not. */
  lemma ColouredCodes(code: int)
    ensures ExcelLabel(code) in Colours.statusColours <==> code in {12, 7, 4, 5, 6, 2}
  {
    FallbackLabels(code);
  }

  /** The rows `create_csv` hands to the writer: each record's row, twice in a row. */
  function CsvRowsTwice(records: seq<Record>, fmt: TimeFormat): (rows: seq<CsvRow>)
    ensures |rows| == 2 * |records|
    ensures forall i :: 0 <= i < |records| ==>
      rows[2 * i] == CsvRowOf(records[i], fmt) && rows[2 * i + 1] == CsvRowOf(records[i], fmt)
  {
    if records == [] then []
    else
      var row := CsvRowOf(records[|records| - 1], fmt);
      CsvRowsTwice(records[..|records| - 1], fmt) + [row, row]
  }

  /** One more record adds its row twice. */
  lemma CsvRowsTwiceStep(records: seq<Record>, fmt: TimeFormat, i: nat)
    requires i < |records|
    ensures CsvRowsTwice(records[..i + 1], fmt) == CsvRowsTwice(records[..i], fmt) + [CsvRowOf(records[i], fmt), CsvRowOf(records[i], fmt)]
  {
    assert records[..i + 1][..i] == records[..i];
  }

  /** `DiaryExporter.create_csv`: nothing is written for no records. */
  method CreateCsv(records: seq<Record>, fmt: TimeFormat) returns (file: Option<CsvFile>)
    ensures records == [] ==> file.None?
    ensures records != [] ==> file == Some(CsvFile(CsvFields, CsvRowsTwice(records, fmt)))
  {
    if records == [] {
      return None;
    }
    var data: seq<CsvRow> := [];
    var i := 0;
    while i < |records|
      invariant 0 <= i <= |records|
      invariant data == CsvRowsTwice(records[..i], fmt)
    {
      var row := CsvRowOf(records[i], fmt);
      data := data + [row];
      data := data + [row];
      CsvRowsTwiceStep(records, fmt, i);
      assert data == CsvRowsTwice(records[..i], fmt) + [row, row];
      i := i + 1;
    }
    assert records[..|records|] == records;
    file := Some(CsvFile(CsvFields, data));
  }

  const Domain: string := "luogu.com.cn"
  const FetchCount: int := 100

  /**
   The credentials `run` goes on with, as (`__client_id`, `_uid`): the
   extracted ones when both are non-empty, otherwise both typed lines,
   stripped. It can go on exactly when the browser supplied both, or when
   each typed line has a character that is not whitespace.
   */
  function Credentials(cookies: map<string, string>, typedClientId: string, typedUid: string): (r: (string, string))
    ensures (r.0 != [] && r.1 != []) <==>
      || ("__client_id" in cookies && cookies["__client_id"] != [] && "_uid" in cookies && cookies["_uid"] != [])
      || (!AllSpace(typedClientId) && !AllSpace(typedUid))
    ensures "__client_id" in cookies && cookies["__client_id"] != [] && "_uid" in cookies && cookies["_uid"] != [] ==>
      r == (cookies["__client_id"], cookies["_uid"])
    ensures !("__client_id" in cookies && cookies["__client_id"] != [] && "_uid" in cookies && cookies["_uid"] != []) ==>
      r == (Strip(typedClientId), Strip(typedUid))
  {
    StripEmptyIff(typedClientId);
    StripEmptyIff(typedUid);
    var clientId := if "__client_id" in cookies then cookies["__client_id"] else "";
    var uid := if "_uid" in cookies then cookies["_uid"] else "";
    if clientId == "" || uid == "" then (Strip(typedClientId), Strip(typedUid)) else (clientId, uid)
  }

  /**
   `LuoguDiaryGenerator.run`. The typed lines are what `input()` would return,
   `server` answers the record-list request for (`_uid`, `__client_id`), and
   `fmt` formats timestamps; `sys.exit(1)` is an outcome.
   */
  method Run(b: Browser, typedClientId: string, typedUid: string,
             server: (string, string) -> Response, fmt: TimeFormat) returns (out: Outcome)
    ensures var creds := Credentials(ExtractedCookies(b, Domain), typedClientId, typedUid);
      && (out.MissingCredentials? <==> creds.0 == [] || creds.1 == [])
      && (out.NoRecords? <==> creds.0 != [] && creds.1 != [] && Fetched(server(creds.1, creds.0), FetchCount) == [])
      && (out.Exported? ==>
            && out.uid == creds.1
            && out.records == Fetched(server(creds.1, creds.0), FetchCount)
            && out.sheet.title == SheetTitle
            && out.sheet.rows == [Headers] + ExcelRows(out.records, fmt)
            && StyledUpTo(out.sheet, out.records, Colours, |out.records|, 1)
            && out.csv == Some(CsvFile(CsvFields, CsvRowsTwice(out.records, fmt))))
  {
    var cookies := GetChromeCookies(b, Domain);
    var creds := Credentials(cookies, typedClientId, typedUid);
    var clientId, uid := creds.0, creds.1;
    if clientId == [] || uid == [] {
      return MissingCredentials;
    }
    var records := FetchSubmissions(server(uid, clientId), FetchCount);
    if records == [] {
      return NoRecords;
    }
    var sheet := CreateExcel(records, Colours, fmt);
    var csv := CreateCsv(records, fmt);
    out := Exported(uid, records, sheet, csv);
  }
}
