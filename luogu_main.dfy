/**
 The interactive script (`LuoguBusMain.py`) around the shared pieces: its
 colours, its CSV writer (one row per record) and `main`, which takes the
 credentials from the user only.
 */
module LuoguMain {
  import opened Common
  import opened Submissions
  import opened Export

  /** The header fill and `status_colors` of this script: eight-digit colours with an alpha byte. */
  const Colours: Palette := Palette("FF4F81BD", map[
    "AC" := "FF00B050", "WA" := "FFFF0000", "TLE" := "FFFFC000",
    "MLE" := "FF7030A0", "RE" := "FFFF0000", "CE" := "FF000000"])

  /** Exactly the codes of AC, WA, TLE, MLE, RE and CE get a colour; Half AC and unknown codes do not. */
  lemma ColouredCodes(code: int)
    ensures ExcelLabel(code) in Colours.statusColours <==> code in {12, 7, 4, 5, 6, 2}
  {
    FallbackLabels(code);
  }

  /** The rows `create_csv` hands to the writer: one per record, in order. */
  function CsvRows(records: seq<Record>, fmt: TimeFormat): (rows: seq<CsvRow>)
    ensures |rows| == |records|
    ensures forall i :: 0 <= i < |records| ==> rows[i] == CsvRowOf(records[i], fmt)
  {
    if records == [] then []
    else CsvRows(records[..|records| - 1], fmt) + [CsvRowOf(records[|records| - 1], fmt)]
  }

  /** `create_csv`: nothing is written for no records. */
  method CreateCsv(records: seq<Record>, fmt: TimeFormat) returns (file: Option<CsvFile>)
    ensures records == [] ==> file.None?
    ensures records != [] ==> file == Some(CsvFile(CsvFields, CsvRows(records, fmt)))
  {
    if records == [] {
      return None;
    }
    var data: seq<CsvRow> := [];
    var i := 0;
    while i < |records|
      invariant 0 <= i <= |records|
      invariant data == CsvRows(records[..i], fmt)
    {
      data := data + [CsvRowOf(records[i], fmt)];
      assert records[..i + 1][..i] == records[..i];
      i := i + 1;
    }
    assert records[..|records|] == records;
    file := Some(CsvFile(CsvFields, data));
  }

  const FetchCount: int := 100

  /**
   `main`. The typed lines are what `input()` returns, `server` answers the
   record-list request for (`_uid`, `__client_id`), and `fmt` formats
   timestamps; `sys.exit(1)` is an outcome. The run goes on only when each
   typed line has a character that is not whitespace.
   */
  method GenerateDiary(typedClientId: string, typedUid: string,
                       server: (string, string) -> Response, fmt: TimeFormat) returns (out: Outcome)
    ensures out.MissingCredentials? <==> AllSpace(typedClientId) || AllSpace(typedUid)
    ensures var clientId, uid := Strip(typedClientId), Strip(typedUid);
      && (out.NoRecords? <==> clientId != [] && uid != [] && Fetched(server(uid, clientId), FetchCount) == [])
      && (out.Exported? ==>
            && out.uid == uid
            && out.records == Fetched(server(uid, clientId), FetchCount)
            && out.sheet.title == SheetTitle
            && out.sheet.rows == [Headers] + ExcelRows(out.records, fmt)
            && StyledUpTo(out.sheet, out.records, Colours, |out.records|, 1)
            && out.csv == Some(CsvFile(CsvFields, CsvRows(out.records, fmt))))
  {
    var clientId := Strip(typedClientId);
    var uid := Strip(typedUid);
    StripEmptyIff(typedClientId);
    StripEmptyIff(typedUid);
    if clientId == [] || uid == [] {
      return MissingCredentials;
    }
    var records := FetchSubmissions(server(uid, clientId), FetchCount);
    if records == [] {
      return NoRecords;
    }
    var sheet := CreateExcel(records, Colours, fmt);
    var csv := CreateCsv(records, fmt);
    out := Exported(uid, records, sheet, csv);
  }
}
