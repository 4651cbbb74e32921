/**
 The export step shared by both scripts: the status-code labels, the Excel
 worksheet (its rows and which cells get an alignment, a fill and a font),
 and the rows handed to the CSV writer.

 The worksheet is an openpyxl object; here it is a value that the export
 method reassigns as the script appends rows and styles cells. Cells are
 numbered from 1, as openpyxl numbers rows and columns.
 */
module Export {
  import opened Common
  import opened Submissions

  // ---------------------------------------------------------------------------
  // Status labels

  /** The seven status codes both scripts know by name. */
  function StatusName(code: int): (name: Option<string>)
    ensures name.Some? <==> code in {12, 7, 4, 5, 6, 2, 14}
    ensures name.Some? ==> name.value in ["AC", "WA", "TLE", "MLE", "RE", "CE", "Half AC"]
    ensures name == Some("AC") <==> code == 12
    ensures name == Some("WA") <==> code == 7
    ensures name == Some("TLE") <==> code == 4
    ensures name == Some("MLE") <==> code == 5
    ensures name == Some("RE") <==> code == 6
    ensures name == Some("CE") <==> code == 2
    ensures name == Some("Half AC") <==> code == 14
  {
    match code
    case 12 => Some("AC")
    case 7 => Some("WA")
    case 4 => Some("TLE")
    case 5 => Some("MLE")
    case 6 => Some("RE")
    case 2 => Some("CE")
    case 14 => Some("Half AC")
    case _ => None
  }

  /** The label in the Excel sheet; an unnamed code `n` becomes `未知(n)`. */
  function ExcelLabel(code: int): string
  {
    match StatusName(code)
    case Some(name) => name
    case None => "未知(" + IntToDecimal(code) + ")"
  }

  /** The label in the CSV file; an unnamed code `n` becomes `Unknown(n)`. */
  function CsvLabel(code: int): string
  {
    match StatusName(code)
    case Some(name) => name
    case None => "Unknown(" + IntToDecimal(code) + ")"
  }

  /**
   The label table both writers share: the seven named codes with the same
   name in both files, and for any other code `n` the writer's fallback around
   `str(n)`.
   */
  lemma StatusLabels(code: int)
    ensures ExcelLabel(12) == CsvLabel(12) == "AC"
    ensures ExcelLabel(7) == CsvLabel(7) == "WA"
    ensures ExcelLabel(4) == CsvLabel(4) == "TLE"
    ensures ExcelLabel(5) == CsvLabel(5) == "MLE"
    ensures ExcelLabel(6) == CsvLabel(6) == "RE"
    ensures ExcelLabel(2) == CsvLabel(2) == "CE"
    ensures ExcelLabel(14) == CsvLabel(14) == "Half AC"
    ensures StatusName(code).None? ==> ExcelLabel(code) == "未知(" + IntToDecimal(code) + ")"
    ensures StatusName(code).None? ==> CsvLabel(code) == "Unknown(" + IntToDecimal(code) + ")"
  {
  }

  /** A fallback label starts with the prefix, which no name does. */
  lemma FallbackLabels(code: int)
    ensures StatusName(code).None? ==> ExcelLabel(code)[0] == '未'
    ensures StatusName(code).None? ==> |CsvLabel(code)| > 8
    ensures StatusName(code).Some? ==> |CsvLabel(code)| < 8 && ExcelLabel(code)[0] != '未'
  {
  }

  /** Every name is distinct, and no fallback label looks like a name. */
  lemma ExcelLabelInjective(a: int, b: int)
    ensures ExcelLabel(a) == ExcelLabel(b) ==> a == b
  {
    FallbackLabels(a);
    FallbackLabels(b);
    if ExcelLabel(a) == ExcelLabel(b) && StatusName(a).None? && StatusName(b).None? {
      var la := ExcelLabel(a);
      assert la[3..|la| - 1] == IntToDecimal(a);
      assert ExcelLabel(b)[3..|la| - 1] == IntToDecimal(b);
      IntToDecimalInjective(a, b);
    }
  }

  lemma CsvLabelInjective(a: int, b: int)
    ensures CsvLabel(a) == CsvLabel(b) ==> a == b
  {
    FallbackLabels(a);
    FallbackLabels(b);
    if CsvLabel(a) == CsvLabel(b) && StatusName(a).None? && StatusName(b).None? {
      var la := CsvLabel(a);
      assert la[8..|la| - 1] == IntToDecimal(a);
      assert CsvLabel(b)[8..|la| - 1] == IntToDecimal(b);
      IntToDecimalInjective(a, b);
    }
  }

  // ---------------------------------------------------------------------------
  // Excel rows

  /**
   `datetime.fromtimestamp(t).strftime(pattern)`. It depends on the local
   time zone, so the model takes it as a parameter.
   */
  type TimeFormat = (int, string) -> string

  const SheetTitle: string := "刷题记录"
  const Headers: seq<string> := ["提交日期", "题号", "题目名称", "状态", "运行时间", "内存占用"]

  /** The six cells appended for one record. */
  function ExcelRow(r: Record, fmt: TimeFormat): seq<string>
  {
    [ fmt(r.submitTime, "%Y-%m-%d %H:%M"),
      r.pid.GetOr("未知"),
      r.title.GetOr("未知"),
      ExcelLabel(r.status),
      IntToDecimal(r.time.GetOr(0)) + "ms",
      IntToDecimal(r.memory.GetOr(0)) + "KB" ]
  }

  /** The rows appended for `records`, one per record and in the same order. */
  function ExcelRows(records: seq<Record>, fmt: TimeFormat): (rows: seq<seq<string>>)
    ensures |rows| == |records|
    ensures forall k :: 0 <= k < |records| ==> rows[k] == ExcelRow(records[k], fmt)
  {
    Map(records, RowOf(fmt))
  }

  function RowOf(fmt: TimeFormat): Record -> seq<string>
  {
    r => ExcelRow(r, fmt)
  }

  /** Appending one more record appends its row. */
  lemma ExcelRowsStep(records: seq<Record>, fmt: TimeFormat, i: nat)
    requires i < |records|
    ensures ExcelRows(records[..i + 1], fmt) == ExcelRows(records[..i], fmt) + [ExcelRow(records[i], fmt)]
  {
    MapStep(records, RowOf(fmt), i);
  }

  /**
   The row under the header: six cells, the label in column 4, and run time
   and memory cells that read back to the record's numbers (0 when absent)
   once their unit is cut off.
   */
  lemma ExcelRowReadsBack(r: Record, fmt: TimeFormat)
    ensures var row := ExcelRow(r, fmt);
      && |row| == |Headers|
      && row[3] == ExcelLabel(r.status)
      && |row[4]| > 2 && row[4][|row[4]| - 2..] == "ms"
      && ParseInt(row[4][..|row[4]| - 2]) == r.time.GetOr(0)
      && |row[5]| > 2 && row[5][|row[5]| - 2..] == "KB"
      && ParseInt(row[5][..|row[5]| - 2]) == r.memory.GetOr(0)
  {
    var row := ExcelRow(r, fmt);
    assert row[4][..|row[4]| - 2] == IntToDecimal(r.time.GetOr(0));
    assert row[5][..|row[5]| - 2] == IntToDecimal(r.memory.GetOr(0));
    ParseIntToDecimal(r.time.GetOr(0));
    ParseIntToDecimal(r.memory.GetOr(0));
  }

  // ---------------------------------------------------------------------------
  // Excel cell styles

  type Cell = (int, int)  // (row, column)

  datatype Font = Font(bold: bool, color: string)

  /**
   The alignment a styled cell gets; every cell that gets one also gets the
   thin border on all four sides, so the border is not recorded separately.
   */
  datatype Alignment = Centered | LeftWrapped

  /** The per-script colours: the header fill and `status_colors`. */
  datatype Palette = Palette(headerFill: string, statusColours: map<string, string>)

  /** The worksheet as the export leaves it. */
  datatype Sheet = Sheet(
    title: string,
    rows: seq<seq<string>>,
    alignment: map<Cell, Alignment>,
    fill: map<Cell, string>,
    font: map<Cell, Font>)

  const HeaderFont: Font := Font(true, "FFFFFF")

  /** White text on the dark fills of WA, RE and CE, black text otherwise. */
  function DataFont(status: string): (f: Font)
    ensures !f.bold
    ensures f.color == "FFFFFF" <==> status in ["WA", "RE", "CE"]
    ensures f.color != "FFFFFF" ==> f.color == "000000"
  {
    Font(false, if status in ["WA", "RE", "CE"] then "FFFFFF" else "000000")
  }

  predicate IsHeaderCell(c: Cell)
  {
    c.0 == 1 && 1 <= c.1 <= 6
  }

  /**
   The cells the export has styled once the header, `n` data rows and the
   first `col - 1` cells of data row `n + 1` are done. Each data row is styled
   in columns 1 to 10, four more than it has values.
   */
  predicate Touched(c: Cell, n: nat, col: int)
  {
    || IsHeaderCell(c)
    || (2 <= c.0 <= n + 1 && 1 <= c.1 <= 10)
    || (c.0 == n + 2 && 1 <= c.1 < col)
  }

  /** The label shown in sheet row `row` (row 2 holds the first record). */
  function RowLabel(records: seq<Record>, row: int): string
    requires 2 <= row <= |records| + 1
  {
    ExcelLabel(records[row - 2].status)
  }

  /**
   A cell the colouring rule applies to: column 5 (the run-time column, not
   the status column 4) of a data row whose label has a colour.
   */
  predicate Coloured(records: seq<Record>, palette: Palette, c: Cell)
  {
    2 <= c.0 <= |records| + 1 && c.1 == 5 && RowLabel(records, c.0) in palette.statusColours
  }

  /** Alignment (and border) once the export has got as far as `Touched(_, n, col)`. */
  ghost predicate AlignedUpTo(ws: Sheet, n: nat, col: int)
  {
    && (forall c :: c in ws.alignment <==> Touched(c, n, col))
    && (forall c :: c in ws.alignment ==> ws.alignment[c] == if c.0 == 1 then Centered else LeftWrapped)
  }

  /** Fills once the export has got as far as `Touched(_, n, col)`. */
  ghost predicate FilledUpTo(ws: Sheet, records: seq<Record>, palette: Palette, n: nat, col: int)
  {
    && (forall c :: c in ws.fill <==> IsHeaderCell(c) || (Touched(c, n, col) && Coloured(records, palette, c)))
    && (forall c :: c in ws.fill && c.0 == 1 ==> ws.fill[c] == palette.headerFill)
    && (forall c :: c in ws.fill && c.0 != 1 ==>
          Coloured(records, palette, c) && ws.fill[c] == palette.statusColours[RowLabel(records, c.0)])
  }

  /** Fonts once the export has got as far as `Touched(_, n, col)`: on the same cells as the fills. */
  ghost predicate FontsUpTo(ws: Sheet, records: seq<Record>, palette: Palette, n: nat, col: int)
  {
    && (forall c :: c in ws.font <==> IsHeaderCell(c) || (Touched(c, n, col) && Coloured(records, palette, c)))
    && (forall c :: c in ws.font && c.0 == 1 ==> ws.font[c] == HeaderFont)
    && (forall c :: c in ws.font && c.0 != 1 ==>
          Coloured(records, palette, c) && ws.font[c] == DataFont(RowLabel(records, c.0)))
  }

  ghost predicate StyledUpTo(ws: Sheet, records: seq<Record>, palette: Palette, n: nat, col: int)
  {
    AlignedUpTo(ws, n, col) && FilledUpTo(ws, records, palette, n, col) && FontsUpTo(ws, records, palette, n, col)
  }

  /** Styling cell `col` of data row `n + 1` extends the aligned region by that cell. */
  lemma AlignCellStep(ws: Sheet, ws': Sheet, n: nat, col: int)
    requires 1 <= col <= 10
    requires AlignedUpTo(ws, n, col)
    requires ws'.alignment == ws.alignment[(n + 2, col) := LeftWrapped]
    ensures AlignedUpTo(ws', n, col + 1)
  {
  }

  /** Filling cell `col` of data row `n + 1` when the rule applies to it extends the filled region. */
  lemma FillCellStep(ws: Sheet, ws': Sheet, records: seq<Record>, palette: Palette, n: nat, col: int)
    requires n < |records| && 1 <= col <= 10
    requires FilledUpTo(ws, records, palette, n, col)
    requires var status := ExcelLabel(records[n].status);
      ws'.fill == if col == 5 && status in palette.statusColours
                  then ws.fill[(n + 2, col) := palette.statusColours[status]] else ws.fill
    ensures FilledUpTo(ws', records, palette, n, col + 1)
  {
    assert RowLabel(records, n + 2) == ExcelLabel(records[n].status);
    forall c: Cell
      ensures c in ws'.fill <==> IsHeaderCell(c) || (Touched(c, n, col + 1) && Coloured(records, palette, c))
    {
      assert Touched(c, n, col + 1) <==> Touched(c, n, col) || c == (n + 2, col);
    }
    forall c | c in ws'.fill && c.0 != 1
      ensures Coloured(records, palette, c) && ws'.fill[c] == palette.statusColours[RowLabel(records, c.0)]
    {
      if c != (n + 2, col) {
        assert c in ws.fill;
      }
    }
  }

  /** Setting the font of cell `col` of data row `n + 1` when the rule applies extends the font region. */
  lemma FontCellStep(ws: Sheet, ws': Sheet, records: seq<Record>, palette: Palette, n: nat, col: int)
    requires n < |records| && 1 <= col <= 10
    requires FontsUpTo(ws, records, palette, n, col)
    requires var status := ExcelLabel(records[n].status);
      ws'.font == if col == 5 && status in palette.statusColours
                  then ws.font[(n + 2, col) := DataFont(status)] else ws.font
    ensures FontsUpTo(ws', records, palette, n, col + 1)
  {
    assert RowLabel(records, n + 2) == ExcelLabel(records[n].status);
    forall c: Cell
      ensures c in ws'.font <==> IsHeaderCell(c) || (Touched(c, n, col + 1) && Coloured(records, palette, c))
    {
      assert Touched(c, n, col + 1) <==> Touched(c, n, col) || c == (n + 2, col);
    }
    forall c | c in ws'.font && c.0 != 1
      ensures Coloured(records, palette, c) && ws'.font[c] == DataFont(RowLabel(records, c.0))
    {
      if c != (n + 2, col) {
        assert c in ws.font;
      }
    }
  }

  /** Once all ten cells of data row `n + 1` are styled, `n + 1` rows are done. */
  lemma StyleRowDone(ws: Sheet, records: seq<Record>, palette: Palette, n: nat)
    requires StyledUpTo(ws, records, palette, n, 11)
    ensures StyledUpTo(ws, records, palette, n + 1, 1)
  {
    assert forall c: Cell :: Touched(c, n, 11) == Touched(c, n + 1, 1);
  }

  /** The header row styled by `for cell in ws[1]`: header font, fill and centred text. */
  method StyleHeader(ws0: Sheet, records: seq<Record>, palette: Palette) returns (ws: Sheet)
    requires ws0.alignment == map[] && ws0.fill == map[] && ws0.font == map[]
    ensures ws.title == ws0.title && ws.rows == ws0.rows
    ensures StyledUpTo(ws, records, palette, 0, 1)
  {
    ws := ws0;
    var col := 1;
    while col <= |Headers|
      invariant 1 <= col <= 7
      invariant ws.title == ws0.title && ws.rows == ws0.rows
      invariant forall c :: c in ws.alignment <==> c.0 == 1 && 1 <= c.1 < col
      invariant forall c :: c in ws.alignment ==> ws.alignment[c] == Centered
      invariant forall c :: c in ws.fill <==> c in ws.alignment
      invariant forall c :: c in ws.fill ==> ws.fill[c] == palette.headerFill
      invariant forall c :: c in ws.font <==> c in ws.alignment
      invariant forall c :: c in ws.font ==> ws.font[c] == HeaderFont
    {
      ws := ws.(alignment := ws.alignment[(1, col) := Centered],
                fill := ws.fill[(1, col) := palette.headerFill],
                font := ws.font[(1, col) := HeaderFont]);
      col := col + 1;
    }
  }

  /** One pass of the record loop: append the record's row, then style its ten cells. */
  method AppendRecord(ws0: Sheet, records: seq<Record>, palette: Palette, fmt: TimeFormat, i: nat)
    returns (ws: Sheet)
    requires i < |records| && |ws0.rows| == i + 1
    requires StyledUpTo(ws0, records, palette, i, 1)
    ensures ws.title == ws0.title && ws.rows == ws0.rows + [ExcelRow(records[i], fmt)]
    ensures StyledUpTo(ws, records, palette, i + 1, 1)
  {
    var status := ExcelLabel(records[i].status);
    ws := ws0.(rows := ws0.rows + [ExcelRow(records[i], fmt)]);
    var row := |ws.rows|;
    var c := 1;
    while c <= 10
      invariant 1 <= c <= 11
      invariant ws.title == ws0.title && ws.rows == ws0.rows + [ExcelRow(records[i], fmt)]
      invariant row == i + 2
      invariant StyledUpTo(ws, records, palette, i, c)
    {
      ghost var before := ws;
      ws := ws.(alignment := ws.alignment[(row, c) := LeftWrapped]);
      if c == 5 && status in palette.statusColours {
        ws := ws.(fill := ws.fill[(row, c) := palette.statusColours[status]],
                  font := ws.font[(row, c) := DataFont(status)]);
      }
      AlignCellStep(before, ws, i, c);
      FillCellStep(before, ws, records, palette, i, c);
      FontCellStep(before, ws, records, palette, i, c);
      c := c + 1;
    }
    StyleRowDone(ws, records, palette, i);
  }

  /** `create_excel` up to `wb.save`: header row, its style, then one styled row per record. */
  method CreateExcel(records: seq<Record>, palette: Palette, fmt: TimeFormat) returns (ws: Sheet)
    ensures ws.title == SheetTitle
    ensures ws.rows == [Headers] + ExcelRows(records, fmt)
    ensures StyledUpTo(ws, records, palette, |records|, 1)
  {
    ws := Sheet(SheetTitle, [Headers], map[], map[], map[]);
    ws := StyleHeader(ws, records, palette);
    var i := 0;
    while i < |records|
      invariant 0 <= i <= |records|
      invariant ws.title == SheetTitle
      invariant ws.rows == [Headers] + ExcelRows(records[..i], fmt)
      invariant StyledUpTo(ws, records, palette, i, 1)
    {
      ws := AppendRecord(ws, records, palette, fmt, i);
      ExcelRowsStep(records, fmt, i);
      i := i + 1;
    }
    assert records[..|records|] == records;
  }

  /**
   What a styled sheet shows: of the data rows only the run-time cell is ever
   filled, the status cell never is, and the run-time cell of record `k` is
   filled exactly when its label has a colour, with that colour, in white
   text exactly for WA, RE and CE.
   */
  lemma StyledSheetColours(ws: Sheet, records: seq<Record>, palette: Palette, k: nat)
    requires StyledUpTo(ws, records, palette, |records|, 1)
    requires k < |records|
    ensures forall c :: c in ws.fill ==> c.0 == 1 || c.1 == 5
    ensures (k + 2, 4) !in ws.fill
    ensures var status := ExcelLabel(records[k].status);
      && ((k + 2, 5) in ws.fill <==> status in palette.statusColours)
      && ((k + 2, 5) in ws.fill ==> ws.fill[(k + 2, 5)] == palette.statusColours[status])
      && ((k + 2, 5) in ws.font ==> (ws.font[(k + 2, 5)].color == "FFFFFF" <==> status in {"WA", "RE", "CE"}))
  {
    var status := ExcelLabel(records[k].status);
    assert RowLabel(records, k + 2) == status;
    if (k + 2, 5) in ws.font {
      assert ws.font[(k + 2, 5)] == DataFont(status);
    }
  }

  // ---------------------------------------------------------------------------
  // CSV rows

  const CsvFields: seq<string> := ["submit_time", "problem_id", "problem_name", "status", "run_time", "memory_usage"]

  /** One dictionary handed to `csv.DictWriter`; run time and memory stay integers. */
  datatype CsvRow = CsvRow(
    submitTime: string,
    problemId: string,
    problemName: string,
    status: string,
    runTime: int,
    memoryUsage: int)

  /** What `DictWriter` writes: the header, then the rows in order. */
  datatype CsvFile = CsvFile(header: seq<string>, rows: seq<CsvRow>)

  function CsvRowOf(r: Record, fmt: TimeFormat): CsvRow
  {
    CsvRow(fmt(r.submitTime, "%Y-%m-%d %H:%M:%S"),
           r.pid.GetOr("Unknown"),
           r.title.GetOr("Unknown"),
           CsvLabel(r.status),
           r.time.GetOr(0),
           r.memory.GetOr(0))
  }

  /** How one run of either script ends: `sys.exit(1)` for lack of credentials or records, or both files. */
  datatype Outcome =
    | MissingCredentials
    | NoRecords
    | Exported(uid: string, records: seq<Record>, sheet: Sheet, csv: Option<CsvFile>)

  /**
   The Excel row and the CSV row of one record agree where the scripts mean
   them to: the same problem id and title when present, the same label for a
   named code, run time and memory that read back to the same numbers. They
   differ in the time pattern, in the defaults and in the fallback label.
   */
  lemma ExcelAndCsvAgree(r: Record, fmt: TimeFormat)
    ensures var row, line := ExcelRow(r, fmt), CsvRowOf(r, fmt);
      && (r.pid.Some? ==> row[1] == line.problemId)
      && (r.title.Some? ==> row[2] == line.problemName)
      && (row[3] == line.status <==> StatusName(r.status).Some?)
      && ParseInt(row[4][..|row[4]| - 2]) == line.runTime
      && ParseInt(row[5][..|row[5]| - 2]) == line.memoryUsage
  {
    ExcelRowReadsBack(r, fmt);
    var row, line := ExcelRow(r, fmt), CsvRowOf(r, fmt);
    if StatusName(r.status).None? {
      assert row[3][0] == '未' != 'U' == line.status[0];
    }
  }
}
