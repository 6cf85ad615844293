/**
 * The budget-tracker extraction: a fixed-layout "Detail" sheet, already
 * turned into a grid of cell texts, becomes a list of hour records plus
 * error and warning messages.
 *
 * Layout of the sheet (0-based indices):
 *  - row 0: project name (column 0), project ID (column 1), and the
 *    Actual/Proposed flag of each week column;
 *  - row 2: the date of each week column; row 3: its phase; row 4: its milestone;
 *  - rows 5 and up: one employee each, with activity, employee ID, resource
 *    name, rate and activity ID in columns 0 to 4 and hours from column 7 on.
 */
module Sheet {
  import opened Wrappers
  import opened Text
  import opened Numbers
  import opened Calendar
  import opened Records
  import opened Collect

  /** A sheet as rows of formatted cell texts; rows may have different lengths, empty cells are "". */
  type Grid = seq<seq<string>>

  /** A decoded workbook: its sheets by name. */
  datatype Workbook = Workbook(sheets: map<string, Grid>)

  /** What decoding the uploaded bytes gave: a workbook, or the message of the exception it raised. */
  datatype Decoded = Decoded(book: Workbook) | DecodeFailed(reason: string)

  /**
   * date-fns `parse(value, format, referenceDate)` followed by `isValid`: the
   * day the text denotes under the format, or None. The reference date (the
   * clock) is folded into the function.
   */
  type DateMatcher = (string, string) -> Option<Day>

  datatype ParseResult = ParseResult(records: seq<HourRecord>, errors: seq<string>, warnings: seq<string>)

  const DetailSheet: string := "Detail"
  const MinRows: nat := 6
  const FlagRow: nat := 0
  const DateRow: nat := 2
  const PhaseRow: nat := 3
  const MilestoneRow: nat := 4
  const FirstEmployeeRow: nat := 5
  const FirstWeekColumn: nat := 7
  const MinYear: int := 2020
  const MaxYear: int := 2035
  const MaxHours: real := 500.0

  const IsoFormat: string := "yyyy-MM-dd"
  const FallbackFormats: seq<string> :=
    ["M/d/yyyy", "MM/dd/yyyy", "d/M/yyyy", "dd/MM/yyyy", "yyyy-MM-dd", "M/d/yy", "MM/dd/yy"]

  /** Day number of 1899-12-30, the day before spreadsheet serial day 1 in the 1900 date system. */
  const SerialBase: Day := -25569
  /** JavaScript dates reach 10^8 days either side of 1970-01-01. */
  const MaxDateDays: int := 100000000

  const NoDetailMessage: string := "No \"Detail\" sheet found in workbook"
  const InsufficientRowsMessage: string := "Sheet has insufficient rows (minimum 6 required)"
  const NoRecordsMessage: string := "No valid hours records found in file"
  const DecodeErrorPrefix: string := "Error parsing Excel file: "

  function ExtractedMessage(n: nat): string
  {
    "Successfully extracted " + NatToString(n) + " hours records"
  }

  /** The single warning a completed scan leaves. */
  function Summary(n: nat): (m: string)
    ensures m == NoRecordsMessage <==> n == 0
  {
    if n == 0 then NoRecordsMessage
    else assert ExtractedMessage(n)[0] == 'S' && NoRecordsMessage[0] == 'N'; ExtractedMessage(n)
  }

  // ---------------------------------------------------------------------
  // Cell helpers
  // ---------------------------------------------------------------------

  /** `getCellValue`: the trimmed text of a cell, "" outside the grid or the row. */
  function CellValue(data: Grid, row: nat, col: nat): (v: string)
    ensures v == [] || (!IsJsSpace(v[0]) && !IsJsSpace(v[|v| - 1]))
    ensures (row >= |data| || col >= |data[row]|) ==> v == ""
  {
    if row >= |data| then ""
    else if col >= |data[row]| then ""
    else TrimmedEdges(data[row][col]); Trim(data[row][col])
  }

  /** A cell's text is blank exactly when it is empty, since it is already trimmed. */
  lemma CellBlankIffEmpty(data: Grid, row: nat, col: nat)
    ensures IsBlank(CellValue(data, row, col)) <==> CellValue(data, row, col) == ""
  {
    if row < |data| && col < |data[row]| {
      TrimmedBlankIffEmpty(data[row][col]);
    }
  }

  /** Inside the grid, the cell's text keeps every character that is not white space. */
  lemma CellValueKeepsText(data: Grid, row: nat, col: nat, c: char)
    requires row < |data| && col < |data[row]| && !IsJsSpace(c)
    ensures c in CellValue(data, row, col) <==> c in data[row][col]
  {
    TrimKeepsNonSpace(data[row][col], c);
  }

  /**
   * `parseAPIndicator`. The flag is Actual exactly when the cell has an 'a'
   * or an 'A' anywhere; so "Plan" and "Proposal" count as Actual, and an
   * empty cell as Proposed.
   */
  function ParseApIndicator(value: string): (flag: ApFlag)
    ensures flag == Actual <==> ('a' in value || 'A' in value)
  {
    UpperHasA(value);
    TrimKeepsNonSpace(ToUpper(value), 'A');
    assert "ACTUAL"[0] == 'A';
    var upper := Trim(ToUpper(value));
    if 'A' in upper || upper == "ACTUAL" then Actual
    else if 'P' in upper || upper == "PROPOSED" || upper == "PLAN" then Proposed
    else Proposed
  }

  lemma UpperHasA(value: string)
    ensures 'A' in ToUpper(value) <==> ('a' in value || 'A' in value)
  {
    var up := ToUpper(value);
    if 'A' in up {
      var i :| 0 <= i < |up| && up[i] == 'A';
      assert value[i] == 'a' || value[i] == 'A';
    }
    if 'a' in value || 'A' in value {
      var i :| 0 <= i < |value| && (value[i] == 'a' || value[i] == 'A');
      assert up[i] == 'A';
    }
  }

  // ---------------------------------------------------------------------
  // Dates
  // ---------------------------------------------------------------------

  /**
   * The spreadsheet serial-number branch: a text that `parseFloat` reads as a
   * positive number x denotes the day ⌊x⌋ days after 1899-12-30, provided the
   * result is still a representable date.
   */
  function SerialDate(value: string): (r: Option<Day>)
    ensures r.Some? <==> ParseFloat(value).Some? && 0.0 < ParseFloat(value).value <= (MaxDateDays - SerialBase) as real
    ensures r.Some? ==> r.value == SerialBase + ParseFloat(value).value.Floor
    ensures r.Some? ==> SerialBase <= r.value <= MaxDateDays
  {
    match ParseFloat(value)
    case Some(x) =>
      if x > 0.0 && x <= (MaxDateDays - SerialBase) as real then Some(SerialBase + x.Floor) else None
    case None => None
  }

  /** Spreadsheet serial 45000 is day 19431, that is 2023-03-15. */
  lemma SerialDateExample()
    ensures SerialDate("45000") == Some(19431)
  {
    assert NatToString(4) == "4";
    assert NatToString(45) == "45";
    assert NatToString(450) == "450";
    assert NatToString(4500) == "4500";
    assert NatToString(45000) == "45000";
    ParseFloatOfNatToString(45000);
  }

  /** Serial 0 is not a date. */
  lemma SerialDateZero()
    ensures SerialDate("0") == None
  {
    assert NatToString(0) == "0";
    ParseFloatOfNatToString(0);
  }

  /**
   * The first format in `formats` under which `value` denotes a date: None
   * exactly when no format matches, otherwise the match of the earliest
   * format that matches.
   */
  function FirstFormatMatch(value: string, formats: seq<string>, matches: DateMatcher): (r: Option<Day>)
    ensures r.None? <==> forall k :: 0 <= k < |formats| ==> matches(value, formats[k]).None?
    ensures forall k :: 0 <= k < |formats| && matches(value, formats[k]).Some? &&
                        (forall j :: 0 <= j < k ==> matches(value, formats[j]).None?) ==>
                          r == matches(value, formats[k])
  {
    if formats == [] then None
    else if matches(value, formats[0]).Some? then matches(value, formats[0])
    else
      FirstFormatMatch(value, formats[1..], matches)
  }

  /**
   * `parseDate`: ISO first, then each fallback format in order, then a
   * positive serial number. Blank text is no date; text the ISO format accepts
   * is read as ISO whatever the other formats say; the serial reading is used
   * only when no format matches at all.
   */
  function ParseDate(value: string, matches: DateMatcher): (r: Option<Day>)
    ensures IsBlank(value) ==> r.None?
    ensures !IsBlank(value) && matches(value, IsoFormat).Some? ==> r == matches(value, IsoFormat)
    ensures !IsBlank(value) && matches(value, IsoFormat).None? ==>
              forall k :: 0 <= k < |FallbackFormats| && matches(value, FallbackFormats[k]).Some? &&
                          (forall j :: 0 <= j < k ==> matches(value, FallbackFormats[j]).None?) ==>
                            r == matches(value, FallbackFormats[k])
    ensures !IsBlank(value) && matches(value, IsoFormat).None? &&
            (forall k :: 0 <= k < |FallbackFormats| ==> matches(value, FallbackFormats[k]).None?) ==>
              r == SerialDate(value)
  {
    if value == "" || IsBlank(value) then None
    else if matches(value, IsoFormat).Some? then matches(value, IsoFormat)
    else match FirstFormatMatch(value, FallbackFormats, matches)
      case Some(d) => Some(d)
      case None => SerialDate(value)
  }

  /** The search loop of `parseDate`. */
  method ParseDateSearch(value: string, matches: DateMatcher) returns (date: Option<Day>)
    ensures date == ParseDate(value, matches)
  {
    if value == "" || IsBlank(value) {
      return None;
    }
    date := matches(value, IsoFormat);
    if date.Some? {
      return date;
    }
    for i := 0 to |FallbackFormats|
      invariant FirstFormatMatch(value, FallbackFormats, matches) == FirstFormatMatch(value, FallbackFormats[i..], matches)
    {
      date := matches(value, FallbackFormats[i]);
      if date.Some? {
        return date;
      }
      assert FallbackFormats[i..][1..] == FallbackFormats[i + 1..];
    }
    assert FallbackFormats[|FallbackFormats|..] == [];
    date := SerialDate(value);
  }

  // ---------------------------------------------------------------------
  // The extraction, as functions
  // ---------------------------------------------------------------------

  /** The record one week cell of one employee row yields, if any. */
  function CellRecord(data: Grid, r: nat, c: nat, demandType: string, matches: DateMatcher): Option<HourRecord>
  {
    var weekDate := ParseDate(CellValue(data, DateRow, c), matches);
    if weekDate.None? then None
    else
      var year := YearOf(weekDate.value);
      if year < MinYear || year > MaxYear then None
      else
        var hours := ParseNumber(CellValue(data, r, c));
        if hours <= 0.0 || hours > MaxHours then None
        else Some(HourRecord(
          project := CellValue(data, 0, 0),
          employeeId := CellValue(data, r, 1),
          resourceName := CellValue(data, r, 2),
          rate := ParseNumber(CellValue(data, r, 3)),
          activityId := CellValue(data, r, 4),
          weekStartDate := FormatIso(WeekStart(weekDate.value)),
          actualOrProposed := ParseApIndicator(CellValue(data, FlagRow, c)),
          hours := hours,
          demandType := demandType,
          projectId := CellValue(data, 0, 1),
          phase := CellValue(data, PhaseRow, c),
          milestone := CellValue(data, MilestoneRow, c)))
  }

  /** The week cells of employee row `r`, by column. */
  function WeekCells(data: Grid, r: nat, demandType: string, matches: DateMatcher): nat -> Option<HourRecord>
  {
    (c: nat) => CellRecord(data, r, c, demandType, matches)
  }

  /**
   * The records of employee row `r`: nothing when its ID is blank, otherwise
   * those of its week columns from column 7 up to the row's own length, left
   * to right. (Indices past the last row yield nothing.)
   */
  function EmployeeRecords(data: Grid, r: nat, demandType: string, matches: DateMatcher): seq<HourRecord>
  {
    if r >= |data| then []
    else
      var employeeId := CellValue(data, r, 1);
      if employeeId == "" || IsBlank(employeeId) then []
      else Present(FirstWeekColumn, |data[r]|, WeekCells(data, r, demandType, matches))
  }

  /** The employee rows, by row index. */
  function EmployeeRows(data: Grid, demandType: string, matches: DateMatcher): nat -> seq<HourRecord>
  {
    (r: nat) => EmployeeRecords(data, r, demandType, matches)
  }

  /** The records of the whole sheet in row-major order: employee rows from row 5 down, each row left to right. */
  function Extract(data: Grid, demandType: string, matches: DateMatcher): seq<HourRecord>
  {
    Concat(FirstEmployeeRow, |data|, EmployeeRows(data, demandType, matches))
  }

  /**
   * What `parse` returns for a decoded (or undecodable) workbook. Every call
   * reports exactly one message: an error when the workbook is unusable (and
   * then there are no records), otherwise the one summary warning, which is
   * the "no records" message exactly when nothing was found and otherwise
   * carries the record count.
   */
  function ParseSpec(input: Decoded, demandType: string, matches: DateMatcher): (r: ParseResult)
    ensures |r.errors| + |r.warnings| == 1
    ensures r.errors != [] ==> r.records == []
    ensures r.errors == [] <==> input.Decoded? && DetailSheet in input.book.sheets && |input.book.sheets[DetailSheet]| >= MinRows
    ensures r.warnings != [] ==> (r.warnings[0] == NoRecordsMessage <==> r.records == [])
    ensures r.warnings != [] && r.records != [] ==> r.warnings[0] == ExtractedMessage(|r.records|)
  {
    match input
    case DecodeFailed(reason) => ParseResult([], [DecodeErrorPrefix + reason], [])
    case Decoded(book) =>
      if DetailSheet !in book.sheets then ParseResult([], [NoDetailMessage], [])
      else
        var data := book.sheets[DetailSheet];
        if |data| < MinRows then ParseResult([], [InsufficientRowsMessage], [])
        else
          var records := Extract(data, demandType, matches);
          ParseResult(records, [], [Summary(|records|)])
  }

  // ---------------------------------------------------------------------
  // The scanning loops of `parse`
  // ---------------------------------------------------------------------

  /** The row loop of `parse`: every employee row from row 5 on; rows with a blank employee ID are skipped. */
  method ScanDetail(data: Grid, demandType: string, matches: DateMatcher) returns (records: seq<HourRecord>)
    requires |data| >= MinRows
    ensures records == Extract(data, demandType, matches)
  {
    ghost var rows := EmployeeRows(data, demandType, matches);
    records := [];
    for rowIdx := FirstEmployeeRow to |data|
      invariant records == Concat(FirstEmployeeRow, rowIdx, rows)
    {
      assert Concat(FirstEmployeeRow, rowIdx + 1, rows) == Concat(FirstEmployeeRow, rowIdx, rows) + rows(rowIdx);
      var employeeId := CellValue(data, rowIdx, 1);
      if employeeId == "" || IsBlank(employeeId) {
        assert rows(rowIdx) == [];
        continue;
      }
      var rowRecords := ScanWeeks(data, rowIdx, demandType, matches);
      records := records + rowRecords;
    }
  }

  /**
   * The column loop of `parse` for one employee row: every week column from
   * column 7 up to the row's own length, skipping columns without a usable
   * date in 2020 to 2035 and cells without hours in (0, 500].
   */
  method ScanWeeks(data: Grid, rowIdx: nat, demandType: string, matches: DateMatcher) returns (records: seq<HourRecord>)
    requires rowIdx < |data|
    ensures records == Present(FirstWeekColumn, |data[rowIdx]|, WeekCells(data, rowIdx, demandType, matches))
  {
    ghost var cells := WeekCells(data, rowIdx, demandType, matches);
    records := [];
    var row := data[rowIdx];
    var projectName := CellValue(data, 0, 0);
    var projectId := CellValue(data, 0, 1);
    var employeeId := CellValue(data, rowIdx, 1);
    var resourceName := CellValue(data, rowIdx, 2);
    var rate := ParseNumber(CellValue(data, rowIdx, 3));
    var activityId := CellValue(data, rowIdx, 4);
    // The loop runs only when the row reaches past the first week column.
    var lastCol := if |row| > FirstWeekColumn then |row| else FirstWeekColumn;
    for colIdx := FirstWeekColumn to lastCol
      invariant records == Present(FirstWeekColumn, colIdx, cells)
    {
      ghost var cell := CellRecord(data, rowIdx, colIdx, demandType, matches);
      assert Present(FirstWeekColumn, colIdx + 1, cells) == Present(FirstWeekColumn, colIdx, cells) + OptionToSeq(cell);
      var dateValue := CellValue(data, DateRow, colIdx);
      var weekDate := ParseDateSearch(dateValue, matches);
      if weekDate.None? {
        assert cell == None;
        continue;
      }
      var year := YearOf(weekDate.value);
      if year < MinYear || year > MaxYear {
        assert cell == None;
        continue;
      }
      var hoursValue := CellValue(data, rowIdx, colIdx);
      var hours := ParseNumber(hoursValue);
      if hours <= 0.0 || hours > MaxHours {
        assert cell == None;
        continue;
      }
      var actualOrProposed := ParseApIndicator(CellValue(data, FlagRow, colIdx));
      var phase := CellValue(data, PhaseRow, colIdx);
      var milestone := CellValue(data, MilestoneRow, colIdx);
      var weekStartDate := WeekStart(weekDate.value);
      var record := HourRecord(
        project := projectName,
        employeeId := employeeId,
        resourceName := resourceName,
        rate := rate,
        activityId := activityId,
        weekStartDate := FormatIso(weekStartDate),
        actualOrProposed := actualOrProposed,
        hours := hours,
        demandType := demandType,
        projectId := projectId,
        phase := phase,
        milestone := milestone);
      assert cell == Some(record);
      records := records + [record];
    }
  }

  // ---------------------------------------------------------------------
  // The parser object
  // ---------------------------------------------------------------------

  /** `BudgetTrackerParser`: the error and warning lists of the last `parse` call. */
  class BudgetTrackerParser {
    var errors: seq<string>
    var warnings: seq<string>

    constructor()
      ensures errors == [] && warnings == []
    {
      errors := [];
      warnings := [];
    }

    /** `parse`: resets both lists, scans the Detail sheet row by row and column by column, and reports. */
    method Parse(input: Decoded, demandType: string, matches: DateMatcher) returns (result: ParseResult)
      modifies this
      ensures result == ParseSpec(input, demandType, matches)
      ensures errors == result.errors && warnings == result.warnings
    {
      errors := [];
      warnings := [];
      var records: seq<HourRecord> := [];
      if input.DecodeFailed? {
        errors := errors + [DecodeErrorPrefix + input.reason];
        return ParseResult(records, errors, warnings);
      }
      var book := input.book;
      if DetailSheet !in book.sheets {
        errors := errors + [NoDetailMessage];
        return ParseResult(records, errors, warnings);
      }
      var data := book.sheets[DetailSheet];
      if |data| < MinRows {
        errors := errors + [InsufficientRowsMessage];
        return ParseResult(records, errors, warnings);
      }
      records := ScanDetail(data, demandType, matches);
      if |records| == 0 {
        warnings := warnings + [NoRecordsMessage];
      } else {
        warnings := warnings + [ExtractedMessage(|records|)];
      }
      return ParseResult(records, errors, warnings);
    }
  }

  // ---------------------------------------------------------------------
  // Properties of the extraction
  // ---------------------------------------------------------------------

  /** A workbook without a "Detail" sheet gives no records, the one error, and no warnings. */
  lemma NoDetailSheet(book: Workbook, demandType: string, matches: DateMatcher)
    requires DetailSheet !in book.sheets
    ensures ParseSpec(Decoded(book), demandType, matches) == ParseResult([], [NoDetailMessage], [])
  {
  }

  /** A Detail sheet with fewer than six rows gives no records and the one "insufficient rows" error. */
  lemma TooFewRows(book: Workbook, demandType: string, matches: DateMatcher)
    requires DetailSheet in book.sheets && |book.sheets[DetailSheet]| < MinRows
    ensures ParseSpec(Decoded(book), demandType, matches) == ParseResult([], [InsufficientRowsMessage], [])
  {
  }

  /**
   * What every emitted record satisfies: hours in (0, 500], an employee ID
   * that starts with a character other than white space (so it is not blank,
   * see `BlankIffAllSpace`), the batch's demand type, and a week start that is
   * the Sunday on or before some date of the years 2020 to 2035.
   */
  ghost predicate WellFormed(rec: HourRecord, demandType: string)
  {
    0.0 < rec.hours <= MaxHours &&
    rec.employeeId != "" && !IsJsSpace(rec.employeeId[0]) &&
    rec.demandType == demandType &&
    exists raw: Day :: MinYear <= YearOf(raw) <= MaxYear && rec.weekStartDate == FormatIso(WeekStart(raw))
  }

  /** The record a cell yields, if any, is well formed when the row's employee ID is not blank. */
  lemma CellRecordWellFormed(data: Grid, r: nat, c: nat, demandType: string, matches: DateMatcher)
    requires CellValue(data, r, 1) != ""
    requires CellRecord(data, r, c, demandType, matches).Some?
    ensures WellFormed(CellRecord(data, r, c, demandType, matches).value, demandType)
  {
    var raw := ParseDate(CellValue(data, DateRow, c), matches).value;
    var rec := CellRecord(data, r, c, demandType, matches).value;
    assert MinYear <= YearOf(raw) <= MaxYear && rec.weekStartDate == FormatIso(WeekStart(raw));
  }

  /**
   * Every record of a sheet comes from one cell: an employee row (row 5 or
   * below) whose ID is not blank, and a week column (column 7 or right of it)
   * inside that row.
   */
  lemma RecordOrigin(data: Grid, demandType: string, matches: DateMatcher, rec: HourRecord)
    requires rec in Extract(data, demandType, matches)
    ensures exists r: nat, c: nat ::
      FirstEmployeeRow <= r < |data| && FirstWeekColumn <= c < |data[r]| &&
      CellValue(data, r, 1) != "" && CellRecord(data, r, c, demandType, matches) == Some(rec)
  {
    var rows := EmployeeRows(data, demandType, matches);
    ConcatMember(FirstEmployeeRow, |data|, rows, rec);
    var r: nat :| FirstEmployeeRow <= r < |data| && rec in rows(r);
    var cells := WeekCells(data, r, demandType, matches);
    PresentMember(FirstWeekColumn, |data[r]|, cells, rec);
    var c: nat :| FirstWeekColumn <= c < |data[r]| && cells(c) == Some(rec);
    assert CellRecord(data, r, c, demandType, matches) == Some(rec);
  }

  /** Every record `parse` returns is well formed; in particular none has a blank employee ID. */
  lemma ParsedRecordsWellFormed(input: Decoded, demandType: string, matches: DateMatcher)
    ensures forall rec :: rec in ParseSpec(input, demandType, matches).records ==> WellFormed(rec, demandType)
  {
    forall rec | rec in ParseSpec(input, demandType, matches).records
      ensures WellFormed(rec, demandType)
    {
      var data := input.book.sheets[DetailSheet];
      RecordOrigin(data, demandType, matches, rec);
      var r: nat, c: nat :| FirstEmployeeRow <= r < |data| && FirstWeekColumn <= c < |data[r]| &&
        CellValue(data, r, 1) != "" && CellRecord(data, r, c, demandType, matches) == Some(rec);
      CellRecordWellFormed(data, r, c, demandType, matches);
    }
  }

  /**
   * The records come out in row-major order. Across rows: for any employee
   * row, the records of the rows above it, then its own, then those of the
   * rows below it.
   */
  lemma RowOrder(data: Grid, r: nat, demandType: string, matches: DateMatcher)
    requires FirstEmployeeRow <= r < |data|
    ensures var rows := EmployeeRows(data, demandType, matches);
      Extract(data, demandType, matches) == Concat(FirstEmployeeRow, r, rows) + rows(r) + Concat(r + 1, |data|, rows)
  {
    ConcatAround(FirstEmployeeRow, r, |data|, EmployeeRows(data, demandType, matches));
  }

  /** Within a row: for any week column, the records of the columns left of it, then its own, then those right of it. */
  lemma ColumnOrder(data: Grid, r: nat, c: nat, demandType: string, matches: DateMatcher)
    requires r < |data| && FirstWeekColumn <= c < |data[r]|
    ensures var cells := WeekCells(data, r, demandType, matches);
      Present(FirstWeekColumn, |data[r]|, cells) ==
        Present(FirstWeekColumn, c, cells) + OptionToSeq(cells(c)) + Present(c + 1, |data[r]|, cells)
  {
    PresentAround(FirstWeekColumn, c, |data[r]|, WeekCells(data, r, demandType, matches));
  }

  /** An employee row whose ID is blank contributes nothing, whatever its other cells hold. */
  lemma BlankIdRowYieldsNothing(data: Grid, r: nat, demandType: string, matches: DateMatcher)
    requires r < |data| && IsBlank(CellValue(data, r, 1))
    ensures EmployeeRecords(data, r, demandType, matches) == []
  {
  }

  /** A blank hours cell never yields a record, whatever the column's date. */
  lemma BlankCellYieldsNothing(data: Grid, r: nat, c: nat, demandType: string, matches: DateMatcher)
    requires IsBlank(CellValue(data, r, c))
    ensures CellRecord(data, r, c, demandType, matches) == None
  {
  }

  /**
   * The fields of a record come from fixed places: project name and project
   * ID from the first two cells of row 0, the Actual/Proposed flag, phase and
   * milestone from rows 0, 3 and 4 of its column, employee data from columns 0
   * to 4 of its row, the hours from the cell itself, and the week start from
   * the date in row 2 of its column.
   */
  lemma CellRecordFields(data: Grid, r: nat, c: nat, demandType: string, matches: DateMatcher)
    requires CellRecord(data, r, c, demandType, matches).Some?
    ensures var rec := CellRecord(data, r, c, demandType, matches).value;
      var raw := ParseDate(CellValue(data, DateRow, c), matches);
      raw.Some? && MinYear <= YearOf(raw.value) <= MaxYear &&
      rec.weekStartDate == FormatIso(WeekStart(raw.value)) &&
      rec.project == CellValue(data, 0, 0) && rec.projectId == CellValue(data, 0, 1) &&
      rec.actualOrProposed == ParseApIndicator(CellValue(data, FlagRow, c)) &&
      rec.phase == CellValue(data, PhaseRow, c) && rec.milestone == CellValue(data, MilestoneRow, c) &&
      rec.employeeId == CellValue(data, r, 1) && rec.resourceName == CellValue(data, r, 2) &&
      rec.rate == ParseNumber(CellValue(data, r, 3)) && rec.activityId == CellValue(data, r, 4) &&
      rec.hours == ParseNumber(CellValue(data, r, c)) && rec.demandType == demandType
  {
  }

  /** The date 2020-01-01 (day 18262) is inside the year range, yet its week starts on 2019-12-29. */
  lemma WeekStartMayPrecedeRange()
    ensures YearOf(18262) == 2020
    ensures FormatIso(WeekStart(18262)) == "2019-12-29"
  {
    assert WeekStart(18262) == 18259;
    DayOf2020Jan1();
    DayOf2019Dec29();
  }

  lemma DayOf2020Jan1()
    ensures YearOf(18262) == 2020
  {
    PositionOf18262();
  }

  lemma PositionOf18262()
    ensures Position(18262) == EraPosition(5, 0, 4, 3, 306)
  {
  }

  lemma CivilOf18259()
    ensures CivilFromDays(18259) == Civil(2019, 12, 29)
  {
    PositionOf18259();
  }

  lemma PositionOf18259()
    ensures Position(18259) == EraPosition(5, 0, 4, 3, 303)
  {
  }

  lemma DayOf2019Dec29()
    ensures FormatIso(18259) == "2019-12-29"
  {
    CivilOf18259();
    TextOf2019Dec29();
  }

  lemma TextOf2019Dec29()
    ensures YearToken(2019) + "-" + Fixed(12, 2) + "-" + Fixed(29, 2) == "2019-12-29"
  {
    TwoDigitText(20);
    TwoDigitText(19);
    TwoDigitText(12);
    TwoDigitText(29);
    assert Fixed(2019, 4) == Fixed(20, 2) + Fixed(19, 2) by { FixedSplit(2019); }
  }

  /** Two digits render as their tens and their units. */
  lemma TwoDigitText(n: nat)
    requires n < 100
    ensures Fixed(n, 2) == [DigitChar(n / 10), DigitChar(n % 10)]
  {
    var t, u := n / 10, n % 10;
    assert t < 10 && t % 10 == t;
    assert Fixed(n, 2) == Fixed(t, 1) + [DigitChar(u)];
    assert Fixed(t, 1) == Fixed(t / 10, 0) + [DigitChar(t % 10)];
  }

  /** A four-digit rendering is the rendering of its two halves. */
  lemma FixedSplit(n: nat)
    requires n < 10000
    ensures Fixed(n, 4) == Fixed(n / 100, 2) + Fixed(n % 100, 2)
  {
    assert n / 10 / 10 == n / 100;
    assert n / 10 % 10 == n % 100 / 10;
    assert n % 10 == n % 100 % 10;
    TwoDigitText(n / 100);
    TwoDigitText(n % 100);
    assert n / 100 / 10 == n / 1000;
  }
}
