/**
 * The upload endpoints over the two stored tables: `POST /api/upload` parses
 * each file with a fresh parser and stores its records in one transaction,
 * `DELETE /api/upload/clear` empties both tables, and `GET
 * /api/upload/history` lists the newest upload rows.
 *
 * Database failures cannot be seen from here; which statement of which file
 * throws, and with what message, is a parameter (`StoreFault`). So is the
 * `CURRENT_TIMESTAMP` each history row receives.
 */
module Upload {
  import opened Wrappers
  import opened Ordering
  import opened Records
  import opened Query
  import opened Collect
  import opened Sheet

  /** A file of the request: its original name and what decoding its bytes gave. */
  datatype UploadedFile = UploadedFile(originalName: string, content: Decoded)

  /** What the database does while one file is stored. */
  datatype StoreFault =
    | NoFault
      /** The insert transaction throws; it is rolled back. */
    | InsertFails(message: string)
      /** The insert commits, then the history insert throws. */
    | HistoryFails(message: string)

  /** A `file_uploads` row; the errors and warnings are kept as lists rather than as their JSON text. */
  datatype UploadRow = UploadRow(filename: string, uploadedAt: string, recordsImported: nat, errors: seq<string>, warnings: seq<string>)

  datatype FileResult = FileResult(filename: string, recordsImported: nat, errors: seq<string>, warnings: seq<string>, success: bool)

  datatype UploadResponse =
    | BadRequest(error: string)
    | Imported(success: bool, results: seq<FileResult>, totalRecordsImported: nat)

  const NoFilesMessage: string := "No files uploaded"
  const HardDemand: string := "Hard Demand"
  const ClearedMessage: string := "All data cleared successfully"
  const HistoryLimit: nat := 50

  /** `req.body.demandType || 'Hard Demand'`: a missing or empty tag means hard demand; any other text is kept as sent. */
  function BatchDemandType(tag: Option<string>): (t: string)
    ensures t != ""
    ensures tag.Some? && tag.value != "" ==> t == tag.value
    ensures tag.None? || tag.value == "" ==> t == HardDemand
  {
    match tag
    case Some(s) => if s != "" then s else HardDemand
    case None => HardDemand
  }

  /** The result of a file whose storing threw: nothing imported, the one message as its error. */
  function Failed(filename: string, message: string): FileResult
  {
    FileResult(filename, 0, [message], [], false)
  }

  /** What storing one file adds to each table and reports. */
  datatype FileOutcome = FileOutcome(inserted: seq<HourRecord>, logged: seq<UploadRow>, result: FileResult)

  /** The effect of one iteration of the file loop on a file that parsed to `parsed`, given what the database does. */
  /**
   * Per file: the result names the file and reports success exactly when it
   * has no errors, which is exactly when the database did not fail and the
   * parse reported no errors; the file's records are all stored unless its
   * transaction failed; a history row is written only when nothing failed;
   * and the reported count is the number stored, or 0 when the history
   * insert threw after the records were committed.
   */
  function Outcome(filename: string, parsed: ParseResult, fault: StoreFault, stamp: string): (o: FileOutcome)
    ensures o.result.filename == filename
    ensures o.result.success <==> o.result.errors == []
    ensures o.result.success <==> fault.NoFault? && parsed.errors == []
    ensures fault.InsertFails? ==> o.inserted == []
    ensures !fault.InsertFails? ==> o.inserted == parsed.records
    ensures o.logged != [] <==> fault.NoFault?
    ensures !fault.HistoryFails? ==> o.result.recordsImported == |o.inserted|
    ensures fault.HistoryFails? ==> o.result.recordsImported == 0
  {
    match fault
    case InsertFails(message) =>
      FileOutcome([], [], Failed(filename, message))
    case HistoryFails(message) =>
      FileOutcome(parsed.records, [], Failed(filename, message))
    case NoFault =>
      var n := |parsed.records|;
      FileOutcome(parsed.records, [LogRow(filename, parsed, stamp)],
                  FileResult(filename, n, parsed.errors, parsed.warnings, |parsed.errors| == 0))
  }

  /** What `parse` gives each file of the batch. */
  function ParsedFiles(files: seq<UploadedFile>, demandType: string, matches: DateMatcher): (ps: seq<ParseResult>)
    ensures |ps| == |files|
  {
    Mapped(files, ParseWith(demandType, matches))
  }

  /** A fresh parser run on one file's content with the batch's demand type. */
  function ParseWith(demandType: string, matches: DateMatcher): UploadedFile -> ParseResult
  {
    (f: UploadedFile) => ParseSpec(f.content, demandType, matches)
  }

  /** The `i`-th file is parsed on its own, with the batch's demand type. */
  lemma ParsedFileAt(files: seq<UploadedFile>, demandType: string, matches: DateMatcher, i: nat)
    requires i < |files|
    ensures ParsedFiles(files, demandType, matches)[i] == ParseSpec(files[i].content, demandType, matches)
  {
    MappedAt(files, ParseWith(demandType, matches), i);
  }

  /** The outcomes of the files in upload order; the `i`-th file parsed to `parsed[i]`, meets `fault(i)` and is stamped `stamp(i)`. */
  function Outcomes(names: seq<string>, parsed: seq<ParseResult>, fault: nat -> StoreFault, stamp: nat -> string): (os: seq<FileOutcome>)
    requires |names| == |parsed|
    ensures |os| == |names|
    ensures forall i :: 0 <= i < |names| ==> os[i] == Outcome(names[i], parsed[i], fault(i), stamp(i))
  {
    if names == [] then []
    else
      var n := |names| - 1;
      Outcomes(names[..n], parsed[..n], fault, stamp) + [Outcome(names[n], parsed[n], fault(n), stamp(n))]
  }

  function NameOf(f: UploadedFile): string { f.originalName }

  /** One more file extends the outcomes, the rows added to each table and the results by that file's part. */
  lemma OutcomesStep(names: seq<string>, parsed: seq<ParseResult>, fault: nat -> StoreFault, stamp: nat -> string, i: nat)
    requires |names| == |parsed| && i < |names|
    ensures var before := Outcomes(names[..i], parsed[..i], fault, stamp);
            var o := Outcome(names[i], parsed[i], fault(i), stamp(i));
            Outcomes(names[..i + 1], parsed[..i + 1], fault, stamp) == before + [o] &&
            InsertedBy(before + [o]) == InsertedBy(before) + o.inserted &&
            LoggedBy(before + [o]) == LoggedBy(before) + o.logged &&
            Column(before + [o], ResultOf) == Column(before, ResultOf) + [o.result]
  {
    var before := Outcomes(names[..i], parsed[..i], fault, stamp);
    var o := Outcome(names[i], parsed[i], fault(i), stamp(i));
    assert names[..i + 1][..i] == names[..i] && parsed[..i + 1][..i] == parsed[..i];
    assert (before + [o])[..i] == before;
  }

  /** The tables and results after one more file, from those before it. */
  lemma StoreStep(hours: seq<HourRecord>, uploads: seq<UploadRow>, names: seq<string>, parsed: seq<ParseResult>,
                  fault: nat -> StoreFault, stamp: nat -> string, i: nat)
    requires |names| == |parsed| && i < |names|
    ensures var before := Outcomes(names[..i], parsed[..i], fault, stamp);
            var o := Outcome(names[i], parsed[i], fault(i), stamp(i));
            var after := Outcomes(names[..i + 1], parsed[..i + 1], fault, stamp);
            Column(after, ResultOf) == Column(before, ResultOf) + [o.result] &&
            hours + InsertedBy(after) == (hours + InsertedBy(before)) + o.inserted &&
            uploads + LoggedBy(after) == (uploads + LoggedBy(before)) + o.logged
  {
    var before := Outcomes(names[..i], parsed[..i], fault, stamp);
    var o := Outcome(names[i], parsed[i], fault(i), stamp(i));
    OutcomesStep(names, parsed, fault, stamp, i);
    AppendAssociative(hours, InsertedBy(before), o.inserted);
    AppendAssociative(uploads, LoggedBy(before), o.logged);
  }

  /** The file loop's invariant after one more file, from the invariant before it and what `StoreFile` did to the `i`-th file. */
  lemma StoreFilesStep(files: seq<UploadedFile>, demandType: string, matches: DateMatcher,
                       fault: nat -> StoreFault, stamp: nat -> string, i: nat,
                       hours0: seq<HourRecord>, uploads0: seq<UploadRow>,
                       before: (seq<FileResult>, seq<HourRecord>, seq<UploadRow>),
                       result: FileResult, hours: seq<HourRecord>, uploads: seq<UploadRow>)
    requires i < |files|
    requires var os := Outcomes(Column(files, NameOf)[..i], ParsedFiles(files, demandType, matches)[..i], fault, stamp);
             before.0 == Column(os, ResultOf) && before.1 == hours0 + InsertedBy(os) && before.2 == uploads0 + LoggedBy(os)
    requires var o := Outcome(files[i].originalName, ParseSpec(files[i].content, demandType, matches), fault(i), stamp(i));
             result == o.result && hours == before.1 + o.inserted && uploads == before.2 + o.logged
    ensures var os := Outcomes(Column(files, NameOf)[..i + 1], ParsedFiles(files, demandType, matches)[..i + 1], fault, stamp);
            before.0 + [result] == Column(os, ResultOf) && hours == hours0 + InsertedBy(os) && uploads == uploads0 + LoggedBy(os)
  {
    ParsedFileAt(files, demandType, matches, i);
    StoreStep(hours0, uploads0, Column(files, NameOf), ParsedFiles(files, demandType, matches), fault, stamp, i);
  }

  /** The loop has reached the last file: its prefixes are the whole batch. */
  lemma WholeBatch(names: seq<string>, parsed: seq<ParseResult>, fault: nat -> StoreFault, stamp: nat -> string)
    requires |names| == |parsed|
    ensures Outcomes(names[..|names|], parsed[..|parsed|], fault, stamp) == Outcomes(names, parsed, fault, stamp)
  {
    assert names[..|names|] == names && parsed[..|parsed|] == parsed;
  }

  /** The outcomes of a batch: the `i`-th file, parsed with the batch's demand type, meets `fault(i)`. */
  function BatchOutcomes(files: seq<UploadedFile>, demandType: string, matches: DateMatcher,
                         fault: nat -> StoreFault, stamp: nat -> string): (os: seq<FileOutcome>)
    ensures |os| == |files|
    ensures forall i :: 0 <= i < |files| ==>
              os[i] == Outcome(files[i].originalName, ParseSpec(files[i].content, demandType, matches), fault(i), stamp(i))
  {
    forall i | 0 <= i < |files| ensures ParsedFiles(files, demandType, matches)[i] == ParseSpec(files[i].content, demandType, matches) {
      ParsedFileAt(files, demandType, matches, i);
    }
    Outcomes(Column(files, NameOf), ParsedFiles(files, demandType, matches), fault, stamp)
  }

  /** The rows the outcomes add to `hours`, file after file. */
  function InsertedBy(os: seq<FileOutcome>): seq<HourRecord>
  {
    if os == [] then [] else InsertedBy(os[..|os| - 1]) + os[|os| - 1].inserted
  }

  /** The rows the outcomes add to `file_uploads`, file after file. */
  function LoggedBy(os: seq<FileOutcome>): seq<UploadRow>
  {
    if os == [] then [] else LoggedBy(os[..|os| - 1]) + os[|os| - 1].logged
  }

  function ResultOf(o: FileOutcome): FileResult { o.result }

  /** `results.every(r => r.success)`. */
  predicate AllSucceeded(results: seq<FileResult>)
  {
    forall i :: 0 <= i < |results| ==> results[i].success
  }

  /** `results.reduce((sum, r) => sum + r.recordsImported, 0)`. */
  function TotalImported(results: seq<FileResult>): nat
  {
    if results == [] then 0 else TotalImported(results[..|results| - 1]) + results[|results| - 1].recordsImported
  }

  /** Newest first: `ORDER BY uploaded_at DESC` on the stored timestamp text. */
  function NewerFirst(): (UploadRow, UploadRow) -> bool
  {
    (a: UploadRow, b: UploadRow) => StrLe(b.uploadedAt, a.uploadedAt)
  }

  lemma NewerFirstTotal()
    ensures TotalPreorder(NewerFirst())
  {
    var le := NewerFirst();
    forall a, b ensures le(a, b) || le(b, a) {
      StrLeTotal(a.uploadedAt, b.uploadedAt);
    }
    forall a, b, c | le(a, b) && le(b, c) ensures le(a, c) {
      StrLeTransitive(c.uploadedAt, b.uploadedAt, a.uploadedAt);
    }
  }

  /** The two tables: the stored hours rows and the upload history rows, in insertion order. */
  class Store {
    var hours: seq<HourRecord>
    var uploads: seq<UploadRow>

    constructor()
      ensures hours == [] && uploads == []
    {
      hours := [];
      uploads := [];
    }

    /** The insert transaction: every record in order, counting them. */
    method InsertAll(records: seq<HourRecord>) returns (recordsImported: nat)
      modifies this
      ensures hours == old(hours) + records && uploads == old(uploads)
      ensures recordsImported == |records|
    {
      recordsImported := 0;
      var i := 0;
      while i < |records|
        invariant 0 <= i <= |records|
        invariant hours == old(hours) + records[..i] && uploads == old(uploads)
        invariant recordsImported == i
      {
        hours := hours + [records[i]];
        recordsImported := recordsImported + 1;
        i := i + 1;
      }
    }

    /** One iteration of the file loop: a fresh parser, the insert transaction, then the history row. */
    method StoreFile(file: UploadedFile, demandType: string, matches: DateMatcher, fault: StoreFault, stamp: string)
      returns (result: FileResult)
      modifies this
      ensures var o := Outcome(file.originalName, ParseSpec(file.content, demandType, matches), fault, stamp);
              result == o.result && hours == old(hours) + o.inserted && uploads == old(uploads) + o.logged
    {
      var parser := new BudgetTrackerParser();
      var parsed := parser.Parse(file.content, demandType, matches);
      match fault
      case InsertFails(message) =>
        var saved := hours;
        var _ := InsertAll(parsed.records);
        hours := saved;
        result := Failed(file.originalName, message);
      case HistoryFails(message) =>
        var _ := InsertAll(parsed.records);
        result := Failed(file.originalName, message);
      case NoFault =>
        var recordsImported := InsertAll(parsed.records);
        uploads := uploads + [UploadRow(file.originalName, stamp, recordsImported, parsed.errors, parsed.warnings)];
        result := FileResult(file.originalName, recordsImported, parsed.errors, parsed.warnings, |parsed.errors| == 0);
    }

    /** The file loop of `POST /api/upload`: each file in turn, collecting one result per file. */
    method StoreFiles(files: seq<UploadedFile>, demandType: string, matches: DateMatcher,
                      fault: nat -> StoreFault, stamp: nat -> string) returns (results: seq<FileResult>)
      modifies this
      ensures var os := Outcomes(Column(files, NameOf), ParsedFiles(files, demandType, matches), fault, stamp);
              results == Column(os, ResultOf) &&
              hours == old(hours) + InsertedBy(os) &&
              uploads == old(uploads) + LoggedBy(os)
    {
      ghost var names := Column(files, NameOf);
      ghost var ps := ParsedFiles(files, demandType, matches);
      results := [];
      var i := 0;
      while i < |files|
        invariant 0 <= i <= |files|
        invariant var os := Outcomes(names[..i], ps[..i], fault, stamp);
                  results == Column(os, ResultOf) &&
                  hours == old(hours) + InsertedBy(os) &&
                  uploads == old(uploads) + LoggedBy(os)
      {
        ghost var before := (results, hours, uploads);
        var result := StoreFile(files[i], demandType, matches, fault(i), stamp(i));
        StoreFilesStep(files, demandType, matches, fault, stamp, i, old(hours), old(uploads), before, result, hours, uploads);
        results := results + [result];
        i := i + 1;
      }
      WholeBatch(names, ps, fault, stamp);
    }

    /** `POST /api/upload`. */
    method Upload(files: seq<UploadedFile>, tag: Option<string>, matches: DateMatcher,
                  fault: nat -> StoreFault, stamp: nat -> string) returns (response: UploadResponse)
      modifies this
      ensures files == [] ==> response == BadRequest(NoFilesMessage) && hours == old(hours) && uploads == old(uploads)
      ensures files != [] ==>
                var os := BatchOutcomes(files, BatchDemandType(tag), matches, fault, stamp);
                var results := Column(os, ResultOf);
                response == Imported(AllSucceeded(results), results, TotalImported(results)) &&
                hours == old(hours) + InsertedBy(os) &&
                uploads == old(uploads) + LoggedBy(os)
    {
      if files == [] {
        return BadRequest(NoFilesMessage);
      }
      var results := StoreFiles(files, BatchDemandType(tag), matches, fault, stamp);
      response := Imported(AllSucceeded(results), results, TotalImported(results));
    }

    /** `DELETE /api/upload/clear`: both tables become empty. */
    method ClearAll() returns (message: string)
      modifies this
      ensures hours == [] && uploads == []
      ensures message == ClearedMessage
    {
      hours := [];
      uploads := [];
      message := ClearedMessage;
    }

    /** `GET /api/upload/history`: at most 50 distinct stored upload rows, newest first, none older than a row left out. */
    method History() returns (rows: seq<UploadRow>)
      ensures |rows| == if |uploads| < HistoryLimit then |uploads| else HistoryLimit
      ensures |uploads| <= HistoryLimit ==> multiset(rows) == multiset(uploads)
      ensures multiset(rows) <= multiset(uploads)
      ensures forall u :: u in rows ==> u in uploads
      ensures forall i, j :: 0 <= i < j < |rows| ==> StrLe(rows[j].uploadedAt, rows[i].uploadedAt)
      ensures forall u, v :: u in uploads && u !in rows && v in rows ==> StrLe(u.uploadedAt, v.uploadedAt)
    {
      NewerFirstTotal();
      var sorted := SortBy(uploads, NewerFirst());
      LimitOfSorted(sorted, HistoryLimit, NewerFirst());
      forall u ensures u in sorted <==> u in uploads {
        MultisetMember(sorted, uploads, u);
      }
      rows := Limit(sorted, HistoryLimit);
      assert sorted == rows + sorted[|rows|..];
      assert multiset(sorted) == multiset(rows) + multiset(sorted[|rows|..]);
    }
  }

  // ---------------------------------------------------------------------
  // Properties of an upload

  /**
   * The overall flag is true exactly when every file was stored without a
   * database failure and parsed without errors.
   */
  lemma UploadSucceedsIff(names: seq<string>, parsed: seq<ParseResult>, fault: nat -> StoreFault, stamp: nat -> string)
    requires |names| == |parsed|
    ensures AllSucceeded(Column(Outcomes(names, parsed, fault, stamp), ResultOf)) <==>
            forall i :: 0 <= i < |names| ==> fault(i).NoFault? && parsed[i].errors == []
  {
    var os := Outcomes(names, parsed, fault, stamp);
    assert forall i :: 0 <= i < |names| ==> Column(os, ResultOf)[i] == os[i].result;
  }

  /**
   * The rows an upload adds to `hours` are, file after file, all or none of
   * each file's parsed records: all of them unless its transaction failed.
   */
  lemma AllOrNothing(names: seq<string>, parsed: seq<ParseResult>,
                     fault: nat -> StoreFault, stamp: nat -> string, rec: HourRecord)
    requires |names| == |parsed|
    requires rec in InsertedBy(Outcomes(names, parsed, fault, stamp))
    ensures exists i :: 0 <= i < |names| && !fault(i).InsertFails? && rec in parsed[i].records
  {
    var os := Outcomes(names, parsed, fault, stamp);
    InsertedByMember(os, rec);
    var i :| 0 <= i < |os| && rec in os[i].inserted;
    InsertedRow(names[i], parsed[i], fault(i), stamp(i), rec);
  }

  lemma InsertedRow(filename: string, parsed: ParseResult, fault: StoreFault, stamp: string, rec: HourRecord)
    requires rec in Outcome(filename, parsed, fault, stamp).inserted
    ensures !fault.InsertFails? && rec in parsed.records
  {
  }

  /** A row the outcomes insert comes from one of them. */
  lemma {:induction false} InsertedByMember(os: seq<FileOutcome>, rec: HourRecord)
    requires rec in InsertedBy(os)
    ensures exists i :: 0 <= i < |os| && rec in os[i].inserted
  {
    var n := |os| - 1;
    if rec in InsertedBy(os[..n]) {
      InsertedByMember(os[..n], rec);
      var i :| 0 <= i < n && rec in os[..n][i].inserted;
      assert os[..n][i] == os[i];
    }
  }

  /** Every record an upload stores is well formed and carries the batch's demand type. */
  lemma StoredRecordsWellFormed(files: seq<UploadedFile>, tag: Option<string>, matches: DateMatcher,
                                fault: nat -> StoreFault, stamp: nat -> string, rec: HourRecord)
    requires rec in InsertedBy(BatchOutcomes(files, BatchDemandType(tag), matches, fault, stamp))
    ensures WellFormed(rec, BatchDemandType(tag)) && rec.demandType == BatchDemandType(tag)
  {
    var demandType := BatchDemandType(tag);
    var ps := ParsedFiles(files, demandType, matches);
    AllOrNothing(Column(files, NameOf), ps, fault, stamp, rec);
    var i :| 0 <= i < |files| && !fault(i).InsertFails? && rec in ps[i].records;
    ParsedFileAt(files, demandType, matches, i);
    ParsedRecordsWellFormed(files[i].content, demandType, matches);
  }

  /**
   * `totalRecordsImported` never exceeds the rows added to `hours`, and equals
   * it unless some history insert threw after its records were committed.
   */
  lemma TotalAccounting(names: seq<string>, parsed: seq<ParseResult>, fault: nat -> StoreFault, stamp: nat -> string)
    requires |names| == |parsed|
    ensures var os := Outcomes(names, parsed, fault, stamp);
            TotalImported(Column(os, ResultOf)) <= |InsertedBy(os)|
    ensures var os := Outcomes(names, parsed, fault, stamp);
            (forall i :: 0 <= i < |names| ==> !fault(i).HistoryFails?) ==>
              TotalImported(Column(os, ResultOf)) == |InsertedBy(os)|
  {
    var os := Outcomes(names, parsed, fault, stamp);
    assert forall i :: 0 <= i < |os| ==> os[i].result.recordsImported <= |os[i].inserted|;
    ImportedVsInserted(os);
  }

  /** Summed over outcomes, what each result reports against what each file stored. */
  lemma {:induction false} ImportedVsInserted(os: seq<FileOutcome>)
    requires forall i :: 0 <= i < |os| ==> os[i].result.recordsImported <= |os[i].inserted|
    ensures TotalImported(Column(os, ResultOf)) <= |InsertedBy(os)|
    ensures (forall i :: 0 <= i < |os| ==> os[i].result.recordsImported == |os[i].inserted|) ==>
              TotalImported(Column(os, ResultOf)) == |InsertedBy(os)|
  {
    if os != [] {
      var n := |os| - 1;
      ImportedVsInserted(os[..n]);
      assert Column(os, ResultOf)[..n] == Column(os[..n], ResultOf);
    }
  }

  /** Every history row an upload writes is the row of one file whose records were committed and whose history insert went through. */
  lemma HistoryRowOrigin(names: seq<string>, parsed: seq<ParseResult>,
                          fault: nat -> StoreFault, stamp: nat -> string, u: UploadRow)
    requires |names| == |parsed|
    requires u in LoggedBy(Outcomes(names, parsed, fault, stamp))
    ensures exists i :: 0 <= i < |names| && fault(i).NoFault? && u == LogRow(names[i], parsed[i], stamp(i))
  {
    var os := Outcomes(names, parsed, fault, stamp);
    LoggedByMember(os, u);
    var i :| 0 <= i < |os| && u in os[i].logged;
    LoggedRow(names[i], parsed[i], fault(i), stamp(i), u);
  }

  lemma LoggedRow(filename: string, parsed: ParseResult, fault: StoreFault, stamp: string, u: UploadRow)
    requires u in Outcome(filename, parsed, fault, stamp).logged
    ensures fault.NoFault? && u == LogRow(filename, parsed, stamp)
  {
  }

  /** A history row the outcomes write comes from one of them. */
  lemma {:induction false} LoggedByMember(os: seq<FileOutcome>, u: UploadRow)
    requires u in LoggedBy(os)
    ensures exists i :: 0 <= i < |os| && u in os[i].logged
  {
    var n := |os| - 1;
    if u in LoggedBy(os[..n]) {
      LoggedByMember(os[..n], u);
      var i :| 0 <= i < n && u in os[..n][i].logged;
      assert os[..n][i] == os[i];
    }
  }

  /** Every history row of every outcome is written. */
  lemma {:induction false} LoggedByContains(os: seq<FileOutcome>, i: nat, u: UploadRow)
    requires i < |os| && u in os[i].logged
    ensures u in LoggedBy(os)
  {
    var n := |os| - 1;
    if i < n {
      LoggedByContains(os[..n], i, u);
      assert os[..n][i] == os[i];
    }
  }

  /**
   * A file whose records were committed and whose history insert went
   * through has its history row, repeating its name, count, errors and
   * warnings.
   */
  lemma HistoryRowWritten(names: seq<string>, parsed: seq<ParseResult>,
                           fault: nat -> StoreFault, stamp: nat -> string, i: nat)
    requires |names| == |parsed| && i < |names| && fault(i).NoFault?
    ensures LogRow(names[i], parsed[i], stamp(i)) in LoggedBy(Outcomes(names, parsed, fault, stamp))
  {
    var os := Outcomes(names, parsed, fault, stamp);
    assert os[i].logged == [LogRow(names[i], parsed[i], stamp(i))];
    LoggedByContains(os, i, LogRow(names[i], parsed[i], stamp(i)));
  }

  /** The history row of a stored file. */
  function LogRow(filename: string, parsed: ParseResult, stamp: string): UploadRow
  {
    UploadRow(filename, stamp, |parsed.records|, parsed.errors, parsed.warnings)
  }
}
