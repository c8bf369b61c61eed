/** The export worker: it lists the user tables of the database, reads each
    one with its header row, writes it into a new sheet cell by cell,
    reports progress after every table, polls a cancellation flag between
    tables, and finally closes the workbook. */
module Export {
  import opened Sqlite
  import opened Xlsx
  import opened Signals

  // ---------------------------------------------------------------------
  // Table names

  /** `[item for sublist in data for item in sublist]`. */
  function Flatten(rows: seq<seq<string>>): (items: seq<string>)
    ensures |items| == TotalLength(rows)
  {
    if rows == [] then [] else rows[0] + Flatten(rows[1..])
  }

  /** How many items the rows hold together. */
  function TotalLength(rows: seq<seq<string>>): nat
  {
    if rows == [] then 0 else |rows[0]| + TotalLength(rows[1..])
  }

  /** Flattening a concatenation flattens each part in turn, so every row's
      items come after those of the rows before it. */
  lemma {:induction false} FlattenAppend(a: seq<seq<string>>, b: seq<seq<string>>)
    ensures Flatten(a + b) == Flatten(a) + Flatten(b)
  {
    if a != [] {
      var ab := a + b;
      assert ab[0] == a[0] && ab[1..] == a[1..] + b;
      assert Flatten(ab) == a[0] + Flatten(a[1..] + b);
      FlattenAppend(a[1..], b);
      AppendAssoc(a[0], Flatten(a[1..]), Flatten(b));
    } else {
      assert a + b == b;
    }
  }

  /** Flattening one-column rows keeps their count and their order. */
  lemma {:induction false} FlattenSingletons(rows: seq<seq<string>>)
    requires forall i :: 0 <= i < |rows| ==> |rows[i]| == 1
    ensures |Flatten(rows)| == |rows|
    ensures forall i :: 0 <= i < |rows| ==> Flatten(rows)[i] == rows[i][0]
  {
    if rows != [] {
      FlattenSingletons(rows[1..]);
    }
  }

  /** The flattened catalog lists every table name, in catalog order. */
  lemma {:induction false} FlattenCatalog(tables: seq<Table>)
    ensures Flatten(Catalog(tables)) == Names(tables)
  {
    if tables != [] {
      FlattenCatalog(tables[1..]);
      assert Catalog(tables)[1..] == Catalog(tables[1..]);
    }
  }

  /** Names the engine reserves for its own tables. */
  predicate IsInternal(name: string)
  {
    "sqlite" <= name
  }

  /** `[item for item in names if not item.startswith("sqlite")]`. */
  function CleanNames(names: seq<string>): (kept: seq<string>)
    ensures |kept| <= |names|
  {
    if names == [] then []
    else (if IsInternal(names[0]) then [] else [names[0]]) + CleanNames(names[1..])
  }

  /** The kept names are exactly the names that are not internal. */
  lemma {:induction false} CleanNamesKeeps(names: seq<string>)
    ensures forall n :: n in CleanNames(names) <==> n in names && !IsInternal(n)
  {
    if names != [] {
      CleanNamesKeeps(names[1..]);
      assert names == [names[0]] + names[1..];
    }
  }

  /** Filtering a concatenation filters each part and keeps them in order:
      the kept names stay in their catalog order. */
  lemma {:induction false} CleanNamesAppend(a: seq<string>, b: seq<string>)
    ensures CleanNames(a + b) == CleanNames(a) + CleanNames(b)
  {
    if a == [] {
      assert a + b == b;
    } else {
      assert (a + b)[1..] == a[1..] + b;
      CleanNamesAppend(a[1..], b);
    }
  }

  /** Each user table name is kept as often as it occurs, each internal one
      never. */
  lemma {:induction false} CleanNamesCounts(names: seq<string>)
    ensures forall x :: multiset(CleanNames(names))[x] == if IsInternal(x) then 0 else multiset(names)[x]
  {
    if names != [] {
      CleanNamesCounts(names[1..]);
      assert names == [names[0]] + names[1..];
    }
  }

  /** The tables the worker exports, in export order: exactly the user
      tables of the database. */
  function ExportNames(db: Database): (names: seq<string>)
    ensures AllTables(db, names)
  {
    FlattenCatalog(db.tables);
    CleanNamesKeeps(Names(db.tables));
    CleanNames(Flatten(Catalog(db.tables)))
  }

  /** The exported names are exactly the user tables of the database. */
  lemma ExportNamesAreUserTables(db: Database)
    ensures forall n :: n in ExportNames(db) <==> n in Names(db.tables) && !IsInternal(n)
  {
    FlattenCatalog(db.tables);
    CleanNamesKeeps(Names(db.tables));
  }

  // ---------------------------------------------------------------------
  // Reading and writing one table

  /** `select_table`: the fetched rows with the column names put in front. */
  method SelectTable(db: Database, table: string) returns (rows: seq<Row>)
    requires table in Names(db.tables)
    ensures |rows| == |Lookup(db.tables, table).rows| + 1
    ensures |rows[0]| == |Lookup(db.tables, table).columns|
    ensures forall j :: 0 <= j < |rows[0]| ==> rows[0][j] == Text(Lookup(db.tables, table).columns[j])
    ensures forall k :: 0 <= k < |Lookup(db.tables, table).rows| ==> rows[k + 1] == Lookup(db.tables, table).rows[k]
  {
    var result := Lookup(db.tables, table);
    rows := result.rows;
    var colNames := seq(|result.columns|, j requires 0 <= j < |result.columns| => Text(result.columns[j]));
    rows := [colNames] + rows;
  }

  /** `write_table_to_workbook`: adds one sheet named `worksheetName` and
      writes the table into it row by row, each row up to the width of the
      first row. */
  method WriteTableToWorkbook(workbook: Workbook, table: seq<Row>, worksheetName: string)
    requires |table| > 0 && Rectangular(table, |table[0]|)
    modifies workbook
    ensures |workbook.sheets| == |old(workbook.sheets)| + 1
    ensures workbook.sheets == old(workbook.sheets) + [Sheet(worksheetName, Grid(table, |table[0]|))]
    ensures workbook.writes == old(workbook.writes) + RowMajor(|old(workbook.sheets)|, table, |table[0]|, |table|)
    ensures workbook.closed == old(workbook.closed)
  {
    ghost var before := workbook.sheets;
    var worksheet := workbook.AddWorksheet(worksheetName);
    var cols := |table[0]|;
    for rowNumber := 0 to |table|
      invariant workbook.sheets == before + [Sheet(worksheetName, Cells(table, cols, rowNumber, 0))]
      invariant workbook.writes == old(workbook.writes) + RowMajor(worksheet, table, cols, rowNumber)
      invariant workbook.closed == old(workbook.closed)
    {
      var row := table[rowNumber];
      for colNumber := 0 to cols
        invariant workbook.sheets == before + [Sheet(worksheetName, Cells(table, cols, rowNumber, colNumber))]
        invariant workbook.writes == old(workbook.writes) + RowMajor(worksheet, table, cols, rowNumber)
                                     + RowWrites(worksheet, rowNumber, row, colNumber)
        invariant workbook.closed == old(workbook.closed)
      {
        workbook.Write(worksheet, rowNumber, colNumber, row[colNumber]);
        RowMajorStep(old(workbook.writes), worksheet, table, cols, rowNumber, colNumber);
        assert (before + [Sheet(worksheetName, Cells(table, cols, rowNumber, colNumber))])[worksheet :=
                 Sheet(worksheetName, Cells(table, cols, rowNumber, colNumber + 1))]
            == before + [Sheet(worksheetName, Cells(table, cols, rowNumber, colNumber + 1))];
      }
      RowMajorNextRow(old(workbook.writes), worksheet, table, cols, rowNumber);
    }
  }

  /** The sheet shows the table with its header: row 0 holds the column
      names, row k + 1 holds data row k, and nothing else is set. */
  ghost predicate ShowsTable(cells: map<(nat, nat), Value>, t: Table)
  {
    && (forall i: nat, j: nat :: (i, j) in cells <==> i <= |t.rows| && j < |t.columns|)
    && (forall j :: 0 <= j < |t.columns| ==> (0, j) in cells && cells[(0, j)] == Text(t.columns[j]))
    && (forall k, j :: 0 <= k < |t.rows| && 0 <= j < |t.columns| && j < |t.rows[k]| ==>
          (k + 1, j) in cells && cells[(k + 1, j)] == t.rows[k][j])
  }

  /** The header row: the column names, in order. */
  function Header(t: Table): Row
  {
    ColumnTexts(t.columns)
  }

  /** Each column name as a text value, in order. */
  function ColumnTexts(columns: seq<string>): (texts: Row)
    ensures |texts| == |columns|
  {
    if columns == [] then [] else ColumnTexts(columns[..|columns| - 1]) + [Text(columns[|columns| - 1])]
  }

  lemma {:induction false} ColumnTextsAt(columns: seq<string>)
    ensures forall j :: 0 <= j < |columns| ==> ColumnTexts(columns)[j] == Text(columns[j])
  {
    if columns != [] {
      ColumnTextsAt(columns[..|columns| - 1]);
    }
  }

  /** The sheet the worker produces for a table: its name, and the grid of
      the header row followed by the data rows. */
  function TableSheet(t: Table): Sheet
    requires Aligned(t)
  {
    var rows := [Header(t)] + t.rows;
    assert Rectangular(rows, |rows[0]|) by {
      forall k | 1 <= k < |rows| ensures |rows[k]| == |t.columns| {
        assert rows[k] == t.rows[k - 1];
      }
    }
    Sheet(t.name, Grid(rows, |t.columns|))
  }

  /** The sheet for a table shows the table with its header. */
  lemma TableSheetShowsTable(t: Table)
    requires Aligned(t)
    ensures TableSheet(t).name == t.name
    ensures ShowsTable(TableSheet(t).cells, t)
  {
    var rows := [Header(t)] + t.rows;
    assert Rectangular(rows, |t.columns|) by {
      forall k | 1 <= k < |rows| ensures |rows[k]| == |t.columns| {
        assert rows[k] == t.rows[k - 1];
      }
    }
    GridCells(rows, |t.columns|);
    ColumnTextsAt(t.columns);
    var cells := TableSheet(t).cells;
    forall i: nat, j: nat ensures (i, j) in cells <==> i <= |t.rows| && j < |t.columns| {
    }
    forall k, j | 0 <= k < |t.rows| && 0 <= j < |t.columns| && j < |t.rows[k]|
      ensures (k + 1, j) in cells && cells[(k + 1, j)] == t.rows[k][j]
    {
      assert rows[k + 1] == t.rows[k];
    }
  }

  /** The rows `select_table` returns for a table are its header row
      followed by its data rows; written out, they give the table's sheet. */
  lemma SelectedRowsSheet(t: Table, table: seq<Row>)
    requires Aligned(t)
    requires |table| == |t.rows| + 1 && |table[0]| == |t.columns|
    requires forall j :: 0 <= j < |table[0]| ==> table[0][j] == Text(t.columns[j])
    requires forall k :: 0 <= k < |t.rows| ==> table[k + 1] == t.rows[k]
    ensures Rectangular(table, |table[0]|)
    ensures TableSheet(t) == Sheet(t.name, Grid(table, |table[0]|))
  {
    ColumnTextsAt(t.columns);
    assert table[0] == Header(t);
    forall k | 0 <= k < |table| ensures table[k] == ([Header(t)] + t.rows)[k] {
      if k > 0 {
        assert table[k] == t.rows[k - 1];
      }
    }
    assert table == [Header(t)] + t.rows;
  }

  /** A prefix one longer is the shorter prefix and the next element. */
  lemma PrefixStep<T>(s: seq<T>, i: nat)
    requires i < |s|
    ensures s[..i + 1] == s[..i] + [s[i]]
  {
  }

  lemma AppendAssoc<T>(a: seq<T>, b: seq<T>, c: seq<T>)
    ensures a + (b + c) == (a + b) + c
  {
  }

  /** Every exported name is a table of the database. */
  predicate AllTables(db: Database, names: seq<string>)
  {
    forall j :: 0 <= j < |names| ==> names[j] in Names(db.tables)
  }

  /** The sheets of the first m exported tables. */
  function ExpectedSheets(db: Database, names: seq<string>, m: nat): (sheets: seq<Sheet>)
    requires WellFormed(db) && AllTables(db, names) && m <= |names|
    ensures |sheets| == m
  {
    if m == 0 then []
    else ExpectedSheets(db, names, m - 1) + [TableSheet(Lookup(db.tables, names[m - 1]))]
  }

  /** The sheets of the first k tables are the first k sheets of any
      longer export. */
  lemma ExpectedSheetsPrefix(db: Database, names: seq<string>, m: nat, k: nat)
    requires WellFormed(db) && AllTables(db, names) && k <= m <= |names|
    ensures ExpectedSheets(db, names, m)[..k] == ExpectedSheets(db, names, k)
  {
    var longer, shorter := ExpectedSheets(db, names, m)[..k], ExpectedSheets(db, names, k);
    forall j | 0 <= j < k ensures longer[j] == shorter[j] {
      ExpectedSheetAt(db, names, m, j);
      ExpectedSheetAt(db, names, k, j);
    }
  }

  /** Sheet j of an export is the sheet of table j. */
  lemma {:induction false} ExpectedSheetAt(db: Database, names: seq<string>, m: nat, j: nat)
    requires WellFormed(db) && AllTables(db, names) && j < m <= |names|
    ensures ExpectedSheets(db, names, m)[j] == TableSheet(Lookup(db.tables, names[j]))
  {
    if j < m - 1 {
      ExpectedSheetAt(db, names, m - 1, j);
    }
  }

  /** Sheet j of an export is named after table j and shows that table with
      its header. */
  lemma ExpectedSheetsShowTables(db: Database, names: seq<string>, m: nat)
    requires WellFormed(db) && AllTables(db, names) && m <= |names|
    ensures forall j :: 0 <= j < m ==>
      && ExpectedSheets(db, names, m)[j].name == names[j]
      && ShowsTable(ExpectedSheets(db, names, m)[j].cells, Lookup(db.tables, names[j]))
  {
    forall j | 0 <= j < m
      ensures ExpectedSheets(db, names, m)[j].name == names[j]
      ensures ShowsTable(ExpectedSheets(db, names, m)[j].cells, Lookup(db.tables, names[j]))
    {
      ExpectedSheetAt(db, names, m, j);
      TableSheetShowsTable(Lookup(db.tables, names[j]));
    }
  }

  // ---------------------------------------------------------------------
  // Cancellation

  /** The cancellation flag as table i starts: set from the start, or by a
      `stop()` during one of the tables before i (the check after table i
      reads `FlagBefore(.., i + 1)`). Entry
      j of `requests` says whether the window called `stop()` while table j
      was being exported. */
  function FlagBefore(initially: bool, requests: seq<bool>, i: nat): bool
  {
    if i == 0 then initially
    else FlagBefore(initially, requests, i - 1) || (i - 1 < |requests| && requests[i - 1])
  }

  /** The flag the worker reads after writing table i. */
  function FlagAtCheck(initially: bool, requests: seq<bool>, i: nat): bool
  {
    FlagBefore(initially, requests, i + 1)
  }

  /** The flag is set exactly when it was set at the start or some earlier
      request set it; it is never cleared. */
  lemma {:induction false} FlagBeforeMeaning(initially: bool, requests: seq<bool>, i: nat)
    ensures FlagBefore(initially, requests, i) <==>
      initially || exists j :: 0 <= j < i && j < |requests| && requests[j]
  {
    if i > 0 {
      FlagBeforeMeaning(initially, requests, i - 1);
    }
  }

  lemma {:induction false} FlagMonotone(initially: bool, requests: seq<bool>, i: nat, j: nat)
    requires i <= j && FlagBefore(initially, requests, i)
    ensures FlagBefore(initially, requests, j)
  {
    if i < j {
      FlagMonotone(initially, requests, i, j - 1);
    }
  }

  /** The first table from i on after which the check finds the flag set,
      or n when no check of the n tables does. */
  function FirstStop(initially: bool, requests: seq<bool>, n: nat, i: nat): nat
    decreases n - i
  {
    if i >= n then n
    else if FlagAtCheck(initially, requests, i) then i
    else FirstStop(initially, requests, n, i + 1)
  }

  /** FirstStop is the first check that finds the flag set; the run is
      cancelled exactly when the flag is set by the last table's check. */
  lemma {:induction false} FirstStopIsFirst(initially: bool, requests: seq<bool>, n: nat)
    ensures FirstStop(initially, requests, n, 0) <= n
    ensures forall j :: 0 <= j < FirstStop(initially, requests, n, 0) ==> !FlagAtCheck(initially, requests, j)
    ensures FirstStop(initially, requests, n, 0) < n ==> FlagAtCheck(initially, requests, FirstStop(initially, requests, n, 0))
    ensures FirstStop(initially, requests, n, 0) < n <==> n > 0 && FlagBefore(initially, requests, n)
  {
    FirstStopFrom(initially, requests, n, 0);
    var k := FirstStop(initially, requests, n, 0);
    if k < n {
      FlagMonotone(initially, requests, k + 1, n);
    } else if n > 0 {
      assert !FlagAtCheck(initially, requests, n - 1);
    }
  }

  lemma {:induction false} FirstStopFrom(initially: bool, requests: seq<bool>, n: nat, i: nat)
    requires i <= n
    requires forall j :: 0 <= j < i ==> !FlagAtCheck(initially, requests, j)
    ensures i <= FirstStop(initially, requests, n, i) <= n
    ensures forall j :: 0 <= j < FirstStop(initially, requests, n, i) ==> !FlagAtCheck(initially, requests, j)
    ensures FirstStop(initially, requests, n, i) < n ==> FlagAtCheck(initially, requests, FirstStop(initially, requests, n, i))
    decreases n - i
  {
    if i < n && !FlagAtCheck(initially, requests, i) {
      FirstStopFrom(initially, requests, n, i + 1);
    }
  }

  /** One check of the loop: the flag read after table i either ends the
      loop there, or the first stop lies further on. */
  lemma FirstStopStep(initially: bool, requests: seq<bool>, n: nat, i: nat)
    requires i < n
    ensures FirstStop(initially, requests, n, i)
         == if FlagBefore(initially, requests, i + 1) then i else FirstStop(initially, requests, n, i + 1)
  {
  }

  // ---------------------------------------------------------------------
  // The worker

  /** What an export does, in order, as the window and the file see it. */
  datatype Event = SheetWritten(name: string) | Notified(note: Notification) | WorkbookClosed

  /** The events of exporting the first m of the given tables out of n. */
  function RunTrace(names: seq<string>, m: nat, n: nat): seq<Event>
    requires m <= |names|
  {
    if m == 0 then []
    else RunTrace(names, m - 1, n) + [SheetWritten(names[m - 1]), Notified(Progress(m - 1, n))]
  }

  /** Exporting table m after the first m extends the events by its pair. */
  lemma RunTraceAppend(trace0: seq<Event>, names: seq<string>, m: nat, n: nat)
    requires m < |names|
    ensures trace0 + RunTrace(names, m + 1, n) == (trace0 + RunTrace(names, m, n)) + [SheetWritten(names[m]), Notified(Progress(m, n))]
  {
    assert RunTrace(names, m + 1, n) == RunTrace(names, m, n) + [SheetWritten(names[m]), Notified(Progress(m, n))];
  }

  /** Each table's sheet comes right before its progress notification. */
  lemma {:induction false} RunTraceAt(names: seq<string>, m: nat, n: nat)
    requires m <= |names|
    ensures |RunTrace(names, m, n)| == 2 * m
    ensures forall i :: 0 <= i < m ==>
      RunTrace(names, m, n)[2 * i] == SheetWritten(names[i]) &&
      RunTrace(names, m, n)[2 * i + 1] == Notified(Progress(i, n))
  {
    if m > 0 {
      RunTraceAt(names, m - 1, n);
    }
  }

  /** How many tables a run over n tables exports when the check after
      table k is the first to find the flag set (k == n: none does). */
  function SheetCount(n: nat, k: nat): nat
  {
    if k < n then k + 1 else n
  }

  /** The notifications of such a run: the progress of every exported
      table, then `wait` and `done` unless it was cancelled. */
  function RunLog(n: nat, k: nat): seq<Notification>
  {
    if k < n then ProgressLog(k + 1, n) else ProgressLog(n, n) + [Wait, Done]
  }

  /** The events of such a run: each exported sheet and its progress, then
      `wait`, the workbook's close and `done` unless it was cancelled. */
  function RunEvents(names: seq<string>, k: nat): seq<Event>
  {
    if k < |names| then RunTrace(names, k + 1, |names|)
    else RunTrace(names, |names|, |names|) + [Notified(Wait), WorkbookClosed, Notified(Done)]
  }

  /** The outcome of a run cancelled after table k, appended to the
      notifications and events before it. */
  lemma CancelledOutcome(names: seq<string>, k: nat, log0: seq<Notification>, trace0: seq<Event>)
    requires k < |names|
    ensures SheetCount(|names|, k) == k + 1
    ensures log0 + RunLog(|names|, k) == log0 + ProgressLog(k + 1, |names|)
    ensures trace0 + RunEvents(names, k) == trace0 + RunTrace(names, k + 1, |names|)
  {
  }

  /** The outcome of a completed run: the loop's notifications and events,
      followed by those of saving. */
  lemma CompletedOutcome(names: seq<string>, log0: seq<Notification>, trace0: seq<Event>)
    ensures SheetCount(|names|, |names|) == |names|
    ensures log0 + RunLog(|names|, |names|) == (log0 + ProgressLog(|names|, |names|)) + [Wait, Done]
    ensures trace0 + RunEvents(names, |names|)
         == (trace0 + RunTrace(names, |names|, |names|)) + [Notified(Wait), WorkbookClosed, Notified(Done)]
  {
    var n := |names|;
    assert RunLog(n, n) == ProgressLog(n, n) + [Wait, Done];
    AppendAssoc(log0, ProgressLog(n, n), [Wait, Done]);
    assert RunEvents(names, n) == RunTrace(names, n, n) + [Notified(Wait), WorkbookClosed, Notified(Done)];
    AppendAssoc(trace0, RunTrace(names, n, n), [Notified(Wait), WorkbookClosed, Notified(Done)]);
  }

  /** A run's events before it ends are only sheets and progress. */
  lemma {:induction false} RunTraceOnlyTables(names: seq<string>, m: nat, n: nat)
    requires m <= |names|
    ensures forall e :: e in RunTrace(names, m, n) ==> e.SheetWritten? || (e.Notified? && e.note.Progress?)
  {
    if m > 0 {
      RunTraceOnlyTables(names, m - 1, n);
    }
  }

  /** A completed run emits the progress of every table in order, then
      `wait`, then `done`; with no tables, just `wait` and `done`. */
  lemma CompletedLog(n: nat)
    ensures |RunLog(n, n)| == n + 2
    ensures forall i :: 0 <= i < n ==> RunLog(n, n)[i] == Progress(i, n)
    ensures RunLog(n, n)[n] == Wait && RunLog(n, n)[n + 1] == Done
    ensures n == 0 ==> RunLog(n, n) == [Wait, Done]
  {
    ProgressLogAt(n, n);
  }

  /** A run cancelled after table k < n emits the progress of tables 0..k
      and neither `wait` nor `done`. */
  lemma CancelledLog(n: nat, k: nat)
    requires k < n
    ensures |RunLog(n, k)| == k + 1
    ensures forall i :: 0 <= i <= k ==> RunLog(n, k)[i] == Progress(i, n)
    ensures Wait !in RunLog(n, k) && Done !in RunLog(n, k)
  {
    ProgressLogAt(k + 1, n);
  }

  /** In a completed run each table's sheet is written before its progress
      is emitted, and the workbook is closed once, after `wait` and before
      `done`. */
  lemma CompletedEvents(names: seq<string>)
    ensures |RunEvents(names, |names|)| == 2 * |names| + 3
    ensures forall i :: 0 <= i < |names| ==>
      && RunEvents(names, |names|)[2 * i] == SheetWritten(names[i])
      && RunEvents(names, |names|)[2 * i + 1] == Notified(Progress(i, |names|))
    ensures RunEvents(names, |names|)[2 * |names|..] == [Notified(Wait), WorkbookClosed, Notified(Done)]
    ensures WorkbookClosed !in RunEvents(names, |names|)[..2 * |names|]
  {
    var n := |names|;
    RunTraceAt(names, n, n);
    RunTraceOnlyTables(names, n, n);
    assert RunEvents(names, n)[..2 * n] == RunTrace(names, n, n);
  }

  /** A run cancelled after table k < n writes the sheets of tables 0..k,
      each followed by its progress, and never emits `wait` or `done` nor
      closes the workbook. */
  lemma CancelledEvents(names: seq<string>, k: nat)
    requires k < |names|
    ensures |RunEvents(names, k)| == 2 * (k + 1)
    ensures forall i :: 0 <= i <= k ==>
      && RunEvents(names, k)[2 * i] == SheetWritten(names[i])
      && RunEvents(names, k)[2 * i + 1] == Notified(Progress(i, |names|))
    ensures Notified(Wait) !in RunEvents(names, k) && Notified(Done) !in RunEvents(names, k)
    ensures WorkbookClosed !in RunEvents(names, k)
  {
    RunTraceAt(names, k + 1, |names|);
    RunTraceOnlyTables(names, k + 1, |names|);
  }

  class Converter {
    const dbFile: Database
    const savePath: string
    /** The signals emitted to the window so far. */
    var notifications: seq<Notification>
    var stopped: bool
    ghost var trace: seq<Event>

    constructor (dbFile: Database, savePath: string)
      ensures this.dbFile == dbFile && this.savePath == savePath
      ensures notifications == [] && !stopped && trace == []
    {
      this.dbFile := dbFile;
      this.savePath := savePath;
      notifications := [];
      stopped := false;
      trace := [];
    }

    /** `stop()`: sets the flag; nothing ever clears it. */
    method Stop()
      modifies this`stopped
      ensures stopped
    {
      stopped := true;
    }

    /** `stopped()`: reads the flag. */
    method Stopped() returns (s: bool)
      ensures s == stopped
    {
      s := stopped;
    }

    /** One round of the loop in `run`: read table i of `names` with its
        header, write it into a new sheet, and emit its progress. */
    method ExportTable(workbook: Workbook, names: seq<string>, i: nat, stopRequested: bool,
                       ghost expected: seq<Sheet>, ghost log0: seq<Notification>, ghost trace0: seq<Event>)
      requires WellFormed(dbFile) && AllTables(dbFile, names) && i < |names|
      requires expected == ExpectedSheets(dbFile, names, |names|)
      requires workbook.sheets == expected[..i]
      requires notifications == log0 + ProgressLog(i, |names|)
      requires trace == trace0 + RunTrace(names, i, |names|)
      modifies this`notifications, this`trace, this`stopped, workbook
      ensures stopped == (old(stopped) || stopRequested)
      ensures workbook.sheets == expected[..i + 1]
      ensures workbook.closed == old(workbook.closed)
      ensures notifications == log0 + ProgressLog(i + 1, |names|)
      ensures trace == trace0 + RunTrace(names, i + 1, |names|)
    {
      ExpectedSheetAt(dbFile, names, |names|, i);
      var name := names[i];
      CopyTable(workbook, name);
      PrefixStep(expected, i);
      // the window's stop() may land while the table is being exported
      if stopRequested {
        Stop();
      }
      // update ui progress bar
      notifications := notifications + [Progress(i, |names|)];
      ProgressLogAppend(log0, i, |names|);
      trace := trace + [SheetWritten(name), Notified(Progress(i, |names|))];
      RunTraceAppend(trace0, names, i, |names|);
    }

    /** Reads one table with its header and writes it into a new sheet. */
    method CopyTable(workbook: Workbook, name: string)
      requires WellFormed(dbFile) && name in Names(dbFile.tables)
      modifies workbook
      ensures workbook.sheets == old(workbook.sheets) + [TableSheet(Lookup(dbFile.tables, name))]
      ensures workbook.closed == old(workbook.closed)
    {
      var table := SelectTable(dbFile, name);
      ghost var t := Lookup(dbFile.tables, name);
      assert Aligned(t);
      SelectedRowsSheet(t, table);
      WriteTableToWorkbook(workbook, table, name);
    }

    /** The end of `run` once every table is written: signal `wait`,
        close the workbook, signal `done`. */
    method SaveAndClose(workbook: Workbook)
      modifies this`notifications, this`trace, workbook
      ensures workbook.closed && workbook.sheets == old(workbook.sheets)
      ensures notifications == old(notifications) + [Wait, Done]
      ensures trace == old(trace) + [Notified(Wait), WorkbookClosed, Notified(Done)]
    {
      notifications := notifications + [Wait];
      trace := trace + [Notified(Wait)];
      workbook.Close();
      trace := trace + [WorkbookClosed];
      notifications := notifications + [Done];
      trace := trace + [Notified(Done)];
    }

    /** The loop of `run`: exports the tables of `names` in order, each
        followed by its progress, and polls the flag after each. Returns the
        table after which the poll found the flag set (where `run` calls
        `sys.exit()`), or |names| when no poll did. */
    method ExportTables(workbook: Workbook, names: seq<string>, stopRequests: seq<bool>, ghost expected: seq<Sheet>) returns (k: nat)
      requires WellFormed(dbFile) && AllTables(dbFile, names)
      requires expected == ExpectedSheets(dbFile, names, |names|)
      requires workbook.sheets == []
      modifies this`notifications, this`stopped, this`trace, workbook
      ensures k <= |names| && k == FirstStop(old(stopped), stopRequests, |names|, 0)
      ensures workbook.sheets == expected[..SheetCount(|names|, k)]
      ensures notifications == old(notifications) + ProgressLog(SheetCount(|names|, k), |names|)
      ensures trace == old(trace) + RunTrace(names, SheetCount(|names|, k), |names|)
      ensures stopped == FlagBefore(old(stopped), stopRequests, SheetCount(|names|, k))
      ensures workbook.closed == old(workbook.closed)
    {
      var n := |names|;
      ghost var initially := stopped;
      for i := 0 to n
        invariant workbook.closed == old(workbook.closed)
        invariant workbook.sheets == expected[..i]
        invariant notifications == old(notifications) + ProgressLog(i, n)
        invariant trace == old(trace) + RunTrace(names, i, n)
        invariant stopped == FlagBefore(initially, stopRequests, i)
        invariant FirstStop(initially, stopRequests, n, 0) == FirstStop(initially, stopRequests, n, i)
      {
        ExportTable(workbook, names, i, i < |stopRequests| && stopRequests[i], expected, old(notifications), old(trace));
        FirstStopStep(initially, stopRequests, n, i);
        var s := Stopped();
        if s {
          k := i;
          return;
        }
      }
      k := n;
    }

    /** `run`. Without cancellation every user table gets its sheet, in
        catalog order, each followed by its progress, and the worker then
        signals `wait`, closes the workbook and signals `done`. When the
        check after table k finds the flag set, the worker ends there: k + 1
        sheets, k + 1 progress notifications, no `wait`, no `done`, and the
        workbook left open. */
    method Run(stopRequests: seq<bool>) returns (workbook: Workbook)
      requires WellFormed(dbFile)
      modifies this`notifications, this`stopped, this`trace
      ensures fresh(workbook) && workbook.path == savePath
      ensures var k := FirstStop(old(stopped), stopRequests, |ExportNames(dbFile)|, 0);
              && |workbook.sheets| == SheetCount(|ExportNames(dbFile)|, k)
              && notifications == old(notifications) + RunLog(|ExportNames(dbFile)|, k)
              && trace == old(trace) + RunEvents(ExportNames(dbFile), k)
              && workbook.closed == (k == |ExportNames(dbFile)|)
      ensures workbook.sheets == ExpectedSheets(dbFile, ExportNames(dbFile), |workbook.sheets|)
      ensures stopped == FlagBefore(old(stopped), stopRequests, |workbook.sheets|)
    {
      workbook := new Workbook(savePath);
      var names := Flatten(Catalog(dbFile.tables));
      var cleanedNames := CleanNames(names);
      assert cleanedNames == ExportNames(dbFile);
      ghost var expected := ExpectedSheets(dbFile, cleanedNames, |cleanedNames|);
      var k := ExportTables(workbook, cleanedNames, stopRequests, expected);
      ExpectedSheetsPrefix(dbFile, cleanedNames, |cleanedNames|, SheetCount(|cleanedNames|, k));
      if k < |cleanedNames| {
        // sys.exit(): the worker ends without saving
        CancelledOutcome(cleanedNames, k, old(notifications), old(trace));
        return;
      }
      SaveAndClose(workbook);
      CompletedOutcome(cleanedNames, old(notifications), old(trace));
    }
  }
}
