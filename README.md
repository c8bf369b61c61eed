# SQLite2Excel, modelled in Dafny

SQLite2Excel is a small desktop tool. The user picks an SQLite database file. The window derives the
path of an Excel workbook from it and starts a background `Converter` thread. That thread lists the
user tables of the database and copies each one into its own worksheet: a header row of column
names, then the data rows, written cell by cell. After each table it reports progress to the window
and polls a stop flag. At the end it signals `wait`, closes the workbook and signals `done`.

The model has five modules:

- `Sqlite` (`sqlite.dfy`): the database as plain data. The catalog is an ordered list of tables, each
  with column names and rows of scalar values.
- `Xlsx` (`xlsx.dfy`): the workbook as a class.
  - `sheets` holds each worksheet's name and its map from (row, column) to value.
  - `closed` records whether the workbook was closed.
  - A ghost log records every cell write, in order.
  - `Cells`/`Grid` give the cells a row-major pass produces.
- `Signals` (`signals.dfy`): the three signals of `Communicate`, as notifications appended to a log.
  Progress is the pair (table index, table count), and `Percent` is its value.
- `Window` (`window.dfy`): the two parts of `ConverterWindow` that are logic rather than layout. These
  are the rule deriving the save path from the database path, and the progress bar's reaction to the
  three signals. `ConvertData` creates the worker with the path `set_save_path` derives, as written.
- `Export` (`export.dfy`): the worker, covering the catalog flattening and filtering,
  `select_table`, `write_table_to_workbook`, and the `Converter` class with `run`, `stop` and
  `stopped`.

`WriteTableToWorkbook` is proved against `Grid` and `RowMajor`, the cells and the write order of a
row-major pass. `CopyTable`, `ExportTable` and `ExportTables` are proved against `TableSheet` and
`ExpectedSheets`, a specification of the sheets an export produces. `Run` is proved against
`SheetCount`, `RunLog` and `RunEvents`. Lemmas state what those specifications mean:

- every sheet shows its table with its header;
- the writes come in row-major order;
- the progress values start at 0, rise strictly and stay below 100;
- a completed run ends with `wait`, the close of the workbook, and `done`;
- a cancelled run never closes the workbook.

The window's `stop()` can happen at any moment while the worker runs. This is modelled by the
`stopRequests` argument of `Run`: `stopRequests[i]` says that `stop()` landed while table `i` was
being exported, before the poll that follows it.

## Model

| member | source | states |
|---|---|---|
| Sqlite.Names | sqlite_to_xlsx_converter.py:185-189 | the catalog yields one name per table, in catalog order |
| Sqlite.Lookup | sqlite_to_xlsx_converter.py:253 | `SELECT * FROM name` reads a table of the database that has that name |
| Signals.ProgressLogAt | sqlite_to_xlsx_converter.py:195-206 | the i-th progress notification of a run is the one for table i |
| Signals.PercentBelow | sqlite_to_xlsx_converter.py:206 | `i / n * 100` rises strictly with i |
| Signals.ProgressValues | sqlite_to_xlsx_converter.py:195-206 | the emitted progress values start at 0, rise strictly and are all below 100 |
| Window.Split | sqlite_to_xlsx_converter.py:80 | `str.split(".")` never returns an empty list, so `[-1]` always exists |
| Window.SplitPartsLackSeparator | sqlite_to_xlsx_converter.py:80 | no piece of `split(".")` contains a dot |
| Window.JoinSplit | sqlite_to_xlsx_converter.py:80 | joining the pieces with "." gives the path back |
| Window.SplitAppend | sqlite_to_xlsx_converter.py:80 | splitting at a dot splits each side separately |
| Window.SplitWithoutSeparator | sqlite_to_xlsx_converter.py:80 | a string without a dot splits into itself |
| Window.LastSegmentAfterDot | sqlite_to_xlsx_converter.py:80 | `check_extension` of "stem.ext" is "ext" when ext has no dot |
| Window.SavePath | sqlite_to_xlsx_converter.py:77-92 | as written, the save path is always the chosen path with ".xlsx" appended |
| Window.IntendedSavePath | sqlite_to_xlsx_converter.py:77-92 | `set_save_path` with the type test asking for a string always gives a path ending in "xlsx"; IntendedReplacesKnown and IntendedKeepsUnknown give its two cases |
| Window.IntendedReplacesKnown | sqlite_to_xlsx_converter.py:82-88 | with the type test asking for a string, "stem.db", "stem.sqlite", "stem.sqlite3" and "stem.db3" become "stem.xlsx" |
| Window.IntendedKeepsUnknown | sqlite_to_xlsx_converter.py:90-92 | with that test, any other extension is kept and ".xlsx" is added |
| Window.SavePathKeepsDatabaseExtension | sqlite_to_xlsx_converter.py:80-92 | for every path with a known extension, the code as written gives "stem.ext.xlsx" where "stem.xlsx" is intended |
| Window.ConvertData | sqlite_to_xlsx_converter.py:111-119 | the worker is created for the chosen database with the save path `set_save_path` produces as written (the chosen path with ".xlsx" appended) and a clear flag |
| Window.BarAfterProgress | sqlite_to_xlsx_converter.py:130-132 | after the progress of tables 0..m-1 the bar shows table m-1's value, which is below 100 |
| Window.Handle | sqlite_to_xlsx_converter.py:121-132 | `update_prog` shows the emitted value, `wait` leaves the bar, `done` sets it to 100; a bar within 0..100 stays within 0..100 |
| Window.BarFullOnlyAtDone | sqlite_to_xlsx_converter.py:121-132 | for every number of tables, including none, the bar is below 100 after `wait` and reaches 100 with `done` |
| Xlsx.Workbook.constructor | sqlite_to_xlsx_converter.py:179 | a new workbook at the save path is open and has no sheets and no writes |
| Xlsx.Workbook.AddWorksheet | sqlite_to_xlsx_converter.py:274 | appends one empty sheet with the name and returns its position; nothing else changes |
| Xlsx.Workbook.Write | sqlite_to_xlsx_converter.py:282 | sets exactly one cell of one sheet and logs the write; the other sheets are unchanged |
| Xlsx.Workbook.Close | sqlite_to_xlsx_converter.py:213 | marks the workbook closed and changes no sheet |
| Xlsx.CellsFilled | sqlite_to_xlsx_converter.py:279-282 | after the pass reaches (r, c), exactly the cells before it are set, each to its table value |
| Xlsx.GridCells | sqlite_to_xlsx_converter.py:274-284 | a written table sets cell (r, c) to `table[r][c]` for every row and every column of the first row, and no other cell |
| Xlsx.RowWritesShape | sqlite_to_xlsx_converter.py:281-282 | the writes of one row go column by column, each with that column's value |
| Xlsx.RowMajorOrder | sqlite_to_xlsx_converter.py:279-282 | the writes of a table number rows × columns, each carries its table value, and each comes strictly after the previous one in row-major order |
| Sqlite.Catalog | sqlite_to_xlsx_converter.py:186-188 | the catalog query returns one row per table |
| Sqlite.CatalogRows | sqlite_to_xlsx_converter.py:186-188 | row i of the catalog query holds just the name of table i |
| Export.Flatten | sqlite_to_xlsx_converter.py:189 | the flattened list holds as many items as all the rows together |
| Export.FlattenAppend | sqlite_to_xlsx_converter.py:189 | flattening keeps the rows' order: the items of a later row come after those of every earlier row |
| Export.FlattenSingletons | sqlite_to_xlsx_converter.py:189 | flattening one-column rows keeps their count and their order |
| Export.FlattenCatalog | sqlite_to_xlsx_converter.py:185-189 | `names` is the list of all table names, in catalog order |
| Export.CleanNames | sqlite_to_xlsx_converter.py:192-193 | filtering never lengthens the list; CleanNamesKeeps, CleanNamesAppend and CleanNamesCounts give which names it keeps and in what order |
| Export.CleanNamesKeeps | sqlite_to_xlsx_converter.py:192-193 | a name is kept exactly when it was listed and does not start with "sqlite" |
| Export.CleanNamesAppend | sqlite_to_xlsx_converter.py:192-193 | filtering keeps the catalog order |
| Export.CleanNamesCounts | sqlite_to_xlsx_converter.py:192-193 | each user table name is kept as often as it occurs, and each internal one never |
| Export.ExportNames | sqlite_to_xlsx_converter.py:184-193 | every name the worker exports is a table of the database |
| Export.ExportNamesAreUserTables | sqlite_to_xlsx_converter.py:184-193 | the exported names are exactly the tables whose names do not start with "sqlite" |
| Export.SelectTable | sqlite_to_xlsx_converter.py:241-260 | the result has one more row than the table; row 0 holds the column names in order and row k+1 is data row k |
| Export.ColumnTextsAt | sqlite_to_xlsx_converter.py:256 | the header row holds the column names, one per column, in order |
| Export.SelectedRowsSheet | sqlite_to_xlsx_converter.py:256-260 | those rows are the header followed by the data rows, and they are rectangular |
| Export.WriteTableToWorkbook | sqlite_to_xlsx_converter.py:263-284 | adds exactly one sheet, named as given, holding the table's grid; earlier sheets are unchanged; the writes are the row-major pass |
| Export.TableSheetShowsTable | sqlite_to_xlsx_converter.py:195-202 | a table's sheet has its name; row 0 holds the column names, row k+1 holds data row k, and no other cell is set |
| Export.ExpectedSheetAt | sqlite_to_xlsx_converter.py:195-202 | sheet j of an export is the sheet of the j-th exported table |
| Export.ExpectedSheetsShowTables | sqlite_to_xlsx_converter.py:195-202 | sheet j is named after table j and shows that table with its header |
| Export.FlagBeforeMeaning | sqlite_to_xlsx_converter.py:208-220 | the flag is set exactly when it was set at the start or some earlier `stop()` set it |
| Export.FlagMonotone | sqlite_to_xlsx_converter.py:216-217 | once set, the flag stays set |
| Export.FirstStopIsFirst | sqlite_to_xlsx_converter.py:195-209 | the run ends at the first poll that finds the flag set; it is cancelled exactly when the flag is set by the last poll |
| Export.RunTraceAt | sqlite_to_xlsx_converter.py:195-206 | each table's sheet is written right before that table's progress is emitted |
| Export.RunTraceOnlyTables | sqlite_to_xlsx_converter.py:195-206 | inside the loop the worker only writes sheets and emits progress |
| Export.CompletedLog | sqlite_to_xlsx_converter.py:195-214 | a completed run emits progress 0..N-1 in order, then `wait`, then `done`; with no tables it emits just `wait` and `done` |
| Export.CancelledLog | sqlite_to_xlsx_converter.py:206-209 | a run cancelled after table k emits progress 0..k and neither `wait` nor `done` |
| Export.CompletedEvents | sqlite_to_xlsx_converter.py:195-214 | a completed run writes every sheet before its progress, then emits `wait`, closes the workbook once, and emits `done` |
| Export.CancelledEvents | sqlite_to_xlsx_converter.py:195-209 | a run cancelled after table k writes sheets 0..k and never closes the workbook or emits `wait` or `done` |
| Export.Converter.constructor | sqlite_to_xlsx_converter.py:162-168 | a new worker holds the database and the save path, and its flag is clear |
| Export.Converter.Stop | sqlite_to_xlsx_converter.py:216-217 | `stop()` sets the flag and touches nothing else |
| Export.Converter.Stopped | sqlite_to_xlsx_converter.py:219-220 | `stopped()` returns the flag |
| Export.Converter.CopyTable | sqlite_to_xlsx_converter.py:197-203 | reading a table and writing it adds exactly that table's sheet after the earlier ones and leaves the workbook open or closed as it was |
| Export.Converter.ExportTable | sqlite_to_xlsx_converter.py:197-206 | one round of the loop adds table i's sheet, then emits progress (i, N) |
| Export.Converter.SaveAndClose | sqlite_to_xlsx_converter.py:211-214 | emits `wait`, closes the workbook, emits `done`; the sheets are unchanged |
| Export.Converter.ExportTables | sqlite_to_xlsx_converter.py:195-209 | the loop stops at the first poll that finds the flag set; the sheets, notifications and flag are those of the tables exported so far |
| Export.Converter.Run | sqlite_to_xlsx_converter.py:171-214 | `run` writes the sheets of the user tables in catalog order; notifications and events are `RunLog`/`RunEvents` of the poll that stops it; the workbook is closed exactly when no poll stopped it |

## Left out

- The PyQt window: layout, the file dialog, the error box and `init_UI`. `set_file_path` is left out,
  so the chosen path is a parameter of `SavePath`.
- Threads and signal delivery. Notifications are appended to a log in emission order, and the
  window's handlers are applied to that log in the same order.
- Export.Converter.Run: when `stop()` is called is an input (`stopRequests`), not real concurrency.
  `sys.exit()` in the thread ends `run`; this is modelled as `ExportTables` returning early and
  `Run` returning without the `wait`/close/`done` steps.
- Signals.Percent: `i / N * 100` is an exact real. The model does not capture the floating-point
  value or its conversion to the `int` of the `update_prog` signal; the code emits the float
  unchanged.
- `create_connection`, cursors and the SQL text. This includes the connection error it prints and its
  `None` result, on which the code would then fail. It also includes the quoting of the table name
  with `'…'`: the name is put into the query without escaping, so a name containing `'` makes the
  query raise. The connection is never closed.
- Export.SelectTable: it requires the table to exist. The code lets sqlite3 raise for a missing table,
  but the names it queries always come from the catalog.
- Export.WriteTableToWorkbook: it requires a non-empty, rectangular table. The code would raise
  `IndexError` otherwise, and `select_table`'s rows always have a header and one value per column.
- Sheet-name validation. The code passes each table name unchanged to `add_worksheet`, which raises
  for a name over 31 characters, a name with an invalid character, or a duplicate. Such an exception
  ends the worker thread at that table: the earlier sheets are written, that table gets no progress,
  and there is no `wait`, close or `done`. The model assumes every table name is a valid sheet name.
- xlsxwriter internals: value conversion (a `Null` is stored as is), the file format and the flush
  on close. This includes the default worksheet "Sheet1" that `close()` adds when no sheet was added:
  with no user tables the file has that one sheet, while the model's closed workbook has none. The
  worksheet handle is the sheet's position.
- Duplicate table names, which SQLite does not allow. `Lookup` takes the first match.

## Findings

| source | as written | input that shows it | evidently intended | confidence | as-written member | corrected member |
|---|---|---|---|---|---|---|
| sqlite_to_xlsx_converter.py:82-83 | `extension` is `check_extension` only if it is a list. `str.split` returns a list of strings, so `check_extension` is a string, `extension` is always `None`, and the stripping branch at lines 85-88 never runs | `file_path = "data.db"` gives the save path "data.db.xlsx" | the known extension is replaced: "data.xlsx" (the type test should ask for a string) | not executed | Window.SavePathKeepsDatabaseExtension | Window.IntendedReplacesKnown |
