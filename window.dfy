/** The two pieces of the window that are logic rather than layout: the
    rule that derives the workbook path from the chosen database path, and
    the way the progress bar follows the worker's notifications. */
module Window {
  import opened Signals
  import opened Sqlite
  import opened Export

  /** The extensions the rule means to replace by "xlsx". */
  const KnownExtensions: seq<string> := ["db", "sqlite", "sqlite3", "db3"]

  /** Python's `s.split(sep)` for a one-character separator: the pieces
      between separators, never an empty list. */
  function Split(s: string, sep: char): (parts: seq<string>)
    ensures |parts| >= 1
  {
    if s == [] then [""]
    else
      var rest := Split(s[1..], sep);
      if s[0] == sep then [""] + rest else [[s[0]] + rest[0]] + rest[1..]
  }

  /** Python's `sep.join(parts)`. */
  function Join(parts: seq<string>, sep: char): string
    requires |parts| >= 1
  {
    if |parts| == 1 then parts[0] else parts[0] + [sep] + Join(parts[1..], sep)
  }

  /** No piece contains the separator. */
  lemma {:induction false} SplitPartsLackSeparator(s: string, sep: char)
    ensures forall k :: 0 <= k < |Split(s, sep)| ==> sep !in Split(s, sep)[k]
  {
    if s != [] {
      SplitPartsLackSeparator(s[1..], sep);
      var rest := Split(s[1..], sep);
      if s[0] != sep {
        assert Split(s, sep) == [[s[0]] + rest[0]] + rest[1..];
      }
    }
  }

  /** Splitting loses nothing: joining the pieces gives the string back. */
  lemma {:induction false} JoinSplit(s: string, sep: char)
    ensures Join(Split(s, sep), sep) == s
  {
    if s != [] {
      JoinSplit(s[1..], sep);
      var rest := Split(s[1..], sep);
      if s[0] != sep && |rest| > 1 {
        assert ([[s[0]] + rest[0]] + rest[1..])[1..] == rest[1..];
      }
    }
  }

  /** A separator in the middle splits into the pieces of either side. */
  lemma {:induction false} SplitAppend(a: string, b: string, sep: char)
    ensures Split(a + [sep] + b, sep) == Split(a, sep) + Split(b, sep)
  {
    var s := a + [sep] + b;
    if a == [] {
      assert s == [sep] + b && s[1..] == b;
    } else {
      assert s[0] == a[0] && s[1..] == a[1..] + [sep] + b;
      SplitAppend(a[1..], b, sep);
    }
  }

  lemma {:induction false} SplitWithoutSeparator(s: string, sep: char)
    requires sep !in s
    ensures Split(s, sep) == [s]
  {
    if s != [] {
      assert sep !in s[1..] by {
        forall k | 0 <= k < |s[1..]| ensures s[1..][k] != sep {
          assert s[1..][k] == s[k + 1];
        }
      }
      SplitWithoutSeparator(s[1..], sep);
      assert [s[0]] + s[1..] == s;
    }
  }

  /** The value `file_path.split(".")[-1]` stands for: always a string. The
      list alternative exists only so that the `isinstance(..., list)` test
      of the code can be stated. */
  datatype PyValue = PyStr(s: string) | PyList(items: seq<PyValue>)

  function LastSegment(path: string): PyValue
  {
    var parts := Split(path, '.');
    PyStr(parts[|parts| - 1])
  }

  function PyLen(v: PyValue): nat
  {
    match v
    case PyStr(s) => |s|
    case PyList(items) => |items|
  }

  /** Python's `x in ["db", "sqlite", "sqlite3", "db3"]` for an optional
      value; a list or None is never equal to a string. */
  predicate IsKnown(v: Option<PyValue>)
  {
    match v
    case Some(PyStr(s)) => s in KnownExtensions
    case _ => false
  }

  datatype Option<T> = None | Some(value: T)

  /** Python's `s[:-k]` for k >= 0 (for k == 0 that is the empty string). */
  function DropLast(s: string, k: int): string
  {
    if k <= 0 || k >= |s| then [] else s[..|s| - k]
  }

  /** `set_save_path` as written: the extension test asks whether a string
      is a list, so `extension` is always None, the stripping branch is
      never taken, and the result is always the path with ".xlsx" added. */
  function SavePath(filePath: string): (savePath: string)
    ensures savePath == filePath + ".xlsx"
  {
    var checkExtension := LastSegment(filePath);
    var extension := if checkExtension.PyList? then Some(checkExtension) else None;
    if IsKnown(extension) then
      DropLast(filePath, match extension case Some(v) => PyLen(v) case None => 0) + "xlsx"
    else
      filePath + ".xlsx"
  }

  /** `set_save_path` with the type test asking for a string, as the
      stripping branch evidently intends. */
  function IntendedSavePath(filePath: string): (savePath: string)
    ensures |savePath| >= 4 && savePath[|savePath| - 4..] == "xlsx"
  {
    var checkExtension := LastSegment(filePath);
    var extension := if checkExtension.PyStr? then Some(checkExtension) else None;
    if IsKnown(extension) then
      DropLast(filePath, match extension case Some(v) => PyLen(v) case None => 0) + "xlsx"
    else
      filePath + ".xlsx"
  }

  lemma {:induction false} LastSegmentAfterDot(stem: string, ext: string)
    requires '.' !in ext
    ensures LastSegment(stem + "." + ext) == PyStr(ext)
  {
    SplitAppend(stem, ext, '.');
    SplitWithoutSeparator(ext, '.');
  }

  /** The intended rule replaces a known database extension by "xlsx". */
  lemma {:induction false} IntendedReplacesKnown(stem: string, ext: string)
    requires ext in KnownExtensions
    ensures IntendedSavePath(stem + "." + ext) == stem + ".xlsx"
  {
    assert '.' !in ext;
    LastSegmentAfterDot(stem, ext);
    var p := stem + "." + ext;
    assert p[..|p| - |ext|] == stem + ".";
  }

  /** ... and keeps any other extension, adding ".xlsx" after it. */
  lemma {:induction false} IntendedKeepsUnknown(stem: string, ext: string)
    requires '.' !in ext && ext !in KnownExtensions
    ensures IntendedSavePath(stem + "." + ext) == stem + "." + ext + ".xlsx"
  {
    LastSegmentAfterDot(stem, ext);
  }

  /** For every path ending in a known database extension ("data.db", say)
      the rule as written keeps the extension and adds ".xlsx" after it,
      where the intended rule replaces it. */
  lemma {:induction false} SavePathKeepsDatabaseExtension(stem: string, ext: string)
    requires ext in KnownExtensions
    ensures SavePath(stem + "." + ext) == stem + "." + ext + ".xlsx"
    ensures IntendedSavePath(stem + "." + ext) == stem + ".xlsx"
    ensures SavePath(stem + "." + ext) != IntendedSavePath(stem + "." + ext)
  {
    IntendedReplacesKnown(stem, ext);
    assert |stem + "." + ext + ".xlsx"| > |stem + ".xlsx"|;
  }

  /** `convert_data`: creates the worker for the chosen database and the
      save path `set_save_path` derived from it; starting its thread is
      calling its `Run`. */
  method ConvertData(filePath: string, db: Database) returns (conv: Converter)
    ensures fresh(conv)
    ensures conv.dbFile == db && conv.savePath == SavePath(filePath)
    ensures conv.notifications == [] && !conv.stopped
  {
    conv := new Converter(db, SavePath(filePath));
  }

  /** One handler call of the window: `update_prog` shows the emitted value,
      `wait` only logs a line, `done` sets the bar to 100. A progress
      notification always has a positive total, since the worker emits one
      only inside its loop over the tables. */
  function Handle(bar: real, note: Notification): (shown: real)
    ensures 0.0 <= bar <= 100.0 && (note.Progress? ==> note.index < note.total) ==> 0.0 <= shown <= 100.0
  {
    match note
    case Progress(i, n) =>
      if n == 0 then bar
      else if i < n then PercentBelow(i, n, n); Percent(i, n)
      else Percent(i, n)
    case Wait => bar
    case Done => 100.0
  }

  /** The bar after the window has handled a log of notifications in order. */
  function BarAfter(bar: real, log: seq<Notification>): real
  {
    if log == [] then bar else Handle(BarAfter(bar, log[..|log| - 1]), log[|log| - 1])
  }

  /** After the progress of the first m > 0 tables the bar shows table
      m - 1's value, which is below 100. */
  lemma {:induction false} BarAfterProgress(bar: real, m: nat, n: nat)
    requires 0 < m <= n
    ensures BarAfter(bar, ProgressLog(m, n)) == Percent(m - 1, n) < 100.0
  {
    var log := ProgressLog(m, n);
    assert log[..|log| - 1] == ProgressLog(m - 1, n);
    PercentBelow(m - 1, n, n);
  }

  /** A completed export ends with the bar at 100, and only its `done`
      notification takes it there: before it the bar is below 100. With no
      tables the log is just `wait` and `done`. */
  lemma BarFullOnlyAtDone(n: nat)
    ensures BarAfter(0.0, ProgressLog(n, n) + [Wait]) < 100.0
    ensures BarAfter(0.0, ProgressLog(n, n) + [Wait, Done]) == 100.0
  {
    var log := ProgressLog(n, n) + [Wait];
    assert log[..|log| - 1] == ProgressLog(n, n);
    if n > 0 {
      BarAfterProgress(0.0, n, n);
    }
    var full := ProgressLog(n, n) + [Wait, Done];
    assert full[..|full| - 1] == log;
  }
}
