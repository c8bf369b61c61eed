/** The destination workbook, standing in for the xlsxwriter library: an
    ordered list of sheets, each a name and the cells written into it, a
    `closed` flag, and (for the proofs) the log of every cell write in the
    order it happened. File format, sheet-name validation and the flush on
    close are not modelled. */
module Xlsx {
  import opened Sqlite

  /** Cells are keyed by (row, column), both counted from zero. */
  datatype Sheet = Sheet(name: string, cells: map<(nat, nat), Value>)

  /** One call of `worksheet.write`: the sheet (its position in the
      workbook), the cell and the value. */
  datatype CellWrite = CellWrite(sheet: nat, row: nat, col: nat, value: Value)

  class Workbook {
    const path: string
    var sheets: seq<Sheet>
    var closed: bool
    ghost var writes: seq<CellWrite>

    /** `xlsxwriter.Workbook(path)`: a new, empty, open workbook. */
    constructor (path: string)
      ensures this.path == path
      ensures sheets == [] && !closed && writes == []
    {
      this.path := path;
      sheets := [];
      closed := false;
      writes := [];
    }

    /** `add_worksheet(name)`: appends an empty sheet; the handle returned
        is its position. */
    method AddWorksheet(name: string) returns (sheet: nat)
      modifies this
      ensures sheet == |old(sheets)|
      ensures sheets == old(sheets) + [Sheet(name, map[])]
      ensures closed == old(closed) && writes == old(writes)
    {
      sheet := |sheets|;
      sheets := sheets + [Sheet(name, map[])];
    }

    /** `worksheet.write(row, col, value)`: sets one cell of one sheet. */
    method Write(sheet: nat, row: nat, col: nat, value: Value)
      requires sheet < |sheets|
      modifies this
      ensures sheets == old(sheets)[sheet := old(sheets[sheet]).(cells := old(sheets[sheet]).cells[(row, col) := value])]
      ensures writes == old(writes) + [CellWrite(sheet, row, col, value)]
      ensures closed == old(closed)
    {
      var target := sheets[sheet];
      sheets := sheets[sheet := target.(cells := target.cells[(row, col) := value])];
      writes := writes + [CellWrite(sheet, row, col, value)];
    }

    /** `workbook.close()`: finalises the workbook. */
    method Close()
      modifies this
      ensures closed
      ensures sheets == old(sheets) && writes == old(writes)
    {
      closed := true;
    }
  }

  /** Every row holds at least `width` values. */
  predicate Rectangular(table: seq<Row>, width: nat)
  {
    forall r :: 0 <= r < |table| ==> width <= |table[r]|
  }

  /** The cells of a sheet once rows [0, r) of the table, `width` columns
      each, and the first c columns of row r have been written, one cell at
      a time in row-major order. */
  function Cells(table: seq<Row>, width: nat, r: nat, c: nat): map<(nat, nat), Value>
    requires Rectangular(table, width) && r <= |table| && c <= width
    requires r == |table| ==> c == 0
    decreases r, c
  {
    if c > 0 then Cells(table, width, r, c - 1)[(r, c - 1) := table[r][c - 1]]
    else if r == 0 then map[]
    else Cells(table, width, r - 1, width)
  }

  /** The cells of the whole table. */
  function Grid(table: seq<Row>, width: nat): map<(nat, nat), Value>
    requires Rectangular(table, width)
  {
    Cells(table, width, |table|, 0)
  }

  /** The cells hold exactly rows [0, r) of the table, `width` columns each,
      and the first c columns of row r, each with its table value. */
  ghost predicate Filled(cells: map<(nat, nat), Value>, table: seq<Row>, width: nat, r: nat, c: nat)
  {
    && (forall i: nat, j: nat :: (i, j) in cells <==> (i < r && j < width) || (i == r && j < c))
    && (forall i: nat, j: nat :: (i, j) in cells ==>
          i < |table| && j < |table[i]| && cells[(i, j)] == table[i][j])
  }

  /** Each write adds exactly its own cell, with its table value. */
  lemma {:induction false} CellsFilled(table: seq<Row>, width: nat, r: nat, c: nat)
    requires Rectangular(table, width) && r <= |table| && c <= width
    requires r == |table| ==> c == 0
    ensures Filled(Cells(table, width, r, c), table, width, r, c)
    decreases r, c
  {
    if c > 0 {
      CellsFilled(table, width, r, c - 1);
    } else if r > 0 {
      CellsFilled(table, width, r - 1, width);
    }
  }

  /** The grid of a table: cell (r, c) holds table[r][c] for every row r and
      every column c below `width`, and no other cell is set. */
  lemma GridCells(table: seq<Row>, width: nat)
    requires Rectangular(table, width)
    ensures forall i: nat, j: nat :: (i, j) in Grid(table, width) <==> i < |table| && j < width
    ensures forall i: nat, j: nat :: i < |table| && j < width ==> Grid(table, width)[(i, j)] == table[i][j]
  {
    CellsFilled(table, width, |table|, 0);
  }

  /** The writes of columns [0, c) of row r, in column order. */
  function RowWrites(sheet: nat, r: nat, row: Row, c: nat): (ws: seq<CellWrite>)
    requires c <= |row|
    ensures |ws| == c
  {
    if c == 0 then [] else RowWrites(sheet, r, row, c - 1) + [CellWrite(sheet, r, c - 1, row[c - 1])]
  }

  /** The writes of rows [0, r) of the table, `width` columns each, row by row. */
  function RowMajor(sheet: nat, table: seq<Row>, width: nat, r: nat): seq<CellWrite>
    requires r <= |table| && Rectangular(table, width)
  {
    if r == 0 then []
    else RowMajor(sheet, table, width, r - 1) + RowWrites(sheet, r - 1, table[r - 1], width)
  }

  /** Writing cell (r, c) extends the log of a row-major pass by that cell. */
  lemma RowMajorStep(w0: seq<CellWrite>, sheet: nat, table: seq<Row>, width: nat, r: nat, c: nat)
    requires Rectangular(table, width) && r < |table| && c < width
    ensures w0 + RowMajor(sheet, table, width, r) + RowWrites(sheet, r, table[r], c + 1)
         == (w0 + RowMajor(sheet, table, width, r) + RowWrites(sheet, r, table[r], c)) + [CellWrite(sheet, r, c, table[r][c])]
  {
    assert RowWrites(sheet, r, table[r], c + 1) == RowWrites(sheet, r, table[r], c) + [CellWrite(sheet, r, c, table[r][c])];
  }

  /** A completed row ends the pass over rows [0, r + 1). */
  lemma RowMajorNextRow(w0: seq<CellWrite>, sheet: nat, table: seq<Row>, width: nat, r: nat)
    requires Rectangular(table, width) && r < |table|
    ensures w0 + RowMajor(sheet, table, width, r) + RowWrites(sheet, r, table[r], width)
         == w0 + RowMajor(sheet, table, width, r + 1)
  {
    assert RowMajor(sheet, table, width, r + 1) == RowMajor(sheet, table, width, r) + RowWrites(sheet, r, table[r], width);
  }

  /** Row-major order: all cells of an earlier row come first, and within a
      row the cells come in column order. */
  predicate Before(a: CellWrite, b: CellWrite)
  {
    a.row < b.row || (a.row == b.row && a.col < b.col)
  }

  lemma {:induction false} RowWritesShape(sheet: nat, r: nat, row: Row, c: nat)
    requires c <= |row|
    ensures forall k :: 0 <= k < c ==> RowWrites(sheet, r, row, c)[k] == CellWrite(sheet, r, k, row[k])
  {
    if c > 0 {
      RowWritesShape(sheet, r, row, c - 1);
    }
  }

  /** The row-major log of an r-row, width-column grid writes r * width
      cells of the given sheet, each with its table value, each strictly
      after the one before it in row-major order; so every cell of the grid
      is written exactly once. */
  lemma {:induction false} RowMajorOrder(sheet: nat, table: seq<Row>, width: nat, r: nat)
    requires r <= |table| && Rectangular(table, width)
    ensures |RowMajor(sheet, table, width, r)| == r * width
    ensures forall k :: 0 <= k < |RowMajor(sheet, table, width, r)| ==>
      var w := RowMajor(sheet, table, width, r)[k];
      w.sheet == sheet && w.row < r && w.col < width && w.value == table[w.row][w.col]
    ensures forall a, b :: 0 <= a < b < |RowMajor(sheet, table, width, r)| ==>
      Before(RowMajor(sheet, table, width, r)[a], RowMajor(sheet, table, width, r)[b])
  {
    if r > 0 {
      RowMajorOrder(sheet, table, width, r - 1);
      RowWritesShape(sheet, r - 1, table[r - 1], width);
      var prefix := RowMajor(sheet, table, width, r - 1);
      var last := RowWrites(sheet, r - 1, table[r - 1], width);
      assert RowMajor(sheet, table, width, r) == prefix + last;
      assert |prefix + last| == (r - 1) * width + width == r * width;
    }
  }
}
