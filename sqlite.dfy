/** The source database, as plain data: an ordered catalog of tables, each
    with its column names and its rows of scalar values. Connections,
    cursors and SQL text are not modelled; what a query returns is read off
    these values. */
module Sqlite {

  /** A scalar cell value as the SQLite driver returns it. */
  datatype Value =
    | Null
    | Integer(i: int)
    | Real(r: real)
    | Text(s: string)
    | Blob(bytes: seq<bv8>)

  type Row = seq<Value>

  /** One entry of the catalog whose type is 'table'. Internal tables of the
      engine (sqlite_sequence, sqlite_stat1, ...) are tables too. */
  datatype Table = Table(name: string, columns: seq<string>, rows: seq<Row>)

  /** The tables in the order the catalog returns them. */
  datatype Database = Database(tables: seq<Table>)

  /** Every row has one value per column, as SQLite guarantees. */
  predicate Aligned(t: Table)
  {
    forall k :: 0 <= k < |t.rows| ==> |t.rows[k]| == |t.columns|
  }

  predicate WellFormed(db: Database)
  {
    forall t :: t in db.tables ==> Aligned(t)
  }

  /** The table names, in catalog order. */
  function Names(tables: seq<Table>): (names: seq<string>)
    ensures |names| == |tables|
    ensures forall i :: 0 <= i < |tables| ==> names[i] == tables[i].name
  {
    if tables == [] then [] else [tables[0].name] + Names(tables[1..])
  }

  /** The rows of `SELECT name FROM sqlite_master WHERE type='table'`:
      one single-column row per table, in catalog order. */
  function Catalog(tables: seq<Table>): (rows: seq<seq<string>>)
    ensures |rows| == |tables|
  {
    if tables == [] then [] else [[tables[0].name]] + Catalog(tables[1..])
  }

  /** Row i of the catalog holds exactly the name of table i. */
  lemma {:induction false} CatalogRows(tables: seq<Table>)
    ensures forall i :: 0 <= i < |tables| ==> Catalog(tables)[i] == [tables[i].name]
  {
    if tables != [] {
      CatalogRows(tables[1..]);
    }
  }

  /** The table a `SELECT * FROM` on `name` reads: the first catalog entry
      with that name (SQLite keeps table names unique). */
  function Lookup(tables: seq<Table>, name: string): (t: Table)
    requires name in Names(tables)
    ensures t in tables && t.name == name
  {
    if tables[0].name == name then tables[0] else Lookup(tables[1..], name)
  }
}
