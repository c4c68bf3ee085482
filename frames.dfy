/** The pandas DataFrames the pipeline passes around: named columns over rows
    of cells. Tables are objects, because the pipeline adds and overwrites
    columns of a table its caller holds. */
module Frames {
  import opened Json
  import opened CreatedAt

  /** One value of a table. */
  datatype Cell =
    | JsonCell(json: Json)       // a value taken unchanged from the payload
    | TimeCell(time: Timestamp)  // a parsed `created_at`
    | IntCell(n: int)            // an integer such as a placeholder label
    | TextCell(text: string)     // a label such as a sentiment
    | RealCell(x: real)          // a score

  /** One row: its value in each column. */
  type Row = map<string, Cell>

  predicate Distinct<T(==)>(s: seq<T>) {
    forall i, j :: 0 <= i < j < |s| ==> s[i] != s[j]
  }

  function Names(columns: seq<string>): set<string> {
    set c | c in columns
  }

  /** Every row has exactly the given columns. */
  predicate Conforms(rows: seq<Row>, columns: seq<string>) {
    forall i :: 0 <= i < |rows| ==> rows[i].Keys == Names(columns)
  }

  /** The column list after `df[name] = ...`: an existing column keeps its
      place, a new one goes last. */
  function AddName(columns: seq<string>, name: string): (r: seq<string>)
    ensures Names(r) == Names(columns) + {name}
    ensures Distinct(columns) ==> Distinct(r)
    ensures |r| >= |columns| && r[..|columns|] == columns
  {
    if name in columns then columns else columns + [name]
  }

  /** The rows after `df[name] = values`, row i taking `values[i]`. */
  function WithColumn(rows: seq<Row>, name: string, values: seq<Cell>): (r: seq<Row>)
    requires |values| == |rows|
    ensures |r| == |rows|
    ensures forall i :: 0 <= i < |rows| ==> r[i] == rows[i][name := values[i]]
  {
    seq(|rows|, i requires 0 <= i < |rows| => rows[i][name := values[i]])
  }

  /** Assigning a column to rows that have exactly `columns` gives rows that
      have exactly the new column list. */
  lemma WithColumnConforms(rows: seq<Row>, columns: seq<string>, name: string, values: seq<Cell>)
    requires |values| == |rows| && Conforms(rows, columns)
    ensures Conforms(WithColumn(rows, name, values), AddName(columns, name))
  {
  }

  class Table {
    var columns: seq<string>
    var rows: seq<Row>

    ghost predicate Valid()
      reads this
    {
      Distinct(columns) && Conforms(rows, columns)
    }

    constructor (columns: seq<string>, rows: seq<Row>)
      requires Distinct(columns) && Conforms(rows, columns)
      ensures Valid() && this.columns == columns && this.rows == rows
    {
      this.columns := columns;
      this.rows := rows;
    }

    /** `df[name] = values`: overwrites the column if it exists, appends it otherwise. */
    method SetColumn(name: string, values: seq<Cell>)
      requires Valid() && |values| == |rows|
      modifies this
      ensures Valid()
      ensures columns == AddName(old(columns), name)
      ensures rows == WithColumn(old(rows), name, values)
    {
      columns := AddName(columns, name);
      rows := WithColumn(rows, name, values);
    }
  }

  /** A value `np.random.randint(0, 100)` can draw. */
  predicate IsPlaceholder(c: Cell) {
    c.IntCell? && 0 <= c.n < 100
  }

  /** `np.random.randint(0, 100, size=n)`: n integers in [0, 100), the
      draws themselves left to the random source. */
  method RandomPlaceholders(n: nat) returns (values: seq<Cell>)
    ensures |values| == n
    ensures forall i :: 0 <= i < n ==> IsPlaceholder(values[i])
  {
    values := [];
    while |values| < n
      invariant |values| <= n
      invariant forall i :: 0 <= i < |values| ==> IsPlaceholder(values[i])
    {
      var v :| 0 <= v < 100;
      values := values + [IntCell(v)];
    }
  }
}
