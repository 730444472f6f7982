/**
 * A pandas DataFrame as the cleaning code uses it: a row count and an ordered
 * list of named columns, each holding one cell per row.
 */
module Tables {
  import opened Values

  datatype Column = Column(name: string, cells: seq<Value>)

  datatype Table = Table(rows: nat, columns: seq<Column>)

  /** `df.columns`, in frame order. */
  function Names(cols: seq<Column>): seq<string> {
    seq(|cols|, j requires 0 <= j < |cols| => cols[j].name)
  }

  function ColumnNames(t: Table): seq<string> {
    Names(t.columns)
  }

  predicate Distinct(names: seq<string>) {
    forall i, j :: 0 <= i < j < |names| ==> names[i] != names[j]
  }

  /** Every column has one cell per row. */
  predicate Rectangular(t: Table) {
    forall j :: 0 <= j < |t.columns| ==> |t.columns[j].cells| == t.rows
  }

  /** A frame whose column names can be used as keys. */
  predicate Valid(t: Table) {
    Rectangular(t) && Distinct(ColumnNames(t))
  }

  /** `n in df.columns`. */
  predicate Has(t: Table, n: string) {
    n in ColumnNames(t)
  }

  /** The position of the first column called `n`. */
  function IndexOf(cols: seq<Column>, n: string): (j: nat)
    requires n in Names(cols)
    ensures j < |cols| && cols[j].name == n
    ensures forall k :: 0 <= k < j ==> cols[k].name != n
  {
    if cols[0].name == n then 0
    else
      assert Names(cols[1..]) == Names(cols)[1..];
      1 + IndexOf(cols[1..], n)
  }

  /** `df[n]`, the cells of the column called `n`. */
  function Cells(t: Table, n: string): (r: seq<Value>)
    requires Has(t, n)
    ensures Rectangular(t) ==> |r| == t.rows
  {
    t.columns[IndexOf(t.columns, n)].cells
  }

  /**
   * `df[n] = cells`: a column that exists is overwritten where it stands,
   * otherwise the new column is appended after the last one.
   */
  function Put(t: Table, n: string, cells: seq<Value>): (r: Table)
    requires Valid(t) && |cells| == t.rows
    ensures Valid(r) && r.rows == t.rows
    ensures ColumnNames(r) == if Has(t, n) then ColumnNames(t) else ColumnNames(t) + [n]
    ensures Has(r, n) && Cells(r, n) == cells
    ensures forall m :: m != n && Has(t, m) ==> Cells(r, m) == Cells(t, m)
  {
    if Has(t, n) then
      var r := Table(t.rows, t.columns[IndexOf(t.columns, n) := Column(n, cells)]);
      OverwriteShape(t, n, cells, r);
      OverwriteCells(t, n, cells, r);
      r
    else
      var r := Table(t.rows, t.columns + [Column(n, cells)]);
      AppendShape(t, n, cells, r);
      AppendCells(t, n, cells, r);
      r
  }

  lemma OverwriteShape(t: Table, n: string, cells: seq<Value>, r: Table)
    requires Valid(t) && |cells| == t.rows && Has(t, n)
    requires r == Table(t.rows, t.columns[IndexOf(t.columns, n) := Column(n, cells)])
    ensures Valid(r) && ColumnNames(r) == ColumnNames(t)
  {
    assert ColumnNames(r) == ColumnNames(t);
  }

  lemma OverwriteCells(t: Table, n: string, cells: seq<Value>, r: Table)
    requires Valid(t) && |cells| == t.rows && Has(t, n)
    requires r == Table(t.rows, t.columns[IndexOf(t.columns, n) := Column(n, cells)])
    requires Valid(r) && ColumnNames(r) == ColumnNames(t)
    ensures Has(r, n) && Cells(r, n) == cells
    ensures forall m :: m != n && Has(t, m) ==> Cells(r, m) == Cells(t, m)
  {
    IndexOfAt(r.columns, IndexOf(t.columns, n));
    forall m | m != n && Has(t, m)
      ensures IndexOf(r.columns, m) == IndexOf(t.columns, m)
    {
      IndexOfAt(r.columns, IndexOf(t.columns, m));
    }
  }

  lemma AppendShape(t: Table, n: string, cells: seq<Value>, r: Table)
    requires Valid(t) && |cells| == t.rows && !Has(t, n)
    requires r == Table(t.rows, t.columns + [Column(n, cells)])
    ensures Valid(r) && ColumnNames(r) == ColumnNames(t) + [n]
  {
    assert ColumnNames(r) == ColumnNames(t) + [n];
  }

  lemma AppendCells(t: Table, n: string, cells: seq<Value>, r: Table)
    requires Valid(t) && |cells| == t.rows && !Has(t, n)
    requires r == Table(t.rows, t.columns + [Column(n, cells)])
    requires Valid(r) && ColumnNames(r) == ColumnNames(t) + [n]
    ensures Has(r, n) && Cells(r, n) == cells
    ensures forall m :: m != n && Has(t, m) ==> Cells(r, m) == Cells(t, m)
  {
    IndexOfAt(r.columns, |t.columns|);
    forall m | m != n && Has(t, m)
      ensures IndexOf(r.columns, m) == IndexOf(t.columns, m)
    {
      IndexOfAt(r.columns, IndexOf(t.columns, m));
    }
  }

  /** `tuple(row)` for the row at position `i`: its cells in column order. */
  function Row(t: Table, i: nat): seq<Value>
    requires Rectangular(t) && i < t.rows
  {
    seq(|t.columns|, j requires 0 <= j < |t.columns| => t.columns[j].cells[i])
  }

  /** With distinct names, the column at position `j` is the one found by name. */
  lemma IndexOfAt(cols: seq<Column>, j: nat)
    requires Distinct(Names(cols)) && j < |cols|
    ensures cols[j].name in Names(cols) && IndexOf(cols, cols[j].name) == j
  {
    assert Names(cols)[j] == cols[j].name;
    var k := IndexOf(cols, cols[j].name);
    assert Names(cols)[k] == cols[j].name;
  }

  /** In a valid frame, `df[name]` of the column at position `j` is that column. */
  lemma CellsAt(t: Table, j: nat)
    requires Valid(t) && j < |t.columns|
    ensures Has(t, t.columns[j].name) && Cells(t, t.columns[j].name) == t.columns[j].cells
  {
    IndexOfAt(t.columns, j);
  }
}
