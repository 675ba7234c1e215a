// convert_html_to_list: the td cells of the first table body, read in
// document order and grouped seven at a time into one record per day.
module TableParser {
  import opened Outcomes
  import opened CellText

  /** One day of data: the dictionary current_record, from column name to value. */
  type Record = map<string, Value>

  /** The td elements of the first tbody in document order, or None when the page has no tbody. */
  type Table = Option<seq<Cell>>

  /** index_column_map: the position of a cell within its row, from 1, to its column name. */
  const IndexColumnMap: map<int, string> :=
    map[1 := "date", 2 := "open", 3 := "high", 4 := "low", 5 := "close", 6 := "adj_close", 7 := "volume"]

  /** The columns are the keys 1 to 7. */
  lemma ColumnKeys(k: int)
    ensures k in IndexColumnMap <==> 1 <= k <= 7
  {
  }

  /** Each column name starts with its own letter: d, o, h, l, c, a, v. */
  lemma ColumnInitial(k: int)
    requires 1 <= k <= 7
    ensures |IndexColumnMap[k]| > 0 && IndexColumnMap[k][0] == "dohlcav"[k - 1]
  {
    if k == 1 {
      assert IndexColumnMap[1] == "date";
    } else if k == 2 {
      assert IndexColumnMap[2] == "open";
    } else if k == 3 {
      assert IndexColumnMap[3] == "high";
    } else if k == 4 {
      assert IndexColumnMap[4] == "low";
    } else if k == 5 {
      assert IndexColumnMap[5] == "close";
    } else if k == 6 {
      assert IndexColumnMap[6] == "adj_close";
    } else {
      assert IndexColumnMap[7] == "volume";
    }
  }

  /** The seven column names are distinct, so no cell of a row overwrites another. */
  lemma ColumnNamesDistinct(k: int, k': int)
    requires 1 <= k <= 7 && 1 <= k' <= 7 && k != k'
    ensures IndexColumnMap[k] != IndexColumnMap[k']
  {
    ColumnInitial(k);
    ColumnInitial(k');
  }

  /**
   * What the loop relies on in index_column_map: its keys are 1 to 7 and
   * its seven names are distinct, so no cell of a row overwrites another.
   */
  ghost predicate IsColumnMap(columns: map<int, string>)
  {
    (forall k :: k in columns <==> 1 <= k <= 7) &&
    forall k, k' :: 1 <= k <= 7 && 1 <= k' <= 7 && k != k' ==> columns[k] != columns[k']
  }

  lemma ColumnMapHolds()
    ensures IsColumnMap(IndexColumnMap)
  {
    forall k | true ensures k in IndexColumnMap <==> 1 <= k <= 7 {
      ColumnKeys(k);
    }
    forall k, k' | 1 <= k <= 7 && 1 <= k' <= 7 && k != k' ensures IndexColumnMap[k] != IndexColumnMap[k'] {
      ColumnNamesDistinct(k, k');
    }
  }

  /** The record holding values in columns 1, 2, ... in order: the first |values| columns of one row. */
  function RecordOf<T>(columns: map<int, string>, values: seq<T>): (r: map<string, T>)
    requires IsColumnMap(columns) && |values| <= 7
    ensures forall k :: 1 <= k <= |values| ==> columns[k] in r && r[columns[k]] == values[k - 1]
  {
    if values == [] then map[]
    else
      var n := |values|;
      RecordOf(columns, values[..n - 1])[columns[n] := values[n - 1]]
  }

  /** A record has no key but the names of the columns it was given values for. */
  lemma {:induction false} RecordKeys<T>(columns: map<int, string>, values: seq<T>)
    requires IsColumnMap(columns) && |values| <= 7
    ensures forall name :: name in RecordOf(columns, values) ==> exists k :: 1 <= k <= |values| && columns[k] == name
  {
    if values != [] {
      var n := |values|;
      var front := RecordOf(columns, values[..n - 1]);
      RecordKeys(columns, values[..n - 1]);
      forall name | name in RecordOf(columns, values) ensures exists k :: 1 <= k <= n && columns[k] == name {
        if name != columns[n] {
          assert name in front;
          var k :| 1 <= k <= n - 1 && columns[k] == name;
        }
      }
    }
  }

  /** Appending a value to a partial row stores it under the next column's name. */
  lemma RecordOfAppend<T>(columns: map<int, string>, row: seq<T>, v: T)
    requires IsColumnMap(columns) && |row| < 7
    ensures RecordOf(columns, row + [v]) == RecordOf(columns, row)[columns[|row| + 1] := v]
  {
    assert (row + [v])[..|row|] == row;
  }

  /** The record of one row of the table: the values under index_column_map's names. */
  function Row(values: seq<Value>): Record
    requires |values| <= 7
  {
    ColumnMapHolds();
    RecordOf(IndexColumnMap, values)
  }

  /** Value k of a row is stored under the name of column k. */
  lemma RowColumns(values: seq<Value>)
    requires |values| <= 7
    ensures forall k :: 1 <= k <= |values| ==> IndexColumnMap[k] in Row(values) && Row(values)[IndexColumnMap[k]] == values[k - 1]
  {
    ColumnMapHolds();
  }

  /** Every record the scraper emits holds a value for each of the seven columns and nothing else. */
  lemma FullRecordKeys(values: seq<Value>)
    requires |values| == 7
    ensures Row(values).Keys == IndexColumnMap.Values
  {
    ColumnMapHolds();
    var r := Row(values);
    RowColumns(values);
    RecordKeys(IndexColumnMap, values);
    forall name | name in IndexColumnMap.Values ensures name in r {
      var k :| k in IndexColumnMap && IndexColumnMap[k] == name;
    }
  }

  /**
   * The records the scraper returns for the cell values vs. A row is appended
   * only when a cell arrives after its seventh column, so each block of seven
   * cells is emitted exactly when at least one more cell follows it; the cells
   * after the last emitted block are dropped.
   */
  function Emitted(vs: seq<Value>): (r: seq<Record>)
    ensures |r| == if vs == [] then 0 else (|vs| - 1) / 7
  {
    if |vs| <= 7 then []
    else [Row(vs[..7])] + Emitted(vs[7..])
  }

  /** Record j is built from cells 7j to 7j + 6, in document order, and at least one cell follows them. */
  lemma {:induction false} EmittedRecord(vs: seq<Value>, j: int)
    requires 0 <= j < |Emitted(vs)|
    ensures 7 * j + 7 < |vs| && Emitted(vs)[j] == Row(vs[7 * j..7 * j + 7])
  {
    assert Emitted(vs) == [Row(vs[..7])] + Emitted(vs[7..]);
    if j > 0 {
      EmittedRecord(vs[7..], j - 1);
      assert vs[7..][7 * (j - 1)..7 * (j - 1) + 7] == vs[7 * j..7 * j + 7];
    }
  }

  /** The records are determined by their number and by the block of cells each is built from. */
  lemma EmittedUnique(vs: seq<Value>, records: seq<Record>)
    requires |records| == if vs == [] then 0 else (|vs| - 1) / 7
    requires forall j :: 0 <= j < |records| ==> 7 * j + 7 <= |vs| && records[j] == Row(vs[7 * j..7 * j + 7])
    ensures records == Emitted(vs)
  {
    forall j | 0 <= j < |records| ensures records[j] == Emitted(vs)[j] {
      EmittedRecord(vs, j);
    }
  }

  /** n cells, the last of them at column index - 1 of a row, complete (n - 1) / 7 rows before it. */
  lemma RowCount(n: int, rows: int, index: int)
    requires 1 <= index <= 8 && (index == 1 <==> n == 0) && n == 7 * rows + index - 1
    ensures rows == if n == 0 then 0 else (n - 1) / 7
  {
  }

  /** The outcome of reading each cell of a table on its own. */
  function CellReads(cells: seq<Cell>): (rs: seq<Result<Value>>)
    ensures |rs| == |cells| && forall k :: 0 <= k < |cells| ==> rs[k] == ReadCell(cells[k])
  {
    seq(|cells|, k requires 0 <= k < |cells| => ReadCell(cells[k]))
  }

  /**
   * What convert_html_to_list returns or raises for a page: no tbody raises,
   * the first cell that cannot be read raises, and otherwise the cells are
   * grouped into records.
   */
  function ParsedTable(table: Table): (r: Result<seq<Record>>)
    ensures table.None? ==> r == Err(NoTable)
    ensures r.Ok? ==> table.Some? && |r.value| == if table.value == [] then 0 else (|table.value| - 1) / 7
  {
    match table
    case None => Err(NoTable)
    case Some(cells) =>
      match AllOk(CellReads(cells))
      case Err(e) => Err(e)
      case Ok(vs) => Ok(Emitted(vs))
  }

  /** A page without a table body raises, and a table yields records exactly when every cell can be read. */
  lemma ParsedTableOutcome(table: Table)
    ensures table.None? ==> ParsedTable(table) == Err(NoTable)
    ensures ParsedTable(table).Ok? <==> table.Some? && forall k :: 0 <= k < |table.value| ==> ReadCell(table.value[k]).Ok?
  {
    if table.Some? {
      var rs := CellReads(table.value);
      assert AllOk(rs).Ok? <==> forall k :: 0 <= k < |rs| ==> rs[k].Ok?;
    }
  }

  /** The first cell that cannot be read decides the error, whatever the cells after it hold. */
  lemma ParsedTableFailsAt(cells: seq<Cell>, k: int)
    requires 0 <= k < |cells| && ReadCell(cells[k]).Err?
    requires forall m :: 0 <= m < k ==> ReadCell(cells[m]).Ok?
    ensures ParsedTable(Some(cells)) == Err(ReadCell(cells[k]).error)
  {
    var rs := CellReads(cells);
    assert FirstFailure(rs, k);
    AllOkStopsAtFirstFailure(rs, k);
  }

  /** When every cell is read, the records are those emitted for the cells' values. */
  lemma ParsedTableRecords(cells: seq<Cell>, vs: seq<Value>)
    requires |vs| == |cells| && forall k :: 0 <= k < |cells| ==> ReadCell(cells[k]) == Ok(vs[k])
    ensures ParsedTable(Some(cells)) == Ok(Emitted(vs))
  {
    var rs := CellReads(cells);
    assert AllOk(rs).Ok?;
    assert AllOk(rs).value == vs;
  }

  /**
   * A table of n complete rows yields only n - 1 records: the last row is
   * never appended, because no cell follows it; the others are kept in order.
   */
  lemma CompleteRowsLoseLastRow(vs: seq<Value>, n: int)
    requires n >= 1 && |vs| == 7 * n
    ensures |Emitted(vs)| == n - 1
    ensures forall j :: 0 <= j < n - 1 ==> Emitted(vs)[j] == Row(vs[7 * j..7 * j + 7])
  {
    forall j | 0 <= j < n - 1 ensures Emitted(vs)[j] == Row(vs[7 * j..7 * j + 7]) {
      EmittedRecord(vs, j);
    }
  }

  /** The cells after the last record, between one and seven of them, appear in no record. */
  lemma TrailingCellsDropped(vs: seq<Value>)
    requires vs != []
    ensures 1 <= |vs| - 7 * |Emitted(vs)| <= 7
  {
  }

  /** Cell i of an emitted row is the value of column i % 7 + 1 of record i / 7. */
  lemma CellColumn(vs: seq<Value>, i: int)
    requires 0 <= i < 7 * |Emitted(vs)|
    ensures IndexColumnMap[i % 7 + 1] in Emitted(vs)[i / 7]
    ensures Emitted(vs)[i / 7][IndexColumnMap[i % 7 + 1]] == vs[i]
  {
    var j := i / 7;
    EmittedRecord(vs, j);
    RowColumns(vs[7 * j..7 * j + 7]);
  }

  /** Every emitted record has a value for each of the seven columns and no other key. */
  lemma EmittedKeys(vs: seq<Value>, j: int)
    requires 0 <= j < |Emitted(vs)|
    ensures Emitted(vs)[j].Keys == IndexColumnMap.Values
  {
    EmittedRecord(vs, j);
    FullRecordKeys(vs[7 * j..7 * j + 7]);
  }

  /**
   * The state of the scraper's loop after the cells with values vs: the rows
   * appended so far are the complete blocks of seven, the current record holds
   * the cells after them, and index is the column the next cell would fill.
   */
  ghost predicate RowsSoFar(vs: seq<Value>, stockData: seq<Record>, currentRecord: Record, index: int)
  {
    1 <= index <= 8 && |vs| == 7 * |stockData| + index - 1 &&
    (forall j :: 0 <= j < |stockData| ==> stockData[j] == Row(vs[7 * j..7 * j + 7])) &&
    currentRecord == Row(vs[7 * |stockData|..])
  }

  /** Passing the last column appends the full current record and starts an empty one at column 1. */
  lemma StartRow(vs: seq<Value>, stockData: seq<Record>, currentRecord: Record)
    requires RowsSoFar(vs, stockData, currentRecord, 8)
    ensures RowsSoFar(vs, stockData + [currentRecord], map[], 1)
  {
    assert vs[7 * |stockData|..] == vs[7 * |stockData|..7 * |stockData| + 7];
  }

  /** Storing a value in the column index fills the next cell of the current record. */
  lemma StoreValue(vs: seq<Value>, stockData: seq<Record>, currentRecord: Record, index: int, v: Value)
    requires RowsSoFar(vs, stockData, currentRecord, index) && index <= 7
    ensures RowsSoFar(vs + [v], stockData, currentRecord[IndexColumnMap[index] := v], index + 1)
  {
    var row := vs[7 * |stockData|..];
    ColumnMapHolds();
    RecordOfAppend(IndexColumnMap, row, v);
    assert (vs + [v])[7 * |stockData|..] == row + [v];
    assert forall j :: 0 <= j < |stockData| ==> (vs + [v])[7 * j..7 * j + 7] == vs[7 * j..7 * j + 7];
  }

  /**
   * The scraper's loop: a counter runs from 1 through the columns of a row,
   * and when it has passed the last column the row is appended and a new
   * one begins, before the current cell is stored.
   */
  method ConvertHtmlToList(table: Table) returns (r: Result<seq<Record>>)
    ensures r == ParsedTable(table)
  {
    if table.None? {
      return Err(NoTable);
    }
    var cells := table.value;
    ghost var rs := CellReads(cells);
    var stockData: seq<Record> := [];
    var currentRecord: Record := map[];
    var index := 1;
    ghost var vs: seq<Value> := [];
    for i := 0 to |cells|
      invariant |vs| == i && SucceededWith(rs, vs)
      invariant index == 1 <==> i == 0
      invariant RowsSoFar(vs, stockData, currentRecord, index)
    {
      ColumnKeys(index);
      if index !in IndexColumnMap {
        StartRow(vs, stockData, currentRecord);
        stockData := stockData + [currentRecord];
        index := 1;
        currentRecord := map[];
      }
      var text := ExtractText(cells[i]);
      if text.Err? {
        AllOkFailsAfter(rs, vs);
        return Err(text.error);
      }
      var value := Coerce(text.value);
      if value.Err? {
        AllOkFailsAfter(rs, vs);
        return Err(value.error);
      }
      SucceededWithOneMore(rs, vs, value.value);
      StoreValue(vs, stockData, currentRecord, index, value.value);
      currentRecord := currentRecord[IndexColumnMap[index] := value.value];
      index := index + 1;
      vs := vs + [value.value];
    }
    RowCount(|vs|, |stockData|, index);
    EmittedUnique(vs, stockData);
    AllOkOfSucceeded(rs, vs);
    return Ok(stockData);
  }
}
