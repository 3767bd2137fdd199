/**
 * The table export (`csv_generator.py`): one table of a filing, picked by its index in
 * document order, becomes headers plus rows of strings. Merged cells keep their text at
 * the top-left position only, all-blank rows are dropped, and columns that are blank in
 * the header and in every row are collapsed away. Writing the CSV or XLSX bytes is not
 * part of this model.
 */
module CsvGenerator {
  import opened Text
  import opened Wrappers
  import opened GridFill
  import opened TableDetection

  /** `TableData`: what the export writes. */
  datatype TableData = TableData(headers: seq<string>, rows: seq<seq<string>>)

  // ---------------------------------------------------------------------------
  // handle_merged_cells

  /**
   * The top-left-only variant of the grid fill. Its grid has the copying variant's
   * shape, and each position is "" or the text the copying variant puts there.
   */
  method HandleMergedCells(rows: seq<seq<Cell>>) returns (grid: seq<seq<string>>)
    ensures grid == Merged(rows, true)
    ensures grid == [] <==> rows == [] || MaxWidth(rows) == 0
    ensures grid != [] ==> |grid| == |rows| && forall i | 0 <= i < |grid| :: |grid[i]| == MaxWidth(rows)
    ensures var f := Merged(rows, false);
      |grid| == |f| && forall i, j | 0 <= i < |f| && 0 <= j < |f[i]| :: j < |grid[i]| && (grid[i][j] == "" || grid[i][j] == f[i][j])
  {
    grid := FillGrid(rows, true);
    VariantsAgree(rows);
  }

  // ---------------------------------------------------------------------------
  // collapse_empty_columns

  predicate IsBlank(s: string) { Strip(s) == "" }

  /** Row `r` reaches column `col` and its cell there is not blank. */
  predicate FilledAt(rows: seq<seq<string>>, r: int, col: nat) {
    0 <= r < |rows| && col < |rows[r]| && !IsBlank(rows[r][col])
  }

  /** `any(cell.strip() for cell in row)` */
  predicate HasText(row: seq<string>) { exists k | 0 <= k < |row| :: !IsBlank(row[k]) }

  /** Column `col` has a non-blank header or a non-blank cell in some row. */
  predicate HasContent(headers: seq<string>, rows: seq<seq<string>>, col: nat)
    requires col < |headers|
  {
    !IsBlank(headers[col]) || exists r | 0 <= r < |rows| :: FilledAt(rows, r, col)
  }

  /** Each column's verdict: `Flags(headers, rows)[c] == HasContent(headers, rows, c)`. */
  function Flags(headers: seq<string>, rows: seq<seq<string>>): (f: seq<bool>)
    ensures |f| == |headers|
  {
    seq(|headers|, c requires 0 <= c < |headers| => HasContent(headers, rows, c))
  }

  /** The positions below `n` where `flags` holds, in increasing order. */
  function TrueIndices(flags: seq<bool>, n: nat): (cols: seq<nat>)
    requires n <= |flags|
    ensures |cols| <= n
    ensures forall k | 0 <= k < |cols| :: cols[k] < n
  {
    if n == 0 then [] else TrueIndices(flags, n - 1) + (if flags[n - 1] then [n - 1] else [])
  }

  lemma {:induction false} TrueIndicesIn(flags: seq<bool>, n: nat)
    requires n <= |flags|
    ensures forall c: nat :: c in TrueIndices(flags, n) <==> c < n && flags[c]
    ensures forall a, b | 0 <= a < b < |TrueIndices(flags, n)| :: TrueIndices(flags, n)[a] < TrueIndices(flags, n)[b]
    ensures |TrueIndices(flags, n)| == n <==> forall c | 0 <= c < n :: flags[c]
  {
    TrueIndicesMember(flags, n);
    TrueIndicesIncreasing(flags, n);
    TrueIndicesAll(flags, n);
  }

  /** One step of `TrueIndices`. */
  lemma TrueIndicesStep(flags: seq<bool>, n: nat)
    requires 0 < n <= |flags|
    ensures flags[n - 1] ==> TrueIndices(flags, n) == TrueIndices(flags, n - 1) + [n - 1]
    ensures !flags[n - 1] ==> TrueIndices(flags, n) == TrueIndices(flags, n - 1)
  {
  }

  lemma {:induction false} TrueIndicesMember(flags: seq<bool>, n: nat)
    requires n <= |flags|
    ensures forall c: nat :: c in TrueIndices(flags, n) <==> c < n && flags[c]
  {
    if n > 0 {
      TrueIndicesMember(flags, n - 1);
      TrueIndicesStep(flags, n);
    }
  }

  lemma {:induction false} TrueIndicesIncreasing(flags: seq<bool>, n: nat)
    requires n <= |flags|
    ensures forall a, b | 0 <= a < b < |TrueIndices(flags, n)| :: TrueIndices(flags, n)[a] < TrueIndices(flags, n)[b]
  {
    if n > 0 {
      TrueIndicesIncreasing(flags, n - 1);
      TrueIndicesStep(flags, n);
    }
  }

  lemma {:induction false} TrueIndicesAll(flags: seq<bool>, n: nat)
    requires n <= |flags|
    ensures |TrueIndices(flags, n)| == n <==> forall c | 0 <= c < n :: flags[c]
  {
    if n > 0 {
      TrueIndicesAll(flags, n - 1);
      TrueIndicesStep(flags, n);
    }
  }

  /** `non_empty_cols` */
  function ContentColumns(headers: seq<string>, rows: seq<seq<string>>): (cols: seq<nat>)
    ensures |cols| <= |headers|
    ensures forall k | 0 <= k < |cols| :: cols[k] < |headers|
  {
    TrueIndices(Flags(headers, rows), |headers|)
  }

  /** The kept columns are exactly the columns with content, left to right. */
  lemma ContentColumnsIn(headers: seq<string>, rows: seq<seq<string>>)
    ensures forall c: nat :: c in ContentColumns(headers, rows) <==> c < |headers| && HasContent(headers, rows, c)
    ensures var cols := ContentColumns(headers, rows);
      forall a, b | 0 <= a < b < |cols| :: cols[a] < cols[b]
    ensures |ContentColumns(headers, rows)| == |headers| <==> forall c | 0 <= c < |headers| :: HasContent(headers, rows, c)
  {
    TrueIndicesIn(Flags(headers, rows), |headers|);
  }

  /** `[row[i] if i < len(row) else "" for i in cols]` */
  function Project(row: seq<string>, cols: seq<nat>): (r: seq<string>)
    ensures |r| == |cols|
  {
    seq(|cols|, k requires 0 <= k < |cols| => if cols[k] < |row| then row[cols[k]] else "")
  }

  /** What `collapse_empty_columns(headers, rows)` returns. */
  function Collapse(headers: seq<string>, rows: seq<seq<string>>): TableData {
    if headers == [] then TableData(headers, rows)
    else
      var cols := ContentColumns(headers, rows);
      if |cols| == |headers| || cols == [] then TableData(headers, rows)
      else TableData(seq(|cols|, k requires 0 <= k < |cols| => headers[cols[k]]),
                     seq(|rows|, r requires 0 <= r < |rows| => Project(rows[r], cols)))
  }

  /** `collapse_empty_columns(headers, rows)` */
  method CollapseEmptyColumns(headers: seq<string>, rows: seq<seq<string>>) returns (t: TableData)
    ensures t == Collapse(headers, rows)
  {
    if headers == [] {
      return TableData(headers, rows);
    }
    var numCols := |headers|;
    var nonEmptyCols := NonEmptyColumns(headers, rows);
    if |nonEmptyCols| == numCols || |nonEmptyCols| == 0 {
      return TableData(headers, rows);
    }
    var newHeaders := seq(|nonEmptyCols|, k requires 0 <= k < |nonEmptyCols| => headers[nonEmptyCols[k]]);
    var newRows := seq(|rows|, r requires 0 <= r < |rows| => Project(rows[r], nonEmptyCols));
    t := TableData(newHeaders, newRows);
  }

  /** The scan over the columns: the columns with a non-blank header or cell. */
  method NonEmptyColumns(headers: seq<string>, rows: seq<seq<string>>) returns (nonEmptyCols: seq<nat>)
    ensures nonEmptyCols == ContentColumns(headers, rows)
  {
    nonEmptyCols := [];
    for colIdx := 0 to |headers|
      invariant nonEmptyCols == TrueIndices(Flags(headers, rows), colIdx)
    {
      var hasContent := !IsBlank(headers[colIdx]);
      if !hasContent {
        hasContent := ColumnHasCell(rows, colIdx);
      }
      assert hasContent == Flags(headers, rows)[colIdx];
      if hasContent {
        nonEmptyCols := nonEmptyCols + [colIdx];
      }
    }
  }

  /** The inner scan: some row has a non-blank cell in column `col`. */
  method ColumnHasCell(rows: seq<seq<string>>, col: nat) returns (found: bool)
    ensures found <==> exists r | 0 <= r < |rows| :: FilledAt(rows, r, col)
  {
    found := false;
    var r := 0;
    while r < |rows| && !found
      invariant 0 <= r <= |rows|
      invariant found <==> r > 0 && FilledAt(rows, r - 1, col)
      invariant forall q | 0 <= q < r - 1 :: !FilledAt(rows, q, col)
      invariant !found ==> forall q | 0 <= q < r :: !FilledAt(rows, q, col)
    {
      found := FilledAt(rows, r, col);
      r := r + 1;
    }
  }

  /**
   * With no headers, with every column holding content, or with none, the table comes
   * back unchanged.
   */
  lemma CollapseUnchanged(headers: seq<string>, rows: seq<seq<string>>)
    ensures headers == [] ==> Collapse(headers, rows) == TableData(headers, rows)
    ensures headers != [] && (forall c | 0 <= c < |headers| :: HasContent(headers, rows, c)) ==>
      Collapse(headers, rows) == TableData(headers, rows)
    ensures headers != [] && (forall c | 0 <= c < |headers| :: !HasContent(headers, rows, c)) ==>
      Collapse(headers, rows) == TableData(headers, rows)
  {
    ContentColumnsIn(headers, rows);
    var cols := ContentColumns(headers, rows);
    if cols != [] {
      assert cols[0] in cols;
    }
  }

  /**
   * When collapsing changes the table, it keeps the columns with content in their
   * order: each kept header and cell is the original one, a short row reads "" in a
   * column it does not reach, and every dropped column is blank in the header and in
   * every row.
   */
  lemma CollapseKept(headers: seq<string>, rows: seq<seq<string>>)
    requires Collapse(headers, rows) != TableData(headers, rows)
    ensures var t := Collapse(headers, rows); var cols := ContentColumns(headers, rows);
      && |t.headers| == |cols| && |t.rows| == |rows|
      && (forall k | 0 <= k < |cols| :: t.headers[k] == headers[cols[k]])
      && (forall r | 0 <= r < |rows| :: t.rows[r] == Project(rows[r], cols))
    ensures var cols := ContentColumns(headers, rows);
      forall c | 0 <= c < |headers| && c !in cols ::
        IsBlank(headers[c]) && forall r | 0 <= r < |rows| :: !FilledAt(rows, r, c)
  {
    ContentColumnsIn(headers, rows);
  }

  /** Every column of a collapsed table that changed has content. */
  lemma CollapsedHasContent(headers: seq<string>, rows: seq<seq<string>>)
    requires Collapse(headers, rows) != TableData(headers, rows)
    ensures var t := Collapse(headers, rows);
      forall k | 0 <= k < |t.headers| :: HasContent(t.headers, t.rows, k)
  {
    var t := Collapse(headers, rows);
    var cols := ContentColumns(headers, rows);
    CollapseKept(headers, rows);
    ContentColumnsIn(headers, rows);
    forall k | 0 <= k < |t.headers| ensures HasContent(t.headers, t.rows, k) {
      var c := cols[k];
      assert c in cols;
      assert HasContent(headers, rows, c);
      if IsBlank(headers[c]) {
        var r :| 0 <= r < |rows| && FilledAt(rows, r, c);
        assert t.rows[r] == Project(rows[r], cols);
        assert FilledAt(t.rows, r, k);
      }
    }
  }

  /** Collapsing twice is collapsing once. */
  lemma CollapseIdempotent(headers: seq<string>, rows: seq<seq<string>>)
    ensures var t := Collapse(headers, rows); Collapse(t.headers, t.rows) == t
  {
    var t := Collapse(headers, rows);
    if t != TableData(headers, rows) {
      CollapsedHasContent(headers, rows);
      CollapseUnchanged(t.headers, t.rows);
    }
  }

  /**
   * The collapse looks only at the first `len(headers)` columns, so when it changes a
   * table it also cuts every row down to the kept columns: a non-blank cell beyond the
   * last header is lost. Each cell of the collapsed row is a cell of a header column (or
   * the padding ""), and the row is shorter than the headers. The grid is as wide as the
   * widest row with its colspans expanded, while the headers are one per `th` cell, so
   * such cells occur whenever a header cell spans several columns.
   */
  lemma CollapseLosesCell(headers: seq<string>, rows: seq<seq<string>>, r: nat, c: nat)
    requires 0 < |ContentColumns(headers, rows)| < |headers|
    requires FilledAt(rows, r, c) && |headers| <= c
    ensures |Collapse(headers, rows).rows| == |rows|
    ensures |Collapse(headers, rows).rows[r]| < |headers| <= c
    ensures forall k | 0 <= k < |Collapse(headers, rows).rows[r]| ::
      FromColumnBelow(rows[r], Collapse(headers, rows).rows[r][k], |headers|)
  {
    var cols := ContentColumns(headers, rows);
    var t := Collapse(headers, rows);
    forall k | 0 <= k < |t.rows[r]| ensures FromColumnBelow(rows[r], t.rows[r][k], |headers|) {
      assert t.rows[r][k] == (if cols[k] < |rows[r]| then rows[r][cols[k]] else "");
      assert cols[k] < |headers|;
    }
  }

  /** `cell` is the cell of `row` at some column below `n`, or the padding "" of such a column. */
  predicate FromColumnBelow(row: seq<string>, cell: string, n: nat) {
    exists j | 0 <= j < n :: cell == (if j < |row| then row[j] else "")
  }

  /**
   * An input the loss occurs on: headers ["A", ""] over the single row ["x", "", "y"]
   * keep only the first column, and the non-blank "y" lies beyond the headers.
   */
  lemma LostCellExample()
    ensures 0 < |ContentColumns(["A", ""], [["x", "", "y"]])| < 2
    ensures FilledAt([["x", "", "y"]], 0, 2)
  {
    LostCellColumns();
    StripTrimmed("y");
  }

  /** Only the first column of the example has content. */
  lemma LostCellColumns()
    ensures ContentColumns(["A", ""], [["x", "", "y"]]) == [0]
  {
    var headers: seq<string> := ["A", ""];
    var rows: seq<seq<string>> := [["x", "", "y"]];
    StripTrimmed("A");
    StripTrimmed("");
    assert !IsBlank(headers[0]);
    assert |rows| == 1 && rows[0][1] == "" && IsBlank(rows[0][1]);
    assert forall r | 0 <= r < |rows| :: !FilledAt(rows, r, 1);
    assert !HasContent(headers, rows, 1);
    assert TrueIndices(Flags(headers, rows), 2) == [0];
  }

  /** The cells of `row` beyond the first `width` columns. */
  function Tail(row: seq<string>, width: nat): seq<string> {
    if |row| > width then row[width..] else []
  }

  /**
   * The collapse as its description promises it ("without risking data loss"): the
   * same columns are dropped, and each row keeps its cells beyond the last header.
   */
  function CollapseIntended(headers: seq<string>, rows: seq<seq<string>>): TableData {
    if headers == [] then TableData(headers, rows)
    else
      var cols := ContentColumns(headers, rows);
      if |cols| == |headers| || cols == [] then TableData(headers, rows)
      else TableData(seq(|cols|, k requires 0 <= k < |cols| => headers[cols[k]]),
                     seq(|rows|, r requires 0 <= r < |rows| => Project(rows[r], cols) + Tail(rows[r], |headers|)))
  }

  /**
   * The corrected collapse keeps the rows and the headers in their order, and loses no
   * non-blank cell: each one is found in its row, at its kept column or past the
   * headers. It agrees with the code whenever no row reaches past the headers.
   */
  lemma CollapseIntendedKeeps(headers: seq<string>, rows: seq<seq<string>>)
    ensures var t := CollapseIntended(headers, rows);
      |t.rows| == |rows| &&
      forall r, c: nat | r < |rows| && FilledAt(rows, r, c) :: rows[r][c] in t.rows[r]
    ensures (forall r | 0 <= r < |rows| :: |rows[r]| <= |headers|) ==>
      CollapseIntended(headers, rows) == Collapse(headers, rows)
  {
    var t := CollapseIntended(headers, rows);
    if t != TableData(headers, rows) {
      var cols := ContentColumns(headers, rows);
      ContentColumnsIn(headers, rows);
      forall r, c: nat | r < |rows| && FilledAt(rows, r, c) ensures rows[r][c] in t.rows[r] {
        assert t.rows[r] == Project(rows[r], cols) + Tail(rows[r], |headers|);
        if c < |headers| {
          assert HasContent(headers, rows, c);
          assert c in cols;
          var k :| 0 <= k < |cols| && cols[k] == c;
          assert t.rows[r][k] == rows[r][c];
        } else {
          assert t.rows[r][|cols| + (c - |headers|)] == rows[r][c];
        }
      }
      if forall r | 0 <= r < |rows| :: |rows[r]| <= |headers| {
        var u := Collapse(headers, rows);
        CollapseKept(headers, rows);
        forall r | 0 <= r < |rows| ensures t.rows[r] == u.rows[r] {
          assert Tail(rows[r], |headers|) == [];
          assert Project(rows[r], cols) + [] == Project(rows[r], cols);
        }
        assert t.rows == u.rows;
      }
    }
  }

  // ---------------------------------------------------------------------------
  // extract_table_at_index

  /**
   * A `table` element as the export reads it: its `tr` rows (nested ones included), each
   * as the list of its `td`/`th` cells; the number of `td`/`th` cells in the whole
   * element; and the text `get_text(strip=True)` returns for it.
   */
  datatype Table = Table(rows: seq<seq<Cell>>, cellCount: nat, text: string)

  /** What `is_data_table` reads off the element. */
  function Stats(t: Table): TableStats {
    TableStats(|t.rows|, t.cellCount, t.text)
  }

  /** `[f"Column {i+1}" for i in range(n)]` */
  function GenericHeaders(n: nat): (r: seq<string>)
    ensures |r| == n
  {
    seq(n, i requires 0 <= i < n => "Column " + NatToString(i + 1))
  }

  /**
   * The export's headers: the first `th` row's texts, else the first row's cell texts,
   * else one generic name per cell of the second row (at least one).
   */
  function ExportHeaders(rows: seq<seq<Cell>>): seq<string> {
    match FirstHeaderRow(rows, 0)
    case Some(idx) => CellTexts(HeaderCells(rows[idx]))
    case None =>
      if rows != [] && rows[0] != [] then CellTexts(rows[0])
      else GenericHeaders(if |rows| > 1 && rows[1] != [] then |rows[1]| else 1)
  }

  /** `[row for row in grid if any(cell.strip() for cell in row)]` */
  function NonBlankRows(grid: seq<seq<string>>): seq<seq<string>> {
    if grid == [] then []
    else
      var row := grid[|grid| - 1];
      NonBlankRows(grid[..|grid| - 1]) + (if HasText(row) then [row] else [])
  }

  /** A row survives exactly when it has a non-blank cell; the order is kept. */
  lemma {:induction false} NonBlankRowsIn(grid: seq<seq<string>>)
    ensures forall row :: row in NonBlankRows(grid) <==> row in grid && HasText(row)
    ensures |NonBlankRows(grid)| <= |grid|
  {
    if grid != [] {
      NonBlankRowsIn(grid[..|grid| - 1]);
      assert grid == grid[..|grid| - 1] + [grid[|grid| - 1]];
    }
  }

  /** What `extract_table_at_index` returns for the document's tables. */
  function ExtractTable(tables: seq<Table>, index: int): Option<TableData> {
    if index < 0 || index >= |tables| then None
    else
      var t := tables[index];
      if !IsDataTable(Stats(t)) || t.rows == [] then None
      else
        var headers := ExportHeaders(t.rows);
        var data := DataRows(t.rows);
        if data == [] || Merged(data, true) == [] then Some(TableData(headers, []))
        else Some(Collapse(headers, NonBlankRows(Merged(data, true))))
  }

  /** `extract_table_at_index(html, index)`, with the parsed tables in document order. */
  method ExtractTableAtIndex(tables: seq<Table>, index: int) returns (result: Option<TableData>)
    ensures result == ExtractTable(tables, index)
  {
    if index < 0 || index >= |tables| {
      return None;
    }
    var table := tables[index];
    if !IsDataTable(Stats(table)) {
      return None;
    }
    var rows := table.rows;
    if rows == [] {
      return None;
    }
    var headerRowIdx, headers := FindHeaderRow(rows);
    if headers == [] && rows != [] {
      var firstRowCells := rows[0];
      if firstRowCells != [] {
        headers := CellTexts(firstRowCells);
        headerRowIdx := 0;
      } else {
        var firstDataCells := if |rows| > 1 then rows[1] else [];
        var colCount := if firstDataCells != [] then |firstDataCells| else 1;
        headers := GenericHeaders(colCount);
      }
    }
    assert headers == ExportHeaders(rows) && headerRowIdx == HeaderRowIndex(rows);
    var dataRows := if |rows| > headerRowIdx + 1 then rows[headerRowIdx + 1..] else [];
    assert dataRows == DataRows(rows);
    if dataRows == [] {
      return Some(TableData(headers, []));
    }
    var grid := HandleMergedCells(dataRows);
    if grid == [] {
      return Some(TableData(headers, []));
    }
    var kept := NonBlankRows(grid);
    var collapsed := CollapseEmptyColumns(headers, kept);
    return Some(collapsed);
  }

  /**
   * No table comes back exactly when the index is out of range or the table fails the
   * data-table test; a table that comes back always has at least one header.
   */
  lemma ExtractTableFacts(tables: seq<Table>, index: int)
    ensures ExtractTable(tables, index).None? <==> index < 0 || index >= |tables| || !IsDataTable(Stats(tables[index]))
    ensures ExtractTable(tables, index).Some? ==> ExtractTable(tables, index).value.headers != []
  {
    if 0 <= index < |tables| && IsDataTable(Stats(tables[index])) {
      var t := tables[index];
      assert t.rows != [];
      var headers := ExportHeaders(t.rows);
      assert headers != [];
      var data := DataRows(t.rows);
      if data != [] && Merged(data, true) != [] {
        CollapseUnchanged(headers, NonBlankRows(Merged(data, true)));
        if Collapse(headers, NonBlankRows(Merged(data, true))) != TableData(headers, NonBlankRows(Merged(data, true))) {
          CollapseKept(headers, NonBlankRows(Merged(data, true)));
          ContentColumnsIn(headers, NonBlankRows(Merged(data, true)));
        }
      }
    }
  }

  /**
   * A table whose header row is its last row is exported as its headers with no rows;
   * otherwise the rows handed to the column collapse are exactly the non-blank rows
   * of the top-left-only grid of the rows after the header row.
   */
  lemma ExtractTableRows(tables: seq<Table>, index: int)
    requires 0 <= index < |tables| && IsDataTable(Stats(tables[index]))
    ensures var t := tables[index];
      DataRows(t.rows) == [] ==> ExtractTable(tables, index) == Some(TableData(ExportHeaders(t.rows), []))
    ensures var t := tables[index]; var grid := Merged(DataRows(t.rows), true);
      DataRows(t.rows) != [] && grid != [] ==>
        && ExtractTable(tables, index) == Some(Collapse(ExportHeaders(t.rows), NonBlankRows(grid)))
        && forall row :: row in NonBlankRows(grid) <==> row in grid && HasText(row)
  {
    var t := tables[index];
    assert t.rows != [];
    NonBlankRowsIn(Merged(DataRows(t.rows), true));
  }
}
