/**
 * The colspan/rowspan expansion both table paths perform (`handle_merged_cells` in the
 * table formatter and in the CSV export). A table row is the sequence of its `td`/`th`
 * cells; the grid is filled row by row with a column cursor that skips positions an
 * earlier rowspan already filled. The two variants differ only in what a covered
 * position receives: the formatter copies the cell text into the whole block, the
 * export writes the text at the top-left position and "" elsewhere (`topLeftOnly`).
 */
module GridFill {
  import opened Text
  import opened Wrappers

  /** A `td`/`th` cell: the text `get_text(" ", strip=True)` returns, and its spans. */
  datatype Cell = Cell(text: string, colspan: nat, rowspan: nat, isHeader: bool)

  /** `extract_cell_text`: runs of whitespace collapse to single spaces. */
  function CellText(c: Cell): string { Join(Split(c.text), " ") }

  /** A grid under construction: `None` marks a position no cell has reached yet. */
  type Grid = seq<seq<Option<string>>>

  predicate Rect(g: Grid, w: nat) {
    forall i | 0 <= i < |g| :: |g[i]| == w
  }

  // ---------------------------------------------------------------------------
  // Grid width

  /** `sum(int(cell.get('colspan', 1)) for cell in row)` */
  function RowWidth(row: seq<Cell>): nat {
    if row == [] then 0 else RowWidth(row[..|row| - 1]) + row[|row| - 1].colspan
  }

  /** `max_cols`: the largest row width. */
  function MaxWidth(rows: seq<seq<Cell>>): nat {
    if rows == [] then 0
    else
      var w := MaxWidth(rows[..|rows| - 1]);
      var last := RowWidth(rows[|rows| - 1]);
      if last > w then last else w
  }

  /** `max_cols` bounds every row's width and is the width of some row (or 0 for none). */
  lemma {:induction false} MaxWidthFacts(rows: seq<seq<Cell>>)
    ensures forall i | 0 <= i < |rows| :: RowWidth(rows[i]) <= MaxWidth(rows)
    ensures rows == [] ==> MaxWidth(rows) == 0
    ensures rows != [] ==> exists i | 0 <= i < |rows| :: RowWidth(rows[i]) == MaxWidth(rows)
  {
    if rows != [] {
      var init := rows[..|rows| - 1];
      MaxWidthFacts(init);
      forall i | 0 <= i < |init| ensures rows[i] == init[i] { }
      if RowWidth(rows[|rows| - 1]) <= MaxWidth(init) && init != [] {
        var i :| 0 <= i < |init| && RowWidth(init[i]) == MaxWidth(init);
        assert rows[i] == init[i];
      }
    }
  }

  /** The width loop: the sum per row, the maximum over rows. */
  method MaxCols(rows: seq<seq<Cell>>) returns (maxCols: nat)
    ensures maxCols == MaxWidth(rows)
  {
    maxCols := 0;
    for i := 0 to |rows|
      invariant maxCols == MaxWidth(rows[..i])
    {
      var row := rows[i];
      var cols := 0;
      for k := 0 to |row|
        invariant cols == RowWidth(row[..k])
      {
        assert row[..k + 1][..k] == row[..k];
        cols := cols + row[k].colspan;
      }
      assert row[..|row|] == row;
      assert rows[..i + 1][..i] == rows[..i];
      if cols > maxCols {
        maxCols := cols;
      }
    }
    assert rows[..|rows|] == rows;
  }

  // ---------------------------------------------------------------------------
  // Filling

  /** The cursor after `while col < max_cols and line[col] is not None: col += 1`. */
  function Skip(line: seq<Option<string>>, col: nat): (r: nat)
    ensures col <= r
    ensures r < |line| ==> line[r] == None
    ensures r == col || r <= |line|
    decreases |line| - col
  {
    if col >= |line| || line[col] == None then col else Skip(line, col + 1)
  }

  /** Every position the cursor passes over is filled: it stops at the first unfilled one. */
  lemma {:induction false} SkipCovers(line: seq<Option<string>>, col: nat)
    ensures forall j | col <= j < Skip(line, col) :: line[j] != None
    decreases |line| - col
  {
    if col < |line| && line[col] != None {
      SkipCovers(line, col + 1);
    }
  }

  /** What the position `(dr, dc)` of a merged block receives. */
  function Mark(text: string, topLeftOnly: bool, dr: nat, dc: nat): Option<string> {
    if topLeftOnly && (dr != 0 || dc != 0) then Some("") else Some(text)
  }

  /**
   * The grid after writing `cell`'s block with its top-left corner at `(row, col)`: the
   * block is `rowspan` rows by `colspan` columns, cut off at the grid's edges.
   */
  function PutBlock(g: Grid, row: nat, col: nat, cell: Cell, topLeftOnly: bool): (r: Grid)
    ensures |r| == |g| && forall i | 0 <= i < |g| :: |r[i]| == |g[i]|
  {
    seq(|g|, i requires 0 <= i < |g| =>
      if row <= i < row + cell.rowspan then
        seq(|g[i]|, j requires 0 <= j < |g[i]| =>
          if col <= j < col + cell.colspan then Mark(CellText(cell), topLeftOnly, i - row, j - col)
          else g[i][j])
      else g[i])
  }

  /** Placing the cells `k..` of grid row `row`, from the cursor `col` on. */
  function FillRow(g: Grid, row: nat, cells: seq<Cell>, k: nat, col: nat, topLeftOnly: bool): (r: Grid)
    requires row < |g|
    ensures |r| == |g| && forall i | 0 <= i < |g| :: |r[i]| == |g[i]|
    decreases |cells| - k
  {
    if k >= |cells| then g
    else
      var c := Skip(g[row], col);
      if c >= |g[row]| then g
      else FillRow(PutBlock(g, row, c, cells[k], topLeftOnly), row, cells, k + 1, c + cells[k].colspan, topLeftOnly)
  }

  lemma PutBlockAt(g: Grid, row: nat, col: nat, cell: Cell, topLeftOnly: bool, i: nat, j: nat)
    requires i < |g| && j < |g[i]|
    ensures PutBlock(g, row, col, cell, topLeftOnly)[i][j] ==
      if row <= i < row + cell.rowspan && col <= j < col + cell.colspan
      then Mark(CellText(cell), topLeftOnly, i - row, j - col) else g[i][j]
  {
  }

  /** Placing rows `i..` of the table, each from cursor 0. */
  function FillRows(g: Grid, rows: seq<seq<Cell>>, i: nat, topLeftOnly: bool): (r: Grid)
    requires |g| == |rows| && i <= |rows|
    ensures |r| == |g| && forall k | 0 <= k < |g| :: |r[k]| == |g[k]|
    decreases |rows| - i
  {
    if i == |rows| then g
    else FillRows(FillRow(g, i, rows[i], 0, 0, topLeftOnly), rows, i + 1, topLeftOnly)
  }

  function Blank(h: nat, w: nat): (g: Grid)
    ensures |g| == h && Rect(g, w)
  {
    seq(h, _ => seq(w, _ => None))
  }

  /** `[[cell or "" for cell in row] for row in grid]` */
  function Finish(g: Grid): (r: seq<seq<string>>)
    ensures |r| == |g| && forall i | 0 <= i < |g| :: |r[i]| == |g[i]|
  {
    seq(|g|, i requires 0 <= i < |g| =>
      seq(|g[i]|, j requires 0 <= j < |g[i]| => if g[i][j].Some? then g[i][j].value else ""))
  }

  /** `handle_merged_cells(rows)` in either variant. */
  function Merged(rows: seq<seq<Cell>>, topLeftOnly: bool): seq<seq<string>> {
    if rows == [] then []
    else
      var w := MaxWidth(rows);
      if w == 0 then [] else Finish(FillRows(Blank(|rows|, w), rows, 0, topLeftOnly))
  }

  /**
   * The grid fill: no rows or no columns give no grid; otherwise one row per table row,
   * each `max_cols` wide.
   */
  method FillGrid(rows: seq<seq<Cell>>, topLeftOnly: bool) returns (grid: seq<seq<string>>)
    ensures grid == Merged(rows, topLeftOnly)
    ensures grid == [] <==> rows == [] || MaxWidth(rows) == 0
    ensures grid != [] ==> |grid| == |rows| && forall i | 0 <= i < |grid| :: |grid[i]| == MaxWidth(rows)
  {
    if |rows| == 0 {
      return [];
    }
    var maxCols := MaxCols(rows);
    if maxCols == 0 {
      return [];
    }
    var g := Blank(|rows|, maxCols);
    ghost var target := FillRows(g, rows, 0, topLeftOnly);
    for rowIdx := 0 to |rows|
      invariant |g| == |rows| && Rect(g, maxCols)
      invariant FillRows(g, rows, rowIdx, topLeftOnly) == target
    {
      ghost var before := g;
      g := FillRowCells(g, rowIdx, rows[rowIdx], topLeftOnly);
      FillRowsStep(before, g, rows, rowIdx, topLeftOnly, maxCols, target);
    }
    grid := Finish(g);
  }

  /** One step of the row loop: the filled row leaves the remaining rows to fill. */
  lemma FillRowsStep(g: Grid, next: Grid, rows: seq<seq<Cell>>, i: nat, topLeftOnly: bool, w: nat, target: Grid)
    requires |g| == |rows| && i < |rows| && Rect(g, w)
    requires next == FillRow(g, i, rows[i], 0, 0, topLeftOnly)
    requires FillRows(g, rows, i, topLeftOnly) == target
    ensures |next| == |rows| && Rect(next, w)
    ensures FillRows(next, rows, i + 1, topLeftOnly) == target
  {
  }

  /** One iteration of the row loop: the cursor walks the row's cells. */
  method FillRowCells(g0: Grid, rowIdx: nat, cells: seq<Cell>, topLeftOnly: bool) returns (g: Grid)
    requires rowIdx < |g0| && Rect(g0, |g0[rowIdx]|)
    ensures g == FillRow(g0, rowIdx, cells, 0, 0, topLeftOnly)
  {
    g := g0;
    var maxCols := |g0[rowIdx]|;
    var colIdx: nat := 0;
    var k := 0;
    ghost var target := FillRow(g0, rowIdx, cells, 0, 0, topLeftOnly);
    while k < |cells|
      invariant 0 <= k <= |cells|
      invariant |g| == |g0| && Rect(g, maxCols)
      invariant FillRow(g, rowIdx, cells, k, colIdx, topLeftOnly) == target
    {
      ghost var start := colIdx;
      colIdx := SkipFilled(g[rowIdx], colIdx);
      if colIdx >= maxCols {
        FillRowStop(g, rowIdx, cells, k, start, topLeftOnly);
        return;
      }
      ghost var before := g;
      g := FillBlock(g, rowIdx, colIdx, cells[k], topLeftOnly);
      FillRowStep(before, g, rowIdx, cells, k, start, topLeftOnly, colIdx, target);
      colIdx := colIdx + cells[k].colspan;
      k := k + 1;
    }
  }

  /** The cursor loop: past every position an earlier rowspan filled. */
  method SkipFilled(line: seq<Option<string>>, col: nat) returns (c: nat)
    ensures c == Skip(line, col)
  {
    c := col;
    while c < |line| && line[c] != None
      invariant col <= c
      invariant Skip(line, c) == Skip(line, col)
      decreases |line| - c
    {
      c := c + 1;
    }
  }

  /**
   * Writing one cell's block: `min(rowspan, row_count - row)` rows by
   * `min(colspan, max_cols - col)` columns, each position receiving its mark.
   */
  method FillBlock(g0: Grid, row: nat, col: nat, cell: Cell, topLeftOnly: bool) returns (g: Grid)
    requires row < |g0| && Rect(g0, |g0[row]|) && col < |g0[row]|
    ensures g == PutBlock(g0, row, col, cell, topLeftOnly)
    ensures |g| == |g0| && Rect(g, |g0[row]|)
  {
    g := g0;
    var text := CellText(cell);
    var rowCount := |g0|;
    var rows := if cell.rowspan < rowCount - row then cell.rowspan else rowCount - row;
    for r := 0 to rows
      invariant |g| == |g0| && forall i | 0 <= i < |g| :: |g[i]| == |g0[i]|
      invariant forall i | 0 <= i < |g| && !(row <= i < row + r) :: g[i] == g0[i]
      invariant forall i | row <= i < row + r :: g[i] == PutBlock(g0, row, col, cell, topLeftOnly)[i]
    {
      var line := FillLine(g[row + r], col, cell.colspan, text, topLeftOnly, r);
      g := g[row + r := line];
    }
    var p := PutBlock(g0, row, col, cell, topLeftOnly);
    forall i | 0 <= i < |g| ensures g[i] == p[i] {
      if !(row <= i < row + rows) {
        assert g[i] == g0[i];
      }
    }
  }

  /** The inner loop over the columns of one block row. */
  method FillLine(line0: seq<Option<string>>, col: nat, colspan: nat, text: string, topLeftOnly: bool, dr: nat)
    returns (line: seq<Option<string>>)
    requires col < |line0|
    ensures |line| == |line0|
    ensures forall j | 0 <= j < |line0| ::
      line[j] == if col <= j < col + colspan then Mark(text, topLeftOnly, dr, j - col) else line0[j]
  {
    line := line0;
    var maxCols := |line0|;
    var cols := if colspan < maxCols - col then colspan else maxCols - col;
    for c := 0 to cols
      invariant |line| == |line0|
      invariant forall j | 0 <= j < |line0| ::
        line[j] == if col <= j < col + c then Mark(text, topLeftOnly, dr, j - col) else line0[j]
    {
      line := line[col + c := Mark(text, topLeftOnly, dr, c)];
    }
  }

  // ---------------------------------------------------------------------------
  // Where the grid's text comes from

  /** The texts of all cells of the table. */
  function Texts(rows: seq<seq<Cell>>): set<string> {
    set i, j | 0 <= i < |rows| && 0 <= j < |rows[i]| :: CellText(rows[i][j])
  }

  /** Every filled position holds "" or one of the texts in `t`. */
  predicate Within(g: Grid, t: set<string>) {
    forall i, j | 0 <= i < |g| && 0 <= j < |g[i]| && g[i][j].Some? :: g[i][j].value == "" || g[i][j].value in t
  }

  lemma PutBlockWithin(g: Grid, row: nat, col: nat, cell: Cell, topLeftOnly: bool, t: set<string>)
    requires Within(g, t) && CellText(cell) in t
    ensures Within(PutBlock(g, row, col, cell, topLeftOnly), t)
  {
    var p: Grid := PutBlock(g, row, col, cell, topLeftOnly);
    forall i: nat, j: nat | i < |p| && j < |p[i]| && p[i][j].Some? ensures p[i][j].value == "" || p[i][j].value in t {
      PutBlockAt(g, row, col, cell, topLeftOnly, i, j);
    }
  }

  lemma {:induction false} FillRowWithin(g: Grid, row: nat, cells: seq<Cell>, k: nat, col: nat, topLeftOnly: bool, t: set<string>)
    requires row < |g| && Within(g, t)
    requires forall q | 0 <= q < |cells| :: CellText(cells[q]) in t
    ensures Within(FillRow(g, row, cells, k, col, topLeftOnly), t)
    decreases |cells| - k
  {
    if k >= |cells| {
      assert FillRow(g, row, cells, k, col, topLeftOnly) == g;
    } else {
      var c := Skip(g[row], col);
      if c >= |g[row]| {
        FillRowStop(g, row, cells, k, col, topLeftOnly);
      } else {
        PutBlockWithin(g, row, c, cells[k], topLeftOnly, t);
        FillRowWithin(PutBlock(g, row, c, cells[k], topLeftOnly), row, cells, k + 1, c + cells[k].colspan, topLeftOnly, t);
        FillRowPlace(g, row, cells, k, col, topLeftOnly, c);
      }
    }
  }

  lemma {:induction false} FillRowsWithin(g: Grid, rows: seq<seq<Cell>>, i: nat, topLeftOnly: bool)
    requires |g| == |rows| && i <= |rows| && Within(g, Texts(rows))
    ensures Within(FillRows(g, rows, i, topLeftOnly), Texts(rows))
    decreases |rows| - i
  {
    if i < |rows| {
      forall k | 0 <= k < |rows[i]| ensures CellText(rows[i][k]) in Texts(rows) { }
      FillRowWithin(g, i, rows[i], 0, 0, topLeftOnly, Texts(rows));
      FillRowsWithin(FillRow(g, i, rows[i], 0, 0, topLeftOnly), rows, i + 1, topLeftOnly);
    }
  }

  /** Every position of the expanded grid is empty or holds the text of one of the cells. */
  lemma MergedFromCells(rows: seq<seq<Cell>>, topLeftOnly: bool)
    ensures var r := Merged(rows, topLeftOnly);
      forall i, j | 0 <= i < |r| && 0 <= j < |r[i]| :: r[i][j] == "" || r[i][j] in Texts(rows)
  {
    var w := MaxWidth(rows);
    if rows != [] && w != 0 {
      FillRowsWithin(Blank(|rows|, w), rows, 0, topLeftOnly);
    }
  }

  // ---------------------------------------------------------------------------
  // The two variants fill the same positions

  /**
   * `a` is a grid the copying variant built and `b` the top-left variant built from the
   * same cells: the same positions are filled, and each of `b`'s is "" or `a`'s text.
   */
  predicate Agree(a: Grid, b: Grid) {
    |a| == |b| && forall i | 0 <= i < |a| :: AgreeLine(a[i], b[i])
  }

  predicate AgreeLine(x: seq<Option<string>>, y: seq<Option<string>>) {
    |x| == |y| && forall j | 0 <= j < |x| :: (x[j] == None <==> y[j] == None) && (y[j] == Some("") || y[j] == x[j])
  }

  lemma PutBlockAgree(a: Grid, b: Grid, row: nat, col: nat, cell: Cell)
    requires Agree(a, b)
    ensures Agree(PutBlock(a, row, col, cell, false), PutBlock(b, row, col, cell, true))
  {
    var pa := PutBlock(a, row, col, cell, false);
    var pb := PutBlock(b, row, col, cell, true);
    forall i | 0 <= i < |pa| ensures AgreeLine(pa[i], pb[i]) {
      forall j | 0 <= j < |pa[i]|
        ensures (pa[i][j] == None <==> pb[i][j] == None) && (pb[i][j] == Some("") || pb[i][j] == pa[i][j])
      {
        PutBlockAt(a, row, col, cell, false, i, j);
        PutBlockAt(b, row, col, cell, true, i, j);
      }
    }
  }

  lemma {:induction false} SkipAgree(a: Grid, b: Grid, row: nat, col: nat)
    requires Agree(a, b) && row < |a|
    ensures Skip(a[row], col) == Skip(b[row], col)
    decreases |a[row]| - col
  {
    if col < |a[row]| && a[row][col] != None {
      SkipAgree(a, b, row, col + 1);
    }
  }

  lemma {:induction false} FillRowAgree(a: Grid, b: Grid, row: nat, cells: seq<Cell>, k: nat, col: nat)
    requires Agree(a, b) && row < |a|
    ensures Agree(FillRow(a, row, cells, k, col, false), FillRow(b, row, cells, k, col, true))
    decreases |cells| - k
  {
    if k >= |cells| {
      assert FillRow(a, row, cells, k, col, false) == a && FillRow(b, row, cells, k, col, true) == b;
    } else {
      SkipAgree(a, b, row, col);
      var c := Skip(a[row], col);
      assert c == Skip(b[row], col) && |a[row]| == |b[row]|;
      if c >= |a[row]| {
        FillRowStop(a, row, cells, k, col, false);
        FillRowStop(b, row, cells, k, col, true);
      } else {
        PutBlockAgree(a, b, row, c, cells[k]);
        var pa := PutBlock(a, row, c, cells[k], false);
        var pb := PutBlock(b, row, c, cells[k], true);
        FillRowAgree(pa, pb, row, cells, k + 1, c + cells[k].colspan);
        FillRowPlace(a, row, cells, k, col, false, c);
        FillRowPlace(b, row, cells, k, col, true, c);
      }
    }
  }

  lemma FillRowStop(g: Grid, row: nat, cells: seq<Cell>, k: nat, col: nat, topLeftOnly: bool)
    requires row < |g| && k < |cells| && Skip(g[row], col) >= |g[row]|
    ensures FillRow(g, row, cells, k, col, topLeftOnly) == g
  {
  }

  /** One step of the cell loop: the placed block leaves the rest of the row to fill. */
  lemma FillRowStep(g: Grid, next: Grid, row: nat, cells: seq<Cell>, k: nat, col: nat, topLeftOnly: bool, c: nat, target: Grid)
    requires row < |g| && k < |cells| && c == Skip(g[row], col) && c < |g[row]|
    requires next == PutBlock(g, row, c, cells[k], topLeftOnly)
    requires FillRow(g, row, cells, k, col, topLeftOnly) == target
    ensures FillRow(next, row, cells, k + 1, c + cells[k].colspan, topLeftOnly) == target
  {
    FillRowPlace(g, row, cells, k, col, topLeftOnly, c);
  }

  lemma FillRowPlace(g: Grid, row: nat, cells: seq<Cell>, k: nat, col: nat, topLeftOnly: bool, c: nat)
    requires row < |g| && k < |cells| && c == Skip(g[row], col) && c < |g[row]|
    ensures FillRow(g, row, cells, k, col, topLeftOnly) ==
      FillRow(PutBlock(g, row, c, cells[k], topLeftOnly), row, cells, k + 1, c + cells[k].colspan, topLeftOnly)
  {
  }

  lemma {:induction false} FillRowsAgree(a: Grid, b: Grid, rows: seq<seq<Cell>>, i: nat)
    requires Agree(a, b) && |a| == |rows| && i <= |rows|
    ensures Agree(FillRows(a, rows, i, false), FillRows(b, rows, i, true))
    decreases |rows| - i
  {
    if i < |rows| {
      FillRowAgree(a, b, i, rows[i], 0, 0);
      FillRowsAgree(FillRow(a, i, rows[i], 0, 0, false), FillRow(b, i, rows[i], 0, 0, true), rows, i + 1);
    }
  }

  /**
   * The export's grid has the formatter's shape, and each of its positions is either ""
   * or the text the formatter's grid holds there.
   */
  lemma VariantsAgree(rows: seq<seq<Cell>>)
    ensures var f := Merged(rows, false); var t := Merged(rows, true);
      && |t| == |f|
      && (forall i | 0 <= i < |f| :: |t[i]| == |f[i]|)
      && (forall i, j | 0 <= i < |f| && 0 <= j < |f[i]| :: t[i][j] == "" || t[i][j] == f[i][j])
  {
    var w := MaxWidth(rows);
    if rows != [] && w != 0 {
      FillRowsAgree(Blank(|rows|, w), Blank(|rows|, w), rows, 0);
    }
  }

  // ---------------------------------------------------------------------------
  // Header row

  predicate HasHeaderCell(row: seq<Cell>) {
    exists k | 0 <= k < |row| :: row[k].isHeader
  }

  /** `row.find_all("th")`: the row's header cells, in order. */
  function HeaderCells(row: seq<Cell>): (r: seq<Cell>)
    ensures forall c :: c in r <==> c in row && c.isHeader
    ensures r == [] <==> !HasHeaderCell(row)
  {
    if row == [] then []
    else (if row[0].isHeader then [row[0]] else []) + HeaderCells(row[1..])
  }

  /** `[extract_cell_text(c) for c in cells]` */
  function CellTexts(cells: seq<Cell>): (r: seq<string>)
    ensures |r| == |cells|
  {
    seq(|cells|, k requires 0 <= k < |cells| => CellText(cells[k]))
  }

  /** The first row from `i` on that holds a header cell. */
  function FirstHeaderRow(rows: seq<seq<Cell>>, i: nat): (r: Option<nat>)
    requires i <= |rows|
    ensures r.Some? ==> i <= r.value < |rows| && HasHeaderCell(rows[r.value])
    ensures r.Some? ==> forall j | i <= j < r.value :: !HasHeaderCell(rows[j])
    ensures r.None? <==> forall j | i <= j < |rows| :: !HasHeaderCell(rows[j])
    decreases |rows| - i
  {
    if i == |rows| then None
    else if HasHeaderCell(rows[i]) then Some(i)
    else FirstHeaderRow(rows, i + 1)
  }

  /**
   * The header search both table paths run: the first row with a `th` gives the
   * headers (its `th` texts) and their row index; without one, no headers and row 0.
   */
  method FindHeaderRow(rows: seq<seq<Cell>>) returns (headerRowIdx: nat, headers: seq<string>)
    ensures match FirstHeaderRow(rows, 0)
      case Some(idx) => headerRowIdx == idx && headers == CellTexts(HeaderCells(rows[idx])) && headers != []
      case None => headerRowIdx == 0 && headers == []
  {
    headerRowIdx := 0;
    headers := [];
    var idx := 0;
    while idx < |rows|
      invariant idx <= |rows|
      invariant forall j | 0 <= j < idx :: !HasHeaderCell(rows[j])
    {
      var ths := HeaderCells(rows[idx]);
      if ths != [] {
        headerRowIdx := idx;
        headers := CellTexts(ths);
        return;
      }
      idx := idx + 1;
    }
  }

  /** `header_row_idx` */
  function HeaderRowIndex(rows: seq<seq<Cell>>): nat {
    match FirstHeaderRow(rows, 0)
    case Some(idx) => idx
    case None => 0
  }

  /** `rows[header_row_idx + 1:]`: the rows after the header row. */
  function DataRows(rows: seq<seq<Cell>>): seq<seq<Cell>> {
    var idx := HeaderRowIndex(rows);
    if |rows| > idx + 1 then rows[idx + 1..] else []
  }
}
