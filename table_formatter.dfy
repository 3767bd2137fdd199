/**
 * The table formatter that turns an HTML table into text for the language model: a
 * financial table becomes one self-contained line per value ("label for period =
 * value"), any other table a markdown grid. The table arrives as its `tr` rows of
 * cells; `extract_table_title` (sibling and parent navigation in the document) is
 * replaced by the title it found, passed in.
 */
module TableFormatter {
  import opened Text
  import opened Wrappers
  import opened GridFill
  import TableDetection

  // ---------------------------------------------------------------------------
  // handle_merged_cells

  /**
   * The copying variant of the grid fill: one row per table row, each `max_cols` wide,
   * and every position either empty or the text of one of the table's cells.
   */
  method HandleMergedCells(rows: seq<seq<Cell>>) returns (grid: seq<seq<string>>)
    ensures grid == Merged(rows, false)
    ensures grid == [] <==> rows == [] || MaxWidth(rows) == 0
    ensures grid != [] ==> |grid| == |rows| && forall i | 0 <= i < |grid| :: |grid[i]| == MaxWidth(rows)
    ensures forall i, j | 0 <= i < |grid| && 0 <= j < |grid[i]| :: grid[i][j] == "" || grid[i][j] in Texts(rows)
  {
    grid := FillGrid(rows, false);
    MergedFromCells(rows, false);
  }

  // ---------------------------------------------------------------------------
  // detect_table_type

  const FINANCIAL: string := "financial"
  const GENERAL: string := "general"

  const FINANCIAL_KEYWORDS: seq<string> := [
    "comprehensive income", "net income", "total revenue", "net sales",
    "operating income", "gross margin", "earnings per share", "diluted",
    "total assets", "total liabilities", "shareholders equity",
    "cash flow", "operating expenses", "cost of sales", "gross profit",
    "income tax", "net earnings", "fiscal", "quarterly", "annual"]

  const MONTH_NAMES: seq<string> := [
    "january", "february", "march", "april", "may", "june", "july",
    "august", "september", "october", "november", "december"]

  /** `[cell for cell in row if cell]` */
  function NonEmpty(row: seq<string>): (r: seq<string>)
    ensures forall k | 0 <= k < |r| :: r[k] != "" && r[k] in row
  {
    if row == [] then []
    else (if row[0] == "" then [] else [row[0]]) + NonEmpty(row[1..])
  }

  lemma {:induction false} NonEmptyKeeps(row: seq<string>, j: nat)
    requires j < |row| && row[j] != ""
    ensures row[j] in NonEmpty(row)
  {
    if j > 0 {
      NonEmptyKeeps(row[1..], j - 1);
    }
  }

  /** The part of `all_text` the grid rows contribute, one `" " + ...` per row. */
  function RowsText(grid: seq<seq<string>>): string {
    if grid == [] then ""
    else RowsText(grid[..|grid| - 1]) + " " + Lower(Join(NonEmpty(grid[|grid| - 1]), " "))
  }

  /** `all_text`: the lower-cased headers, then each row's non-empty cells. */
  function AllText(grid: seq<seq<string>>, headers: seq<string>): string {
    (if headers == [] then "" else Lower(Join(headers, " "))) + RowsText(grid)
  }

  predicate HasKeyword(t: string) {
    exists k | k in FINANCIAL_KEYWORDS :: Contains(t, k)
  }

  /** `\(\s*\d[\d,]*\s*\)` matches at `i`. */
  predicate ParenNumberAt(t: string, i: nat) {
    i < |t| && t[i] == '(' &&
    var a := i + 1 + SpaceRun(t, i + 1);
    a < |t| && IsDigit(t[a]) &&
    var b := a + 1 + DigitCommaRun(t, a + 1);
    var c := b + SpaceRun(t, b);
    c < |t| && t[c] == ')'
  }

  /** The number of digits and commas starting at `q`. */
  function DigitCommaRun(s: string, q: nat): (k: nat)
    requires q <= |s|
    ensures q + k <= |s|
    decreases |s| - q
  {
    if q < |s| && (IsDigit(s[q]) || s[q] == ',') then 1 + DigitCommaRun(s, q + 1) else 0
  }

  /** `(january|...|december)\s+\d` matches at `i`. */
  predicate MonthDigitAt(t: string, i: nat) {
    exists m | m in MONTH_NAMES ::
      OccursAt(t, m, i) &&
      var k := SpaceRun(t, i + |m|);
      k > 0 && i + |m| + k < |t| && IsDigit(t[i + |m| + k])
  }

  /** `20\d{2}` at `i`. */
  predicate Year20(t: string, i: nat) {
    i + 4 <= |t| && t[i] == '2' && t[i + 1] == '0' && IsDigit(t[i + 2]) && IsDigit(t[i + 3])
  }

  /** `\b20\d{2}\b` matches at `i`. */
  predicate YearAt(t: string, i: nat) {
    Year20(t, i) && Boundary(t, i) && Boundary(t, i + 4)
  }

  /** `\bq[1-4]\s*20\d{2}\b` matches at `i`. */
  predicate QuarterYearAt(t: string, i: nat) {
    i + 2 <= |t| && Boundary(t, i) && t[i] == 'q' && '1' <= t[i + 1] <= '4' &&
    var a := i + 2 + SpaceRun(t, i + 2);
    Year20(t, a) && Boundary(t, a + 4)
  }

  /** Any of the signals `detect_table_type` looks for, in the combined text. */
  predicate FinancialText(t: string) {
    || HasKeyword(t)
    || TableDetection.HasCurrency(t)
    || (exists i | 0 <= i < |t| :: ParenNumberAt(t, i))
    || (exists i | 0 <= i < |t| :: MonthDigitAt(t, i))
    || (exists i | 0 <= i < |t| :: YearAt(t, i))
    || (exists i | 0 <= i < |t| :: QuarterYearAt(t, i))
  }

  /** `detect_table_type(grid, headers)` */
  function DetectTableType(grid: seq<seq<string>>, headers: seq<string>): (r: string)
    ensures r == FINANCIAL || r == GENERAL
    ensures grid == [] ==> r == GENERAL
    ensures grid != [] ==> (r == FINANCIAL <==> FinancialText(AllText(grid, headers)))
  {
    if grid == [] then GENERAL
    else if FinancialText(AllText(grid, headers)) then FINANCIAL
    else GENERAL
  }

  lemma {:induction false} RowsTextContains(grid: seq<seq<string>>, i: nat)
    requires i < |grid|
    ensures Contains(RowsText(grid), Lower(Join(NonEmpty(grid[i]), " ")))
  {
    var init := grid[..|grid| - 1];
    var last := Lower(Join(NonEmpty(grid[|grid| - 1]), " "));
    if i == |grid| - 1 {
      ContainsWithin(RowsText(init) + " ", last, []);
      assert RowsText(init) + " " + last + [] == RowsText(grid);
    } else {
      assert grid[i] == init[i];
      RowsTextContains(init, i);
      ContainsWithin([], RowsText(init), " " + last);
      assert [] + RowsText(init) + (" " + last) == RowsText(grid);
      ContainsTrans(RowsText(grid), RowsText(init), Lower(Join(NonEmpty(grid[i]), " ")));
    }
  }

  /** A keyword anywhere in a grid cell, in any case, makes the table financial. */
  lemma KeywordInCell(grid: seq<seq<string>>, headers: seq<string>, i: nat, j: nat, k: string)
    requires i < |grid| && j < |grid[i]|
    requires k in FINANCIAL_KEYWORDS && Contains(Lower(grid[i][j]), k)
    ensures DetectTableType(grid, headers) == FINANCIAL
  {
    var cell := grid[i][j];
    assert cell != "" by {
      assert |Lower(cell)| == |cell|;
    }
    NonEmptyKeeps(grid[i], j);
    var ne := NonEmpty(grid[i]);
    var n :| 0 <= n < |ne| && ne[n] == cell;
    JoinContains(ne, " ", n);
    LowerContains(Join(ne, " "), cell);
    RowsTextContains(grid, i);
    var pre := if headers == [] then "" else Lower(Join(headers, " "));
    ContainsWithin(pre, RowsText(grid), []);
    assert pre + RowsText(grid) + [] == AllText(grid, headers);
    ContainsTrans(AllText(grid, headers), RowsText(grid), Lower(Join(ne, " ")));
    ContainsTrans(AllText(grid, headers), Lower(Join(ne, " ")), Lower(cell));
    ContainsTrans(AllText(grid, headers), Lower(cell), k);
  }

  /** So does a keyword in a header, as long as the grid has a row. */
  lemma KeywordInHeader(grid: seq<seq<string>>, headers: seq<string>, j: nat, k: string)
    requires grid != [] && j < |headers|
    requires k in FINANCIAL_KEYWORDS && Contains(Lower(headers[j]), k)
    ensures DetectTableType(grid, headers) == FINANCIAL
  {
    JoinContains(headers, " ", j);
    LowerContains(Join(headers, " "), headers[j]);
    ContainsWithin([], Lower(Join(headers, " ")), RowsText(grid));
    assert [] + Lower(Join(headers, " ")) + RowsText(grid) == AllText(grid, headers);
    ContainsTrans(AllText(grid, headers), Lower(Join(headers, " ")), Lower(headers[j]));
    ContainsTrans(AllText(grid, headers), Lower(headers[j]), k);
  }

  // ---------------------------------------------------------------------------
  // clean_value

  /** No `$` is followed by whitespace. */
  predicate NoDollarSpace(s: string) {
    forall i | 0 <= i < |s| - 1 :: s[i] == '$' ==> !IsSpace(s[i + 1])
  }

  /** `re.sub(r'\$\s+', '$', s)` */
  function DropSpaceAfterDollar(s: string): (r: string)
    ensures s != [] ==> r != [] && r[0] == s[0]
    ensures NoDollarSpace(r)
    ensures NoDollarSpace(s) ==> r == s
    decreases |s|
  {
    if s == [] then []
    else if s[0] == '$' then
      var k := SpaceRun(s, 1);
      assert k > 0 ==> !NoDollarSpace(s) by {
        if k > 0 { assert s[0] == '$' && IsSpace(s[1]); }
      }
      "$" + DropSpaceAfterDollar(s[1 + k..])
    else [s[0]] + DropSpaceAfterDollar(s[1..])
  }

  /** Dropping the spaces after `$` keeps a string's spacing single. */
  lemma {:induction false} DropKeepsSpacing(s: string)
    requires InnerSpaced(s)
    ensures InnerSpaced(DropSpaceAfterDollar(s))
    decreases |s|
  {
    if s != [] {
      var rest := DropStep(s);
      InnerSpacedSuffix(s, |s| - |rest|);
      DropKeepsSpacing(rest);
      var t := DropSpaceAfterDollar(rest);
      if IsSpace(s[0]) {
        assert s[0] != '$' && rest == s[1..];
        assert t[0] == s[1];
      }
      InnerSpacedCons(s[0], t);
    }
  }

  /** One step of the substitution: the first character stays, and the rest is done on a suffix. */
  lemma DropStep(s: string) returns (rest: string)
    requires s != []
    ensures |rest| < |s| && rest == s[|s| - |rest|..]
    ensures s[0] != '$' ==> rest == s[1..]
    ensures DropSpaceAfterDollar(s) == [s[0]] + DropSpaceAfterDollar(rest)
  {
    if s[0] == '$' {
      rest := s[1 + SpaceRun(s, 1)..];
      assert "$" == [s[0]];
    } else {
      rest := s[1..];
    }
  }

  lemma InnerSpacedSuffix(s: string, j: nat)
    requires j <= |s| && InnerSpaced(s)
    ensures InnerSpaced(s[j..])
  {
    forall i | 0 <= i < |s[j..]| && IsSpace(s[j..][i]) ensures s[j..][i] == ' ' && i + 1 < |s[j..]| && !IsSpace(s[j..][i + 1]) {
      assert s[j..][i] == s[j + i];
    }
  }

  lemma InnerSpacedCons(c: char, t: string)
    requires InnerSpaced(t) && (IsSpace(c) ==> c == ' ' && t != [] && !IsSpace(t[0]))
    ensures InnerSpaced([c] + t)
  {
    forall i | 0 <= i < |[c] + t| && IsSpace(([c] + t)[i]) ensures ([c] + t)[i] == ' ' && i + 1 < |[c] + t| && !IsSpace(([c] + t)[i + 1]) {
      if i > 0 {
        assert ([c] + t)[i] == t[i - 1];
      }
    }
  }

  /** `clean_value(value)` */
  function CleanValue(value: string): (r: string)
    ensures value == "" ==> r == ""
  {
    if value == "" then ""
    else DropSpaceAfterDollar(Join(Split(Strip(value)), " "))
  }

  /**
   * A cleaned value has no surrounding whitespace, separates words by single spaces,
   * never leaves whitespace after `$`, and cleaning it again changes nothing.
   */
  lemma CleanValueFacts(value: string)
    ensures var r := CleanValue(value);
      && SingleSpaced(r)
      && (r == [] || !IsSpace(r[|r| - 1]))
      && NoDollarSpace(r)
      && CleanValue(r) == r
  {
    var r := CleanValue(value);
    if value != "" {
      var j := Join(Split(Strip(value)), " ");
      SplitJoinSingleSpaced(Strip(value));
      DropKeepsSpacing(j);
    }
    if r != "" {
      StripTrimmed(r);
      JoinSplit(r);
    }
  }

  // ---------------------------------------------------------------------------
  // extract_column_periods

  /** How many leading grid rows may hold sub-headers. */
  const SUB_HEADER_ROWS: nat := 3

  /** One grid cell folded into the header texts: appended to its column, or added last. */
  function AddCell(texts: seq<string>, col: nat, cell: string): seq<string> {
    if cell == "" then texts
    else if col < |texts| then texts[col := texts[col] + " " + cell]
    else texts + [cell]
  }

  /** Folding the cells `j..` of one row. */
  function AddCells(texts: seq<string>, row: seq<string>, j: nat): seq<string>
    requires j <= |row|
    decreases |row| - j
  {
    if j == |row| then texts else AddCells(AddCell(texts, j, row[j]), row, j + 1)
  }

  /** Folding the rows `i..`. */
  function AddRows(texts: seq<string>, rows: seq<seq<string>>, i: nat): seq<string>
    requires i <= |rows|
    decreases |rows| - i
  {
    if i == |rows| then texts else AddRows(AddCells(texts, rows[i], 0), rows, i + 1)
  }

  function SubHeaders(grid: seq<seq<string>>): seq<seq<string>> {
    if |grid| <= SUB_HEADER_ROWS then grid else grid[..SUB_HEADER_ROWS]
  }

  /** `all_header_text`: the headers with the first three grid rows folded in. */
  function CombinedHeaders(headers: seq<string>, grid: seq<seq<string>>): seq<string> {
    AddRows(headers, SubHeaders(grid), 0)
  }

  /**
   * The period a header names: none for a blank header, otherwise what the chain of
   * date patterns finds in the stripped header (`period`).
   */
  function PeriodOf(header: string, period: string -> Option<string>): Option<string> {
    var h := Strip(header);
    if h == "" then None else period(h)
  }

  function Periods(headers: seq<string>, grid: seq<seq<string>>, period: string -> Option<string>): seq<Option<string>> {
    var c := CombinedHeaders(headers, grid);
    seq(|c|, i requires 0 <= i < |c| => PeriodOf(c[i], period))
  }

  /** `extract_column_periods(headers, grid)`: one period (or none) per combined header. */
  method ExtractColumnPeriods(headers: seq<string>, grid: seq<seq<string>>, period: string -> Option<string>)
    returns (periods: seq<Option<string>>)
    ensures periods == Periods(headers, grid, period)
  {
    var allHeaderText := headers;
    var top := if |grid| < SUB_HEADER_ROWS then |grid| else SUB_HEADER_ROWS;
    assert SubHeaders(grid) == grid[..top];
    for rowIdx := 0 to top
      invariant AddRows(allHeaderText, grid[..top], rowIdx) == CombinedHeaders(headers, grid)
    {
      allHeaderText := FoldRow(allHeaderText, grid[rowIdx]);
    }
    periods := HeaderPeriods(allHeaderText, period);
  }

  /** The loop over the combined headers: one period (or none) per header. */
  method HeaderPeriods(texts: seq<string>, period: string -> Option<string>) returns (periods: seq<Option<string>>)
    ensures periods == seq(|texts|, k requires 0 <= k < |texts| => PeriodOf(texts[k], period))
  {
    periods := [];
    for i := 0 to |texts|
      invariant |periods| == i
      invariant forall k | 0 <= k < i :: periods[k] == PeriodOf(texts[k], period)
    {
      var headerClean := Strip(texts[i]);
      if headerClean == "" {
        periods := periods + [None];
      } else {
        periods := periods + [period(headerClean)];
      }
    }
  }

  /** The inner loop over one sub-header row. */
  method FoldRow(texts0: seq<string>, row: seq<string>) returns (texts: seq<string>)
    ensures texts == AddCells(texts0, row, 0)
  {
    texts := texts0;
    for colIdx := 0 to |row|
      invariant AddCells(texts, row, colIdx) == AddCells(texts0, row, 0)
    {
      var cell := row[colIdx];
      if cell != "" && colIdx < |texts| {
        texts := texts[colIdx := texts[colIdx] + " " + cell];
      } else if cell != "" && colIdx >= |texts| {
        texts := texts + [cell];
      }
    }
  }

  /** What the sub-header rows add to column `col`: `" " + cell` for each non-empty cell. */
  function ColumnTail(rows: seq<seq<string>>, i: nat, col: nat): string
    requires i <= |rows|
    decreases |rows| - i
  {
    if i == |rows| then ""
    else (if col < |rows[i]| && rows[i][col] != "" then " " + rows[i][col] else "") + ColumnTail(rows, i + 1, col)
  }

  /** Texts from `n` on were added by the fold: none of them is empty. */
  predicate AddedNonEmpty(texts: seq<string>, n: nat) {
    forall k | n <= k < |texts| :: texts[k] != ""
  }

  lemma {:induction false} AddCellsShape(texts: seq<string>, row: seq<string>, j: nat, n: nat)
    requires j <= |row| && n <= |texts| && AddedNonEmpty(texts, n)
    ensures |AddCells(texts, row, j)| >= |texts| && AddedNonEmpty(AddCells(texts, row, j), n)
    decreases |row| - j
  {
    if j < |row| {
      AddCellsShape(AddCell(texts, j, row[j]), row, j + 1, n);
    }
  }

  lemma {:induction false} AddCellsColumn(texts: seq<string>, row: seq<string>, j: nat, col: nat)
    requires j <= |row| && col < |texts|
    ensures |AddCells(texts, row, j)| >= |texts|
    ensures AddCells(texts, row, j)[col] == texts[col] + (if j <= col < |row| && row[col] != "" then " " + row[col] else "")
    decreases |row| - j
  {
    if j < |row| {
      AddCellsColumn(AddCell(texts, j, row[j]), row, j + 1, col);
    }
  }

  lemma {:induction false} AddRowsShape(texts: seq<string>, rows: seq<seq<string>>, i: nat, n: nat)
    requires i <= |rows| && n <= |texts| && AddedNonEmpty(texts, n)
    ensures |AddRows(texts, rows, i)| >= |texts| && AddedNonEmpty(AddRows(texts, rows, i), n)
    decreases |rows| - i
  {
    if i < |rows| {
      AddCellsShape(texts, rows[i], 0, n);
      AddRowsShape(AddCells(texts, rows[i], 0), rows, i + 1, n);
    }
  }

  lemma {:induction false} AddRowsColumn(texts: seq<string>, rows: seq<seq<string>>, i: nat, col: nat)
    requires i <= |rows| && col < |texts|
    ensures |AddRows(texts, rows, i)| >= |texts|
    ensures AddRows(texts, rows, i)[col] == texts[col] + ColumnTail(rows, i, col)
    decreases |rows| - i
  {
    if i < |rows| {
      var t := AddCells(texts, rows[i], 0);
      AddCellsColumn(texts, rows[i], 0, col);
      AddRowsColumn(t, rows, i + 1, col);
    }
  }

  /**
   * Every header keeps its place and gains, in row order, each non-empty cell of its
   * column in the first three grid rows; anything after the headers is a non-empty
   * cell that had no header to join. Each combined header gets one period, none when
   * it is blank.
   */
  lemma PeriodsFacts(headers: seq<string>, grid: seq<seq<string>>, period: string -> Option<string>)
    ensures var c := CombinedHeaders(headers, grid); var p := Periods(headers, grid, period);
      && |c| >= |headers| && |p| == |c|
      && (forall col | 0 <= col < |headers| :: c[col] == headers[col] + ColumnTail(SubHeaders(grid), 0, col))
      && (forall k | |headers| <= k < |c| :: c[k] != "")
      && (forall k | 0 <= k < |c| :: Strip(c[k]) == "" ==> p[k] == None)
  {
    AddRowsShape(headers, SubHeaders(grid), 0, |headers|);
    forall col | 0 <= col < |headers|
      ensures CombinedHeaders(headers, grid)[col] == headers[col] + ColumnTail(SubHeaders(grid), 0, col)
    {
      AddRowsColumn(headers, SubHeaders(grid), 0, col);
    }
  }

  // ---------------------------------------------------------------------------
  // format_financial_table

  /** A column whose cells become statements, with the period those statements name. */
  datatype ValueColumn = ValueColumn(index: nat, period: string)

  /** One output line, `label for period = value`. */
  datatype Statement = Statement(rowLabel: string, period: string, value: string)

  function Render(st: Statement): string { st.rowLabel + " for " + st.period + " = " + st.value }

  /** `[(i, period) for i, period in enumerate(periods) if period]`, from position `i` on. */
  function PeriodColumns(periods: seq<Option<string>>, i: nat): seq<ValueColumn>
    requires i <= |periods|
    decreases |periods| - i
  {
    if i == |periods| then []
    else
      var p := periods[i];
      (if p.Some? && p.value != "" then [ValueColumn(i, p.value)] else []) + PeriodColumns(periods, i + 1)
  }

  /** The name a header column goes by: the header itself, or `Column i+1` when it is blank. */
  function HeaderName(header: string, i: nat): (r: string)
    ensures r != ""
    ensures Strip(header) != "" ==> r == header
  {
    if Strip(header) != "" then header else "Column " + NatToString(i + 1)
  }

  /** Every header after the first, as a value column. */
  function HeaderColumns(headers: seq<string>): seq<ValueColumn> {
    if |headers| <= 1 then []
    else seq(|headers| - 1, k requires 0 <= k < |headers| - 1 => ValueColumn(k + 1, HeaderName(headers[k + 1], k + 1)))
  }

  /** Every grid column after the first, named by position. */
  function GridColumns(grid: seq<seq<string>>): seq<ValueColumn> {
    if grid == [] || |grid[0]| <= 1 then []
    else seq(|grid[0]| - 1, k requires 0 <= k < |grid[0]| - 1 => ValueColumn(k + 1, "Column " + NatToString(k + 2)))
  }

  /** `value_columns`: the dated columns, else the headers, else the grid's own columns. */
  function ValueColumns(headers: seq<string>, grid: seq<seq<string>>, periods: seq<Option<string>>): seq<ValueColumn> {
    var p := PeriodColumns(periods, 0);
    if p != [] then p
    else
      var h := HeaderColumns(headers);
      if h != [] then h else GridColumns(grid)
  }

  /** `all(not cell.strip() for cell in row[1:])` */
  predicate BlankAfterLabel(row: seq<string>) {
    forall k | 1 <= k < |row| :: Strip(row[k]) == ""
  }

  /** A row that yields no statements: empty, unlabelled, or a bare total line. */
  predicate SkipRow(row: seq<string>) {
    || row == []
    || Strip(row[0]) == ""
    || ((Lower(Strip(row[0])) == "total" || Lower(Strip(row[0])) == "subtotal") && BlankAfterLabel(row))
  }

  /** The statement one cell of a row yields, if its cleaned value is worth stating. */
  function Emit(rowLabel: string, row: seq<string>, vc: ValueColumn): Option<Statement> {
    if vc.index < |row| then
      var value := CleanValue(row[vc.index]);
      if value != "" && value != rowLabel && !StartsWith(value, "|") then Some(Statement(rowLabel, vc.period, value))
      else None
    else None
  }

  /** What each value column of a row emits, in column order. */
  function Emits(rowLabel: string, row: seq<string>, cols: seq<ValueColumn>): (r: seq<Option<Statement>>)
    ensures |r| == |cols|
  {
    seq(|cols|, k requires 0 <= k < |cols| => Emit(rowLabel, row, cols[k]))
  }

  /** The statements of one row, column by column. */
  function RowStatements(rowLabel: string, row: seq<string>, cols: seq<ValueColumn>): seq<Statement> {
    Somes(Emits(rowLabel, row, cols))
  }

  /** The statements one row yields: none for a skipped row. */
  function RowOut(row: seq<string>, cols: seq<ValueColumn>): seq<Statement> {
    if SkipRow(row) then [] else RowStatements(Strip(row[0]), row, cols)
  }

  /** The statements of the whole grid, row by row. */
  function GridStatements(grid: seq<seq<string>>, cols: seq<ValueColumn>): seq<Statement> {
    if grid == [] then [] else GridStatements(grid[..|grid| - 1], cols) + RowOut(grid[|grid| - 1], cols)
  }

  function RenderAll(sts: seq<Statement>): (r: seq<string>)
    ensures |r| == |sts|
  {
    if sts == [] then [] else RenderAll(sts[..|sts| - 1]) + [Render(sts[|sts| - 1])]
  }

  function TitleLines(title: string): seq<string> {
    if title != "" then ["[" + title + "]", ""] else []
  }

  function FinancialLines(title: string, headers: seq<string>, grid: seq<seq<string>>, periods: seq<Option<string>>): seq<string> {
    TitleLines(title) + RenderAll(GridStatements(grid, ValueColumns(headers, grid, periods)))
  }

  /** What `format_financial_table` returns. */
  function FinancialProse(title: string, headers: seq<string>, grid: seq<seq<string>>, periods: seq<Option<string>>): string {
    Join(FinancialLines(title, headers, grid, periods), "\n")
  }

  /** `format_financial_table(title, headers, grid, periods)` */
  method FormatFinancialTable(title: string, headers: seq<string>, grid: seq<seq<string>>, periods: seq<Option<string>>)
    returns (result: string)
    ensures result == FinancialProse(title, headers, grid, periods)
  {
    var lines: seq<string> := [];
    if title != "" {
      lines := lines + ["[" + title + "]", ""];
    }
    var cols := ValueColumns(headers, grid, periods);
    for r := 0 to |grid|
      invariant lines == TitleLines(title) + RenderAll(GridStatements(grid[..r], cols))
    {
      ghost var done := GridStatements(grid[..r], cols);
      GridStatementsStep(grid, cols, r);
      assert done + [] == done;
      var row := grid[r];
      if row != [] {
        var rowLabel := Strip(row[0]);
        if rowLabel != "" && !((Lower(rowLabel) == "total" || Lower(rowLabel) == "subtotal") && BlankAfterLabel(row)) {
          assert !SkipRow(row);
          var rowLines := RowLines(rowLabel, row, cols);
          ghost var added := RowStatements(rowLabel, row, cols);
          RenderAllConcat(done, added);
          ConcatAssoc(TitleLines(title), RenderAll(done), RenderAll(added));
          lines := lines + rowLines;
        } else {
          assert SkipRow(row);
        }
      } else {
        assert SkipRow(row);
      }
    }
    assert grid[..|grid|] == grid;
    result := Join(lines, "\n");
  }

  lemma ConcatAssoc(a: seq<string>, b: seq<string>, c: seq<string>)
    ensures a + b + c == a + (b + c)
  {
  }

  lemma GridStatementsStep(grid: seq<seq<string>>, cols: seq<ValueColumn>, r: nat)
    requires r < |grid|
    ensures GridStatements(grid[..r + 1], cols) == GridStatements(grid[..r], cols) + RowOut(grid[r], cols)
  {
    assert grid[..r + 1][..r] == grid[..r];
  }

  /** The inner loop: one line per statement the row yields. */
  method RowLines(rowLabel: string, row: seq<string>, cols: seq<ValueColumn>) returns (lines: seq<string>)
    ensures lines == RenderAll(RowStatements(rowLabel, row, cols))
  {
    lines := [];
    for c := 0 to |cols|
      invariant lines == RenderAll(RowStatements(rowLabel, row, cols[..c]))
    {
      ghost var done := RowStatements(rowLabel, row, cols[..c]);
      RowStatementsStep(rowLabel, row, cols, c);
      assert done + [] == done;
      var vc := cols[c];
      if vc.index < |row| {
        var value := CleanValue(row[vc.index]);
        if value != "" && value != rowLabel && !StartsWith(value, "|") {
          assert Emit(rowLabel, row, vc) == Some(Statement(rowLabel, vc.period, value));
          RenderSnoc(done, Statement(rowLabel, vc.period, value));
          lines := lines + [rowLabel + " for " + vc.period + " = " + value];
        } else {
          assert Emit(rowLabel, row, vc) == None;
        }
      } else {
        assert Emit(rowLabel, row, vc) == None;
      }
    }
    assert cols[..|cols|] == cols;
  }

  lemma RowStatementsStep(rowLabel: string, row: seq<string>, cols: seq<ValueColumn>, c: nat)
    requires c < |cols|
    ensures var e := Emit(rowLabel, row, cols[c]);
      RowStatements(rowLabel, row, cols[..c + 1]) == RowStatements(rowLabel, row, cols[..c]) + (if e.Some? then [e.value] else [])
  {
    var e := Emit(rowLabel, row, cols[c]);
    assert Emits(rowLabel, row, cols[..c + 1]) == Emits(rowLabel, row, cols[..c]) + [e];
    SomesSnoc(Emits(rowLabel, row, cols[..c]), e);
  }

  lemma RenderSnoc(a: seq<Statement>, st: Statement)
    ensures RenderAll(a + [st]) == RenderAll(a) + [Render(st)]
  {
    assert (a + [st])[..|a|] == a;
  }

  lemma {:induction false} RenderAllConcat(a: seq<Statement>, b: seq<Statement>)
    ensures RenderAll(a + b) == RenderAll(a) + RenderAll(b)
    decreases |b|
  {
    if b != [] {
      var b' := b[..|b| - 1];
      assert (a + b)[..|a + b| - 1] == a + b';
      RenderAllConcat(a, b');
    } else {
      assert a + b == a;
    }
  }

  /** The dated columns are exactly the positions whose period is present and non-empty. */
  lemma {:induction false} PeriodColumnsIn(periods: seq<Option<string>>, i: nat)
    requires i <= |periods|
    ensures forall vc :: vc in PeriodColumns(periods, i) <==>
      i <= vc.index < |periods| && periods[vc.index] == Some(vc.period) && vc.period != ""
    ensures Increasing(PeriodColumns(periods, i))
    decreases |periods| - i
  {
    if i < |periods| {
      PeriodColumnsIn(periods, i + 1);
    }
  }

  /** Column indices strictly increase: each column is visited once, left to right. */
  predicate Increasing(cols: seq<ValueColumn>) {
    forall a, b | 0 <= a < b < |cols| :: cols[a].index < cols[b].index
  }

  /**
   * The value columns are distinct and ordered left to right, and each names a
   * non-empty period; the label column 0 is used only when a period names it.
   */
  lemma ValueColumnsOrdered(headers: seq<string>, grid: seq<seq<string>>, periods: seq<Option<string>>)
    ensures var cols := ValueColumns(headers, grid, periods);
      && Increasing(cols)
      && (forall k | 0 <= k < |cols| :: cols[k].period != "")
      && (PeriodColumns(periods, 0) == [] ==> forall k | 0 <= k < |cols| :: cols[k].index == k + 1)
  {
    var p := PeriodColumns(periods, 0);
    if p != [] {
      PeriodColumnsIn(periods, 0);
      forall k | 0 <= k < |p| ensures p[k].period != "" {
        assert p[k] in p;
      }
    } else if HeaderColumns(headers) != [] {
      PositionalColumns(HeaderColumns(headers));
    } else {
      PositionalColumns(GridColumns(grid));
    }
  }

  /** Columns numbered 1, 2, … with names are ordered left to right. */
  lemma PositionalColumns(cols: seq<ValueColumn>)
    requires forall k | 0 <= k < |cols| :: cols[k].index == k + 1 && cols[k].period != ""
    ensures Increasing(cols)
  {
  }

  /**
   * Without dated columns the value columns are the headers after the first, a blank
   * one named `Column i+1`; without those, the grid's columns after the first.
   */
  lemma ValueColumnsFallback(headers: seq<string>, grid: seq<seq<string>>, periods: seq<Option<string>>)
    requires PeriodColumns(periods, 0) == []
    ensures var cols := ValueColumns(headers, grid, periods);
      && (|headers| > 1 ==>
            |cols| == |headers| - 1 &&
            forall k | 0 <= k < |cols| :: cols[k].period == HeaderName(headers[k + 1], k + 1))
      && (|headers| <= 1 ==>
            (cols == [] <==> grid == [] || |grid[0]| <= 1) &&
            forall k | 0 <= k < |cols| :: cols[k].period == "Column " + NatToString(k + 2))
  {
    if |headers| > 1 {
      HeaderColumnsNamed(headers);
    } else {
      GridColumnsNamed(grid);
    }
  }

  lemma HeaderColumnsNamed(headers: seq<string>)
    requires |headers| > 1
    ensures |HeaderColumns(headers)| == |headers| - 1
    ensures forall k | 0 <= k < |headers| - 1 :: HeaderColumns(headers)[k].period == HeaderName(headers[k + 1], k + 1)
  {
    forall k | 0 <= k < |headers| - 1
      ensures HeaderColumns(headers)[k].period == HeaderName(headers[k + 1], k + 1)
    {
      assert HeaderColumns(headers)[k] == ValueColumn(k + 1, HeaderName(headers[k + 1], k + 1));
    }
  }

  lemma GridColumnsNamed(grid: seq<seq<string>>)
    ensures GridColumns(grid) == [] <==> grid == [] || |grid[0]| <= 1
    ensures forall k | 0 <= k < |GridColumns(grid)| :: GridColumns(grid)[k].period == "Column " + NatToString(k + 2)
  {
  }

  /** The statements one row yields are exactly its columns' emitted statements. */
  lemma RowStatementsIn(rowLabel: string, row: seq<string>, cols: seq<ValueColumn>)
    ensures forall st :: st in RowStatements(rowLabel, row, cols) <==>
      exists k | 0 <= k < |cols| :: Emit(rowLabel, row, cols[k]) == Some(st)
  {
    var es := Emits(rowLabel, row, cols);
    SomesIn(es);
    forall st | Some(st) in es ensures exists k | 0 <= k < |cols| :: Emit(rowLabel, row, cols[k]) == Some(st) {
      var k :| 0 <= k < |es| && es[k] == Some(st);
    }
    forall st, k | 0 <= k < |cols| && Emit(rowLabel, row, cols[k]) == Some(st) ensures Some(st) in es {
      assert es[k] == Some(st);
    }
  }

  /**
   * A statement is in the output exactly when some non-skipped row yields it: nothing
   * is invented and nothing worth stating is dropped.
   */
  lemma GridStatementsIn(grid: seq<seq<string>>, cols: seq<ValueColumn>)
    ensures forall st :: st in GridStatements(grid, cols) <==>
      exists r | 0 <= r < |grid| :: !SkipRow(grid[r]) && st in RowStatements(Strip(grid[r][0]), grid[r], cols)
  {
    GridOutIn(grid, cols);
    forall st | st in GridStatements(grid, cols)
      ensures exists r | 0 <= r < |grid| :: !SkipRow(grid[r]) && st in RowStatements(Strip(grid[r][0]), grid[r], cols)
    {
      var r :| 0 <= r < |grid| && st in RowOut(grid[r], cols);
    }
    forall st, r | 0 <= r < |grid| && !SkipRow(grid[r]) && st in RowStatements(Strip(grid[r][0]), grid[r], cols)
      ensures st in GridStatements(grid, cols)
    {
      assert st in RowOut(grid[r], cols);
    }
  }

  /** The rows' statement lists, one per row. */
  function RowOuts(grid: seq<seq<string>>, cols: seq<ValueColumn>): (r: seq<seq<Statement>>)
    ensures |r| == |grid|
    ensures forall i | 0 <= i < |grid| :: r[i] == RowOut(grid[i], cols)
  {
    seq(|grid|, i requires 0 <= i < |grid| => RowOut(grid[i], cols))
  }

  lemma {:induction false} GridFlat(grid: seq<seq<string>>, cols: seq<ValueColumn>)
    ensures GridStatements(grid, cols) == Flatten(RowOuts(grid, cols))
  {
    if grid != [] {
      var init := grid[..|grid| - 1];
      GridFlat(init, cols);
      assert RowOuts(grid, cols)[..|grid| - 1] == RowOuts(init, cols);
    }
  }

  lemma GridOutIn(grid: seq<seq<string>>, cols: seq<ValueColumn>)
    ensures forall st :: st in GridStatements(grid, cols) <==> exists r | 0 <= r < |grid| :: st in RowOut(grid[r], cols)
  {
    GridFlat(grid, cols);
    FlattenIn(RowOuts(grid, cols));
  }

  /**
   * Every statement reads "label for period = value" with a stripped, non-empty label
   * from a kept row's first cell, the non-empty period of a value column, and the
   * cleaned cell of that row and column, which is non-empty, single-spaced, differs
   * from the label and does not start with "|".
   */
  lemma StatementFacts(headers: seq<string>, grid: seq<seq<string>>, periods: seq<Option<string>>, st: Statement)
    requires st in GridStatements(grid, ValueColumns(headers, grid, periods))
    ensures st.rowLabel != "" && Strip(st.rowLabel) == st.rowLabel
    ensures st.period != ""
    ensures st.value != "" && st.value != st.rowLabel && !StartsWith(st.value, "|")
    ensures SingleSpaced(st.value) && NoDollarSpace(st.value)
    ensures exists r, c | 0 <= r < |grid| && 0 <= c < |grid[r]| ::
      !SkipRow(grid[r]) && st.rowLabel == Strip(grid[r][0]) && st.value == CleanValue(grid[r][c])
  {
    var cols := ValueColumns(headers, grid, periods);
    GridStatementsIn(grid, cols);
    ValueColumnsOrdered(headers, grid, periods);
    var r :| 0 <= r < |grid| && !SkipRow(grid[r]) && st in RowStatements(Strip(grid[r][0]), grid[r], cols);
    var row := grid[r];
    var rowLabel := Strip(row[0]);
    RowStatementsIn(rowLabel, row, cols);
    var k :| 0 <= k < |cols| && Emit(rowLabel, row, cols[k]) == Some(st);
    EmitFacts(rowLabel, row, cols[k], st);
    StripTrimmed(rowLabel);
  }

  lemma EmitFacts(rowLabel: string, row: seq<string>, vc: ValueColumn, st: Statement)
    requires Emit(rowLabel, row, vc) == Some(st)
    ensures st.rowLabel == rowLabel && st.period == vc.period
    ensures vc.index < |row| && st.value == CleanValue(row[vc.index])
    ensures st.value != "" && st.value != rowLabel && !StartsWith(st.value, "|")
    ensures SingleSpaced(st.value) && NoDollarSpace(st.value)
  {
    CleanValueFacts(row[vc.index]);
  }

  /**
   * Conversely, every non-empty cleaned cell of a kept row under a value column that
   * differs from the label and does not start with "|" is stated.
   */
  lemma StatementStated(headers: seq<string>, grid: seq<seq<string>>, periods: seq<Option<string>>, r: nat, k: nat)
    requires r < |grid| && !SkipRow(grid[r])
    requires var cols := ValueColumns(headers, grid, periods);
      k < |cols| && cols[k].index < |grid[r]|
    requires var v := CleanValue(grid[r][ValueColumns(headers, grid, periods)[k].index]);
      v != "" && v != Strip(grid[r][0]) && !StartsWith(v, "|")
    ensures var cols := ValueColumns(headers, grid, periods);
      Statement(Strip(grid[r][0]), cols[k].period, CleanValue(grid[r][cols[k].index])) in GridStatements(grid, cols)
  {
    var cols := ValueColumns(headers, grid, periods);
    var st := Statement(Strip(grid[r][0]), cols[k].period, CleanValue(grid[r][cols[k].index]));
    RowStatementsIn(Strip(grid[r][0]), grid[r], cols);
    assert Emit(Strip(grid[r][0]), grid[r], cols[k]) == Some(st);
    GridStatementsIn(grid, cols);
  }

  /**
   * The prose is the title block, when there is a title, followed by one rendered line
   * per statement; with a title it opens with "[title]" and a blank line, and with
   * neither a title nor a statement it is empty.
   */
  lemma ProseFacts(title: string, headers: seq<string>, grid: seq<seq<string>>, periods: seq<Option<string>>)
    ensures var sts := GridStatements(grid, ValueColumns(headers, grid, periods));
      var lines := FinancialLines(title, headers, grid, periods);
      && |lines| == |TitleLines(title)| + |sts|
      && (forall k | 0 <= k < |sts| :: lines[|TitleLines(title)| + k] == Render(sts[k]))
      && (title != "" ==> StartsWith(FinancialProse(title, headers, grid, periods), "[" + title + "]\n"))
      && (title == "" && sts == [] ==> FinancialProse(title, headers, grid, periods) == "")
  {
    var sts := GridStatements(grid, ValueColumns(headers, grid, periods));
    RenderAllAt(sts);
    var lines := FinancialLines(title, headers, grid, periods);
    if title != "" {
      var head := "[" + title + "]";
      assert lines[0] == head && |lines| >= 2;
      assert Join(lines, "\n") == head + "\n" + Join(lines[1..], "\n");
      assert (head + "\n" + Join(lines[1..], "\n"))[..|head + "\n"|] == head + "\n";
    }
  }

  lemma {:induction false} RenderAllAt(sts: seq<Statement>)
    ensures forall k | 0 <= k < |sts| :: RenderAll(sts)[k] == Render(sts[k])
  {
    if sts != [] {
      RenderAllAt(sts[..|sts| - 1]);
    }
  }

  // ---------------------------------------------------------------------------
  // format_as_markdown

  /** One row's pass over the widths: a cell longer than its column widens it. */
  function Widen(ws: seq<nat>, row: seq<string>): (r: seq<nat>)
    ensures |r| == |ws|
  {
    seq(|ws|, i requires 0 <= i < |ws| => if i < |row| && |row[i]| > ws[i] then |row[i]| else ws[i])
  }

  /** `col_widths` after the given rows, starting from the header lengths. */
  function Widths(headers: seq<string>, rows: seq<seq<string>>): (w: seq<nat>)
    ensures |w| == |headers|
  {
    if rows == [] then seq(|headers|, i requires 0 <= i < |headers| => |headers[i]|)
    else Widen(Widths(headers, rows[..|rows| - 1]), rows[|rows| - 1])
  }

  /**
   * Each column is exactly as wide as the longest of its header and its cells: no
   * narrower than any of them, and as wide as one of them.
   */
  lemma {:induction false} WidthsFacts(headers: seq<string>, rows: seq<seq<string>>)
    ensures forall i | 0 <= i < |headers| :: |headers[i]| <= Widths(headers, rows)[i]
    ensures forall r, i | 0 <= r < |rows| && 0 <= i < |headers| && i < |rows[r]| :: |rows[r][i]| <= Widths(headers, rows)[i]
    ensures forall i | 0 <= i < |headers| ::
      || Widths(headers, rows)[i] == |headers[i]|
      || exists r | 0 <= r < |rows| :: i < |rows[r]| && Widths(headers, rows)[i] == |rows[r][i]|
  {
    if rows != [] {
      var init := rows[..|rows| - 1];
      WidthsFacts(headers, init);
      var w := Widths(headers, rows);
      var prev := Widths(headers, init);
      assert w == Widen(prev, rows[|rows| - 1]);
      forall r, i | 0 <= r < |rows| && 0 <= i < |w| && i < |rows[r]| ensures |rows[r][i]| <= w[i] {
        assert w[i] >= prev[i];
        if r < |init| {
          assert rows[r] == init[r];
          assert |init[r][i]| <= prev[i];
        } else {
          assert w[i] >= |rows[|rows| - 1][i]|;
        }
      }
      forall i | 0 <= i < |w| ensures w[i] == |headers[i]| || exists r | 0 <= r < |rows| :: i < |rows[r]| && w[i] == |rows[r][i]| {
        if w[i] != Widths(headers, init)[i] {
          assert i < |rows[|rows| - 1]| && w[i] == |rows[|rows| - 1][i]|;
        } else if w[i] != |headers[i]| {
          var r :| 0 <= r < |init| && i < |init[r]| && w[i] == |init[r][i]|;
          assert rows[r] == init[r];
        }
      }
    }
  }

  /** The width loop of `format_as_markdown`. */
  method ColumnWidths(headers: seq<string>, rows: seq<seq<string>>) returns (widths: seq<nat>)
    ensures widths == Widths(headers, rows)
  {
    widths := seq(|headers|, i requires 0 <= i < |headers| => |headers[i]|);
    for r := 0 to |rows|
      invariant widths == Widths(headers, rows[..r])
    {
      assert rows[..r + 1][..r] == rows[..r];
      var row := rows[r];
      ghost var before := widths;
      for i := 0 to |row|
        invariant |widths| == |before|
        invariant forall k | 0 <= k < |widths| :: widths[k] == if k < i then Widen(before, row)[k] else before[k]
      {
        if i < |widths| {
          widths := widths[i := if widths[i] >= |row[i]| then widths[i] else |row[i]|];
        }
      }
      assert widths == Widen(before, row);
    }
    assert rows[..|rows|] == rows;
  }

  /** `cell.ljust(w) for cell, w in zip(cells, widths)` */
  function PaddedCells(cells: seq<string>, w: seq<nat>): (r: seq<string>)
    ensures |r| == if |cells| < |w| then |cells| else |w|
  {
    var n := if |cells| < |w| then |cells| else |w|;
    seq(n, k requires 0 <= k < n => PadRight(cells[k], w[k]))
  }

  function RenderRow(cells: seq<string>, w: seq<nat>): string {
    "| " + Join(PaddedCells(cells, w), " | ") + " |"
  }

  function Dashes(w: seq<nat>): (r: seq<string>)
    ensures |r| == |w|
  {
    seq(|w|, k requires 0 <= k < |w| => Repeat('-', w[k] + 2))
  }

  function Separator(w: seq<nat>): string {
    "|" + Join(Dashes(w), "|") + "|"
  }

  /** The header row, the separator, then one line per row. */
  function MarkdownLines(headers: seq<string>, rows: seq<seq<string>>): seq<string> {
    var w := Widths(headers, rows);
    [RenderRow(headers, w), Separator(w)] + seq(|rows|, i requires 0 <= i < |rows| => RenderRow(rows[i], w))
  }

  /** What `format_as_markdown` returns. */
  function Markdown(headers: seq<string>, rows: seq<seq<string>>): string {
    if headers == [] then "" else Join(MarkdownLines(headers, rows), "\n")
  }

  /** `format_as_markdown(headers, rows)` */
  method FormatAsMarkdown(headers: seq<string>, rows: seq<seq<string>>) returns (md: string)
    ensures md == Markdown(headers, rows)
  {
    if headers == [] {
      return "";
    }
    var widths := ColumnWidths(headers, rows);
    var headerRow := RenderRow(headers, widths);
    var separator := Separator(widths);
    var dataRows := seq(|rows|, i requires 0 <= i < |rows| => RenderRow(rows[i], widths));
    md := Join([headerRow, separator] + dataRows, "\n");
  }

  function Sum(w: seq<nat>): nat {
    if w == [] then 0 else w[0] + Sum(w[1..])
  }

  /** Parts that are each `c` longer than their width add up to the widths plus `c` each. */
  lemma {:induction false} TotalLengthOfWidths(parts: seq<string>, w: seq<nat>, c: nat)
    requires |parts| == |w|
    requires forall k | 0 <= k < |w| :: |parts[k]| == w[k] + c
    ensures TotalLength(parts) == Sum(w) + c * |w|
  {
    if w != [] {
      TotalLengthOfWidths(parts[1..], w[1..], c);
    }
  }

  /**
   * A row with a cell for every column, none wider than its column, renders exactly
   * as long as the separator: the columns line up.
   */
  lemma RowAligned(cells: seq<string>, w: seq<nat>)
    requires w != [] && |cells| >= |w|
    requires forall k | 0 <= k < |w| :: |cells[k]| <= w[k]
    ensures |RenderRow(cells, w)| == |Separator(w)| == Sum(w) + 3 * |w| + 1
  {
    RowLength(cells, w);
    SeparatorLength(w);
  }

  lemma RowLength(cells: seq<string>, w: seq<nat>)
    requires w != [] && |cells| >= |w|
    requires forall k | 0 <= k < |w| :: |cells[k]| <= w[k]
    ensures |RenderRow(cells, w)| == Sum(w) + 3 * |w| + 1
  {
    var padded := PaddedCells(cells, w);
    PaddedLengths(cells, w);
    TotalLengthOfWidths(padded, w, 0);
    JoinLength(padded, " | ");
    var j := Join(padded, " | ");
    assert |RenderRow(cells, w)| == 2 + |j| + 2;
  }

  lemma PaddedLengths(cells: seq<string>, w: seq<nat>)
    requires |cells| >= |w|
    requires forall k | 0 <= k < |w| :: |cells[k]| <= w[k]
    ensures |PaddedCells(cells, w)| == |w|
    ensures forall k | 0 <= k < |w| :: |PaddedCells(cells, w)[k]| == w[k] + 0
  {
  }

  lemma SeparatorLength(w: seq<nat>)
    requires w != []
    ensures |Separator(w)| == Sum(w) + 3 * |w| + 1
  {
    TotalLengthOfWidths(Dashes(w), w, 2);
    JoinLength(Dashes(w), "|");
    assert |Join(Dashes(w), "|")| == Sum(w) + 2 * |w| + (|w| - 1);
  }

  /**
   * Markdown for a table with headers is two lines plus one per row; the header line,
   * the separator and every row with a cell per column all have the same length, and
   * the separator has `w + 2` dashes per column.
   */
  lemma MarkdownFacts(headers: seq<string>, rows: seq<seq<string>>)
    requires headers != []
    ensures var lines := MarkdownLines(headers, rows);
      && |lines| == 2 + |rows|
      && |lines[0]| == |lines[1]|
      && (forall r | 0 <= r < |rows| && |rows[r]| >= |headers| :: |lines[2 + r]| == |lines[1]|)
      && lines[1] == "|" + Join(seq(|headers|, k requires 0 <= k < |headers| => Repeat('-', Widths(headers, rows)[k] + 2)), "|") + "|"
  {
    var w := Widths(headers, rows);
    WidthsFacts(headers, rows);
    RowAligned(headers, w);
    forall r | 0 <= r < |rows| && |rows[r]| >= |headers| ensures |RenderRow(rows[r], w)| == |Separator(w)| {
      RowAligned(rows[r], w);
    }
  }

  // ---------------------------------------------------------------------------
  // format_table_for_llm

  /** `headers`: the first `th` row's header texts, else the first row's cell texts. */
  function Headers(rows: seq<seq<Cell>>): seq<string> {
    match FirstHeaderRow(rows, 0)
    case Some(idx) => CellTexts(HeaderCells(rows[idx]))
    case None => if rows != [] then CellTexts(rows[0]) else []
  }

  /** `extract_table_title(table) or fallback_title` */
  function TitleOf(found: string, fallback: string): string {
    if found != "" then found else fallback
  }

  /** The markdown fallback, under a `[title]` line when there is a title. */
  function TitledMarkdown(title: string, md: string): string {
    if title != "" then "[" + title + "]\n\n" + md else md
  }

  lemma TitledMarkdownStarts(title: string, md: string)
    requires title != ""
    ensures StartsWith(TitledMarkdown(title, md), "[" + title + "]\n")
  {
    var head := "[" + title + "]\n";
    assert TitledMarkdown(title, md) == head + ("\n" + md);
  }

  /** The rendering of a non-empty grid: the prose for a financial table, unless blank, else markdown. */
  function RenderGrid(title: string, headers: seq<string>, grid: seq<seq<string>>, period: string -> Option<string>): string {
    var prose := FinancialProse(title, headers, grid, Periods(headers, grid, period));
    if DetectTableType(grid, headers) == FINANCIAL && Strip(prose) != "" then prose
    else TitledMarkdown(title, Markdown(headers, grid))
  }

  /**
   * What `format_table_for_llm` returns for a table with the given `tr` rows; `found`
   * is the title `extract_table_title` finds and `period` the date-pattern chain.
   */
  function TableForLlm(rows: seq<seq<Cell>>, found: string, fallback: string, period: string -> Option<string>): string {
    if rows == [] || DataRows(rows) == [] || Merged(DataRows(rows), false) == [] then ""
    else RenderGrid(TitleOf(found, fallback), Headers(rows), Merged(DataRows(rows), false), period)
  }

  /** `format_table_for_llm(table_element, fallback_title)` */
  method FormatTableForLlm(rows: seq<seq<Cell>>, found: string, fallback: string, period: string -> Option<string>)
    returns (result: string)
    ensures result == TableForLlm(rows, found, fallback, period)
  {
    if rows == [] {
      return "";
    }
    var title := if found != "" then found else fallback;
    var headerRowIdx, headers := FindHeaderRow(rows);
    if headers == [] && rows != [] {
      var firstRowCells := rows[0];
      if firstRowCells != [] {
        headers := CellTexts(firstRowCells);
        headerRowIdx := 0;
      }
    }
    assert headers == Headers(rows) && headerRowIdx == HeaderRowIndex(rows);
    var dataRows := if |rows| > headerRowIdx + 1 then rows[headerRowIdx + 1..] else [];
    assert dataRows == DataRows(rows);
    if dataRows == [] {
      return "";
    }
    var grid := HandleMergedCells(dataRows);
    if grid == [] {
      return "";
    }
    assert title == TitleOf(found, fallback);
    result := RenderTable(title, headers, grid, period);
  }

  /** The tail of `format_table_for_llm`, once the grid is built. */
  method RenderTable(title: string, headers: seq<string>, grid: seq<seq<string>>, period: string -> Option<string>)
    returns (result: string)
    ensures result == RenderGrid(title, headers, grid, period)
  {
    var tableType := DetectTableType(grid, headers);
    if tableType == FINANCIAL {
      var periods := ExtractColumnPeriods(headers, grid, period);
      var formatted := FormatFinancialTable(title, headers, grid, periods);
      if Strip(formatted) != "" {
        return formatted;
      }
    }
    var markdown := FormatAsMarkdown(headers, grid);
    if title != "" {
      return "[" + title + "]\n\n" + markdown;
    }
    return markdown;
  }

  /**
   * With a title, a rendered grid always opens with "[title]" on a line of its own.
   */
  lemma RenderGridTitled(title: string, headers: seq<string>, grid: seq<seq<string>>, period: string -> Option<string>)
    requires title != ""
    ensures StartsWith(RenderGrid(title, headers, grid, period), "[" + title + "]\n")
  {
    var prose := FinancialProse(title, headers, grid, Periods(headers, grid, period));
    ProseFacts(title, headers, grid, Periods(headers, grid, period));
    TitledMarkdownStarts(title, Markdown(headers, grid));
  }

  /**
   * The output is empty when the table has no row after its header row or no
   * columns; when it is not empty and there is a title, it opens with "[title]" on
   * a line of its own.
   */
  lemma TableForLlmTitled(rows: seq<seq<Cell>>, found: string, fallback: string, period: string -> Option<string>)
    ensures DataRows(rows) == [] || MaxWidth(DataRows(rows)) == 0 ==> TableForLlm(rows, found, fallback, period) == ""
    ensures var r := TableForLlm(rows, found, fallback, period); var title := TitleOf(found, fallback);
      r != "" && title != "" ==> StartsWith(r, "[" + title + "]\n")
  {
    var title := TitleOf(found, fallback);
    if rows != [] && DataRows(rows) != [] && Merged(DataRows(rows), false) != [] && title != "" {
      RenderGridTitled(title, Headers(rows), Merged(DataRows(rows), false), period);
    }
  }

  /**
   * A table that is not financial is rendered as markdown of its header texts and its
   * merged data rows.
   */
  lemma GeneralTableIsMarkdown(rows: seq<seq<Cell>>, found: string, fallback: string, period: string -> Option<string>)
    requires DataRows(rows) != [] && MaxWidth(DataRows(rows)) > 0
    requires DetectTableType(Merged(DataRows(rows), false), Headers(rows)) == GENERAL
    ensures TableForLlm(rows, found, fallback, period) ==
      TitledMarkdown(TitleOf(found, fallback), Markdown(Headers(rows), Merged(DataRows(rows), false)))
  {
  }

  /**
   * As written: a titled financial table that yields no statement renders as its title
   * line alone. The title keeps the prose from being blank, so the markdown fallback is
   * skipped and none of the table's cells reach the output.
   */
  lemma TitleMasksEmptyProse(title: string, headers: seq<string>, grid: seq<seq<string>>, period: string -> Option<string>)
    requires title != "" && DetectTableType(grid, headers) == FINANCIAL
    requires GridStatements(grid, ValueColumns(headers, grid, Periods(headers, grid, period))) == []
    ensures RenderGrid(title, headers, grid, period) == "[" + title + "]\n"
  {
    TitleOnlyProse(title, headers, grid, Periods(headers, grid, period));
  }

  lemma TitleOnlyProse(title: string, headers: seq<string>, grid: seq<seq<string>>, periods: seq<Option<string>>)
    requires title != ""
    requires GridStatements(grid, ValueColumns(headers, grid, periods)) == []
    ensures FinancialProse(title, headers, grid, periods) == "[" + title + "]\n"
    ensures Strip(FinancialProse(title, headers, grid, periods)) != ""
  {
    var head := "[" + title + "]";
    assert FinancialLines(title, headers, grid, periods) == [head, ""];
    JoinPair(head, "", "\n");
    assert head + "\n" + "" == head + "\n";
    var prose := FinancialProse(title, headers, grid, periods);
    StripEmpty(prose);
    assert !IsSpace(prose[0]);
  }

  /**
   * The evidently intended rendering: the prose only when the table yields at least one
   * statement, markdown otherwise.
   */
  function RenderGridIntended(title: string, headers: seq<string>, grid: seq<seq<string>>, period: string -> Option<string>): string {
    var periods := Periods(headers, grid, period);
    if DetectTableType(grid, headers) == FINANCIAL && GridStatements(grid, ValueColumns(headers, grid, periods)) != []
    then FinancialProse(title, headers, grid, periods)
    else TitledMarkdown(title, Markdown(headers, grid))
  }

  /**
   * The intended rendering never drops a table to its title, and it differs from the
   * code only in that case: without a title, or with a statement, the two agree.
   */
  lemma RenderGridIntendedFacts(title: string, headers: seq<string>, grid: seq<seq<string>>, period: string -> Option<string>)
    ensures var sts := GridStatements(grid, ValueColumns(headers, grid, Periods(headers, grid, period)));
      sts == [] ==> RenderGridIntended(title, headers, grid, period) == TitledMarkdown(title, Markdown(headers, grid))
    ensures var sts := GridStatements(grid, ValueColumns(headers, grid, Periods(headers, grid, period)));
      title == "" || sts != [] ==> RenderGridIntended(title, headers, grid, period) == RenderGrid(title, headers, grid, period)
  {
    var periods := Periods(headers, grid, period);
    var sts := GridStatements(grid, ValueColumns(headers, grid, periods));
    var prose := FinancialProse(title, headers, grid, periods);
    StripEmpty(prose);
    if sts != [] {
      ProseNotBlank(title, headers, grid, periods);
    } else if title == "" {
      assert FinancialLines(title, headers, grid, periods) == [];
    }
  }

  /** Prose with a statement has a non-space character: the statement's label starts with one. */
  lemma ProseNotBlank(title: string, headers: seq<string>, grid: seq<seq<string>>, periods: seq<Option<string>>)
    requires GridStatements(grid, ValueColumns(headers, grid, periods)) != []
    ensures Strip(FinancialProse(title, headers, grid, periods)) != ""
  {
    var sts := GridStatements(grid, ValueColumns(headers, grid, periods));
    var lines := FinancialLines(title, headers, grid, periods);
    ProseFacts(title, headers, grid, periods);
    StatementFacts(headers, grid, periods, sts[0]);
    RenderStartsNonSpace(sts[0]);
    JoinContains(lines, "\n", |TitleLines(title)|);
    ContainsNonSpace(Join(lines, "\n"), lines[|TitleLines(title)|]);
  }

  /** A statement's line starts with its label, which has no leading whitespace. */
  lemma RenderStartsNonSpace(st: Statement)
    requires st.rowLabel != "" && Strip(st.rowLabel) == st.rowLabel
    ensures Render(st) != [] && !IsSpace(Render(st)[0])
  {
    assert Render(st)[0] == Strip(st.rowLabel)[0];
  }

  /** A text holding a piece that starts with a non-space character does not strip to "". */
  lemma ContainsNonSpace(s: string, piece: string)
    requires piece != [] && !IsSpace(piece[0]) && Contains(s, piece)
    ensures Strip(s) != ""
  {
    var i :| 0 <= i <= |s| && OccursAt(s, piece, i);
    assert s[i] == piece[0];
    StripEmpty(s);
  }
}
