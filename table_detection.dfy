/**
 * The heuristic that tells data tables from layout tables (`is_data_table`), shared by
 * the HTML sanitiser and the CSV export. A table is judged by three things read off
 * its element: how many `tr` rows and `td`/`th` cells it has (nested ones included) and
 * the text `get_text(strip=True)` returns for it.
 */
module TableDetection {
  import opened Text

  datatype TableStats = TableStats(rowCount: nat, cellCount: nat, text: string)

  const MIN_ROWS: nat := 2
  const MIN_CELLS: nat := 6
  const MIN_TEXT_LENGTH: nat := 50
  const MIN_NUMBERS: nat := 8

  /** The class `[\$€£¥]`. */
  predicate IsCurrency(c: char) { c == '$' || c == '€' || c == '£' || c == '¥' }

  predicate HasCurrency(s: string) { exists i | 0 <= i < |s| :: IsCurrency(s[i]) }

  /**
   * `\d{1,3}(,\d{3})+` matches at or before `i`: a digit, a comma and three digits
   * (a match contains this, and this alone is a match).
   */
  predicate CommaGroupAt(s: string, i: nat) {
    i + 5 <= |s| && IsDigit(s[i]) && s[i + 1] == ',' && IsDigit(s[i + 2]) && IsDigit(s[i + 3]) && IsDigit(s[i + 4])
  }

  predicate HasCommaGroup(s: string) { exists i | 0 <= i < |s| :: CommaGroupAt(s, i) }

  /**
   * `\d+\.?\d*\s*%` matches at `i`. The digit and space runs are taken whole: the
   * pattern's next part can never start with a character of the run before it.
   */
  predicate PercentAt(s: string, i: nat) {
    i < |s| && IsDigit(s[i]) &&
    var a := i + DigitRun(s[i..]);
    var b := if a < |s| && s[a] == '.' then a + 1 else a;
    var c := b + DigitRun(s[b..]);
    var d := c + SpaceRun(s, c);
    d < |s| && s[d] == '%'
  }

  predicate HasPercent(s: string) { exists i | 0 <= i < |s| :: PercentAt(s, i) }

  /** `len(re.findall(r'\d+', s))`: the number of maximal digit runs. */
  function NumberCount(s: string): (n: nat)
    ensures n <= |s|
    ensures n == 0 <==> forall i | 0 <= i < |s| :: !IsDigit(s[i])
  {
    if s == [] then 0
    else if IsDigit(s[0]) then 1 + NumberCount(s[DigitRun(s)..])
    else NumberCount(s[1..])
  }

  /** The structural minimum: two rows, six cells, fifty characters of text. */
  predicate EnoughStructure(t: TableStats) {
    t.rowCount >= MIN_ROWS && t.cellCount >= MIN_CELLS && |t.text| >= MIN_TEXT_LENGTH
  }

  /** `is_data_table(table_element)` */
  function IsDataTable(t: TableStats): (r: bool)
    ensures !EnoughStructure(t) ==> !r
    ensures EnoughStructure(t) && HasCurrency(t.text) ==> r
    ensures EnoughStructure(t) && (HasCommaGroup(t.text) || HasPercent(t.text)) ==> r
    ensures EnoughStructure(t) && !HasCurrency(t.text) && !HasCommaGroup(t.text) && !HasPercent(t.text) ==>
      (r <==> NumberCount(t.text) >= MIN_NUMBERS)
    ensures r ==> exists i | 0 <= i < |t.text| :: IsDigit(t.text[i]) || IsCurrency(t.text[i])
  {
    if t.rowCount < MIN_ROWS || t.cellCount < MIN_CELLS || |t.text| < MIN_TEXT_LENGTH then false
    else HasCurrency(t.text) || HasCommaGroup(t.text) || HasPercent(t.text) || NumberCount(t.text) >= MIN_NUMBERS
  }
}
