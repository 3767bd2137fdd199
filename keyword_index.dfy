/**
 * The BM25 keyword index: tokenisation that keeps financial values, date-format query
 * expansion, and per-filing document statistics kept in an insertion-ordered map with the
 * same evict-oldest-at-capacity rule as the other stores.
 *
 * `math.log` is a parameter of the scoring; scores are reals.
 */
module KeywordIndex {
  import opened Text
  import opened Wrappers
  import opened OrderedMaps
  import Chunker

  // ---------------------------------------------------------------------------
  // Tokenisation: `re.findall(r'\b[\w\$\.,]+\b', text.lower())`

  /** The pattern's character class `[\w\$\.,]`. */
  predicate InTokenClass(c: char) { IsWordChar(c) || c == '$' || c == '.' || c == ',' }

  /** The end of the longest run of class characters starting at `p` (the greedy `+`). */
  function ClassRun(s: string, p: nat): (e: nat)
    requires p <= |s|
    ensures p <= e <= |s|
    ensures forall i | p <= i < e :: InTokenClass(s[i])
    ensures e == |s| || !InTokenClass(s[e])
    decreases |s| - p
  {
    if p < |s| && InTokenClass(s[p]) then ClassRun(s, p + 1) else p
  }

  /** Backtracking from the greedy end to the last position `> p` where `\b` holds, or `p` if none. */
  function BacktrackEnd(s: string, p: nat, e: nat): (r: nat)
    requires p <= e <= |s|
    ensures p <= r <= e
    ensures r > p ==> Boundary(s, r)
    ensures forall i | r < i <= e && i > p :: !Boundary(s, i)
    decreases e
  {
    if e <= p then p else if Boundary(s, e) then e else BacktrackEnd(s, p, e - 1)
  }

  /**
   * `[a, b)` is a token the pattern can report: a non-empty run of class characters with
   * a word boundary at both ends, and the longest such run from `a`.
   */
  predicate TokenSpan(s: string, a: nat, b: nat) {
    && a < b <= |s|
    && Boundary(s, a) && Boundary(s, b)
    && (forall i | a <= i < b :: InTokenClass(s[i]))
    && (forall i | b < i <= ClassRun(s, a) :: !Boundary(s, i))
  }

  /**
   * The spans `findall` reports, scanning from `p`: each is a token span, and they come in
   * text order without overlapping.
   */
  function TokenSpans(s: string, p: nat): (r: seq<(nat, nat)>)
    requires p <= |s|
    ensures forall k | 0 <= k < |r| :: p <= r[k].0 && TokenSpan(s, r[k].0, r[k].1)
    ensures forall k | 0 <= k < |r| - 1 :: r[k].1 <= r[k + 1].0
    decreases |s| - p
  {
    if p == |s| then []
    else if Boundary(s, p) && InTokenClass(s[p]) then
      var e := BacktrackEnd(s, p, ClassRun(s, p));
      if e > p then [(p, e)] + TokenSpans(s, e) else TokenSpans(s, p + 1)
    else TokenSpans(s, p + 1)
  }

  function Substrings(s: string, spans: seq<(nat, nat)>): (r: seq<string>)
    requires forall k | 0 <= k < |spans| :: spans[k].0 <= spans[k].1 <= |s|
    ensures |r| == |spans|
    ensures forall k | 0 <= k < |spans| :: r[k] == s[spans[k].0..spans[k].1]
  {
    if spans == [] then [] else [s[spans[0].0..spans[0].1]] + Substrings(s, spans[1..])
  }

  /** The raw regular-expression tokens of an already lower-cased text. */
  function RawTokens(s: string): seq<string> {
    Substrings(s, TokenSpans(s, 0))
  }

  /** `token.replace('$', '').replace(',', '')` */
  function Clean(token: string): (r: string)
    ensures '$' !in r && ',' !in r
  {
    RemoveChar(RemoveChar(token, '$'), ',')
  }

  lemma {:induction false} RemoveCharAbsent(s: string, c: char)
    requires c !in s
    ensures RemoveChar(s, c) == s
  {
    if s != [] {
      RemoveCharAbsent(s[1..], c);
      assert s == [s[0]] + s[1..];
    }
  }

  /** Cleaning changes a token exactly when it holds a `$` or a comma. */
  lemma CleanChanges(token: string)
    ensures Clean(token) != token <==> '$' in token || ',' in token
  {
    if '$' !in token && ',' !in token {
      RemoveCharAbsent(token, '$');
      RemoveCharAbsent(token, ',');
    } else {
      assert '$' !in Clean(token) && ',' !in Clean(token);
    }
  }

  /** Each raw token's clean form, followed by the token itself when cleaning changed it. */
  function Normalized(tokens: seq<string>): seq<string> {
    if tokens == [] then []
    else
      var t := tokens[|tokens| - 1];
      Normalized(tokens[..|tokens| - 1]) + [Clean(t)] + (if Clean(t) != t then [t] else [])
  }

  /** The normalisation loop of `_tokenize`. */
  method NormalizeTokens(tokens: seq<string>) returns (normalized: seq<string>)
    ensures normalized == Normalized(tokens)
  {
    normalized := [];
    for i := 0 to |tokens|
      invariant normalized == Normalized(tokens[..i])
    {
      assert tokens[..i + 1][..i] == tokens[..i];
      var clean := Clean(tokens[i]);
      normalized := normalized + [clean];
      if clean != tokens[i] {
        normalized := normalized + [tokens[i]];
      }
    }
    assert tokens[..|tokens|] == tokens;
  }

  /** The number of tokens holding a `$` or a comma. */
  function Marked(tokens: seq<string>): (r: nat)
    ensures r <= |tokens|
  {
    if tokens == [] then 0
    else
      var t := tokens[|tokens| - 1];
      Marked(tokens[..|tokens| - 1]) + (if '$' in t || ',' in t then 1 else 0)
  }

  /**
   * Normalising `n` tokens yields `n` terms plus one per token holding `$` or a comma, so
   * between `n` and `2n`; every term is either a clean form (no `$`, no comma) or a raw
   * token that had one.
   */
  lemma {:induction false} NormalizedFacts(tokens: seq<string>)
    ensures |Normalized(tokens)| == |tokens| + Marked(tokens)
    ensures |tokens| <= |Normalized(tokens)| <= 2 * |tokens|
    ensures forall w | w in Normalized(tokens) ::
      ('$' !in w && ',' !in w) || (w in tokens && ('$' in w || ',' in w))
  {
    if tokens != [] {
      var init := tokens[..|tokens| - 1];
      var t := tokens[|tokens| - 1];
      NormalizedFacts(init);
      CleanChanges(t);
      assert forall w | w in init :: w in tokens;
    }
  }

  /** The terms `_tokenize` produces for a text. */
  function TokensOf(text: string): seq<string> {
    Normalized(RawTokens(Lower(text)))
  }

  /** `_tokenize` */
  method Tokenize(text: string) returns (tokens: seq<string>)
    ensures tokens == TokensOf(text)
  {
    var lowered := Lower(text);
    tokens := NormalizeTokens(RawTokens(lowered));
  }

  // ---------------------------------------------------------------------------
  // Query expansion

  const MONTHS: seq<string> := [
    "january", "february", "march", "april", "may", "june",
    "july", "august", "september", "october", "november", "december"]

  /** Month name to (two-digit number, last day); February always ends on the 28th. */
  const MONTH_TABLE: map<string, (string, string)> := map[
    "january" := ("01", "31"), "february" := ("02", "28"), "march" := ("03", "31"),
    "april" := ("04", "30"), "may" := ("05", "31"), "june" := ("06", "30"),
    "july" := ("07", "31"), "august" := ("08", "31"), "september" := ("09", "30"),
    "october" := ("10", "31"), "november" := ("11", "30"), "december" := ("12", "31")]

  /** Quarter digit to (month name, quarter-end date). */
  const QUARTER_TABLE: map<char, (string, string)> := map[
    '1' := ("march", "Mar 31"), '2' := ("june", "Jun 30"),
    '3' := ("september", "Sep 30"), '4' := ("december", "Dec 31")]

  /** The first alternative of the month group that matches at `p`. */
  function MonthAt(s: string, p: nat, months: seq<string>): (r: Option<string>)
    requires p <= |s|
    ensures r.Some? ==> r.value in months && StartsWith(s[p..], r.value)
  {
    if months == [] then None
    else if StartsWith(s[p..], months[0]) then Some(months[0])
    else MonthAt(s, p, months[1..])
  }

  /** `\s+(\d{4})\b` at `q`: the four-digit year and the end of the match. */
  function YearAt(s: string, q: nat): (r: Option<(string, nat)>)
    requires q <= |s|
    ensures r.Some? ==> q < r.value.1 <= |s| && |r.value.0| == 4 && AllDigits(r.value.0)
  {
    var k := SpaceRun(s, q);
    var d := q + k;
    if k >= 1 && d + 4 <= |s| && AllDigits(s[d..d + 4]) && (d + 4 == |s| || !IsWordChar(s[d + 4]))
    then Some((s[d..d + 4], d + 4))
    else None
  }

  /** No word character before `p`: with a letter at `p` this is `\b`. */
  predicate WordStart(s: string, p: nat) { p == 0 || (p <= |s| && !IsWordChar(s[p - 1])) }

  /** A `month yyyy` match at `p`: month, year and the end of the match. */
  function MonthMatchAt(s: string, p: nat): (r: Option<(string, string, nat)>)
    requires p <= |s|
    ensures r.Some? ==> r.value.0 in MONTH_TABLE && p < r.value.2 <= |s|
    ensures r.Some? ==> |r.value.1| == 4 && AllDigits(r.value.1)
  {
    if !WordStart(s, p) then None
    else match MonthAt(s, p, MONTHS)
      case None => None
      case Some(m) =>
        match YearAt(s, p + |m|)
        case None => None
        case Some(ye) => Some((m, ye.0, ye.1))
  }

  /** `re.findall` of the month pattern from `p`: (month, year) pairs in text order. */
  function MonthMatches(s: string, p: nat): seq<(string, string)>
    requires p <= |s|
    decreases |s| - p
  {
    if p == |s| then []
    else match MonthMatchAt(s, p)
      case Some(m) => [(m.0, m.1)] + MonthMatches(s, m.2)
      case None => MonthMatches(s, p + 1)
  }

  /** A `qN yyyy` match at `p`: the quarter digit, the year and the end of the match. */
  function QuarterMatchAt(s: string, p: nat): (r: Option<(char, string, nat)>)
    requires p <= |s|
    ensures r.Some? ==> r.value.0 in QUARTER_TABLE && p < r.value.2 <= |s|
    ensures r.Some? ==> |r.value.1| == 4 && AllDigits(r.value.1)
  {
    if WordStart(s, p) && p + 2 <= |s| && s[p] == 'q' && '1' <= s[p + 1] <= '4' then
      match YearAt(s, p + 2)
      case None => None
      case Some(ye) => Some((s[p + 1], ye.0, ye.1))
    else None
  }

  /** `re.findall` of the quarter pattern from `p`. */
  function QuarterMatches(s: string, p: nat): seq<(char, string)>
    requires p <= |s|
    decreases |s| - p
  {
    if p == |s| then []
    else match QuarterMatchAt(s, p)
      case Some(m) => [(m.0, m.1)] + QuarterMatches(s, m.2)
      case None => QuarterMatches(s, p + 1)
  }

  /** Every month match names a month of the table and a four-digit year, so the lookup never fails. */
  lemma {:induction false} MonthMatchesFacts(s: string, p: nat)
    requires p <= |s|
    ensures forall m | m in MonthMatches(s, p) :: m.0 in MONTH_TABLE && |m.1| == 4 && AllDigits(m.1)
    decreases |s| - p
  {
    if p < |s| {
      match MonthMatchAt(s, p)
      case Some(m) => MonthMatchesFacts(s, m.2);
      case None => MonthMatchesFacts(s, p + 1);
    }
  }

  /** Every quarter match names a quarter 1-4 and a four-digit year. */
  lemma {:induction false} QuarterMatchesFacts(s: string, p: nat)
    requires p <= |s|
    ensures forall m | m in QuarterMatches(s, p) :: m.0 in QUARTER_TABLE && |m.1| == 4 && AllDigits(m.1)
    decreases |s| - p
  {
    if p < |s| {
      match QuarterMatchAt(s, p)
      case Some(m) => QuarterMatchesFacts(s, m.2);
      case None => QuarterMatchesFacts(s, p + 1);
    }
  }

  /**
   * `month_map[month]`. Only names the month pattern matched are looked up
   * (`MonthMatchesFacts`), so the fallback for other strings is never used.
   */
  function MonthEntry(month: string): (string, string) {
    if month in MONTH_TABLE then MONTH_TABLE[month] else ("", "")
  }

  /** `quarter_map[quarter]`, with the same never-used fallback as `MonthEntry`. */
  function QuarterEntry(quarter: char): (string, string) {
    if quarter in QUARTER_TABLE then QUARTER_TABLE[quarter] else ("", "")
  }

  /** "Month dd, yyyy", "mm/dd/yyyy" and "yyyy-mm-dd" for the month's last day. */
  function MonthVariations(month: string, year: string): (r: seq<string>)
    ensures |r| == 3
  {
    var (num, last) := MonthEntry(month);
    [Capitalize(month) + " " + last + ", " + year, num + "/" + last + "/" + year, year + "-" + num + "-" + last]
  }

  /** The text each quarter match appends: " <month> yyyy <end date>, yyyy". */
  function QuarterVariation(quarter: char, year: string): (r: string)
    ensures |r| > 0 && r[0] == ' '
  {
    var (monthName, endDate) := QuarterEntry(quarter);
    " " + monthName + " " + year + " " + endDate + ", " + year
  }

  /** The text each month match appends: `" " + " ".join(variations)`. */
  function MonthText(month: string, year: string): (r: string)
    ensures |r| > 0 && r[0] == ' '
  {
    " " + Join(MonthVariations(month, year), " ")
  }

  /** `text` with one `MonthText` appended per month match, in match order. */
  function WithMonths(text: string, matches: seq<(string, string)>): string
  {
    if matches == [] then text
    else
      var m := matches[|matches| - 1];
      WithMonths(text, matches[..|matches| - 1]) + MonthText(m.0, m.1)
  }

  /** `text` with one `QuarterVariation` appended per quarter match, in match order. */
  function WithQuarters(text: string, matches: seq<(char, string)>): string
  {
    if matches == [] then text
    else
      var m := matches[|matches| - 1];
      WithQuarters(text, matches[..|matches| - 1]) + QuarterVariation(m.0, m.1)
  }

  /** The expanded query, matched on the lower-cased text but built on the original. */
  function Expanded(query: string): string {
    var lowered := Lower(query);
    WithQuarters(WithMonths(query, MonthMatches(lowered, 0)), QuarterMatches(lowered, 0))
  }

  /**
   * The original query is always kept in front; with no `month yyyy` and no `qN yyyy`
   * match it comes back unchanged, and otherwise something is appended.
   */
  lemma ExpandedFacts(query: string)
    ensures StartsWith(Expanded(query), query)
    ensures (MonthMatches(Lower(query), 0) == [] && QuarterMatches(Lower(query), 0) == [])
        <==> Expanded(query) == query
  {
    var lowered := Lower(query);
    var ms, qs := MonthMatches(lowered, 0), QuarterMatches(lowered, 0);
    WithMonthsExtends(query, ms);
    var w := WithMonths(query, ms);
    WithQuartersExtends(w, qs);
    ExtendsTwice(query, w, Expanded(query), |ms|, |qs|);
  }

  /** Two appends in a row keep the front, and leave the text as it was only when both append nothing. */
  lemma ExtendsTwice(q: string, w: string, e: string, m: nat, n: nat)
    requires |w| >= |q| + m && w[..|q|] == q && (m == 0 <==> w == q)
    requires |e| >= |w| + n && e[..|w|] == w && (n == 0 <==> e == w)
    ensures StartsWith(e, q)
    ensures (m == 0 && n == 0) <==> e == q
  {
    assert e[..|q|] == w[..|q|];
  }

  /** The terms of the expanded query. */
  function QueryTerms(query: string): seq<string> {
    TokensOf(Expanded(query))
  }

  /**
   * `_expand_query`: the query itself, then the month variations, then the quarter
   * variations; both patterns are matched on the lower-cased query.
   */
  method ExpandQuery(query: string) returns (expanded: string)
    ensures expanded == Expanded(query)
  {
    var lowered := Lower(query);
    var months := MonthMatches(lowered, 0);
    var quarters := QuarterMatches(lowered, 0);
    expanded := query;
    for i := 0 to |months|
      invariant expanded == WithMonths(query, months[..i])
    {
      assert months[..i + 1][..i] == months[..i];
      var (month, year) := months[i];
      expanded := expanded + MonthText(month, year);
    }
    assert months[..|months|] == months;
    ghost var withMonths := expanded;
    for i := 0 to |quarters|
      invariant expanded == WithQuarters(withMonths, quarters[..i])
    {
      assert quarters[..i + 1][..i] == quarters[..i];
      var (quarter, year) := quarters[i];
      expanded := expanded + QuarterVariation(quarter, year);
    }
    assert quarters[..|quarters|] == quarters;
  }

  /**
   * Appending month matches keeps `text` in front and adds at least one character per
   * match, so the text is unchanged exactly when there is no match.
   */
  lemma {:induction false} WithMonthsExtends(text: string, matches: seq<(string, string)>)
    ensures var r := WithMonths(text, matches);
      |r| >= |text| + |matches| && r[..|text|] == text
    ensures matches == [] <==> WithMonths(text, matches) == text
  {
    if matches != [] {
      var init := matches[..|matches| - 1];
      WithMonthsExtends(text, init);
      var m := matches[|matches| - 1];
      var prev := WithMonths(text, init);
      assert WithMonths(text, matches) == prev + MonthText(m.0, m.1);
      assert (prev + MonthText(m.0, m.1))[..|text|] == prev[..|text|];
    }
  }

  lemma {:induction false} WithQuartersExtends(text: string, matches: seq<(char, string)>)
    ensures var r := WithQuarters(text, matches);
      |r| >= |text| + |matches| && r[..|text|] == text
    ensures matches == [] <==> WithQuarters(text, matches) == text
  {
    if matches != [] {
      var init := matches[..|matches| - 1];
      WithQuartersExtends(text, init);
      var m := matches[|matches| - 1];
      var prev := WithQuarters(text, init);
      var v := QuarterVariation(m.0, m.1);
      assert WithQuarters(text, matches) == prev + v;
      assert (prev + v)[..|text|] == prev[..|text|];
    }
  }

  /** The quarter variation starts with a space and names the quarter's closing month and year. */
  lemma QuarterVariationShape(quarter: char, year: string)
    requires quarter in QUARTER_TABLE
    ensures var v := QuarterVariation(quarter, year);
      StartsWith(v, " " + QUARTER_TABLE[quarter].0 + " " + year + " ") && EndsWith(v, ", " + year)
  {
    var v := QuarterVariation(quarter, year);
    var p := " " + QUARTER_TABLE[quarter].0 + " " + year + " ";
    assert v == p + QUARTER_TABLE[quarter].1 + ", " + year;
    assert v[..|p|] == p;
    assert v[|v| - |", " + year|..] == ", " + year;
  }

  // ---------------------------------------------------------------------------
  // Document statistics

  /** `Counter.get(t, 0)` */
  function Get(m: map<string, nat>, t: string): nat {
    if t in m then m[t] else 0
  }

  /** `for t in terms: counter[t] += 1` */
  function BumpAll(m: map<string, nat>, terms: seq<string>): map<string, nat> {
    if terms == [] then m
    else
      var r := BumpAll(m, terms[..|terms| - 1]);
      var t := terms[|terms| - 1];
      r[t := Get(r, t) + 1]
  }

  /** Each occurrence of a term in `terms` adds one to its count; nothing else changes. */
  lemma {:induction false} BumpAllCount(m: map<string, nat>, terms: seq<string>, t: string)
    ensures t in BumpAll(m, terms) <==> t in m || t in terms
    ensures Get(BumpAll(m, terms), t) == Get(m, t) + multiset(terms)[t]
  {
    if terms != [] {
      var init := terms[..|terms| - 1];
      BumpAllCount(m, init, t);
      assert terms == init + [terms[|terms| - 1]];
    }
  }

  /** `Counter(tokens)`: each distinct term with its number of occurrences. */
  function TermFreqs(tokens: seq<string>): map<string, nat> {
    BumpAll(map[], tokens)
  }

  /** The counter holds exactly the terms of `tokens`, each with its number of occurrences. */
  lemma TermFreqsCount(tokens: seq<string>, t: string)
    ensures t in TermFreqs(tokens) <==> t in tokens
    ensures t in tokens ==> TermFreqs(tokens)[t] == multiset(tokens)[t] >= 1
  {
    BumpAllCount(map[], tokens, t);
  }

  /** The distinct terms in order of first occurrence: the keys of `Counter(tokens)`. */
  function Distinct(tokens: seq<string>): (r: seq<string>)
    ensures forall t :: t in r <==> t in tokens
    ensures OrderedMaps.Distinct(r)
  {
    if tokens == [] then []
    else
      var r := Distinct(tokens[..|tokens| - 1]);
      var t := tokens[|tokens| - 1];
      if t in r then r else r + [t]
  }

  /** The number of documents containing `t`. */
  function DocCount(docs: seq<seq<string>>, t: string): (r: nat)
    ensures r <= |docs|
  {
    if docs == [] then 0
    else DocCount(docs[..|docs| - 1], t) + (if t in docs[|docs| - 1] then 1 else 0)
  }

  function Sum(xs: seq<nat>): nat {
    if xs == [] then 0 else Sum(xs[..|xs| - 1]) + xs[|xs| - 1]
  }

  /** The statistics `ingest` stores for one filing. */
  datatype IndexData = IndexData(
    chunks: seq<Chunker.ChunkRecord>,
    tokenizedDocs: seq<seq<string>>,
    termFreqs: seq<map<string, nat>>,
    docFreqs: map<string, nat>,
    docLengths: seq<nat>,
    avgDocLen: real,
    numDocs: nat)

  /** `sum(doc_lengths) / max(len(doc_lengths), 1)` */
  function Average(lengths: seq<nat>): real {
    Sum(lengths) as real / (if |lengths| > 1 then |lengths| else 1) as real
  }

  function TokenizedDocs(chunks: seq<Chunker.ChunkRecord>): (r: seq<seq<string>>)
    ensures |r| == |chunks|
  {
    if chunks == [] then []
    else TokenizedDocs(chunks[..|chunks| - 1]) + [TokensOf(chunks[|chunks| - 1].text)]
  }

  function TermFreqsOf(docs: seq<seq<string>>): (r: seq<map<string, nat>>)
    ensures |r| == |docs|
  {
    if docs == [] then [] else TermFreqsOf(docs[..|docs| - 1]) + [TermFreqs(docs[|docs| - 1])]
  }

  function DocLengths(docs: seq<seq<string>>): (r: seq<nat>)
    ensures |r| == |docs|
  {
    if docs == [] then [] else DocLengths(docs[..|docs| - 1]) + [|docs[|docs| - 1]|]
  }

  /** `doc_freqs`: one count per document for each distinct term it holds. */
  function DocFreqs(docs: seq<seq<string>>): map<string, nat> {
    if docs == [] then map[]
    else BumpAll(DocFreqs(docs[..|docs| - 1]), Distinct(docs[|docs| - 1]))
  }

  /** The statistics of a filing's chunks, as `ingest` computes them. */
  function Index(chunks: seq<Chunker.ChunkRecord>): IndexData {
    var docs := TokenizedDocs(chunks);
    var lengths := DocLengths(docs);
    IndexData(chunks, docs, TermFreqsOf(docs), DocFreqs(docs), lengths, Average(lengths), |chunks|)
  }

  lemma {:induction false} TokenizedDocsAt(chunks: seq<Chunker.ChunkRecord>, i: nat)
    requires i < |chunks|
    ensures TokenizedDocs(chunks)[i] == TokensOf(chunks[i].text)
  {
    if i < |chunks| - 1 {
      TokenizedDocsAt(chunks[..|chunks| - 1], i);
    }
  }

  lemma {:induction false} TermFreqsAt(docs: seq<seq<string>>, i: nat)
    requires i < |docs|
    ensures TermFreqsOf(docs)[i] == TermFreqs(docs[i])
  {
    if i < |docs| - 1 {
      TermFreqsAt(docs[..|docs| - 1], i);
    }
  }

  lemma {:induction false} DocLengthsAt(docs: seq<seq<string>>, i: nat)
    requires i < |docs|
    ensures DocLengths(docs)[i] == |docs[i]|
  {
    if i < |docs| - 1 {
      DocLengthsAt(docs[..|docs| - 1], i);
    }
  }

  /** `doc_freqs[t]` is the number of documents holding `t`, and only such terms are recorded. */
  lemma {:induction false} DocFreqsCount(docs: seq<seq<string>>, t: string)
    ensures t in DocFreqs(docs) <==> DocCount(docs, t) > 0
    ensures Get(DocFreqs(docs), t) == DocCount(docs, t)
  {
    if docs != [] {
      var last := docs[|docs| - 1];
      DocFreqsCount(docs[..|docs| - 1], t);
      BumpAllCount(DocFreqs(docs[..|docs| - 1]), Distinct(last), t);
      DistinctOnce(last, t);
    }
  }

  /** A distinct sequence holds each of its terms once. */
  lemma DistinctOnce(tokens: seq<string>, t: string)
    ensures multiset(Distinct(tokens))[t] == if t in tokens then 1 else 0
  {
    OrderedMaps.OnceEach(Distinct(tokens), t);
  }

  lemma {:induction false} DocCountPositive(docs: seq<seq<string>>, t: string, i: nat)
    requires i < |docs| && t in docs[i]
    ensures DocCount(docs, t) > 0
  {
    if i < |docs| - 1 {
      DocCountPositive(docs[..|docs| - 1], t, i);
    }
  }

  /**
   * The statistics of `ingest`: `num_docs` is the number of chunks, chunk `i`'s length is
   * its number of terms, and a term's document frequency counts the chunks holding it,
   * so it lies between 1 and `num_docs`; every term of every chunk is recorded.
   */
  lemma IndexStats(chunks: seq<Chunker.ChunkRecord>)
    ensures var data := Index(chunks);
      && data.numDocs == |chunks| == |data.docLengths| == |data.termFreqs|
      && (forall i | 0 <= i < |chunks| :: data.docLengths[i] == |TokensOf(chunks[i].text)|)
      && (forall t | t in data.docFreqs :: 1 <= data.docFreqs[t] <= data.numDocs)
      && (forall t | t in data.docFreqs :: data.docFreqs[t] == DocCount(data.tokenizedDocs, t))
      && (forall i, t | 0 <= i < |chunks| && t in data.tokenizedDocs[i] :: t in data.docFreqs)
  {
    var data := Index(chunks);
    var docs := data.tokenizedDocs;
    forall i | 0 <= i < |chunks| ensures data.docLengths[i] == |TokensOf(chunks[i].text)| {
      TokenizedDocsAt(chunks, i);
      DocLengthsAt(docs, i);
    }
    forall t | t in data.docFreqs ensures 1 <= data.docFreqs[t] <= data.numDocs {
      DocFreqsCount(docs, t);
    }
    forall t | t in data.docFreqs ensures data.docFreqs[t] == DocCount(docs, t) {
      DocFreqsCount(docs, t);
    }
    forall i, t | 0 <= i < |chunks| && t in docs[i] ensures t in data.docFreqs {
      DocCountPositive(docs, t, i);
      DocFreqsCount(docs, t);
    }
  }

  /** `for term in tf.keys(): doc_freqs[term] += 1` */
  method CountTerms(docFreqs: map<string, nat>, terms: seq<string>) returns (r: map<string, nat>)
    ensures r == BumpAll(docFreqs, terms)
  {
    r := docFreqs;
    for j := 0 to |terms|
      invariant r == BumpAll(docFreqs, terms[..j])
    {
      assert terms[..j + 1][..j] == terms[..j];
      r := r[terms[j] := Get(r, terms[j]) + 1];
    }
    assert terms[..|terms|] == terms;
  }

  /** One chunk of the statistics loop: each statistic gains the chunk's entry. */
  lemma IndexStep(chunks: seq<Chunker.ChunkRecord>, i: nat, docs: seq<seq<string>>,
                  tfs: seq<map<string, nat>>, lens: seq<nat>, dfs: map<string, nat>,
                  tokens: seq<string>, tf: map<string, nat>, dfs2: map<string, nat>)
    requires i < |chunks| && docs == TokenizedDocs(chunks[..i])
    requires tfs == TermFreqsOf(docs) && lens == DocLengths(docs) && dfs == DocFreqs(docs)
    requires tokens == TokensOf(chunks[i].text) && tf == TermFreqs(tokens)
    requires dfs2 == BumpAll(dfs, Distinct(tokens))
    ensures docs + [tokens] == TokenizedDocs(chunks[..i + 1])
    ensures tfs + [tf] == TermFreqsOf(docs + [tokens])
    ensures lens + [|tokens|] == DocLengths(docs + [tokens])
    ensures dfs2 == DocFreqs(docs + [tokens])
  {
    assert chunks[..i + 1][..i] == chunks[..i];
    assert (docs + [tokens])[..i] == docs;
  }

  /** The statistics loop of `ingest`. */
  method BuildIndex(chunks: seq<Chunker.ChunkRecord>) returns (data: IndexData)
    ensures data == Index(chunks)
  {
    var docFreqs: map<string, nat> := map[];
    var docLengths: seq<nat> := [];
    var tokenizedDocs: seq<seq<string>> := [];
    var termFreqs: seq<map<string, nat>> := [];
    for i := 0 to |chunks|
      invariant tokenizedDocs == TokenizedDocs(chunks[..i])
      invariant termFreqs == TermFreqsOf(tokenizedDocs)
      invariant docLengths == DocLengths(tokenizedDocs)
      invariant docFreqs == DocFreqs(tokenizedDocs)
    {
      var tokens := Tokenize(chunks[i].text);
      var tf := TermFreqs(tokens);
      ghost var before := docFreqs;
      docFreqs := CountTerms(docFreqs, Distinct(tokens));
      IndexStep(chunks, i, tokenizedDocs, termFreqs, docLengths, before, tokens, tf, docFreqs);
      tokenizedDocs := tokenizedDocs + [tokens];
      docLengths := docLengths + [|tokens|];
      termFreqs := termFreqs + [tf];
    }
    assert chunks[..|chunks|] == chunks;
    data := IndexData(chunks, tokenizedDocs, termFreqs, docFreqs, docLengths,
                      Average(docLengths), |chunks|);
  }

  /** A document with a term has a positive length, hence the average is positive. */
  lemma ScorableIndex(chunks: seq<Chunker.ChunkRecord>, i: nat)
    requires i < |chunks|
    ensures var data := Index(chunks);
      && i < |data.termFreqs| && i < |data.docLengths|
      && (data.termFreqs[i] != map[] ==> data.avgDocLen > 0.0)
      && (forall t | t in data.termFreqs[i] :: data.termFreqs[i][t] >= 1)
  {
    var data := Index(chunks);
    var docs := data.tokenizedDocs;
    TermFreqsAt(docs, i);
    DocLengthsAt(docs, i);
    forall t | t in data.termFreqs[i] ensures data.termFreqs[i][t] >= 1 {
      TermFreqsCount(docs[i], t);
    }
    if data.termFreqs[i] != map[] {
      var t :| t in data.termFreqs[i];
      TermFreqsCount(docs[i], t);
      SumAtLeast(data.docLengths, i);
      PositiveAverage(data.docLengths);
    }
  }

  lemma PositiveAverage(lengths: seq<nat>)
    requires Sum(lengths) >= 1
    ensures Average(lengths) > 0.0
  {
  }

  lemma {:induction false} SumAtLeast(xs: seq<nat>, i: nat)
    requires i < |xs|
    ensures Sum(xs) >= xs[i]
  {
    if i < |xs| - 1 {
      SumAtLeast(xs[..|xs| - 1], i);
    }
  }

  // ---------------------------------------------------------------------------
  // Scoring

  /** The length normalisation `k1 * (1 - b + b * doc_len / avg_len)` is never negative. */
  lemma LengthNorm(docLen: nat, avgLen: real, k1: real, b: real)
    requires avgLen > 0.0 && k1 >= 0.0 && 0.0 <= b <= 1.0
    ensures k1 * (1.0 - b + b * (docLen as real / avgLen)) >= 0.0
  {
    var ratio := docLen as real / avgLen;
    assert ratio * avgLen == docLen as real;
    assert ratio >= 0.0;
    assert b * ratio >= 0.0;
    var x := 1.0 - b + b * ratio;
    assert x >= 0.0;
    assert k1 * x >= 0.0;
  }

  /** The BM25 contribution of one query term present in a document, given `log`. */
  function TermScore(tf: nat, df: nat, docLen: nat, avgLen: real, numDocs: nat,
                     k1: real, b: real, log: real -> real): real
    requires avgLen > 0.0 && k1 >= 0.0 && 0.0 <= b <= 1.0 && tf >= 1
  {
    var idf := log((numDocs as real - df as real + 0.5) / (df as real + 0.5) + 1.0);
    var ratio := docLen as real / avgLen;
    LengthNorm(docLen, avgLen, k1, b);
    var denominator := tf as real + k1 * (1.0 - b + b * ratio);
    idf * (tf as real * (k1 + 1.0) / denominator)
  }

  /** The sum over the query terms (repeats included) that occur in document `i`. */
  function DocScore(query: seq<string>, data: IndexData, i: nat, k1: real, b: real, log: real -> real): real
    requires i < |data.termFreqs| && i < |data.docLengths|
    requires k1 >= 0.0 && 0.0 <= b <= 1.0
    requires data.termFreqs[i] != map[] ==> data.avgDocLen > 0.0
    requires forall t | t in data.termFreqs[i] :: data.termFreqs[i][t] >= 1
  {
    if query == [] then 0.0
    else
      var t := query[|query| - 1];
      var tfs := data.termFreqs[i];
      DocScore(query[..|query| - 1], data, i, k1, b, log)
        + (if t in tfs
           then TermScore(tfs[t], Get(data.docFreqs, t), data.docLengths[i], data.avgDocLen, data.numDocs, k1, b, log)
           else 0.0)
  }

  /** A document containing none of the query terms scores 0. */
  lemma {:induction false} DocScoreNoTerm(query: seq<string>, data: IndexData, i: nat, k1: real, b: real, log: real -> real)
    requires i < |data.termFreqs| && i < |data.docLengths|
    requires k1 >= 0.0 && 0.0 <= b <= 1.0
    requires data.termFreqs[i] != map[] ==> data.avgDocLen > 0.0
    requires forall t | t in data.termFreqs[i] :: data.termFreqs[i][t] >= 1
    requires forall t | t in query :: t !in data.termFreqs[i]
    ensures DocScore(query, data, i, k1, b, log) == 0.0
  {
    if query != [] {
      DocScoreNoTerm(query[..|query| - 1], data, i, k1, b, log);
    }
  }

  /** The loop of `score_all`: `_bm25_score` for every document, in order. */
  method ScoreDocs(query: seq<string>, data: IndexData, k1: real, b: real, log: real -> real)
    returns (scores: seq<real>)
    requires Scorable(data) && k1 >= 0.0 && 0.0 <= b <= 1.0
    ensures |scores| == data.numDocs
    ensures forall i | 0 <= i < data.numDocs :: scores[i] == DocScore(query, data, i, k1, b, log)
  {
    scores := [];
    for i := 0 to data.numDocs
      invariant |scores| == i
      invariant forall j | 0 <= j < i :: scores[j] == DocScore(query, data, j, k1, b, log)
    {
      var score := Bm25Score(query, data, i, k1, b, log);
      scores := scores + [score];
    }
  }

  /** What scoring needs of stored statistics: one entry per chunk, positive counts, and a positive average length whenever some chunk has a term. */
  predicate Scorable(data: IndexData) {
    && |data.chunks| == data.numDocs
    && |data.termFreqs| == data.numDocs && |data.docLengths| == data.numDocs
    && (forall i | 0 <= i < data.numDocs :: data.termFreqs[i] != map[] ==> data.avgDocLen > 0.0)
    && (forall i, t | 0 <= i < data.numDocs && t in data.termFreqs[i] :: data.termFreqs[i][t] >= 1)
  }

  lemma IndexScorable(chunks: seq<Chunker.ChunkRecord>)
    ensures Scorable(Index(chunks))
  {
    forall i | 0 <= i < |chunks| {
      ScorableIndex(chunks, i);
    }
  }

  /** `_bm25_score`: the accumulation loop over the query terms. */
  method Bm25Score(query: seq<string>, data: IndexData, i: nat, k1: real, b: real, log: real -> real)
    returns (score: real)
    requires i < |data.termFreqs| && i < |data.docLengths|
    requires k1 >= 0.0 && 0.0 <= b <= 1.0
    requires data.termFreqs[i] != map[] ==> data.avgDocLen > 0.0
    requires forall t | t in data.termFreqs[i] :: data.termFreqs[i][t] >= 1
    ensures score == DocScore(query, data, i, k1, b, log)
  {
    score := 0.0;
    var tfs := data.termFreqs[i];
    for j := 0 to |query|
      invariant score == DocScore(query[..j], data, i, k1, b, log)
    {
      assert query[..j + 1][..j] == query[..j];
      var t := query[j];
      if t !in tfs {
        continue;
      }
      var df := Get(data.docFreqs, t);
      score := score + TermScore(tfs[t], df, data.docLengths[i], data.avgDocLen, data.numDocs, k1, b, log);
    }
    assert query[..|query|] == query;
  }

  // ---------------------------------------------------------------------------
  // The index

  class Bm25Index {
    var store: OrderedMap<IndexData>
    const maxFilings: nat
    /** Term-frequency saturation and length normalisation. */
    const k1: real
    const b: real

    ghost predicate Valid()
      reads this
    {
      && store.Valid() && 1 <= maxFilings && |store.keys| <= maxFilings
      && k1 >= 0.0 && 0.0 <= b <= 1.0
      && forall id | id in store.values :: Scorable(store.values[id])
    }

    constructor (maxFilings: nat, k1: real, b: real)
      requires maxFilings >= 1 && k1 >= 0.0 && 0.0 <= b <= 1.0
      ensures Valid() && store.keys == []
      ensures this.maxFilings == maxFilings && this.k1 == k1 && this.b == b
    {
      this.maxFilings := maxFilings;
      this.k1 := k1;
      this.b := b;
      store := Empty();
    }

    /**
     * `ingest`: at capacity the oldest filing goes first; then the filing's statistics are
     * stored and it becomes the most recent.
     */
    method Ingest(filingId: string, chunks: seq<Chunker.ChunkRecord>)
      requires Valid()
      modifies this
      ensures Valid()
      ensures store.keys == InsertOrder(old(store.keys), maxFilings, filingId)
      ensures store.values ==
        (if |old(store.keys)| >= maxFilings then old(store.values) - {old(store.keys)[0]}
         else old(store.values))[filingId := Index(chunks)]
      ensures store == old(store).Insert(maxFilings, filingId, Index(chunks))
    {
      var data := BuildIndex(chunks);
      IndexScorable(chunks);
      var next := store.Insert(maxFilings, filingId, data);
      forall id | id in next.values ensures Scorable(next.values[id]) {
        if id != filingId {
          assert next.values[id] == store.values[id];
        }
      }
      store := next;
    }

    /**
     * What `score_all` returns: nothing for an unknown filing, otherwise the BM25 score of
     * every chunk against the terms of the expanded query, in chunk order.
     */
    function Scores(filingId: string, query: string, log: real -> real): seq<real>
      reads this
      requires Valid()
    {
      if filingId !in store.values then []
      else
        var data := store.values[filingId];
        var terms := QueryTerms(query);
        seq(data.numDocs, i requires 0 <= i < data.numDocs => DocScore(terms, data, i, k1, b, log))
    }

    /**
     * `score_all` yields `[]` for an unknown filing (and for a known filing without
     * chunks), one score per chunk otherwise,
     * all zero when the expanded query has no terms, and zero for every chunk containing
     * none of the terms.
     */
    lemma ScoresFacts(filingId: string, query: string, log: real -> real)
      requires Valid()
      ensures var r := Scores(filingId, query, log);
        && (filingId !in store.values ==> r == [])
        && (filingId in store.values ==>
             var data := store.values[filingId];
             && |r| == data.numDocs == |data.chunks|
             && (QueryTerms(query) == [] ==> forall i | 0 <= i < |r| :: r[i] == 0.0)
             && forall i | 0 <= i < |r| ::
                  (forall t | t in QueryTerms(query) :: t !in data.termFreqs[i]) ==> r[i] == 0.0)
    {
      if filingId in store.values {
        var data := store.values[filingId];
        var r := Scores(filingId, query, log);
        forall i | 0 <= i < |r| && forall t | t in QueryTerms(query) :: t !in data.termFreqs[i]
          ensures r[i] == 0.0
        {
          DocScoreNoTerm(QueryTerms(query), data, i, k1, b, log);
        }
      }
    }

    /** `score_all` */
    method ScoreAll(filingId: string, query: string, log: real -> real) returns (scores: seq<real>)
      requires Valid()
      ensures scores == Scores(filingId, query, log)
    {
      if filingId !in store.values {
        return [];
      }
      var data := store.values[filingId];
      assert Scorable(data);
      var expanded := ExpandQuery(query);
      var queryTokens := Tokenize(expanded);
      if queryTokens == [] {
        scores := seq(data.numDocs, _ => 0.0);
      } else {
        scores := ScoreDocs(queryTokens, data, k1, b, log);
      }
      assert |scores| == |Scores(filingId, query, log)|;
    }

    /** `has_filing` */
    function HasFiling(filingId: string): (r: bool)
      reads this
      requires Valid()
      ensures r <==> filingId in store.keys
    {
      filingId in store.values
    }

    /** `evict`: removes only this filing; absent ids leave the index unchanged. */
    method Evict(filingId: string)
      requires Valid()
      modifies this
      ensures Valid()
      ensures store == old(store).Delete(filingId)
      ensures store.keys == Without(old(store.keys), filingId)
      ensures store.values == old(store.values) - {filingId}
    {
      if filingId in store.values {
        store := store.Delete(filingId);
      } else {
        assert store.values - {filingId} == store.values;
      }
    }
  }
}
