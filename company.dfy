/**
 * The company lookup routes (`routes/company.py`): CIK padding, the EDGAR document URL of
 * a filing, the whitelist filter over the parallel arrays of a submissions record, and the
 * CIK check of the search-by-CIK route. The HTTP requests to EDGAR are not modelled; the
 * submissions record they return is a parameter.
 */
module Company {
  import opened Text
  import opened Wrappers
  import ExhibitFetcher

  const CIK_WIDTH: nat := 10

  /** `cik.zfill(10)`: zeros go after a leading sign, and a long enough string is left alone. */
  function NormalizeCik(cik: string): string {
    if |cik| >= CIK_WIDTH then cik
    else if cik != [] && (cik[0] == '+' || cik[0] == '-') then [cik[0]] + Repeat('0', CIK_WIDTH - |cik|) + cik[1..]
    else Repeat('0', CIK_WIDTH - |cik|) + cik
  }

  lemma {:induction false} DigitsToNatZeros(k: nat)
    ensures AllDigits(Repeat('0', k)) && DigitsToNat(Repeat('0', k)) == 0
  {
    if k > 0 {
      DigitsToNatZeros(k - 1);
      assert Repeat('0', k)[..k - 1] == Repeat('0', k - 1);
    }
  }

  lemma {:induction false} DigitsToNatLeadingZeros(k: nat, s: string)
    requires AllDigits(s)
    ensures AllDigits(Repeat('0', k) + s)
    ensures DigitsToNat(Repeat('0', k) + s) == DigitsToNat(s)
    decreases |s|
  {
    DigitsToNatZeros(k);
    if s != [] {
      DigitsToNatLeadingZeros(k, s[..|s| - 1]);
      assert (Repeat('0', k) + s)[..|Repeat('0', k) + s| - 1] == Repeat('0', k) + s[..|s| - 1];
    } else {
      assert Repeat('0', k) + s == Repeat('0', k);
    }
  }

  /**
   * Padding makes a CIK at least ten characters long and keeps it as the tail of the
   * result; a CIK of digits stays a CIK of digits with the same value.
   */
  lemma NormalizeCikFacts(cik: string)
    ensures |NormalizeCik(cik)| == if |cik| >= CIK_WIDTH then |cik| else CIK_WIDTH
    ensures AllDigits(cik) ==> EndsWith(NormalizeCik(cik), cik)
    ensures AllDigits(cik) ==> AllDigits(NormalizeCik(cik)) && DigitsToNat(NormalizeCik(cik)) == DigitsToNat(cik)
    ensures |cik| >= CIK_WIDTH ==> NormalizeCik(cik) == cik
  {
    if AllDigits(cik) && |cik| < CIK_WIDTH {
      var r := NormalizeCik(cik);
      if cik != [] {
        assert !(cik[0] == '+' || cik[0] == '-') by {
          assert IsDigit(cik[0]);
        }
      }
      assert r == Repeat('0', CIK_WIDTH - |cik|) + cik;
      assert r[|r| - |cik|..] == cik;
      DigitsToNatLeadingZeros(CIK_WIDTH - |cik|, cik);
    }
  }

  /** `build_filing_url(cik, accession_number, primary_document)` */
  function BuildFilingUrl(cik: string, accession: string, document: string): string {
    ExhibitFetcher.ARCHIVE_URL + NormalizeCik(cik) + "/" + RemoveChar(accession, '-') + "/" + document
  }

  /**
   * The exhibit service reads back, from a document URL built here, the padded CIK and
   * the accession number without its dashes.
   */
  lemma FilingUrlParsesBack(cik: string, accession: string, document: string)
    requires cik != [] && AllDigits(cik)
    requires RemoveChar(accession, '-') != [] && AllDigits(RemoveChar(accession, '-'))
    ensures ExhibitFetcher.ParseCikAccession(BuildFilingUrl(cik, accession, document))
      == Some((NormalizeCik(cik), RemoveChar(accession, '-')))
  {
    var c := NormalizeCik(cik);
    var a := RemoveChar(accession, '-');
    NormalizeCikFacts(cik);
    var host := ExhibitFetcher.SEC_HOST;
    var url := BuildFilingUrl(cik, accession, document);
    assert url == host + ExhibitFetcher.ARCHIVE_PATH + c + "/" + a + "/" + document;
    NoEarlierMatch(url);
    ExhibitFetcher.UrlMatchOf(host, c, a, document);
    assert ExhibitFetcher.UrlMatchAt(url, 12) == Some((c, a));
  }

  /** The archive path cannot begin inside `https://www.`. */
  lemma NoEarlierMatch(url: string)
    requires StartsWith(url, ExhibitFetcher.SEC_HOST)
    ensures ExhibitFetcher.ParseCikAccession(url) == ExhibitFetcher.SearchUrl(url, 12)
  {
    var p := ExhibitFetcher.ARCHIVE_PATH;
    forall i | 0 <= i < 12 ensures !OccursAt(url, p, i) {
      assert url[..12] == ExhibitFetcher.SEC_HOST;
      if i + |p| <= |url| {
        assert url[i..i + |p|][0] == url[i];
        assert url[i..i + |p|][1] == url[i + 1];
      }
    }
    SearchFrom(url, 0, 12);
  }

  lemma {:induction false} SearchFrom(url: string, i: nat, j: nat)
    requires i <= j <= |url|
    requires forall k | i <= k < j :: !OccursAt(url, ExhibitFetcher.ARCHIVE_PATH, k)
    ensures ExhibitFetcher.SearchUrl(url, i) == ExhibitFetcher.SearchUrl(url, j)
    decreases j - i
  {
    if i < j {
      SearchFrom(url, i + 1, j);
    }
  }

  // ---------------------------------------------------------------------------
  // extract_filings

  /** The form types a filing list keeps; every other form is administrative noise. */
  const ALLOWED_FORMS: set<string> := {
    "10-K", "10-K/A", "10-Q", "10-Q/A",
    "8-K", "8-K/A",
    "DEF 14A", "DEFA14A",
    "S-1", "S-1/A", "S-3", "S-3/A", "S-4", "S-4/A", "F-1", "F-1/A",
    "4", "13F-HR", "13F-HR/A", "SC 13G", "SC 13G/A", "SC 13D", "SC 13D/A",
    "6-K", "6-K/A",
    "20-F", "20-F/A"
  }

  /**
   * The parallel arrays of `filings.recent` in a submissions record; a missing key is an
   * empty array.
   */
  datatype Recent = Recent(
    accessionNumbers: seq<string>,
    forms: seq<string>,
    filingDates: seq<string>,
    primaryDocuments: seq<string>,
    descriptions: seq<string>)

  datatype Filing = Filing(form: string, filingDate: string, description: string, url: string, accessionNumber: string)

  /** `xs[i] if i < len(xs) else ""` */
  function FieldAt(xs: seq<string>, i: nat): string {
    if i < |xs| then xs[i] else ""
  }

  /** The filing the `i`-th accession number stands for, whatever its form. */
  function FilingAt(recent: Recent, cik: string, i: nat): Filing
    requires i < |recent.accessionNumbers|
  {
    var form := FieldAt(recent.forms, i);
    var description := if FieldAt(recent.descriptions, i) != "" then recent.descriptions[i] else form;
    var accession := recent.accessionNumbers[i];
    Filing(form, FieldAt(recent.filingDates, i), description,
      BuildFilingUrl(cik, accession, FieldAt(recent.primaryDocuments, i)), accession)
  }

  predicate Kept(recent: Recent, i: nat) {
    FieldAt(recent.forms, i) in ALLOWED_FORMS
  }

  /** The positions, among the first `n`, of the filings of a whitelisted form. */
  function KeptIndices(recent: Recent, n: nat): (r: seq<nat>)
    ensures |r| <= n
  {
    if n == 0 then []
    else KeptIndices(recent, n - 1) + (if Kept(recent, n - 1) then [n - 1] else [])
  }

  /** The filings at those positions, in order. */
  function AllowedFilings(recent: Recent, cik: string, n: nat): (r: seq<Filing>)
    requires n <= |recent.accessionNumbers|
    ensures |r| <= n
  {
    if n == 0 then []
    else AllowedFilings(recent, cik, n - 1) + (if Kept(recent, n - 1) then [FilingAt(recent, cik, n - 1)] else [])
  }

  /** How many filings a limit lets through: the check comes after the append, so at least one. */
  function Quota(available: nat, limit: int): (k: nat)
    ensures k <= available
    ensures available > 0 ==> k > 0
    ensures k == available || k == if limit < 1 then 1 else limit
  {
    var cap := if limit < 1 then 1 else limit;
    if available < cap then available else cap
  }

  /** `extract_filings(submissions, cik, limit)` */
  method ExtractFilings(recent: Recent, cik: string, limit: int) returns (filings: seq<Filing>)
    ensures var all := AllowedFilings(recent, cik, |recent.accessionNumbers|);
      filings == all[..Quota(|all|, limit)]
  {
    var n := |recent.accessionNumbers|;
    filings := [];
    var i := 0;
    while i < n
      invariant i <= n
      invariant filings == AllowedFilings(recent, cik, i)
      invariant filings == [] || |filings| < limit
    {
      var form := FieldAt(recent.forms, i);
      if form !in ALLOWED_FORMS {
        i := i + 1;
        continue;
      }
      var description := "";
      if i < |recent.descriptions| && recent.descriptions[i] != "" {
        description := recent.descriptions[i];
      } else {
        description := form;
      }
      var document := FieldAt(recent.primaryDocuments, i);
      filings := filings + [Filing(form, FieldAt(recent.filingDates, i), description,
        BuildFilingUrl(cik, recent.accessionNumbers[i], document), recent.accessionNumbers[i])];
      assert filings == AllowedFilings(recent, cik, i + 1);
      if |filings| >= limit {
        AllowedPrefix(recent, cik, i + 1, n);
        return;
      }
      i := i + 1;
    }
  }

  /** The filings found up to `i` begin the filings found up to `n`. */
  lemma {:induction false} AllowedPrefix(recent: Recent, cik: string, i: nat, n: nat)
    requires i <= n <= |recent.accessionNumbers|
    ensures AllowedFilings(recent, cik, i) <= AllowedFilings(recent, cik, n)
    decreases n - i
  {
    if i < n {
      AllowedPrefix(recent, cik, i, n - 1);
    }
  }

  /**
   * The filter keeps exactly the whitelisted positions, in increasing order, and the
   * `p`-th filing kept is the filing of the `p`-th kept position.
   */
  lemma AllowedFilingsFacts(recent: Recent, cik: string, n: nat)
    requires n <= |recent.accessionNumbers|
    ensures var fs := AllowedFilings(recent, cik, n);
      var ks := KeptIndices(recent, n);
      && |fs| == |ks|
      && (forall p | 0 <= p < |ks| :: ks[p] < n && Kept(recent, ks[p]) && fs[p] == FilingAt(recent, cik, ks[p]))
      && (forall p, q | 0 <= p < q < |ks| :: ks[p] < ks[q])
      && (forall k | 0 <= k < n && Kept(recent, k) :: k in ks)
  {
    AllowedFilingsAt(recent, cik, n);
    KeptIndicesIncreasing(recent, n);
    KeptIndicesComplete(recent, n);
  }

  lemma {:induction false} AllowedFilingsAt(recent: Recent, cik: string, n: nat)
    requires n <= |recent.accessionNumbers|
    ensures var fs := AllowedFilings(recent, cik, n);
      var ks := KeptIndices(recent, n);
      && |fs| == |ks|
      && (forall p | 0 <= p < |ks| :: ks[p] < n && Kept(recent, ks[p]) && fs[p] == FilingAt(recent, cik, ks[p]))
  {
    if n > 0 {
      AllowedFilingsAt(recent, cik, n - 1);
      var fs0 := AllowedFilings(recent, cik, n - 1);
      var ks0 := KeptIndices(recent, n - 1);
      if Kept(recent, n - 1) {
        var f := FilingAt(recent, cik, n - 1);
        assert AllowedFilings(recent, cik, n) == fs0 + [f];
        assert KeptIndices(recent, n) == ks0 + [n - 1];
        forall p | 0 <= p < |ks0| ensures (fs0 + [f])[p] == fs0[p] && (ks0 + [n - 1])[p] == ks0[p] { }
      } else {
        assert AllowedFilings(recent, cik, n) == fs0;
        assert KeptIndices(recent, n) == ks0;
      }
    }
  }

  lemma {:induction false} KeptIndicesIncreasing(recent: Recent, n: nat)
    ensures forall p | 0 <= p < |KeptIndices(recent, n)| :: KeptIndices(recent, n)[p] < n
    ensures forall p, q | 0 <= p < q < |KeptIndices(recent, n)| :: KeptIndices(recent, n)[p] < KeptIndices(recent, n)[q]
  {
    if n > 0 {
      KeptIndicesIncreasing(recent, n - 1);
      var ks0 := KeptIndices(recent, n - 1);
      if Kept(recent, n - 1) {
        assert KeptIndices(recent, n) == ks0 + [n - 1];
      } else {
        assert KeptIndices(recent, n) == ks0;
      }
    }
  }

  lemma {:induction false} KeptIndicesComplete(recent: Recent, n: nat)
    ensures forall k | 0 <= k < n && Kept(recent, k) :: k in KeptIndices(recent, n)
  {
    if n > 0 {
      KeptIndicesComplete(recent, n - 1);
      var ks0 := KeptIndices(recent, n - 1);
      if Kept(recent, n - 1) {
        assert KeptIndices(recent, n) == ks0 + [n - 1];
      } else {
        assert KeptIndices(recent, n) == ks0;
      }
    }
  }

  /**
   * A kept filing: its form is whitelisted, its description is never empty (the
   * document's own description, or else the form), and its URL reads back to the padded
   * CIK and the accession number without dashes.
   */
  lemma KeptFilingFacts(recent: Recent, cik: string, i: nat)
    requires i < |recent.accessionNumbers| && Kept(recent, i)
    ensures var f := FilingAt(recent, cik, i);
      && f.form in ALLOWED_FORMS && f.form == FieldAt(recent.forms, i)
      && f.accessionNumber == recent.accessionNumbers[i]
      && f.description != ""
      && (f.description == f.form <==> FieldAt(recent.descriptions, i) == "" || FieldAt(recent.descriptions, i) == f.form)
      && (cik != [] && AllDigits(cik) && RemoveChar(f.accessionNumber, '-') != [] && AllDigits(RemoveChar(f.accessionNumber, '-')) ==>
            ExhibitFetcher.ParseCikAccession(f.url) == Some((NormalizeCik(cik), RemoveChar(f.accessionNumber, '-'))))
  {
    var f := FilingAt(recent, cik, i);
    assert "" !in ALLOWED_FORMS;
    if cik != [] && AllDigits(cik) && RemoveChar(f.accessionNumber, '-') != [] && AllDigits(RemoveChar(f.accessionNumber, '-')) {
      FilingUrlParsesBack(cik, f.accessionNumber, FieldAt(recent.primaryDocuments, i));
    }
  }

  /**
   * What a filing list holds: at most `limit` filings (one when `limit` is below one),
   * all of them when fewer are whitelisted, each the filing of a whitelisted position,
   * positions in the input's order.
   */
  lemma ExtractedFacts(recent: Recent, cik: string, limit: int)
    ensures |AllowedFilings(recent, cik, |recent.accessionNumbers|)| == |KeptIndices(recent, |recent.accessionNumbers|)|
    ensures var all := AllowedFilings(recent, cik, |recent.accessionNumbers|);
      var fs := all[..Quota(|all|, limit)];
      var ks := KeptIndices(recent, |recent.accessionNumbers|);
      && |fs| <= (if limit < 1 then 1 else limit)
      && (|all| <= limit ==> fs == all)
      && (forall p | 0 <= p < |fs| :: ks[p] < |recent.accessionNumbers| && Kept(recent, ks[p]) && fs[p] == FilingAt(recent, cik, ks[p]))
      && (forall p, q | 0 <= p < q < |fs| :: ks[p] < ks[q])
  {
    AllowedFilingsFacts(recent, cik, |recent.accessionNumbers|);
  }

  // ---------------------------------------------------------------------------
  // search_by_cik

  /**
   * `re.match(r'^\d+$', cik)` as written: one or more digits from the start, then the end
   * of the string, where `$` also matches just before a final newline.
   */
  predicate CikMatchesAsWritten(cik: string) {
    var k := DigitRun(cik);
    k > 0 && (k == |cik| || (k + 1 == |cik| && cik[k] == '\n'))
  }

  /** What the check is meant to accept: a CIK of digits only. */
  predicate CikValid(cik: string) {
    cik != [] && AllDigits(cik)
  }

  /** The pattern accepts a CIK with a trailing newline, which is not numeric. */
  lemma NewlineCikAccepted()
    ensures CikMatchesAsWritten("123\n") && !CikValid("123\n")
  {
    var s := "123\n";
    assert s[1..] == "23\n" && s[2..] == "3\n" && s[3..] == "\n";
    assert DigitRun(s[3..]) == 0;
    assert !IsDigit(s[3]);
  }

  /** The pattern accepts the numeric CIKs, and those followed by one newline, and nothing else. */
  lemma CikMatchFacts(cik: string)
    ensures CikMatchesAsWritten(cik) <==>
      CikValid(cik) || (|cik| >= 2 && cik[|cik| - 1] == '\n' && CikValid(cik[..|cik| - 1]))
  {
    var k := DigitRun(cik);
    if |cik| >= 2 && cik[|cik| - 1] == '\n' && CikValid(cik[..|cik| - 1]) {
      assert AllDigits(cik[..|cik| - 1][..k]);
    }
  }

  datatype Submissions = Submissions(name: Option<string>, tickers: seq<string>, recent: Recent)

  datatype CompanyFilings = CompanyFilings(cik: string, name: string, ticker: Option<string>, filings: seq<Filing>)

  /**
   * `search_by_cik(cik, limit)`, with the CIK check as written
   * (`CikMatchesAsWritten`, which lets "123\n" through). The submissions
   * record EDGAR returns is a parameter, `None` for its 404 answer.
   */
  method SearchByCik(cik: string, fetched: Option<Submissions>, limit: int) returns (r: Result<CompanyFilings, HttpError>)
    ensures !CikMatchesAsWritten(cik) ==> r == Err(HttpError(400, "CIK must be numeric"))
    ensures CikMatchesAsWritten(cik) && fetched.None? ==> r == Err(HttpError(404, "Company with CIK " + cik + " not found"))
    ensures CikMatchesAsWritten(cik) && fetched.Some? ==>
      var sub := fetched.value;
      var all := AllowedFilings(sub.recent, cik, |sub.recent.accessionNumbers|);
      && r.Ok? && r.value.cik == cik
      && r.value.name == sub.name.GetOr("Unknown Company")
      && (r.value.ticker.Some? <==> sub.tickers != [])
      && (sub.tickers != [] ==> r.value.ticker.value == sub.tickers[0])
      && r.value.filings == all[..Quota(|all|, limit)]
  {
    if !CikMatchesAsWritten(cik) {
      return Err(HttpError(400, "CIK must be numeric"));
    }
    if fetched.None? {
      return Err(HttpError(404, "Company with CIK " + cik + " not found"));
    }
    var sub := fetched.value;
    var ticker := if sub.tickers != [] then Some(sub.tickers[0]) else None;
    var filings := ExtractFilings(sub.recent, cik, limit);
    r := Ok(CompanyFilings(cik, sub.name.GetOr("Unknown Company"), ticker, filings));
  }
}
