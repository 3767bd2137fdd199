/**
 * Exhibit discovery for an SEC filing (`exhibit_fetcher.py`): the CIK and accession number
 * read from the filing's URL, which files of the filing's `index.json` listing are
 * exhibits, the display name and description each exhibit gets, and the sorted result.
 * The HTTP request for `index.json` is not modelled: its decoded item list (or its failure)
 * is a parameter.
 */
module ExhibitFetcher {
  import opened Text
  import opened Wrappers

  datatype Exhibit = Exhibit(name: string, description: string, url: string)

  datatype ExhibitResult = ExhibitResult(exhibits: seq<Exhibit>, sourceUrl: string)

  /** One entry of `directory.item` in `index.json`, a missing field read as "". */
  datatype Item = Item(name: string, description: string)

  const ARCHIVE_PATH: string := "sec.gov/Archives/edgar/data/"
  const SEC_HOST: string := "https://www."
  const ARCHIVE_URL: string := SEC_HOST + ARCHIVE_PATH

  // ---------------------------------------------------------------------------
  // parse_cik_accession

  /**
   * The two groups of a match of `SEC_URL_PATTERN` starting at `i`. Each `\d+` is followed
   * by a `/`, which no digit is, so only the longest digit run can be followed by it.
   */
  function UrlMatchAt(s: string, i: nat): Option<(string, string)> {
    if OccursAt(s, ARCHIVE_PATH, i) then DigitGroups(s, i + |ARCHIVE_PATH|) else None
  }

  /** The two `(\d+)/` groups that follow the archive path, read from `a` on. */
  function DigitGroups(s: string, a: nat): Option<(string, string)> {
    match SlashedDigits(s, a)
    case None => None
    case Some(n) =>
      var b := a + n + 1;
      match SlashedDigits(s, b)
      case None => None
      case Some(m) => Some((s[a..a + n], s[b..b + m]))
  }

  /** One `(\d+)/` at `a`: the length of the digit run there, when it is non-empty and a slash follows. */
  function SlashedDigits(s: string, a: nat): (r: Option<nat>)
    ensures r.Some? ==> 0 < r.value && a + r.value < |s|
  {
    if a > |s| then None
    else
      var n := DigitRun(s[a..]);
      if n == 0 || a + n >= |s| || s[a + n] != '/' then None else Some(n)
  }

  /** The leftmost match from `i` on. */
  function SearchUrl(s: string, i: nat): Option<(string, string)>
    requires i <= |s|
    decreases |s| - i
  {
    if UrlMatchAt(s, i).Some? then UrlMatchAt(s, i)
    else if i == |s| then None
    else SearchUrl(s, i + 1)
  }

  /** `parse_cik_accession(source_url)` */
  function ParseCikAccession(url: string): Option<(string, string)> {
    SearchUrl(url, 0)
  }

  /** What a match at `i` says about the text there. */
  lemma UrlMatchFacts(s: string, i: nat)
    requires UrlMatchAt(s, i).Some?
    ensures var cik := UrlMatchAt(s, i).value.0;
      var acc := UrlMatchAt(s, i).value.1;
      && cik != [] && AllDigits(cik) && acc != [] && AllDigits(acc)
      && OccursAt(s, ARCHIVE_PATH + cik + "/" + acc + "/", i)
  {
    var a := i + |ARCHIVE_PATH|;
    var n := DigitRun(s[a..]);
    var b := a + n + 1;
    var m := DigitRun(s[b..]);
    assert UrlMatchAt(s, i) == DigitGroups(s, a) == Some((s[a..a + n], s[b..b + m]));
    assert s[a..][..n] == s[a..a + n];
    assert s[b..][..m] == s[b..b + m];
    UrlMatchOccurs(s, i, a, n, b, m);
  }

  lemma UrlMatchOccurs(s: string, i: nat, a: nat, n: nat, b: nat, m: nat)
    requires i + |ARCHIVE_PATH| == a && a + n + 1 == b && b + m < |s|
    requires OccursAt(s, ARCHIVE_PATH, i) && s[a + n] == '/' && s[b + m] == '/'
    ensures OccursAt(s, ARCHIVE_PATH + s[a..a + n] + "/" + s[b..b + m] + "/", i)
  {
    PathGroupsOccur(s, ARCHIVE_PATH, i, a, n, b, m);
  }

  /** `UrlMatchOccurs` for any path in place of the archive path. */
  lemma PathGroupsOccur(s: string, path: string, i: nat, a: nat, n: nat, b: nat, m: nat)
    requires i + |path| == a && a + n + 1 == b && b + m < |s|
    requires OccursAt(s, path, i) && s[a + n] == '/' && s[b + m] == '/'
    ensures OccursAt(s, path + s[a..a + n] + "/" + s[b..b + m] + "/", i)
  {
    var g1, g2 := s[a..a + n], s[b..b + m];
    assert OccursAt(s, g1, a) && OccursAt(s, "/", a + n) && OccursAt(s, g2, b) && OccursAt(s, "/", b + m);
    OccursConcat(s, path, g1, i);
    OccursConcat(s, path + g1, "/", i);
    OccursConcat(s, path + g1 + "/", g2, i);
    OccursConcat(s, path + g1 + "/" + g2, "/", i);
  }

  /** Two pieces standing side by side make their concatenation stand there. */
  lemma OccursConcat(s: string, p: string, q: string, i: nat)
    requires OccursAt(s, p, i) && OccursAt(s, q, i + |p|)
    ensures OccursAt(s, p + q, i)
  {
    assert s[i..i + |p + q|] == s[i..i + |p|] + s[i + |p|..i + |p| + |q|];
  }

  /** The converse: the archive path with two digit strings in it matches where it stands. */
  lemma UrlMatchOf(pre: string, cik: string, acc: string, rest: string)
    requires cik != [] && AllDigits(cik) && acc != [] && AllDigits(acc)
    ensures UrlMatchAt(pre + ARCHIVE_PATH + cik + "/" + acc + "/" + rest, |pre|) == Some((cik, acc))
  {
    UrlMatchOfString(pre + ARCHIVE_PATH + cik + "/" + acc + "/" + rest, pre, cik, acc, rest);
  }

  lemma UrlMatchOfString(s: string, pre: string, cik: string, acc: string, rest: string)
    requires cik != [] && AllDigits(cik) && acc != [] && AllDigits(acc)
    requires s == pre + ARCHIVE_PATH + cik + "/" + acc + "/" + rest
    ensures UrlMatchAt(s, |pre|) == Some((cik, acc))
  {
    var a := |pre| + |ARCHIVE_PATH|;
    UrlShape(s, pre, ARCHIVE_PATH, cik, acc, rest, a, a + |cik| + 1);
    UrlMatchAtIntro(s, |pre|, a, a + |cik| + 1, cik, acc);
  }

  /** Where the parts of `s == pre + path + cik + "/" + acc + "/" + rest` stand, for any `path`. */
  lemma UrlShape(s: string, pre: string, path: string, cik: string, acc: string, rest: string, a: nat, b: nat)
    requires cik != [] && AllDigits(cik) && acc != [] && AllDigits(acc)
    requires s == pre + path + cik + "/" + acc + "/" + rest
    requires a == |pre| + |path| && b == a + |cik| + 1
    ensures OccursAt(s, path, |pre|) && DigitsAt(s, a, cik) && DigitsAt(s, b, acc)
  {
    forall k | 0 <= k < |path| ensures s[|pre| + k] == path[k] {}
    assert s[|pre|..a] == path;
    CikAt(s, pre, path, cik, acc, rest, a);
    AccAt(s, pre, path, cik, acc, rest, b);
  }

  lemma CikAt(s: string, pre: string, path: string, cik: string, acc: string, rest: string, a: nat)
    requires cik != [] && AllDigits(cik)
    requires s == pre + path + cik + "/" + acc + "/" + rest
    requires a == |pre| + |path|
    ensures DigitsAt(s, a, cik)
  {
    forall k | 0 <= k < |cik| ensures s[a + k] == cik[k] {}
    assert s[a..a + |cik|] == cik;
    DigitRunAt(s[a..], cik);
    assert s[a + |cik|] == '/';
  }

  lemma AccAt(s: string, pre: string, path: string, cik: string, acc: string, rest: string, b: nat)
    requires acc != [] && AllDigits(acc)
    requires s == pre + path + cik + "/" + acc + "/" + rest
    requires b == |pre| + |path| + |cik| + 1
    ensures DigitsAt(s, b, acc)
  {
    forall k | 0 <= k < |acc| ensures s[b + k] == acc[k] {}
    assert s[b..b + |acc|] == acc;
    DigitRunAt(s[b..], acc);
    assert s[b + |acc|] == '/';
  }

  /** Digits `d` followed by a slash: the digit run is exactly `d`. */
  lemma {:induction false} DigitRunAt(u: string, d: string)
    requires AllDigits(d) && |d| < |u| && u[..|d|] == d && u[|d|] == '/'
    ensures DigitRun(u) == |d|
  {
    if d != [] {
      assert u[0] == d[0];
      assert u[1..][..|d| - 1] == d[1..];
      DigitRunAt(u[1..], d[1..]);
    }
  }

  /** The digit run at `a` is `d`, non-empty, and a slash follows it. */
  predicate DigitsAt(s: string, a: nat, d: string) {
    SlashedDigits(s, a) == Some(|d|) && s[a..a + |d|] == d
  }

  lemma UrlMatchAtIntro(s: string, i: nat, a: nat, b: nat, cik: string, acc: string)
    requires OccursAt(s, ARCHIVE_PATH, i)
    requires a == i + |ARCHIVE_PATH|
    requires b == a + |cik| + 1
    requires DigitsAt(s, a, cik) && DigitsAt(s, b, acc)
    ensures UrlMatchAt(s, i) == Some((cik, acc))
  {
    DigitGroupsIntro(s, a, b, cik, acc);
  }

  /** Two digit runs, each followed by a slash, are the two groups. */
  lemma DigitGroupsIntro(s: string, a: nat, b: nat, cik: string, acc: string)
    requires b == a + |cik| + 1
    requires DigitsAt(s, a, cik) && DigitsAt(s, b, acc)
    ensures DigitGroups(s, a) == Some((cik, acc))
  {
    DigitGroupsOf(s, a, |cik|, |acc|);
  }

  lemma DigitGroupsOf(s: string, a: nat, n: nat, m: nat)
    requires SlashedDigits(s, a) == Some(n) && SlashedDigits(s, a + n + 1) == Some(m)
    ensures DigitGroups(s, a) == Some((s[a..a + n], s[a + n + 1..a + n + 1 + m]))
  {
  }

  lemma {:induction false} SearchUrlFacts(s: string, i: nat)
    requires i <= |s|
    ensures SearchUrl(s, i).None? <==> forall k | i <= k <= |s| :: UrlMatchAt(s, k).None?
    ensures SearchUrl(s, i).Some? ==> exists k | i <= k <= |s| :: UrlMatchAt(s, k) == SearchUrl(s, i)
    decreases |s| - i
  {
    if UrlMatchAt(s, i).None? && i < |s| {
      SearchUrlFacts(s, i + 1);
    }
  }

  /**
   * A parse yields two non-empty digit strings that the URL holds in the EDGAR archive
   * path, `sec.gov/Archives/edgar/data/<cik>/<accession>/`; no parse means no such path.
   */
  lemma ParseCikAccessionFacts(url: string)
    ensures ParseCikAccession(url).None? <==> forall k | 0 <= k <= |url| :: UrlMatchAt(url, k).None?
    ensures ParseCikAccession(url).Some? ==>
      var (cik, acc) := ParseCikAccession(url).value;
      && cik != [] && AllDigits(cik) && acc != [] && AllDigits(acc)
      && Contains(url, ARCHIVE_PATH + cik + "/" + acc + "/")
  {
    SearchUrlFacts(url, 0);
    if ParseCikAccession(url).Some? {
      var k :| 0 <= k <= |url| && UrlMatchAt(url, k) == ParseCikAccession(url);
      UrlMatchFacts(url, k);
    }
  }

  // ---------------------------------------------------------------------------
  // _is_exhibit_file and the exhibit number

  predicate IsSeparator(c: char) { c == '-' || c == '_' }

  /** `EXHIBIT_PATTERN` (`exhibit\d+|ex[\-_]?\d+`, ignoring case) matches at `i`. */
  predicate ExhibitAt(f: string, i: nat) {
    || (MatchesAtCI(f, i, "exhibit") && i + 7 < |f| && IsDigit(f[i + 7]))
    || (MatchesAtCI(f, i, "ex") && i + 3 < |f| && IsSeparator(f[i + 2]) && IsDigit(f[i + 3]))
    || (MatchesAtCI(f, i, "ex") && i + 2 < |f| && IsDigit(f[i + 2]))
  }

  /** `_is_exhibit_file(filename)` */
  predicate IsExhibitFile(f: string) {
    exists i | 0 <= i <= |f| :: ExhibitAt(f, i)
  }

  /**
   * Where the group `(\d+)` of `EXHIBIT_NUMBER_PATTERN` begins for a match at `i`: the
   * alternation tries `exhibit` first, and `[\-_]?` takes the separator when a digit follows it.
   */
  function NumberStart(f: string, i: nat): Option<nat> {
    if MatchesAtCI(f, i, "exhibit") && i + 7 < |f| && IsDigit(f[i + 7]) then Some(i + 7)
    else if MatchesAtCI(f, i, "ex") && i + 3 < |f| && IsSeparator(f[i + 2]) && IsDigit(f[i + 3]) then Some(i + 3)
    else if MatchesAtCI(f, i, "ex") && i + 2 < |f| && IsDigit(f[i + 2]) then Some(i + 2)
    else None
  }

  /** The leftmost match from `i` on: where its digits begin. */
  function FirstNumberStart(f: string, i: nat): (r: Option<nat>)
    requires i <= |f|
    ensures r.Some? ==> r.value < |f| && IsDigit(f[r.value])
    decreases |f| - i
  {
    if NumberStart(f, i).Some? then NumberStart(f, i)
    else if i == |f| then None
    else FirstNumberStart(f, i + 1)
  }

  /** `EXHIBIT_NUMBER_PATTERN.search(filename).group(1)`, the whole digit run. */
  function ExhibitDigits(f: string): (r: Option<string>)
    ensures r.Some? ==> r.value != [] && AllDigits(r.value)
  {
    match FirstNumberStart(f, 0)
    case None => None
    case Some(k) => Some(f[k..][..DigitRun(f[k..])])
  }

  lemma {:induction false} FirstNumberStartNone(f: string, i: nat)
    requires i <= |f|
    ensures FirstNumberStart(f, i).None? <==> forall k | i <= k <= |f| :: NumberStart(f, k).None?
    decreases |f| - i
  {
    if NumberStart(f, i).None? && i < |f| {
      FirstNumberStartNone(f, i + 1);
    }
  }

  /**
   * The two patterns match at the same places, so a file counts as an exhibit exactly when
   * an exhibit number can be read from its name.
   */
  lemma ExhibitFileHasNumber(f: string)
    ensures IsExhibitFile(f) <==> ExhibitDigits(f).Some?
  {
    FirstNumberStartNone(f, 0);
    if IsExhibitFile(f) {
      var i :| 0 <= i <= |f| && ExhibitAt(f, i);
      assert NumberStart(f, i).Some?;
    } else {
      forall k | 0 <= k <= |f| ensures NumberStart(f, k).None? {
        assert !ExhibitAt(f, k);
      }
    }
  }

  // ---------------------------------------------------------------------------
  // _parse_exhibit_name

  /** Where the match of `\.(htm|html|txt)$` (ignoring case) ends: `$` also matches before a final newline. */
  function ExtensionEnd(f: string): nat {
    if f != [] && f[|f| - 1] == '\n' then |f| - 1 else |f|
  }

  /** Where that match begins, if there is one. */
  function ExtensionStart(f: string): (r: Option<nat>)
    ensures r.Some? ==> r.value < ExtensionEnd(f) <= |f|
  {
    var e := ExtensionEnd(f);
    if e >= 4 && MatchesAtCI(f, e - 4, ".htm") then Some(e - 4)
    else if e >= 5 && MatchesAtCI(f, e - 5, ".html") then Some(e - 5)
    else if e >= 4 && MatchesAtCI(f, e - 4, ".txt") then Some(e - 4)
    else None
  }

  /** `re.sub(r"\.(htm|html|txt)$", "", filename, flags=re.IGNORECASE)` */
  function DropExtension(f: string): (r: string)
    ensures |r| <= |f|
  {
    match ExtensionStart(f)
    case None => f
    case Some(k) => f[..k] + f[ExtensionEnd(f)..]
  }

  /** `_parse_exhibit_name(filename)` */
  function ParseExhibitName(f: string): string {
    match ExhibitDigits(f)
    case Some(digits) =>
      if |digits| >= 2 then
        if |digits| > 2 then "EX-" + digits[..2] + "." + [digits[2]] else "EX-" + digits[..2]
      else "EX-" + digits
    case None => Upper(DropExtension(f))
  }

  /** The exhibit number as shown: its first two digits, or its only digit. */
  function ShownNumber(digits: string): string {
    if |digits| >= 2 then digits[..2] else digits
  }

  /**
   * The name of an exhibit file is `EX-` and the shown number, then `.` and the third
   * digit when there is one; any other file keeps its upper-cased name without a trailing
   * `.htm`, `.html` or `.txt`.
   */
  lemma ParseExhibitNameFacts(f: string)
    ensures ExhibitDigits(f).Some? ==>
      var digits := ExhibitDigits(f).value;
      var name := ParseExhibitName(f);
      && StartsWith(name, "EX-" + ShownNumber(digits))
      && (|digits| <= 2 <==> name == "EX-" + ShownNumber(digits))
      && (|digits| > 2 ==> name == "EX-" + ShownNumber(digits) + "." + [digits[2]])
    ensures ExhibitDigits(f).None? ==>
      var name := ParseExhibitName(f);
      && |name| <= |f|
      && (forall i | 0 <= i < |name| :: !IsLower(name[i]))
      && (ExtensionStart(f).None? ==> name == Upper(f))
  {
    if ExhibitDigits(f).Some? {
      var digits := ExhibitDigits(f).value;
      var name := ParseExhibitName(f);
      assert name[..|"EX-" + ShownNumber(digits)|] == "EX-" + ShownNumber(digits);
    }
  }

  // ---------------------------------------------------------------------------
  // _get_exhibit_description

  const EXHIBIT_DESCRIPTIONS: map<string, string> := map[
    "3" := "Articles of Incorporation/Bylaws",
    "4" := "Instruments Defining Rights of Security Holders",
    "10" := "Material Contracts",
    "14" := "Code of Ethics",
    "19" := "Insider Trading Policy",
    "21" := "Subsidiaries of the Registrant",
    "23" := "Consent of Experts and Counsel",
    "24" := "Power of Attorney",
    "31" := "Rule 13a-14(a) Certification",
    "32" := "Section 1350 Certification",
    "95" := "Mine Safety Disclosure",
    "97" := "Clawback Policy",
    "99" := "Additional Exhibits",
    "101" := "Interactive Data Files"
  ]

  /** `s.split('.')[0]`: everything before the first `.`. */
  function BeforeDot(s: string): (r: string)
    ensures |r| <= |s| && r == s[..|r|]
    ensures '.' !in r
    ensures |r| < |s| ==> s[|r|] == '.'
  {
    if s == [] || s[0] == '.' then [] else [s[0]] + BeforeDot(s[1..])
  }

  /** `_get_exhibit_description(exhibit_num)` */
  function ExhibitDescription(num: string): string {
    DescriptionIn(EXHIBIT_DESCRIPTIONS, BeforeDot(num))
  }

  /** The lookup of `base` in `table`: the whole of it, then its first two characters, then its first. */
  function DescriptionIn(table: map<string, string>, base: string): string {
    if base in table then table[base]
    else if |base| >= 2 && base[..2] in table then table[base[..2]]
    else if |base| >= 1 && base[..1] in table then table[base[..1]]
    else ""
  }

  /** `p` is the number before its first `.`, its first two or its first character, and the table knows it. */
  predicate KnownPrefix(num: string, p: string) {
    KnownIn(EXHIBIT_DESCRIPTIONS, BeforeDot(num), p)
  }

  predicate KnownIn(table: map<string, string>, base: string, p: string) {
    p in table && (p == base || (|base| >= 2 && p == base[..2]) || (|base| >= 1 && p == base[..1]))
  }

  /** No entry of the table is empty. */
  lemma DescriptionsNonEmpty()
    ensures forall p | p in EXHIBIT_DESCRIPTIONS :: EXHIBIT_DESCRIPTIONS[p] != ""
  {
  }

  /**
   * The description is the table's entry for the longest known prefix of the exhibit
   * number (whole, two characters, one character), and "" when no prefix is known.
   */
  lemma ExhibitDescriptionFacts(num: string)
    ensures ExhibitDescription(num) == "" <==> forall p | p in EXHIBIT_DESCRIPTIONS :: !KnownPrefix(num, p)
    ensures ExhibitDescription(num) != "" ==>
      exists p | p in EXHIBIT_DESCRIPTIONS ::
        && KnownPrefix(num, p) && ExhibitDescription(num) == EXHIBIT_DESCRIPTIONS[p]
        && forall q | q in EXHIBIT_DESCRIPTIONS && KnownPrefix(num, q) :: |q| <= |p|
  {
    DescriptionsNonEmpty();
    DescriptionInFacts(EXHIBIT_DESCRIPTIONS, BeforeDot(num));
  }

  /** The lookup tries the whole number before its first `.`, then its first two characters, then its first. */
  lemma ExhibitDescriptionOrder(num: string)
    ensures var base := BeforeDot(num);
      && (base in EXHIBIT_DESCRIPTIONS ==> ExhibitDescription(num) == EXHIBIT_DESCRIPTIONS[base])
      && (base !in EXHIBIT_DESCRIPTIONS && |base| >= 2 && base[..2] in EXHIBIT_DESCRIPTIONS ==>
            ExhibitDescription(num) == EXHIBIT_DESCRIPTIONS[base[..2]])
      && (base !in EXHIBIT_DESCRIPTIONS && !(|base| >= 2 && base[..2] in EXHIBIT_DESCRIPTIONS)
            && |base| >= 1 && base[..1] in EXHIBIT_DESCRIPTIONS ==>
            ExhibitDescription(num) == EXHIBIT_DESCRIPTIONS[base[..1]])
  {
    DescriptionsNonEmpty();
    DescriptionInFacts(EXHIBIT_DESCRIPTIONS, BeforeDot(num));
  }

  /** `DescriptionIn` over any table without empty entries. */
  lemma DescriptionInFacts(table: map<string, string>, base: string)
    requires forall p | p in table :: table[p] != ""
    ensures DescriptionIn(table, base) == "" <==> forall p | p in table :: !KnownIn(table, base, p)
    ensures DescriptionIn(table, base) != "" ==>
      exists p | p in table ::
        && KnownIn(table, base, p) && DescriptionIn(table, base) == table[p]
        && forall q | q in table && KnownIn(table, base, q) :: |q| <= |p|
    ensures base in table ==> DescriptionIn(table, base) == table[base]
    ensures base !in table && |base| >= 2 && base[..2] in table ==> DescriptionIn(table, base) == table[base[..2]]
    ensures base !in table && !(|base| >= 2 && base[..2] in table) && |base| >= 1 && base[..1] in table ==>
      DescriptionIn(table, base) == table[base[..1]]
  {
    if base in table {
      assert KnownIn(table, base, base);
    } else if |base| >= 2 && base[..2] in table {
      assert KnownIn(table, base, base[..2]);
    } else if |base| >= 1 && base[..1] in table {
      assert KnownIn(table, base, base[..1]);
    }
  }

  /** "31.1" reads as "31"; "101" is known as it is; "1" is unknown. */
  lemma ExhibitDescriptionExamples()
    ensures ExhibitDescription("31.1") == "Rule 13a-14(a) Certification"
    ensures ExhibitDescription("101") == "Interactive Data Files"
    ensures ExhibitDescription("1") == ""
  {
    assert BeforeDot("31.1") == "31" by {
      assert BeforeDot(".1") == [];
    }
    assert BeforeDot("101") == "101";
    assert BeforeDot("1") == "1";
  }

  // ---------------------------------------------------------------------------
  // fetch_exhibits

  /** Where the digits of a match of `EX-(\d+)` starting at `i` begin. */
  predicate ExAt(name: string, i: nat) {
    OccursAt(name, "EX-", i) && i + 3 < |name| && IsDigit(name[i + 3])
  }

  function FirstExAt(name: string, i: nat): (r: Option<nat>)
    requires i <= |name|
    ensures r.Some? ==> i <= r.value && ExAt(name, r.value)
    decreases |name| - i
  {
    if ExAt(name, i) then Some(i)
    else if i == |name| then None
    else FirstExAt(name, i + 1)
  }

  /** `re.search(r"EX-(\d+)", exhibit_name).group(1)` */
  function ExNumber(name: string): Option<string> {
    match FirstExAt(name, 0)
    case None => None
    case Some(i) => Some(name[i + 3..][..DigitRun(name[i + 3..])])
  }

  /**
   * The number `fetch_exhibits` reads back from an exhibit's name is the shown number,
   * so the description lookup sees the first two digits of the file's exhibit number.
   */
  lemma ExNumberOfName(f: string)
    requires ExhibitDigits(f).Some?
    ensures ExNumber(ParseExhibitName(f)) == Some(ShownNumber(ExhibitDigits(f).value))
  {
    var digits := ExhibitDigits(f).value;
    var shown := ShownNumber(digits);
    var name := ParseExhibitName(f);
    var tail := if |digits| > 2 then "." + [digits[2]] else "";
    assert name == "EX-" + shown + tail;
    assert name[..3] == "EX-";
    assert ExAt(name, 0);
    assert name[3..] == shown + tail;
    DigitRunPrefix(shown, tail);
  }

  lemma {:induction false} DigitRunPrefix(d: string, t: string)
    requires AllDigits(d) && (t == [] || !IsDigit(t[0]))
    ensures DigitRun(d + t) == |d| && (d + t)[..|d|] == d
  {
    if d != [] {
      DigitRunPrefix(d[1..], t);
      assert (d + t)[1..] == d[1..] + t;
    }
  }

  /** The exhibit `fetch_exhibits` makes of an exhibit file listed under `baseUrl`. */
  function ToExhibit(item: Item, baseUrl: string): Exhibit {
    var name := ParseExhibitName(item.name);
    var description :=
      if item.description != "" then item.description
      else match ExNumber(name)
        case Some(num) => ExhibitDescription(num)
        case None => "";
    Exhibit(name, if description != "" then description else name, baseUrl + item.name)
  }

  /** The exhibits made of the exhibit files among `items`, in listing order. */
  function Collected(items: seq<Item>, baseUrl: string): (r: seq<Exhibit>)
    ensures |r| <= |items|
  {
    if items == [] then []
    else
      var item := items[|items| - 1];
      Collected(items[..|items| - 1], baseUrl) + (if IsExhibitFile(item.name) then [ToExhibit(item, baseUrl)] else [])
  }

  /** `exhibits.sort(key=lambda e: e.name)`: Python's comparison of strings, character by character. */
  predicate NameLe(a: string, b: string) {
    a == [] || (b != [] && (a[0] < b[0] || (a[0] == b[0] && NameLe(a[1..], b[1..]))))
  }

  lemma {:induction false} NameLeRefl(a: string)
    ensures NameLe(a, a)
  {
    if a != [] {
      NameLeRefl(a[1..]);
    }
  }

  lemma {:induction false} NameLeTotal(a: string, b: string)
    ensures NameLe(a, b) || NameLe(b, a)
  {
    if a != [] && b != [] && a[0] == b[0] {
      NameLeTotal(a[1..], b[1..]);
    }
  }

  lemma {:induction false} NameLeTrans(a: string, b: string, c: string)
    requires NameLe(a, b) && NameLe(b, c)
    ensures NameLe(a, c)
  {
    if a != [] && b != [] && c != [] && a[0] == b[0] && b[0] == c[0] {
      NameLeTrans(a[1..], b[1..], c[1..]);
    }
  }

  lemma {:induction false} NameLeAntisym(a: string, b: string)
    requires NameLe(a, b) && NameLe(b, a)
    ensures a == b
  {
    if a != [] && b != [] {
      NameLeAntisym(a[1..], b[1..]);
      assert a == [a[0]] + a[1..];
      assert b == [b[0]] + b[1..];
    }
  }

  predicate SortedByName(es: seq<Exhibit>) {
    forall i, j | 0 <= i < j < |es| :: NameLe(es[i].name, es[j].name)
  }

  /** Put `x` after every entry whose name is not greater, as a stable sort does. */
  function InsertByName(es: seq<Exhibit>, x: Exhibit): (r: seq<Exhibit>)
    ensures multiset(r) == multiset(es) + multiset{x}
  {
    if es == [] then [x]
    else if NameLe(es[|es| - 1].name, x.name) then es + [x]
    else
      assert es == es[..|es| - 1] + [es[|es| - 1]];
      InsertByName(es[..|es| - 1], x) + [es[|es| - 1]]
  }

  /** Python's stable sort by name. */
  function SortByName(es: seq<Exhibit>): seq<Exhibit> {
    if es == [] then [] else InsertByName(SortByName(es[..|es| - 1]), es[|es| - 1])
  }

  lemma {:induction false} InsertSorted(es: seq<Exhibit>, x: Exhibit)
    requires SortedByName(es)
    ensures SortedByName(InsertByName(es, x))
    decreases |es|
  {
    if es != [] {
      var last := es[|es| - 1];
      if NameLe(last.name, x.name) {
        forall i | 0 <= i < |es| ensures NameLe(es[i].name, x.name) {
          if i < |es| - 1 {
            NameLeTrans(es[i].name, last.name, x.name);
          }
        }
      } else {
        var init := es[..|es| - 1];
        InsertSorted(init, x);
        var r := InsertByName(init, x);
        NameLeTotal(last.name, x.name);
        forall y: Exhibit | y in multiset(r) ensures NameLe(y.name, last.name) {
          if y != x {
            assert y in multiset(init);
            var i :| 0 <= i < |init| && init[i] == y;
          }
        }
        forall i | 0 <= i < |r| ensures NameLe(r[i].name, last.name) {
          assert r[i] in multiset(r);
        }
      }
    }
  }

  /** The entries named `n`, in order. */
  function Named(es: seq<Exhibit>, n: string): seq<Exhibit> {
    if es == [] then [] else Named(es[..|es| - 1], n) + (if es[|es| - 1].name == n then [es[|es| - 1]] else [])
  }

  lemma {:induction false} NamedConcat(a: seq<Exhibit>, b: seq<Exhibit>, n: string)
    ensures Named(a + b, n) == Named(a, n) + Named(b, n)
    decreases |b|
  {
    if b != [] {
      NamedConcat(a, b[..|b| - 1], n);
      assert (a + b)[..|a + b| - 1] == a + b[..|b| - 1];
    } else {
      assert a + b == a;
    }
  }

  lemma {:induction false} InsertStable(es: seq<Exhibit>, x: Exhibit, n: string)
    ensures Named(InsertByName(es, x), n) == Named(es, n) + Named([x], n)
    decreases |es|
  {
    if es != [] {
      var last := es[|es| - 1];
      var init := es[..|es| - 1];
      assert es == init + [last];
      if NameLe(last.name, x.name) {
        NamedConcat(es, [x], n);
      } else {
        InsertStable(init, x, n);
        NamedConcat(InsertByName(init, x), [last], n);
        NamedConcat(init, [last], n);
        NameLeRefl(x.name);
        assert !(last.name == n && x.name == n);
      }
    }
  }

  /**
   * Sorting by name yields a permutation in name order that keeps the listing order of
   * exhibits with the same name.
   */
  lemma {:induction false} SortByNameFacts(es: seq<Exhibit>)
    ensures SortedByName(SortByName(es))
    ensures multiset(SortByName(es)) == multiset(es)
    ensures forall n :: Named(SortByName(es), n) == Named(es, n)
  {
    if es != [] {
      var init := es[..|es| - 1];
      var x := es[|es| - 1];
      SortByNameFacts(init);
      InsertSorted(SortByName(init), x);
      assert es == init + [x];
      forall n ensures Named(SortByName(es), n) == Named(es, n) {
        InsertStable(SortByName(init), x, n);
        NamedConcat(init, [x], n);
      }
    }
  }

  /** The directory of the filing, where its files are. */
  function BaseUrl(cik: string, accession: string): string {
    ARCHIVE_URL + cik + "/" + accession + "/"
  }

  /** The listing `fetch_exhibits` requests. */
  function IndexUrl(cik: string, accession: string): string {
    BaseUrl(cik, accession) + "index.json"
  }

  /**
   * `fetch_exhibits(source_url)`. `listing` is the decoded `directory.item` list of the
   * answer to `IndexUrl`, or `None` when the request or decoding fails.
   */
  method FetchExhibits(sourceUrl: string, listing: Option<seq<Item>>) returns (r: Option<ExhibitResult>)
    ensures r.None? <==> ParseCikAccession(sourceUrl).None? || listing.None?
    ensures r.Some? ==>
      var (cik, accession) := ParseCikAccession(sourceUrl).value;
      r.value == ExhibitResult(SortByName(Collected(listing.value, BaseUrl(cik, accession))), sourceUrl)
  {
    var parsed := ParseCikAccession(sourceUrl);
    if parsed.None? {
      return None;
    }
    var (cik, accession) := parsed.value;
    var baseUrl := BaseUrl(cik, accession);
    if listing.None? {
      return None;
    }
    var items := listing.value;
    var exhibits: seq<Exhibit> := [];
    for k := 0 to |items|
      invariant exhibits == Collected(items[..k], baseUrl)
    {
      var filename := items[k].name;
      var description := items[k].description;
      assert items[..k + 1][..k] == items[..k];
      if IsExhibitFile(filename) {
        var exhibitName := ParseExhibitName(filename);
        var exhibitUrl := baseUrl + filename;
        var exhibitDescription := description;
        if exhibitDescription == "" {
          var numMatch := ExNumber(exhibitName);
          if numMatch.Some? {
            exhibitDescription := ExhibitDescription(numMatch.value);
          }
        }
        exhibits := exhibits + [Exhibit(exhibitName, if exhibitDescription != "" then exhibitDescription else exhibitName, exhibitUrl)];
      }
    }
    assert items[..|items|] == items;
    exhibits := SortByName(exhibits);
    return Some(ExhibitResult(exhibits, sourceUrl));
  }

  /**
   * `e` is made of the exhibit file `item`: its URL is the file in the filing's directory,
   * its name is `EX-` and the shown number, and its description is the listing's, else the
   * table's for the shown number, else the name, so never empty.
   */
  predicate MadeFrom(e: Exhibit, item: Item, baseUrl: string) {
    && ExhibitDigits(item.name).Some?
    && e.url == baseUrl + item.name
    && e.name == ParseExhibitName(item.name)
    && StartsWith(e.name, "EX-" + ShownNumber(ExhibitDigits(item.name).value))
    && e.description != ""
    && (item.description != "" ==> e.description == item.description)
    && (item.description == "" && ExhibitDescription(ShownNumber(ExhibitDigits(item.name).value)) != "" ==>
          e.description == ExhibitDescription(ShownNumber(ExhibitDigits(item.name).value)))
  }

  lemma ToExhibitFacts(item: Item, baseUrl: string)
    requires IsExhibitFile(item.name)
    ensures MadeFrom(ToExhibit(item, baseUrl), item, baseUrl)
  {
    ExhibitFileHasNumber(item.name);
    ExNumberOfName(item.name);
    ParseExhibitNameFacts(item.name);
  }

  /** Each collected exhibit is made of an exhibit file of the listing. */
  lemma {:induction false} CollectedFacts(items: seq<Item>, baseUrl: string)
    ensures forall e | e in Collected(items, baseUrl) :: exists item | item in items && IsExhibitFile(item.name) :: MadeFrom(e, item, baseUrl)
  {
    if items != [] {
      var init := items[..|items| - 1];
      var item := items[|items| - 1];
      CollectedFacts(init, baseUrl);
      if IsExhibitFile(item.name) {
        ToExhibitFacts(item, baseUrl);
      }
      forall e | e in Collected(items, baseUrl)
        ensures exists it | it in items && IsExhibitFile(it.name) :: MadeFrom(e, it, baseUrl)
      {
        if e in Collected(init, baseUrl) {
          var it :| it in init && IsExhibitFile(it.name) && MadeFrom(e, it, baseUrl);
          assert it in items;
        } else {
          assert item in items;
        }
      }
    }
  }

  /** The positions of the exhibit files in the listing. */
  function ExhibitPositions(items: seq<Item>): set<nat> {
    set k: nat | k < |items| && IsExhibitFile(items[k].name)
  }

  /** Adding the position `n` (or not) to positions below `n`. */
  lemma CardSnoc(before: set<nat>, after: set<nat>, n: nat, add: bool)
    requires forall k | k in before :: k < n
    requires forall k: nat :: k in after <==> k in before || (add && k == n)
    ensures |after| == |before| + (if add then 1 else 0)
  {
    if add {
      assert after == before + {n};
    } else {
      assert after == before;
    }
  }

  /** One exhibit per exhibit file. */
  lemma {:induction false} CollectedCount(items: seq<Item>, baseUrl: string)
    ensures |Collected(items, baseUrl)| == |ExhibitPositions(items)|
  {
    if items != [] {
      var init := items[..|items| - 1];
      var item := items[|items| - 1];
      CollectedCount(init, baseUrl);
      var before := ExhibitPositions(init);
      var after := ExhibitPositions(items);
      assert forall k | k in before :: k < |init|;
      forall k: nat ensures k in after <==> k in before || (k == |init| && IsExhibitFile(item.name)) {
        if k < |init| {
          assert items[k] == init[k];
        }
      }
      CardSnoc(before, after, |init|, IsExhibitFile(item.name));
    } else {
      assert ExhibitPositions(items) == {};
    }
  }

  /**
   * The exhibit list of a result: in name order, one exhibit per exhibit file of the
   * listing, each made of one of them.
   */
  lemma ExhibitListFacts(items: seq<Item>, baseUrl: string)
    ensures var es := SortByName(Collected(items, baseUrl));
      && SortedByName(es)
      && |es| == |ExhibitPositions(items)|
      && forall e | e in es :: exists item | item in items && IsExhibitFile(item.name) :: MadeFrom(e, item, baseUrl)
  {
    var es := SortByName(Collected(items, baseUrl));
    SortByNameFacts(Collected(items, baseUrl));
    CollectedCount(items, baseUrl);
    CollectedFacts(items, baseUrl);
    assert |es| == |multiset(es)|;
    forall e | e in es ensures e in Collected(items, baseUrl) {
      assert e in multiset(es);
    }
  }
}
