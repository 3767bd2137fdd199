/**
 * Python string primitives used throughout the backend, stated over `seq<char>`.
 *
 * Whitespace is the set Python's `str.isspace`, `str.split()`, `str.strip()` and the
 * regular-expression class `\s` agree on. Case mapping (`lower`, `upper`, `capitalize`,
 * `title`) and the classes `\d` and `\w` are modelled on ASCII only.
 */
module Text {

  // ---------------------------------------------------------------------------
  // Character classes

  predicate IsSpace(c: char) {
    || ('\t' <= c <= '\r')
    || ('\U{1C}' <= c <= ' ')
    || c == '\U{85}' || c == '\U{A0}' || c == '\U{1680}'
    || ('\U{2000}' <= c <= '\U{200A}')
    || c == '\U{2028}' || c == '\U{2029}' || c == '\U{202F}' || c == '\U{205F}' || c == '\U{3000}'
  }

  predicate IsDigit(c: char) { '0' <= c <= '9' }

  predicate IsUpper(c: char) { 'A' <= c <= 'Z' }

  predicate IsLower(c: char) { 'a' <= c <= 'z' }

  predicate IsLetter(c: char) { IsUpper(c) || IsLower(c) }

  /** The regular-expression class `\w`. */
  predicate IsWordChar(c: char) { IsLetter(c) || IsDigit(c) || c == '_' }

  predicate WordAt(s: string, i: int) { 0 <= i < |s| && IsWordChar(s[i]) }

  /** `\b` at position `i`: a word character on exactly one side. */
  predicate Boundary(s: string, i: int) { WordAt(s, i - 1) != WordAt(s, i) }

  predicate AllDigits(s: string) { forall i | 0 <= i < |s| :: IsDigit(s[i]) }

  predicate NoSpace(s: string) { forall i | 0 <= i < |s| :: !IsSpace(s[i]) }

  /** Every whitespace character is a plain space followed by a non-whitespace character. */
  predicate InnerSpaced(s: string) {
    forall i | 0 <= i < |s| && IsSpace(s[i]) :: s[i] == ' ' && i + 1 < |s| && !IsSpace(s[i + 1])
  }

  /** The shape of `" ".join(s.split())`: words separated by single spaces. */
  predicate SingleSpaced(s: string) {
    InnerSpaced(s) && (s == [] || !IsSpace(s[0]))
  }

  // ---------------------------------------------------------------------------
  // Case mapping

  function LowerChar(c: char): (r: char)
    ensures IsDigit(r) <==> IsDigit(c)
    ensures IsSpace(r) <==> IsSpace(c)
  {
    if IsUpper(c) then (c as int + 32) as char else c
  }

  function UpperChar(c: char): char {
    if IsLower(c) then (c as int - 32) as char else c
  }

  /** `s.lower()` */
  function Lower(s: string): (r: string)
    ensures |r| == |s|
  {
    if s == [] then [] else [LowerChar(s[0])] + Lower(s[1..])
  }

  lemma {:induction false} LowerAt(s: string, i: nat)
    requires i < |s|
    ensures Lower(s)[i] == LowerChar(s[i])
  {
    if i > 0 {
      LowerAt(s[1..], i - 1);
    }
  }

  lemma {:induction false} LowerConcat(a: string, b: string)
    ensures Lower(a + b) == Lower(a) + Lower(b)
  {
    if a != [] {
      LowerConcat(a[1..], b);
      assert (a + b)[1..] == a[1..] + b;
    } else {
      assert a + b == b;
    }
  }

  /** Lower-casing commutes with taking a slice. */
  lemma LowerSlice(s: string, a: nat, b: nat)
    requires a <= b <= |s|
    ensures Lower(s)[a..b] == Lower(s[a..b])
  {
    forall i | 0 <= i < b - a ensures Lower(s)[a..b][i] == Lower(s[a..b])[i] {
      LowerAt(s, a + i);
      LowerAt(s[a..b], i);
    }
  }

  /** `s.upper()` */
  function Upper(s: string): (r: string)
    ensures |r| == |s|
    ensures forall i | 0 <= i < |s| :: r[i] == UpperChar(s[i])
  {
    seq(|s|, i requires 0 <= i < |s| => UpperChar(s[i]))
  }

  /** `s.capitalize()`: the first character upper-cased, the rest lower-cased. */
  function Capitalize(s: string): string {
    if s == [] then [] else [UpperChar(s[0])] + Lower(s[1..])
  }

  /** `s.title()`: a letter is upper-cased when the character before it is not a letter. */
  function Title(s: string): (r: string)
    ensures |r| == |s|
  {
    seq(|s|, i requires 0 <= i < |s| =>
      if i == 0 || !IsLetter(s[i - 1]) then UpperChar(s[i]) else LowerChar(s[i]))
  }

  // ---------------------------------------------------------------------------
  // Prefixes, suffixes and occurrences

  predicate StartsWith(s: string, p: string) { |p| <= |s| && s[..|p|] == p }

  predicate EndsWith(s: string, p: string) { |p| <= |s| && s[|s| - |p|..] == p }

  predicate OccursAt(s: string, p: string, i: int) {
    0 <= i && i + |p| <= |s| && s[i..i + |p|] == p
  }

  /** `p in s` */
  predicate Contains(s: string, p: string) { exists i | 0 <= i <= |s| :: OccursAt(s, p, i) }

  /**
   * Character `c` matches the lower-case pattern character `p` under `re.IGNORECASE`:
   * its own upper case, and the characters whose lower case is `p` or that Python's
   * regular expressions treat as equal to it (dotless i and dotted capital I for `i`,
   * long s for `s`, the Kelvin sign for `k`).
   */
  predicate CharCI(c: char, p: char) {
    if p == 'i' then c == 'i' || c == 'I' || c == '\U{130}' || c == '\U{131}'
    else if p == 's' then c == 's' || c == 'S' || c == '\U{17F}'
    else if p == 'k' then c == 'k' || c == 'K' || c == '\U{212A}'
    else if 'a' <= p <= 'z' then c == p || c as int == p as int - 32
    else c == p
  }

  /** The literal pattern `p` (lower case) matches `s` at `i`, ignoring case. */
  predicate MatchesAtCI(s: string, i: nat, p: string) {
    i + |p| <= |s| && forall k | 0 <= k < |p| :: CharCI(s[i + k], p[k])
  }

  /** `re.search(p, s, re.IGNORECASE)` for a literal pattern `p`. */
  predicate ContainsCI(s: string, p: string) {
    exists i: nat | i <= |s| :: MatchesAtCI(s, i, p)
  }

  lemma ContainsTrans(s: string, t: string, p: string)
    requires Contains(s, t) && Contains(t, p)
    ensures Contains(s, p)
  {
    var i :| 0 <= i <= |s| && OccursAt(s, t, i);
    var j :| 0 <= j <= |t| && OccursAt(t, p, j);
    assert s[i..i + |t|] == t;
    forall k | 0 <= k < |p| ensures s[i + j + k] == p[k] {
      assert s[i + j + k] == s[i..i + |t|][j + k];
      assert t[j + k] == t[j..j + |p|][k];
    }
    assert OccursAt(s, p, i + j);
  }

  lemma ContainsWithin(a: string, b: string, c: string)
    ensures Contains(a + b + c, b)
  {
    assert (a + b + c)[|a|..|a| + |b|] == b;
    assert OccursAt(a + b + c, b, |a|);
  }

  /** `p in s` survives lower-casing both sides. */
  lemma LowerContains(s: string, p: string)
    requires Contains(s, p)
    ensures Contains(Lower(s), Lower(p))
  {
    var i :| 0 <= i <= |s| && OccursAt(s, p, i);
    LowerSlice(s, i, i + |p|);
    assert OccursAt(Lower(s), Lower(p), i);
  }

  // ---------------------------------------------------------------------------
  // Stripping

  /** `s.lstrip()` */
  function LStrip(s: string): (r: string)
    ensures |r| <= |s| && r == s[|s| - |r|..]
    ensures r == [] || !IsSpace(r[0])
    ensures forall i | 0 <= i < |s| - |r| :: IsSpace(s[i])
  {
    if s != [] && IsSpace(s[0]) then LStrip(s[1..]) else s
  }

  /** `s.rstrip()` */
  function RStrip(s: string): (r: string)
    ensures |r| <= |s| && r == s[..|r|]
    ensures r == [] || !IsSpace(r[|r| - 1])
    ensures forall i | |r| <= i < |s| :: IsSpace(s[i])
  {
    if s != [] && IsSpace(s[|s| - 1]) then RStrip(s[..|s| - 1]) else s
  }

  /** `s.strip()` */
  function Strip(s: string): (r: string)
    ensures r == [] || (!IsSpace(r[0]) && !IsSpace(r[|r| - 1]))
    ensures |r| <= |s|
  {
    RStrip(LStrip(s))
  }

  /** `s.strip(c)` for a single character `c`. */
  function StripChar(s: string, c: char): (r: string)
    ensures r == [] || (r[0] != c && r[|r| - 1] != c)
    ensures |r| <= |s|
  {
    if s != [] && s[0] == c then StripChar(s[1..], c)
    else if s != [] && s[|s| - 1] == c then StripChar(s[..|s| - 1], c)
    else s
  }

  /** `s.strip()` is empty exactly when `s` is all whitespace. */
  lemma StripEmpty(s: string)
    ensures Strip(s) == [] <==> forall i | 0 <= i < |s| :: IsSpace(s[i])
  {
    var l := LStrip(s);
    if l != [] {
      assert !IsSpace(s[|s| - |l|]);
    }
  }

  /** A string without whitespace at either end is its own `strip()`. */
  lemma StripTrimmed(s: string)
    requires s == [] || (!IsSpace(s[0]) && !IsSpace(s[|s| - 1]))
    ensures Strip(s) == s
  {
  }

  /** The number of whitespace characters starting at `q`. */
  function SpaceRun(s: string, q: nat): (k: nat)
    requires q <= |s|
    ensures q + k <= |s|
    ensures forall i | q <= i < q + k :: IsSpace(s[i])
    ensures q + k == |s| || !IsSpace(s[q + k])
    decreases |s| - q
  {
    if q < |s| && IsSpace(s[q]) then 1 + SpaceRun(s, q + 1) else 0
  }

  // ---------------------------------------------------------------------------
  // Splitting and joining

  /**
   * `s.split()`: the maximal runs of non-whitespace characters, in order; `word` is the
   * run read so far.
   */
  function SplitFrom(s: string, word: string): (words: seq<string>)
  {
    if s == [] then (if word == [] then [] else [word])
    else if IsSpace(s[0]) then (if word == [] then [] else [word]) + SplitFrom(s[1..], [])
    else SplitFrom(s[1..], word + [s[0]])
  }

  /** `s.split()` */
  function Split(s: string): seq<string> { SplitFrom(s, []) }

  /** The words `split` produces are non-empty and free of whitespace. */
  lemma {:induction false} SplitFromWords(s: string, word: string)
    requires NoSpace(word)
    ensures forall k | 0 <= k < |SplitFrom(s, word)| :: SplitFrom(s, word)[k] != [] && NoSpace(SplitFrom(s, word)[k])
    decreases |s|
  {
    if s != [] {
      if IsSpace(s[0]) {
        SplitFromWords(s[1..], []);
      } else {
        SplitFromWords(s[1..], word + [s[0]]);
      }
    }
  }

  /** Words joined by single spaces are single-spaced. */
  lemma {:induction false} JoinWords(ws: seq<string>)
    requires forall k | 0 <= k < |ws| :: ws[k] != [] && NoSpace(ws[k])
    ensures SingleSpaced(Join(ws, " "))
    ensures ws != [] ==> Join(ws, " ") != []
  {
    if |ws| > 1 {
      JoinWords(ws[1..]);
      var w := ws[0];
      var rest := Join(ws[1..], " ");
      var j := w + " " + rest;
      assert Join(ws, " ") == j;
      forall i | 0 <= i < |j| && IsSpace(j[i]) ensures j[i] == ' ' && i + 1 < |j| && !IsSpace(j[i + 1]) {
        if i > |w| {
          assert j[i] == rest[i - |w| - 1];
        }
      }
    }
  }

  /** On a single-spaced string, splitting and re-joining with spaces is the identity. */
  lemma {:induction false} JoinSplitFrom(s: string, word: string)
    requires NoSpace(word) && SingleSpaced(word + s)
    ensures Join(SplitFrom(s, word), " ") == word + s
    decreases |s|
  {
    if s == [] {
      assert word + s == word;
    } else if IsSpace(s[0]) {
      SpacedTail(word, s);
      JoinSplitFrom(s[1..], []);
      JoinSplitSpace(s, word);
    } else {
      assert word + [s[0]] + s[1..] == word + s;
      JoinSplitFrom(s[1..], word + [s[0]]);
      JoinSplitChar(s, word);
    }
  }

  /** After a word, a space starts a single-spaced rest. */
  lemma SpacedTail(word: string, s: string)
    requires NoSpace(word) && SingleSpaced(word + s) && s != [] && IsSpace(s[0])
    ensures word != [] && s[0] == ' ' && |s| > 1 && SingleSpaced(s[1..]) && [] + s[1..] == s[1..]
  {
    var ws := word + s;
    assert ws[|word|] == s[0];
    var t := s[1..];
    assert t[0] == ws[|word| + 1];
    forall i | 0 <= i < |t| && IsSpace(t[i]) ensures t[i] == ' ' && i + 1 < |t| && !IsSpace(t[i + 1]) {
      assert t[i] == ws[|word| + 1 + i];
      assert |word| + 2 + i < |ws|;
      assert t[i + 1] == ws[|word| + 2 + i];
    }
  }

  /** A space ends the current word; the rest splits on its own. */
  lemma JoinSplitSpace(s: string, word: string)
    requires s != [] && IsSpace(s[0]) && s[0] == ' ' && word != [] && s[1..] != []
    requires Join(SplitFrom(s[1..], []), " ") == [] + s[1..]
    ensures Join(SplitFrom(s, word), " ") == word + s
  {
    var rest := SplitFrom(s[1..], []);
    assert rest != [];
    assert SplitFrom(s, word) == [word] + rest;
    assert Join([word] + rest, " ") == word + " " + Join(rest, " ");
    assert s == " " + s[1..];
  }

  /** A non-space character extends the current word. */
  lemma JoinSplitChar(s: string, word: string)
    requires s != [] && !IsSpace(s[0])
    requires Join(SplitFrom(s[1..], word + [s[0]]), " ") == word + [s[0]] + s[1..]
    ensures Join(SplitFrom(s, word), " ") == word + s
  {
    assert word + [s[0]] + s[1..] == word + s;
  }

  lemma JoinSplit(s: string)
    requires SingleSpaced(s)
    ensures Join(Split(s), " ") == s
  {
    assert [] + s == s;
    JoinSplitFrom(s, []);
  }

  /** `" ".join(s.split())` is single-spaced. */
  lemma SplitJoinSingleSpaced(s: string)
    ensures SingleSpaced(Join(Split(s), " "))
  {
    SplitFromWords(s, []);
    JoinWords(Split(s));
  }

  /** The elements of a sequence of words. */
  function SetOf(ws: seq<string>): (r: set<string>)
  {
    if ws == [] then {} else {ws[0]} + SetOf(ws[1..])
  }

  /** `set(s.split())` */
  function WordsOf(s: string): set<string> { SetOf(Split(s)) }

  /** `set(s.lower().split())` */
  function WordSet(s: string): set<string> {
    WordsOf(Lower(s))
  }

  /** `s[:n]` for `n >= 0` */
  function Prefix(s: string, n: nat): (r: string)
    ensures |r| == if n < |s| then n else |s|
    ensures r == s[..|r|]
  {
    if n < |s| then s[..n] else s
  }

  /** `s[a:b]` for `0 <= a <= b`: both ends are clamped to the length. */
  function Slice(s: string, a: nat, b: nat): (r: string)
    requires a <= b
    ensures |r| == if b <= |s| then b - a else if a <= |s| then |s| - a else 0
    ensures |r| <= b - a
    ensures a <= |s| ==> r == s[a..a + |r|]
  {
    if a >= |s| then [] else if b <= |s| then s[a..b] else s[a..]
  }

  /** `sep.join(parts)` */
  function Join(parts: seq<string>, sep: string): string {
    if |parts| == 0 then ""
    else if |parts| == 1 then parts[0]
    else parts[0] + sep + Join(parts[1..], sep)
  }

  /** The summed lengths of the parts. */
  function TotalLength(parts: seq<string>): nat {
    if parts == [] then 0 else |parts[0]| + TotalLength(parts[1..])
  }

  /** A join is as long as its parts plus one separator between each neighbouring pair. */
  lemma {:induction false} JoinLength(parts: seq<string>, sep: string)
    requires parts != []
    ensures |Join(parts, sep)| == TotalLength(parts) + (|parts| - 1) * |sep|
  {
    if |parts| > 1 {
      JoinLength(parts[1..], sep);
    }
  }

  lemma JoinPair(a: string, b: string, sep: string)
    ensures Join([a, b], sep) == a + sep + b
  {
    assert [a, b][1..] == [b];
  }

  /** Each part occurs in the joined string. */
  lemma {:induction false} JoinContains(parts: seq<string>, sep: string, i: nat)
    requires i < |parts|
    ensures Contains(Join(parts, sep), parts[i])
  {
    if |parts| == 1 {
      ContainsWithin([], parts[0], []);
      assert [] + parts[0] + [] == parts[0];
    } else if i == 0 {
      ContainsWithin([], parts[0], sep + Join(parts[1..], sep));
      assert [] + parts[0] + (sep + Join(parts[1..], sep)) == Join(parts, sep);
    } else {
      JoinContains(parts[1..], sep, i - 1);
      ContainsWithin(parts[0] + sep, Join(parts[1..], sep), []);
      assert parts[0] + sep + Join(parts[1..], sep) + [] == Join(parts, sep);
      ContainsTrans(Join(parts, sep), Join(parts[1..], sep), parts[i]);
    }
  }

  /** The joined string starts with the first part. */
  lemma JoinStartsWith(parts: seq<string>, sep: string)
    requires parts != []
    ensures StartsWith(Join(parts, sep), parts[0])
  {
  }

  /** A join splits at any inner part boundary into two joins and one separator. */
  lemma {:induction false} JoinSplitAt(parts: seq<string>, sep: string, i: nat)
    requires 0 < i < |parts|
    ensures Join(parts, sep) == Join(parts[..i], sep) + sep + Join(parts[i..], sep)
  {
    if i > 1 {
      var tail := parts[1..];
      JoinSplitAt(tail, sep, i - 1);
      assert parts[..i][1..] == tail[..i - 1];
      assert tail[i - 1..] == parts[i..];
    } else {
      assert parts[..1] == [parts[0]];
    }
  }

  /** Where a part stands in the join, measured from the start of the part. */
  function JoinOffset(parts: seq<string>, sep: string, i: nat): nat
    requires i < |parts|
  {
    if i == 0 then 0 else |Join(parts[..i], sep)| + |sep|
  }

  /** Each part stands at its offset in the join. */
  lemma JoinOffsetAt(parts: seq<string>, sep: string, i: nat)
    requires i < |parts|
    ensures OccursAt(Join(parts, sep), parts[i], JoinOffset(parts, sep, i))
  {
    var whole := Join(parts, sep);
    var p := JoinOffset(parts, sep, i);
    if i > 0 {
      JoinSplitAt(parts, sep, i);
    }
    var rest := Join(parts[i..], sep);
    assert whole[p..] == rest;
    JoinStartsWith(parts[i..], sep);
    assert whole[p..p + |parts[i]|] == rest[..|parts[i]|];
  }

  /** The next part starts right after this one and a separator. */
  lemma JoinOffsetNext(parts: seq<string>, sep: string, i: nat)
    requires i + 1 < |parts|
    ensures JoinOffset(parts, sep, i + 1) == JoinOffset(parts, sep, i) + |parts[i]| + |sep|
  {
    var front := parts[..i + 1];
    if i > 0 {
      JoinSplitAt(front, sep, i);
      assert front[..i] == parts[..i];
      assert front[i..] == [parts[i]];
    } else {
      assert front == [parts[0]];
    }
  }

  /** Parts stand in the join in their order, a separator at least between any two. */
  lemma {:induction false} JoinOrder(parts: seq<string>, sep: string, i: nat, j: nat)
    requires i < j < |parts|
    ensures JoinOffset(parts, sep, i) + |parts[i]| + |sep| <= JoinOffset(parts, sep, j)
    decreases j
  {
    JoinOffsetNext(parts, sep, j - 1);
    if i < j - 1 {
      JoinOrder(parts, sep, i, j - 1);
    }
  }

  /** `s.replace(c, "")` for a single character `c`. */
  function RemoveChar(s: string, c: char): (r: string)
    ensures |r| <= |s|
    ensures forall x :: x in r <==> x in s && x != c
  {
    if s == [] then []
    else if s[0] == c then RemoveChar(s[1..], c)
    else [s[0]] + RemoveChar(s[1..], c)
  }

  /** `c * n` */
  function Repeat(c: char, n: nat): (r: string)
    ensures |r| == n
    ensures forall i | 0 <= i < n :: r[i] == c
  {
    seq(n, _ => c)
  }

  /** `s.ljust(w)`: pads with spaces on the right up to width `w`, never truncates. */
  function PadRight(s: string, w: int): (r: string)
    ensures |r| == if |s| < w then w else |s|
    ensures r[..|s|] == s
  {
    if |s| < w then s + Repeat(' ', w - |s|) else s
  }

  // ---------------------------------------------------------------------------
  // Decimal numbers

  /** Length of the leading run of ASCII digits. */
  function DigitRun(s: string): (k: nat)
    ensures k <= |s|
    ensures AllDigits(s[..k])
    ensures k == |s| || !IsDigit(s[k])
  {
    if s == [] || !IsDigit(s[0]) then 0 else 1 + DigitRun(s[1..])
  }

  function DigitChar(d: nat): (c: char)
    requires d < 10
    ensures IsDigit(c)
  {
    ('0' as int + d) as char
  }

  function DigitValue(c: char): (d: nat)
    requires IsDigit(c)
    ensures d < 10
  {
    c as int - '0' as int
  }

  /** `str(n)` for a non-negative integer. */
  function NatToString(n: nat): (r: string)
    ensures r != [] && AllDigits(r)
    ensures n >= 10 <==> |r| > 1
  {
    if n < 10 then [DigitChar(n)] else NatToString(n / 10) + [DigitChar(n % 10)]
  }

  /** `str(n)` for any integer. */
  function IntToString(n: int): (r: string)
    ensures r != []
    ensures n >= 0 ==> AllDigits(r)
  {
    if n < 0 then "-" + NatToString(-n) else NatToString(n)
  }

  /** `int(s)` for a string of ASCII digits (leading zeros allowed, as in Python). */
  function DigitsToNat(s: string): nat
    requires AllDigits(s)
  {
    if s == [] then 0 else 10 * DigitsToNat(s[..|s| - 1]) + DigitValue(s[|s| - 1])
  }

  /** `int(str(n)) == n` */
  lemma {:induction false} DigitsToNatOfNatToString(n: nat)
    ensures DigitsToNat(NatToString(n)) == n
  {
    var r := NatToString(n);
    if n >= 10 {
      DigitsToNatOfNatToString(n / 10);
      assert r[..|r| - 1] == NatToString(n / 10);
    }
  }

  /** Decimal rendering is injective: different numbers print differently. */
  lemma NatToStringInjective(m: nat, n: nat)
    requires NatToString(m) == NatToString(n)
    ensures m == n
  {
    DigitsToNatOfNatToString(m);
    DigitsToNatOfNatToString(n);
  }
}
