/**
 * The chat route's text logic: reading `[n]` citation markers out of the model's
 * answer, keeping the cited retrieved chunks and renumbering the markers densely,
 * the context window before a marker, the best-matching element and preview for a
 * cited chunk, and the request checks that run before retrieval.
 *
 * The pattern `\[(\d+)\]` is modelled by an explicit left-to-right scanner (`Scan`)
 * that splits the answer into literal characters and markers exactly where
 * `re.findall` and `re.sub` find their non-overlapping leftmost matches.
 */
module Chat {
  import opened Text
  import opened Wrappers
  import Config
  import Chunker

  // ---------------------------------------------------------------------------
  // Scanning `[digits]` markers

  /** A marker `[d1…dk]` with `k >= 1` digits starts at the front of `s`. */
  predicate MarkerAt(s: string, k: nat) {
    1 <= k && k + 2 <= |s| && s[0] == '[' && AllDigits(s[1..k + 1]) && s[k + 1] == ']'
  }

  /** The number of digits of the marker at the front of `s`, or 0 when none starts there. */
  function MarkerLen(s: string): (k: nat)
    ensures k > 0 ==> MarkerAt(s, k)
    ensures k == 0 ==> forall j: nat :: !MarkerAt(s, j)
  {
    if s != [] && s[0] == '[' then
      var k := DigitRun(s[1..]);
      if 1 <= k && k + 1 < |s| && s[k + 1] == ']' then
        assert s[1..k + 1] == s[1..][..k];
        k
      else
        assert forall j: nat | MarkerAt(s, j) :: j == k;
        0
    else 0
  }

  /** One piece of a scanned answer: a literal character or the digits of a marker. */
  datatype Piece = Lit(c: char) | Marker(digits: string)

  predicate WellFormed(ps: seq<Piece>) {
    forall i | 0 <= i < |ps| && ps[i].Marker? :: ps[i].digits != [] && AllDigits(ps[i].digits)
  }

  /** The answer cut at every match of `\[(\d+)\]`, scanning left to right. */
  function Scan(s: string): (ps: seq<Piece>)
    ensures WellFormed(ps)
    decreases |s|
  {
    if s == [] then []
    else
      var k := MarkerLen(s);
      if k > 0 then [Marker(s[1..k + 1])] + Scan(s[k + 2..])
      else [Lit(s[0])] + Scan(s[1..])
  }

  function Render(p: Piece): string {
    match p
    case Lit(c) => [c]
    case Marker(d) => "[" + d + "]"
  }

  function Flatten(ps: seq<Piece>): string {
    if ps == [] then [] else Render(ps[0]) + Flatten(ps[1..])
  }

  lemma FlattenCons(p: Piece, ps: seq<Piece>)
    ensures Flatten([p] + ps) == Render(p) + Flatten(ps)
  {
    assert ([p] + ps)[1..] == ps;
  }

  /** How the scan proceeds past a literal character. */
  lemma ScanLit(s: string)
    requires s != [] && MarkerLen(s) == 0
    ensures Scan(s) == [Lit(s[0])] + Scan(s[1..])
  {
  }

  /** How the scan takes a marker. */
  lemma ScanMarker(s: string)
    requires MarkerLen(s) > 0
    ensures var k := MarkerLen(s); Scan(s) == [Marker(s[1..k + 1])] + Scan(s[k + 2..])
  {
  }

  /** Scanning loses nothing: the pieces spell the answer again. */
  lemma {:induction false} FlattenScan(s: string)
    ensures Flatten(Scan(s)) == s
    decreases |s|
  {
    if s != [] {
      var k := MarkerLen(s);
      if k > 0 {
        FlattenScanMarker(s);
      } else {
        FlattenScan(s[1..]);
        ScanLit(s);
        FlattenCons(Lit(s[0]), Scan(s[1..]));
        assert s == [s[0]] + s[1..];
      }
    }
  }

  lemma {:induction false} FlattenScanMarker(s: string)
    requires MarkerLen(s) > 0
    ensures Flatten(Scan(s)) == s
    decreases |s|, 0
  {
    var k := MarkerLen(s);
    var rest := s[k + 2..];
    var d := s[1..k + 1];
    assert s == "[" + d + "]" + rest by {
      assert s[..k + 2] == "[" + d + "]";
      assert s == s[..k + 2] + rest;
    }
    FlattenScan(rest);
    ScanMarker(s);
    FlattenCons(Marker(d), Scan(rest));
  }

  /** `[int(m) for m in re.findall(pattern, answer)]`, in order of appearance. */
  function Numbers(ps: seq<Piece>): (r: seq<nat>)
    requires WellFormed(ps)
    ensures |r| <= |ps|
  {
    if ps == [] then []
    else (if ps[0].Marker? then [DigitsToNat(ps[0].digits)] else []) + Numbers(ps[1..])
  }

  // ---------------------------------------------------------------------------
  // `sorted(set(...))` and the renumbering map

  predicate Increasing(r: seq<nat>) {
    forall i, j | 0 <= i < j < |r| :: r[i] < r[j]
  }

  /** Adds `x` to a strictly increasing list, keeping it strictly increasing. */
  function Insert(r: seq<nat>, x: nat): (t: seq<nat>)
    requires Increasing(r)
    ensures Increasing(t)
    ensures forall y :: y in t <==> y in r || y == x
  {
    if r == [] then [x]
    else if x < r[0] then [x] + r
    else if x == r[0] then r
    else
      var rest := Insert(r[1..], x);
      assert forall i | 0 <= i < |rest| :: rest[i] in rest;
      assert forall y | y in r[1..] :: r[0] < y;
      [r[0]] + rest
  }

  /** `sorted(set(xs))` */
  function SortedSet(xs: seq<nat>): (r: seq<nat>)
    ensures Increasing(r)
    ensures forall y :: y in r <==> y in xs
  {
    if xs == [] then [] else Insert(SortedSet(xs[..|xs| - 1]), xs[|xs| - 1])
  }

  /** `cited_indices`: the distinct citation numbers of the answer, ascending. */
  function Cited(answer: string): (r: seq<nat>)
    ensures Increasing(r)
    ensures forall y :: y in r <==> y in Numbers(Scan(answer))
  {
    SortedSet(Numbers(Scan(answer)))
  }

  /** `{old: new for new, old in enumerate(cited, start=1)}` */
  function IndexMap(cited: seq<nat>): (m: map<nat, nat>)
    requires Increasing(cited)
    ensures forall x :: x in m <==> x in cited
    ensures forall i | 0 <= i < |cited| :: m[cited[i]] == i + 1
  {
    map i | 0 <= i < |cited| :: cited[i] := i + 1
  }

  /** The digits `renumber` writes for a marker: the new number when the map has a non-zero one. */
  function NewDigits(d: string, m: map<nat, nat>): (r: string)
    requires AllDigits(d)
    requires d != []
    ensures r != [] && AllDigits(r)
  {
    var n := DigitsToNat(d);
    if n in m && m[n] != 0 then NatToString(m[n]) else d
  }

  /** What `renumber` makes of one piece: a marker gets its new digits, a literal stays. */
  function RenumberPiece(p: Piece, m: map<nat, nat>): (q: Piece)
    requires p.Marker? ==> p.digits != [] && AllDigits(p.digits)
    ensures p.Lit? ==> q == p
    ensures p.Marker? ==> q.Marker? && q.digits != [] && AllDigits(q.digits)
  {
    if p.Marker? then Marker(NewDigits(p.digits, m)) else p
  }

  /** `re.sub(pattern, renumber, ·)` on the pieces: markers get new digits, literals stay. */
  function Renumber(ps: seq<Piece>, m: map<nat, nat>): (r: seq<Piece>)
    requires WellFormed(ps)
    ensures |r| == |ps| && WellFormed(r)
  {
    seq(|ps|, i requires 0 <= i < |ps| => RenumberPiece(ps[i], m))
  }

  /** The renumbered answer. */
  function RenumberText(answer: string, m: map<nat, nat>): string {
    Flatten(Renumber(Scan(answer), m))
  }

  /**
   * The filtered chunk list for the citation numbers in `cited`, in order:
   * `top_chunks[k - 1]` for each `k` with `1 <= k <= len(top_chunks)`.
   */
  function CitedChunks<T>(cited: seq<nat>, top: seq<T>): (r: seq<T>)
    ensures |r| <= |cited|
    ensures (forall i | 0 <= i < |cited| :: 1 <= cited[i] <= |top|) ==>
      |r| == |cited| && forall i | 0 <= i < |cited| :: r[i] == top[cited[i] - 1]
  {
    if cited == [] then []
    else
      var k := cited[|cited| - 1];
      CitedChunks(cited[..|cited| - 1], top) + (if 1 <= k <= |top| then [top[k - 1]] else [])
  }

  /**
   * `extract_and_filter_citations`: an answer without markers comes back unchanged with
   * no chunks; otherwise every marker is renumbered through the map built from the
   * ascending distinct citation numbers, and the cited chunks are kept in that order.
   */
  method ExtractAndFilterCitations<T>(answer: string, topChunks: seq<T>)
    returns (renumbered: string, filtered: seq<T>)
    ensures Numbers(Scan(answer)) == [] ==> renumbered == answer && filtered == []
    ensures Numbers(Scan(answer)) != [] ==>
      renumbered == RenumberText(answer, IndexMap(Cited(answer)))
    ensures filtered == CitedChunks(Cited(answer), topChunks)
  {
    var cited := Cited(answer);
    CitedEmpty(answer);
    if cited == [] {
      return answer, [];
    }
    var indexMap := IndexMap(cited);
    filtered := FilterCited(cited, topChunks);
    renumbered := RenumberText(answer, indexMap);
  }

  /** The filtering loop: for each cited number, in order, the chunk it names if it exists. */
  method FilterCited<T>(cited: seq<nat>, topChunks: seq<T>) returns (filtered: seq<T>)
    ensures filtered == CitedChunks(cited, topChunks)
  {
    filtered := [];
    for i := 0 to |cited|
      invariant filtered == CitedChunks(cited[..i], topChunks)
    {
      var chunkIdx := cited[i] as int - 1;
      CitedChunksSnoc(cited[..i + 1], topChunks);
      assert cited[..i + 1][..i] == cited[..i];
      if 0 <= chunkIdx < |topChunks| {
        filtered := filtered + [topChunks[chunkIdx]];
      }
    }
    assert cited[..|cited|] == cited;
  }

  lemma CitedChunksSnoc<T>(cited: seq<nat>, top: seq<T>)
    requires cited != []
    ensures var k := cited[|cited| - 1];
      CitedChunks(cited, top) ==
        CitedChunks(cited[..|cited| - 1], top) + (if 1 <= k <= |top| then [top[k - 1]] else [])
  {
  }

  /** An answer has citation numbers exactly when `cited_indices` is non-empty. */
  lemma CitedEmpty(answer: string)
    ensures Cited(answer) == [] <==> Numbers(Scan(answer)) == []
  {
    var nums := Numbers(Scan(answer));
    if nums != [] {
      assert nums[0] in nums;
    }
  }

  // ---------------------------------------------------------------------------
  // Properties of the renumbering

  /**
   * The renumbering map is dense and strictly monotone: it sends the distinct cited
   * numbers, ascending, onto 1..n, so smaller old numbers get smaller new ones.
   */
  lemma IndexMapOrder(cited: seq<nat>, a: nat, b: nat)
    requires Increasing(cited) && a in cited && b in cited
    ensures var m := IndexMap(cited);
      && 1 <= m[a] <= |cited| && cited[m[a] - 1] == a
      && (a < b <==> m[a] < m[b])
  {
    var x := IndexOf(cited, a);
    var y := IndexOf(cited, b);
    assert IndexMap(cited)[a] == x + 1 && IndexMap(cited)[b] == y + 1;
    if x < y {
      assert cited[x] < cited[y];
    } else if y < x {
      assert cited[y] < cited[x];
    }
  }

  /** The position of a value in a sequence. */
  lemma IndexOf(s: seq<nat>, a: nat) returns (x: nat)
    requires a in s
    ensures x < |s| && s[x] == a
  {
    x :| 0 <= x < |s| && s[x] == a;
  }

  /**
   * `renumber` rewrites every marker of the answer through the map: no marker keeps its
   * old digits, because every cited number is in the map with a non-zero value.
   * (For an answer, `ps` is `Scan(answer)` and `cited` is `Cited(answer)`.)
   */
  lemma MarkerRenumbered(ps: seq<Piece>, cited: seq<nat>, i: nat)
    requires WellFormed(ps) && Increasing(cited)
    requires forall n | n in Numbers(ps) :: n in cited
    requires i < |ps| && ps[i].Marker?
    ensures var m := IndexMap(cited); var a := DigitsToNat(ps[i].digits);
      a in m && Renumber(ps, m)[i] == Marker(NatToString(m[a]))
  {
    MarkerNumberIn(ps, i);
    IndexMapOrder(cited, DigitsToNat(ps[i].digits), DigitsToNat(ps[i].digits));
  }

  lemma {:induction false} MarkerNumberIn(ps: seq<Piece>, i: nat)
    requires WellFormed(ps) && i < |ps| && ps[i].Marker?
    ensures DigitsToNat(ps[i].digits) in Numbers(ps)
  {
    if i > 0 {
      MarkerNumberIn(ps[1..], i - 1);
      assert ps[1..][i - 1] == ps[i];
    }
  }

  // ---------------------------------------------------------------------------
  // Rescanning the renumbered answer finds the same markers

  lemma RenumberCons(p: Piece, ps: seq<Piece>, m: map<nat, nat>)
    requires WellFormed(ps) && (p.Marker? ==> p.digits != [] && AllDigits(p.digits))
    ensures WellFormed([p] + ps) && Renumber([p] + ps, m) == [RenumberPiece(p, m)] + Renumber(ps, m)
  {
    var qs := [p] + ps;
    forall i | 0 <= i < |qs| && qs[i].Marker? ensures qs[i].digits != [] && AllDigits(qs[i].digits) {
      if i > 0 {
        assert qs[i] == ps[i - 1];
      }
    }
    var r, r' := Renumber(qs, m), [RenumberPiece(p, m)] + Renumber(ps, m);
    forall i | 0 <= i < |r| ensures r[i] == r'[i] {
      if i > 0 {
        assert qs[i] == ps[i - 1];
      }
    }
  }

  /** How `re.sub` proceeds past a literal character. */
  lemma RenumberTextLit(s: string, m: map<nat, nat>)
    requires s != [] && MarkerLen(s) == 0
    ensures RenumberText(s, m) == [s[0]] + RenumberText(s[1..], m)
  {
    ScanLit(s);
    RenumberCons(Lit(s[0]), Scan(s[1..]), m);
    FlattenCons(Lit(s[0]), Renumber(Scan(s[1..]), m));
  }

  /** How `re.sub` replaces a marker. */
  lemma RenumberTextMarker(s: string, m: map<nat, nat>)
    requires MarkerLen(s) > 0
    ensures var k := MarkerLen(s);
      RenumberText(s, m) == "[" + NewDigits(s[1..k + 1], m) + "]" + RenumberText(s[k + 2..], m)
  {
    var k := MarkerLen(s);
    ScanMarker(s);
    RenumberCons(Marker(s[1..k + 1]), Scan(s[k + 2..]), m);
    FlattenCons(Marker(NewDigits(s[1..k + 1], m)), Renumber(Scan(s[k + 2..]), m));
  }

  /** Re-rendering the scan of `u` through `Renumber` keeps its leading digits in place. */
  lemma {:induction false} RenderedDigitPrefix(u: string, m: map<nat, nat>, j: nat)
    requires j <= DigitRun(u)
    ensures RenumberText(u, m) == u[..j] + RenumberText(u[j..], m)
    decreases j
  {
    if j > 0 {
      assert u[..DigitRun(u)][0] == u[0];
      assert MarkerLen(u) == 0;
      RenumberTextLit(u, m);
      RenderedDigitPrefix(u[1..], m, j - 1);
      ConsPrefix(u, j, RenumberText(u[j..], m));
    }
  }

  lemma ConsPrefix(u: string, j: nat, t: string)
    requires 0 < j <= |u|
    ensures [u[0]] + (u[1..][..j - 1] + t) == u[..j] + t
    ensures u[1..][j - 1..] == u[j..]
  {
    assert u[..j] == [u[0]] + u[1..][..j - 1];
  }

  /** The renumbered text of a non-empty `u` starts with `u`'s first character. */
  lemma RenderedFirst(u: string, m: map<nat, nat>)
    requires u != []
    ensures var t := RenumberText(u, m); t != [] && t[0] == u[0]
  {
    if MarkerLen(u) > 0 {
      RenumberTextMarker(u, m);
    } else {
      RenumberTextLit(u, m);
    }
  }

  lemma {:induction false} DigitRunOf(d: string, u: string)
    requires AllDigits(d) && (u == [] || !IsDigit(u[0]))
    ensures DigitRun(d + u) == |d|
    decreases |d|
  {
    if d != [] {
      DigitRunOf(d[1..], u);
      assert (d + u)[1..] == d[1..] + u;
    } else {
      assert d + u == u;
    }
  }

  /** A marker written out is scanned back as that marker. */
  lemma ScanMarkerText(d: string, tail: string)
    requires d != [] && AllDigits(d)
    ensures Scan("[" + d + "]" + tail) == [Marker(d)] + Scan(tail)
  {
    var t := "[" + d + "]" + tail;
    assert t[1..] == d + ("]" + tail);
    DigitRunOf(d, "]" + tail);
    assert t[1..][..|d|] == d;
    assert MarkerLen(t) == |d|;
    assert t[1..|d| + 1] == d;
    assert t[|d| + 2..] == tail;
    ScanMarker(t);
  }

  /**
   * A character of the answer where no marker starts still starts none after the rest
   * has been renumbered.
   */
  lemma NoMarkerAfterRenumber(s: string, m: map<nat, nat>)
    requires s != [] && MarkerLen(s) == 0
    ensures MarkerLen([s[0]] + RenumberText(s[1..], m)) == 0
  {
    var u := s[1..];
    var tail := RenumberText(u, m);
    var t := [s[0]] + tail;
    if s[0] == '[' {
      var j := DigitRun(u);
      RenderedDigitPrefix(u, m, j);
      var w := u[j..];
      assert tail == u[..j] + RenumberText(w, m);
      assert t[1..] == tail;
      if w != [] {
        RenderedFirst(w, m);
        assert w[0] == u[j];
        DigitRunOf(u[..j], RenumberText(w, m));
      } else {
        assert Scan(w) == [];
        assert tail == u[..j] + [];
        DigitRunOf(u[..j], []);
      }
      assert DigitRun(t[1..]) == j;
    }
  }

  /**
   * Scanning the renumbered answer again yields exactly the renumbered pieces: the new
   * markers are all found, and no new marker appears.
   */
  lemma {:induction false} RescanRenumbered(s: string, m: map<nat, nat>)
    ensures Scan(RenumberText(s, m)) == Renumber(Scan(s), m)
    decreases |s|
  {
    if s == [] { return; }
    var k := MarkerLen(s);
    if k > 0 {
      var rest := s[k + 2..];
      var d := NewDigits(s[1..k + 1], m);
      RenumberTextMarker(s, m);
      ScanMarkerText(d, RenumberText(rest, m));
      RescanRenumbered(rest, m);
      ScanMarker(s);
      RenumberCons(Marker(s[1..k + 1]), Scan(rest), m);
    } else {
      var u := s[1..];
      var t := [s[0]] + RenumberText(u, m);
      RenumberTextLit(s, m);
      NoMarkerAfterRenumber(s, m);
      assert t[1..] == RenumberText(u, m);
      ScanLit(t);
      RescanRenumbered(u, m);
      ScanLit(s);
      RenumberCons(Lit(s[0]), Scan(u), m);
    }
  }

  // ---------------------------------------------------------------------------
  // The context before a marker: `re.search(r'(.{0,100})\[n\]', answer)`

  const CONTEXT_WINDOW: nat := 100

  predicate NoNewline(s: string) { forall i | 0 <= i < |s| :: s[i] != '\n' }

  /** `[n]` as the f-string writes it. */
  function CitationMarker(n: int): (m: string)
    ensures |m| >= 3 && m[0] == '[' && m[|m| - 1] == ']'
  {
    "[" + IntToString(n) + "]"
  }

  /** The pattern matches with its group `answer[p..p + len]`. */
  predicate GroupMatch(s: string, m: string, p: nat, len: nat) {
    len <= CONTEXT_WINDOW && p + len <= |s| && NoNewline(s[p..p + len]) && OccursAt(s, m, p + len)
  }

  /** Greedy `.{0,100}`: the longest group length not above `len` that lets the pattern match at `p`. */
  function LongestGroup(s: string, m: string, p: nat, len: nat): (r: Option<nat>)
    ensures r.Some? ==> r.value <= len && GroupMatch(s, m, p, r.value)
    ensures r.Some? ==> forall l | r.value < l <= len :: !GroupMatch(s, m, p, l)
    ensures r.None? ==> forall l | 0 <= l <= len :: !GroupMatch(s, m, p, l)
  {
    if GroupMatch(s, m, p, len) then Some(len)
    else if len == 0 then None
    else LongestGroup(s, m, p, len - 1)
  }

  /** `re.search` from position `p` on: the leftmost start, then the longest group there. */
  function SearchFrom(s: string, m: string, p: nat): (r: Option<(nat, nat)>)
    ensures r.Some? ==> var (q, len) := r.value;
      && p <= q && GroupMatch(s, m, q, len)
      && (forall l | len < l <= CONTEXT_WINDOW :: !GroupMatch(s, m, q, l))
      && (forall q': nat, l: nat | p <= q' < q && l <= CONTEXT_WINDOW :: !GroupMatch(s, m, q', l))
    ensures r.None? ==> forall q': nat, l: nat | p <= q' && l <= CONTEXT_WINDOW :: !GroupMatch(s, m, q', l)
    decreases |s| + 1 - p
  {
    if p > |s| then None
    else
      match LongestGroup(s, m, p, CONTEXT_WINDOW)
      case Some(len) => Some((p, len))
      case None => SearchFrom(s, m, p + 1)
  }

  /** Stripping keeps a newline-free text newline-free. */
  lemma StripNoNewline(s: string)
    requires NoNewline(s)
    ensures NoNewline(Strip(s))
  {
    var l := LStrip(s);
    var r := RStrip(l);
    forall i | 0 <= i < |r| ensures r[i] != '\n' {
      assert r[i] == l[i];
      assert l[i] == s[|s| - |l| + i];
    }
  }

  /** When the search finds nothing, the marker occurs nowhere (an empty group always fits). */
  lemma NoMatchNoMarker(s: string, m: string)
    requires SearchFrom(s, m, 0).None?
    ensures !Contains(s, m)
  {
    forall q: nat | q <= |s| ensures !OccursAt(s, m, q) {
      assert !GroupMatch(s, m, q, 0);
    }
  }

  /**
   * `extract_context_before_citation`: "" when `[n]` does not occur; otherwise the
   * stripped group of the leftmost match, which is newline-free, at most 100 characters
   * long and immediately followed by `[n]`.
   */
  function ContextBefore(answer: string, n: int): (r: string)
    ensures !Contains(answer, CitationMarker(n)) ==> r == []
    ensures |r| <= CONTEXT_WINDOW && NoNewline(r)
    ensures Contains(answer, CitationMarker(n)) ==>
      exists p: nat, len: nat | GroupMatch(answer, CitationMarker(n), p, len) :: r == Strip(answer[p..p + len])
  {
    var m := CitationMarker(n);
    var found := SearchFrom(answer, m, 0);
    if found.None? then
      NoMatchNoMarker(answer, m);
      []
    else
      var p, len := found.value.0, found.value.1;
      StripNoNewline(answer[p..p + len]);
      Strip(answer[p..p + len])
  }

  // ---------------------------------------------------------------------------
  // Best element and preview for a cited chunk

  const STOPWORDS: set<string> :=
    {"the", "a", "an", "is", "was", "were", "for", "of", "to", "in", "and", "or", "that", "this"}

  const PREVIEW_LENGTH: nat := 150

  /** The words to match: from the answer context when there is one, else from the chunk's first 150 characters. */
  function SearchWords(chunkText: string, answerContext: string): set<string> {
    var searchText := if answerContext != [] then answerContext else Prefix(chunkText, PREVIEW_LENGTH);
    WordSet(searchText) - STOPWORDS
  }

  /** `len(elem_words & search_words)` */
  function Overlap(elemText: string, searchWords: set<string>): nat {
    |(WordSet(elemText) - STOPWORDS) * searchWords|
  }

  /** The overlap of each element of the map with the search words, in map order. */
  function Overlaps(elements: seq<Chunker.Element>, searchWords: set<string>): (r: seq<nat>)
    ensures |r| == |elements|
  {
    if elements == [] then []
    else Overlaps(elements[..|elements| - 1], searchWords) + [Overlap(elements[|elements| - 1].text, searchWords)]
  }

  lemma {:induction false} OverlapsAt(elements: seq<Chunker.Element>, searchWords: set<string>, i: nat)
    requires i < |elements|
    ensures Overlaps(elements, searchWords)[i] == Overlap(elements[i].text, searchWords)
  {
    if i < |elements| - 1 {
      var init := elements[..|elements| - 1];
      OverlapsAt(init, searchWords, i);
      assert init[i] == elements[i];
    }
  }

  lemma OverlapsSnoc(elements: seq<Chunker.Element>, searchWords: set<string>, i: nat)
    requires i < |elements|
    ensures Overlaps(elements[..i + 1], searchWords)
         == Overlaps(elements[..i], searchWords) + [Overlap(elements[i].text, searchWords)]
  {
    assert elements[..i + 1][..i] == elements[..i];
  }

  /** `b` is the first position holding the largest score. */
  predicate FirstMax(scores: seq<nat>, b: int) {
    && 0 <= b < |scores|
    && (forall j | 0 <= j < |scores| :: scores[j] <= scores[b])
    && (forall j | 0 <= j < b :: scores[j] < scores[b])
  }

  /** Every score is below the threshold `t`. */
  predicate AllBelow(scores: seq<nat>, t: nat) {
    forall j | 0 <= j < |scores| :: scores[j] < t
  }

  /** One more score: it takes over exactly when it beats the best so far (`score > best_score`). */
  lemma FirstMaxSnoc(scores: seq<nat>, b: int, x: nat)
    requires FirstMax(scores, b)
    ensures FirstMax(scores + [x], if x > scores[b] then |scores| else b)
  {
  }

  /** A score reaching a threshold that every earlier score missed is the first maximum so far. */
  lemma FirstMaxAbove(scores: seq<nat>, t: nat, x: nat)
    requires AllBelow(scores, t) && t <= x
    ensures FirstMax(scores + [x], |scores|)
  {
  }

  /**
   * `pick_best_element_index`: the chunk's own element index (default 0) unless some
   * element shares at least MIN_WORD_OVERLAP search words; then the index of the first
   * element with the largest overlap.
   */
  method PickBestElementIndex(chunkText: string, chunkElementIndex: Option<int>,
                              elements: seq<Chunker.Element>, answerContext: string)
    returns (r: int)
    ensures var scores := Overlaps(elements, SearchWords(chunkText, answerContext));
      if AllBelow(scores, Config.MIN_WORD_OVERLAP) then r == chunkElementIndex.GetOr(0)
      else exists b | FirstMax(scores, b) :: r == elements[b].index && scores[b] >= Config.MIN_WORD_OVERLAP
  {
    var fallback := chunkElementIndex.GetOr(0);
    if |elements| == 0 {
      return fallback;
    }
    var words := SearchWords(chunkText, answerContext);
    if words == {} {
      forall i | 0 <= i < |elements| ensures Overlaps(elements, words)[i] == 0 {
        OverlapsAt(elements, words, i);
      }
      return fallback;
    }
    r := BestOverlap(elements, words, fallback);
  }

  /** The scoring loop of `pick_best_element_index`, over every element of the map. */
  method BestOverlap(elements: seq<Chunker.Element>, searchWords: set<string>, fallback: int) returns (r: int)
    ensures var scores := Overlaps(elements, searchWords);
      if AllBelow(scores, Config.MIN_WORD_OVERLAP) then r == fallback
      else exists b | FirstMax(scores, b) :: r == elements[b].index && scores[b] >= Config.MIN_WORD_OVERLAP
  {
    r := fallback;
    var bestScore: nat := 0;
    ghost var best: int := -1;
    ghost var seen: seq<nat> := [];
    for i := 0 to |elements|
      invariant seen == Overlaps(elements[..i], searchWords)
      invariant best < i
      invariant best < 0 ==> bestScore == 0 && r == fallback && AllBelow(seen, Config.MIN_WORD_OVERLAP)
      invariant best >= 0 ==> r == elements[best].index && bestScore == seen[best] >= Config.MIN_WORD_OVERLAP
      invariant best >= 0 ==> FirstMax(seen, best)
    {
      var overlap := Overlap(elements[i].text, searchWords);
      OverlapsSnoc(elements, searchWords, i);
      if best >= 0 {
        FirstMaxSnoc(seen, best, overlap);
      } else if overlap >= Config.MIN_WORD_OVERLAP {
        FirstMaxAbove(seen, Config.MIN_WORD_OVERLAP, overlap);
      }
      seen := seen + [overlap];
      if overlap < Config.MIN_WORD_OVERLAP {
        continue;
      }
      if overlap > bestScore {
        bestScore := overlap;
        r := elements[i].index;
        best := i;
      }
    }
    assert elements[..|elements|] == elements;
  }

  /** The preview window's score: context words among the words of the lower-cased window. */
  function WindowScore(chunkText: string, contextWords: set<string>, start: nat, previewLength: nat): nat {
    |contextWords * WordsOf(Slice(Lower(chunkText), start, start + previewLength))|
  }

  /** `max(1, len(chunk_text) - preview_length)`: window starts stay below this. */
  function WindowBound(chunkText: string, previewLength: nat): nat {
    if |chunkText| - previewLength > 1 then |chunkText| - previewLength else 1
  }

  /** The number of window starts in `range(0, WindowBound, 50)`. */
  function WindowCount(chunkText: string, previewLength: nat): nat {
    (WindowBound(chunkText, previewLength) + 49) / 50
  }

  lemma WindowCountOf(bound: nat, k: nat)
    requires 50 * (k - 1) < bound <= 50 * k
    ensures (bound + 49) / 50 == k
  {
  }

  /** The `k`-th window start is tried exactly when it lies below the bound. */
  lemma WindowStarts(chunkText: string, previewLength: nat, k: nat)
    ensures k < WindowCount(chunkText, previewLength) <==> 50 * k < WindowBound(chunkText, previewLength)
  {
  }

  /** The scores of the first `k` windows (starts 0, 50, ...), in order. */
  function WindowScoresUpTo(chunkText: string, contextWords: set<string>, previewLength: nat, k: nat): (r: seq<nat>)
    ensures |r| == k
  {
    if k == 0 then []
    else WindowScoresUpTo(chunkText, contextWords, previewLength, k - 1)
         + [WindowScore(chunkText, contextWords, 50 * (k - 1), previewLength)]
  }

  /** The score of every window the loop tries. */
  function WindowScores(chunkText: string, contextWords: set<string>, previewLength: nat): seq<nat> {
    WindowScoresUpTo(chunkText, contextWords, previewLength, WindowCount(chunkText, previewLength))
  }

  /** The scores so far, followed by the next window's score. */
  lemma WindowScoresSnoc(chunkText: string, contextWords: set<string>, previewLength: nat, k: nat,
                         start: nat, seen: seq<nat>, score: nat)
    requires start == 50 * k
    requires seen == WindowScoresUpTo(chunkText, contextWords, previewLength, k)
    requires score == WindowScore(chunkText, contextWords, start, previewLength)
    ensures seen + [score] == WindowScoresUpTo(chunkText, contextWords, previewLength, k + 1)
  {
  }

  /** Position `j` of the score list is the window starting at `50 * j`. */
  lemma {:induction false} WindowScoresAt(chunkText: string, contextWords: set<string>, previewLength: nat, k: nat, j: nat)
    requires j < k
    ensures WindowScoresUpTo(chunkText, contextWords, previewLength, k)[j]
         == WindowScore(chunkText, contextWords, 50 * j, previewLength)
  {
    var init := WindowScoresUpTo(chunkText, contextWords, previewLength, k - 1);
    var last := WindowScore(chunkText, contextWords, 50 * (k - 1), previewLength);
    assert WindowScoresUpTo(chunkText, contextWords, previewLength, k) == init + [last];
    if j < k - 1 {
      WindowScoresAt(chunkText, contextWords, previewLength, k - 1, j);
      assert (init + [last])[j] == init[j];
    }
  }

  /** The best window so far: none tried yet (start 0, score 0), or the first maximum. */
  predicate Tracking(seen: seq<nat>, best: nat, bestScore: nat) {
    if |seen| == 0 then best == 0 && bestScore == 0
    else FirstMax(seen, best) && bestScore == seen[best]
  }

  /** One more window: it takes over exactly when its score beats the best so far. */
  lemma TrackingSnoc(seen: seq<nat>, best: nat, bestScore: nat, score: nat)
    requires Tracking(seen, best, bestScore)
    ensures score > bestScore ==> Tracking(seen + [score], |seen|, score)
    ensures score <= bestScore ==> Tracking(seen + [score], best, bestScore)
  {
    if |seen| == 0 {
      FirstMaxAbove(seen, 0, score);
    } else {
      FirstMaxSnoc(seen, best, score);
    }
  }

  /**
   * The sliding-window loop of `pick_best_preview`, over
   * `range(0, max(1, len(chunk_text) - preview_length), 50)`: the first start with the
   * highest score, and that score.
   */
  method BestWindowStart(chunkText: string, contextWords: set<string>, previewLength: nat)
    returns (bestStart: nat, bestScore: nat)
    ensures var scores := WindowScores(chunkText, contextWords, previewLength);
      exists b | FirstMax(scores, b) :: bestStart == 50 * b && bestScore == scores[b]
  {
    var bound := if |chunkText| - previewLength > 1 then |chunkText| - previewLength else 1;
    bestStart, bestScore := 0, 0;
    ghost var best: nat := 0;
    ghost var k: nat := 0;
    ghost var seen: seq<nat> := [];
    var start: nat := 0;
    while start < bound
      invariant start == 50 * k && bestStart == 50 * best && |seen| == k
      invariant k > 0 ==> 50 * (k - 1) < bound
      invariant seen == WindowScoresUpTo(chunkText, contextWords, previewLength, k)
      invariant Tracking(seen, best, bestScore)
      decreases bound - start
    {
      var score := WindowScore(chunkText, contextWords, start, previewLength);
      WindowScoresSnoc(chunkText, contextWords, previewLength, k, start, seen, score);
      TrackingSnoc(seen, best, bestScore, score);
      seen := seen + [score];
      if score > bestScore {
        bestScore := score;
        bestStart := start;
        best := k;
      }
      start := start + 50;
      k := k + 1;
    }
    WindowCountOf(bound, k);
    assert seen == WindowScores(chunkText, contextWords, previewLength);
    assert FirstMax(seen, best);
  }

  /** The fallback preview: the first `previewLength` characters, stripped. */
  function HeadPreview(chunkText: string, previewLength: nat): string {
    Strip(Prefix(chunkText, previewLength))
  }

  /** The preview cut at `start`, with "..." where text was cut off on either side. */
  function WindowPreview(chunkText: string, start: nat, previewLength: nat): string {
    (if start > 0 then "..." else "")
    + Strip(Slice(chunkText, start, start + previewLength))
    + (if start + previewLength < |chunkText| then "..." else "")
  }

  /**
   * `pick_best_preview`: the head of the chunk when there is no context or the chunk is
   * short; the head with "..." when no window scores MIN_WORD_OVERLAP; otherwise the
   * first best-scoring window, with "..." marking cut text.
   */
  method PickBestPreview(chunkText: string, answerContext: string, previewLength: nat)
    returns (r: string)
    ensures answerContext == [] || |chunkText| <= previewLength ==>
      r == HeadPreview(chunkText, previewLength) + (if |chunkText| > previewLength then "..." else "")
    ensures answerContext != [] && |chunkText| > previewLength ==>
      var scores := WindowScores(chunkText, WordSet(answerContext) - STOPWORDS, previewLength);
      if AllBelow(scores, Config.MIN_WORD_OVERLAP) then r == HeadPreview(chunkText, previewLength) + "..."
      else exists b | FirstMax(scores, b) :: r == WindowPreview(chunkText, 50 * b, previewLength)
  {
    if answerContext == [] || |chunkText| <= previewLength {
      return HeadPreview(chunkText, previewLength) + (if |chunkText| > previewLength then "..." else "");
    }
    var contextWords := WordSet(answerContext) - STOPWORDS;
    ghost var scores := WindowScores(chunkText, contextWords, previewLength);
    if contextWords == {} {
      forall j | 0 <= j < |scores| ensures scores[j] == 0 {
        WindowScoresAt(chunkText, contextWords, previewLength, |scores|, j);
      }
      return HeadPreview(chunkText, previewLength) + "...";
    }
    var bestStart, bestScore := BestWindowStart(chunkText, contextWords, previewLength);
    if bestScore < Config.MIN_WORD_OVERLAP {
      return HeadPreview(chunkText, previewLength) + "...";
    }
    r := WindowPreview(chunkText, bestStart, previewLength);
  }

  // ---------------------------------------------------------------------------
  // Request validation and the history window

  datatype ChatMessage = ChatMessage(role: string, content: string)

  /**
   * The checks of `send_message` before ingestion, in the order they run, and on
   * success the conversation history passed on: `messages[:-1][-MAX_CONVERSATION_HISTORY:]`.
   */
  function ValidateRequest(filingId: string, messages: seq<ChatMessage>): (r: Result<seq<ChatMessage>, HttpError>)
    ensures messages == [] ==> r == Err(HttpError(400, "Messages array cannot be empty"))
    ensures messages != [] && filingId == [] ==> r == Err(HttpError(400, "Filing ID is required"))
    ensures messages != [] && filingId != [] && messages[|messages| - 1].role != "user" ==>
      r == Err(HttpError(400, "Last message must be from user"))
    ensures messages != [] && filingId != [] && messages[|messages| - 1].role == "user"
            && Strip(messages[|messages| - 1].content) == [] ==>
      r == Err(HttpError(400, "Message content cannot be empty"))
    ensures r.Ok? <==> && messages != [] && filingId != []
                       && messages[|messages| - 1].role == "user"
                       && Strip(messages[|messages| - 1].content) != []
    ensures r.Err? ==> r.error.status == 400
    ensures r.Ok? ==>
      && |r.value| == (if |messages| - 1 < Config.MAX_CONVERSATION_HISTORY then |messages| - 1 else Config.MAX_CONVERSATION_HISTORY)
      && r.value == messages[|messages| - 1 - |r.value|..|messages| - 1]
  {
    if messages == [] then Err(HttpError(400, "Messages array cannot be empty"))
    else if filingId == [] then Err(HttpError(400, "Filing ID is required"))
    else if messages[|messages| - 1].role != "user" then Err(HttpError(400, "Last message must be from user"))
    else if Strip(messages[|messages| - 1].content) == [] then Err(HttpError(400, "Message content cannot be empty"))
    else
      var earlier := messages[..|messages| - 1];
      var keep := if |earlier| < Config.MAX_CONVERSATION_HISTORY then |earlier| else Config.MAX_CONVERSATION_HISTORY;
      Ok(earlier[|earlier| - keep..])
  }
}
