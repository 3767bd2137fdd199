/**
 * The HTML sanitiser (`sanitize_html.py`) over the parsed document, read as its entries in
 * document order: elements with their tag name, nesting depth and attributes, and text
 * strings at their depth. The subtree of an element is the run of entries right after it
 * that lie deeper than it. Parsing and serialising the HTML are not part of this model.
 *
 * `sanitize` works in stages, each one a pass over the entries:
 *  1. decompose every `script`, `link rel=stylesheet`, `style` and `img` element with its subtree;
 *  2. delete the event-handler attributes, and `href`/`src`/`style` values naming `javascript:`;
 *  3. clean the `style` of the known SEC container elements (`_unhide_sec_containers`);
 *  4. number the tables (`data-table-index`);
 *  5. number headings and bold text, then the longer text blocks (`data-element-index`).
 */
module SanitizeHtml {
  import opened Text
  import opened Wrappers

  /** An attribute value; `class`, `rel` and the other multi-valued attributes hold a token list. */
  datatype AttrValue = Str(s: string) | Tokens(ts: seq<string>)

  type Attrs = map<string, AttrValue>

  /** One entry of the document: an element (tag names are lower case) or a text string. */
  datatype Node =
    | Element(tag: string, depth: nat, attrs: Attrs)
    | TextNode(depth: nat, s: string)

  // ---------------------------------------------------------------------------
  // Subtrees

  /** The first position from `k` on whose entry is not deeper than `d`. */
  function ScanEnd(nodes: seq<Node>, d: nat, k: nat): (j: nat)
    requires k <= |nodes|
    ensures k <= j <= |nodes|
    ensures forall q | k <= q < j :: nodes[q].depth > d
    ensures j == |nodes| || nodes[j].depth <= d
    decreases |nodes| - k
  {
    if k == |nodes| || nodes[k].depth <= d then k else ScanEnd(nodes, d, k + 1)
  }

  /** One past the last entry of the subtree of `nodes[i]`. */
  function SubtreeEnd(nodes: seq<Node>, i: nat): (j: nat)
    requires i < |nodes|
    ensures i < j <= |nodes|
    ensures forall q | i < q < j :: nodes[q].depth > nodes[i].depth
    ensures j == |nodes| || nodes[j].depth <= nodes[i].depth
  {
    ScanEnd(nodes, nodes[i].depth, i + 1)
  }

  /** A subtree inside the subtree of `nodes[m]` ends no later than it. */
  lemma InnerSubtree(nodes: seq<Node>, m: nat, i: nat)
    requires m < |nodes| && m < i < SubtreeEnd(nodes, m)
    ensures SubtreeEnd(nodes, i) <= SubtreeEnd(nodes, m)
  {
  }

  // ---------------------------------------------------------------------------
  // Stage 1: decompose script, stylesheet link, style and img elements

  datatype Removal = Scripts | StylesheetLinks | StyleBlocks | Images

  /** The four `find_all(...)` / `decompose()` loops, in their order. */
  const REMOVALS: seq<Removal> := [Scripts, StylesheetLinks, StyleBlocks, Images]

  /**
   * `rel="stylesheet"` as `find_all` matches it: against each token of the multi-valued
   * attribute, and against the tokens joined by spaces.
   */
  predicate RelStylesheet(v: AttrValue) {
    match v
    case Str(s) => s == "stylesheet"
    case Tokens(ts) => "stylesheet" in ts || Join(ts, " ") == "stylesheet"
  }

  predicate Matches(n: Node, kind: Removal) {
    n.Element? &&
    match kind
    case Scripts => n.tag == "script"
    case StylesheetLinks => n.tag == "link" && "rel" in n.attrs && RelStylesheet(n.attrs["rel"])
    case StyleBlocks => n.tag == "style"
    case Images => n.tag == "img"
  }

  /** The entries from `m` on that survive decomposing every element matching `kind`. */
  function PruneFrom(nodes: seq<Node>, kind: Removal, m: nat): seq<Node>
    requires m <= |nodes|
    decreases |nodes| - m
  {
    if m == |nodes| then []
    else if Matches(nodes[m], kind) then PruneFrom(nodes, kind, SubtreeEnd(nodes, m))
    else [nodes[m]] + PruneFrom(nodes, kind, m + 1)
  }

  /** `for x in soup.find_all(...): x.decompose()` for one kind. */
  method Decompose(nodes: seq<Node>, kind: Removal) returns (kept: seq<Node>)
    ensures kept == PruneFrom(nodes, kind, 0)
  {
    kept := [];
    var i := 0;
    while i < |nodes|
      invariant 0 <= i <= |nodes|
      invariant kept + PruneFrom(nodes, kind, i) == PruneFrom(nodes, kind, 0)
      decreases |nodes| - i
    {
      if Matches(nodes[i], kind) {
        i := SubtreeEnd(nodes, i);
      } else {
        assert PruneFrom(nodes, kind, i) == [nodes[i]] + PruneFrom(nodes, kind, i + 1);
        kept := kept + [nodes[i]];
        i := i + 1;
      }
    }
    assert kept + [] == kept;
  }

  /** `nodes[j]` is, or lies inside, an element matching `kind`. */
  predicate Covered(nodes: seq<Node>, kind: Removal, j: nat)
    requires j < |nodes|
  {
    exists i | 0 <= i <= j :: Matches(nodes[i], kind) && j < SubtreeEnd(nodes, i)
  }

  /** The entries from `m` on that are not covered, in order. */
  function UncoveredFrom(nodes: seq<Node>, kind: Removal, m: nat): seq<Node>
    requires m <= |nodes|
    decreases |nodes| - m
  {
    if m == |nodes| then []
    else (if Covered(nodes, kind, m) then [] else [nodes[m]]) + UncoveredFrom(nodes, kind, m + 1)
  }

  /** No subtree of a matching element that starts before `m` reaches past it. */
  predicate BoundaryAt(nodes: seq<Node>, kind: Removal, m: nat)
    requires m <= |nodes|
  {
    forall i | 0 <= i < m && Matches(nodes[i], kind) :: SubtreeEnd(nodes, i) <= m
  }

  lemma {:induction false} SkipCovered(nodes: seq<Node>, kind: Removal, m: nat, e: nat)
    requires m <= e <= |nodes|
    requires forall j | m <= j < e :: Covered(nodes, kind, j)
    ensures UncoveredFrom(nodes, kind, m) == UncoveredFrom(nodes, kind, e)
    decreases e - m
  {
    if m < e {
      SkipCovered(nodes, kind, m + 1, e);
    }
  }

  lemma {:induction false} PruneUncovered(nodes: seq<Node>, kind: Removal, m: nat)
    requires m <= |nodes| && BoundaryAt(nodes, kind, m)
    ensures PruneFrom(nodes, kind, m) == UncoveredFrom(nodes, kind, m)
    decreases |nodes| - m
  {
    if m < |nodes| {
      if Matches(nodes[m], kind) {
        var e := SubtreeEnd(nodes, m);
        forall j | m <= j < e ensures Covered(nodes, kind, j) {
          assert Matches(nodes[m], kind) && j < SubtreeEnd(nodes, m);
        }
        SkipCovered(nodes, kind, m, e);
        forall i | 0 <= i < e && Matches(nodes[i], kind) ensures SubtreeEnd(nodes, i) <= e {
          if m < i {
            InnerSubtree(nodes, m, i);
          }
        }
        PruneUncovered(nodes, kind, e);
      } else {
        assert !Covered(nodes, kind, m);
        PruneUncovered(nodes, kind, m + 1);
      }
    }
  }

  /**
   * Decomposing removes exactly the matching elements and everything inside them: an
   * entry survives when neither it nor an element it lies inside matches, and the
   * survivors keep their order.
   */
  lemma Pruned(nodes: seq<Node>, kind: Removal)
    ensures PruneFrom(nodes, kind, 0) == UncoveredFrom(nodes, kind, 0)
  {
    PruneUncovered(nodes, kind, 0);
  }

  /** What survives is taken from the input and does not match. */
  lemma {:induction false} UncoveredKept(nodes: seq<Node>, kind: Removal, m: nat)
    requires m <= |nodes|
    ensures forall n | n in UncoveredFrom(nodes, kind, m) :: n in nodes[m..] && !Matches(n, kind)
    decreases |nodes| - m
  {
    if m < |nodes| {
      UncoveredKept(nodes, kind, m + 1);
      if Matches(nodes[m], kind) {
        assert m < SubtreeEnd(nodes, m);
      }
      assert nodes[m..] == [nodes[m]] + nodes[m + 1..];
    }
  }

  /** With nothing to match, everything survives. */
  lemma {:induction false} NothingCovered(nodes: seq<Node>, kind: Removal, m: nat)
    requires m <= |nodes|
    requires forall j | 0 <= j < |nodes| :: !Matches(nodes[j], kind)
    ensures UncoveredFrom(nodes, kind, m) == nodes[m..]
    decreases |nodes| - m
  {
    if m < |nodes| {
      NothingCovered(nodes, kind, m + 1);
      assert !Covered(nodes, kind, m);
      assert nodes[m..] == [nodes[m]] + nodes[m + 1..];
    }
  }

  // ---------------------------------------------------------------------------
  // Stage 2: event handlers and javascript: URLs

  const EVENT_HANDLERS: seq<string> := [
    "onclick", "onload", "onerror", "onmouseover", "onmouseout",
    "onmousemove", "onmousedown", "onmouseup", "onfocus", "onblur",
    "onchange", "onsubmit", "onkeydown", "onkeyup", "onkeypress",
    "ondblclick", "oncontextmenu", "oninput", "onscroll"
  ]

  const URL_ATTRS: seq<string> := ["href", "src", "style"]

  /** The value is a string that names `javascript:` in any case. */
  predicate IsJavascript(v: AttrValue) {
    v.Str? && ContainsCI(v.s, "javascript:")
  }

  /** The attribute survives stage 2. */
  predicate KeepsAttr(attrs: Attrs, key: string)
    requires key in attrs
  {
    key !in EVENT_HANDLERS && !(key in URL_ATTRS && IsJavascript(attrs[key]))
  }

  /** The attributes of one tag after stage 2. */
  function CleanAttrs(attrs: Attrs): (r: Attrs)
    ensures forall h | h in EVENT_HANDLERS :: h !in r
    ensures forall a | a in URL_ATTRS && a in r :: !IsJavascript(r[a])
    ensures forall key | key in attrs && key !in EVENT_HANDLERS && key !in URL_ATTRS :: key in r && r[key] == attrs[key]
    ensures forall key | key in attrs && key in URL_ATTRS && !IsJavascript(attrs[key]) :: key in r && r[key] == attrs[key]
    ensures forall key | key in r :: key in attrs && r[key] == attrs[key]
  {
    map key | key in attrs && KeepsAttr(attrs, key) :: attrs[key]
  }

  /** The two inner loops over one tag: `del tag[attr]` for each handler, then for each URL attribute. */
  method CleanAttributes(attrs: Attrs) returns (r: Attrs)
    ensures r == CleanAttrs(attrs)
  {
    r := attrs;
    for k := 0 to |EVENT_HANDLERS|
      invariant forall key :: key in r <==> key in attrs && key !in EVENT_HANDLERS[..k]
      invariant forall key | key in r :: r[key] == attrs[key]
    {
      if EVENT_HANDLERS[k] in r {
        r := r - {EVENT_HANDLERS[k]};
      }
      assert EVENT_HANDLERS[..k + 1] == EVENT_HANDLERS[..k] + [EVENT_HANDLERS[k]];
    }
    assert EVENT_HANDLERS[..|EVENT_HANDLERS|] == EVENT_HANDLERS;
    for k := 0 to |URL_ATTRS|
      invariant forall key :: key in r <==>
        key in attrs && key !in EVENT_HANDLERS && !(key in URL_ATTRS[..k] && IsJavascript(attrs[key]))
      invariant forall key | key in r :: r[key] == attrs[key]
    {
      var attr := URL_ATTRS[k];
      if attr in r {
        var value := r[attr];
        if value.Str? && ContainsCI(value.s, "javascript:") {
          r := r - {attr};
        }
      }
      assert URL_ATTRS[..k + 1] == URL_ATTRS[..k] + [URL_ATTRS[k]];
    }
    assert URL_ATTRS[..|URL_ATTRS|] == URL_ATTRS;
  }

  function CleanNode(n: Node): Node {
    if n.Element? then n.(attrs := CleanAttrs(n.attrs)) else n
  }

  /** `for tag in soup.find_all(): ...`: every tag's attributes are cleaned in place. */
  method StripAttributes(nodes: seq<Node>) returns (r: seq<Node>)
    ensures |r| == |nodes| && forall j | 0 <= j < |nodes| :: r[j] == CleanNode(nodes[j])
  {
    r := nodes;
    for j := 0 to |nodes|
      invariant |r| == |nodes|
      invariant forall q | 0 <= q < j :: r[q] == CleanNode(nodes[q])
      invariant forall q | j <= q < |nodes| :: r[q] == nodes[q]
    {
      if nodes[j].Element? {
        var cleaned := CleanAttributes(nodes[j].attrs);
        r := r[j := nodes[j].(attrs := cleaned)];
      }
    }
  }

  // ---------------------------------------------------------------------------
  // Stage 3: _unhide_sec_containers

  const FILING_CONTAINER_IDS: seq<string> := ["formDiv", "formDiv1", "formDiv2", "Report", "FilingSummary", "MainContent"]

  /**
   * Where a match of `w1\s*:\s*w2\s*;?` (ignoring case) starting at `i` ends, if one
   * starts there. Each `\s*` takes its whole run: what follows it is never a space.
   */
  function DeclarationEnd(s: string, i: nat, w1: string, w2: string): (r: Option<nat>)
    ensures r.Some? ==> i + |w1| + 1 + |w2| <= r.value <= |s|
  {
    if !MatchesAtCI(s, i, w1) then None
    else
      var a := i + |w1| + SpaceRun(s, i + |w1|);
      if a < |s| && s[a] == ':' then
        var b := a + 1 + SpaceRun(s, a + 1);
        if MatchesAtCI(s, b, w2) then
          var c := b + |w2| + SpaceRun(s, b + |w2|);
          Some(if c < |s| && s[c] == ';' then c + 1 else c)
        else None
      else None
  }

  /** `re.sub(w1 + r'\s*:\s*' + w2 + r'\s*;?', '', s[i:], flags=re.IGNORECASE)`: matches are deleted left to right. */
  function RemoveDeclarations(s: string, i: nat, w1: string, w2: string): (r: string)
    requires i <= |s|
    ensures |r| <= |s| - i
    decreases |s| - i
  {
    if i == |s| then []
    else match DeclarationEnd(s, i, w1, w2)
      case Some(e) => RemoveDeclarations(s, e, w1, w2)
      case None => [s[i]] + RemoveDeclarations(s, i + 1, w1, w2)
  }

  /** Text with no declaration in it is left as it is. */
  lemma {:induction false} NoDeclaration(s: string, i: nat, w1: string, w2: string)
    requires i <= |s|
    requires forall j | i <= j < |s| :: DeclarationEnd(s, j, w1, w2).None?
    ensures RemoveDeclarations(s, i, w1, w2) == s[i..]
    decreases |s| - i
  {
    if i < |s| {
      NoDeclaration(s, i + 1, w1, w2);
      assert s[i..] == [s[i]] + s[i + 1..];
    }
  }

  /** No two semicolons in a row. */
  predicate NoDoubleSemicolon(s: string) {
    forall i | 0 <= i < |s| - 1 :: !(s[i] == ';' && s[i + 1] == ';')
  }

  /** `re.sub(r';+', ';', s)` */
  function SqueezeSemicolons(s: string): (r: string)
    ensures NoDoubleSemicolon(r)
    ensures s != [] ==> r != [] && r[0] == s[0]
    ensures |r| <= |s|
  {
    if |s| < 2 then s
    else if s[0] == ';' && s[1] == ';' then SqueezeSemicolons(s[1..])
    else [s[0]] + SqueezeSemicolons(s[1..])
  }

  /** Squeezing shortens runs of semicolons and nothing else. */
  lemma {:induction false} SqueezeKeepsText(s: string)
    ensures RemoveChar(SqueezeSemicolons(s), ';') == RemoveChar(s, ';')
  {
    if |s| >= 2 {
      SqueezeKeepsText(s[1..]);
      if !(s[0] == ';' && s[1] == ';') {
        assert ([s[0]] + SqueezeSemicolons(s[1..]))[1..] == SqueezeSemicolons(s[1..]);
      }
    }
  }

  /** Text that has no two semicolons in a row is left as it is. */
  lemma {:induction false} SqueezeNothing(s: string)
    requires NoDoubleSemicolon(s)
    ensures SqueezeSemicolons(s) == s
  {
    if |s| >= 2 {
      SqueezeNothing(s[1..]);
    }
  }

  lemma NoDoubleSlice(s: string, a: nat, b: nat)
    requires NoDoubleSemicolon(s) && a <= b <= |s|
    ensures NoDoubleSemicolon(s[a..b])
  {
    forall i | 0 <= i < b - a - 1 ensures !(s[a..b][i] == ';' && s[a..b][i + 1] == ';') {
      assert s[a..b][i] == s[a + i] && s[a..b][i + 1] == s[a + i + 1];
    }
  }

  lemma NoDoubleStrip(s: string)
    requires NoDoubleSemicolon(s)
    ensures NoDoubleSemicolon(Strip(s))
  {
    var l := LStrip(s);
    NoDoubleSlice(s, |s| - |l|, |s|);
    NoDoubleSlice(l, 0, |RStrip(l)|);
  }

  lemma {:induction false} NoDoubleStripChar(s: string, c: char)
    requires NoDoubleSemicolon(s)
    ensures NoDoubleSemicolon(StripChar(s, c))
    decreases |s|
  {
    if s != [] && s[0] == c {
      NoDoubleSlice(s, 1, |s|);
      NoDoubleStripChar(s[1..], c);
    } else if s != [] && s[|s| - 1] == c {
      NoDoubleSlice(s, 0, |s| - 1);
      NoDoubleStripChar(s[..|s| - 1], c);
    }
  }

  /** `style.strip().strip(';').strip()` */
  function TrimStyle(t: string): string {
    Strip(StripChar(Strip(t), ';'))
  }

  /** Trimming keeps a text free of double semicolons, and leaves no whitespace at either end. */
  lemma TrimStyleFacts(t: string)
    ensures var r := TrimStyle(t);
      && (NoDoubleSemicolon(t) ==> NoDoubleSemicolon(r))
      && (r == [] || (!IsSpace(r[0]) && !IsSpace(r[|r| - 1])))
      && |r| <= |t|
  {
    if NoDoubleSemicolon(t) {
      NoDoubleStrip(t);
      NoDoubleStripChar(Strip(t), ';');
      NoDoubleStrip(StripChar(Strip(t), ';'));
    }
  }

  /** The new `style` value `_unhide_sec_containers` computes. */
  function CleanStyle(style: string): string {
    var s1 := RemoveDeclarations(style, 0, "display", "none");
    var s2 := RemoveDeclarations(s1, 0, "visibility", "hidden");
    TrimStyle(SqueezeSemicolons(s2))
  }

  /**
   * The cleaned style never has two semicolons in a row, nor whitespace at either end,
   * and it is no longer than the original.
   */
  lemma CleanStyleFacts(style: string)
    ensures var r := CleanStyle(style);
      && NoDoubleSemicolon(r)
      && (r == [] || (!IsSpace(r[0]) && !IsSpace(r[|r| - 1])))
      && |r| <= |style|
  {
    var s1 := RemoveDeclarations(style, 0, "display", "none");
    var s2 := RemoveDeclarations(s1, 0, "visibility", "hidden");
    var s3 := SqueezeSemicolons(s2);
    TrimStyleFacts(s3);
    StyleFactsOf(CleanStyle(style), TrimStyle(s3), |style|);
  }

  /** The facts of a trimmed style carry over to an equal one. */
  lemma StyleFactsOf(r: string, t: string, n: nat)
    requires r == t
    requires NoDoubleSemicolon(t) && (t == [] || (!IsSpace(t[0]) && !IsSpace(t[|t| - 1]))) && |t| <= n
    ensures NoDoubleSemicolon(r) && (r == [] || (!IsSpace(r[0]) && !IsSpace(r[|r| - 1]))) && |r| <= n
  {
  }

  /**
   * The trim chain strips whitespace, then semicolons, then whitespace once each, so a
   * semicolon that only comes to an end after the second strip stays: "a; ;" becomes
   * "a;", which has a trailing semicolon although the chain is there to remove them.
   */
  lemma TrimLeavesSemicolon()
    ensures CleanStyle("a; ;") == "a;"
  {
    var t := "a; ;";
    ExampleHasNoDeclaration();
    SqueezeNothing(t);
    CleanStyleUnchanged(t);
    ExampleTrim();
  }

  /** A style holding neither declaration nor doubled semicolon is only trimmed. */
  lemma CleanStyleUnchanged(style: string)
    requires RemoveDeclarations(style, 0, "display", "none") == style
    requires RemoveDeclarations(style, 0, "visibility", "hidden") == style
    requires SqueezeSemicolons(style) == style
    ensures CleanStyle(style) == TrimStyle(style)
  {
  }

  lemma ExampleHasNoDeclaration()
    ensures RemoveDeclarations("a; ;", 0, "display", "none") == "a; ;"
    ensures RemoveDeclarations("a; ;", 0, "visibility", "hidden") == "a; ;"
  {
    var t := "a; ;";
    forall j | 0 <= j < |t| ensures DeclarationEnd(t, j, "display", "none").None? { }
    NoDeclaration(t, 0, "display", "none");
    assert t[0..] == t;
    forall j | 0 <= j < |t| ensures DeclarationEnd(t, j, "visibility", "hidden").None? { }
    NoDeclaration(t, 0, "visibility", "hidden");
  }

  lemma ExampleTrim()
    ensures TrimStyle("a; ;") == "a;"
  {
    var t := "a; ;";
    StripTrimmed(t);
    assert StripChar(t, ';') == StripChar("a; ", ';') == "a; ";
    assert LStrip("a; ") == "a; ";
    assert RStrip("a; ") == RStrip("a;") == "a;";
  }

  predicate SpaceOrSemicolon(c: char) { IsSpace(c) || c == ';' }

  /** Whitespace and semicolons stripped from both ends, as many as there are. */
  function TrimAll(t: string): (r: string)
    ensures r == [] || (!SpaceOrSemicolon(r[0]) && !SpaceOrSemicolon(r[|r| - 1]))
    ensures NoDoubleSemicolon(t) ==> NoDoubleSemicolon(r)
    ensures |r| <= |t|
  {
    if t != [] && SpaceOrSemicolon(t[0]) then
      NoDoubleTail(t);
      TrimAll(t[1..])
    else if t != [] && SpaceOrSemicolon(t[|t| - 1]) then
      NoDoubleFront(t);
      TrimAll(t[..|t| - 1])
    else t
  }

  lemma NoDoubleTail(t: string)
    requires t != []
    ensures NoDoubleSemicolon(t) ==> NoDoubleSemicolon(t[1..])
  {
    if NoDoubleSemicolon(t) {
      NoDoubleSlice(t, 1, |t|);
    }
  }

  lemma NoDoubleFront(t: string)
    requires t != []
    ensures NoDoubleSemicolon(t) ==> NoDoubleSemicolon(t[..|t| - 1])
  {
    if NoDoubleSemicolon(t) {
      NoDoubleSlice(t, 0, |t| - 1);
    }
  }

  /** Trimming does not depend on the end it starts from. */
  lemma {:induction false} TrimAllDropLast(x: string)
    requires x != [] && SpaceOrSemicolon(x[|x| - 1])
    ensures TrimAll(x) == TrimAll(x[..|x| - 1])
    decreases |x|
  {
    if SpaceOrSemicolon(x[0]) && |x| >= 2 {
      TrimAllDropLast(x[1..]);
      assert x[1..][..|x| - 2] == x[..|x| - 1][1..];
    }
  }

  lemma {:induction false} TrimAllLStrip(x: string)
    ensures TrimAll(LStrip(x)) == TrimAll(x)
    decreases |x|
  {
    if x != [] && IsSpace(x[0]) {
      TrimAllLStrip(x[1..]);
    }
  }

  lemma {:induction false} TrimAllRStrip(x: string)
    ensures TrimAll(RStrip(x)) == TrimAll(x)
    decreases |x|
  {
    if x != [] && IsSpace(x[|x| - 1]) {
      TrimAllDropLast(x);
      TrimAllRStrip(x[..|x| - 1]);
    }
  }

  lemma {:induction false} TrimAllStripChar(x: string)
    ensures TrimAll(StripChar(x, ';')) == TrimAll(x)
    decreases |x|
  {
    if x != [] && x[0] == ';' {
      TrimAllStripChar(x[1..]);
    } else if x != [] && x[|x| - 1] == ';' {
      TrimAllDropLast(x);
      TrimAllStripChar(x[..|x| - 1]);
    }
  }

  /** The trim chain and the full trim agree unless the chain leaves a semicolon at an end. */
  lemma TrimStyleAgrees(t: string)
    ensures var r := TrimStyle(t);
      (r == [] || (r[0] != ';' && r[|r| - 1] != ';')) ==> TrimAll(t) == r
  {
    var s1 := Strip(t);
    var s2 := StripChar(s1, ';');
    var r := Strip(s2);
    TrimAllLStrip(t);
    TrimAllRStrip(LStrip(t));
    assert TrimAll(s1) == TrimAll(t);
    TrimAllStripChar(s1);
    TrimAllLStrip(s2);
    TrimAllRStrip(LStrip(s2));
    assert TrimAll(r) == TrimAll(t);
    if r == [] || (r[0] != ';' && r[|r| - 1] != ';') {
      assert r == [] || (!SpaceOrSemicolon(r[0]) && !SpaceOrSemicolon(r[|r| - 1]));
      assert TrimAll(r) == r;
    }
  }

  /** The style clean-up with both ends trimmed of whitespace and semicolons alike. */
  function CleanStyleIntended(style: string): string {
    var s1 := RemoveDeclarations(style, 0, "display", "none");
    var s2 := RemoveDeclarations(s1, 0, "visibility", "hidden");
    TrimAll(SqueezeSemicolons(s2))
  }

  /**
   * The corrected clean-up leaves no semicolon or whitespace at either end and no two
   * semicolons in a row; it agrees with the code whenever the code leaves no semicolon
   * at an end, and it turns "a; ;" into "a".
   */
  lemma CleanStyleIntendedFacts(style: string)
    ensures var r := CleanStyleIntended(style);
      && NoDoubleSemicolon(r)
      && (r == [] || (!SpaceOrSemicolon(r[0]) && !SpaceOrSemicolon(r[|r| - 1])))
    ensures var w := CleanStyle(style);
      (w == [] || (w[0] != ';' && w[|w| - 1] != ';')) ==> CleanStyleIntended(style) == w
    ensures CleanStyleIntended("a; ;") == "a"
  {
    var s1 := RemoveDeclarations(style, 0, "display", "none");
    var s2 := RemoveDeclarations(s1, 0, "visibility", "hidden");
    TrimStyleAgrees(SqueezeSemicolons(s2));
    TrimLeavesSemicolon();
    TrimAllExample();
  }

  lemma TrimAllExample()
    ensures CleanStyleIntended("a; ;") == "a"
  {
    var t := "a; ;";
    ExampleHasNoDeclaration();
    SqueezeNothing(t);
    CleanStyleIntendedUnchanged(t);
    ExampleTrimAll();
  }

  /** A style holding neither declaration nor doubled semicolon is only trimmed. */
  lemma CleanStyleIntendedUnchanged(style: string)
    requires RemoveDeclarations(style, 0, "display", "none") == style
    requires RemoveDeclarations(style, 0, "visibility", "hidden") == style
    requires SqueezeSemicolons(style) == style
    ensures CleanStyleIntended(style) == TrimAll(style)
  {
  }

  lemma ExampleTrimAll()
    ensures TrimAll("a; ;") == "a"
  {
    var t := "a; ;";
    assert t[..3] == "a; " && "a; "[..2] == "a;" && "a;"[..1] == "a";
    assert TrimAll(t) == TrimAll("a; ") == TrimAll("a;") == TrimAll("a") == "a";
  }

  /** An element whose `id` is one of `ids`. */
  predicate HasIdIn(n: Node, ids: seq<string>) {
    n.Element? && "id" in n.attrs && n.attrs["id"].Str? && n.attrs["id"].s in ids
  }

  /** `del element['style']` when `style` is empty, `element['style'] = style` otherwise. */
  function WithStyle(n: Node, style: string): (r: Node)
    requires n.Element?
    ensures r.Element? && r.tag == n.tag && r.depth == n.depth
    ensures r.attrs - {"style"} == n.attrs - {"style"}
    ensures "style" in r.attrs <==> style != ""
    ensures style != "" ==> r.attrs["style"] == Str(style)
  {
    if style == "" then n.(attrs := n.attrs - {"style"})
    else n.(attrs := n.attrs["style" := Str(style)])
  }

  /** One container after `_unhide_sec_containers` has looked at it. */
  function UnhideStyle(n: Node): Node
    requires n.Element?
  {
    if "style" in n.attrs && n.attrs["style"].Str? then WithStyle(n, CleanStyle(n.attrs["style"].s))
    else n
  }

  /** An entry once the containers with an id among `ids` have been handled. */
  function UnhideAmong(n: Node, ids: seq<string>): Node {
    if HasIdIn(n, ids) then UnhideStyle(n) else n
  }

  /** The container ids are distinct, so no element is handled twice. */
  lemma ContainerIdsDistinct()
    ensures forall k | 0 <= k < |FILING_CONTAINER_IDS| :: FILING_CONTAINER_IDS[k] !in FILING_CONTAINER_IDS[..k]
  {
    var ids := FILING_CONTAINER_IDS;
    assert ids[1][7] == '1' && ids[2][7] == '2';
    assert ids[..1] == ["formDiv"];
    assert ids[..2] == ["formDiv", "formDiv1"];
    assert ids[..3] == ["formDiv", "formDiv1", "formDiv2"];
    assert ids[..4] == ["formDiv", "formDiv1", "formDiv2", "Report"];
    assert ids[..5] == ["formDiv", "formDiv1", "formDiv2", "Report", "FilingSummary"];
    assert ids[..0] == [];
  }

  /** `_unhide_sec_containers(soup)` */
  method UnhideContainers(nodes: seq<Node>) returns (r: seq<Node>)
    ensures |r| == |nodes| && forall j | 0 <= j < |nodes| :: r[j] == UnhideAmong(nodes[j], FILING_CONTAINER_IDS)
  {
    ContainerIdsDistinct();
    r := nodes;
    for k := 0 to |FILING_CONTAINER_IDS|
      invariant |r| == |nodes|
      invariant forall j | 0 <= j < |nodes| :: r[j] == UnhideAmong(nodes[j], FILING_CONTAINER_IDS[..k])
    {
      var containerId := FILING_CONTAINER_IDS[k];
      var done := FILING_CONTAINER_IDS[..k];
      assert FILING_CONTAINER_IDS[..k + 1] == done + [containerId];
      assert containerId !in done;
      for j := 0 to |r|
        invariant |r| == |nodes|
        invariant forall q | 0 <= q < j :: r[q] == UnhideAmong(nodes[q], done + [containerId])
        invariant forall q | j <= q < |nodes| :: r[q] == UnhideAmong(nodes[q], done)
      {
        if nodes[j].Element? && "id" in nodes[j].attrs && nodes[j].attrs["id"] == Str(containerId) {
          assert !HasIdIn(nodes[j], done);
          r := r[j := UnhideStyle(nodes[j])];
        } else {
          assert HasIdIn(nodes[j], done + [containerId]) == HasIdIn(nodes[j], done);
        }
      }
    }
    assert FILING_CONTAINER_IDS[..|FILING_CONTAINER_IDS|] == FILING_CONTAINER_IDS;
  }

  /**
   * Only the `style` of a container changes: it is deleted when the clean-up leaves
   * nothing, and otherwise replaced by the cleaned value, which has no two semicolons
   * in a row and no whitespace at either end. Every other entry stays as it was.
   */
  lemma UnhideFacts(n: Node)
    ensures !HasIdIn(n, FILING_CONTAINER_IDS) ==> UnhideAmong(n, FILING_CONTAINER_IDS) == n
    ensures HasIdIn(n, FILING_CONTAINER_IDS) && "style" in n.attrs && n.attrs["style"].Str? ==>
      var r := UnhideAmong(n, FILING_CONTAINER_IDS);
      var clean := CleanStyle(n.attrs["style"].s);
      && ("style" in r.attrs <==> clean != "")
      && (clean != "" ==> r.attrs["style"] == Str(clean))
      && NoDoubleSemicolon(clean)
      && (clean == [] || (!IsSpace(clean[0]) && !IsSpace(clean[|clean| - 1])))
  {
    if HasIdIn(n, FILING_CONTAINER_IDS) && "style" in n.attrs && n.attrs["style"].Str? {
      CleanStyleFacts(n.attrs["style"].s);
    }
  }

  // ---------------------------------------------------------------------------
  // Numbering: `enumerate` over the entries a filter picks out

  /** How many of the flags are set. */
  function CountTrue(flags: seq<bool>): (c: nat)
    ensures c <= |flags|
  {
    if flags == [] then 0 else CountTrue(flags[..|flags| - 1]) + (if flags[|flags| - 1] then 1 else 0)
  }

  /** The number a flagged position gets: how many flagged positions come before it. */
  function Rank(flags: seq<bool>, j: nat): nat
    requires j <= |flags|
  {
    CountTrue(flags[..j])
  }

  lemma RankStep(flags: seq<bool>, j: nat)
    requires j < |flags|
    ensures Rank(flags, j + 1) == Rank(flags, j) + (if flags[j] then 1 else 0)
  {
    assert flags[..j + 1][..j] == flags[..j];
  }

  lemma {:induction false} RankMonotone(flags: seq<bool>, i: nat, j: nat)
    requires i <= j <= |flags|
    ensures Rank(flags, i) <= Rank(flags, j)
    decreases j - i
  {
    if i < j {
      RankMonotone(flags, i, j - 1);
      RankStep(flags, j - 1);
    }
  }

  lemma {:induction false} RankOnto(flags: seq<bool>, k: nat)
    requires k < CountTrue(flags)
    ensures exists j | 0 <= j < |flags| :: flags[j] && Rank(flags, j) == k
    decreases |flags|
  {
    var init := flags[..|flags| - 1];
    if k < CountTrue(init) {
      RankOnto(init, k);
      var j :| 0 <= j < |init| && init[j] && Rank(init, j) == k;
      assert init[..j] == flags[..j];
    } else {
      assert flags[..|flags| - 1] == init;
    }
  }

  /** The flagged position that gets the number `k`. */
  lemma RankWitness(flags: seq<bool>, k: nat) returns (j: nat)
    requires k < CountTrue(flags)
    ensures j < |flags| && flags[j] && Rank(flags, j) == k
  {
    RankOnto(flags, k);
    j :| 0 <= j < |flags| && flags[j] && Rank(flags, j) == k;
  }

  /** Some flagged position gets the number `k`. */
  predicate RankGiven(flags: seq<bool>, k: nat) {
    exists j | 0 <= j < |flags| :: flags[j] && Rank(flags, j) == k
  }

  /**
   * Numbering the flagged positions in order hands out 0, 1, ... up to the number of
   * flagged positions, each exactly once, and increasing with the position.
   */
  lemma Numbering(flags: seq<bool>)
    ensures forall j | 0 <= j < |flags| && flags[j] :: Rank(flags, j) < CountTrue(flags)
    ensures forall i, j | 0 <= i < j < |flags| && flags[i] && flags[j] :: Rank(flags, i) < Rank(flags, j)
    ensures forall k | 0 <= k < CountTrue(flags) :: RankGiven(flags, k)
  {
    forall j | 0 <= j < |flags| && flags[j] ensures Rank(flags, j) < CountTrue(flags) {
      RankStep(flags, j);
      RankMonotone(flags, j + 1, |flags|);
      assert flags[..|flags|] == flags;
    }
    forall i, j | 0 <= i < j < |flags| && flags[i] && flags[j] ensures Rank(flags, i) < Rank(flags, j) {
      RankStep(flags, i);
      RankMonotone(flags, i + 1, j);
    }
    forall k | 0 <= k < CountTrue(flags) ensures RankGiven(flags, k) {
      RankOnto(flags, k);
    }
  }

  /** `tag[key] = str(k)` */
  function Label(n: Node, key: string, k: nat): (r: Node)
    requires n.Element?
    ensures r.Element? && r.tag == n.tag && r.depth == n.depth
    ensures r.attrs - {key} == n.attrs - {key}
  {
    n.(attrs := n.attrs[key := Str(NatToString(k))])
  }

  /** The number an entry carries under `key`, read back as `int(...)` would. */
  function IndexValue(n: Node, key: string): Option<nat> {
    if n.Element? && key in n.attrs && n.attrs[key].Str? && AllDigits(n.attrs[key].s)
    then Some(DigitsToNat(n.attrs[key].s))
    else None
  }

  lemma LabelValue(n: Node, key: string, k: nat)
    requires n.Element?
    ensures IndexValue(Label(n, key, k), key) == Some(k)
  {
    DigitsToNatOfNatToString(k);
  }

  // ---------------------------------------------------------------------------
  // Stage 4: data-table-index

  const TABLE_INDEX: string := "data-table-index"

  predicate IsTable(n: Node) { n.Element? && n.tag == "table" }

  function TableFlags(nodes: seq<Node>): (flags: seq<bool>)
    ensures |flags| == |nodes|
  {
    seq(|nodes|, j requires 0 <= j < |nodes| => IsTable(nodes[j]))
  }

  /** An entry after the tables have been numbered. */
  function TableIndexed(nodes: seq<Node>, j: nat): Node
    requires j < |nodes|
  {
    if IsTable(nodes[j]) then Label(nodes[j], TABLE_INDEX, Rank(TableFlags(nodes), j)) else nodes[j]
  }

  /** `for index, table in enumerate(soup.find_all("table")): table["data-table-index"] = str(index)` */
  method IndexTables(nodes: seq<Node>) returns (r: seq<Node>)
    ensures |r| == |nodes| && forall j | 0 <= j < |nodes| :: r[j] == TableIndexed(nodes, j)
  {
    r := nodes;
    var index := 0;
    for j := 0 to |nodes|
      invariant |r| == |nodes|
      invariant index == Rank(TableFlags(nodes), j)
      invariant forall q | 0 <= q < j :: r[q] == TableIndexed(nodes, q)
      invariant forall q | j <= q < |nodes| :: r[q] == nodes[q]
    {
      RankStep(TableFlags(nodes), j);
      if IsTable(nodes[j]) {
        r := r[j := Label(nodes[j], TABLE_INDEX, index)];
        index := index + 1;
      }
    }
  }

  /** Some table carries the index `k`. */
  predicate TableIndexGiven(nodes: seq<Node>, k: nat) {
    exists j | 0 <= j < |nodes| :: IsTable(nodes[j]) && IndexValue(TableIndexed(nodes, j), TABLE_INDEX) == Some(k)
  }

  /**
   * With T tables, the tables carry the indices 0 to T - 1, each once, in document order,
   * and every other entry is left as it was.
   */
  lemma TablesNumbered(nodes: seq<Node>)
    ensures var tables := CountTrue(TableFlags(nodes));
      && (forall j | 0 <= j < |nodes| && !IsTable(nodes[j]) :: TableIndexed(nodes, j) == nodes[j])
      && (forall j | 0 <= j < |nodes| && IsTable(nodes[j]) ::
            IndexValue(TableIndexed(nodes, j), TABLE_INDEX).Some? &&
            IndexValue(TableIndexed(nodes, j), TABLE_INDEX).value < tables)
      && (forall i, j | 0 <= i < j < |nodes| && IsTable(nodes[i]) && IsTable(nodes[j]) ::
            IndexValue(TableIndexed(nodes, i), TABLE_INDEX).value < IndexValue(TableIndexed(nodes, j), TABLE_INDEX).value)
      && (forall k | 0 <= k < tables :: TableIndexGiven(nodes, k))
  {
    var flags := TableFlags(nodes);
    Numbering(flags);
    forall j | 0 <= j < |nodes| && IsTable(nodes[j])
      ensures IndexValue(TableIndexed(nodes, j), TABLE_INDEX) == Some(Rank(flags, j))
    {
      LabelValue(nodes[j], TABLE_INDEX, Rank(flags, j));
    }
    forall k | 0 <= k < CountTrue(flags) ensures TableIndexGiven(nodes, k) {
      assert RankGiven(flags, k);
      var j :| 0 <= j < |flags| && flags[j] && Rank(flags, j) == k;
      assert IsTable(nodes[j]);
    }
  }

  // ---------------------------------------------------------------------------
  // Stage 5: data-element-index

  const ELEMENT_INDEX: string := "data-element-index"
  const SEMANTIC_TAGS: seq<string> := ["h1", "h2", "h3", "h4", "h5", "h6", "strong", "b"]
  const TEXT_BLOCK_TAGS: seq<string> := ["p", "div", "li", "td", "th"]

  /** A string that is not all whitespace. */
  predicate Shown(n: Node) { n.TextNode? && Strip(n.s) != "" }

  /** The stripped, non-empty strings among `nodes[a..b]`, in order. */
  function Texts(nodes: seq<Node>, a: nat, b: nat): (ts: seq<string>)
    requires a <= b <= |nodes|
    ensures forall t | t in ts :: t != ""
    decreases b - a
  {
    if a == b then []
    else if Shown(nodes[a]) then [Strip(nodes[a].s)] + Texts(nodes, a + 1, b)
    else Texts(nodes, a + 1, b)
  }

  /** `tag.get_text(separator=" ", strip=True)` */
  function GetText(nodes: seq<Node>, j: nat): string
    requires j < |nodes|
  {
    Join(Texts(nodes, j + 1, SubtreeEnd(nodes, j)), " ")
  }

  /** Some string in `nodes[a..b]` is not all whitespace. */
  predicate SomeText(nodes: seq<Node>, a: nat, b: nat)
    requires a <= b <= |nodes|
  {
    exists q | a <= q < b :: Shown(nodes[q])
  }

  lemma TextsEmpty(nodes: seq<Node>, a: nat, b: nat)
    requires a <= b <= |nodes|
    ensures Texts(nodes, a, b) == [] <==> !SomeText(nodes, a, b)
  {
    if SomeText(nodes, a, b) {
      var q :| a <= q < b && Shown(nodes[q]);
      TextsShown(nodes, a, b, q);
    } else {
      TextsNone(nodes, a, b);
    }
  }

  lemma {:induction false} TextsShown(nodes: seq<Node>, a: nat, b: nat, q: nat)
    requires a <= q < b <= |nodes| && Shown(nodes[q])
    ensures Texts(nodes, a, b) != []
    decreases q - a
  {
    if Shown(nodes[a]) {
      assert |Texts(nodes, a, b)| == 1 + |Texts(nodes, a + 1, b)|;
    } else {
      TextsShown(nodes, a + 1, b, q);
    }
  }

  lemma {:induction false} TextsNone(nodes: seq<Node>, a: nat, b: nat)
    requires a <= b <= |nodes| && forall q | a <= q < b :: !Shown(nodes[q])
    ensures Texts(nodes, a, b) == []
    decreases b - a
  {
    if a < b {
      TextsNone(nodes, a + 1, b);
    }
  }

  /** The text of an element is empty exactly when every string inside it is whitespace. */
  lemma GetTextEmpty(nodes: seq<Node>, j: nat)
    requires j < |nodes|
    ensures GetText(nodes, j) == "" <==> !SomeText(nodes, j + 1, SubtreeEnd(nodes, j))
  {
    var ts := Texts(nodes, j + 1, SubtreeEnd(nodes, j));
    TextsEmpty(nodes, j + 1, SubtreeEnd(nodes, j));
    if ts != [] {
      assert ts[0] in ts;
      JoinStartsWith(ts, " ");
    }
  }

  predicate IsSemantic(n: Node) { n.Element? && n.tag in SEMANTIC_TAGS }
  predicate IsTextBlock(n: Node) { n.Element? && n.tag in TEXT_BLOCK_TAGS }

  /** The semantic elements the first loop numbers: those with some text. */
  function SemanticFlags(nodes: seq<Node>): (flags: seq<bool>)
    ensures |flags| == |nodes|
  {
    seq(|nodes|, j requires 0 <= j < |nodes| => IsSemantic(nodes[j]) && GetText(nodes, j) != "")
  }

  /** The text blocks the second loop numbers: not numbered yet, with at least 20 characters of text. */
  function BlockFlags(nodes: seq<Node>): (flags: seq<bool>)
    ensures |flags| == |nodes|
  {
    seq(|nodes|, j requires 0 <= j < |nodes| =>
      IsTextBlock(nodes[j]) && ELEMENT_INDEX !in nodes[j].attrs && |GetText(nodes, j)| >= 20)
  }

  /** An entry after the first loop. */
  function SemanticIndexed(nodes: seq<Node>, j: nat): Node
    requires j < |nodes|
  {
    if SemanticFlags(nodes)[j] then Label(nodes[j], ELEMENT_INDEX, Rank(SemanticFlags(nodes), j)) else nodes[j]
  }

  /** An entry after both loops; the block numbers follow on from the semantic ones. */
  function ElementIndexed(nodes: seq<Node>, j: nat): Node
    requires j < |nodes|
  {
    if BlockFlags(nodes)[j] then
      Label(nodes[j], ELEMENT_INDEX, CountTrue(SemanticFlags(nodes)) + Rank(BlockFlags(nodes), j))
    else SemanticIndexed(nodes, j)
  }

  /**
   * The first loop of the element numbering, over `soup.find_all(semantic_tags)`. The
   * attribute writes of this stage change no string and no nesting, so the texts are read
   * from the stage's input.
   */
  method IndexSemantic(nodes: seq<Node>) returns (r: seq<Node>, count: nat)
    ensures |r| == |nodes| && forall j | 0 <= j < |nodes| :: r[j] == SemanticIndexed(nodes, j)
    ensures count == CountTrue(SemanticFlags(nodes))
  {
    r := nodes;
    count := 0;
    for j := 0 to |nodes|
      invariant |r| == |nodes|
      invariant count == Rank(SemanticFlags(nodes), j)
      invariant forall q | 0 <= q < j :: r[q] == SemanticIndexed(nodes, q)
      invariant forall q | j <= q < |nodes| :: r[q] == nodes[q]
    {
      RankStep(SemanticFlags(nodes), j);
      if IsSemantic(nodes[j]) {
        var textContent := GetText(nodes, j);
        if |textContent| > 0 {
          r := r[j := Label(nodes[j], ELEMENT_INDEX, count)];
          count := count + 1;
        }
      }
    }
    assert SemanticFlags(nodes)[..|nodes|] == SemanticFlags(nodes);
  }

  /** Headings and bold text are no text blocks, so the first loop leaves every text block as it was. */
  lemma BlockUntouched(nodes: seq<Node>, j: nat)
    requires j < |nodes|
    ensures IsTextBlock(SemanticIndexed(nodes, j)) <==> IsTextBlock(nodes[j])
    ensures IsTextBlock(nodes[j]) ==> SemanticIndexed(nodes, j) == nodes[j]
  {
    if IsTextBlock(nodes[j]) {
      assert !IsSemantic(nodes[j]);
    }
  }

  /** The second loop, over `soup.find_all(text_block_tags)`, continuing from `start`. */
  method IndexBlocks(nodes: seq<Node>, current: seq<Node>, start: nat) returns (r: seq<Node>)
    requires |current| == |nodes| && forall j | 0 <= j < |nodes| :: current[j] == SemanticIndexed(nodes, j)
    requires start == CountTrue(SemanticFlags(nodes))
    ensures |r| == |nodes| && forall j | 0 <= j < |nodes| :: r[j] == ElementIndexed(nodes, j)
  {
    r := current;
    var index := start;
    for j := 0 to |nodes|
      invariant |r| == |nodes|
      invariant index == start + Rank(BlockFlags(nodes), j)
      invariant forall q | 0 <= q < j :: r[q] == ElementIndexed(nodes, q)
      invariant forall q | j <= q < |nodes| :: r[q] == SemanticIndexed(nodes, q)
    {
      RankStep(BlockFlags(nodes), j);
      var entry;
      entry, index := IndexBlock(nodes, j, r[j], index);
      r := r[j := entry];
    }
  }

  /** One text block of the second loop: numbered when unnumbered and with 20 characters of text. */
  method IndexBlock(nodes: seq<Node>, j: nat, current: Node, index: nat) returns (entry: Node, next: nat)
    requires j < |nodes| && current == SemanticIndexed(nodes, j)
    ensures entry == (if BlockFlags(nodes)[j] then Label(nodes[j], ELEMENT_INDEX, index) else current)
    ensures next == index + (if BlockFlags(nodes)[j] then 1 else 0)
  {
    BlockUntouched(nodes, j);
    entry, next := current, index;
    if IsTextBlock(current) {
      if ELEMENT_INDEX !in current.attrs {
        var textContent := GetText(nodes, j);
        if |textContent| >= 20 {
          entry := Label(current, ELEMENT_INDEX, index);
          next := index + 1;
        }
      }
    }
  }

  /** Both loops of the element numbering. */
  method IndexElements(nodes: seq<Node>) returns (r: seq<Node>)
    ensures |r| == |nodes| && forall j | 0 <= j < |nodes| :: r[j] == ElementIndexed(nodes, j)
  {
    var semantic, count := IndexSemantic(nodes);
    r := IndexBlocks(nodes, semantic, count);
  }

  /** The entry is numbered by one of the two loops. */
  predicate NumberedHere(nodes: seq<Node>, j: nat)
    requires j < |nodes|
  {
    SemanticFlags(nodes)[j] || BlockFlags(nodes)[j]
  }

  /** Some entry numbered here carries the index `k`. */
  predicate ElementIndexGiven(nodes: seq<Node>, k: nat) {
    exists j | 0 <= j < |nodes| :: NumberedHere(nodes, j) && IndexValue(ElementIndexed(nodes, j), ELEMENT_INDEX) == Some(k)
  }

  /** The index the element numbering gives entry `j`. */
  lemma ElementIndexAt(nodes: seq<Node>, j: nat)
    requires j < |nodes|
    ensures SemanticFlags(nodes)[j] ==>
      IndexValue(ElementIndexed(nodes, j), ELEMENT_INDEX) == Some(Rank(SemanticFlags(nodes), j))
    ensures BlockFlags(nodes)[j] ==>
      IndexValue(ElementIndexed(nodes, j), ELEMENT_INDEX) == Some(CountTrue(SemanticFlags(nodes)) + Rank(BlockFlags(nodes), j))
    ensures !NumberedHere(nodes, j) ==> ElementIndexed(nodes, j) == nodes[j]
  {
    var sem := SemanticFlags(nodes);
    var blocks := BlockFlags(nodes);
    if blocks[j] {
      LabelValue(nodes[j], ELEMENT_INDEX, CountTrue(sem) + Rank(blocks, j));
      assert !IsSemantic(nodes[j]);
    } else if sem[j] {
      LabelValue(nodes[j], ELEMENT_INDEX, Rank(sem, j));
    }
  }

  /**
   * With S semantic elements that have text and B text blocks that qualify, the numbered
   * entries carry 0 to S + B - 1, each once: the semantic ones first, in document order,
   * then the blocks in document order. Nothing else changes.
   */
  lemma ElementsNumbered(nodes: seq<Node>)
    ensures var s := CountTrue(SemanticFlags(nodes));
      var b := CountTrue(BlockFlags(nodes));
      && (forall j | 0 <= j < |nodes| && !NumberedHere(nodes, j) :: ElementIndexed(nodes, j) == nodes[j])
      && (forall j | 0 <= j < |nodes| && SemanticFlags(nodes)[j] ::
            IndexValue(ElementIndexed(nodes, j), ELEMENT_INDEX).Some? &&
            IndexValue(ElementIndexed(nodes, j), ELEMENT_INDEX).value < s)
      && (forall j | 0 <= j < |nodes| && BlockFlags(nodes)[j] ::
            IndexValue(ElementIndexed(nodes, j), ELEMENT_INDEX).Some? &&
            s <= IndexValue(ElementIndexed(nodes, j), ELEMENT_INDEX).value < s + b)
      && (forall i, j | 0 <= i < j < |nodes| && SemanticFlags(nodes)[i] && SemanticFlags(nodes)[j] ::
            IndexValue(ElementIndexed(nodes, i), ELEMENT_INDEX).value < IndexValue(ElementIndexed(nodes, j), ELEMENT_INDEX).value)
      && (forall i, j | 0 <= i < j < |nodes| && BlockFlags(nodes)[i] && BlockFlags(nodes)[j] ::
            IndexValue(ElementIndexed(nodes, i), ELEMENT_INDEX).value < IndexValue(ElementIndexed(nodes, j), ELEMENT_INDEX).value)
      && (forall k | 0 <= k < s + b :: ElementIndexGiven(nodes, k))
  {
    forall j | 0 <= j < |nodes| && !NumberedHere(nodes, j) ensures ElementIndexed(nodes, j) == nodes[j] {
      ElementIndexAt(nodes, j);
    }
    SemanticNumbered(nodes);
    BlocksNumbered(nodes);
    NumbersGiven(nodes);
  }

  lemma SemanticNumbered(nodes: seq<Node>)
    ensures forall j | 0 <= j < |nodes| && SemanticFlags(nodes)[j] ::
      IndexValue(ElementIndexed(nodes, j), ELEMENT_INDEX).Some? &&
      IndexValue(ElementIndexed(nodes, j), ELEMENT_INDEX).value < CountTrue(SemanticFlags(nodes))
    ensures forall i, j | 0 <= i < j < |nodes| && SemanticFlags(nodes)[i] && SemanticFlags(nodes)[j] ::
      IndexValue(ElementIndexed(nodes, i), ELEMENT_INDEX).value < IndexValue(ElementIndexed(nodes, j), ELEMENT_INDEX).value
  {
    Numbering(SemanticFlags(nodes));
    forall j | 0 <= j < |nodes| {
      ElementIndexAt(nodes, j);
    }
  }

  lemma BlocksNumbered(nodes: seq<Node>)
    ensures forall j | 0 <= j < |nodes| && BlockFlags(nodes)[j] ::
      IndexValue(ElementIndexed(nodes, j), ELEMENT_INDEX).Some? &&
      CountTrue(SemanticFlags(nodes)) <= IndexValue(ElementIndexed(nodes, j), ELEMENT_INDEX).value
        < CountTrue(SemanticFlags(nodes)) + CountTrue(BlockFlags(nodes))
    ensures forall i, j | 0 <= i < j < |nodes| && BlockFlags(nodes)[i] && BlockFlags(nodes)[j] ::
      IndexValue(ElementIndexed(nodes, i), ELEMENT_INDEX).value < IndexValue(ElementIndexed(nodes, j), ELEMENT_INDEX).value
  {
    Numbering(BlockFlags(nodes));
    forall j | 0 <= j < |nodes| {
      ElementIndexAt(nodes, j);
    }
  }

  lemma NumbersGiven(nodes: seq<Node>)
    ensures forall k | 0 <= k < CountTrue(SemanticFlags(nodes)) + CountTrue(BlockFlags(nodes)) :: ElementIndexGiven(nodes, k)
  {
    var s := CountTrue(SemanticFlags(nodes));
    forall k | 0 <= k < s + CountTrue(BlockFlags(nodes))
      ensures ElementIndexGiven(nodes, k)
    {
      if k < s {
        SemanticGiven(nodes, k);
      } else {
        BlockGiven(nodes, k - s);
      }
    }
  }

  lemma SemanticGiven(nodes: seq<Node>, k: nat)
    requires k < CountTrue(SemanticFlags(nodes))
    ensures ElementIndexGiven(nodes, k)
  {
    var j := RankWitness(SemanticFlags(nodes), k);
    ElementIndexAt(nodes, j);
    assert NumberedHere(nodes, j);
  }

  lemma BlockGiven(nodes: seq<Node>, k: nat)
    requires k < CountTrue(BlockFlags(nodes))
    ensures ElementIndexGiven(nodes, CountTrue(SemanticFlags(nodes)) + k)
  {
    var j := RankWitness(BlockFlags(nodes), k);
    BlockIndexAt(nodes, j, k);
    GivenBy(nodes, j, CountTrue(SemanticFlags(nodes)) + k);
  }

  lemma GivenBy(nodes: seq<Node>, j: nat, k: nat)
    requires j < |nodes| && NumberedHere(nodes, j) && IndexValue(ElementIndexed(nodes, j), ELEMENT_INDEX) == Some(k)
    ensures ElementIndexGiven(nodes, k)
  {
  }

  lemma BlockIndexAt(nodes: seq<Node>, j: nat, k: nat)
    requires j < |nodes| && BlockFlags(nodes)[j] && Rank(BlockFlags(nodes), j) == k
    ensures NumberedHere(nodes, j)
    ensures IndexValue(ElementIndexed(nodes, j), ELEMENT_INDEX) == Some(CountTrue(SemanticFlags(nodes)) + k)
  {
    ElementIndexAt(nodes, j);
  }



  /**
   * Which entries are numbered: a heading or bold element when some string inside it is
   * not all whitespace, and a paragraph, div, list item or cell without an index of its own
   * whose text is at least 20 characters long.
   */
  lemma NumberedWhen(nodes: seq<Node>, j: nat)
    requires j < |nodes|
    ensures NumberedHere(nodes, j) <==>
      || (IsSemantic(nodes[j]) && SomeText(nodes, j + 1, SubtreeEnd(nodes, j)))
      || (IsTextBlock(nodes[j]) && ELEMENT_INDEX !in nodes[j].attrs && |GetText(nodes, j)| >= 20)
  {
    GetTextEmpty(nodes, j);
  }

  // ---------------------------------------------------------------------------
  // sanitize: the five stages in order

  /** Decompose each kind in turn. */
  function RemoveAll(nodes: seq<Node>, kinds: seq<Removal>): seq<Node>
    decreases |kinds|
  {
    if kinds == [] then nodes else RemoveAll(PruneFrom(nodes, kinds[0], 0), kinds[1..])
  }

  function Cleaned(nodes: seq<Node>): (r: seq<Node>)
    ensures |r| == |nodes|
  {
    seq(|nodes|, j requires 0 <= j < |nodes| => CleanNode(nodes[j]))
  }

  function Unhidden(nodes: seq<Node>): (r: seq<Node>)
    ensures |r| == |nodes|
  {
    seq(|nodes|, j requires 0 <= j < |nodes| => UnhideAmong(nodes[j], FILING_CONTAINER_IDS))
  }

  function TablesIndexed(nodes: seq<Node>): (r: seq<Node>)
    ensures |r| == |nodes|
  {
    seq(|nodes|, j requires 0 <= j < |nodes| => TableIndexed(nodes, j))
  }

  function ElementsIndexed(nodes: seq<Node>): (r: seq<Node>)
    ensures |r| == |nodes|
  {
    seq(|nodes|, j requires 0 <= j < |nodes| => ElementIndexed(nodes, j))
  }

  /** Stages 3 to 5. */
  function Decorated(p: seq<Node>): (r: seq<Node>)
    ensures |r| == |p|
  {
    ElementsIndexed(TablesIndexed(Unhidden(p)))
  }

  /** The document `sanitize` serialises. */
  function Sanitized(nodes: seq<Node>): seq<Node> {
    Decorated(Cleaned(RemoveAll(nodes, REMOVALS)))
  }

  /** `sanitize(html)` on the parsed document. */
  method Sanitize(nodes: seq<Node>) returns (r: seq<Node>)
    ensures r == Sanitized(nodes)
  {
    var kept := Decompose(nodes, Scripts);
    kept := Decompose(kept, StylesheetLinks);
    kept := Decompose(kept, StyleBlocks);
    kept := Decompose(kept, Images);
    assert kept == RemoveAll(nodes, REMOVALS) by {
      assert REMOVALS[1..][1..][1..][1..] == [];
    }
    r := StripAttributes(kept);
    assert r == Cleaned(kept);
    r := UnhideContainers(r);
    assert r == Unhidden(Cleaned(kept));
    r := IndexTables(r);
    assert r == TablesIndexed(Unhidden(Cleaned(kept)));
    var tables := r;
    r := IndexElements(r);
    assert r == ElementsIndexed(tables);
  }

  /** `b` is `a` with at most the attributes in `keys` changed. */
  predicate SameExcept(a: Node, b: Node, keys: set<string>) {
    match a
    case TextNode(_, _) => b == a
    case Element(tag, depth, attrs) => b.Element? && b.tag == tag && b.depth == depth && b.attrs - keys == attrs - keys
  }

  lemma SameExceptTrans(a: Node, b: Node, c: Node, k1: set<string>, k2: set<string>)
    requires SameExcept(a, b, k1) && SameExcept(b, c, k2)
    ensures SameExcept(a, c, k1 + k2)
  {
    if a.Element? {
      assert c.attrs - (k1 + k2) == (c.attrs - k2) - k1;
      assert b.attrs - (k1 + k2) == (b.attrs - k2) - k1 == (b.attrs - k1) - k2;
      assert a.attrs - (k1 + k2) == (a.attrs - k1) - k2;
    }
  }

  lemma SameExceptAttr(a: Node, b: Node, keys: set<string>, key: string)
    requires SameExcept(a, b, keys) && a.Element? && key !in keys
    ensures key in b.attrs <==> key in a.attrs
    ensures key in a.attrs ==> b.attrs[key] == a.attrs[key]
  {
    assert key in a.attrs <==> key in a.attrs - keys;
    assert key in b.attrs <==> key in b.attrs - keys;
    if key in a.attrs {
      assert (a.attrs - keys)[key] == a.attrs[key];
      assert (b.attrs - keys)[key] == b.attrs[key];
    }
  }

  /** Stages 3 to 5 change at most the `style` and the two index attributes of an entry. */
  lemma LaterStages(p: seq<Node>, j: nat)
    requires j < |p|
    ensures SameExcept(p[j], Decorated(p)[j], {"style", TABLE_INDEX, ELEMENT_INDEX})
    ensures !HasIdIn(p[j], FILING_CONTAINER_IDS) ==> SameExcept(p[j], Decorated(p)[j], {TABLE_INDEX, ELEMENT_INDEX})
  {
    var u := Unhidden(p);
    var t := TablesIndexed(u);
    var e := ElementsIndexed(t);
    assert SameExcept(p[j], u[j], {"style"});
    assert !HasIdIn(p[j], FILING_CONTAINER_IDS) ==> SameExcept(p[j], u[j], {});
    assert SameExcept(u[j], t[j], {TABLE_INDEX});
    assert SameExcept(t[j], e[j], {ELEMENT_INDEX});
    SameExceptTrans(p[j], u[j], t[j], {"style"}, {TABLE_INDEX});
    SameExceptTrans(p[j], t[j], e[j], {"style"} + {TABLE_INDEX}, {ELEMENT_INDEX});
    assert {"style"} + {TABLE_INDEX} + {ELEMENT_INDEX} == {"style", TABLE_INDEX, ELEMENT_INDEX};
    if !HasIdIn(p[j], FILING_CONTAINER_IDS) {
      SameExceptTrans(p[j], u[j], t[j], {}, {TABLE_INDEX});
      SameExceptTrans(p[j], t[j], e[j], {} + {TABLE_INDEX}, {ELEMENT_INDEX});
      assert {} + {TABLE_INDEX} + {ELEMENT_INDEX} == {TABLE_INDEX, ELEMENT_INDEX};
    }
  }

  /** What survives the four removals comes from the input and matches none of them. */
  lemma {:induction false} RemoveAllKept(nodes: seq<Node>, kinds: seq<Removal>)
    ensures forall n | n in RemoveAll(nodes, kinds) :: n in nodes && forall kind | kind in kinds :: !Matches(n, kind)
    decreases |kinds|
  {
    if kinds != [] {
      var pruned := PruneFrom(nodes, kinds[0], 0);
      Pruned(nodes, kinds[0]);
      UncoveredKept(nodes, kinds[0], 0);
      assert nodes[0..] == nodes;
      RemoveAllKept(pruned, kinds[1..]);
      forall n | n in RemoveAll(nodes, kinds) ensures n in nodes && forall kind | kind in kinds :: !Matches(n, kind) {
        assert n in pruned;
        forall kind | kind in kinds ensures !Matches(n, kind) {
          if kind != kinds[0] {
            assert kind in kinds[1..];
          }
        }
      }
    }
  }

  /** The attributes stage 2 may delete, and the ones stages 3 to 5 may write. */
  predicate Guarded(key: string) {
    key in EVENT_HANDLERS || key in URL_ATTRS || key == TABLE_INDEX || key == ELEMENT_INDEX
  }

  /** One entry of the sanitised document against the entry the removals left. */
  predicate SanitizedEntry(p: Node, r: Node) {
    && (forall kind | kind in REMOVALS :: !Matches(r, kind))
    && (p.TextNode? ==> r == p)
    && (p.Element? ==> r.Element? && r.tag == p.tag && r.depth == p.depth)
    && (r.Element? ==>
      && (forall h | h in EVENT_HANDLERS :: h !in r.attrs)
      && ("href" in r.attrs ==> !IsJavascript(r.attrs["href"]))
      && ("src" in r.attrs ==> !IsJavascript(r.attrs["src"]))
      && (!HasIdIn(r, FILING_CONTAINER_IDS) && "style" in r.attrs ==> !IsJavascript(r.attrs["style"]))
      && (forall key | key in p.attrs && !Guarded(key) :: key in r.attrs)
      && (forall key | key in r.attrs && !Guarded(key) :: key in p.attrs && r.attrs[key] == p.attrs[key]))
  }

  lemma SanitizedAt(p: seq<Node>, j: nat)
    requires j < |p|
    requires forall kind | kind in REMOVALS :: !Matches(p[j], kind)
    ensures SanitizedEntry(p[j], Decorated(Cleaned(p))[j])
  {
    var c := Cleaned(p);
    LaterStages(c, j);
    LaterEntry(p[j], c[j], Decorated(c)[j]);
  }

  /** `r` is the entry `p` after stage 2 (`c`) and stages 3 to 5. */
  lemma LaterEntry(p: Node, c: Node, r: Node)
    requires c == CleanNode(p)
    requires forall kind | kind in REMOVALS :: !Matches(p, kind)
    requires SameExcept(c, r, {"style", TABLE_INDEX, ELEMENT_INDEX})
    requires !HasIdIn(c, FILING_CONTAINER_IDS) ==> SameExcept(c, r, {TABLE_INDEX, ELEMENT_INDEX})
    ensures SanitizedEntry(p, r)
  {
    if p.Element? {
      LaterKinds(p, c, r);
      LaterAttrs(p, c, r);
    }
  }

  lemma LaterKinds(p: Node, c: Node, r: Node)
    requires p.Element? && c == CleanNode(p)
    requires forall kind | kind in REMOVALS :: !Matches(p, kind)
    requires SameExcept(c, r, {"style", TABLE_INDEX, ELEMENT_INDEX})
    ensures forall kind | kind in REMOVALS :: !Matches(r, kind)
    ensures HasIdIn(r, FILING_CONTAINER_IDS) <==> HasIdIn(c, FILING_CONTAINER_IDS)
  {
    var edited := {"style", TABLE_INDEX, ELEMENT_INDEX};
    SameExceptAttr(c, r, edited, "id");
    SameExceptAttr(c, r, edited, "rel");
    forall kind | kind in REMOVALS ensures !Matches(r, kind) {
      assert Matches(r, kind) <==> Matches(p, kind);
    }
  }

  lemma LaterAttrs(p: Node, c: Node, r: Node)
    requires p.Element? && c == CleanNode(p)
    requires SameExcept(c, r, {"style", TABLE_INDEX, ELEMENT_INDEX})
    requires !HasIdIn(c, FILING_CONTAINER_IDS) ==> SameExcept(c, r, {TABLE_INDEX, ELEMENT_INDEX})
    ensures forall h | h in EVENT_HANDLERS :: h !in r.attrs
    ensures "href" in r.attrs ==> !IsJavascript(r.attrs["href"])
    ensures "src" in r.attrs ==> !IsJavascript(r.attrs["src"])
    ensures !HasIdIn(r, FILING_CONTAINER_IDS) && "style" in r.attrs ==> !IsJavascript(r.attrs["style"])
    ensures forall key | key in p.attrs && !Guarded(key) :: key in r.attrs
    ensures forall key | key in r.attrs && !Guarded(key) :: key in p.attrs && r.attrs[key] == p.attrs[key]
  {
    var edited := {"style", TABLE_INDEX, ELEMENT_INDEX};
    LaterHandlers(c, r, edited);
    LaterUrls(c, r);
    LaterKeys(p.attrs, c, r, edited);
  }

  lemma LaterHandlers(c: Node, r: Node, edited: set<string>)
    requires c.Element? && SameExcept(c, r, edited)
    requires forall h | h in EVENT_HANDLERS :: h !in edited && h !in c.attrs
    ensures forall h | h in EVENT_HANDLERS :: h !in r.attrs
  {
    forall h | h in EVENT_HANDLERS ensures h !in r.attrs {
      SameExceptAttr(c, r, edited, h);
    }
  }

  lemma LaterUrls(c: Node, r: Node)
    requires c.Element? && SameExcept(c, r, {"style", TABLE_INDEX, ELEMENT_INDEX})
    requires !HasIdIn(c, FILING_CONTAINER_IDS) ==> SameExcept(c, r, {TABLE_INDEX, ELEMENT_INDEX})
    requires forall a | a in URL_ATTRS && a in c.attrs :: !IsJavascript(c.attrs[a])
    ensures "href" in r.attrs ==> !IsJavascript(r.attrs["href"])
    ensures "src" in r.attrs ==> !IsJavascript(r.attrs["src"])
    ensures !HasIdIn(r, FILING_CONTAINER_IDS) && "style" in r.attrs ==> !IsJavascript(r.attrs["style"])
  {
    var edited := {"style", TABLE_INDEX, ELEMENT_INDEX};
    SameExceptAttr(c, r, edited, "id");
    SameExceptAttr(c, r, edited, "href");
    SameExceptAttr(c, r, edited, "src");
    if !HasIdIn(c, FILING_CONTAINER_IDS) {
      SameExceptAttr(c, r, {TABLE_INDEX, ELEMENT_INDEX}, "style");
    }
  }

  lemma LaterKeys(attrs: Attrs, c: Node, r: Node, edited: set<string>)
    requires c.Element? && SameExcept(c, r, edited)
    requires forall key | key in edited :: Guarded(key)
    requires forall key | key in attrs && !Guarded(key) :: key in c.attrs
    requires forall key | key in c.attrs :: key in attrs && c.attrs[key] == attrs[key]
    ensures forall key | key in attrs && !Guarded(key) :: key in r.attrs
    ensures forall key | key in r.attrs && !Guarded(key) :: key in attrs && r.attrs[key] == attrs[key]
  {
    forall key | key in attrs && !Guarded(key) ensures key in r.attrs {
      SameExceptAttr(c, r, edited, key);
    }
    forall key | key in r.attrs && !Guarded(key) ensures key in attrs && r.attrs[key] == attrs[key] {
      SameExceptAttr(c, r, edited, key);
    }
  }

  /**
   * The sanitised document holds no script, stylesheet link, style block or image; no
   * element carries an event handler, nor an `href` or `src` naming `javascript:`, nor
   * such a `style` unless it is one of the unhidden containers. It has the entries the
   * removals left, in order, with their tags, nesting, strings and other attributes unchanged.
   */
  lemma SanitizedFacts(nodes: seq<Node>)
    ensures var p := RemoveAll(nodes, REMOVALS);
      && |Sanitized(nodes)| == |p|
      && forall j | 0 <= j < |p| :: SanitizedEntry(p[j], Sanitized(nodes)[j])
  {
    var p := RemoveAll(nodes, REMOVALS);
    RemoveAllKept(nodes, REMOVALS);
    forall j | 0 <= j < |p| ensures SanitizedEntry(p[j], Sanitized(nodes)[j]) {
      assert p[j] in p;
      SanitizedAt(p, j);
    }
  }
}
