/**
 * Filing chunking for retrieval: the sliding token window of `chunk_text`, the ranking of
 * element indices in `find_element_indices_for_chunk`, the element text map and the chunk
 * metadata that `chunk_filing` assembles.
 *
 * Tokens are integers; the tokenizer's encode and decode are outside the model, so a chunk
 * is the token window itself and the decoded chunk texts are inputs where they are needed.
 */
module Chunker {
  import opened Text
  import Config

  // ---------------------------------------------------------------------------
  // The sliding window over tokens

  /** `tokens[start:start + maxTokens]`, cut to CHUNK_HARD_MAX_TOKENS when longer. */
  function Window(tokens: seq<int>, start: nat, maxTokens: nat): (w: seq<int>)
    requires start <= |tokens|
    ensures |w| <= Config.CHUNK_HARD_MAX_TOKENS && |w| <= maxTokens
    ensures |w| == Min(Min(maxTokens, |tokens| - start), Config.CHUNK_HARD_MAX_TOKENS)
    ensures w == tokens[start..start + |w|]
  {
    var end := if start + maxTokens <= |tokens| then start + maxTokens else |tokens|;
    var w := tokens[start..end];
    if |w| > Config.CHUNK_HARD_MAX_TOKENS then w[..Config.CHUNK_HARD_MAX_TOKENS] else w
  }

  function Min(a: int, b: int): int { if a <= b then a else b }

  /** The chunks of `tokens` whose windows start at `start`, `start + stride`, ... below the length. */
  function Chunks(tokens: seq<int>, start: nat, maxTokens: nat, stride: nat): seq<seq<int>>
    requires stride > 0
    decreases |tokens| - start
  {
    if start >= |tokens| then []
    else [Window(tokens, start, maxTokens)] + Chunks(tokens, start + stride, maxTokens, stride)
  }

  /**
   * `chunk_text` on an already encoded text: windows of `maxTokens` tokens advancing by
   * `maxTokens - overlap`. The loop only ends when that stride is positive, which is what
   * the precondition asks of a non-empty input.
   */
  method ChunkTokens(tokens: seq<int>, maxTokens: nat, overlap: nat) returns (chunks: seq<seq<int>>)
    requires tokens == [] || maxTokens > overlap
    ensures tokens == [] ==> chunks == []
    ensures tokens != [] ==> chunks == Chunks(tokens, 0, maxTokens, maxTokens - overlap)
  {
    chunks := [];
    if tokens == [] {
      return;
    }
    var stride := maxTokens - overlap;
    var start := 0;
    while start < |tokens|
      invariant chunks + Chunks(tokens, start, maxTokens, stride) == Chunks(tokens, 0, maxTokens, stride)
      decreases |tokens| - start
    {
      var chunk := Window(tokens, start, maxTokens);
      chunks := chunks + [chunk];
      start := start + stride;
    }
  }

  /** `i * stride`, counted out one stride at a time. */
  function Offset(i: nat, stride: nat): nat {
    if i == 0 then 0 else Offset(i - 1, stride) + stride
  }

  lemma {:induction false} OffsetIsProduct(i: nat, stride: nat)
    ensures Offset(i, stride) == i * stride
  {
    if i > 0 {
      OffsetIsProduct(i - 1, stride);
      assert (i - 1) * stride + stride == i * stride;
    }
  }

  /** Chunk `i` exists exactly when its start lies inside the text. */
  lemma {:induction false} ChunksLength(tokens: seq<int>, start: nat, maxTokens: nat, stride: nat, i: nat)
    requires stride > 0
    ensures i < |Chunks(tokens, start, maxTokens, stride)| <==> start + Offset(i, stride) < |tokens|
    decreases i
  {
    if i > 0 {
      OffsetShift(i, stride);
      if start < |tokens| {
        ChunksLength(tokens, start + stride, maxTokens, stride, i - 1);
      }
    }
  }

  /** Chunk `i` is the window at its start. */
  lemma {:induction false} ChunksAt(tokens: seq<int>, start: nat, maxTokens: nat, stride: nat, i: nat)
    requires stride > 0
    requires i < |Chunks(tokens, start, maxTokens, stride)|
    ensures start + Offset(i, stride) < |tokens|
    ensures Chunks(tokens, start, maxTokens, stride)[i] == Window(tokens, start + Offset(i, stride), maxTokens)
    decreases i
  {
    ChunksLength(tokens, start, maxTokens, stride, i);
    if i > 0 {
      OffsetShift(i, stride);
      ChunksAt(tokens, start + stride, maxTokens, stride, i - 1);
    }
  }

  lemma {:induction false} OffsetShift(i: nat, stride: nat)
    requires i > 0
    ensures Offset(i, stride) == stride + Offset(i - 1, stride)
    ensures Offset(i, stride) >= stride
  {
  }

  /**
   * Chunk `i` of `ChunkTokens` exists exactly when `i * stride < |tokens|`, and is
   * `tokens[i * stride:i * stride + maxTokens]` cut to CHUNK_HARD_MAX_TOKENS.
   */
  lemma ChunkStart(tokens: seq<int>, maxTokens: nat, stride: nat, i: nat)
    requires stride > 0
    ensures i < |Chunks(tokens, 0, maxTokens, stride)| <==> i * stride < |tokens|
    ensures i * stride < |tokens| ==>
      Chunks(tokens, 0, maxTokens, stride)[i] == Window(tokens, i * stride, maxTokens)
  {
    ChunksLength(tokens, 0, maxTokens, stride, i);
    OffsetIsProduct(i, stride);
    if i * stride < |tokens| {
      ChunksAt(tokens, 0, maxTokens, stride, i);
    }
  }

  /**
   * The number of chunks is the ceiling of `|tokens| / stride`: the last chunk starts
   * inside the text and the next start would not.
   */
  lemma ChunkCount(tokens: seq<int>, maxTokens: nat, stride: nat)
    requires stride > 0 && tokens != []
    ensures var n := |Chunks(tokens, 0, maxTokens, stride)|;
      n >= 1 && (n - 1) * stride < |tokens| <= n * stride
  {
    var n := |Chunks(tokens, 0, maxTokens, stride)|;
    ChunksLength(tokens, 0, maxTokens, stride, n - 1);
    ChunksLength(tokens, 0, maxTokens, stride, n);
    OffsetIsProduct(n - 1, stride);
    OffsetIsProduct(n, stride);
  }

  /** The same count in closed form: `ceil(|tokens| / stride)`. */
  lemma ChunkCountCeiling(tokens: seq<int>, maxTokens: nat, stride: nat)
    requires stride > 0 && tokens != []
    ensures |Chunks(tokens, 0, maxTokens, stride)| == (|tokens| + stride - 1) / stride
  {
    var n := |Chunks(tokens, 0, maxTokens, stride)|;
    ChunkCount(tokens, maxTokens, stride);
    CeilingDiv(|tokens|, stride, n);
  }

  lemma CeilingDiv(len: nat, stride: nat, n: nat)
    requires stride > 0 && n >= 1 && (n - 1) * stride < len <= n * stride
    ensures (len + stride - 1) / stride == n
  {
    var a := len + stride - 1;
    var q := a / stride;
    assert q * stride + a % stride == a;
    assert (n - 1) * stride == n * stride - stride;
    if q > n {
      MulStep(n, q, stride);
    } else if q < n {
      MulStep(q, n, stride);
    }
  }

  lemma MulStep(a: nat, b: nat, d: nat)
    requires a < b
    ensures a * d + d <= b * d
  {
    var e: nat := b - a - 1;
    assert b * d == a * d + d + e * d;
  }

  /**
   * With `maxTokens <= CHUNK_HARD_MAX_TOKENS` and a stride no larger than `maxTokens`,
   * every token at or after `start` lies in some chunk, at its own position.
   */
  lemma {:induction false} ChunksCover(tokens: seq<int>, start: nat, maxTokens: nat, stride: nat, t: nat)
    requires 0 < stride <= maxTokens <= Config.CHUNK_HARD_MAX_TOKENS
    requires start <= t < |tokens|
    ensures exists i :: CoveredIn(tokens, Chunks(tokens, start, maxTokens, stride), start, stride, t, i)
    decreases |tokens| - start
  {
    var cs := Chunks(tokens, start, maxTokens, stride);
    var w := Window(tokens, start, maxTokens);
    var rest := Chunks(tokens, start + stride, maxTokens, stride);
    assert cs == [w] + rest;
    if t < start + stride {
      assert t - start < |w|;
      assert w[t - start] == tokens[t];
      assert Offset(0, stride) == 0;
      assert CoveredIn(tokens, cs, start, stride, t, 0);
    } else {
      ChunksCover(tokens, start + stride, maxTokens, stride, t);
      var i :| CoveredIn(tokens, rest, start + stride, stride, t, i);
      CoveredShift(tokens, cs, w, rest, start, stride, t, i);
    }
  }

  /** Token `t` lies in chunk `i`, whose window starts at `start + Offset(i, stride)`, at its own position. */
  predicate CoveredIn(tokens: seq<int>, cs: seq<seq<int>>, start: nat, stride: nat, t: nat, i: nat) {
    && i < |cs| && t < |tokens|
    && start + Offset(i, stride) <= t < start + Offset(i, stride) + |cs[i]|
    && cs[i][t - (start + Offset(i, stride))] == tokens[t]
  }

  lemma CoveredShift(tokens: seq<int>, cs: seq<seq<int>>, w: seq<int>, rest: seq<seq<int>>, start: nat, stride: nat, t: nat, i: nat)
    requires cs == [w] + rest && CoveredIn(tokens, rest, start + stride, stride, t, i)
    ensures CoveredIn(tokens, cs, start, stride, t, i + 1)
  {
    OffsetShift(i + 1, stride);
    assert cs[i + 1] == rest[i];
  }

  /** Every token of the input lies in some chunk of `ChunkTokens`, at its own position. */
  lemma ChunkTokensCover(tokens: seq<int>, maxTokens: nat, overlap: nat, t: nat)
    requires overlap < maxTokens <= Config.CHUNK_HARD_MAX_TOKENS && t < |tokens|
    ensures var stride := maxTokens - overlap;
      var cs := Chunks(tokens, 0, maxTokens, stride);
      exists i | 0 <= i < |cs| :: i * stride <= t < i * stride + |cs[i]| && cs[i][t - i * stride] == tokens[t]
  {
    var stride := maxTokens - overlap;
    var cs := Chunks(tokens, 0, maxTokens, stride);
    ChunksCover(tokens, 0, maxTokens, stride, t);
    var i :| CoveredIn(tokens, cs, 0, stride, t, i);
    OffsetIsProduct(i, stride);
  }

  /**
   * Consecutive chunks overlap: what follows the first `stride` tokens of chunk `i` is the
   * beginning of chunk `i + 1`, and it is `overlap` tokens long whenever chunk `i` is full.
   */
  lemma ChunksOverlap(tokens: seq<int>, maxTokens: nat, overlap: nat, i: nat)
    requires overlap < maxTokens <= Config.CHUNK_HARD_MAX_TOKENS
    requires i + 1 < |Chunks(tokens, 0, maxTokens, maxTokens - overlap)|
    ensures var stride := maxTokens - overlap;
      var cs := Chunks(tokens, 0, maxTokens, stride);
      && stride <= |cs[i]| <= |cs[i + 1]| + stride
      && cs[i][stride..] == cs[i + 1][..|cs[i]| - stride]
      && (|cs[i]| == maxTokens ==> |cs[i][stride..]| == overlap)
  {
    var stride := maxTokens - overlap;
    var cs := Chunks(tokens, 0, maxTokens, stride);
    ChunksAt(tokens, 0, maxTokens, stride, i);
    ChunksAt(tokens, 0, maxTokens, stride, i + 1);
    OffsetShift(i + 1, stride);
    var a := Offset(i, stride);
    var c, d := cs[i], cs[i + 1];
    assert |c| == Min(maxTokens, |tokens| - a);
    assert |d| == Min(maxTokens, |tokens| - a - stride);
    assert c[stride..] == tokens[a + stride..a + |c|];
    assert d[..|c| - stride] == tokens[a + stride..a + |c|];
  }

  // ---------------------------------------------------------------------------
  // The element text map

  /**
   * A tag of the sanitised document carrying a `data-element-index`, in document order:
   * the attribute's value, the tag's whitespace-stripped text, and whether it is a table
   * cell or sits inside a table.
   */
  datatype IndexedTag = IndexedTag(elementIndex: int, text: string, name: string, inTable: bool)

  /** One entry of the element text map. */
  datatype Element = Element(index: int, text: string, isTableCell: bool)

  function ElementOf(tag: IndexedTag): Element {
    Element(tag.elementIndex, tag.text, tag.name == "td" || tag.name == "th" || tag.inTable)
  }

  /** The entries for the tags with non-empty text, in document order. */
  function ElementsOf(tags: seq<IndexedTag>): seq<Element> {
    if tags == [] then []
    else
      var last := tags[|tags| - 1];
      ElementsOf(tags[..|tags| - 1]) + (if last.text != [] then [ElementOf(last)] else [])
  }

  /** The loop of `chunk_filing` that builds the element text map. */
  method ElementTextMap(tags: seq<IndexedTag>) returns (elements: seq<Element>)
    ensures elements == ElementsOf(tags)
  {
    elements := [];
    for i := 0 to |tags|
      invariant elements == ElementsOf(tags[..i])
    {
      assert tags[..i + 1][..i] == tags[..i];
      if tags[i].text != [] {
        elements := elements + [ElementOf(tags[i])];
      }
    }
    assert tags[..|tags|] == tags;
  }

  /**
   * The map holds exactly the tags with non-empty text, with their element index and text:
   * every entry comes from such a tag and every such tag has an entry.
   */
  lemma {:induction false} ElementsOfFacts(tags: seq<IndexedTag>)
    ensures forall e | e in ElementsOf(tags) :: e.text != [] && exists t | t in tags :: e == ElementOf(t)
    ensures forall t | t in tags && t.text != [] :: ElementOf(t) in ElementsOf(tags)
    ensures |ElementsOf(tags)| <= |tags|
  {
    if tags != [] {
      var init := tags[..|tags| - 1];
      ElementsOfFacts(init);
      assert tags == init + [tags[|tags| - 1]];
    }
  }

  // ---------------------------------------------------------------------------
  // Ranking elements against a chunk

  /** A matching element and its score: the share of its distinct words found in the chunk. */
  datatype Match = Match(index: int, score: real)

  /** `len(elem_words & chunk_words)` */
  function WordOverlap(elemText: string, chunkWords: set<string>): nat {
    |WordSet(elemText) * chunkWords|
  }

  /** `overlap / max(len(elem_words), 1)` */
  function Score(overlap: nat, wordCount: nat): (r: real)
    ensures overlap <= wordCount ==> 0.0 <= r <= 1.0
  {
    var d := if wordCount > 1 then wordCount else 1;
    overlap as real / d as real
  }

  /** The match of one element, when it shares at least MIN_WORD_OVERLAP words with the chunk. */
  function MatchOf(e: Element, chunkWords: set<string>): seq<Match> {
    var overlap := WordOverlap(e.text, chunkWords);
    if overlap < Config.MIN_WORD_OVERLAP then [] else [Match(e.index, Score(overlap, |WordSet(e.text)|))]
  }

  /** The matches the scoring loop collects, in map order. */
  function Matches(elements: seq<Element>, chunkWords: set<string>): seq<Match> {
    if elements == [] then []
    else Matches(elements[..|elements| - 1], chunkWords) + MatchOf(elements[|elements| - 1], chunkWords)
  }

  /** Every match comes from an element sharing at least MIN_WORD_OVERLAP words with the chunk. */
  lemma {:induction false} MatchesFrom(elements: seq<Element>, chunkWords: set<string>)
    ensures forall m | m in Matches(elements, chunkWords) ::
      exists e | e in elements :: m.index == e.index && WordOverlap(e.text, chunkWords) >= Config.MIN_WORD_OVERLAP
    ensures |Matches(elements, chunkWords)| <= |elements|
  {
    if elements != [] {
      var init := elements[..|elements| - 1];
      MatchesFrom(init, chunkWords);
      assert elements == init + [elements[|elements| - 1]];
    }
  }

  /** No element reaching MIN_WORD_OVERLAP means no match at all, and conversely. */
  lemma {:induction false} MatchesEmpty(elements: seq<Element>, chunkWords: set<string>)
    ensures Matches(elements, chunkWords) == [] <==>
      forall e | e in elements :: WordOverlap(e.text, chunkWords) < Config.MIN_WORD_OVERLAP
  {
    if elements != [] {
      var init := elements[..|elements| - 1];
      MatchesEmpty(init, chunkWords);
      assert elements == init + [elements[|elements| - 1]];
    }
  }

  // Python's `list.sort(key=score, reverse=True)`: stable, so equal scores keep their order.

  predicate SortedDesc(ms: seq<Match>) {
    forall i, j | 0 <= i < j < |ms| :: ms[i].score >= ms[j].score
  }

  /** Inserts `x` after every element scoring at least as high. */
  function InsertDesc(ms: seq<Match>, x: Match): (r: seq<Match>)
    ensures |r| == |ms| + 1
  {
    if ms == [] then [x]
    else if ms[0].score < x.score then [x] + ms
    else [ms[0]] + InsertDesc(ms[1..], x)
  }

  /** Insertion sort, taking the elements in their original order. */
  function SortDesc(ms: seq<Match>): (r: seq<Match>)
    ensures |r| == |ms|
  {
    if ms == [] then []
    else InsertDesc(SortDesc(ms[..|ms| - 1]), ms[|ms| - 1])
  }

  /** The elements with score `v`, in order. */
  function WithScore(ms: seq<Match>, v: real): seq<Match> {
    if ms == [] then []
    else (if ms[0].score == v then [ms[0]] else []) + WithScore(ms[1..], v)
  }

  lemma {:induction false} WithScoreConcat(a: seq<Match>, b: seq<Match>, v: real)
    ensures WithScore(a + b, v) == WithScore(a, v) + WithScore(b, v)
  {
    if a != [] {
      var ab := a + b;
      WithScoreConcat(a[1..], b, v);
      assert ab[0] == a[0] && ab[1..] == a[1..] + b;
    } else {
      assert a + b == b;
    }
  }

  lemma {:induction false} WithScoreNone(ms: seq<Match>, v: real)
    requires forall i | 0 <= i < |ms| :: ms[i].score < v
    ensures WithScore(ms, v) == []
  {
    if ms != [] {
      WithScoreNone(ms[1..], v);
    }
  }

  lemma {:induction false} InsertDescPerm(ms: seq<Match>, x: Match)
    ensures multiset(InsertDesc(ms, x)) == multiset(ms) + multiset{x}
  {
    if ms != [] && ms[0].score >= x.score {
      InsertDescPerm(ms[1..], x);
      assert ms == [ms[0]] + ms[1..];
    }
  }

  lemma {:induction false} InsertDescSorted(ms: seq<Match>, x: Match)
    requires SortedDesc(ms)
    ensures SortedDesc(InsertDesc(ms, x))
  {
    if ms != [] && ms[0].score >= x.score {
      var rest := InsertDesc(ms[1..], x);
      InsertDescSorted(ms[1..], x);
      InsertDescPerm(ms[1..], x);
      forall m | m in rest ensures ms[0].score >= m.score {
        assert m in multiset(rest);
        if m != x {
          assert m in multiset(ms[1..]);
        }
      }
    }
  }

  lemma {:induction false} InsertDescStable(ms: seq<Match>, x: Match, v: real)
    requires SortedDesc(ms)
    ensures WithScore(InsertDesc(ms, x), v) == WithScore(ms, v) + WithScore([x], v)
  {
    var r := InsertDesc(ms, x);
    assert WithScore([x], v) == if x.score == v then [x] else [];
    if ms == [] {
    } else if ms[0].score < x.score {
      assert r[1..] == ms;
      if v == x.score {
        WithScoreNone(ms, v);
      }
    } else {
      InsertDescStable(ms[1..], x, v);
      assert r[1..] == InsertDesc(ms[1..], x);
    }
  }

  /**
   * The sort is a stable descending sort: scores are non-increasing, it is a permutation,
   * and for every score value the elements carrying it keep their original order.
   */
  lemma {:induction false} SortDescFacts(ms: seq<Match>)
    ensures SortedDesc(SortDesc(ms))
    ensures multiset(SortDesc(ms)) == multiset(ms)
    ensures forall v :: WithScore(SortDesc(ms), v) == WithScore(ms, v)
  {
    if ms != [] {
      var init := ms[..|ms| - 1];
      var x := ms[|ms| - 1];
      SortDescFacts(init);
      InsertDescSorted(SortDesc(init), x);
      InsertDescPerm(SortDesc(init), x);
      assert ms == init + [x];
      forall v ensures WithScore(SortDesc(ms), v) == WithScore(ms, v) {
        InsertDescStable(SortDesc(init), x, v);
        WithScoreConcat(init, [x], v);
      }
    }
  }

  /** `[m["index"] for m in ms]` */
  function Indices(ms: seq<Match>): (r: seq<int>)
    ensures |r| == |ms|
    ensures forall i | 0 <= i < |ms| :: r[i] == ms[i].index
  {
    if ms == [] then [] else [ms[0].index] + Indices(ms[1..])
  }

  /** `matches[:n]` */
  function Take(ms: seq<Match>, n: nat): (r: seq<Match>)
    ensures |r| == Min(n, |ms|) && r == ms[..|r|]
  {
    if n < |ms| then ms[..n] else ms
  }

  const MAX_ELEMENT_INDICES: nat := 15

  /** The ranked indices for a chunk, or `[0]` when the map is empty or nothing matches. */
  function ElementIndicesFor(chunkText: string, elements: seq<Element>): (r: seq<int>)
    ensures 1 <= |r| <= MAX_ELEMENT_INDICES
  {
    if elements == [] then [0]
    else
      var ranked := Take(SortDesc(Matches(elements, WordSet(chunkText))), MAX_ELEMENT_INDICES);
      if ranked == [] then [0] else Indices(ranked)
  }

  /**
   * `find_element_indices_for_chunk`: the matching elements ranked by the share of their
   * words found in the chunk, best first, at most 15 of them.
   */
  method FindElementIndicesForChunk(chunkText: string, elements: seq<Element>) returns (r: seq<int>)
    ensures r == ElementIndicesFor(chunkText, elements)
  {
    if elements == [] {
      return [0];
    }
    var chunkWords := WordSet(chunkText);
    var matches := CollectMatches(elements, chunkWords);
    var ranked := Take(SortDesc(matches), MAX_ELEMENT_INDICES);
    r := if ranked == [] then [0] else Indices(ranked);
  }

  /** The scoring loop of `find_element_indices_for_chunk`. */
  method CollectMatches(elements: seq<Element>, chunkWords: set<string>) returns (matches: seq<Match>)
    ensures matches == Matches(elements, chunkWords)
  {
    matches := [];
    for i := 0 to |elements|
      invariant matches == Matches(elements[..i], chunkWords)
    {
      MatchesSnoc(elements, i, chunkWords);
      var elemWords := WordSet(elements[i].text);
      var overlap := |elemWords * chunkWords|;
      if overlap < Config.MIN_WORD_OVERLAP {
        continue;
      }
      var score := Score(overlap, |elemWords|);
      matches := matches + [Match(elements[i].index, score)];
    }
    assert elements[..|elements|] == elements;
  }

  lemma MatchesSnoc(elements: seq<Element>, i: nat, chunkWords: set<string>)
    requires i < |elements|
    ensures Matches(elements[..i + 1], chunkWords) == Matches(elements[..i], chunkWords) + MatchOf(elements[i], chunkWords)
  {
    assert elements[..i + 1][..i] == elements[..i];
  }

  /**
   * What the ranking promises: `[0]` exactly when the map is empty or no element shares
   * MIN_WORD_OVERLAP words with the chunk; otherwise at most 15 indices of matching
   * elements, ordered by non-increasing score with ties in map order.
   */
  lemma ElementIndicesForFacts(chunkText: string, elements: seq<Element>)
    ensures var words := WordSet(chunkText);
      var r := ElementIndicesFor(chunkText, elements);
      && ((elements == [] || forall e | e in elements :: WordOverlap(e.text, words) < Config.MIN_WORD_OVERLAP)
          ==> r == [0])
      && (elements != [] && (exists e | e in elements :: WordOverlap(e.text, words) >= Config.MIN_WORD_OVERLAP)
          ==> exists ranked: seq<Match> ::
                && r == Indices(ranked)
                && 1 <= |ranked| <= MAX_ELEMENT_INDICES
                && |ranked| <= |Matches(elements, words)|
                && SortedDesc(ranked)
                && ranked == SortDesc(Matches(elements, words))[..|ranked|]
                && forall m | m in ranked :: exists e | e in elements ::
                     m.index == e.index && WordOverlap(e.text, words) >= Config.MIN_WORD_OVERLAP)
  {
    var words := WordSet(chunkText);
    if elements != [] {
      var ms := Matches(elements, words);
      MatchesEmpty(elements, words);
      MatchesFrom(elements, words);
      SortDescFacts(ms);
      var sorted := SortDesc(ms);
      var ranked := Take(sorted, MAX_ELEMENT_INDICES);
      if ms != [] {
        assert |sorted| == |ms| by {
          assert |multiset(sorted)| == |multiset(ms)|;
        }
        forall m | m in ranked ensures m in ms {
          assert m in multiset(sorted);
        }
        assert SortedDesc(ranked);
      }
    }
  }

  // ---------------------------------------------------------------------------
  // Chunk metadata

  /** A chunk with its metadata; the token count is left out with the tokenizer. */
  datatype ChunkRecord = ChunkRecord(
    id: string, text: string, position: nat, hasTable: bool,
    elementIndex: int, elementIndices: seq<int>)

  /** Markdown table rows (`"| "`) or the row-by-row table layout (`"  •"`). */
  predicate HasTable(text: string) { Contains(text, "| ") || Contains(text, "  •") }

  /**
   * The metadata loop of `chunk_filing`, over the decoded chunk texts: chunk `i` is
   * "chunk-i" at position `i`, its element index is the first of its ranked indices.
   */
  method ChunkRecords(texts: seq<string>, elements: seq<Element>) returns (records: seq<ChunkRecord>)
    ensures |records| == |texts|
    ensures forall i | 0 <= i < |texts| :: RecordFor(records[i], i, texts[i], elements)
  {
    records := [];
    for i := 0 to |texts|
      invariant |records| == i
      invariant forall j | 0 <= j < i :: RecordFor(records[j], j, texts[j], elements)
    {
      var indices := FindElementIndicesForChunk(texts[i], elements);
      var hasTable := HasTable(texts[i]);
      var record := ChunkRecord("chunk-" + NatToString(i), texts[i], i, hasTable, indices[0], indices);
      assert RecordFor(record, i, texts[i], elements);
      records := records + [record];
    }
  }

  /**
   * The metadata of chunk `i` with text `text`: id "chunk-i", position `i`, the table flag
   * of its text, its ranked element indices, and the first of them as its element index.
   */
  predicate RecordFor(r: ChunkRecord, i: nat, text: string, elements: seq<Element>) {
    && r.id == "chunk-" + NatToString(i)
    && r.text == text
    && r.position == i
    && r.hasTable == HasTable(text)
    && r.elementIndices == ElementIndicesFor(text, elements)
    && r.elementIndices != []
    && r.elementIndex == r.elementIndices[0]
  }

  /** Chunk ids are distinct: "chunk-i" names position `i` only. */
  lemma ChunkIdsDistinct(i: nat, j: nat)
    requires "chunk-" + NatToString(i) == "chunk-" + NatToString(j)
    ensures i == j
  {
    var p := "chunk-";
    assert NatToString(i) == ("chunk-" + NatToString(i))[|p|..];
    NatToStringInjective(i, j);
  }
}
