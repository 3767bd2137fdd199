/**
 * The vector store: per filing, the chunks, one embedding vector per chunk and the
 * element text map, in an ordered map bounded by a capacity. Ingesting also keeps the
 * filing cache and the BM25 keyword index in step; retrieval ranks chunks by the dot
 * product with the query vector, or by a weighted fusion of min-max normalised semantic
 * and keyword scores.
 *
 * Scores are reals; numpy's floating point, its epsilon arithmetic and the tie order of
 * `argsort` are not modelled (ties are ranked in chunk order).
 */
module VectorStore {
  import opened Wrappers
  import opened OrderedMaps
  import Chunker
  import FilingCache
  import KeywordIndex

  /** One stored filing. */
  datatype Entry = Entry(
    chunks: seq<Chunker.ChunkRecord>,
    vectors: seq<seq<real>>,
    elementMap: seq<Chunker.Element>)

  /**
   * One retrieved chunk with its ranking score; the semantic and keyword scores are only
   * reported by hybrid retrieval.
   */
  datatype Hit = Hit(
    chunk: Chunker.ChunkRecord,
    score: real,
    semanticScore: Option<real>,
    keywordScore: Option<real>)

  /** The `epsilon` of `_min_max_normalize`: 1e-9. */
  const EPSILON: real := 0.000000001

  /** The default fusion weights of `retrieve`. */
  const SEMANTIC_WEIGHT: real := 0.6
  const KEYWORD_WEIGHT: real := 0.4

  // ---------------------------------------------------------------------------
  // Semantic scores

  /** The dot product of two vectors of equal length. */
  function Dot(u: seq<real>, v: seq<real>): real
    requires |u| == |v|
  {
    if u == [] then 0.0 else Dot(u[..|u| - 1], v[..|v| - 1]) + u[|u| - 1] * v[|v| - 1]
  }

  /** What `np.dot` needs of a stored filing: one vector per chunk, each as long as the query. */
  predicate Shaped(e: Entry, dim: nat) {
    |e.vectors| == |e.chunks| && forall i | 0 <= i < |e.vectors| :: |e.vectors[i]| == dim
  }

  /** `np.dot(vectors, query)`: one score per chunk. */
  function SemanticScores(vectors: seq<seq<real>>, query: seq<real>): (r: seq<real>)
    requires forall i | 0 <= i < |vectors| :: |vectors[i]| == |query|
    ensures |r| == |vectors|
  {
    seq(|vectors|, i requires 0 <= i < |vectors| => Dot(vectors[i], query))
  }

  // ---------------------------------------------------------------------------
  // Min-max normalisation and fusion

  function MinOf(s: seq<real>): (m: real)
    requires s != []
    ensures m in s && forall i | 0 <= i < |s| :: m <= s[i]
  {
    if |s| == 1 then s[0]
    else
      var rest := MinOf(s[1..]);
      if s[0] <= rest then s[0] else rest
  }

  function MaxOf(s: seq<real>): (m: real)
    requires s != []
    ensures m in s && forall i | 0 <= i < |s| :: s[i] <= m
  {
    if |s| == 1 then s[0]
    else
      var rest := MaxOf(s[1..]);
      if s[0] >= rest then s[0] else rest
  }

  /** `(x - min) / (max - min + epsilon)` */
  function Rescale(x: real, lo: real, hi: real): real
    requires lo <= hi
  {
    (x - lo) / (hi - lo + EPSILON)
  }

  /** A score between the minimum and the maximum rescales into `[0, 1)`. */
  lemma RescaleBounds(x: real, lo: real, hi: real)
    requires lo <= x <= hi
    ensures 0.0 <= Rescale(x, lo, hi) < 1.0
  {
    var d := hi - lo + EPSILON;
    var q := (x - lo) / d;
    assert q * d == x - lo;
    assert x - lo < d;
  }

  /** Rescaling keeps the order of scores, strictly. */
  lemma RescaleMonotone(x: real, y: real, lo: real, hi: real)
    requires lo <= hi
    ensures x <= y <==> Rescale(x, lo, hi) <= Rescale(y, lo, hi)
  {
    var d := hi - lo + EPSILON;
    assert Rescale(y, lo, hi) - Rescale(x, lo, hi) == (y - x) / d;
  }

  /** `_min_max_normalize` */
  function Normalize(scores: seq<real>): (r: seq<real>)
    requires scores != []
    ensures |r| == |scores|
  {
    var lo, hi := MinOf(scores), MaxOf(scores);
    seq(|scores|, i requires 0 <= i < |scores| => Rescale(scores[i], lo, hi))
  }

  /** Min-max normalisation maps every score into `[0, 1)`. */
  lemma NormalizeBounds(scores: seq<real>, i: nat)
    requires i < |scores|
    ensures 0.0 <= Normalize(scores)[i] < 1.0
  {
    RescaleBounds(scores[i], MinOf(scores), MaxOf(scores));
  }

  /** Min-max normalisation keeps the order between any two scores, in both directions. */
  lemma NormalizeMonotone(scores: seq<real>, i: nat, j: nat)
    requires i < |scores| && j < |scores|
    ensures var r := Normalize(scores);
      scores[i] <= scores[j] <==> r[i] <= r[j]
  {
    RescaleMonotone(scores[i], scores[j], MinOf(scores), MaxOf(scores));
  }

  /** `semantic_weight * sem_norm + keyword_weight * kw_norm` on normalised scores. */
  function Combine(semNorm: seq<real>, kwNorm: seq<real>, ws: real, wk: real): (r: seq<real>)
    requires |semNorm| == |kwNorm|
    ensures |r| == |semNorm|
  {
    seq(|semNorm|, i requires 0 <= i < |semNorm| => ws * semNorm[i] + wk * kwNorm[i])
  }

  /** The fused scores of `retrieve`: both score lists normalised, then combined. */
  function Fused(semantic: seq<real>, keyword: seq<real>, ws: real, wk: real): (r: seq<real>)
    requires |semantic| == |keyword| && semantic != []
    ensures |r| == |semantic|
  {
    Combine(Normalize(semantic), Normalize(keyword), ws, wk)
  }

  /** Combining scores in `[0, 1)` with non-negative weights stays below the weights' sum. */
  lemma CombineBounds(semNorm: seq<real>, kwNorm: seq<real>, ws: real, wk: real, i: nat)
    requires |semNorm| == |kwNorm| && i < |semNorm|
    requires 0.0 <= semNorm[i] < 1.0 && 0.0 <= kwNorm[i] < 1.0
    requires ws >= 0.0 && wk >= 0.0 && ws + wk > 0.0
    ensures 0.0 <= Combine(semNorm, kwNorm, ws, wk)[i] < ws + wk
  {
    WeightedBounds(semNorm[i], ws);
    WeightedBounds(kwNorm[i], wk);
    SumBounds(ws * semNorm[i], wk * kwNorm[i], ws, wk);
  }

  lemma SumBounds(x: real, y: real, ws: real, wk: real)
    requires 0.0 <= x <= ws && 0.0 <= y <= wk && ws + wk > 0.0
    requires ws > 0.0 ==> x < ws
    requires wk > 0.0 ==> y < wk
    ensures 0.0 <= x + y < ws + wk
  {
  }

  /**
   * With non-negative weights the fused score is at least 0 and below the weights' sum;
   * with the default weights 0.6 and 0.4 it lies in `[0, 1)`.
   */
  lemma FusedBounds(semantic: seq<real>, keyword: seq<real>, ws: real, wk: real, i: nat)
    requires |semantic| == |keyword| && i < |semantic|
    requires ws >= 0.0 && wk >= 0.0 && ws + wk > 0.0
    ensures 0.0 <= Fused(semantic, keyword, ws, wk)[i] < ws + wk
  {
    NormalizeBounds(semantic, i);
    NormalizeBounds(keyword, i);
    CombineBounds(Normalize(semantic), Normalize(keyword), ws, wk, i);
  }

  lemma WeightedBounds(x: real, w: real)
    requires 0.0 <= x < 1.0 && w >= 0.0
    ensures 0.0 <= w * x <= w
    ensures w > 0.0 ==> w * x < w
  {
  }

  lemma DefaultFusedBounds(semantic: seq<real>, keyword: seq<real>, i: nat)
    requires |semantic| == |keyword| && i < |semantic|
    ensures 0.0 <= Fused(semantic, keyword, SEMANTIC_WEIGHT, KEYWORD_WEIGHT)[i] < 1.0
  {
    FusedBounds(semantic, keyword, SEMANTIC_WEIGHT, KEYWORD_WEIGHT, i);
  }

  // ---------------------------------------------------------------------------
  // Top-k selection

  /** The number of indices `np.argsort(scores)[-top_k:]` keeps out of `n`. */
  function TopCount(n: nat, topK: int): (r: nat)
    ensures r <= n
  {
    if topK == 0 then n
    else if topK > 0 then Chunker.Min(topK, n)
    else if n + topK >= 0 then n + topK
    else 0
  }

  /** Every chunk index with its score, in chunk order. */
  function Scored(scores: seq<real>): (r: seq<Chunker.Match>)
    ensures |r| == |scores|
    ensures forall i | 0 <= i < |scores| :: r[i] == Chunker.Match(i, scores[i])
  {
    seq(|scores|, i requires 0 <= i < |scores| => Chunker.Match(i, scores[i]))
  }

  /** `np.argsort(scores)[-top_k:][::-1]` with each index's score: the best first. */
  function Ranking(scores: seq<real>, topK: int): (r: seq<Chunker.Match>)
    ensures |r| == TopCount(|scores|, topK)
  {
    Chunker.SortDescFacts(Scored(scores));
    Chunker.Take(Chunker.SortDesc(Scored(scores)), TopCount(|scores|, topK))
  }

  /** Sorting keeps every index paired with its own score. */
  lemma SortedScoredPairs(scores: seq<real>)
    ensures var s := Chunker.SortDesc(Scored(scores));
      forall j | 0 <= j < |s| :: 0 <= s[j].index < |scores| && s[j].score == scores[s[j].index]
  {
    var ms := Scored(scores);
    var s := Chunker.SortDesc(ms);
    Chunker.SortDescFacts(ms);
    forall j | 0 <= j < |s| ensures 0 <= s[j].index < |scores| && s[j].score == scores[s[j].index] {
      assert s[j] in multiset(ms);
    }
  }

  /** Sorting keeps every index, once. */
  lemma SortedScoredDistinct(scores: seq<real>)
    ensures var s := Chunker.SortDesc(Scored(scores));
      forall j, k | 0 <= j < k < |s| :: s[j].index != s[k].index
  {
    var ms := Scored(scores);
    var s := Chunker.SortDesc(ms);
    Chunker.SortDescFacts(ms);
    SortedScoredPairs(scores);
    forall j, k | 0 <= j < k < |s| ensures s[j].index != s[k].index {
      if s[j].index == s[k].index {
        var m := s[j];
        ScoredOnce(scores, m.index);
        TwiceInMultiset(s, j, k);
      }
    }
  }

  /** Two positions holding the same value count twice in the multiset. */
  lemma TwiceInMultiset<T>(s: seq<T>, j: nat, k: nat)
    requires j < k < |s| && s[j] == s[k]
    ensures multiset(s)[s[j]] >= 2
  {
    assert s == s[..k] + [s[k]] + s[k + 1..];
    assert s[j] in s[..k];
  }

  lemma SortedScoredComplete(scores: seq<real>)
    ensures var s := Chunker.SortDesc(Scored(scores));
      forall i | 0 <= i < |scores| :: Chunker.Match(i, scores[i]) in s
  {
    var ms := Scored(scores);
    Chunker.SortDescFacts(ms);
    forall i | 0 <= i < |scores| ensures Chunker.Match(i, scores[i]) in Chunker.SortDesc(ms) {
      assert ms[i] in multiset(ms);
    }
  }

  /** Each index occurs once among the scored indices. */
  lemma ScoredOnce(scores: seq<real>, i: nat)
    requires i < |scores|
    ensures multiset(Scored(scores))[Chunker.Match(i, scores[i])] == 1
  {
    var ms := Scored(scores);
    var m := Chunker.Match(i, scores[i]);
    assert ms == ms[..i] + [m] + ms[i + 1..];
    assert m !in ms[..i];
    assert m !in ms[i + 1..];
  }

  /**
   * The ranking keeps `min(top_k, n)` indices for `top_k >= 1` and all of them for
   * `top_k = 0`; the indices are distinct chunk positions, each with its own score, and
   * the scores do not increase.
   */
  lemma RankingFacts(scores: seq<real>, topK: int)
    ensures var r := Ranking(scores, topK);
      && (topK >= 1 ==> |r| == Chunker.Min(topK, |scores|))
      && (topK == 0 ==> |r| == |scores|)
      && (forall j | 0 <= j < |r| :: 0 <= r[j].index < |scores| && r[j].score == scores[r[j].index])
      && (forall j, k | 0 <= j < k < |r| :: r[j].index != r[k].index)
      && (forall j, k | 0 <= j < k < |r| :: r[j].score >= r[k].score)
  {
    var s := Chunker.SortDesc(Scored(scores));
    var r := Ranking(scores, topK);
    Chunker.SortDescFacts(Scored(scores));
    SortedScoredPairs(scores);
    SortedScoredDistinct(scores);
    assert r == s[..|r|];
  }

  /** No index left out of the ranking scores higher than one kept. */
  lemma RankingTop(scores: seq<real>, topK: int)
    ensures var r := Ranking(scores, topK);
      forall i, j | 0 <= i < |scores| && 0 <= j < |r| && (forall k | 0 <= k < |r| :: r[k].index != i) ::
        scores[i] <= r[j].score
  {
    var s := Chunker.SortDesc(Scored(scores));
    var r := Ranking(scores, topK);
    Chunker.SortDescFacts(Scored(scores));
    SortedScoredComplete(scores);
    assert r == s[..|r|];
    forall i, j | 0 <= i < |scores| && 0 <= j < |r| && (forall k | 0 <= k < |r| :: r[k].index != i)
      ensures scores[i] <= r[j].score
    {
      var p :| 0 <= p < |s| && s[p] == Chunker.Match(i, scores[i]);
      assert p >= |r| by {
        assert p < |r| ==> r[p] == s[p];
      }
      assert s[j].score >= s[p].score;
    }
  }

  // ---------------------------------------------------------------------------
  // Retrieval results

  /** The semantic-only result: each kept chunk with its dot-product score. */
  function SemanticHits(chunks: seq<Chunker.ChunkRecord>, semantic: seq<real>, topK: int): (r: seq<Hit>)
    requires |semantic| == |chunks|
    ensures |r| == TopCount(|chunks|, topK)
  {
    var ranked := Ranking(semantic, topK);
    RankingFacts(semantic, topK);
    seq(|ranked|, j requires 0 <= j < |ranked| =>
      Hit(chunks[ranked[j].index], ranked[j].score, None, None))
  }

  /** The hybrid result: each kept chunk with its fused, semantic and keyword scores. */
  function HybridHits(chunks: seq<Chunker.ChunkRecord>, semantic: seq<real>, keyword: seq<real>,
                      ws: real, wk: real, topK: int): (r: seq<Hit>)
    requires |semantic| == |chunks| == |keyword| && chunks != []
    ensures |r| == TopCount(|chunks|, topK)
  {
    var fused := Fused(semantic, keyword, ws, wk);
    var ranked := Ranking(fused, topK);
    RankingFacts(fused, topK);
    seq(|ranked|, j requires 0 <= j < |ranked| =>
      var i := ranked[j].index;
      Hit(chunks[i], ranked[j].score, Some(semantic[i]), Some(keyword[i])))
  }

  /**
   * Both kinds of result list distinct chunks, best first: hit `j` is chunk `idx[j]`
   * reported with `scores[idx[j]]`, where `scores` are the dot products (semantic) or the
   * fused scores (hybrid).
   */
  lemma SemanticHitsFacts(chunks: seq<Chunker.ChunkRecord>, semantic: seq<real>, topK: int)
    requires |semantic| == |chunks|
    ensures var r := SemanticHits(chunks, semantic, topK);
      var ranked := Ranking(semantic, topK);
      && (forall j | 0 <= j < |r| ::
            && 0 <= ranked[j].index < |chunks|
            && r[j] == Hit(chunks[ranked[j].index], semantic[ranked[j].index], None, None))
      && forall j, k | 0 <= j < k < |r| :: r[j].score >= r[k].score
  {
    RankingFacts(semantic, topK);
  }

  lemma HybridHitsFacts(chunks: seq<Chunker.ChunkRecord>, semantic: seq<real>, keyword: seq<real>,
                        ws: real, wk: real, topK: int)
    requires |semantic| == |chunks| == |keyword| && chunks != []
    ensures var r := HybridHits(chunks, semantic, keyword, ws, wk, topK);
      var fused := Fused(semantic, keyword, ws, wk);
      var ranked := Ranking(fused, topK);
      && (forall j | 0 <= j < |r| ::
            var i := ranked[j].index;
            && 0 <= i < |chunks|
            && r[j] == Hit(chunks[i], fused[i], Some(semantic[i]), Some(keyword[i])))
      && forall j, k | 0 <= j < k < |r| :: r[j].score >= r[k].score
  {
    RankingFacts(Fused(semantic, keyword, ws, wk), topK);
  }

  // ---------------------------------------------------------------------------
  // The store

  /** The keyword index of a filing is built from the same chunks. */
  lemma IndexKeepsChunks(chunks: seq<Chunker.ChunkRecord>)
    ensures KeywordIndex.Index(chunks).chunks == chunks
  {
  }

  /**
   * Both stores insert the same filing (each evicting at most its own oldest one): a
   * filing present in both still has the same chunks in both.
   */
  lemma SameChunksAfterInsert(s: map<string, Entry>, b: map<string, KeywordIndex.IndexData>,
                              s2: map<string, Entry>, b2: map<string, KeywordIndex.IndexData>, k: string)
    requires forall id | id in s && id in b :: b[id].chunks == s[id].chunks
    requires forall id | id in s2 && id != k :: id in s && s2[id] == s[id]
    requires forall id | id in b2 && id != k :: id in b && b2[id] == b[id]
    requires k in s2 && k in b2 && b2[k].chunks == s2[k].chunks
    ensures forall id | id in s2 && id in b2 :: b2[id].chunks == s2[id].chunks
  {
  }

  class VectorStore {
    var store: OrderedMap<Entry>
    const maxFilings: nat
    /** The process-wide filing cache and keyword index this store keeps in step. */
    const cache: FilingCache.FilingCache
    const bm25: KeywordIndex.Bm25Index

    /**
     * Besides the ordered map's own invariant and the capacity: a filing indexed both
     * here and in the keyword index was indexed from the same chunks.
     */
    ghost predicate Valid()
      reads this, cache, bm25
    {
      && store.Valid() && 1 <= maxFilings && |store.keys| <= maxFilings
      && cache.Valid() && bm25.Valid()
      && forall id | id in store.values && id in bm25.store.values ::
           bm25.store.values[id].chunks == store.values[id].chunks
    }

    constructor (maxFilings: nat, cache: FilingCache.FilingCache, bm25: KeywordIndex.Bm25Index)
      requires maxFilings >= 1 && cache.Valid() && bm25.Valid()
      ensures Valid() && store.keys == []
      ensures this.maxFilings == maxFilings && this.cache == cache && this.bm25 == bm25
    {
      this.maxFilings := maxFilings;
      this.cache := cache;
      this.bm25 := bm25;
      store := Empty();
    }

    /**
     * `ingest`: at capacity the oldest filing leaves this store, the filing cache and the
     * keyword index; then the filing is stored as the most recent and indexed for BM25.
     */
    method Ingest(filingId: string, chunks: seq<Chunker.ChunkRecord>, vectors: seq<seq<real>>,
                  elementMap: Option<seq<Chunker.Element>>)
      requires Valid()
      modifies this, cache, bm25
      ensures Valid()
      ensures store == old(store).Insert(maxFilings, filingId, Entry(chunks, vectors, elementMap.GetOr([])))
      ensures |old(store.keys)| >= maxFilings ==>
        var oldest := old(store.keys)[0];
        && cache.cache == old(cache.cache).Delete(oldest)
        && bm25.store == old(bm25.store).Delete(oldest).Insert(bm25.maxFilings, filingId, KeywordIndex.Index(chunks))
      ensures |old(store.keys)| < maxFilings ==>
        && cache.cache == old(cache.cache)
        && bm25.store == old(bm25.store).Insert(bm25.maxFilings, filingId, KeywordIndex.Index(chunks))
    {
      var entry := Entry(chunks, vectors, elementMap.GetOr([]));
      if store.Size() >= maxFilings {
        InsertAfterDelete(store, maxFilings, filingId, entry);
        EvictOldest();
      }
      Add(filingId, entry);
    }

    /** The capacity step of `ingest`: the oldest filing leaves all three stores. */
    method EvictOldest()
      requires Valid() && |store.keys| >= maxFilings
      modifies this, cache, bm25
      ensures Valid() && |store.keys| < maxFilings
      ensures var oldest := old(store.keys)[0];
        && store == old(store).Delete(oldest)
        && cache.cache == old(cache.cache).Delete(oldest)
        && bm25.store == old(bm25.store).Delete(oldest)
    {
      var oldest := store.Oldest();
      WithoutFirst(store.keys);
      store := store.Delete(oldest);
      cache.Evict(oldest);
      bm25.Evict(oldest);
    }

    /** The rest of `ingest`, below capacity: the entry is stored last and indexed for BM25. */
    method Add(filingId: string, entry: Entry)
      requires Valid() && |store.keys| < maxFilings
      modifies this, bm25
      ensures Valid()
      ensures store == old(store).Insert(maxFilings, filingId, entry)
      ensures bm25.store == old(bm25.store).Insert(bm25.maxFilings, filingId, KeywordIndex.Index(entry.chunks))
    {
      ghost var before, indexed := store.values, bm25.store.values;
      store := store.Insert(maxFilings, filingId, entry);
      bm25.Ingest(filingId, entry.chunks);
      IndexKeepsChunks(entry.chunks);
      SameChunksAfterInsert(before, indexed, store.values, bm25.store.values, filingId);
    }

    /** What `retrieve` returns. */
    function Results(filingId: string, query: seq<real>, topK: int, queryText: Option<string>,
                     ws: real, wk: real, log: real -> real): seq<Hit>
      reads this, cache, bm25
      requires Valid()
      requires filingId in store.values ==> Shaped(store.values[filingId], |query|)
    {
      if filingId !in store.values then []
      else
        var e := store.values[filingId];
        var semantic := SemanticScores(e.vectors, query);
        if queryText.None? then SemanticHits(e.chunks, semantic, topK)
        else
          var keyword := bm25.Scores(filingId, queryText.value, log);
          if keyword == [] then SemanticHits(e.chunks, semantic, topK)
          else
            bm25.ScoresFacts(filingId, queryText.value, log);
            HybridHits(e.chunks, semantic, keyword, ws, wk, topK)
    }

    /**
     * `retrieve`: `[]` for an unknown filing; semantic ranking without a query text or
     * when the keyword index has no scores for the filing; fused ranking otherwise.
     * Nothing is reordered or otherwise changed.
     */
    method Retrieve(filingId: string, query: seq<real>, topK: int, queryText: Option<string>,
                    ws: real, wk: real, log: real -> real) returns (hits: seq<Hit>)
      requires Valid()
      requires filingId in store.values ==> Shaped(store.values[filingId], |query|)
      ensures hits == Results(filingId, query, topK, queryText, ws, wk, log)
    {
      if filingId !in store.values {
        return [];
      }
      var e := store.values[filingId];
      var semantic := SemanticScores(e.vectors, query);
      if queryText.None? {
        return SemanticHits(e.chunks, semantic, topK);
      }
      var keyword := bm25.ScoreAll(filingId, queryText.value, log);
      if keyword == [] {
        return SemanticHits(e.chunks, semantic, topK);
      }
      bm25.ScoresFacts(filingId, queryText.value, log);
      hits := HybridHits(e.chunks, semantic, keyword, ws, wk, topK);
    }

    /**
     * `retrieve` returns nothing for an unknown filing; otherwise `min(top_k, n)` chunks for
     * `top_k >= 1` and all `n` of them for `top_k = 0`, best first, whichever scores rank
     * them.
     */
    lemma ResultsRanked(filingId: string, query: seq<real>, topK: int, queryText: Option<string>,
                        ws: real, wk: real, log: real -> real)
      requires Valid()
      requires filingId in store.values ==> Shaped(store.values[filingId], |query|)
      ensures var r := Results(filingId, query, topK, queryText, ws, wk, log);
        && (filingId !in store.values ==> r == [])
        && (filingId in store.values ==>
             var n := |store.values[filingId].chunks|;
             && (topK >= 1 ==> |r| == Chunker.Min(topK, n))
             && (topK == 0 ==> |r| == n))
        && forall j, k | 0 <= j < k < |r| :: r[j].score >= r[k].score
    {
      if filingId in store.values {
        var e := store.values[filingId];
        var semantic := SemanticScores(e.vectors, query);
        SemanticHitsFacts(e.chunks, semantic, topK);
        if queryText.Some? {
          var keyword := bm25.Scores(filingId, queryText.value, log);
          if keyword != [] {
            bm25.ScoresFacts(filingId, queryText.value, log);
            HybridHitsFacts(e.chunks, semantic, keyword, ws, wk, topK);
          }
        }
      }
    }

    /**
     * `retrieve` reports semantic and keyword scores exactly when it fuses, that is when
     * there is a query text and the keyword index scores the filing.
     */
    lemma ResultsForm(filingId: string, query: seq<real>, topK: int, queryText: Option<string>,
                      ws: real, wk: real, log: real -> real)
      requires Valid()
      requires filingId in store.values ==> Shaped(store.values[filingId], |query|)
      ensures var r := Results(filingId, query, topK, queryText, ws, wk, log);
        var semanticOnly := queryText.None? || bm25.Scores(filingId, queryText.value, log) == [];
        && (semanticOnly ==> forall j | 0 <= j < |r| :: r[j].semanticScore.None? && r[j].keywordScore.None?)
        && (!semanticOnly ==> forall j | 0 <= j < |r| :: r[j].semanticScore.Some? && r[j].keywordScore.Some?)
    {
      if filingId in store.values {
        var e := store.values[filingId];
        var semantic := SemanticScores(e.vectors, query);
        SemanticHitsFacts(e.chunks, semantic, topK);
        if queryText.Some? {
          var keyword := bm25.Scores(filingId, queryText.value, log);
          if keyword != [] {
            bm25.ScoresFacts(filingId, queryText.value, log);
            HybridHitsFacts(e.chunks, semantic, keyword, ws, wk, topK);
          }
        }
      }
    }

    /** `has_filing` */
    function HasFiling(filingId: string): (r: bool)
      reads this, cache, bm25
      requires Valid()
      ensures r <==> filingId in store.keys
    {
      filingId in store.values
    }

    /** `get_element_map`: the stored element text map, or `[]` for an unknown filing. */
    function GetElementMap(filingId: string): (r: seq<Chunker.Element>)
      reads this
      ensures filingId !in store.values ==> r == []
      ensures filingId in store.values ==> r == store.values[filingId].elementMap
    {
      if filingId in store.values then store.values[filingId].elementMap else []
    }
  }
}
