# SEC filing chat backend — a Dafny model

This project models the logic of a retrieval-augmented chat over SEC filings. The backend
fetches a filing and sanitises its HTML. It numbers the elements a citation can point
to, cuts the text into overlapping token windows, and keeps three capacity-bounded
in-memory stores: the raw filing cache, the vector store and the BM25 keyword index.
It retrieves chunks for a question, builds the prompt, and post-processes the model's
answer. Post-processing keeps only the cited chunks, renumbers the `[n]` markers densely,
and finds the element and preview each citation points at. Beside the chat, it renders
HTML tables as prose or markdown and as CSV, lists the exhibits of a filing, and lists
a company's filings from EDGAR's submissions record.

The model is written file by file in the source's own form:

- Code that loops over mutable state is a Dafny `method` with loop invariants, proved
  against a specification function.
- Objects whose fields change are classes: the filing cache, the vector store and the
  BM25 index, with an insertion-ordered map (`OrderedMap`) under each.
- Pure helpers are functions with lemmas about them.

Tokens, DOM nodes and regular-expression matches are modelled abstractly:

- a token is an `int`;
- an HTML document is its elements in document order (tag, depth, attributes, text);
- a regex is an explicit predicate or function over strings.

Modules, one per file:

| module | models |
|---|---|
| `Wrappers` | `None`/raised errors as `Option`/`Result`/`HttpError` |
| `Text` | the Python string built-ins the code uses (`lower`, `strip`, `split`, `join`, `zfill`, `str(int)`, …) over ASCII |
| `Config` | the tuning constants of `config.py` |
| `Chat` | citation parsing, filtering and renumbering; context before a citation; best element and preview; request validation (`routes/chat.py`) |
| `Chunker` | token windows, the element text map, element-index ranking, chunk metadata (`services/rag/chunker.py`) |
| `OrderedMaps` | Python's insertion-ordered dict with `move_to_end` and pop-oldest |
| `FilingCache` | the LRU filing cache (`services/filing_cache.py`) |
| `KeywordIndex` | BM25 tokenisation, query expansion, ingest statistics, scoring shape, eviction (`services/rag/keyword_index.py`) |
| `VectorStore` | ingest with eviction across the three stores, retrieval and fusion shape, normalisation (`services/rag/vector_store.py`) |
| `GridFill` | the two `handle_merged_cells` grid fills |
| `TableFormatter` | table type, column periods, value cleaning, prose and markdown rendering (`services/rag/table_formatter.py`) |
| `TableDetection` | the data-table heuristic (`utils/table_detection.py`) |
| `CsvGenerator` | column collapse, the data-table heuristic, table extraction (`services/csv_generator.py`) |
| `SanitizeHtml` | tag removal, attribute stripping, SEC container unhiding, table and element numbering (`utils/sanitize_html.py`) |
| `ExhibitFetcher` | CIK/accession parsing, exhibit names, descriptions, filtering and sorting (`services/exhibit_fetcher.py`) |
| `Company` | CIK padding, filing URLs, the form whitelist, CIK validation (`routes/company.py`) |
| `LlmClient` | the prompt messages of `answer_question` (`services/llm/client.py`) |

## Model

| member | source | states |
|---|---|---|
| Chat.MarkerLen | backend/app/routes/chat.py:107 | a `[digits]` marker starts the string exactly when the result is positive, and then it ends at that position; 0 means no marker starts there |
| Chat.Scan | backend/app/routes/chat.py:107-108 | the answer splits into literal characters and `[digits]` markers, every marker holding a non-empty digit string |
| Chat.FlattenScan | backend/app/routes/chat.py:107-129 | writing the scanned pieces back gives the answer unchanged: the scan loses and invents nothing |
| Chat.Numbers | backend/app/routes/chat.py:108 | the numbers `int(m)` of the markers, at most one per piece |
| Chat.SortedSet | backend/app/routes/chat.py:108 | `sorted(set(xs))` is strictly increasing and holds exactly the values of `xs` |
| Chat.Cited | backend/app/routes/chat.py:107-108 | the cited numbers are strictly increasing and are exactly the numbers of the answer's markers |
| Chat.CitedEmpty | backend/app/routes/chat.py:108-111 | there is no cited number exactly when the answer has no marker |
| Chat.IndexMap | backend/app/routes/chat.py:114 | the map's keys are exactly the cited numbers, and the k-th cited number maps to k+1 |
| Chat.IndexMapOrder | backend/app/routes/chat.py:114 | every new number lies in 1..n and maps back to its old number, and old a < old b iff new a < new b |
| Chat.NewDigits | backend/app/routes/chat.py:124-127 | a replaced marker still holds a non-empty digit string |
| Chat.RenumberPiece | backend/app/routes/chat.py:124-127 | literal text is never changed, and a marker stays a well-formed marker |
| Chat.Renumber | backend/app/routes/chat.py:129 | renumbering keeps the piece count and keeps every marker well-formed |
| Chat.CitedChunks | backend/app/routes/chat.py:116-121 | at most one chunk per cited number; when every number is in 1..len(top_chunks), entry i is `top_chunks[cited[i]-1]` |
| Chat.CitedChunksSnoc | backend/app/routes/chat.py:118-121 | each cited number adds `top_chunks[k-1]` when 1 ≤ k ≤ len(top_chunks), and nothing otherwise |
| Chat.ExtractAndFilterCitations | backend/app/routes/chat.py:100-131 | without markers the answer comes back unchanged with no chunks; otherwise the text is renumbered through the map of the ascending distinct numbers, and the chunks are the cited ones in that order |
| Chat.FilterCited | backend/app/routes/chat.py:117-121 | the filtering loop yields exactly the cited chunks |
| Chat.MarkerRenumbered | backend/app/routes/chat.py:114-129 | every marker of the answer becomes the marker of its new dense number |
| Chat.RescanRenumbered | backend/app/routes/chat.py:124-129 | scanning the renumbered text gives the renumbered pieces, so all text outside the markers is preserved in place |
| Chat.CitationMarker | backend/app/routes/chat.py:136 | `[n]` starts with `[`, ends with `]` and has at least three characters |
| Chat.LongestGroup | backend/app/routes/chat.py:136 | the greedy `.{0,100}` group: the longest newline-free run before the marker at that start, or none |
| Chat.SearchFrom | backend/app/routes/chat.py:136-137 | `re.search`: the leftmost start with a match, and the longest group there; none when no start matches |
| Chat.NoMatchNoMarker | backend/app/routes/chat.py:136-140 | no match means the marker does not occur in the answer |
| Chat.StripNoNewline | backend/app/routes/chat.py:139 | stripping newline-free text leaves it newline-free |
| Chat.ContextBefore | backend/app/routes/chat.py:134-140 | "" when `[n]` is absent; otherwise at most 100 newline-free characters, the stripped group of a match of the pattern |
| Chat.Overlaps | backend/app/routes/chat.py:168-170 | one overlap count per element of the map |
| Chat.OverlapsAt | backend/app/routes/chat.py:168-170 | entry i is the number of element i's words, minus stopwords, that are search words |
| Chat.PickBestElementIndex | backend/app/routes/chat.py:143-180 | the fallback `metadata.element_index` (default 0) when no element reaches MIN_WORD_OVERLAP; otherwise the index of the first element with the largest overlap, which reaches it |
| Chat.BestOverlap | backend/app/routes/chat.py:164-180 | the scan over the map keeps the first maximal overlap at or above MIN_WORD_OVERLAP, else the fallback |
| Chat.WindowStarts | backend/app/routes/chat.py:206-207 | window k exists iff 50·k < max(1, len(chunk) − preview_length) |
| Chat.WindowScoresAt | backend/app/routes/chat.py:207-210 | score k is the overlap of the context words with the words of the window starting at 50·k |
| Chat.BestWindowStart | backend/app/routes/chat.py:201-213 | the chosen start is 50·b for the first window b of maximal score, with that score |
| Chat.PickBestPreview | backend/app/routes/chat.py:183-226 | the stripped head (with "..." iff the chunk is longer) without context or for a short chunk; the head with "..." when no window reaches MIN_WORD_OVERLAP; otherwise the best window, "..." before iff it starts after 0 and after iff text follows |
| Chat.ValidateRequest | backend/app/routes/chat.py:234-300 | the four 400 errors in the code's order; success iff the list is non-empty, the filing id is non-empty, and the last message is from "user" with non-blank content; the history is the last MAX_CONVERSATION_HISTORY messages before the last |
| Chunker.Window | backend/app/services/rag/chunker.py:169-174 | a window is the slice of the tokens at `start`, of length min(max_tokens, tokens left, CHUNK_HARD_MAX_TOKENS) |
| Chunker.ChunkTokens | backend/app/services/rag/chunker.py:165-180 | no tokens give no chunks; otherwise the loop yields the windows starting at 0, stride, 2·stride, … below the length, with stride = max_tokens − overlap |
| Chunker.ChunkStart | backend/app/services/rag/chunker.py:166-178 | chunk i exists iff i·stride < len(tokens), and then it is the window at i·stride |
| Chunker.ChunksAt | backend/app/services/rag/chunker.py:168-178 | chunk i of the windows from `start` is the window at start + i·stride |
| Chunker.ChunksLength | backend/app/services/rag/chunker.py:168 | there are exactly as many chunks as stride multiples below the length |
| Chunker.ChunkCount | backend/app/services/rag/chunker.py:168-178 | for non-empty tokens the count n is at least 1, and (n−1)·stride < len ≤ n·stride |
| Chunker.ChunkCountCeiling | backend/app/services/rag/chunker.py:168-178 | the chunk count is ⌈len/stride⌉ |
| Chunker.ChunkTokensCover | backend/app/services/rag/chunker.py:168-178 | when max_tokens ≤ CHUNK_HARD_MAX_TOKENS, every token lies at its place in some chunk |
| Chunker.ChunksCover | backend/app/services/rag/chunker.py:168-178 | the same covering, for the windows from any start |
| Chunker.ChunksOverlap | backend/app/services/rag/chunker.py:168-178 | consecutive chunks share the tokens after the stride; a full chunk shares exactly `overlap` tokens with the next |
| Chunker.ElementTextMap | backend/app/services/rag/chunker.py:62-72 | the loop keeps, in document order, one entry per indexed tag with non-empty text |
| Chunker.ElementsOfFacts | backend/app/services/rag/chunker.py:63-72 | every entry has non-empty text and comes from an indexed tag, and every indexed tag with text has its entry |
| Chunker.Score | backend/app/services/rag/chunker.py:150 | overlap / max(word count, 1) lies in [0, 1] when the overlap is at most the word count |
| Chunker.CollectMatches | backend/app/services/rag/chunker.py:140-151 | the scoring loop collects the matches of the elements that share at least MIN_WORD_OVERLAP words, in map order |
| Chunker.MatchesFrom | backend/app/services/rag/chunker.py:141-151 | every match carries the index of an element sharing at least MIN_WORD_OVERLAP words with the chunk |
| Chunker.MatchesEmpty | backend/app/services/rag/chunker.py:146-147 | no match exactly when no element shares MIN_WORD_OVERLAP words |
| Chunker.SortDescFacts | backend/app/services/rag/chunker.py:154 | the sort is by non-increasing score, a permutation, and stable: the matches of each score keep their order |
| Chunker.InsertDescSorted | backend/app/services/rag/chunker.py:154 | inserting into a list sorted by descending score keeps it sorted |
| Chunker.InsertDescPerm | backend/app/services/rag/chunker.py:154 | insertion adds exactly the one match |
| Chunker.InsertDescStable | backend/app/services/rag/chunker.py:154 | the inserted match goes after every match of equal score |
| Chunker.Indices | backend/app/services/rag/chunker.py:155 | entry i is the index of match i |
| Chunker.Take | backend/app/services/rag/chunker.py:155 | `matches[:n]` is the first min(n, len) matches |
| Chunker.ElementIndicesFor | backend/app/services/rag/chunker.py:134-157 | one to fifteen indices |
| Chunker.FindElementIndicesForChunk | backend/app/services/rag/chunker.py:129-157 | the method returns the ranked indices of the specification |
| Chunker.ElementIndicesForFacts | backend/app/services/rag/chunker.py:134-157 | `[0]` when the map is empty or nothing matches; otherwise at most 15 indices of matching elements, the first of the stably sorted matches, by non-increasing score |
| Chunker.ChunkRecords | backend/app/services/rag/chunker.py:106-124 | chunk i gets id "chunk-i", position i, its text, the table flag, its ranked indices and the first of them as `element_index` |
| Chunker.ChunkIdsDistinct | backend/app/services/rag/chunker.py:115 | two chunks with the same id have the same position |
| OrderedMaps.Without | backend/app/services/filing_cache.py:39-68 | removing a key keeps exactly the other keys, in order, and changes nothing when the key is absent |
| OrderedMaps.WithoutDistinct | backend/app/services/filing_cache.py:39-68 | removal keeps the keys distinct and shortens them by one exactly when the key was present |
| OrderedMaps.WithoutConcat | backend/app/services/filing_cache.py:47 | removal distributes over concatenation |
| OrderedMaps.WithoutSnoc | backend/app/services/filing_cache.py:47 | removing the key just appended undoes the append |
| OrderedMaps.WithoutFirst | backend/app/services/filing_cache.py:38-39 | removing the first of distinct keys leaves the tail |
| OrderedMaps.OrderedMap.Delete | backend/app/services/filing_cache.py:39-68 | `del d[k]` drops the key from the order and from the mapping, and keeps the map well formed |
| OrderedMaps.OrderedMap.Set | backend/app/services/filing_cache.py:42-46 | `d[k] = v` updates in place when the key exists and appends it otherwise |
| OrderedMaps.OrderedMap.MoveToEnd | backend/app/services/filing_cache.py:47-53 | `move_to_end` makes the key the most recent and leaves the mapping alone |
| OrderedMaps.OrderedMap.Insert | backend/app/services/filing_cache.py:37-47 | the evict-then-store pattern keeps the size within the capacity, drops the oldest entry only at capacity and sets the key |
| OrderedMaps.Empty | backend/app/services/filing_cache.py:22 | the empty ordered map is well formed |
| OrderedMaps.InsertOrderFacts | backend/app/services/filing_cache.py:37-47 | after a store the keys stay distinct and within capacity, the new key is last, and a key survives iff it is the new key or was present and not evicted |
| OrderedMaps.InsertPresentAtCapacity | backend/app/services/filing_cache.py:37-47 | storing an already present key into a full cache still evicts the oldest entry, leaving one entry fewer than the capacity |
| OrderedMaps.InsertAfterDelete | backend/app/services/filing_cache.py:37-47 | evicting the oldest entry and then storing gives the same map as storing into the full map |
| FilingCache.FilingCache.constructor | backend/app/services/filing_cache.py:20-23 | a new cache is empty, with the given capacity |
| FilingCache.FilingCache.HasFiling | backend/app/services/filing_cache.py:61-63 | true exactly for the cached ids |
| FilingCache.FilingCache.GetSourceUrl | backend/app/services/filing_cache.py:56-59 | the stored url of a cached id, None otherwise, without touching the order |
| FilingCache.FilingCache.Store | backend/app/services/filing_cache.py:25-47 | the cache stays within capacity, evicts the least recently used entry only when full, holds the new entry and makes it the most recent |
| FilingCache.FilingCache.GetHtml | backend/app/services/filing_cache.py:49-54 | the html of a cached id, which becomes the most recent; None and no change otherwise |
| FilingCache.FilingCache.Evict | backend/app/services/filing_cache.py:65-68 | drops the id if present and nothing else |
| KeywordIndex.ClassRun | backend/app/services/rag/keyword_index.py:34 | the greedy `[\w\$\.,]+` stops at the first character outside the class |
| KeywordIndex.BacktrackEnd | backend/app/services/rag/keyword_index.py:34 | the match backs off to the last word boundary after its start, or fails |
| KeywordIndex.TokenSpans | backend/app/services/rag/keyword_index.py:34 | every reported span is a run of class characters bounded by `\b` on both sides, spans come in text order and do not overlap |
| KeywordIndex.Substrings | backend/app/services/rag/keyword_index.py:34 | the tokens are the texts of the spans |
| KeywordIndex.Clean | backend/app/services/rag/keyword_index.py:39 | the clean form holds no `$` and no comma |
| KeywordIndex.CleanChanges | backend/app/services/rag/keyword_index.py:39-43 | cleaning changes a token iff it holds a `$` or a comma |
| KeywordIndex.NormalizeTokens | backend/app/services/rag/keyword_index.py:36-45 | the loop builds each token's clean form followed by the original when they differ |
| KeywordIndex.NormalizedFacts | backend/app/services/rag/keyword_index.py:36-45 | n tokens give n terms plus one per token with `$` or a comma; every term is clean or an original that had one |
| KeywordIndex.Tokenize | backend/app/services/rag/keyword_index.py:27-45 | `_tokenize` yields the normalised tokens of the lower-cased text |
| KeywordIndex.MonthAt | backend/app/services/rag/keyword_index.py:63 | a month alternative that matches is one of the twelve names, at that position |
| KeywordIndex.YearAt | backend/app/services/rag/keyword_index.py:63-77 | `\s+(\d{4})\b` captures exactly four digits |
| KeywordIndex.MonthMatchAt | backend/app/services/rag/keyword_index.py:63 | a `month yyyy` match has a known month and a four-digit year |
| KeywordIndex.QuarterMatchAt | backend/app/services/rag/keyword_index.py:77 | a `qN yyyy` match has a quarter 1-4 and a four-digit year |
| KeywordIndex.MonthMatchesFacts | backend/app/services/rag/keyword_index.py:64-67 | every month match is a key of the month table, so the lookup never fails |
| KeywordIndex.QuarterMatchesFacts | backend/app/services/rag/keyword_index.py:78-86 | every quarter match is a key of the quarter table |
| KeywordIndex.MonthVariations | backend/app/services/rag/keyword_index.py:69-73 | three date formats per month match |
| KeywordIndex.QuarterVariation | backend/app/services/rag/keyword_index.py:87 | each quarter match appends a space-led text |
| KeywordIndex.MonthText | backend/app/services/rag/keyword_index.py:74 | each month match appends a space-led text |
| KeywordIndex.QuarterVariationShape | backend/app/services/rag/keyword_index.py:80-87 | a quarter expands to its month name, year and quarter-end date |
| KeywordIndex.WithMonthsExtends | backend/app/services/rag/keyword_index.py:66-74 | appending month texts keeps the query in front and adds at least one character per match |
| KeywordIndex.WithQuartersExtends | backend/app/services/rag/keyword_index.py:85-87 | the same for the quarter texts |
| KeywordIndex.ExpandedFacts | backend/app/services/rag/keyword_index.py:52-89 | the expansion starts with the query and equals it iff neither pattern matches |
| KeywordIndex.ExpandQuery | backend/app/services/rag/keyword_index.py:47-89 | the two loops build the query, then the month texts, then the quarter texts |
| KeywordIndex.BumpAllCount | backend/app/services/rag/keyword_index.py:114-115 | `doc_freqs[term] += 1` over a list adds each term's multiplicity |
| KeywordIndex.TermFreqsCount | backend/app/services/rag/keyword_index.py:110 | `Counter(tokens)` holds exactly the tokens, each with its count |
| KeywordIndex.Distinct | backend/app/services/rag/keyword_index.py:114 | `tf.keys()` is the tokens without repeats |
| KeywordIndex.DistinctOnce | backend/app/services/rag/keyword_index.py:114 | each term is counted once per document |
| KeywordIndex.DocCount | backend/app/services/rag/keyword_index.py:99-115 | a document frequency never exceeds the number of documents |
| KeywordIndex.TokenizedDocs | backend/app/services/rag/keyword_index.py:104-106 | one token list per chunk |
| KeywordIndex.TermFreqsOf | backend/app/services/rag/keyword_index.py:110-111 | one counter per document |
| KeywordIndex.DocLengths | backend/app/services/rag/keyword_index.py:107 | one length per document |
| KeywordIndex.TokenizedDocsAt | backend/app/services/rag/keyword_index.py:105-106 | entry i holds the tokens of chunk i |
| KeywordIndex.TermFreqsAt | backend/app/services/rag/keyword_index.py:110-111 | entry i counts document i |
| KeywordIndex.DocLengthsAt | backend/app/services/rag/keyword_index.py:107 | entry i is the length of document i |
| KeywordIndex.DocFreqsCount | backend/app/services/rag/keyword_index.py:99-115 | `doc_freqs[t]` is the number of documents containing t, present iff positive |
| KeywordIndex.DocCountPositive | backend/app/services/rag/keyword_index.py:114-115 | a term of some document has a positive document frequency |
| KeywordIndex.IndexStats | backend/app/services/rag/keyword_index.py:98-128 | the stored statistics: one length and one counter per chunk, and each document frequency between 1 and the number of documents |
| KeywordIndex.CountTerms | backend/app/services/rag/keyword_index.py:114-115 | the counting loop adds each listed term once |
| KeywordIndex.BuildIndex | backend/app/services/rag/keyword_index.py:98-128 | the ingestion loop builds the statistics of the specification |
| KeywordIndex.ScorableIndex | backend/app/services/rag/keyword_index.py:117-154 | a document with terms sees a positive average length, so the division at line 154 is defined |
| KeywordIndex.PositiveAverage | backend/app/services/rag/keyword_index.py:117 | a positive total length gives a positive average |
| KeywordIndex.SumAtLeast | backend/app/services/rag/keyword_index.py:117 | the total is at least each length |
| KeywordIndex.LengthNorm | backend/app/services/rag/keyword_index.py:154 | the length normalisation term is non-negative, so the denominator is positive |
| KeywordIndex.DocScoreNoTerm | backend/app/services/rag/keyword_index.py:142-158 | a document containing none of the query terms scores 0 |
| KeywordIndex.ScoreDocs | backend/app/services/rag/keyword_index.py:179-184 | one score per document, in chunk order, each the BM25 sum |
| KeywordIndex.IndexScorable | backend/app/services/rag/keyword_index.py:117-154 | every ingested index can be scored without dividing by zero |
| KeywordIndex.Bm25Score | backend/app/services/rag/keyword_index.py:132-158 | the loop sums the term scores of the query terms present in the document, repeats included |
| KeywordIndex.Bm25Index.constructor | backend/app/services/rag/keyword_index.py:21-25 | an empty index with the given capacity and parameters |
| KeywordIndex.Bm25Index.Ingest | backend/app/services/rag/keyword_index.py:91-129 | evict the oldest filing at capacity, then store the filing's statistics as the most recent |
| KeywordIndex.Bm25Index.ScoresFacts | backend/app/services/rag/keyword_index.py:160-184 | `[]` for an unknown filing; otherwise one score per chunk (so `[]` too for a filing without chunks), all zero without query terms, zero for a chunk with none of them |
| KeywordIndex.Bm25Index.ScoreAll | backend/app/services/rag/keyword_index.py:160-184 | `score_all` returns the scores of the specification |
| KeywordIndex.Bm25Index.HasFiling | backend/app/services/rag/keyword_index.py:186-187 | true exactly for the indexed filings |
| KeywordIndex.Bm25Index.Evict | backend/app/services/rag/keyword_index.py:189-193 | drops the filing if present and nothing else |
| VectorStore.SemanticScores | backend/app/services/rag/vector_store.py:71-72 | `np.dot(vectors, query)`: one score per chunk vector |
| VectorStore.MinOf | backend/app/services/rag/vector_store.py:13 | the minimum is a score and at most every score |
| VectorStore.MaxOf | backend/app/services/rag/vector_store.py:14 | the maximum is a score and at least every score |
| VectorStore.RescaleBounds | backend/app/services/rag/vector_store.py:15-16 | a score between min and max rescales into [0, 1): the epsilon keeps the top below 1 |
| VectorStore.RescaleMonotone | backend/app/services/rag/vector_store.py:15-16 | rescaling preserves the order of scores both ways |
| VectorStore.Normalize | backend/app/services/rag/vector_store.py:11-16 | one normalised score per score |
| VectorStore.NormalizeBounds | backend/app/services/rag/vector_store.py:11-16 | every normalised score lies in [0, 1) |
| VectorStore.NormalizeMonotone | backend/app/services/rag/vector_store.py:11-16 | normalisation keeps the ranking: s[i] ≤ s[j] iff n[i] ≤ n[j] |
| VectorStore.Combine | backend/app/services/rag/vector_store.py:100 | one fused score per chunk |
| VectorStore.Fused | backend/app/services/rag/vector_store.py:96-100 | normalise both arrays, then weight and add |
| VectorStore.CombineBounds | backend/app/services/rag/vector_store.py:100 | with non-negative weights, a fused score lies in [0, ws + wk) |
| VectorStore.SumBounds | backend/app/services/rag/vector_store.py:100 | the weighted parts add up below ws + wk |
| VectorStore.WeightedBounds | backend/app/services/rag/vector_store.py:100 | a weight times a score in [0, 1) stays within [0, w], below w when w > 0 |
| VectorStore.FusedBounds | backend/app/services/rag/vector_store.py:96-100 | every fused score lies in [0, ws + wk) |
| VectorStore.DefaultFusedBounds | backend/app/services/rag/vector_store.py:49-100 | with the default weights 0.6 and 0.4 every fused score lies in [0, 1) |
| VectorStore.TopCount | backend/app/services/rag/vector_store.py:76-103 | `[-top_k:]` keeps at most n indices |
| VectorStore.Scored | backend/app/services/rag/vector_store.py:76 | index i paired with score i |
| VectorStore.Ranking | backend/app/services/rag/vector_store.py:76-103 | the ranking keeps as many indices as the slice does |
| VectorStore.SortedScoredPairs | backend/app/services/rag/vector_store.py:76-103 | every sorted entry is a valid index with its own score |
| VectorStore.SortedScoredDistinct | backend/app/services/rag/vector_store.py:76-103 | no index appears twice |
| VectorStore.SortedScoredComplete | backend/app/services/rag/vector_store.py:76-103 | every index appears |
| VectorStore.ScoredOnce | backend/app/services/rag/vector_store.py:76 | each (index, score) pair occurs once before sorting |
| VectorStore.RankingFacts | backend/app/services/rag/vector_store.py:76-103 | min(top_k, n) results for top_k ≥ 1, all n for top_k = 0, distinct valid indices with their scores, best first |
| VectorStore.RankingTop | backend/app/services/rag/vector_store.py:76-103 | no index left out scores higher than one kept |
| VectorStore.SemanticHits | backend/app/services/rag/vector_store.py:76-80 | as many hits as the slice keeps |
| VectorStore.HybridHits | backend/app/services/rag/vector_store.py:103-113 | as many hits as the slice keeps |
| VectorStore.SemanticHitsFacts | backend/app/services/rag/vector_store.py:76-80 | hit j is the chunk ranked j with its semantic score and no component scores, best first |
| VectorStore.HybridHitsFacts | backend/app/services/rag/vector_store.py:103-113 | hit j is the chunk ranked j by fused score, carrying the fused, semantic and keyword scores of that chunk, best first |
| VectorStore.VectorStore.constructor | backend/app/services/rag/vector_store.py:20-22 | an empty store with the given capacity, sharing the cache and keyword index |
| VectorStore.VectorStore.Ingest | backend/app/services/rag/vector_store.py:24-41 | at capacity the oldest filing leaves the store, the filing cache and the keyword index; the new entry becomes the most recent in the store and the keyword index |
| VectorStore.VectorStore.EvictOldest | backend/app/services/rag/vector_store.py:26-31 | the oldest filing leaves all three stores |
| VectorStore.VectorStore.Add | backend/app/services/rag/vector_store.py:33-41 | the entry is stored as most recent and indexed for keyword search |
| VectorStore.VectorStore.Retrieve | backend/app/services/rag/vector_store.py:43-113 | `retrieve` returns the results of the specification |
| VectorStore.VectorStore.ResultsRanked | backend/app/services/rag/vector_store.py:63-113 | `[]` for an unknown filing; otherwise min(top_k, n) or all n hits, best first |
| VectorStore.VectorStore.ResultsForm | backend/app/services/rag/vector_store.py:75-113 | component scores appear exactly on the hybrid path: without query text or keyword scores every hit lacks them, otherwise every hit has both |
| VectorStore.VectorStore.HasFiling | backend/app/services/rag/vector_store.py:115-116 | true exactly for the stored filings |
| VectorStore.VectorStore.GetElementMap | backend/app/services/rag/vector_store.py:118-122 | `[]` for an unknown filing, its element map otherwise |
| GridFill.MaxWidthFacts | backend/app/services/rag/table_formatter.py:26-29 | `max_cols` is at least every row's colspan sum, 0 for no rows, and reached by some row |
| GridFill.MaxCols | backend/app/services/rag/table_formatter.py:26-29 | the loop computes the largest row width |
| GridFill.Skip | backend/app/services/rag/table_formatter.py:40-41 | the cursor stops at the first unfilled position at or after it, or runs off the row |
| GridFill.PutBlock | backend/app/services/rag/table_formatter.py:50-52 | writing a block keeps the grid's shape |
| GridFill.PutBlockAt | backend/app/services/rag/table_formatter.py:50-52 | exactly the positions of the clipped rowspan × colspan block change, to the cell text (or, in the export variant, the text at the top-left and "" elsewhere) |
| GridFill.FillRow | backend/app/services/rag/table_formatter.py:39-54 | placing a row's cells keeps the grid's shape |
| GridFill.FillRows | backend/app/services/rag/table_formatter.py:37-54 | placing all rows keeps the grid's shape |
| GridFill.Blank | backend/app/services/rag/table_formatter.py:35 | a row_count × max_cols grid of unfilled positions |
| GridFill.Finish | backend/app/services/rag/table_formatter.py:56 | replacing unfilled positions keeps the shape |
| GridFill.FillGrid | backend/app/services/rag/table_formatter.py:21-56 | the method builds the merged grid; it is empty iff there are no rows or max_cols is 0, and otherwise has one row of max_cols strings per table row |
| GridFill.FillRowCells | backend/app/services/rag/table_formatter.py:39-54 | the cell loop, with its `break` when the cursor runs off the row, places the cells as the specification does |
| GridFill.SkipFilled | backend/app/services/rag/table_formatter.py:40-41 | the `while` loop advances the cursor as `Skip` says |
| GridFill.FillBlock | backend/app/services/rag/table_formatter.py:50-52 | the two nested loops write the clipped block |
| GridFill.FillLine | backend/app/services/rag/table_formatter.py:51-52 | the inner loop writes the columns of the block in one row, and only those |
| GridFill.PutBlockWithin | backend/app/services/rag/table_formatter.py:50-52 | a block writes only its cell's text |
| GridFill.FillRowWithin | backend/app/services/rag/table_formatter.py:39-54 | a row writes only texts of its cells |
| GridFill.FillRowsWithin | backend/app/services/rag/table_formatter.py:37-54 | the grid holds only texts of the table's cells |
| GridFill.MergedFromCells | backend/app/services/rag/table_formatter.py:56 | every grid position is "" or the text of some cell: nothing is invented |
| GridFill.PutBlockAgree | backend/app/services/csv_generator.py:74-79 | the export's block writes the same positions as the formatter's, with "" or the same text |
| GridFill.SkipAgree | backend/app/services/csv_generator.py:62-63 | both variants skip to the same column |
| GridFill.FillRowAgree | backend/app/services/csv_generator.py:60-81 | both variants fill the same positions of a row |
| GridFill.FillRowStop | backend/app/services/rag/table_formatter.py:43-44 | when the cursor runs off the row, the remaining cells are dropped |
| GridFill.FillRowPlace | backend/app/services/rag/table_formatter.py:40-54 | otherwise the first cell goes at the cursor and the cursor moves on by its colspan |
| GridFill.FillRowsAgree | backend/app/services/csv_generator.py:58-81 | both variants fill the same positions of the grid |
| GridFill.VariantsAgree | backend/app/services/csv_generator.py:35-84 | the export grid has the formatter grid's shape, and each of its positions is "" or the formatter's text there |
| GridFill.HeaderCells | backend/app/services/rag/table_formatter.py:370 | the `th` cells of a row, none iff the row has no header cell |
| GridFill.CellTexts | backend/app/services/rag/table_formatter.py:373 | one text per cell |
| GridFill.FirstHeaderRow | backend/app/services/rag/table_formatter.py:369-374 | the first row holding a `th`, or none when no row does |
| GridFill.FindHeaderRow | backend/app/services/rag/table_formatter.py:366-374 | the loop with `break` finds the first header row and its non-empty header texts, or (0, []) |
| TableFormatter.HandleMergedCells | backend/app/services/rag/table_formatter.py:21-56 | the formatter's grid copies each cell into its whole block; it is empty iff there is nothing to fill, rectangular otherwise, and holds only cell texts |
| TableFormatter.NonEmpty | backend/app/services/rag/table_formatter.py:70 | the non-empty cells of a row |
| TableFormatter.NonEmptyKeeps | backend/app/services/rag/table_formatter.py:70 | every non-empty cell is kept |
| TableFormatter.DigitCommaRun | backend/app/services/rag/table_formatter.py:92 | `[\d,]*` stays within the text |
| TableFormatter.DetectTableType | backend/app/services/rag/table_formatter.py:59-108 | "general" for an empty grid; otherwise "financial" iff the combined lower-cased text has a keyword, a currency sign, a parenthesised number or a date pattern |
| TableFormatter.RowsTextContains | backend/app/services/rag/table_formatter.py:69-70 | each row's lower-cased text stands in the combined text |
| TableFormatter.KeywordInCell | backend/app/services/rag/table_formatter.py:69-84 | a financial keyword in any cell makes the table financial |
| TableFormatter.KeywordInHeader | backend/app/services/rag/table_formatter.py:68-84 | a financial keyword in any header makes a non-empty table financial |
| TableFormatter.DropSpaceAfterDollar | backend/app/services/rag/table_formatter.py:209 | `re.sub(r'\$\s+', '$', …)` leaves no whitespace after a `$`, keeps the first character, and changes nothing when there is none |
| TableFormatter.DropKeepsSpacing | backend/app/services/rag/table_formatter.py:206-209 | the substitution keeps the single spacing |
| TableFormatter.CleanValue | backend/app/services/rag/table_formatter.py:200-201 | "" stays "" |
| TableFormatter.CleanValueFacts | backend/app/services/rag/table_formatter.py:198-213 | a cleaned value is single-spaced, has no trailing space and no space after `$`, and cleaning it again changes nothing |
| TableFormatter.ExtractColumnPeriods | backend/app/services/rag/table_formatter.py:111-195 | the two loops build the period of every combined header |
| TableFormatter.FoldRow | backend/app/services/rag/table_formatter.py:123-128 | one sub-header row appends its non-empty cells to the headers or as new ones |
| TableFormatter.AddCellsShape | backend/app/services/rag/table_formatter.py:123-128 | headers are never removed, and appended ones are non-empty |
| TableFormatter.AddCellsColumn | backend/app/services/rag/table_formatter.py:124-126 | an existing column gets " " + cell appended exactly when the row has a non-empty cell there |
| TableFormatter.AddRowsShape | backend/app/services/rag/table_formatter.py:121-128 | the same over the first rows |
| TableFormatter.AddRowsColumn | backend/app/services/rag/table_formatter.py:121-128 | a column's combined header is the header followed by the column's non-empty sub-header cells |
| TableFormatter.PeriodsFacts | backend/app/services/rag/table_formatter.py:117-195 | at least one combined header per header, each header extended by the first three rows' cells in its column, appended ones non-empty, one period each, and None for a blank header |
| TableFormatter.HeaderName | backend/app/services/rag/table_formatter.py:242 | the header when it is not blank, otherwise "Column i+1"; never "" |
| TableFormatter.Emits | backend/app/services/rag/table_formatter.py:267-273 | one candidate statement per value column |
| TableFormatter.RenderAll | backend/app/services/rag/table_formatter.py:273 | one line per statement |
| TableFormatter.FormatFinancialTable | backend/app/services/rag/table_formatter.py:216-277 | the method builds the prose of the specification |
| TableFormatter.GridStatementsStep | backend/app/services/rag/table_formatter.py:251-263 | a skipped row adds nothing; any other row adds its statements |
| TableFormatter.RowLines | backend/app/services/rag/table_formatter.py:267-273 | the inner loop renders the row's statements in column order |
| TableFormatter.RowStatementsStep | backend/app/services/rag/table_formatter.py:267-273 | each column adds its statement when there is one |
| TableFormatter.RenderSnoc | backend/app/services/rag/table_formatter.py:273 | appending a statement appends its line |
| TableFormatter.RenderAllConcat | backend/app/services/rag/table_formatter.py:273 | rendering distributes over concatenation |
| TableFormatter.PeriodColumnsIn | backend/app/services/rag/table_formatter.py:238 | the value columns are exactly the indices with a non-empty period, in increasing order |
| TableFormatter.ValueColumnsOrdered | backend/app/services/rag/table_formatter.py:238-246 | value columns increase, have non-empty periods, and in the fallbacks are the columns from 1 on |
| TableFormatter.ValueColumnsFallback | backend/app/services/rag/table_formatter.py:240-246 | without periods, the headers after the first name the columns; with at most one header, "Column i+1" for every grid column after the first, none iff the first row has at most one cell |
| TableFormatter.RowStatementsIn | backend/app/services/rag/table_formatter.py:267-273 | a row's statements are exactly those its value columns emit |
| TableFormatter.GridStatementsIn | backend/app/services/rag/table_formatter.py:251-273 | the table's statements are exactly those of its rows that are not skipped |
| TableFormatter.StatementFacts | backend/app/services/rag/table_formatter.py:251-273 | every statement has a stripped non-empty label, a non-empty period, and a cleaned value from its row that is non-empty, differs from the label and does not start with "\|" |
| TableFormatter.EmitFacts | backend/app/services/rag/table_formatter.py:268-273 | an emitted statement carries the row label, the column's period and the cleaned cell value |
| TableFormatter.StatementStated | backend/app/services/rag/table_formatter.py:251-273 | conversely, every value that passes the filter is stated |
| TableFormatter.ProseFacts | backend/app/services/rag/table_formatter.py:230-277 | the lines are the title lines followed by one line per statement; a titled table starts with "[title]" and an untitled one without statements is "" |
| TableFormatter.RenderAllAt | backend/app/services/rag/table_formatter.py:273 | line k renders statement k |
| TableFormatter.Widen | backend/app/services/rag/table_formatter.py:287-289 | one width per header |
| TableFormatter.Widths | backend/app/services/rag/table_formatter.py:285-289 | one width per header |
| TableFormatter.WidthsFacts | backend/app/services/rag/table_formatter.py:285-289 | each width is at least its header and every cell in its column, and equals one of them |
| TableFormatter.ColumnWidths | backend/app/services/rag/table_formatter.py:285-289 | the loops compute the widths of the specification |
| TableFormatter.PaddedCells | backend/app/services/rag/table_formatter.py:291-294 | `zip` stops at the shorter of cells and widths |
| TableFormatter.Dashes | backend/app/services/rag/table_formatter.py:292 | one dash run per column |
| TableFormatter.FormatAsMarkdown | backend/app/services/rag/table_formatter.py:280-298 | the method renders the markdown of the specification |
| TableFormatter.TotalLengthOfWidths | backend/app/services/rag/table_formatter.py:291-294 | padded cells add up to the widths plus the padding |
| TableFormatter.RowAligned | backend/app/services/rag/table_formatter.py:291-294 | a row with a cell for every column is exactly as long as the separator |
| TableFormatter.MarkdownFacts | backend/app/services/rag/table_formatter.py:280-298 | header, separator and one line per row; the header line and every full row are as wide as the separator, which is built from the column widths |
| TableFormatter.TitledMarkdownStarts | backend/app/services/rag/table_formatter.py:412-413 | a titled markdown table starts with "[title]" |
| TableFormatter.FormatTableForLlm | backend/app/services/rag/table_formatter.py:349-415 | the method computes the result of the specification |
| TableFormatter.RenderTable | backend/app/services/rag/table_formatter.py:395-415 | the method renders the grid as the specification does |
| TableFormatter.RenderGridTitled | backend/app/services/rag/table_formatter.py:399-415 | a titled table's text starts with "[title]" on either path |
| TableFormatter.TableForLlmTitled | backend/app/services/rag/table_formatter.py:358-415 | "" without data rows or columns; any non-empty result of a titled table starts with "[title]" |
| TableFormatter.GeneralTableIsMarkdown | backend/app/services/rag/table_formatter.py:395-415 | a general table is rendered as titled markdown |
| TableFormatter.TitleOnlyProse | backend/app/services/rag/table_formatter.py:230-275 | a titled financial table without statements gives just the title lines, which are not blank |
| TableFormatter.ProseNotBlank | backend/app/services/rag/table_formatter.py:230-277 | prose with statements is never blank |
| TableDetection.NumberCount | backend/app/utils/table_detection.py:23 | the number of maximal digit runs: at most the length, and 0 iff the text has no digit |
| TableDetection.IsDataTable | backend/app/utils/table_detection.py:8-25 | false below 2 rows, 6 cells or 50 characters; otherwise true with a currency sign, a comma-grouped number or a percentage, and else iff there are at least 8 numbers; a data table always has a digit or a currency sign |
| CsvGenerator.HandleMergedCells | backend/app/services/csv_generator.py:35-84 | the export grid puts each cell's text only at the top-left of its block; same shape as the formatter's grid, each position "" or the formatter's text |
| CsvGenerator.Flags | backend/app/services/csv_generator.py:101-113 | one content flag per header |
| CsvGenerator.TrueIndices | backend/app/services/csv_generator.py:112-113 | the kept columns are below the header count |
| CsvGenerator.TrueIndicesIn | backend/app/services/csv_generator.py:100-113 | a column is kept iff it has content; kept columns increase; all are kept iff every one has content |
| CsvGenerator.ContentColumns | backend/app/services/csv_generator.py:97-113 | at most one entry per header, each a header index |
| CsvGenerator.ContentColumnsIn | backend/app/services/csv_generator.py:100-113 | a column is kept iff its header or some row's cell in it is not blank, in increasing order |
| CsvGenerator.Project | backend/app/services/csv_generator.py:122 | a projected row has one cell per kept column |
| CsvGenerator.CollapseEmptyColumns | backend/app/services/csv_generator.py:87-126 | the method returns the collapse of the specification |
| CsvGenerator.NonEmptyColumns | backend/app/services/csv_generator.py:100-113 | the loop collects the columns with content |
| CsvGenerator.ColumnHasCell | backend/app/services/csv_generator.py:106-110 | the row loop with `break` finds a non-blank cell in the column iff one exists |
| CsvGenerator.CollapseUnchanged | backend/app/services/csv_generator.py:94-117 | no headers, all columns with content, or none, leave the table unchanged |
| CsvGenerator.CollapseKept | backend/app/services/csv_generator.py:119-126 | otherwise the kept headers and each row's cells at the kept columns remain, and every dropped column is blank throughout |
| CsvGenerator.CollapsedHasContent | backend/app/services/csv_generator.py:119-126 | every column left after a collapse has content |
| CsvGenerator.CollapseIdempotent | backend/app/services/csv_generator.py:87-126 | collapsing twice is collapsing once |
| CsvGenerator.LostCellColumns | backend/app/services/csv_generator.py:101-113 | only header columns are examined, so a cell beyond the headers never keeps its column |
| CsvGenerator.GenericHeaders | backend/app/services/csv_generator.py:206 | "Column 1" … "Column n" |
| CsvGenerator.NonBlankRowsIn | backend/app/services/csv_generator.py:222 | a row survives iff it has a non-blank cell |
| CsvGenerator.ExtractTableAtIndex | backend/app/services/csv_generator.py:153-227 | the method returns the table of the specification |
| CsvGenerator.ExtractTableFacts | backend/app/services/csv_generator.py:170-227 | None iff the index is out of range or the table is not a data table; any table returned has headers |
| CsvGenerator.ExtractTableRows | backend/app/services/csv_generator.py:209-227 | headers only when there is no data row; otherwise the collapse of the non-blank rows of the export grid |
| SanitizeHtml.ScanEnd | backend/app/utils/sanitize_html.py:72 | the first entry from k on that is not deeper than d |
| SanitizeHtml.SubtreeEnd | backend/app/utils/sanitize_html.py:72 | an element's subtree is the run of deeper entries right after it |
| SanitizeHtml.InnerSubtree | backend/app/utils/sanitize_html.py:72 | a subtree inside a subtree ends within it |
| SanitizeHtml.Decompose | backend/app/utils/sanitize_html.py:71-84 | one removal loop keeps the entries of the specification |
| SanitizeHtml.SkipCovered | backend/app/utils/sanitize_html.py:71-84 | entries inside a removed subtree are dropped |
| SanitizeHtml.PruneUncovered | backend/app/utils/sanitize_html.py:71-84 | the loop's result is the entries no matching element covers |
| SanitizeHtml.Pruned | backend/app/utils/sanitize_html.py:71-84 | `decompose` over all matches removes exactly the matching elements with their subtrees |
| SanitizeHtml.UncoveredKept | backend/app/utils/sanitize_html.py:71-84 | every kept entry comes from the input and does not match |
| SanitizeHtml.NothingCovered | backend/app/utils/sanitize_html.py:71-84 | with no matching element nothing is removed |
| SanitizeHtml.CleanAttrs | backend/app/utils/sanitize_html.py:95-106 | no event handler stays, no `href`/`src`/`style` naming `javascript:` stays, and every other attribute keeps its value |
| SanitizeHtml.CleanAttributes | backend/app/utils/sanitize_html.py:96-106 | the two loops delete what the specification deletes |
| SanitizeHtml.StripAttributes | backend/app/utils/sanitize_html.py:95-106 | every element's attributes are cleaned, in place |
| SanitizeHtml.DeclarationEnd | backend/app/utils/sanitize_html.py:26-29 | a `word\s*:\s*value\s*;?` match ends after both words |
| SanitizeHtml.RemoveDeclarations | backend/app/utils/sanitize_html.py:26-29 | removing matches never lengthens the style |
| SanitizeHtml.NoDeclaration | backend/app/utils/sanitize_html.py:26-29 | without a match the style is unchanged |
| SanitizeHtml.SqueezeSemicolons | backend/app/utils/sanitize_html.py:32 | `;+` → `;` leaves no two semicolons in a row, keeps the first character, and never lengthens |
| SanitizeHtml.SqueezeKeepsText | backend/app/utils/sanitize_html.py:32 | only semicolons are removed |
| SanitizeHtml.SqueezeNothing | backend/app/utils/sanitize_html.py:32 | a style without doubled semicolons is unchanged |
| SanitizeHtml.NoDoubleSlice | backend/app/utils/sanitize_html.py:35 | slices keep the property |
| SanitizeHtml.NoDoubleStrip | backend/app/utils/sanitize_html.py:35 | `strip()` keeps it |
| SanitizeHtml.NoDoubleStripChar | backend/app/utils/sanitize_html.py:35 | `strip(';')` keeps it |
| SanitizeHtml.TrimStyleFacts | backend/app/utils/sanitize_html.py:35 | the trimmed style has no space at either end and is no longer |
| SanitizeHtml.CleanStyleFacts | backend/app/utils/sanitize_html.py:26-35 | a cleaned style has no doubled semicolon, no space at either end, and is no longer than before |
| SanitizeHtml.TrimLeavesSemicolon | backend/app/utils/sanitize_html.py:32-35 | as written, "a; ;" cleans to "a;": a trailing semicolon survives |
| SanitizeHtml.ExampleHasNoDeclaration | backend/app/utils/sanitize_html.py:26-29 | "a; ;" holds neither declaration |
| SanitizeHtml.ExampleTrim | backend/app/utils/sanitize_html.py:35 | the three strips turn "a; ;" into "a;" |
| SanitizeHtml.TrimAll | backend/app/utils/sanitize_html.py:34-35 | the intended trim leaves no space or semicolon at either end and keeps the squeeze |
| SanitizeHtml.NoDoubleTail | backend/app/utils/sanitize_html.py:35 | dropping the first character keeps the squeeze |
| SanitizeHtml.NoDoubleFront | backend/app/utils/sanitize_html.py:35 | dropping the last character keeps the squeeze |
| SanitizeHtml.TrimAllDropLast | backend/app/utils/sanitize_html.py:35 | a trailing space or semicolon does not change the intended trim |
| SanitizeHtml.TrimAllLStrip | backend/app/utils/sanitize_html.py:35 | nor does a leading `strip()` |
| SanitizeHtml.TrimAllRStrip | backend/app/utils/sanitize_html.py:35 | nor does a trailing one |
| SanitizeHtml.TrimAllStripChar | backend/app/utils/sanitize_html.py:35 | nor does `strip(';')` |
| SanitizeHtml.TrimStyleAgrees | backend/app/utils/sanitize_html.py:35 | whenever the code's trim leaves no semicolon at an end, it agrees with the intended one |
| SanitizeHtml.CleanStyleIntendedFacts | backend/app/utils/sanitize_html.py:31-35 | the intended style has no doubled semicolon and no space or semicolon at either end, agrees with the code when the code leaves none, and turns "a; ;" into "a" |
| SanitizeHtml.TrimAllExample | backend/app/utils/sanitize_html.py:35 | the intended trim turns "a; ;" into "a" |
| SanitizeHtml.WithStyle | backend/app/utils/sanitize_html.py:37-41 | an empty style deletes the attribute, any other replaces it; nothing else changes |
| SanitizeHtml.ContainerIdsDistinct | backend/app/utils/sanitize_html.py:15 | the six container ids are distinct, so no container is cleaned twice by the id loop |
| SanitizeHtml.UnhideContainers | backend/app/utils/sanitize_html.py:17-41 | each entry becomes its unhidden form, in place |
| SanitizeHtml.UnhideFacts | backend/app/utils/sanitize_html.py:17-41 | elements without a container id are untouched; a container's style is replaced by its cleaned form, or removed when that is empty |
| SanitizeHtml.CountTrue | backend/app/utils/sanitize_html.py:112-138 | a count of flags is at most their number |
| SanitizeHtml.RankStep | backend/app/utils/sanitize_html.py:112-126 | a flagged entry advances the counter by one |
| SanitizeHtml.RankMonotone | backend/app/utils/sanitize_html.py:112-126 | the counter never goes back |
| SanitizeHtml.RankOnto | backend/app/utils/sanitize_html.py:112-126 | every number below the count is given to some flagged entry |
| SanitizeHtml.Numbering | backend/app/utils/sanitize_html.py:112-126 | flagged entries get distinct, increasing numbers from 0 to the count minus one |
| SanitizeHtml.Label | backend/app/utils/sanitize_html.py:113-137 | setting an index attribute changes only that attribute |
| SanitizeHtml.LabelValue | backend/app/utils/sanitize_html.py:113-137 | the attribute reads back as the number written |
| SanitizeHtml.TableFlags | backend/app/utils/sanitize_html.py:112 | one flag per entry |
| SanitizeHtml.IndexTables | backend/app/utils/sanitize_html.py:112-113 | the loop labels every table with its index |
| SanitizeHtml.TablesNumbered | backend/app/utils/sanitize_html.py:112-113 | tables get 0, 1, … in document order, each number once; nothing else changes |
| SanitizeHtml.Texts | backend/app/utils/sanitize_html.py:123-135 | `get_text(strip=True)` keeps only non-empty pieces |
| SanitizeHtml.TextsEmpty | backend/app/utils/sanitize_html.py:123-135 | no pieces iff the range holds no visible text |
| SanitizeHtml.GetTextEmpty | backend/app/utils/sanitize_html.py:123-124 | an element's text is empty iff its subtree has no visible text |
| SanitizeHtml.SemanticFlags | backend/app/utils/sanitize_html.py:122-124 | one flag per entry |
| SanitizeHtml.BlockFlags | backend/app/utils/sanitize_html.py:130-136 | one flag per entry |
| SanitizeHtml.IndexSemantic | backend/app/utils/sanitize_html.py:116-126 | the first loop numbers the headings and bold elements with text, and returns how many it numbered |
| SanitizeHtml.BlockUntouched | backend/app/utils/sanitize_html.py:122-126 | the first loop does not touch text blocks |
| SanitizeHtml.IndexBlocks | backend/app/utils/sanitize_html.py:129-138 | the second loop continues the numbering over the unnumbered text blocks of at least 20 characters |
| SanitizeHtml.IndexElements | backend/app/utils/sanitize_html.py:115-138 | both loops together give the element numbering of the specification |
| SanitizeHtml.ElementIndexAt | backend/app/utils/sanitize_html.py:115-138 | a semantic element gets its rank, a block the semantic count plus its rank; others are unchanged |
| SanitizeHtml.ElementsNumbered | backend/app/utils/sanitize_html.py:115-138 | semantic elements get 0 … s−1 and blocks s … s+b−1, each group in document order, every number used once |
| SanitizeHtml.NumberedWhen | backend/app/utils/sanitize_html.py:122-137 | an entry is numbered iff it is a semantic element with text, or a text block without a previous index and with at least 20 characters of text |
| SanitizeHtml.Cleaned | backend/app/utils/sanitize_html.py:95-106 | the attribute stage keeps the entries |
| SanitizeHtml.Unhidden | backend/app/utils/sanitize_html.py:109 | the unhide stage keeps the entries |
| SanitizeHtml.TablesIndexed | backend/app/utils/sanitize_html.py:112-113 | the table stage keeps the entries |
| SanitizeHtml.ElementsIndexed | backend/app/utils/sanitize_html.py:115-138 | the element stage keeps the entries |
| SanitizeHtml.Decorated | backend/app/utils/sanitize_html.py:108-138 | stages 3 to 5 keep the entries |
| SanitizeHtml.Sanitize | backend/app/utils/sanitize_html.py:44-140 | the method runs the five stages as the specification does |
| SanitizeHtml.SameExceptTrans | backend/app/utils/sanitize_html.py:108-138 | edits to different attribute sets compose |
| SanitizeHtml.SameExceptAttr | backend/app/utils/sanitize_html.py:108-138 | an attribute outside the edited ones keeps its value |
| SanitizeHtml.LaterStages | backend/app/utils/sanitize_html.py:108-138 | stages 3 to 5 change only `style` and the two index attributes, and only the index attributes of non-containers |
| SanitizeHtml.RemoveAllKept | backend/app/utils/sanitize_html.py:70-84 | what survives the removals comes from the input and matches none of them |
| SanitizeHtml.SanitizedAt | backend/app/utils/sanitize_html.py:44-140 | each surviving entry keeps its tag, depth, text and unguarded attributes and carries no handler or `javascript:` url |
| SanitizeHtml.SanitizedFacts | backend/app/utils/sanitize_html.py:44-140 | the output has one entry per survivor of the removals, none of them a script, stylesheet link, style block or image, with no event handler, no `javascript:` in `href` or `src`, nor in `style` outside the containers, and every other attribute unchanged |
| ExhibitFetcher.UrlMatchFacts | backend/app/services/exhibit_fetcher.py:39-41 | a match of `sec\.gov/Archives/edgar/data/(\d+)/(\d+)/` captures two non-empty digit groups that stand in the url at the match |
| ExhibitFetcher.UrlMatchOccurs | backend/app/services/exhibit_fetcher.py:39-41 | the matched text is the path, the two groups and their slashes |
| ExhibitFetcher.UrlMatchOf | backend/app/services/exhibit_fetcher.py:39-41 | conversely, the path followed by two digit groups each ending in a slash matches, capturing exactly those groups |
| ExhibitFetcher.DigitRunAt | backend/app/services/exhibit_fetcher.py:40 | the greedy `\d+` before a slash takes exactly the digit group |
| ExhibitFetcher.UrlMatchAtIntro | backend/app/services/exhibit_fetcher.py:40 | the two groups determine the match |
| ExhibitFetcher.SearchUrlFacts | backend/app/services/exhibit_fetcher.py:76 | `search` fails iff no position matches, and otherwise returns a match at some position |
| ExhibitFetcher.ParseCikAccessionFacts | backend/app/services/exhibit_fetcher.py:66-79 | None iff the url holds no match; otherwise two non-empty digit strings whose path segment the url contains |
| ExhibitFetcher.FirstNumberStart | backend/app/services/exhibit_fetcher.py:87 | a match of `(?:exhibit\|ex[\-_]?)(\d+)` has its number at a digit |
| ExhibitFetcher.ExhibitDigits | backend/app/services/exhibit_fetcher.py:87-124 | the captured number is a non-empty digit string |
| ExhibitFetcher.FirstNumberStartNone | backend/app/services/exhibit_fetcher.py:87-121 | the search fails iff no position matches |
| ExhibitFetcher.ExhibitFileHasNumber | backend/app/services/exhibit_fetcher.py:45-87 | a file is an exhibit iff the number pattern finds a number, so exhibit names always take the `EX-` branch |
| ExhibitFetcher.ExtensionStart | backend/app/services/exhibit_fetcher.py:137 | a final `.htm`, `.html` or `.txt` ends the name |
| ExhibitFetcher.DropExtension | backend/app/services/exhibit_fetcher.py:137 | dropping it never lengthens the name |
| ExhibitFetcher.ParseExhibitNameFacts | backend/app/services/exhibit_fetcher.py:112-138 | with a number: "EX-" and its first two digits, plus "." and the third when there is one; without: the upper-cased name without its extension |
| ExhibitFetcher.BeforeDot | backend/app/services/exhibit_fetcher.py:93 | `split('.')[0]` is the prefix before the first dot |
| ExhibitFetcher.ExhibitDescriptionFacts | backend/app/services/exhibit_fetcher.py:90-109 | "" iff neither the base number nor its first two or first digit is a known exhibit type; otherwise the description of the longest one that is |
| ExhibitFetcher.ExhibitDescriptionOrder | backend/app/services/exhibit_fetcher.py:90-109 | the lookup tries the base number first, then its first two characters, then its first |
| ExhibitFetcher.DescriptionInFacts | backend/app/services/exhibit_fetcher.py:90-109 | for any table without empty entries: "" iff no prefix is known, else the longest known prefix's entry, in the lookup order |
| ExhibitFetcher.DescriptionsNonEmpty | backend/app/services/exhibit_fetcher.py:48-63 | no exhibit type has an empty description |
| ExhibitFetcher.ExhibitDescriptionExamples | backend/app/services/exhibit_fetcher.py:48-109 | "31.1" is a certification, "101" interactive data, "1" nothing |
| ExhibitFetcher.FirstExAt | backend/app/services/exhibit_fetcher.py:197 | `EX-(\d+)` is found at an `EX-` followed by a digit |
| ExhibitFetcher.ExNumberOfName | backend/app/services/exhibit_fetcher.py:190-199 | the number read back from a parsed exhibit name is the number shown in it |
| ExhibitFetcher.DigitRunPrefix | backend/app/services/exhibit_fetcher.py:197 | `\d+` after the dash takes exactly the digits |
| ExhibitFetcher.Collected | backend/app/services/exhibit_fetcher.py:185-205 | at most one exhibit per item |
| ExhibitFetcher.NameLeRefl | backend/app/services/exhibit_fetcher.py:208 | the name order is reflexive |
| ExhibitFetcher.NameLeTotal | backend/app/services/exhibit_fetcher.py:208 | and total |
| ExhibitFetcher.NameLeTrans | backend/app/services/exhibit_fetcher.py:208 | and transitive |
| ExhibitFetcher.NameLeAntisym | backend/app/services/exhibit_fetcher.py:208 | and antisymmetric |
| ExhibitFetcher.InsertByName | backend/app/services/exhibit_fetcher.py:208 | insertion adds exactly the one exhibit |
| ExhibitFetcher.InsertSorted | backend/app/services/exhibit_fetcher.py:208 | insertion keeps the list sorted by name |
| ExhibitFetcher.NamedConcat | backend/app/services/exhibit_fetcher.py:208 | the exhibits of one name distribute over concatenation |
| ExhibitFetcher.InsertStable | backend/app/services/exhibit_fetcher.py:208 | the inserted exhibit goes after those of the same name |
| ExhibitFetcher.SortByNameFacts | backend/app/services/exhibit_fetcher.py:208 | the sort is by name, a permutation, and stable |
| ExhibitFetcher.FetchExhibits | backend/app/services/exhibit_fetcher.py:140-217 | None iff the url does not parse or the index cannot be fetched; otherwise the exhibits of the listing, sorted by name, with the source url |
| ExhibitFetcher.ToExhibitFacts | backend/app/services/exhibit_fetcher.py:189-205 | an exhibit item gives its parsed name, the base url plus its file name, and its own description or else the looked-up one or else its name |
| ExhibitFetcher.CollectedFacts | backend/app/services/exhibit_fetcher.py:185-205 | every exhibit is made from an exhibit item of the listing |
| ExhibitFetcher.CollectedCount | backend/app/services/exhibit_fetcher.py:185-205 | one exhibit per exhibit item |
| ExhibitFetcher.ExhibitListFacts | backend/app/services/exhibit_fetcher.py:180-208 | the result is sorted by name, has one exhibit per exhibit item, each made from one |
| Company.NormalizeCikFacts | backend/app/routes/company.py:51-53 | `zfill(10)`: exactly ten characters for a shorter CIK, unchanged when already ten long; a digit CIK ends the result, which is all digits and denotes the same number |
| Company.FilingUrlParsesBack | backend/app/routes/company.py:56-63 | a built filing url parses back to the padded CIK and the accession without dashes |
| Company.NoEarlierMatch | backend/app/routes/company.py:56-63 | no archive path starts inside the host prefix |
| Company.Quota | backend/app/routes/company.py:118-145 | the number of filings kept: at most max(limit, 1) and at most the available ones |
| Company.AllowedFilings | backend/app/routes/company.py:117-145 | at most one filing per scanned index |
| Company.ExtractFilings | backend/app/routes/company.py:103-147 | the loop with `continue` and `break` keeps the first max(limit, 1) filings of allowed forms |
| Company.AllowedPrefix | backend/app/routes/company.py:117-145 | scanning further only extends the list |
| Company.AllowedFilingsFacts | backend/app/routes/company.py:117-145 | filing p is made from the p-th kept index; kept indices are in range, of allowed form and increasing, and every allowed index is kept |
| Company.KeptFilingFacts | backend/app/routes/company.py:123-142 | a kept filing has an allowed form, its accession, a non-empty description that equals the form exactly when none is given or the given one is the form itself, and a url that parses back |
| Company.ExtractedFacts | backend/app/routes/company.py:103-147 | at most max(limit, 1) filings, all of them when there are at most `limit`, each from an allowed index, in order |
| Company.NewlineCikAccepted | backend/app/routes/company.py:197 | `^\d+$` accepts "123\n", which is not a numeric CIK |
| Company.CikMatchFacts | backend/app/routes/company.py:197 | the pattern accepts exactly the numeric CIKs and those followed by one newline |
| Company.SearchByCik | backend/app/routes/company.py:184-216 | 400 for a CIK that `^\d+$` rejects (a CIK of digits followed by one newline passes, as in the code), 404 when the company is unknown, otherwise its name or "Unknown Company", its first ticker if any, and the extracted filings |
| LlmClient.ExcerptBlocks | backend/app/services/llm/client.py:26-28 | one block per chunk |
| LlmClient.HistoryLines | backend/app/services/llm/client.py:32-34 | one line per message |
| LlmClient.BuildMessages | backend/app/services/llm/client.py:38-41 | the system prompt, then a user message that opens with the excerpts and ends with the question |
| LlmClient.ExcerptNumbered | backend/app/services/llm/client.py:26-29 | chunk i stands in the context under "[Excerpt i+1]", and citing i+1 gets chunk i back from the citation filter |
| LlmClient.CitedSingle | backend/app/services/llm/client.py:26-29 | a single citation n in range selects chunk n−1 |
| LlmClient.ExcerptsInOrder | backend/app/services/llm/client.py:26-29 | excerpts appear in retrieval order, a blank line at least between two of them |
| LlmClient.HistoryNone | backend/app/services/llm/client.py:32-35 | the history reads "None" iff there is no history |
| LlmClient.HistoryInOrder | backend/app/services/llm/client.py:32-35 | each message has its line in conversation order |
| LlmClient.RoleTitles | backend/app/services/llm/client.py:34 | roles come out as "User" and "Assistant" |
| LlmClient.UserContentOrder | backend/app/services/llm/client.py:40 | excerpts first, the history after them, the question last, each behind its heading |
| CsvGenerator.CollapseLosesCell | backend/app/services/csv_generator.py:101-124 | as written, when the collapse drops a column, a row's non-blank cell beyond the last header is lost: the collapsed row is shorter than the headers and each of its cells comes from a header column |
| CsvGenerator.LostCellExample | backend/app/services/csv_generator.py:101-124 | headers ["A", ""] over the row ["x", "", "y"] keep only column 0, and the non-blank "y" lies beyond the headers, so it is lost |
| CsvGenerator.CollapseIntendedKeeps | backend/app/services/csv_generator.py:87-126 | the intended collapse keeps every non-blank cell of every row, in order, and agrees with the code when no row is wider than the headers |
| TableFormatter.TitleMasksEmptyProse | backend/app/services/rag/table_formatter.py:233-415 | as written, a titled financial table from which no statement is made renders as "[title]\n" alone, so its markdown fallback never runs |
| TableFormatter.RenderGridIntendedFacts | backend/app/services/rag/table_formatter.py:399-415 | the intended rendering falls back to the titled markdown when no statement is made, and otherwise agrees with the code |

## Left out

- Tokenizer: tiktoken's encode and decode are outside the model; tokens are integers and the decoded chunk texts are inputs of `Chunker.ChunkRecords`.
- Chunker.ChunkTokens: requires `max_tokens > overlap` for a non-empty token list, because otherwise the source's loop never advances.
- Chunker.ChunkRecords: models only the metadata that `chunk_filing` assembles; its soup mutation and text rewriting (table replacement, whitespace clean-up) are not modelled.
- Unicode: `lower`, `upper`, `title`, `\d` and `\w` are modelled on ASCII only; other letters and digits are treated as non-letters and non-digits.
- Floating point: scores, norms and weights are reals, so rounding, `inf`/`nan` and the `1e-9` epsilon's numeric effect are not modelled; `math.log` is a parameter of the BM25 scoring.
- VectorStore.RankingFacts: numpy's `argsort` leaves the order of equal scores undefined; the model ranks ties in chunk order and claims only the ordering and the set of chunks kept.
- VectorStore: the embedding call and the dot product's float behaviour are outside the model; the query embedding and the chunk vectors are inputs of equal length, as numpy requires.
- KeywordIndex.Bm25Index.constructor: requires `k1 >= 0` and `0 <= b <= 1` (the configured values) so that the BM25 denominator stays positive over the reals.
- FilingCache.FilingCache.constructor: requires a capacity of at least 1, as do the constructors of `KeywordIndex.Bm25Index` and `VectorStore.VectorStore`; with capacity 0 the source's store pops from an empty dict and raises.
- Timestamps: `cached_at` and other clock readings are not modelled.
- In-place sorts: `matches.sort` in the chunker and `exhibits.sort` in the exhibit fetcher are modelled on values (`Chunker.SortDesc`, `ExhibitFetcher.SortByName`, both stable like Python's sort), not as updates of a list in place.
- HTML parsing: BeautifulSoup's parser, serialisation, `get_text` traversal, comments and CDATA are outside the model; a document is its elements in document order with depth, attributes and concatenated text.
- SanitizeHtml: a multi-valued attribute (`rel` as a token list) is modelled, but a token-list `style`, `href` or `src` is not; these are strings.
- SanitizeHtml.RemoveDeclarations: the regex substitution is one left-to-right pass over the style, as `re.sub` makes it.
- SanitizeHtml.SanitizedFacts: the absence of "javascript:" in a style is stated for elements other than the SEC containers, because unhiding rewrites those styles after the check; the containers' style is stated by its own facts.
- Spans: `colspan` and `rowspan` are natural numbers; a negative or non-numeric value (on which `int()` raises or Python's ranges go empty) is not modelled.
- TableFormatter: `extract_table_title` (DOM sibling and parent navigation) is outside the model; its result is the `title` input.
- TableFormatter: the chain of period regexes in `extract_column_periods` is a parameter `period` that maps a header to its period, if any.
- CsvGenerator: `generate_csv`, `generate_xlsx` and `build_table_link` are library serialisation (csv, openpyxl, base64/json/urlencode) and are not modelled.
- CsvGenerator: its copy of `is_data_table` is the same heuristic as `utils/table_detection.py` and is modelled once, in `TableDetection`.
- ExhibitFetcher.FetchExhibits: the index.json request is a parameter (its result or `None` on failure); non-string JSON fields and `_append_exhibit_content` with its timeouts are not modelled.
- Company: `search_by_ticker`, `get_cik_from_ticker` and `fetch_company_submissions` are network calls; the submissions record (or `None` for a 404) is an input of `Company.SearchByCik`.
- Company.NormalizeCikFacts: the input ends the output only for an all-digit CIK; `zfill` keeps a leading sign first ("-5" pads to "-000000005"), so the suffix property does not hold for every string.
- LlmClient: the text of `ANSWER_PROMPT` (prompts.py) is a parameter; the OpenAI call, its model settings and its timeout are outside the model.
- Not modelled at all: embedder.py, filing_fetcher.py (hashing, URL parsing, HTTP), config.py beyond the constants used, main.py, rate_limiter.py and the FastAPI route plumbing beyond request validation.

## Findings

| source | as written | input that shows it | evidently intended | confidence | as-written member | corrected member |
|---|---|---|---|---|---|---|
| backend/app/routes/company.py:197 | `re.match(r"^\d+$", cik)` accepts a CIK followed by one newline, since `$` matches before a final newline | "123\n" | only all-digit CIKs pass (`fullmatch`, or `\Z`) | not executed | Company.NewlineCikAccepted | Company.CikValid |
| backend/app/utils/sanitize_html.py:32-35 | the strip chain leaves a trailing ';' when a blank declaration follows the last one | style "a; ;" cleans to "a;" | no ';' or whitespace at either end | not executed | SanitizeHtml.TrimLeavesSemicolon | SanitizeHtml.CleanStyleIntendedFacts |
| backend/app/services/rag/table_formatter.py:233-235,399-415 | the title line makes the prose non-blank, so a financial table with no statements never falls back to markdown | a titled financial table whose rows all have empty labels | fall back to markdown when no statement is made | not executed | TableFormatter.TitleMasksEmptyProse | TableFormatter.RenderGridIntendedFacts |
| backend/app/services/csv_generator.py:101-124 | cells beyond `len(headers)` are dropped when some column is collapsed, despite the docstring's promise that no data is lost | headers ["A", ""], rows [["x", "", "y"]] | keep every non-blank cell | not executed | CsvGenerator.CollapseLosesCell | CsvGenerator.CollapseIntendedKeeps |

The four operations concerned (`Company.SearchByCik`, `SanitizeHtml.UnhideContainers`,
`TableFormatter.FormatTableForLlm`, `CsvGenerator.ExtractTableAtIndex`) follow the code as
written, so that the model shows what the backend does; the corrected definitions stand
beside them with their proved properties.
