/** The tuning constants of the backend, at their default values. */
module Config {
  /** Capacity shared by the filing cache, the vector store and the keyword index. */
  const CACHE_MAX_FILINGS: nat := 50
  const MAX_CONVERSATION_HISTORY: nat := 8
  const CHUNK_HARD_MAX_TOKENS: nat := 1500
  const CHUNK_MAX_TOKENS: nat := 1000
  const CHUNK_OVERLAP_TOKENS: nat := 200
  const MIN_WORD_OVERLAP: nat := 2
  const RETRIEVAL_TOP_K: nat := 10
}
