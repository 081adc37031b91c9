/** The similarity-threshold gate of utils/semanticSearch.js, applied to the ranked results of a search. */
module SemanticSearch {

  /** `SIMILARITY_THRESHOLD`: the similarity the best match must reach. */
  const SimilarityThreshold: real := 0.3

  /** One ranked search result: a document and its similarity to the query. */
  datatype Hit = Hit(id: string, title: string, similarity: real)

  /** The ranked results are returned as they are when the first one reaches the threshold
      (inclusive), and no result at all otherwise; only the first result is tested. */
  function Gate(topResults: seq<Hit>): (r: seq<Hit>)
    ensures r == [] || r == topResults
    ensures r != [] <==> |topResults| > 0 && topResults[0].similarity >= SimilarityThreshold
  {
    if |topResults| > 0 && topResults[0].similarity >= SimilarityThreshold then topResults else []
  }

  /** The bound is inclusive: a best match exactly at the threshold passes, together with every
      later result, however low its similarity; a best match below it yields nothing. */
  lemma GateBoundary(best: Hit, rest: seq<Hit>)
    ensures best.similarity == SimilarityThreshold ==> Gate([best] + rest) == [best] + rest
    ensures best.similarity < SimilarityThreshold ==> Gate([best] + rest) == []
  {
  }
}
