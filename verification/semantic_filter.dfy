/** Embedding vectors and the semantic filter
    (src/filters/semanticFilter.js). Cosine similarity itself
    (src/similarity.js) is not part of this model: it is floating-point
    arithmetic with a square root, so every member that needs it takes it as
    an opaque function `cosine`. */
module Semantic {
  import opened Wrappers

  /** An embedding: a vector of numbers produced by the embedding provider. */
  type Vec = seq<real>

  /** `cosineSimilarity(a, b)`, left uninterpreted. */
  type Similarity = (Vec, Vec) -> real

  /** `semanticFilter(articleEmbedding, queryEmbedding).similarity`: `null`
      (here `None`) when either embedding is missing, otherwise the cosine
      similarity with the article embedding as first argument. */
  function SemanticFilter(articleEmbedding: Option<Vec>, queryEmbedding: Option<Vec>, cosine: Similarity)
    : (similarity: Option<real>)
    ensures similarity.None? <==> articleEmbedding.None? || queryEmbedding.None?
    ensures similarity.Some? ==>
              similarity.value == cosine(articleEmbedding.value, queryEmbedding.value)
  {
    match (articleEmbedding, queryEmbedding)
    case (Some(a), Some(q)) => Some(cosine(a, q))
    case _ => None
  }

  /** An empty array is truthy in JavaScript: it is passed to the cosine
      function rather than treated as a missing embedding. */
  lemma EmptyEmbeddingIsPresent(q: Vec, cosine: Similarity)
    ensures SemanticFilter(Some([]), Some(q), cosine) == Some(cosine([], q))
    ensures SemanticFilter(Some(q), Some([]), cosine) == Some(cosine(q, []))
  {
  }

  /** The second case of tests/semanticFilter.test.js: a missing article
      embedding gives `null` whatever the query. */
  lemma MissingEmbeddingExample(cosine: Similarity)
    ensures SemanticFilter(None, Some([1.0, 2.0]), cosine) == None
  {
  }
}
