/** The experiment search of src/server.js:155-257: up to 50 rows (stored
    articles, or the items of one feed) go through a `FilterManager`, are
    sorted by similarity, and those below the threshold are dropped. */
module Experiment {
  import opened Wrappers
  import opened Seqs
  import opened Sorting
  import opened Text
  import opened Semantic
  import opened Keywords
  import opened Filters
  import opened Feeds
  import EmbeddingCache

  /** At most this many rows are searched. */
  const RowLimit: nat := 50

  /** A searched row: `id` is `None` when the row has none (or a falsy
      one), `embedding` is `None` when it has no vector. */
  datatype Row = Row(id: Option<int>, title: string, link: string, embedding: Option<Vec>)

  /** One entry of the response. */
  datatype Hit = Hit(id: int, title: string, link: string, similarity: Option<real>, matched: bool)

  /** The response body: rows searched, rows kept, and the kept rows. */
  datatype SearchResult = SearchResult(total: nat, filtered: nat, results: seq<Hit>)

  /** The sort key `similarity || 0`. */
  function SimOrZero(h: Hit): real
  {
    h.similarity.GetOr(0.0)
  }

  /** Kept by the final filter: no similarity, or one at the threshold or
      above. */
  predicate Passes(h: Hit, threshold: real)
  {
    h.similarity.None? || h.similarity.value >= threshold
  }

  /** The manager's verdict on the row at position `idx`. */
  function Evaluate(m: FilterManager, r: Row, idx: nat, cosine: Similarity): (h: Hit)
    ensures h.id == if r.id.Some? && r.id.value != 0 then r.id.value else idx + 1
    ensures h.title == r.title && h.link == r.link
    ensures h.similarity.Some? <==> m.queryEmbedding.Some? && r.embedding.Some?
    ensures h.similarity.Some? ==> h.similarity.value == cosine(r.embedding.value, m.queryEmbedding.value)
    ensures h.matched <==> m.keywords != [] && r.title != "" && exists k :: k in m.keywords && Mentions(r.title, k)
  {
    var applied := Apply(m, Article(r.title, r.embedding), cosine);
    Hit(if r.id.Some? && r.id.value != 0 then r.id.value else idx + 1,
        r.title, r.link, applied.similarity, HasKeywordReason(applied.reasons))
  }

  /** Every row of `limited`, evaluated in order. */
  function EvaluateAll(m: FilterManager, limited: seq<Row>, cosine: Similarity): (all: seq<Hit>)
    ensures |all| == |limited|
    ensures forall i :: 0 <= i < |limited| ==> all[i] == Evaluate(m, limited[i], i, cosine)
  {
    seq(|limited|, i requires 0 <= i < |limited| => Evaluate(m, limited[i], i, cosine))
  }

  /** `handleRows` once the query embedding is known (`None` without a
      query text). */
  function ProcessRows(rows: seq<Row>, query: Option<Vec>, keywords: seq<string>, threshold: real,
                       cosine: Similarity): (res: SearchResult)
    ensures res.total == if |rows| < RowLimit then |rows| else RowLimit
    ensures res.filtered == |res.results| <= res.total
    ensures SortedDesc(res.results, SimOrZero)
    ensures forall i :: 0 <= i < |res.results| ==> Passes(res.results[i], threshold)
  {
    var m := NewFilterManager(Options(Some(keywords), query, Some(threshold)));
    var sorted := SortDesc(EvaluateAll(m, Take(rows, RowLimit), cosine), SimOrZero);
    var filtered := KeepPassing(sorted, threshold);
    SearchResult(|sorted|, |filtered|, filtered)
  }

  /** `filter((r) => r.similarity === null || r.similarity >= threshold)`
      on the sorted rows. */
  function KeepPassing(sorted: seq<Hit>, threshold: real): (kept: seq<Hit>)
    requires SortedDesc(sorted, SimOrZero)
    ensures |kept| <= |sorted|
    ensures SortedDesc(kept, SimOrZero)
    ensures forall i :: 0 <= i < |kept| ==> Passes(kept[i], threshold)
    ensures forall h :: multiset(kept)[h] == if Passes(h, threshold) then multiset(sorted)[h] else 0
  {
    var p := (h: Hit) => Passes(h, threshold);
    FilterSpec(sorted, p);
    FilterSorted(sorted, SimOrZero, p);
    FilterMembers(sorted, p);
    var kept := Filter(sorted, p);
    assert forall i :: 0 <= i < |kept| ==> kept[i] in kept;
    kept
  }

  /** The search result is exactly the rows that pass the threshold, in
      the order a stable sort by similarity puts them: filtering after the
      sort, as the handler does, is the same as sorting the passing rows. */
  lemma {:induction false} ProcessRowsSpec(rows: seq<Row>, query: Option<Vec>, keywords: seq<string>, threshold: real,
                        cosine: Similarity)
    ensures var m := NewFilterManager(Options(Some(keywords), query, Some(threshold)));
            var all := EvaluateAll(m, Take(rows, RowLimit), cosine);
            ProcessRows(rows, query, keywords, threshold, cosine).results
              == SortDesc(Filter(all, (h: Hit) => Passes(h, threshold)), SimOrZero)
  {
    var m := NewFilterManager(Options(Some(keywords), query, Some(threshold)));
    var all := EvaluateAll(m, Take(rows, RowLimit), cosine);
    SortThenFilter(all, SimOrZero, (h: Hit) => Passes(h, threshold));
  }

  /** Without a query text no row has a similarity, so every searched row
      is kept. */
  lemma {:induction false} NoQueryKeepsAll(rows: seq<Row>, keywords: seq<string>, threshold: real, cosine: Similarity)
    ensures var res := ProcessRows(rows, None, keywords, threshold, cosine);
            res.filtered == res.total
  {
    var m := NewFilterManager(Options(Some(keywords), None, Some(threshold)));
    var all := EvaluateAll(m, Take(rows, RowLimit), cosine);
    NoQueryNoSimilarity(m, Take(rows, RowLimit), cosine);
    SortDescPermutation(all, SimOrZero);
    AllPassing(SortDesc(all, SimOrZero), all, threshold);
  }

  /** Without a query vector no evaluated row has a similarity. */
  lemma NoQueryNoSimilarity(m: FilterManager, limited: seq<Row>, cosine: Similarity)
    requires m.queryEmbedding.None?
    ensures forall h :: h in EvaluateAll(m, limited, cosine) ==> h.similarity.None?
  {
  }

  /** A rearrangement of rows without similarities loses nothing to the
      threshold. */
  lemma AllPassing(sorted: seq<Hit>, all: seq<Hit>, threshold: real)
    requires SortedDesc(sorted, SimOrZero)
    requires multiset(sorted) == multiset(all)
    requires forall h :: h in all ==> h.similarity.None?
    ensures |KeepPassing(sorted, threshold)| == |sorted|
  {
    var kept := KeepPassing(sorted, threshold);
    assert multiset(kept) == multiset(sorted) by {
      forall h | h in multiset(sorted)
        ensures Passes(h, threshold)
      {
        assert h in multiset(all);
      }
    }
    assert |multiset(kept)| == |kept| && |multiset(sorted)| == |sorted|;
  }

  /** The rows of a feed: its first 50 items, numbered from 1, each with
      the vector of its text, or none when the provider failed for it. */
  function FeedRows(items: seq<Item>, provider: EmbeddingCache.Provider): (rows: seq<Row>)
    ensures |rows| == |items|
    ensures forall i :: 0 <= i < |items| ==>
              rows[i].id == Some(i + 1) && rows[i].title == items[i].title && rows[i].link == items[i].link
    ensures forall i :: 0 <= i < |items| ==>
              (rows[i].embedding.Some? <==> provider(ArticleText(items[i])).Success?)
    ensures forall i :: 0 <= i < |items| && rows[i].embedding.Some? ==>
              provider(ArticleText(items[i])) == Success(rows[i].embedding.value)
  {
    seq(|items|, i requires 0 <= i < |items| =>
      var e := provider(ArticleText(items[i]));
      Row(Some(i + 1), items[i].title, items[i].link, if e.Success? then Some(e.value) else None))
  }

  /** Where the rows come from: the stored articles (or the error reading
      them), or the fetched feed (or the error fetching it). */
  datatype Source =
    | StoredArticles(rows: Result<seq<Row>>)
    | FeedSource(feed: Result<Option<seq<Item>>>)

  function SourceRows(source: Source, provider: EmbeddingCache.Provider): (r: Result<seq<Row>>)
    ensures source.StoredArticles? ==> r == source.rows
    ensures source.FeedSource? && source.feed.Failure? ==> r.Failure?
    ensures source.FeedSource? && source.feed.Success? ==>
              r == Success(FeedRows(FeedItems(source.feed.value), provider))
  {
    match source
    case StoredArticles(rows) => rows
    case FeedSource(feed) =>
      if feed.Failure? then Failure(feed.error)
      else Success(FeedRows(FeedItems(feed.value), provider))
  }

  /** `/experiment/search`: `text` and `keywordsParam` are the query
      parameters (`''` when absent), `threshold` the parsed threshold. */
  function Search(text: string, keywordsParam: string, threshold: real, source: Source,
                  provider: EmbeddingCache.Provider, cosine: Similarity): (r: Result<SearchResult>)
    ensures r.Success? ==> SourceRows(source, provider).Success?
    ensures SourceRows(source, provider).Failure? ==> r.Failure?
    ensures text != "" && SourceRows(source, provider).Success? ==> (r.Failure? <==> provider(text).Failure?)
    ensures text == "" && SourceRows(source, provider).Success? ==>
              r == Success(ProcessRows(SourceRows(source, provider).value, None, Tokens(keywordsParam), threshold, cosine))
    ensures text != "" && SourceRows(source, provider).Success? && provider(text).Success? ==>
              r == Success(ProcessRows(SourceRows(source, provider).value, Some(provider(text).value),
                                       Tokens(keywordsParam), threshold, cosine))
  {
    var keywords := Tokens(keywordsParam);
    var rows :- SourceRows(source, provider);
    if text == "" then Success(ProcessRows(rows, None, keywords, threshold, cosine))
    else
      var query :- provider(text);
      Success(ProcessRows(rows, Some(query), keywords, threshold, cosine))
  }
}
