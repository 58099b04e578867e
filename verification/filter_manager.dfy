/** `FilterManager` (src/filters/filterManager.js): combines the semantic
    filter and the keyword filter into a list of reasons for keeping an
    article. */
module Filters {
  import opened Wrappers
  import opened Semantic
  import opened Keywords

  /** The constructor's `options` argument; `None` is an omitted option. For
      the threshold, `None` also stands for a value that is not a number. */
  datatype Options = Options(keywords: Option<seq<string>>, queryEmbedding: Option<Vec>, threshold: Option<real>)

  datatype FilterManager = FilterManager(keywords: seq<string>, queryEmbedding: Option<Vec>, threshold: real)

  /** Why an article was kept. The source renders these as the strings
      `similarity <s> >= <threshold>` and `keywords: <hits>`. */
  datatype Reason = SimilarityReason(similarity: real, threshold: real) | KeywordReason(hits: seq<string>)

  /** The fields of an article `apply` reads; an absent title is `""`. */
  datatype Article = Article(title: string, embedding: Option<Vec>)

  datatype Applied = Applied(reasons: seq<Reason>, similarity: Option<real>)

  /** `new FilterManager(options)`: no keywords, no query embedding and a
      threshold of 0 unless supplied. */
  function NewFilterManager(options: Options): (m: FilterManager)
    ensures options.keywords.None? ==> m.keywords == []
    ensures options.keywords.Some? ==> m.keywords == options.keywords.value
    ensures m.queryEmbedding == options.queryEmbedding
    ensures options.threshold.None? ==> m.threshold == 0.0
    ensures options.threshold.Some? ==> m.threshold == options.threshold.value
  {
    FilterManager(options.keywords.GetOr([]), options.queryEmbedding, options.threshold.GetOr(0.0))
  }

  predicate HasSimilarityReason(reasons: seq<Reason>)
  {
    exists i :: 0 <= i < |reasons| && reasons[i].SimilarityReason?
  }

  predicate HasKeywordReason(reasons: seq<Reason>)
  {
    exists i :: 0 <= i < |reasons| && reasons[i].KeywordReason?
  }

  /** The reason the semantic filter contributes: present exactly when the
      similarity is known and reaches the threshold. */
  function SimilarityReasons(similarity: Option<real>, threshold: real): (r: seq<Reason>)
    ensures |r| <= 1
    ensures r != [] <==> similarity.Some? && similarity.value >= threshold
    ensures forall i :: 0 <= i < |r| ==> r[i].SimilarityReason?
  {
    if similarity.Some? && similarity.value >= threshold
    then [SimilarityReason(similarity.value, threshold)] else []
  }

  /** The reason the keyword filter contributes: present exactly when there
      are keywords and the title mentions one of them. */
  function KeywordReasons(title: string, keywords: seq<string>): (r: seq<Reason>)
    ensures |r| <= 1
    ensures r != [] <==> keywords != [] && title != "" && exists k :: k in keywords && Mentions(title, k)
    ensures forall i :: 0 <= i < |r| ==> r[i] == KeywordReason(KeywordFilter(title, keywords).hits)
  {
    var kf := KeywordFilter(title, keywords);
    assert kf.matched <==> title != "" && exists k :: k in keywords && Mentions(title, k) by {
      if title != "" && exists k :: k in keywords && Mentions(title, k) {
        var k :| k in keywords && Mentions(title, k);
        assert k in kf.hits;
      }
    }
    if keywords != [] && kf.matched then [KeywordReason(kf.hits)] else []
  }

  lemma ReasonsConcat(sr: seq<Reason>, kr: seq<Reason>)
    requires |sr| <= 1 && |kr| <= 1
    requires forall i :: 0 <= i < |sr| ==> sr[i].SimilarityReason?
    requires forall i :: 0 <= i < |kr| ==> kr[i].KeywordReason?
    ensures HasSimilarityReason(sr + kr) <==> sr != []
    ensures HasKeywordReason(sr + kr) <==> kr != []
    ensures forall i, j :: 0 <= i < j < |sr + kr| ==>
              (sr + kr)[i].SimilarityReason? && (sr + kr)[j].KeywordReason?
  {
    var rs := sr + kr;
    if sr != [] {
      assert rs[0].SimilarityReason?;
    }
    if kr != [] {
      assert rs[|rs| - 1].KeywordReason?;
    }
  }

  /** `manager.apply(article)`. */
  function Apply(m: FilterManager, article: Article, cosine: Similarity): (r: Applied)
    ensures m.queryEmbedding.None? ==> r.similarity.None?
    ensures r.similarity.Some? <==> m.queryEmbedding.Some? && article.embedding.Some?
    ensures r.similarity.Some? ==>
              r.similarity.value == cosine(article.embedding.value, m.queryEmbedding.value)
    ensures |r.reasons| <= 2
    ensures HasSimilarityReason(r.reasons) <==> r.similarity.Some? && r.similarity.value >= m.threshold
    ensures HasKeywordReason(r.reasons) <==>
              m.keywords != [] && article.title != "" &&
              exists k :: k in m.keywords && Mentions(article.title, k)
    ensures forall i, j :: 0 <= i < j < |r.reasons| ==>
              r.reasons[i].SimilarityReason? && r.reasons[j].KeywordReason?
    ensures forall i :: 0 <= i < |r.reasons| && r.reasons[i].KeywordReason? ==>
              r.reasons[i].hits == KeywordFilter(article.title, m.keywords).hits
  {
    var similarity := if m.queryEmbedding.Some? then SemanticFilter(article.embedding, m.queryEmbedding, cosine) else None;
    var sr := SimilarityReasons(similarity, m.threshold);
    var kr := KeywordReasons(article.title, m.keywords);
    ReasonsConcat(sr, kr);
    Applied(sr + kr, similarity)
  }

  /** The example of tests/filterManager.test.js: with keywords `['foo']`,
      query `[1, 0]` and threshold 0.5, the article 'Foo bar' with embedding
      `[1, 0]` gets both reasons, the similarity one first, and similarity 1
      (given that the cosine of a vector with itself is 1). */
  lemma FooBarExample(cosine: Similarity)
    requires cosine([1.0, 0.0], [1.0, 0.0]) == 1.0
    ensures var m := NewFilterManager(Options(Some(["foo"]), Some([1.0, 0.0]), Some(0.5)));
            var r := Apply(m, Article("Foo bar", Some([1.0, 0.0])), cosine);
            r.similarity == Some(1.0) && |r.reasons| == 2
            && r.reasons[0] == SimilarityReason(1.0, 0.5) && r.reasons[1] == KeywordReason(["foo"])
  {
    var m := NewFilterManager(Options(Some(["foo"]), Some([1.0, 0.0]), Some(0.5)));
    MentionsFoo();
    var kf := KeywordFilter("Foo bar", ["foo"]);
    assert kf.hits == ["foo"] by {
      assert "foo" in kf.hits;
      assert |kf.hits| <= 1 by {
        assert multiset(kf.hits)["foo"] <= 1;
        forall k | k != "foo"
          ensures multiset(kf.hits)[k] == 0
        {
        }
        assert multiset(kf.hits) == multiset{"foo"};
        assert |multiset(kf.hits)| == |kf.hits|;
      }
    }
  }

  lemma MentionsFoo()
    ensures Mentions("Foo bar", "foo")
  {
    assert Text.Lower("Foo bar") == "foo bar";
    assert Text.Lower("foo") == "foo";
    Text.ContainsAt("foo bar", "foo");
    assert Text.OccursAt("foo bar", "foo", 0);
  }
}
