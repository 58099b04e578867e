/** The report request of src/server.js:303-477 as one pure function: build
    the categories, collect the feed items, embed the category texts, embed
    every article through the cache, then score and tier the articles for
    each category. `Promise.all` is modelled sequentially, in input order. */
module Report {
  import opened Wrappers
  import opened Seqs
  import opened Text
  import opened Semantic
  import opened Keywords
  import opened Categories
  import opened Feeds
  import opened EmbeddingCache
  import opened Ranking

  /** The text embedded for a subcategory: `${title}\n\n${description}`. */
  function SubcategoryText(sub: Subcategory): string
  {
    sub.title + "\n\n" + sub.description
  }

  /** The texts embedded for one category: its name, then one per
      subcategory. */
  function CategoryTexts(c: Category): (texts: seq<string>)
    ensures |texts| == 1 + |c.subcategories|
    ensures texts[0] == c.name
    ensures forall j :: 0 <= j < |c.subcategories| ==> texts[1 + j] == SubcategoryText(c.subcategories[j])
  {
    [c.name] + seq(|c.subcategories|, j requires 0 <= j < |c.subcategories| => SubcategoryText(c.subcategories[j]))
  }

  /** `embeddingTexts`: the texts of all categories, category by category. */
  function EmbeddingTexts(cats: seq<Category>): seq<string>
  {
    if cats == [] then [] else CategoryTexts(cats[0]) + EmbeddingTexts(cats[1..])
  }

  /** `Promise.all(texts.map(createEmbeddingPromise))`: every vector in
      order, or a failure when any text cannot be embedded. */
  function EmbedAll(texts: seq<string>, provider: Provider): (r: Result<seq<Vec>>)
    ensures r.Success? ==> |r.value| == |texts|
    ensures r.Success? ==> forall i :: 0 <= i < |texts| ==> provider(texts[i]) == Success(r.value[i])
    ensures r.Failure? <==> exists i :: 0 <= i < |texts| && provider(texts[i]).Failure?
  {
    if texts == [] then Success([])
    else
      var first := provider(texts[0]);
      if first.Failure? then Failure(first.error)
      else
        var rest := EmbedAll(texts[1..], provider);
        if rest.Failure? then
          assert exists i :: 0 <= i < |texts[1..]| && provider(texts[1..][i]).Failure?;
          Failure(rest.error)
        else
          assert forall i :: 1 <= i < |texts| ==> texts[i] == texts[1..][i - 1];
          Success([first.value] + rest.value)
  }

  /** The vectors of one category: its own and one per subcategory. */
  datatype CategoryEmbedding = CategoryEmbedding(embedding: Vec, subEmbeddings: seq<Vec>)

  /** Hands the vectors out to the categories in the order their texts were
      listed (`embeds[pos++]`). */
  function Distribute(cats: seq<Category>, embeds: seq<Vec>): (d: seq<CategoryEmbedding>)
    requires |embeds| == |EmbeddingTexts(cats)|
    ensures |d| == |cats|
  {
    if cats == [] then []
    else
      var n := 1 + |cats[0].subcategories|;
      [CategoryEmbedding(embeds[0], embeds[1..n])] + Distribute(cats[1..], embeds[n..])
  }

  /** The embeddings a category should get: the provider's vector for its
      name and for each subcategory text. */
  predicate EmbeddedFrom(c: Category, e: CategoryEmbedding, provider: Provider)
  {
    provider(c.name) == Success(e.embedding)
    && |e.subEmbeddings| == |c.subcategories|
    && forall j :: 0 <= j < |c.subcategories| ==>
         provider(SubcategoryText(c.subcategories[j])) == Success(e.subEmbeddings[j])
  }

  /** Each category receives the vectors of its own texts, not those of a
      neighbour. */
  lemma {:induction false} DistributeSpec(cats: seq<Category>, embeds: seq<Vec>, provider: Provider)
    requires |embeds| == |EmbeddingTexts(cats)|
    requires forall k :: 0 <= k < |embeds| ==> provider(EmbeddingTexts(cats)[k]) == Success(embeds[k])
    ensures forall i :: 0 <= i < |cats| ==> EmbeddedFrom(cats[i], Distribute(cats, embeds)[i], provider)
  {
    if cats != [] {
      var n := 1 + |cats[0].subcategories|;
      DistributeHead(cats, embeds, provider);
      DistributeSpec(cats[1..], embeds[n..], provider);
      var d := Distribute(cats, embeds);
      assert d == [d[0]] + Distribute(cats[1..], embeds[n..]);
      forall i | 1 <= i < |cats|
        ensures EmbeddedFrom(cats[i], d[i], provider)
      {
        assert cats[i] == cats[1..][i - 1];
        assert d[i] == Distribute(cats[1..], embeds[n..])[i - 1];
      }
    }
  }

  /** The first category takes the first `1 + |subcategories|` vectors,
      and the rest are the vectors of the remaining texts. */
  lemma DistributeHead(cats: seq<Category>, embeds: seq<Vec>, provider: Provider)
    requires cats != []
    requires |embeds| == |EmbeddingTexts(cats)|
    requires forall k :: 0 <= k < |embeds| ==> provider(EmbeddingTexts(cats)[k]) == Success(embeds[k])
    ensures var n := 1 + |cats[0].subcategories|;
            n <= |embeds|
            && EmbeddedFrom(cats[0], Distribute(cats, embeds)[0], provider)
            && |embeds[n..]| == |EmbeddingTexts(cats[1..])|
            && forall k :: 0 <= k < |embeds[n..]| ==> provider(EmbeddingTexts(cats[1..])[k]) == Success(embeds[n..][k])
  {
    var texts := EmbeddingTexts(cats);
    var own := CategoryTexts(cats[0]);
    var n := |own|;
    assert texts == own + EmbeddingTexts(cats[1..]);
    forall k | 0 <= k < |embeds[n..]|
      ensures provider(EmbeddingTexts(cats[1..])[k]) == Success(embeds[n..][k])
    {
      assert texts[n + k] == EmbeddingTexts(cats[1..])[k];
    }
    var e := Distribute(cats, embeds)[0];
    assert e == CategoryEmbedding(embeds[0], embeds[1..n]);
    assert texts[0] == cats[0].name;
    forall j | 0 <= j < |cats[0].subcategories|
      ensures provider(SubcategoryText(cats[0].subcategories[j])) == Success(e.subEmbeddings[j])
    {
      assert texts[1 + j] == own[1 + j];
    }
  }

  /** `keywordMatches` of an article: per category, the category's
      keywords whose lowercase form occurs in the lowercased article text. */
  function KeywordMatches(text: string, cats: seq<Category>): (m: seq<seq<string>>)
    ensures |m| == |cats|
  {
    seq(|cats|, i requires 0 <= i < |cats| =>
      Filter(cats[i].allKeywords, (kw: string) => Contains(Lower(text), Lower(kw))))
  }

  /** The inline matching of the report agrees with `keywordFilter` on any
      non-empty text, and an article's text is never empty. */
  lemma {:induction false} KeywordMatchesAgree(text: string, cats: seq<Category>)
    requires text != ""
    ensures forall i :: 0 <= i < |cats| ==>
              KeywordMatches(text, cats)[i] == KeywordFilter(text, cats[i].allKeywords).hits
  {
    forall i | 0 <= i < |cats|
      ensures KeywordMatches(text, cats)[i] == KeywordFilter(text, cats[i].allKeywords).hits
    {
      FilterExt(cats[i].allKeywords, (kw: string) => Contains(Lower(text), Lower(kw)),
                (k: string) => Mentions(text, k));
    }
  }

  /** The embedding an article resolves to, given the store as it was when
      its lookup ran. */
  function ArticleEmbedding(snapshot: Store, item: Item, provider: Provider): Result<Vec>
  {
    EmbeddingFor(snapshot, item.link, ArticleText(item), provider).embedding
  }

  /** The article vectors of a request and the store after its saves. */
  datatype Embedded = Embedded(vectors: seq<Vec>, store: Store)

  /** Every article through the cache. Lookups all see `snapshot`, the
      store at the start of the request; computed vectors are saved into
      `store` one after another. One failing provider call fails the
      request. */
  function EmbedArticles(snapshot: Store, store: Store, items: seq<Item>, provider: Provider): (r: Result<Embedded>)
    ensures r.Success? ==> |r.value.vectors| == |items|
    ensures r.Success? ==> forall a :: 0 <= a < |items| ==>
              ArticleEmbedding(snapshot, items[a], provider) == Success(r.value.vectors[a])
    ensures r.Failure? <==> exists a :: 0 <= a < |items| && ArticleEmbedding(snapshot, items[a], provider).Failure?
    ensures r.Success? ==> r.value.store.available == store.available
    decreases |items|
  {
    if items == [] then Success(Embedded([], store))
    else
      var it := items[0];
      var res := EmbeddingFor(snapshot, it.link, ArticleText(it), provider);
      if res.embedding.Failure? then Failure(res.embedding.error)
      else
        var saved := if res.providerCalled then Save(store, it.link, res.embedding.value) else store;
        var rest := EmbedArticles(snapshot, saved, items[1..], provider);
        if rest.Failure? then
          TailFailure(snapshot, items, provider);
          Failure(rest.error)
        else
          assert forall a :: 1 <= a < |items| ==> items[a] == items[1..][a - 1];
          Success(Embedded([res.embedding.value] + rest.value.vectors, rest.value.store))
  }

  /** An article of the tail that fails is an article of the list that
      fails. */
  lemma TailFailure(snapshot: Store, items: seq<Item>, provider: Provider)
    requires items != []
    requires exists a :: 0 <= a < |items[1..]| && ArticleEmbedding(snapshot, items[1..][a], provider).Failure?
    ensures exists a :: 0 <= a < |items| && ArticleEmbedding(snapshot, items[a], provider).Failure?
  {
    var a :| 0 <= a < |items[1..]| && ArticleEmbedding(snapshot, items[1..][a], provider).Failure?;
    assert items[a + 1] == items[1..][a];
  }

  /** After a successful request against a reachable store, every article
      has a row, and no row that existed before was changed. A link that
      was not stored gets a row holding a vector: the one computed for the
      first article with that link. */
  lemma {:induction false} EmbedArticlesStore(snapshot: Store, store: Store, items: seq<Item>, provider: Provider)
    requires store.available
    requires forall l :: l in snapshot.rows ==> l in store.rows
    requires EmbedArticles(snapshot, store, items, provider).Success?
    ensures var r := EmbedArticles(snapshot, store, items, provider).value;
            (forall a :: 0 <= a < |items| ==> items[a].link in r.store.rows)
            && (forall l :: l in store.rows ==> l in r.store.rows && r.store.rows[l] == store.rows[l])
            && (forall a :: 0 <= a < |items| && items[a].link !in store.rows ==>
                  r.store.rows[items[a].link].embedding.Some?)
            && (forall a :: (0 <= a < |items| && items[a].link !in store.rows
                             && (forall b :: 0 <= b < a ==> items[b].link != items[a].link)) ==>
                  r.store.rows[items[a].link] == Row(Some(r.vectors[a])))
    decreases |items|
  {
    if items != [] {
      var it := items[0];
      var res := EmbeddingFor(snapshot, it.link, ArticleText(it), provider);
      var saved := if res.providerCalled then Save(store, it.link, res.embedding.value) else store;
      var r := EmbedArticles(snapshot, store, items, provider).value;
      var rest := EmbedArticles(snapshot, saved, items[1..], provider).value;
      assert r == Embedded([res.embedding.value] + rest.vectors, rest.store);
      EmbedArticlesStore(snapshot, saved, items[1..], provider);
      assert it.link in saved.rows;
      if it.link !in store.rows {
        assert it.link !in snapshot.rows;
        assert saved.rows[it.link] == Row(Some(r.vectors[0]));
      }
      forall a | 1 <= a < |items|
        ensures items[a].link in r.store.rows
        ensures items[a].link !in store.rows ==> r.store.rows[items[a].link].embedding.Some?
        ensures items[a].link !in store.rows && (forall b :: 0 <= b < a ==> items[b].link != items[a].link) ==>
                  r.store.rows[items[a].link] == Row(Some(r.vectors[a]))
      {
        assert items[a] == items[1..][a - 1];
        assert r.vectors[a] == rest.vectors[a - 1];
        if items[a].link !in store.rows && (forall b :: 0 <= b < a ==> items[b].link != items[a].link) {
          assert items[0].link != items[a].link;
          forall b | 0 <= b < a - 1
            ensures items[1..][b].link != items[1..][a - 1].link
          {
            assert items[1..][b] == items[b + 1];
          }
        }
      }
    }
  }

  /** A request for one article is the cache policy of `EmbeddingFor` on
      the store it starts from: the same vector or failure, and the same
      store afterwards. */
  lemma {:induction false} SingleArticleRequest(store: Store, it: Item, provider: Provider)
    ensures var o := EmbeddingFor(store, it.link, ArticleText(it), provider);
            var r := EmbedArticles(store, store, [it], provider);
            (r.Failure? <==> o.embedding.Failure?)
            && (r.Success? ==> r.value.vectors == [o.embedding.value] && r.value.store == o.store)
  {
    var o := EmbeddingFor(store, it.link, ArticleText(it), provider);
    assert [it][1..] == [];
    if o.embedding.Success? {
      var saved := if o.providerCalled then Save(store, it.link, o.embedding.value) else store;
      assert EmbedArticles(store, saved, [], provider) == Success(Embedded([], saved));
      assert [o.embedding.value] + [] == [o.embedding.value];
      assert EmbedArticles(store, store, [it], provider) == Success(Embedded([o.embedding.value], saved));
    }
  }

  /** An article whose vector one request computed for a new link is a
      cache hit in the next request, whatever its text and the provider are
      then: the vector comes back and the store stays as it is. */
  lemma {:induction false} RequestRoundTrip(store: Store, it: Item, it2: Item, provider: Provider, provider2: Provider)
    requires store.available && it.link !in store.rows
    requires provider(ArticleText(it)).Success?
    requires it2.link == it.link
    ensures var r1 := EmbedArticles(store, store, [it], provider);
            r1.Success? && r1.value.vectors == [provider(ArticleText(it)).value]
            && EmbedArticles(r1.value.store, r1.value.store, [it2], provider2) == r1
  {
    var o := EmbeddingFor(store, it.link, ArticleText(it), provider);
    SingleArticleRequest(store, it, provider);
    CacheRoundTrip(store, it.link, ArticleText(it), provider, ArticleText(it2), provider2);
    SingleArticleRequest(o.store, it2, provider2);
  }

  /** An article with its vector and its keyword matches per category. */
  datatype ArticleData = ArticleData(item: Item, vector: Vec, keywordMatches: seq<seq<string>>)

  /** The `{item, sims, keywordMatches}` records, before scoring. */
  function Articles(items: seq<Item>, vectors: seq<Vec>, cats: seq<Category>): (arts: seq<ArticleData>)
    requires |vectors| == |items|
    ensures |arts| == |items|
  {
    seq(|items|, a requires 0 <= a < |items| =>
      ArticleData(items[a], vectors[a], KeywordMatches(ArticleText(items[a]), cats)))
  }

  /** `cat.subEmbeddings.map((subEmb) => cosineSimilarity(articleEmb, subEmb))`. */
  function SubSims(v: Vec, subEmbeddings: seq<Vec>, sim: Similarity): (sims: seq<real>)
    ensures |sims| == |subEmbeddings|
  {
    seq(|subEmbeddings|, j requires 0 <= j < |subEmbeddings| => sim(v, subEmbeddings[j]))
  }

  /** The scored record of one article for category `idx`: similarity to
      the category, similarity to each subcategory, and its hits there. */
  function ScoreFor(art: ArticleData, idx: nat, e: CategoryEmbedding, sim: Similarity): Scored<Item>
    requires idx < |art.keywordMatches|
  {
    Score(art.item, sim(art.vector, e.embedding), SubSims(art.vector, e.subEmbeddings, sim),
          art.keywordMatches[idx])
  }

  /** `mapped` for category `idx`: every article, in order. */
  function Mapped(arts: seq<ArticleData>, idx: nat, e: CategoryEmbedding, sim: Similarity): (m: seq<Scored<Item>>)
    requires forall a :: 0 <= a < |arts| ==> idx < |arts[a].keywordMatches|
    ensures |m| == |arts|
  {
    seq(|arts|, a requires 0 <= a < |arts| => ScoreFor(arts[a], idx, e, sim))
  }

  /** The outcome of a successful report: the categories and, for each,
      its ranked articles, and the store after the request. */
  datatype Ranked = Ranked(categories: seq<Category>, rankings: seq<seq<Scored<Item>>>, store: Store)

  /** The whole report request. `params` holds the query parameters of
      each category, `feeds` the parsed feeds, `store` the article store,
      `provider` the embedding service and `sim` cosine similarity. */
  function RankRequest(params: seq<Params>, d: Defaults, feeds: seq<Option<seq<Item>>>,
                       store: Store, provider: Provider, sim: Similarity): (r: Result<Ranked>)
    ensures r.Success? ==> |r.value.rankings| == |r.value.categories| == |d.names|
    ensures r.Success? ==> r.value.categories == BuildCategories(params, d)
  {
    var cats := BuildCategories(params, d);
    var items :- CollectItems(feeds);
    var embeds :- EmbedAll(EmbeddingTexts(cats), provider);
    var ces := Distribute(cats, embeds);
    var embedded :- EmbedArticles(store, store, items, provider);
    var arts := Articles(items, embedded.vectors, cats);
    Success(Ranked(cats, Rankings(arts, ces, sim), embedded.store))
  }

  /** `categories.map((cat, idx) => ...)`: the ranked list of each category. */
  function Rankings(arts: seq<ArticleData>, ces: seq<CategoryEmbedding>, sim: Similarity): (r: seq<seq<Scored<Item>>>)
    requires forall a :: 0 <= a < |arts| ==> |ces| <= |arts[a].keywordMatches|
    ensures |r| == |ces|
  {
    seq(|ces|, i requires 0 <= i < |ces| => RankCategory(Mapped(arts, i, ces[i], sim)))
  }

  /** What category `cat` should score an article at, stated from the
      inputs alone: the provider's vectors for the category texts and for
      the article (through the store), `sim` between them, and the
      `keywordFilter` hits of the article text. */
  function ExpectedScore(item: Item, cat: Category, store: Store, provider: Provider, sim: Similarity): (s: Scored<Item>)
    requires provider(cat.name).Success?
    requires forall j :: 0 <= j < |cat.subcategories| ==> provider(SubcategoryText(cat.subcategories[j])).Success?
    requires ArticleEmbedding(store, item, provider).Success?
    ensures s.item == item && |s.subSimilarities| == |cat.subcategories|
  {
    var v := ArticleEmbedding(store, item, provider).value;
    Score(item, sim(v, provider(cat.name).value), SubSims(v, SubVectors(cat, provider), sim),
          KeywordFilter(ArticleText(item), cat.allKeywords).hits)
  }

  /** The provider's vectors for the subcategory texts of `cat`. */
  function SubVectors(cat: Category, provider: Provider): (vs: seq<Vec>)
    requires forall j :: 0 <= j < |cat.subcategories| ==> provider(SubcategoryText(cat.subcategories[j])).Success?
    ensures |vs| == |cat.subcategories|
  {
    seq(|cat.subcategories|, j requires 0 <= j < |cat.subcategories| =>
      provider(SubcategoryText(cat.subcategories[j])).value)
  }

  /** Every text of the categories can be embedded. */
  predicate CategoriesEmbeddable(cats: seq<Category>, provider: Provider)
  {
    forall i :: 0 <= i < |cats| ==>
      provider(cats[i].name).Success?
      && forall j :: 0 <= j < |cats[i].subcategories| ==> provider(SubcategoryText(cats[i].subcategories[j])).Success?
  }

  /** Every article can be given an embedding. */
  predicate ArticlesEmbeddable(items: seq<Item>, store: Store, provider: Provider)
  {
    forall a :: 0 <= a < |items| ==> ArticleEmbedding(store, items[a], provider).Success?
  }

  /** The articles of a category in input order, each scored as
      `ExpectedScore` says. */
  function ExpectedScores(items: seq<Item>, cat: Category, store: Store, provider: Provider, sim: Similarity): (m: seq<Scored<Item>>)
    requires provider(cat.name).Success?
    requires forall j :: 0 <= j < |cat.subcategories| ==> provider(SubcategoryText(cat.subcategories[j])).Success?
    requires ArticlesEmbeddable(items, store, provider)
    ensures |m| == |items|
  {
    seq(|items|, a requires 0 <= a < |items| => ExpectedScore(items[a], cat, store, provider, sim))
  }

  /** The category texts can all be embedded exactly when every category
      name and subcategory text can. */
  lemma {:induction false} EmbeddingTextsSucceed(cats: seq<Category>, provider: Provider)
    ensures (forall k :: 0 <= k < |EmbeddingTexts(cats)| ==> provider(EmbeddingTexts(cats)[k]).Success?)
            <==> CategoriesEmbeddable(cats, provider)
  {
    if cats != [] {
      EmbeddingTextsSucceed(cats[1..], provider);
      if forall k :: 0 <= k < |EmbeddingTexts(cats)| ==> provider(EmbeddingTexts(cats)[k]).Success? {
        EmbeddableFromTexts(cats, provider);
      }
      if CategoriesEmbeddable(cats, provider) {
        TextsFromEmbeddable(cats, provider);
      }
    }
  }

  /** One step of `EmbeddingTextsSucceed`, from texts to categories. */
  lemma EmbeddableFromTexts(cats: seq<Category>, provider: Provider)
    requires cats != []
    requires forall k :: 0 <= k < |EmbeddingTexts(cats)| ==> provider(EmbeddingTexts(cats)[k]).Success?
    requires (forall k :: 0 <= k < |EmbeddingTexts(cats[1..])| ==> provider(EmbeddingTexts(cats[1..])[k]).Success?)
             ==> CategoriesEmbeddable(cats[1..], provider)
    ensures CategoriesEmbeddable(cats, provider)
  {
    var own := CategoryTexts(cats[0]);
    var rest := EmbeddingTexts(cats[1..]);
    var texts := EmbeddingTexts(cats);
    assert texts == own + rest;
    forall k | 0 <= k < |rest|
      ensures provider(rest[k]).Success?
    {
      assert rest[k] == texts[|own| + k];
    }
    assert provider(texts[0]).Success? && texts[0] == own[0];
    forall j | 0 <= j < |cats[0].subcategories|
      ensures provider(SubcategoryText(cats[0].subcategories[j])).Success?
    {
      assert texts[1 + j] == own[1 + j];
    }
    forall i | 1 <= i < |cats|
      ensures provider(cats[i].name).Success?
      ensures forall j :: 0 <= j < |cats[i].subcategories| ==>
                provider(SubcategoryText(cats[i].subcategories[j])).Success?
    {
      assert cats[i] == cats[1..][i - 1];
    }
  }

  /** One step of `EmbeddingTextsSucceed`, from categories to texts. */
  lemma TextsFromEmbeddable(cats: seq<Category>, provider: Provider)
    requires cats != []
    requires CategoriesEmbeddable(cats, provider)
    requires CategoriesEmbeddable(cats[1..], provider) ==>
             forall k :: 0 <= k < |EmbeddingTexts(cats[1..])| ==> provider(EmbeddingTexts(cats[1..])[k]).Success?
    ensures forall k :: 0 <= k < |EmbeddingTexts(cats)| ==> provider(EmbeddingTexts(cats)[k]).Success?
  {
    var own := CategoryTexts(cats[0]);
    var rest := EmbeddingTexts(cats[1..]);
    var texts := EmbeddingTexts(cats);
    assert texts == own + rest;
    assert CategoriesEmbeddable(cats[1..], provider) by {
      forall i | 0 <= i < |cats[1..]|
        ensures provider(cats[1..][i].name).Success?
      {
        assert cats[1..][i] == cats[i + 1];
      }
    }
    forall k | 0 <= k < |texts|
      ensures provider(texts[k]).Success?
    {
      if k >= |own| {
        assert texts[k] == rest[k - |own|];
      } else if k > 0 {
        assert texts[k] == SubcategoryText(cats[0].subcategories[k - 1]);
      }
    }
  }

  /** Category `idx` scores each article as `ExpectedScore` does. */
  lemma {:induction false} MappedIsExpected(items: seq<Item>, vectors: seq<Vec>, cats: seq<Category>, idx: nat,
                         e: CategoryEmbedding, store: Store, provider: Provider, sim: Similarity)
    requires |vectors| == |items| && idx < |cats|
    requires EmbeddedFrom(cats[idx], e, provider)
    requires forall a :: 0 <= a < |items| ==> ArticleEmbedding(store, items[a], provider) == Success(vectors[a])
    ensures Mapped(Articles(items, vectors, cats), idx, e, sim) == ExpectedScores(items, cats[idx], store, provider, sim)
  {
    var arts := Articles(items, vectors, cats);
    assert e.subEmbeddings == SubVectors(cats[idx], provider);
    forall a | 0 <= a < |items|
      ensures ScoreFor(arts[a], idx, e, sim) == ExpectedScore(items[a], cats[idx], store, provider, sim)
    {
      ScoreForIsExpected(items[a], vectors[a], cats, idx, e, store, provider, sim);
    }
  }

  lemma {:induction false} ScoreForIsExpected(item: Item, v: Vec, cats: seq<Category>, idx: nat,
                           e: CategoryEmbedding, store: Store, provider: Provider, sim: Similarity)
    requires idx < |cats|
    requires EmbeddedFrom(cats[idx], e, provider)
    requires e.subEmbeddings == SubVectors(cats[idx], provider)
    requires ArticleEmbedding(store, item, provider) == Success(v)
    ensures ScoreFor(ArticleData(item, v, KeywordMatches(ArticleText(item), cats)), idx, e, sim)
            == ExpectedScore(item, cats[idx], store, provider, sim)
  {
    KeywordMatchesAgree(ArticleText(item), cats);
  }

  /** The report request end to end: it fails with 'No articles from
      feeds' when the feeds yield nothing, it succeeds exactly when there
      are items and every category text and every article can be embedded,
      and then each category's list is the three-tier ranking of every
      article scored from the inputs alone. */
  lemma {:induction false} RankRequestSpec(params: seq<Params>, d: Defaults, feeds: seq<Option<seq<Item>>>,
                        store: Store, provider: Provider, sim: Similarity)
    ensures CollectItems(feeds).Failure? ==> RankRequest(params, d, feeds, store, provider, sim) == Failure("No articles from feeds")
    ensures RankRequest(params, d, feeds, store, provider, sim).Success? <==>
              CollectItems(feeds).Success?
              && CategoriesEmbeddable(BuildCategories(params, d), provider)
              && ArticlesEmbeddable(CollectItems(feeds).value, store, provider)
    ensures RankRequest(params, d, feeds, store, provider, sim).Success? ==>
              forall i :: 0 <= i < |d.names| ==>
                RankRequest(params, d, feeds, store, provider, sim).value.rankings[i]
                  == RankCategory(ExpectedScores(CollectItems(feeds).value, BuildCategories(params, d)[i], store, provider, sim))
  {
    var cats := BuildCategories(params, d);
    EmbeddingTextsSucceed(cats, provider);
    RankRequestSteps(params, d, feeds, store, provider, sim);
    var collected := CollectItems(feeds);
    if collected.Success? {
      var items := collected.value;
      var texts := EmbeddingTexts(cats);
      var embeds := EmbedAll(texts, provider);
      if embeds.Failure? {
        var k :| 0 <= k < |texts| && provider(texts[k]).Failure?;
        assert !provider(texts[k]).Success?;
      } else {
        var embedded := EmbedArticles(store, store, items, provider);
        if embedded.Failure? {
          var a :| 0 <= a < |items| && ArticleEmbedding(store, items[a], provider).Failure?;
          assert !ArticleEmbedding(store, items[a], provider).Success?;
        } else {
          RankingsExpected(items, embedded.value.vectors, cats, embeds.value, store, provider, sim);
        }
      }
    }
  }

  /** How `RankRequest` proceeds: it stops at the first step that fails,
      and otherwise ranks the articles with the vectors it obtained. */
  lemma RankRequestSteps(params: seq<Params>, d: Defaults, feeds: seq<Option<seq<Item>>>,
                         store: Store, provider: Provider, sim: Similarity)
    ensures CollectItems(feeds).Failure? ==>
              RankRequest(params, d, feeds, store, provider, sim) == Failure(CollectItems(feeds).error)
    ensures CollectItems(feeds).Success? ==>
              var cats := BuildCategories(params, d);
              var items := CollectItems(feeds).value;
              var embeds := EmbedAll(EmbeddingTexts(cats), provider);
              var embedded := EmbedArticles(store, store, items, provider);
              var r := RankRequest(params, d, feeds, store, provider, sim);
              (embeds.Failure? ==> r.Failure?)
              && (embeds.Success? && embedded.Failure? ==> r.Failure?)
              && (embeds.Success? && embedded.Success? ==>
                    r == Success(Ranked(cats, Rankings(Articles(items, embedded.value.vectors, cats),
                                                       Distribute(cats, embeds.value), sim),
                                        embedded.value.store)))
  {
  }

  /** With the provider's vectors for every text, each category's list is
      the ranking of the expected scores. */
  lemma {:induction false} RankingsExpected(items: seq<Item>, vectors: seq<Vec>, cats: seq<Category>, embeds: seq<Vec>,
                         store: Store, provider: Provider, sim: Similarity)
    requires |embeds| == |EmbeddingTexts(cats)|
    requires forall k :: 0 <= k < |embeds| ==> provider(EmbeddingTexts(cats)[k]) == Success(embeds[k])
    requires |vectors| == |items|
    requires forall a :: 0 <= a < |items| ==> ArticleEmbedding(store, items[a], provider) == Success(vectors[a])
    requires CategoriesEmbeddable(cats, provider) && ArticlesEmbeddable(items, store, provider)
    ensures forall i :: 0 <= i < |cats| ==>
              Rankings(Articles(items, vectors, cats), Distribute(cats, embeds), sim)[i]
                == RankCategory(ExpectedScores(items, cats[i], store, provider, sim))
  {
    var ces := Distribute(cats, embeds);
    DistributeSpec(cats, embeds, provider);
    forall i | 0 <= i < |cats|
      ensures Rankings(Articles(items, vectors, cats), ces, sim)[i]
                == RankCategory(ExpectedScores(items, cats[i], store, provider, sim))
    {
      RankingAt(items, vectors, cats, ces, i, store, provider, sim);
    }
  }

  /** The list of category `i` is the ranking of its expected scores. */
  lemma {:induction false} RankingAt(items: seq<Item>, vectors: seq<Vec>, cats: seq<Category>, ces: seq<CategoryEmbedding>, i: nat,
                  store: Store, provider: Provider, sim: Similarity)
    requires |vectors| == |items| && i < |ces| == |cats|
    requires EmbeddedFrom(cats[i], ces[i], provider)
    requires forall a :: 0 <= a < |items| ==> ArticleEmbedding(store, items[a], provider) == Success(vectors[a])
    requires ArticlesEmbeddable(items, store, provider)
    ensures Rankings(Articles(items, vectors, cats), ces, sim)[i]
              == RankCategory(ExpectedScores(items, cats[i], store, provider, sim))
  {
    var arts := Articles(items, vectors, cats);
    assert Rankings(arts, ces, sim)[i] == RankCategory(Mapped(arts, i, ces[i], sim));
    MappedIsExpected(items, vectors, cats, i, ces[i], store, provider, sim);
  }
}
