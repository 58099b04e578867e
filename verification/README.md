# Dealwatch core, modelled in Dafny

Dealwatch is a small Node.js server. It collects articles from RSS feeds
and ranks them against user-defined categories: each category has a name,
subcategories and keywords. An article is scored by the cosine similarity
of its embedding vector to the vectors of the category texts, and by the
category keywords its text mentions. This project models the logic of that
core as pure Dafny functions and proves what it promises:

- **Keyword filter** (`Keywords`): case-insensitive keyword matching.
- **Semantic filter** (`Semantic`): the optional similarity of two vectors.
- **Filter manager** (`Filters`): combines the two filters into reasons for
  keeping an article.
- **Categories** (`Categories`): the per-request categories, built from
  query parameters with fallbacks to the configured defaults, and their
  deduplicated keyword lists.
- **Feed collection** (`Feeds`): at most 50 items per feed, the "No
  articles from feeds" error, and the image and date fallbacks of an item.
- **Embedding cache** (`EmbeddingCache`): a stored vector is used as is;
  otherwise the provider is asked and the answer is saved with
  insert-or-ignore semantics.
- **Report request** (`Report`): category embeddings handed out in text
  order, article embeddings through the cache, and per-category keyword
  matches.
- **Ranking** (`Ranking`, `Sorting`): the composite score and the three
  tiers. The first tier holds composite >= 0.8, sorted by composite. The
  second holds keyword hits, sorted by hit count. The third holds the rest,
  sorted by composite and cut to five. Every sort is a stable descending
  sort.
- **Experiment search** (`Experiment`): evaluate the first 50 rows, sort by
  similarity, drop rows whose similarity is below the threshold.
- **`.env` loader** (`EnvFile`, `EnvGrammar`): the line parser, proved
  equal to a positional statement of its regular expression (leading
  white space, key, white space, `=`, then white space, a capture without
  line terminators and white space, with the capture trimmed and
  unquoted), and last-write-wins assignment.
- **`stringToColor`** (`Color`): the string hash and its hue.

Modules follow the source layout: one module per filter file, and one per
concern of `src/server.js` and `index.js`. `Wrappers`, `Seqs` and `Text`
hold the shared `Option`/`Result` types, list operations and string
operations.

Several things are parameters of the model:

- The embedding provider: a function `string -> Result<Vec>`.
- Cosine similarity: an uninterpreted `(Vec, Vec) -> real`.
- The article store: a map from link to row, plus a flag saying whether it
  can be reached.
- The fetched feeds: their parsed item lists, or `None` for a feed that
  failed.

`Promise.all` is modelled sequentially, in input order.

## Model

| member | source | states |
|---|---|---|
| `Keywords.KeywordFilter` | src/filters/keywordFilter.js:1-6 | `matched` holds exactly when there are hits; an empty text has no hits; the hits are the keywords the text mentions ignoring case, in keyword order, each kept as often as it is listed |
| `Keywords.MentionsSpec` | src/filters/keywordFilter.js:3-4 | `lower.includes(k.toLowerCase())` holds exactly when the keyword occurs at some position of the text with letters compared after ASCII lower-casing |
| `Semantic.SemanticFilter` | src/filters/semanticFilter.js:3-9 | the similarity is `null` exactly when either embedding is missing, and otherwise is the cosine of the article vector with the query vector |
| `Semantic.EmptyEmbeddingIsPresent` | src/filters/semanticFilter.js:4 | an empty vector counts as present (an array is truthy) and goes to the cosine function |
| `Semantic.MissingEmbeddingExample` | tests/semanticFilter.test.js:10-13 | a missing article embedding gives `null` |
| `Filters.NewFilterManager` | src/filters/filterManager.js:5-9 | omitted keywords become `[]`, the query embedding is kept as given, a missing threshold becomes 0 |
| `Filters.SimilarityReasons` | src/filters/filterManager.js:25-29 | at most one reason, present exactly when the similarity is known and at least the threshold |
| `Filters.KeywordReasons` | src/filters/filterManager.js:31-37 | at most one reason, present exactly when there are keywords and the title mentions one; it carries the keyword filter's hits |
| `Filters.Apply` | src/filters/filterManager.js:16-39 | the similarity is present exactly when a query vector and an article vector exist; the similarity reason exists iff the similarity reaches the threshold; the keyword reason exists iff a keyword is mentioned; a similarity reason comes before a keyword reason |
| `Filters.FooBarExample` | tests/filterManager.test.js:5-17 | 'Foo bar' with vector [1, 0] against keyword 'foo', query [1, 0] and threshold 0.5 gets both reasons and similarity 1 |
| `Text.Split` | src/server.js:318 | `split(',')` gives at least one piece, no piece holds the separator, and joining the pieces gives the input back |
| `Text.SplitJoin` | src/server.js:331-336 | splitting a joined list of separator-free parts gives the parts back |
| `Text.TrimSpec` | src/server.js:319 | `trim()` removes only white space, and only at the two ends |
| `Text.TokensSpec` | src/server.js:334-339 | every keyword token is non-empty, comma-free and trimmed, and the tokens keep the order of the pieces; every piece that is non-empty once trimmed becomes a token, as often as it occurs, and no empty piece does |
| `Text.TokensJoin` | src/server.js:330-339 | joining tokens with ',' and parsing the result again gives the same tokens |
| `Seqs.DedupSpec` | src/server.js:345 | `Array.from(new Set(xs))` keeps exactly the elements of `xs`, without duplicates, in order of first occurrence |
| `Sorting.SortDesc` | src/server.js:463-465 | the comparator sort puts keys in descending order and keeps the input's length |
| `Sorting.SortDescPermutation` | src/server.js:463-465 | the sort is a permutation of its input: it holds each element exactly as often as the input does |
| `Sorting.SortDescStable` | src/server.js:465 | elements with equal keys keep their input order, as the stable `Array.prototype.sort` does |
| `Sorting.StablePermutation` | src/server.js:463-475 | an arrangement that lists the elements of every key exactly as the input does is a permutation of the input, so a stable tier holds exactly its articles |
| `Sorting.SortDescUnique` | src/server.js:465 | any arrangement that is sorted and lists the elements of each key exactly as the input does equals the sort's result, so the sort is fully determined |
| `Sorting.SortThenFilter` | src/server.js:186-189 | filtering the sorted rows gives the same list as sorting the filtered rows |
| `Categories.SuppliedSubcategory` | src/server.js:315-327 | a supplied subcategory keeps its title; a missing description becomes ''; its keywords are the tokens of its keyword parameter, or none when that parameter is missing |
| `Categories.ChooseSubcategories` | src/server.js:311-328 | without supplied titles the category takes the default list for its index, or none; otherwise it has one subcategory per supplied title, in order |
| `Categories.ChooseKeywordsSpec` | src/server.js:330-339 | a present `catKeywords` parameter is tokenised; otherwise default keywords that are already tokens come back unchanged from the join-and-split round trip, and there are none when the index has no default |
| `Categories.ChooseKeywordsTokens` | src/server.js:334-339 | whatever the parameters, every category keyword is a token |
| `Categories.AllKeywordsSpec` | src/server.js:341-345 | `allKeywords` has no duplicates; it holds exactly the category keywords and the subcategory keywords, in first-seen order, starting with the category's own |
| `Categories.BuildCategory` | src/server.js:303-348 | category `i` takes the supplied name when it is present and non-empty, else the default name; its subcategories, keywords and `allKeywords` are those of `ChooseSubcategories`, `ChooseKeywords` and `AllKeywords` |
| `Categories.BuildCategories` | src/server.js:303-348 | one category per default name, in order, each built from the parameters of its index, or from none beyond the supplied list |
| `Categories.SuppliedNameWins` | src/server.js:305 | a supplied non-empty `category<idx>` replaces the default name; a missing or empty one falls back to the default |
| `Categories.BuildCategoriesSpec` | src/server.js:303-348 | every category of a request is named by its non-empty parameter or its default, has only token keywords, and has a duplicate-free `allKeywords` holding exactly its own and its subcategories' keywords |
| `Categories.DefaultFirstCategory` | src/server.js:259-313 | without parameters the first category has its default name, its default subcategories and the keyword 'inflation' |
| `Feeds.FeedItems` | src/server.js:357-366 | a failed feed contributes nothing, and any other feed contributes its first min(50, n) items |
| `Feeds.CollectedAppend` | src/server.js:355-367 | the items of a list of feeds are those of each feed in turn |
| `Feeds.CollectedBounds` | src/server.js:355-367 | there are at most 50 items per feed, and there are none exactly when no feed contributes any |
| `Feeds.CollectItems` | src/server.js:355-371 | the collection fails with 'No articles from feeds' exactly when no feed yields an item, and otherwise returns all items |
| `Feeds.ArticleText` | src/server.js:390 | an article's text is never empty, because the blank-line separator is always there, so keyword matching on it never takes the empty-text exit |
| `Feeds.FirstPresentSpec` | src/server.js:391-408 | a fallback chain picks the earliest present, non-empty candidate, and gives '' exactly when there is none |
| `Feeds.ImageUrl` | src/server.js:391-404 | the image is the `media:content` url, else the `enclosure` url, else '' |
| `Feeds.PublishedText` | src/server.js:405-408 | the date is `pubDate`, else `published`, else `dc:date`, else '' |
| `EmbeddingCache.Lookup` | src/server.js:420-421 | a lookup finds a row exactly when the store is reachable and holds the link, and the row it finds is the one stored for that link; a rejected lookup reads as no row |
| `EmbeddingCache.Save` | src/server.js:427 | a save inserts the vector only for a new link on a reachable store, and leaves every other row and an existing row unchanged |
| `EmbeddingCache.EmbeddingFor` | src/server.js:420-430 | a stored vector is returned without calling the provider; a miss returns the provider's answer; a failed provider call saves nothing; a computed vector is saved; an unreachable store is always a miss |
| `EmbeddingCache.CacheRoundTrip` | src/server.js:420-430 | after a computed embedding is saved for a new link, the next request for that link is a hit with the same vector, whatever the text and provider |
| `EmbeddingCache.SaveKeepsFirst` | src/server.js:427 | with insert-or-ignore, a second save for a link keeps the first vector |
| `EmbeddingCache.EmptyRowStaysEmpty` | src/server.js:423-427 | a stored row without an embedding is never filled in, so every request asks the provider again |
| `Report.CategoryTexts` | src/server.js:374-378 | a category contributes its name, then `title\n\ndescription` for each subcategory |
| `Report.EmbedAll` | src/server.js:381 | `Promise.all` over the texts fails exactly when some text fails; otherwise it returns one vector per text, in order |
| `Report.DistributeSpec` | src/server.js:383-387 | the `embeds[pos++]` hand-out gives every category the vectors of its own name and subcategory texts |
| `Report.EmbeddingTextsSucceed` | src/server.js:373-381 | every category text can be embedded exactly when every category name and every subcategory text can |
| `Report.KeywordMatchesAgree` | src/server.js:415-418 | the inline keyword matching of the report gives, per category, the same hits as `keywordFilter` on the article text |
| `Report.EmbedArticles` | src/server.js:389-444 | the article vectors fail exactly when some article has no cached vector and the provider fails for it; otherwise each article gets its cached or computed vector, in order |
| `Report.SingleArticleRequest` | src/server.js:420-430 | a request for one article gives the same vector or failure, and the same store afterwards, as the cache policy `EmbeddingFor` on the store it starts from |
| `Report.RequestRoundTrip` | src/server.js:420-430 | an article whose vector one request computed for a new link is a hit in the next request for that link, whatever its text and the provider: the vector comes back and the store is unchanged |
| `EnvGrammar.LineValueIff` | index.js:10-12 | the parser's value step accepts `v` exactly when the text after `=` is white space, a capture without line terminators and white space, and `v` is the capture trimmed and unquoted |
| `Report.EmbedArticlesStore` | src/server.js:420-430 | after a successful request against a reachable store, every article link has a row, and no row that existed before has changed; a link that was not stored gets a row holding a vector, namely the vector computed for the first article with that link |
| `Report.RankRequestSpec` | src/server.js:350-478 | no feed items fail the request with 'No articles from feeds'; otherwise it succeeds exactly when every category text and every article can be embedded, and each category's list is the three-tier ranking of every article scored from the inputs |
| `Ranking.MaxOf` | src/server.js:450-453 | `Math.max` returns one of its arguments, and it is at least every argument |
| `Ranking.Score` | src/server.js:447-460 | the composite is the largest of the category similarity and the subcategory similarities; without subcategories it is the category similarity |
| `Ranking.TiersPartition` | src/server.js:463-475 | every scored article is in exactly one of the three tiers |
| `Ranking.TierASpec` | src/server.js:463-465 | the first tier is every article with composite >= 0.8, sorted by composite, descending, ties in input order |
| `Ranking.TierBSpec` | src/server.js:467-470 | the second tier is every article below 0.8 with keyword hits, sorted by hit count, descending, ties in input order |
| `Ranking.TierCSpec` | src/server.js:472-475 | the third tier is the first min(5, n) of the remaining articles, sorted by composite, descending, ties in input order |
| `Ranking.TierCKeepsTop` | src/server.js:472-475 | no remaining article that is cut scores above one that is kept |
| `Ranking.RankCategorySpec` | src/server.js:463-477 | a category's list is tier A, then B, then C: composites >= 0.8 first, then articles with hits, then those without, with length |A| + |B| + min(5, |C|) |
| `Ranking.ThreeTierExample` | src/server.js:463-477 | composites 0.9, 0.5 with one hit and 0.3 without hits rank in that order |
| `Experiment.Evaluate` | src/server.js:174-184 | a row's id is its own non-zero id, else its position + 1; its similarity is the filter manager's; `match` holds exactly when a keyword is mentioned in the title |
| `Experiment.KeepPassing` | src/server.js:187-189 | the kept rows are the sorted rows whose similarity is `null` or at least the threshold, each as often as before, still sorted |
| `Experiment.ProcessRows` | src/server.js:164-193 | `total` is min(50, rows); `filtered` is the number of results and at most `total`; the results are sorted by similarity and all pass the threshold |
| `Experiment.ProcessRowsSpec` | src/server.js:174-189 | the results are exactly the evaluated rows that pass the threshold, in the order a stable sort by similarity gives them |
| `Experiment.NoQueryKeepsAll` | src/server.js:186-198 | without a query text no row has a similarity, so `filtered` equals `total` |
| `Experiment.FeedRows` | src/server.js:209-243 | a feed row is numbered from 1 and carries the item's title and link; it has a vector exactly when the provider embeds its text |
| `Experiment.SourceRows` | src/server.js:209-256 | the rows are the stored articles, or the rows of the fetched feed; a failed fetch or read fails the search |
| `Experiment.Search` | src/server.js:155-256 | a failure to get the rows fails the search; an empty text searches without a query vector; otherwise the search fails exactly when the text cannot be embedded, and else uses its vector |
| `EnvFile.SplitLines` | index.js:9 | `split(/\r?\n/)` gives one line per line feed plus one; no line holds a line feed; each line but the last is the text between line feeds, minus the carriage return before the feed exactly when there is one; the last line is the text after the last feed, unchanged |
| `EnvFile.Unquote` | index.js:12-15 | one pair of matching double or single quotes is stripped; a lone quote becomes ''; anything else is kept |
| `EnvGrammar.ParseLineIff` | index.js:10-15 | a line assigns value `v` to key `k` exactly when it is leading white space, a key of `[\w.-]`, white space and `=`, followed by white space, a capture without line terminators and white space to the end, where `v` is the capture trimmed and unquoted |
| `EnvGrammar.ParseLineSound` | index.js:10-11 | every line the parser accepts has the grammar's shape, with the key and value the parser returns |
| `EnvGrammar.ParseLineComplete` | index.js:10-15 | every line of the grammar's shape is accepted, with that key and value |
| `EnvFile.ApplyAllSpec` | index.js:9-18 | a key takes the value of the last line that assigns it, and a key no line assigns keeps its old value or stays absent |
| `EnvFile.LastValueSpec` | index.js:16 | the value that wins comes from a line that assigns the key, and no later line assigns it |
| `EnvFile.LoadEnv` | index.js:7-21 | a missing or unreadable file leaves the environment unchanged |
| `EnvFile.LoadEnvSpec` | index.js:8-18 | after loading a file, a key gets the value of the last line that assigns it; a key no line assigns keeps its old value or stays absent |
| `Color.ToInt32` | src/server.js:39 | the 32-bit result of `<<` is in [-2^31, 2^31) and congruent to the exact value modulo 2^32 |
| `Color.HashBound` | src/server.js:37-40 | each code unit moves the hash by at most 2^31 + 0xFFFF, so for strings of up to about four million code units every intermediate value is an integer a double holds exactly |
| `Color.HashLeavesInt32` | src/server.js:37-40 | the hash is not wrapped to 32 bits: seven 'a's give 3058106369 |
| `Color.HueOf` | src/server.js:41 | the hue is in [0, 360) and differs from the magnitude of the hash by whole turns |
| `Color.StringToColor` | src/server.js:41-42 | the colour's hue is `HueOf` of the string's hash, so below 360 and a whole number of turns from the hash's magnitude; saturation 70% and lightness 80% |
| `Color.DecimalRoundTrip` | src/server.js:42 | printing the hue in decimal loses nothing |

## Left out

- Cosine similarity, `Math.max` on NaN, and all floating-point behaviour:
  similarity is an uninterpreted function on vectors of reals.
- A threshold that `parseFloat` makes NaN: the model takes the threshold
  as a real. With NaN, every comparison is false and only rows without a
  similarity would pass.
- `JSON.parse` of a stored or article embedding string: embeddings are
  vectors from the start.
- Lower-casing is ASCII only: `toLowerCase` on other letters is not
  modelled.
- `stringToColor` takes UTF-16 code units. How a JavaScript string is
  encoded into them is not modelled.
- HTTP routing, HTML rendering, response headers and JSON bodies.
- The 500 error body `{ error: err.message }`.
- Fetching and XML-parsing feeds (`fetchRSS`): a feed arrives as its parsed
  item list, or `None`. Choosing the feed URLs (the `feed` parameters, else
  the default list) is outside the model for the same reason.
- The `pubIso` date conversion with `new Date()`: it reads the clock and
  parses dates. The article's title and description are read as strings,
  and a missing `description` becomes ''.
- Malformed feed items: an item is read as a title string, an optional
  description and a link. In the source an item with no `title` or no
  `link` key makes `it.title[0]` or `it.link[0]` throw, which rejects the
  chain and answers 500; an empty `title` or `description` array puts the
  text "undefined" into the article text. A non-empty `media:content` or
  `enclosure` entry without attributes (xml2js then gives a plain string,
  so `.$` is undefined) makes `.$.url` throw at src/server.js:392-402,
  which also answers 500. The model has none of these cases: the image
  URLs are read as optional strings.
- Reasons are data, not strings. `toFixed(2)` formatting of the similarity
  reason and the `keywords: a, b` text are not modelled. `Experiment`
  uses only whether a keyword reason exists, which is what
  `startsWith('keywords')` tells.
- The article store is modelled by the contract the report request relies
  on: lookup by link and an insert-or-ignore save. Only that meaning
  matches src/database.js; its synchronous lookup, its already parsed
  embedding and its two-argument `saveArticle` do not fit the calls in
  src/server.js either. The module src/server.js imports
  (src/db.js) exports neither `getArticleByLink` nor a `saveArticle` that
  takes a vector. As wired, the call would throw and fail the request.
- Which save lands first when the saves of one request race: article
  lookups all see the store as it was at the start of the request, and
  saves are applied in item order.
- The store after a failed request: `RankRequest` returns no store on
  failure, although saves made before the failure would persist.
- Skipping an article whose embedding fails is not modelled: in
  src/server.js the rejection reaches `Promise.all` and fails the whole
  request; `Report.EmbedArticles` follows that.
- Which error message a failed `Promise.all` reports when several texts
  fail: the model reports the first in text order.
- `Color.Css`: the `hsl(...)` text is built from the proved decimal digits
  but carries no contract of its own.
- The concrete example of tests/keywordFilter.test.js ('Hello World'
  mentions 'world' but not 'foo') is not restated as a lemma. The general
  characterisation `Keywords.MentionsSpec` covers it.
