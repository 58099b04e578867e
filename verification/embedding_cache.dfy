/** The per-article embedding cache of a report request
    (src/server.js:420-430): a stored row with an embedding is used as is;
    otherwise the embedding provider is asked and its answer is saved,
    insert-or-ignore, with a failing save swallowed. The store is an abstract
    map from article link to row; the provider is an oracle. */
module EmbeddingCache {
  import opened Wrappers
  import opened Semantic

  /** A stored article row; `embedding` is `None` when the stored column is
      empty. */
  datatype Row = Row(embedding: Option<Vec>)

  /** The article store. When `available` is false every call into it
      rejects: lookups and saves both fail. */
  datatype Store = Store(rows: map<string, Row>, available: bool)

  /** The embedding provider: a vector for a text, or an error. */
  type Provider = string -> Result<Vec>

  /** `getArticleByLink(link).catch(() => null)`: a rejected lookup reads as
      "no row". */
  function Lookup(store: Store, link: string): (row: Option<Row>)
    ensures row.Some? <==> store.available && link in store.rows
    ensures row.Some? ==> row.value == store.rows[link]
  {
    if store.available && link in store.rows then Some(store.rows[link]) else None
  }

  /** `saveArticle(...).catch(() => {})`: an insert that leaves an existing
      row for the same link untouched, and whose failure is ignored. */
  function Save(store: Store, link: string, embedding: Vec): (r: Store)
    ensures r.available == store.available
    ensures link in store.rows ==> r == store
    ensures !store.available ==> r == store
    ensures store.available && link !in store.rows ==>
              link in r.rows && r.rows[link] == Row(Some(embedding))
    ensures forall l :: l != link ==> (l in r.rows <==> l in store.rows)
    ensures forall l :: l != link && l in store.rows ==> r.rows[l] == store.rows[l]
  {
    if store.available && link !in store.rows
    then store.(rows := store.rows[link := Row(Some(embedding))])
    else store
  }

  /** The stored vector a looked-up row offers, if any. */
  function Stored(row: Option<Row>): (v: Option<Vec>)
    ensures v.Some? <==> row.Some? && row.value.embedding.Some?
  {
    if row.Some? then row.value.embedding else None
  }

  /** The embedding an article gets from its looked-up row, and whether the
      provider had to be asked for it. */
  datatype Resolved = Resolved(embedding: Result<Vec>, computed: bool)

  function Resolve(row: Option<Row>, text: string, provider: Provider): (r: Resolved)
    ensures Stored(row).Some? ==> r == Resolved(Success(Stored(row).value), false)
    ensures Stored(row).None? ==> r == Resolved(provider(text), true)
  {
    match Stored(row)
    case Some(v) => Resolved(Success(v), false)
    case None => Resolved(provider(text), true)
  }

  /** One article on its own: the embedding, the store afterwards and
      whether the provider was called. */
  datatype Outcome = Outcome(embedding: Result<Vec>, store: Store, providerCalled: bool)

  function EmbeddingFor(store: Store, link: string, text: string, provider: Provider): (o: Outcome)
    // a cache hit bypasses the provider and leaves the store alone
    ensures Stored(Lookup(store, link)).Some? ==>
              o == Outcome(Success(Stored(Lookup(store, link)).value), store, false)
    // a miss returns whatever the provider returns
    ensures Stored(Lookup(store, link)).None? ==> o.providerCalled && o.embedding == provider(text)
    // a failed provider call saves nothing
    ensures o.embedding.Failure? ==> o.store == store
    // a computed embedding is offered to the store
    ensures o.providerCalled && o.embedding.Success? ==> o.store == Save(store, link, o.embedding.value)
    // an unreachable store is a miss
    ensures !store.available ==> o.providerCalled && o.store == store
  {
    var r := Resolve(Lookup(store, link), text, provider);
    if r.computed && r.embedding.Success?
    then Outcome(r.embedding, Save(store, link, r.embedding.value), true)
    else Outcome(r.embedding, store, r.computed)
  }

  /** Computing an embedding for a link the store did not know makes the
      next request for that link a hit that returns the same vector,
      whatever the text and the provider are then. */
  lemma CacheRoundTrip(store: Store, link: string, text: string, provider: Provider,
                       text2: string, provider2: Provider)
    requires store.available && link !in store.rows
    requires provider(text).Success?
    ensures var first := EmbeddingFor(store, link, text, provider);
            first.providerCalled && first.embedding == provider(text) &&
            EmbeddingFor(first.store, link, text2, provider2) == Outcome(provider(text), first.store, false)
  {
  }

  /** Insert-or-ignore: a second save for the same link keeps the first. */
  lemma SaveKeepsFirst(store: Store, link: string, e1: Vec, e2: Vec)
    ensures Save(Save(store, link, e1), link, e2) == Save(store, link, e1)
  {
  }

  /** A row stored without an embedding is never filled in: the provider is
      asked on every request and the row stays as it was. */
  lemma EmptyRowStaysEmpty(store: Store, link: string, text: string, provider: Provider)
    requires store.available && link in store.rows && store.rows[link].embedding.None?
    ensures var o := EmbeddingFor(store, link, text, provider);
            o.providerCalled && o.store == store &&
            EmbeddingFor(o.store, link, text, provider).providerCalled
  {
  }
}
