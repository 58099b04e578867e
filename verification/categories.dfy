/** The per-request category model (src/server.js:259-348): category names,
    subcategories and keywords come from query parameters, each falling back
    to a configured default when absent. */
module Categories {
  import opened Wrappers
  import opened Seqs
  import opened Text

  datatype Subcategory = Subcategory(title: string, description: string, keywords: seq<string>)

  /** `allKeywords` holds the category's own keywords and those of all its
      subcategories, once each. */
  datatype Category = Category(
    name: string,
    subcategories: seq<Subcategory>,
    keywords: seq<string>,
    allKeywords: seq<string>)

  /** The configured fallbacks, one entry per category index. */
  datatype Defaults = Defaults(
    names: seq<string>,
    subcategories: seq<seq<Subcategory>>,
    keywords: seq<seq<string>>)

  /** The query parameters of category `idx`: `category<idx>`,
      every `subcategory<idx>Title`, `subcategory<idx>Desc` and
      `subcategory<idx>Keywords` in order, and `catKeywords<idx>`. */
  datatype Params = Params(
    name: Option<string>,
    titles: seq<string>,
    descs: seq<string>,
    kwParams: seq<string>,
    catKeywords: Option<string>)

  const NoParams := Params(None, [], [], [], None)

  /** The subcategory built from the `j`-th supplied title: a missing
      description becomes `''`, a missing or empty keyword string no
      keywords. */
  function SuppliedSubcategory(p: Params, j: nat): (sub: Subcategory)
    requires j < |p.titles|
    ensures sub.title == p.titles[j]
    ensures sub.description == if j < |p.descs| then p.descs[j] else ""
    ensures j < |p.kwParams| ==> sub.keywords == Tokens(p.kwParams[j])
    ensures j >= |p.kwParams| ==> sub.keywords == []
  {
    var kw := if j < |p.kwParams| && p.kwParams[j] != "" then Tokens(p.kwParams[j]) else [];
    TokensEmpty();
    Subcategory(p.titles[j], if j < |p.descs| then p.descs[j] else "", kw)
  }

  /** One subcategory per supplied title, in order. */
  function SuppliedSubcategories(p: Params): (subs: seq<Subcategory>)
    ensures |subs| == |p.titles|
    ensures forall j :: 0 <= j < |subs| ==> subs[j] == SuppliedSubcategory(p, j)
  {
    seq(|p.titles|, j requires 0 <= j < |p.titles| => SuppliedSubcategory(p, j))
  }

  /** All-or-nothing replacement: without any supplied title the default
      list for the index is used (none if there is no default); otherwise
      exactly one subcategory per supplied title, in order. */
  function ChooseSubcategories(i: nat, p: Params, d: Defaults): (subs: seq<Subcategory>)
    ensures p.titles == [] && i < |d.subcategories| ==> subs == d.subcategories[i]
    ensures p.titles == [] && i >= |d.subcategories| ==> subs == []
    ensures p.titles != [] ==> |subs| == |p.titles|
    ensures p.titles != [] ==> forall j :: 0 <= j < |subs| ==> subs[j] == SuppliedSubcategory(p, j)
  {
    if |p.titles| == 0 then
      if i < |d.subcategories| then d.subcategories[i] else []
    else SuppliedSubcategories(p)
  }

  /** `catKeywords<idx>`, or the default keywords joined with ',' when the
      parameter is absent or empty, tokenised. */
  function ChooseKeywords(i: nat, p: Params, d: Defaults): seq<string>
  {
    var param :=
      if !Present(p.catKeywords) && i < |d.keywords| then Some(Join(d.keywords[i], ','))
      else p.catKeywords;
    if Present(param) then Tokens(param.value) else []
  }

  /** Supplied category keywords are parsed as tokens; absent ones fall back
      to the defaults, which come through the join-and-split round trip
      unchanged as long as they are tokens themselves. */
  lemma ChooseKeywordsSpec(i: nat, p: Params, d: Defaults)
    ensures Present(p.catKeywords) ==> ChooseKeywords(i, p, d) == Tokens(p.catKeywords.value)
    ensures !Present(p.catKeywords) && i >= |d.keywords| ==> ChooseKeywords(i, p, d) == []
    ensures !Present(p.catKeywords) && i < |d.keywords| &&
            (forall j :: 0 <= j < |d.keywords[i]| ==> IsToken(d.keywords[i][j])) ==>
              ChooseKeywords(i, p, d) == d.keywords[i]
  {
    if Present(p.catKeywords) {
      assert ChooseKeywords(i, p, d) == Tokens(p.catKeywords.value);
    } else if i >= |d.keywords| {
      assert ChooseKeywords(i, p, d) == [];
    } else {
      var joined := Join(d.keywords[i], ',');
      assert ChooseKeywords(i, p, d) == if joined != "" then Tokens(joined) else [];
      if forall j :: 0 <= j < |d.keywords[i]| ==> IsToken(d.keywords[i][j]) {
        DefaultKeywords(d.keywords[i]);
      }
    }
  }

  /** Whatever the parameters, the category keywords are tokens. */
  lemma ChooseKeywordsTokens(i: nat, p: Params, d: Defaults)
    ensures forall k :: k in ChooseKeywords(i, p, d) ==> IsToken(k)
  {
    if !Present(p.catKeywords) && i < |d.keywords| {
      TokensSpec(Join(d.keywords[i], ','));
    } else if Present(p.catKeywords) {
      TokensSpec(p.catKeywords.value);
    }
  }

  lemma {:induction false} DefaultKeywords(ks: seq<string>)
    requires forall j :: 0 <= j < |ks| ==> IsToken(ks[j])
    ensures (if Join(ks, ',') != "" then Tokens(Join(ks, ',')) else []) == ks
  {
    var joined := Join(ks, ',');
    TokensJoin(ks);
    assert Tokens(joined) == ks;
    if joined == "" {
      TokensEmpty();
    }
  }

  /** The keyword lists of the subcategories, in order. */
  function SubKeywords(subs: seq<Subcategory>): (r: seq<seq<string>>)
    ensures |r| == |subs|
    ensures forall j :: 0 <= j < |subs| ==> r[j] == subs[j].keywords
  {
    if subs == [] then [] else [subs[0].keywords] + SubKeywords(subs[1..])
  }

  /** `Array.from(new Set([...keywords, ...sub1.keywords, ...]))`. */
  function AllKeywords(keywords: seq<string>, subs: seq<Subcategory>): seq<string>
  {
    Dedup(keywords + Flatten(SubKeywords(subs)))
  }

  /** `allKeywords` has no duplicates, holds every category keyword and every
      subcategory keyword and nothing else, lists them in first-seen order,
      and starts with the category's own keywords. */
  lemma AllKeywordsSpec(keywords: seq<string>, subs: seq<Subcategory>)
    ensures Distinct(AllKeywords(keywords, subs))
    ensures forall k :: k in AllKeywords(keywords, subs) <==> k in keywords + Flatten(SubKeywords(subs))
    ensures forall k :: k in AllKeywords(keywords, subs) <==>
              k in keywords || exists j :: 0 <= j < |subs| && k in subs[j].keywords
    ensures forall i, j :: 0 <= i < j < |AllKeywords(keywords, subs)| ==>
              IndexOf(keywords + Flatten(SubKeywords(subs)), AllKeywords(keywords, subs)[i])
              < IndexOf(keywords + Flatten(SubKeywords(subs)), AllKeywords(keywords, subs)[j])
    ensures |Dedup(keywords)| <= |AllKeywords(keywords, subs)|
    ensures Dedup(keywords) == AllKeywords(keywords, subs)[..|Dedup(keywords)|]
  {
    var flat := Flatten(SubKeywords(subs));
    DedupSpec(keywords + flat);
    FlattenMembers(SubKeywords(subs));
    forall k | k in AllKeywords(keywords, subs) && k !in keywords
      ensures exists j :: 0 <= j < |subs| && k in subs[j].keywords
    {
      assert k in keywords + flat;
      assert k in flat;
      var j :| 0 <= j < |SubKeywords(subs)| && k in SubKeywords(subs)[j];
      assert k in subs[j].keywords;
    }
    forall k, j | 0 <= j < |subs| && k in subs[j].keywords
      ensures k in AllKeywords(keywords, subs)
    {
      assert k in SubKeywords(subs)[j];
      assert k in keywords + flat;
    }
    DedupPrefix(keywords, flat);
  }

  /** Deduplicating a longer list only appends to the deduplicated prefix. */
  lemma {:induction false} DedupPrefix<T>(a: seq<T>, b: seq<T>)
    ensures |Dedup(a)| <= |Dedup(a + b)| && Dedup(a) == Dedup(a + b)[..|Dedup(a)|]
  {
    if b == [] {
      assert a + b == a;
    } else {
      var ab := a + b;
      var init := a + b[..|b| - 1];
      assert ab[..|ab| - 1] == init;
      DedupPrefix(a, b[..|b| - 1]);
    }
  }

  /** One category of the request: index `i` of the defaults, with its
      parameters `p`. */
  function BuildCategory(i: nat, p: Params, d: Defaults): (c: Category)
    requires i < |d.names|
    ensures c.name == if Present(p.name) then p.name.value else d.names[i]
    ensures c.subcategories == ChooseSubcategories(i, p, d)
    ensures c.keywords == ChooseKeywords(i, p, d)
    ensures c.allKeywords == AllKeywords(c.keywords, c.subcategories)
  {
    var name := if Present(p.name) then p.name.value else d.names[i];
    var subs := ChooseSubcategories(i, p, d);
    var keywords := ChooseKeywords(i, p, d);
    Category(name, subs, keywords, AllKeywords(keywords, subs))
  }

  /** The parameters of category index `i`; indices beyond the supplied
      list have none. */
  function ParamsAt(params: seq<Params>, i: nat): Params
  {
    if i < |params| then params[i] else NoParams
  }

  /** `defaultCategories.map(...)`: one category per default name, in order. */
  function BuildCategories(params: seq<Params>, d: Defaults): (cs: seq<Category>)
    ensures |cs| == |d.names|
    ensures forall i :: 0 <= i < |cs| ==> cs[i] == BuildCategory(i, ParamsAt(params, i), d)
  {
    seq(|d.names|, i requires 0 <= i < |d.names| => BuildCategory(i, ParamsAt(params, i), d))
  }

  /** `searchParams.get(`category${idx}`) || def`: a supplied non-empty
      name replaces the default; a missing or empty one falls back to it. */
  lemma SuppliedNameWins(i: nat, p: Params, d: Defaults)
    requires i < |d.names|
    ensures p.name.Some? && p.name.value != "" ==> BuildCategory(i, p, d).name == p.name.value
    ensures p.name.None? || p.name.value == "" ==> BuildCategory(i, p, d).name == d.names[i]
  {
  }

  /** Every category of a request: named by its parameter or its default,
      with token keywords and a duplicate-free `allKeywords` that holds
      exactly its own and its subcategories' keywords. */
  lemma {:induction false} BuildCategoriesSpec(params: seq<Params>, d: Defaults)
    ensures |BuildCategories(params, d)| == |d.names|
    ensures forall i :: 0 <= i < |d.names| ==>
              var c := BuildCategories(params, d)[i];
              (c.name == if i < |params| && params[i].name.Some? && params[i].name.value != ""
                         then params[i].name.value else d.names[i])
              && (forall k :: k in c.keywords ==> IsToken(k))
              && Distinct(c.allKeywords)
              && (forall k :: k in c.allKeywords <==>
                    k in c.keywords || exists j :: 0 <= j < |c.subcategories| && k in c.subcategories[j].keywords)
  {
    forall i | 0 <= i < |d.names|
      ensures var c := BuildCategories(params, d)[i];
              (c.name == if i < |params| && params[i].name.Some? && params[i].name.value != ""
                         then params[i].name.value else d.names[i])
              && (forall k :: k in c.keywords ==> IsToken(k))
              && Distinct(c.allKeywords)
              && (forall k :: k in c.allKeywords <==>
                    k in c.keywords || exists j :: 0 <= j < |c.subcategories| && k in c.subcategories[j].keywords)
    {
      var p := ParamsAt(params, i);
      var c := BuildCategory(i, p, d);
      assert BuildCategories(params, d)[i] == c;
      SuppliedNameWins(i, p, d);
      ChooseKeywordsTokens(i, p, d);
      AllKeywordsSpec(c.keywords, c.subcategories);
    }
  }

  /** The configured defaults of src/server.js:259-301. */
  const DefaultConfig := Defaults(
    ["Newpoint Capital Partners Deals", "Middle market private equity firms acquires"],
    [
      [
        Subcategory(
          "Richards Packaging",
          "News relating the healthcare distribution market particularly related to consumables such as medical devices and supplies, medical spa distribution",
          ["medspa", "healthcare distributor"]),
        Subcategory(
          "Level One Robotics and Controls",
          "Robot and PLC programmers for the industrial automation space. Primarily involved in large automation projects in the automotive space for major OEMs including assembly and component plants in Mexico, Canada and the US. Major customers include Stellantis, GM, Ford, Tesla and Rivian. Particularly relating to new automotive model launches and model refreshes in North America. Additionally doing warehouse automation for symbotic and walmart",
          ["GM", "Stellantis", "symbotic", "Blue Oval City", "Windsor Assembly Plant",
           "Windsor Engine Plant", "Windsor Transmission Plant"]),
        Subcategory(
          "Event Water Solutions",
          "Providing drinking water to event venues across the US and Canada for music festivals and other events",
          ["event water solutions"])
      ],
      [
        Subcategory(
          "Private equity news",
          "news about private equity companies acquiring firms in north america. Focused on middle market or lower middle market firms. Anything relating to private equity firm x acquiring another firm",
          ["acquired", "private equity"])
      ]
    ],
    [["inflation"], ["trade"], ["interest"]])

  /** With no parameters, the first category is the configured one: its
      default name, all three default subcategories and the default keyword
      `inflation`. */
  lemma DefaultFirstCategory()
    ensures var c := BuildCategory(0, NoParams, DefaultConfig);
            c.name == "Newpoint Capital Partners Deals"
            && c.subcategories == DefaultConfig.subcategories[0]
            && c.keywords == ["inflation"]
  {
    var ks := DefaultConfig.keywords[0];
    assert ks == ["inflation"];
    assert IsToken(ks[0]);
    ChooseKeywordsSpec(0, NoParams, DefaultConfig);
  }
}
