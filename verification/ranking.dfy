/** Composite score and three-tier ranking of one category's articles
    (src/server.js:446-477). */
module Ranking {
  import opened Seqs
  import opened Sorting

  /** Articles at or above this composite score form the first tier. */
  const HighComposite: real := 0.8

  /** At most this many articles of the last tier are kept. */
  const RemainingCap: nat := 5

  /** `Math.max(x, ...xs)`. */
  function MaxOf(x: real, xs: seq<real>): (m: real)
    ensures m >= x
    ensures forall i :: 0 <= i < |xs| ==> m >= xs[i]
    ensures m == x || m in xs
    decreases |xs|
  {
    if xs == [] then x
    else
      var m := MaxOf(if xs[0] > x then xs[0] else x, xs[1..]);
      assert forall i :: 1 <= i < |xs| ==> xs[i] == xs[1..][i - 1];
      m
  }

  /** One article scored against one category. `A` is the article type. */
  datatype Scored<A> = Scored(
    item: A,
    similarity: real,
    subSimilarities: seq<real>,
    keywords: seq<string>,
    composite: real)

  /** The `mapped` entry of an article: its composite score is the best of
      the category similarity and the subcategory similarities. */
  function Score<A>(item: A, similarity: real, subSimilarities: seq<real>, keywords: seq<string>): (r: Scored<A>)
    ensures r.item == item && r.similarity == similarity
    ensures r.subSimilarities == subSimilarities && r.keywords == keywords
    ensures r.composite >= similarity
    ensures forall i :: 0 <= i < |subSimilarities| ==> r.composite >= subSimilarities[i]
    ensures r.composite == similarity || r.composite in subSimilarities
    ensures subSimilarities == [] ==> r.composite == similarity
  {
    Scored(item, similarity, subSimilarities, keywords, MaxOf(similarity, subSimilarities))
  }

  predicate IsHigh<A>(r: Scored<A>)
  {
    r.composite >= HighComposite
  }

  predicate IsLow<A>(r: Scored<A>)
  {
    r.composite < HighComposite
  }

  predicate HasHits<A>(r: Scored<A>)
  {
    |r.keywords| > 0
  }

  predicate NoHits<A>(r: Scored<A>)
  {
    |r.keywords| == 0
  }

  /** Tier B membership: below the threshold with a keyword hit. */
  predicate InTierB<A>(r: Scored<A>)
  {
    r.composite < HighComposite && |r.keywords| > 0
  }

  /** Tier C membership: below the threshold without keyword hits. */
  predicate InTierC<A>(r: Scored<A>)
  {
    r.composite < HighComposite && |r.keywords| == 0
  }

  function CompositeKey<A>(r: Scored<A>): real
  {
    r.composite
  }

  function HitCountKey<A>(r: Scored<A>): real
  {
    |r.keywords| as real
  }

  /** `mapped.filter(composite >= 0.8).sort(by composite, descending)`. */
  function TierA<A>(mapped: seq<Scored<A>>): seq<Scored<A>>
  {
    SortDesc(Filter(mapped, IsHigh), CompositeKey)
  }

  /** `others.filter(keywords.length > 0).sort(by hit count, descending)`. */
  function TierB<A>(mapped: seq<Scored<A>>): seq<Scored<A>>
  {
    SortDesc(Filter(Filter(mapped, IsLow), HasHits), HitCountKey)
  }

  /** `others.filter(keywords.length === 0).sort(by composite, descending)
      .slice(0, 5)`. */
  function TierC<A>(mapped: seq<Scored<A>>): seq<Scored<A>>
  {
    Take(SortDesc(Filter(Filter(mapped, IsLow), NoHits), CompositeKey), RemainingCap)
  }

  /** `[...highComposite, ...keywordSorted, ...remaining]`. */
  function RankCategory<A>(mapped: seq<Scored<A>>): seq<Scored<A>>
  {
    TierA(mapped) + TierB(mapped) + TierC(mapped)
  }

  lemma {:induction false} FilterLowHits<A>(s: seq<Scored<A>>)
    ensures Filter(Filter(s, IsLow), HasHits) == Filter(s, InTierB)
    ensures Filter(Filter(s, IsLow), NoHits) == Filter(s, InTierC)
  {
    if s != [] {
      FilterLowHits(s[1..]);
      var x, t := s[0], s[1..];
      var low := Filter(s, IsLow);
      if IsLow(x) {
        assert low == [x] + Filter(t, IsLow);
        assert low[1..] == Filter(t, IsLow);
      } else {
        assert low == Filter(t, IsLow);
      }
    }
  }

  /** Every article is in exactly one of the three tiers. */
  lemma TiersPartition<A>(mapped: seq<Scored<A>>)
    ensures multiset(Filter(mapped, IsHigh)) + multiset(Filter(mapped, InTierB))
            + multiset(Filter(mapped, InTierC)) == multiset(mapped)
  {
    var total := multiset(Filter(mapped, IsHigh)) + multiset(Filter(mapped, InTierB))
                 + multiset(Filter(mapped, InTierC));
    forall x
      ensures total[x] == multiset(mapped)[x]
    {
      FilterCount(mapped, IsHigh, x);
      FilterCount(mapped, InTierB, x);
      FilterCount(mapped, InTierC, x);
      if IsHigh(x) {
        assert !InTierB(x) && !InTierC(x);
      } else if InTierB(x) {
        assert !InTierC(x);
      } else {
        assert InTierC(x);
      }
    }
    MultisetExt(total, multiset(mapped));
  }

  lemma MultisetExt<T>(a: multiset<T>, b: multiset<T>)
    requires forall x :: a[x] == b[x]
    ensures a == b
  {
  }

  /** Elements of an arrangement of `s` satisfy what all of `s` satisfies. */
  lemma ArrangedMembers<A>(r: seq<Scored<A>>, s: seq<Scored<A>>, p: Scored<A> -> bool)
    requires multiset(r) == multiset(s)
    requires forall x :: x in s ==> p(x)
    ensures forall i :: 0 <= i < |r| ==> p(r[i])
  {
    forall i | 0 <= i < |r|
      ensures p(r[i])
    {
      assert r[i] in multiset(r);
    }
  }

  /** A prefix of a sorted sequence is sorted, is part of it, and holds its
      largest elements. */
  lemma TakeSorted<T>(s: seq<T>, n: nat, key: T -> real)
    requires SortedDesc(s, key)
    ensures SortedDesc(Take(s, n), key)
    ensures multiset(Take(s, n)) <= multiset(s)
    ensures forall x, y :: x in Take(s, n) && y in multiset(s) - multiset(Take(s, n)) ==>
              key(x) >= key(y)
  {
    var t := Take(s, n);
    var rest := s[|t|..];
    assert s == t + rest;
    assert multiset(s) == multiset(t) + multiset(rest);
    forall x, y | x in t && y in multiset(s) - multiset(t)
      ensures key(x) >= key(y)
    {
      var i :| 0 <= i < |t| && t[i] == x;
      assert y in multiset(rest);
      var j :| 0 <= j < |rest| && rest[j] == y;
      assert s[i] == x && s[|t| + j] == y;
    }
  }

  /** Tier A: every article with composite at least 0.8, sorted by composite,
      descending, ties in article order. Keeping each composite's articles
      in article order makes the tier a permutation of those articles
      (`StablePermutation`). */
  lemma {:induction false} TierASpec<A>(mapped: seq<Scored<A>>)
    ensures SortedDesc(TierA(mapped), CompositeKey)
    ensures StableFor(TierA(mapped), Filter(mapped, IsHigh), CompositeKey)
    ensures forall i :: 0 <= i < |TierA(mapped)| ==> TierA(mapped)[i].composite >= HighComposite
  {
    var a := Filter(mapped, IsHigh);
    SortDescStable(a, CompositeKey);
    SortDescPermutation(a, CompositeKey);
    FilterMembers(mapped, IsHigh);
    ArrangedMembers(TierA(mapped), a, IsHigh);
  }

  /** Tier B: every article below 0.8 that has keyword hits, sorted by hit
      count, descending, ties in article order. */
  lemma {:induction false} TierBSpec<A>(mapped: seq<Scored<A>>)
    ensures SortedDesc(TierB(mapped), HitCountKey)
    ensures StableFor(TierB(mapped), Filter(mapped, InTierB), HitCountKey)
    ensures forall i :: 0 <= i < |TierB(mapped)| ==> InTierB(TierB(mapped)[i])
  {
    var b := Filter(mapped, InTierB);
    FilterLowHits(mapped);
    SortDescStable(b, HitCountKey);
    SortDescPermutation(b, HitCountKey);
    FilterMembers(mapped, InTierB);
    ArrangedMembers(TierB(mapped), b, InTierB);
  }

  /** Tier C: the first five of the articles below 0.8 without keyword hits,
      once those are sorted by composite, descending, ties in article order.
      Any arrangement with these two properties gives the same five. */
  lemma {:induction false} TierCSpec<A>(mapped: seq<Scored<A>>)
    ensures var c := Filter(mapped, InTierC);
            && |TierC(mapped)| == (if |c| < RemainingCap then |c| else RemainingCap)
            && SortedDesc(TierC(mapped), CompositeKey)
            && multiset(TierC(mapped)) <= multiset(c)
            && (forall i :: 0 <= i < |TierC(mapped)| ==> InTierC(TierC(mapped)[i]))
            && (forall s :: SortedDesc(s, CompositeKey) && StableFor(s, c, CompositeKey) ==>
                  TierC(mapped) == Take(s, RemainingCap))
  {
    var c := Filter(mapped, InTierC);
    var sc := SortDesc(c, CompositeKey);
    FilterLowHits(mapped);
    assert TierC(mapped) == Take(sc, RemainingCap);
    TakeSorted(sc, RemainingCap, CompositeKey);
    SortDescPermutation(c, CompositeKey);
    FilterMembers(mapped, InTierC);
    ArrangedMembers(sc, c, InTierC);
    forall s | SortedDesc(s, CompositeKey) && StableFor(s, c, CompositeKey)
      ensures TierC(mapped) == Take(s, RemainingCap)
    {
      SortDescUnique(c, s, CompositeKey);
    }
  }

  /** The cut keeps the best: no article of the last group that is left out
      scores higher than one that is kept. */
  lemma {:induction false} TierCKeepsTop<A>(mapped: seq<Scored<A>>)
    ensures var c := Filter(mapped, InTierC);
            forall x, y :: x in TierC(mapped) && y in multiset(c) - multiset(TierC(mapped)) ==>
              x.composite >= y.composite
  {
    var c := Filter(mapped, InTierC);
    var sc := SortDesc(c, CompositeKey);
    FilterLowHits(mapped);
    assert TierC(mapped) == Take(sc, RemainingCap);
    TakeSorted(sc, RemainingCap, CompositeKey);
    SortDescPermutation(c, CompositeKey);
  }

  lemma {:induction false} TierBounds<A>(mapped: seq<Scored<A>>)
    ensures |TierA(mapped)| == |Filter(mapped, IsHigh)|
    ensures |TierB(mapped)| == |Filter(mapped, InTierB)|
    ensures var nc := |Filter(mapped, InTierC)|;
            |TierC(mapped)| == if nc < RemainingCap then nc else RemainingCap
    ensures forall i :: 0 <= i < |TierA(mapped)| ==> IsHigh(TierA(mapped)[i])
    ensures forall i :: 0 <= i < |TierB(mapped)| ==> InTierB(TierB(mapped)[i])
    ensures forall i :: 0 <= i < |TierC(mapped)| ==> InTierC(TierC(mapped)[i])
  {
    FilterLowHits(mapped);
    assert |TierA(mapped)| == |Filter(mapped, IsHigh)|;
    assert |TierB(mapped)| == |Filter(mapped, InTierB)|;
    TierASpec(mapped);
    TierBSpec(mapped);
    TierCSpec(mapped);
  }

  /** A category's ranking is tier A, then tier B, then tier C: the
      composite scores split at 0.8 between A and the rest, the keyword hits
      split B from C, and the length is |A| + |B| + min(5, |C|). */
  lemma {:induction false} RankCategorySpec<A>(mapped: seq<Scored<A>>)
    ensures var out := RankCategory(mapped);
            var na := |Filter(mapped, IsHigh)|;
            var nb := |Filter(mapped, InTierB)|;
            var nc := |Filter(mapped, InTierC)|;
            && |out| == na + nb + (if nc < RemainingCap then nc else RemainingCap)
            && (forall i :: 0 <= i < na ==> out[i].composite >= HighComposite)
            && (forall i :: na <= i < |out| ==> out[i].composite < HighComposite)
            && (forall i :: na <= i < na + nb ==> |out[i].keywords| > 0)
            && (forall i :: na + nb <= i < |out| ==> |out[i].keywords| == 0)
            && out[..na] == TierA(mapped)
            && out[na..na + nb] == TierB(mapped)
            && out[na + nb..] == TierC(mapped)
  {
    var ta, tb, tc := TierA(mapped), TierB(mapped), TierC(mapped);
    TierBounds(mapped);
    ConcatParts(ta, tb, tc);
    var out := ta + tb + tc;
    var na, nb := |ta|, |tb|;
    forall i | na <= i < |out|
      ensures out[i].composite < HighComposite
    {
      if i < na + nb {
        assert InTierB(tb[i - na]);
      } else {
        assert InTierC(tc[i - na - nb]);
      }
    }
  }

  lemma ConcatParts<T>(a: seq<T>, b: seq<T>, c: seq<T>)
    ensures (a + b + c)[..|a|] == a
    ensures (a + b + c)[|a|..|a| + |b|] == b
    ensures (a + b + c)[|a| + |b|..] == c
    ensures forall i :: 0 <= i < |a| ==> (a + b + c)[i] == a[i]
    ensures forall i :: |a| <= i < |a| + |b| ==> (a + b + c)[i] == b[i - |a|]
    ensures forall i :: |a| + |b| <= i < |a| + |b| + |c| ==> (a + b + c)[i] == c[i - |a| - |b|]
  {
  }

  /** Composites 0.9, 0.5 (with a keyword hit) and 0.3 (without) come out
      in the order 0, 1, 2: one article per tier. */
  lemma ThreeTierExample<A>(x0: A, x1: A, x2: A)
    ensures var s0 := Scored(x0, 0.9, [], [], 0.9);
            var s1 := Scored(x1, 0.5, [], ["deal"], 0.5);
            var s2 := Scored(x2, 0.3, [], [], 0.3);
            RankCategory([s0, s1, s2]) == [s0, s1, s2]
  {
    var s0 := Scored(x0, 0.9, [], [], 0.9);
    var s1 := Scored(x1, 0.5, [], ["deal"], 0.5);
    var s2 := Scored(x2, 0.3, [], [], 0.3);
    ExampleLow(s0, s1, s2);
    ExampleTierA(s0, s1, s2);
    ExampleTierB(s1, s2);
    ExampleTierC(s1, s2);
  }

  lemma ExampleLow<A>(s0: Scored<A>, s1: Scored<A>, s2: Scored<A>)
    requires IsHigh(s0) && IsLow(s1) && IsLow(s2)
    ensures Filter([s0, s1, s2], IsHigh) == [s0]
    ensures Filter([s0, s1, s2], IsLow) == [s1, s2]
  {
    assert [s0, s1, s2][1..] == [s1, s2] && [s1, s2][1..] == [s2] && [s2][1..] == [];
    assert Filter([s2], IsHigh) == [] && Filter([s2], IsLow) == [s2];
    assert Filter([s1, s2], IsHigh) == [];
    assert Filter([s1, s2], IsLow) == [s1] + [s2] == [s1, s2];
  }

  lemma ExampleTierA<A>(s0: Scored<A>, s1: Scored<A>, s2: Scored<A>)
    requires Filter([s0, s1, s2], IsHigh) == [s0]
    ensures TierA([s0, s1, s2]) == [s0]
  {
    SortSingle(s0, CompositeKey);
  }

  lemma {:induction false} ExampleTierB<A>(s1: Scored<A>, s2: Scored<A>)
    requires HasHits(s1) && NoHits(s2)
    ensures Filter([s1, s2], HasHits) == [s1]
    ensures SortDesc(Filter([s1, s2], HasHits), HitCountKey) == [s1]
  {
    assert [s1, s2][1..] == [s2] && [s2][1..] == [];
    assert Filter([s2], HasHits) == [];
    SortSingle(s1, HitCountKey);
  }

  lemma {:induction false} ExampleTierC<A>(s1: Scored<A>, s2: Scored<A>)
    requires HasHits(s1) && NoHits(s2)
    ensures Filter([s1, s2], NoHits) == [s2]
    ensures Take(SortDesc(Filter([s1, s2], NoHits), CompositeKey), RemainingCap) == [s2]
  {
    assert [s1, s2][1..] == [s2] && [s2][1..] == [];
    assert Filter([s2], NoHits) == [s2];
    SortSingle(s2, CompositeKey);
  }

  lemma SortSingle<T>(x: T, key: T -> real)
    ensures SortDesc([x], key) == [x]
  {
    assert [x][..0] == [];
  }
}
