/** Case-insensitive keyword matching (src/filters/keywordFilter.js). */
module Keywords {
  import opened Seqs
  import opened Text

  /** `text` mentions `k` when the lower-cased keyword occurs in the
      lower-cased text. */
  predicate Mentions(text: string, k: string)
  {
    Contains(Lower(text), Lower(k))
  }

  datatype KeywordResult = KeywordResult(matched: bool, hits: seq<string>)

  /** `keywordFilter(text, keywords)`: the keywords the text mentions, in
      keyword order; an empty text matches nothing. */
  function KeywordFilter(text: string, keywords: seq<string>): (r: KeywordResult)
    ensures r.matched <==> r.hits != []
    ensures text == "" ==> r.hits == []
    ensures IsSubseq(r.hits, keywords)
    ensures forall k :: k in r.hits <==> text != "" && k in keywords && Mentions(text, k)
    ensures forall k :: multiset(r.hits)[k] ==
                        (if text != "" && Mentions(text, k) then multiset(keywords)[k] else 0)
  {
    if text == "" then KeywordResult(false, [])
    else
      var hits := Filter(keywords, (k: string) => Mentions(text, k));
      FilterSpec(keywords, (k: string) => Mentions(text, k));
      KeywordResult(|hits| > 0, hits)
  }

  /** `k` occurs in `text` at position `i`, letters compared without
      regard to case. */
  predicate MatchesAt(text: string, k: string, i: int)
  {
    0 <= i <= |text| - |k| && forall j :: 0 <= j < |k| ==> LowerChar(text[i + j]) == LowerChar(k[j])
  }

  /** A positional reading of `Mentions`: the keyword is mentioned exactly
      when it occurs somewhere in the text up to the case of its letters. */
  lemma {:induction false} MentionsSpec(text: string, k: string)
    ensures Mentions(text, k) <==> exists i :: MatchesAt(text, k, i)
  {
    var lt, lk := Lower(text), Lower(k);
    ContainsAt(lt, lk);
    if Mentions(text, k) {
      var i :| OccursAt(lt, lk, i);
      forall j | 0 <= j < |k|
        ensures LowerChar(text[i + j]) == LowerChar(k[j])
      {
        assert lt[i..i + |k|][j] == lt[i + j];
      }
      assert MatchesAt(text, k, i);
    }
    if exists i :: MatchesAt(text, k, i) {
      var i :| MatchesAt(text, k, i);
      assert lt[i..i + |k|] == lk;
      assert OccursAt(lt, lk, i);
    }
  }
}
