/** Collecting the items of the fetched feeds and reading the fields the
    ranking needs (src/server.js:350-413). Fetching and XML parsing are not
    part of this model: a feed arrives as its parsed item list, or `None`
    when the fetch failed or the document has no `rss.channel[0].item`. */
module Feeds {
  import opened Wrappers
  import opened Seqs

  /** At most this many items are taken from each feed. */
  const ItemsPerFeed: nat := 50

  /** A parsed RSS item: the first value of each element, `None` when the
      element is absent. */
  datatype Item = Item(
    title: string,
    description: Option<string>,
    link: string,
    mediaUrl: Option<string>,
    enclosureUrl: Option<string>,
    pubDate: Option<string>,
    published: Option<string>,
    dcDate: Option<string>)

  /** What one feed contributes: its first 50 items, or none. */
  function FeedItems(feed: Option<seq<Item>>): (r: seq<Item>)
    ensures feed.None? ==> r == []
    ensures feed.Some? ==> |r| == (if |feed.value| < ItemsPerFeed then |feed.value| else ItemsPerFeed)
    ensures feed.Some? ==> r == feed.value[..|r|]
  {
    if feed.None? then [] else Take(feed.value, ItemsPerFeed)
  }

  /** The items of all feeds, feed by feed. */
  function Collected(feeds: seq<Option<seq<Item>>>): seq<Item>
  {
    if feeds == [] then [] else FeedItems(feeds[0]) + Collected(feeds[1..])
  }

  /** Collecting distributes over a list of feeds: each feed's items follow
      those of the feeds before it. */
  lemma {:induction false} CollectedAppend(a: seq<Option<seq<Item>>>, b: seq<Option<seq<Item>>>)
    ensures Collected(a + b) == Collected(a) + Collected(b)
  {
    if a == [] {
      assert a + b == b;
    } else {
      assert (a + b)[1..] == a[1..] + b;
      CollectedAppend(a[1..], b);
    }
  }

  /** No more than 50 items per feed, and nothing at all exactly when no
      feed contributes an item. */
  lemma {:induction false} CollectedBounds(feeds: seq<Option<seq<Item>>>)
    ensures |Collected(feeds)| <= ItemsPerFeed * |feeds|
    ensures Collected(feeds) == [] <==> forall i :: 0 <= i < |feeds| ==> FeedItems(feeds[i]) == []
  {
    if feeds != [] {
      CollectedBounds(feeds[1..]);
      if Collected(feeds) != [] {
        if FeedItems(feeds[0]) == [] {
          var i :| 0 <= i < |feeds[1..]| && FeedItems(feeds[1..][i]) != [];
          assert FeedItems(feeds[i + 1]) != [];
        }
      } else {
        forall i | 0 <= i < |feeds|
          ensures FeedItems(feeds[i]) == []
        {
          if i > 0 {
            assert feeds[i] == feeds[1..][i - 1];
          }
        }
      }
    }
  }

  /** The collection step of a report request: the request fails with 'No
      articles from feeds' when no feed yields an item. */
  function CollectItems(feeds: seq<Option<seq<Item>>>): (r: Result<seq<Item>>)
    ensures r.Failure? <==> forall i :: 0 <= i < |feeds| ==> FeedItems(feeds[i]) == []
    ensures r.Failure? ==> r.error == "No articles from feeds"
    ensures r.Success? ==> r.value == Collected(feeds) && |r.value| <= ItemsPerFeed * |feeds|
  {
    CollectedBounds(feeds);
    var items := Collected(feeds);
    if |items| == 0 then Failure("No articles from feeds") else Success(items)
  }

  /** The text that is embedded and searched for keywords:
      `${title}\n\n${description}`, with a missing description empty. */
  function ArticleText(item: Item): (text: string)
    ensures text != ""
  {
    item.title + "\n\n" + item.description.GetOr("")
  }

  /** The first candidate that is present and non-empty, or `''` when there
      is none. */
  function FirstPresent(candidates: seq<Option<string>>): (r: string)
  {
    if candidates == [] then ""
    else if Present(candidates[0]) then candidates[0].value
    else FirstPresent(candidates[1..])
  }

  /** `FirstPresent` picks the earliest usable candidate. */
  lemma {:induction false} FirstPresentSpec(candidates: seq<Option<string>>)
    ensures FirstPresent(candidates) == "" <==>
              forall i :: 0 <= i < |candidates| ==> !Present(candidates[i])
    ensures FirstPresent(candidates) != "" ==>
              exists i :: 0 <= i < |candidates| && Present(candidates[i])
                && candidates[i].value == FirstPresent(candidates)
                && forall j :: 0 <= j < i ==> !Present(candidates[j])
  {
    if candidates != [] && !Present(candidates[0]) {
      var tail := candidates[1..];
      FirstPresentSpec(tail);
      if FirstPresent(candidates) != "" {
        var i :| 0 <= i < |tail| && Present(tail[i])
          && tail[i].value == FirstPresent(tail)
          && forall j :: 0 <= j < i ==> !Present(tail[j]);
        assert Present(candidates[i + 1]);
        assert forall j :: 0 <= j < i + 1 ==> !Present(candidates[j]) by {
          forall j | 0 <= j < i + 1
            ensures !Present(candidates[j])
          {
            if j > 0 {
              assert candidates[j] == tail[j - 1];
            }
          }
        }
      } else {
        forall i | 0 <= i < |candidates|
          ensures !Present(candidates[i])
        {
          if i > 0 {
            assert candidates[i] == tail[i - 1];
          }
        }
      }
    } else if candidates != [] {
      assert Present(candidates[0]);
    }
  }

  /** The image of an item: `media:content` url, else `enclosure` url, else
      `''`. */
  function ImageUrl(item: Item): (url: string)
    ensures Present(item.mediaUrl) ==> url == item.mediaUrl.value
    ensures !Present(item.mediaUrl) && Present(item.enclosureUrl) ==> url == item.enclosureUrl.value
    ensures !Present(item.mediaUrl) && !Present(item.enclosureUrl) ==> url == ""
  {
    var chain := [item.mediaUrl, item.enclosureUrl];
    assert chain[1..] == [item.enclosureUrl];
    assert FirstPresent(chain[1..]) == if Present(item.enclosureUrl) then item.enclosureUrl.value else "" by {
      assert chain[1..][1..] == [];
    }
    FirstPresent(chain)
  }

  /** The publication date string of an item: `pubDate`, else `published`,
      else `dc:date`, else `''`. */
  function PublishedText(item: Item): (date: string)
    ensures Present(item.pubDate) ==> date == item.pubDate.value
    ensures !Present(item.pubDate) && Present(item.published) ==> date == item.published.value
    ensures !Present(item.pubDate) && !Present(item.published) && Present(item.dcDate) ==>
              date == item.dcDate.value
    ensures !Present(item.pubDate) && !Present(item.published) && !Present(item.dcDate) ==> date == ""
  {
    var chain := [item.pubDate, item.published, item.dcDate];
    var rest := chain[1..];
    assert rest == [item.published, item.dcDate];
    assert FirstPresent(rest[1..]) == if Present(item.dcDate) then item.dcDate.value else "" by {
      assert rest[1..] == [item.dcDate];
      assert rest[1..][1..] == [];
    }
    assert FirstPresent(rest) == if Present(item.published) then item.published.value else FirstPresent(rest[1..]);
    FirstPresent(chain)
  }
}
