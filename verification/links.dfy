/** Link discovery (`extract_links_from_rss`): for every configured feed, keep
    the links of its entries, or, when the feed parses to no entries, the
    absolute hyperlinks of its HTML, dropping social and video sites.
    Fetching and parsing are not modelled: a feed arrives as the status code
    of its response together with what the feed parser and the HTML parser
    make of its body. */
module Links {
  import opened Text
  import opened Seqs

  /** The feeds consulted, in order. */
  const RssFeeds: seq<string> := ["https://www.energyintel.com/rss-feed"]

  /** Links containing any of these substrings are never kept. */
  const ExcludedDomains: seq<string> :=
    ["facebook.com", "twitter.com", "linkedin.com", "youtube.com", "x.com", "flickr.com"]

  /** One fetched feed: the HTTP status, the `link` of every entry the feed
      parser found (in feed order), and the `href` of every anchor that has
      one (in document order). */
  datatype FeedResponse = FeedResponse(status: int, entryLinks: seq<string>, anchorHrefs: seq<string>)

  /** Some excluded domain occurs somewhere in `link`. */
  predicate IsExcluded(link: string)
  {
    exists d | d in ExcludedDomains :: Contains(link, d)
  }

  /** The test applied to feed-entry links: only the exclusion list. */
  predicate KeepEntryLink(link: string)
  {
    !IsExcluded(link)
  }

  /** The test applied to HTML anchors: the href must also contain "http". */
  predicate KeepAnchorHref(href: string)
  {
    Contains(href, "http") && !IsExcluded(href)
  }

  /** The links one feed contributes. A failed fetch contributes nothing;
      a feed with entries contributes its non-excluded entry links (with no
      "http" test); a feed with no entries falls back to its anchors. */
  function FeedLinks(resp: FeedResponse): (r: seq<string>)
    ensures resp.status != 200 ==> r == []
    ensures forall l | l in r :: !IsExcluded(l)
    ensures resp.status == 200 && |resp.entryLinks| > 0 ==>
              forall l | l in resp.entryLinks :: l in r <==> !IsExcluded(l)
    ensures |resp.entryLinks| > 0 ==> forall l | l in r :: l in resp.entryLinks
    ensures |resp.entryLinks| == 0 ==>
              forall l | l in r :: l in resp.anchorHrefs && Contains(l, "http")
    ensures resp.status == 200 && |resp.entryLinks| == 0 ==>
              forall l | l in resp.anchorHrefs :: l in r <==> Contains(l, "http") && !IsExcluded(l)
  {
    if resp.status != 200 then []
    else if |resp.entryLinks| == 0 then Filter(resp.anchorHrefs, KeepAnchorHref)
    else Filter(resp.entryLinks, KeepEntryLink)
  }

  /** Duplicates are neither removed nor introduced: each link appears in a
      feed's output exactly as often as in the entries (or anchors) it was
      taken from, when it passes the filter, and not at all otherwise. */
  lemma FeedLinksMultiplicity(resp: FeedResponse, l: string)
    ensures resp.status == 200 && |resp.entryLinks| > 0 ==>
              multiset(FeedLinks(resp))[l] == if IsExcluded(l) then 0 else multiset(resp.entryLinks)[l]
    ensures resp.status == 200 && |resp.entryLinks| == 0 ==>
              multiset(FeedLinks(resp))[l] ==
                if Contains(l, "http") && !IsExcluded(l) then multiset(resp.anchorHrefs)[l] else 0
  {
    FilterMultiplicity(resp.entryLinks, KeepEntryLink, l);
    FilterMultiplicity(resp.anchorHrefs, KeepAnchorHref, l);
  }

  /** The links of the given feeds, fetched with `fetch`, concatenated in
      feed order without removing duplicates. */
  function LinksOf(feeds: seq<string>, fetch: string -> FeedResponse): (r: seq<string>)
    ensures forall l | l in r :: !IsExcluded(l)
    ensures forall l | l in r :: exists i | 0 <= i < |feeds| :: l in FeedLinks(fetch(feeds[i]))
    ensures forall i, l | 0 <= i < |feeds| && l in FeedLinks(fetch(feeds[i])) :: l in r
    decreases |feeds|
  {
    if |feeds| == 0 then []
    else
      var rest := LinksOf(feeds[1..], fetch);
      assert forall i | 1 <= i < |feeds| :: feeds[i] == feeds[1..][i - 1];
      FeedLinks(fetch(feeds[0])) + rest
  }

  /** `extract_links_from_rss()` over the configured feeds. */
  function ExtractLinks(fetch: string -> FeedResponse): seq<string>
  {
    LinksOf(RssFeeds, fetch)
  }

  /** Links from several feeds are the per-feed links one after another, in
      feed order. */
  lemma {:induction false} LinksOfConcat(a: seq<string>, b: seq<string>, fetch: string -> FeedResponse)
    ensures LinksOf(a + b, fetch) == LinksOf(a, fetch) + LinksOf(b, fetch)
    decreases |a|
  {
    if |a| == 0 {
      assert a + b == b;
    } else {
      assert (a + b)[1..] == a[1..] + b;
      assert (a + b)[0] == a[0];
      LinksOfConcat(a[1..], b, fetch);
      calc {
        LinksOf(a + b, fetch);
        FeedLinks(fetch(a[0])) + LinksOf(a[1..] + b, fetch);
        FeedLinks(fetch(a[0])) + (LinksOf(a[1..], fetch) + LinksOf(b, fetch));
        LinksOf(a, fetch) + LinksOf(b, fetch);
      }
    }
  }

  /** With the single configured feed, the result is exactly that feed's links. */
  lemma ExtractLinksSingleFeed(fetch: string -> FeedResponse)
    ensures ExtractLinks(fetch) == FeedLinks(fetch(RssFeeds[0]))
  {
    assert RssFeeds[1..] == [];
  }

  /** An ordinary article link is not excluded: each excluded domain except
      "x.com" has a character the link lacks, and the link's only 'x' is
      followed by 'a', not '.'. */
  lemma NotExcludedExample()
    ensures !IsExcluded("http://example.com/a")
  {
    var s := "http://example.com/a";
    NotContainsByChar(s, ExcludedDomains[0], 0);
    NotContainsByChar(s, ExcludedDomains[1], 1);
    NotContainsByChar(s, ExcludedDomains[2], 1);
    NotContainsByChar(s, ExcludedDomains[3], 0);
    NotContainsByChar(s, ExcludedDomains[5], 0);
    forall i | 0 <= i <= |s| - |ExcludedDomains[4]|
      ensures !OccursAt(s, ExcludedDomains[4], i)
    {
      if i == 8 {
        assert s[i..i + 5][1] == 'a';
      } else {
        assert s[i..i + 5][0] != 'x';
      }
    }
  }

  /** The HTML fallback keeps an absolute link and drops a social-site link. */
  lemma FallbackScenario()
    ensures FeedLinks(FeedResponse(200, [], ["http://example.com/a", "https://facebook.com/x"]))
              == ["http://example.com/a"]
  {
    var hrefs := ["http://example.com/a", "https://facebook.com/x"];
    var social := "https://facebook.com/x";
    assert OccursAt(social, "facebook.com", 8);
    assert hrefs[1] == social;
    assert IsExcluded(hrefs[1]) by {
      assert ExcludedDomains[0] in ExcludedDomains;
    }
    assert OccursAt(hrefs[0], "http", 0);
    NotExcludedExample();
    assert KeepAnchorHref(hrefs[0]);
    assert !KeepAnchorHref(hrefs[1]);
    assert hrefs[1..][1..] == [];
    assert Filter(hrefs[1..][1..], KeepAnchorHref) == [];
    assert Filter(hrefs[1..], KeepAnchorHref) == [];
  }

  /** Only the HTML fallback insists on "http": the same relative link is kept
      when it is a feed entry and dropped when it is an anchor. */
  lemma RelativeLinkScenario()
    ensures FeedLinks(FeedResponse(200, ["/oil"], [])) == ["/oil"]
    ensures FeedLinks(FeedResponse(200, [], ["/oil"])) == []
  {
    var s := "/oil";
    NotContainsByChar(s, "http", 0);
    NotContainsByChar(s, ExcludedDomains[0], 0);
    NotContainsByChar(s, ExcludedDomains[1], 0);
    NotContainsByChar(s, ExcludedDomains[2], 2);
    NotContainsByChar(s, ExcludedDomains[3], 0);
    NotContainsByChar(s, ExcludedDomains[4], 0);
    NotContainsByChar(s, ExcludedDomains[5], 0);
    assert ["/oil"][1..] == [];
  }
}
