// The RSS/Atom crawler (app/Services/Crawlers/RssFeedCrawlerService.php):
// probe five feed paths under the base URL, take the first that answers,
// and read either the RSS channel's items or, when there is no channel,
// the Atom entries (section 4.1.2 of RFC 4287).

module RssCrawler {
  import opened Common
  import opened CrawlerBase

  const Name: string := "RSS Feed Crawler"
  const Priority: int := 80

  /** `supports`: only sources typed "rss". */
  predicate Supports(source: NewsSource)
  {
    source.sourceType == "rss"
  }

  // ---------------------------------------------------------------------
  // Probing the feed paths

  const FeedPaths: seq<string> := ["/feed", "/rss", "/rss.xml", "/feed.xml", "/atom.xml"]

  /** The address probed for one path: the base without trailing slashes, then the path. */
  function FeedUrl(baseUrl: string, path: string): (r: string)
    ensures r == TrimRight(baseUrl, Slash) + path
  {
    TrimRight(baseUrl, Slash) + path
  }

  /** The body of the first address whose fetch does not throw. */
  function FirstFetched(fetch: string -> Catchable<string>, urls: seq<string>): (r: Option<string>)
    decreases |urls|
  {
    if urls == [] then None
    else match fetch(urls[0])
      case Ok(body) => Some(body)
      case Err(_) => FirstFetched(fetch, urls[1..])
  }

  /** The probe answers with the first address that could be fetched, and with nothing when every fetch fails. */
  lemma {:induction false} FirstFetchedIsFirst(fetch: string -> Catchable<string>, urls: seq<string>)
    ensures FirstFetched(fetch, urls).None? <==> forall k :: 0 <= k < |urls| ==> fetch(urls[k]).Err?
    ensures FirstFetched(fetch, urls).Some? ==>
      exists k :: 0 <= k < |urls| && fetch(urls[k]) == Ok(FirstFetched(fetch, urls).value) &&
        forall h :: 0 <= h < k ==> fetch(urls[h]).Err?
    decreases |urls|
  {
    if urls != [] && fetch(urls[0]).Err? {
      FirstFetchedIsFirst(fetch, urls[1..]);
      assert forall k :: 0 < k < |urls| ==> urls[k] == urls[1..][k - 1];
      var r := FirstFetched(fetch, urls);
      if r.Some? {
        var k :| 0 <= k < |urls[1..]| && fetch(urls[1..][k]) == Ok(r.value) &&
          forall h :: 0 <= h < k ==> fetch(urls[1..][h]).Err?;
        assert fetch(urls[k + 1]) == Ok(r.value);
      }
    }
  }

  function FeedUrls(baseUrl: string): (r: seq<string>)
    ensures |r| == |FeedPaths| && forall k :: 0 <= k < |r| ==> r[k] == FeedUrl(baseUrl, FeedPaths[k])
  {
    seq(|FeedPaths|, k requires 0 <= k < |FeedPaths| => FeedUrl(baseUrl, FeedPaths[k]))
  }

  /** The `foreach ($rssPaths as $path)` loop: the first fetch that succeeds ends it. */
  method ProbeFeeds(fetch: string -> Catchable<string>, baseUrl: string) returns (xml: Option<string>)
    ensures xml == FirstFetched(fetch, FeedUrls(baseUrl))
  {
    var urls := FeedUrls(baseUrl);
    xml := None;
    var i := 0;
    assert urls[0..] == urls;
    while i < |FeedPaths|
      invariant 0 <= i <= |FeedPaths|
      invariant FirstFetched(fetch, urls) == FirstFetched(fetch, urls[i..])
    {
      var url := FeedUrl(baseUrl, FeedPaths[i]);
      assert url == urls[i..][0];
      var response := fetch(url);
      if response.Ok? {
        xml := Some(response.value);
        break;
      }
      assert urls[i..][1..] == urls[i + 1..];
      i := i + 1;
    }
    if xml.None? {
      assert urls[i..] == [];
    }
  }

  // ---------------------------------------------------------------------
  // One RSS item, one Atom entry

  /** The article of an RSS `<item>`. */
  function RssItemArticle(formatDate: string -> string, baseUrl: string, item: XmlElement): Article
  {
    CreateArticle(Name,
      XmlChildText(item, "title", "Untitled"),
      XmlChildText(item, "link", baseUrl),
      XmlChildText(item, "description", ""),
      match FirstChild(item, "author") case Some(a) => Some(a.text) case None => None,
      match FirstChild(item, "pubDate") case Some(d) => Some(formatDate(d.text)) case None => None,
      map["feed_type" := MStr("rss"), "guid" := MStr(XmlChildText(item, "guid", ""))])
  }

  /** Defaults of an RSS item: "Untitled", the base URL, "", and null author and date when those children are missing. */
  lemma RssItemDefaults(formatDate: string -> string, baseUrl: string, item: XmlElement)
    ensures var a := RssItemArticle(formatDate, baseUrl, item);
      (FirstChild(item, "title").None? ==> a.title == "Untitled") &&
      (FirstChild(item, "title").Some? ==> a.title == FirstChild(item, "title").value.text) &&
      (FirstChild(item, "link").None? ==> a.url == baseUrl) &&
      (FirstChild(item, "link").Some? ==> a.url == FirstChild(item, "link").value.text) &&
      (FirstChild(item, "description").None? ==> a.content == "") &&
      (a.author.None? <==> FirstChild(item, "author").None?) &&
      (a.publishedAt.None? <==> FirstChild(item, "pubDate").None?) &&
      (FirstChild(item, "pubDate").Some? ==> a.publishedAt == Some(formatDate(FirstChild(item, "pubDate").value.text)))
  {
  }

  /** An RSS item's metadata: feed type "rss", its guid, and the crawler's defaults. */
  lemma RssItemMetadata(formatDate: string -> string, baseUrl: string, item: XmlElement)
    ensures var m := RssItemArticle(formatDate, baseUrl, item).metadata;
      m.Keys == {"feed_type", "guid", "source_type", "crawler"} &&
      m["feed_type"] == MStr("rss") && m["guid"] == MStr(XmlChildText(item, "guid", "")) &&
      m["source_type"] == MStr("website") && m["crawler"] == MStr(Name)
  {
    TwoKeyMetadata(Name, XmlChildText(item, "title", "Untitled"), XmlChildText(item, "link", baseUrl), XmlChildText(item, "description", ""),
      match FirstChild(item, "author") case Some(a) => Some(a.text) case None => None,
      match FirstChild(item, "pubDate") case Some(d) => Some(formatDate(d.text)) case None => None,
      "feed_type", MStr("rss"), "guid", MStr(XmlChildText(item, "guid", "")));
  }

  /** `$entry->link['href'] ?? $base`: the `href` of the first `<link>`, or the base. */
  function EntryLink(entry: XmlElement, baseUrl: string): (r: string)
    ensures FirstChild(entry, "link").None? ==> r == baseUrl
    ensures FirstChild(entry, "link").Some? && "href" in FirstChild(entry, "link").value.attrs ==>
      r == FirstChild(entry, "link").value.attrs["href"]
  {
    match FirstChild(entry, "link")
    case Some(l) => if "href" in l.attrs then l.attrs["href"] else baseUrl
    case None => baseUrl
  }

  /** `isset($entry->author->name)`: the name inside the first `<author>`. */
  function EntryAuthor(entry: XmlElement): (r: Option<string>)
    ensures r.Some? <==> FirstChild(entry, "author").Some? && FirstChild(FirstChild(entry, "author").value, "name").Some?
  {
    match FirstChild(entry, "author")
    case Some(a) => (match FirstChild(a, "name") case Some(n) => Some(n.text) case None => None)
    case None => None
  }

  /** `(string) ($entry->content ?? $entry->summary ?? '')`. */
  function EntryContent(entry: XmlElement): (r: string)
  {
    match FirstChild(entry, "content")
    case Some(c) => c.text
    case None => XmlChildText(entry, "summary", "")
  }

  /** The article of an Atom `<entry>`. */
  function AtomEntryArticle(formatDate: string -> string, baseUrl: string, entry: XmlElement): Article
  {
    CreateArticle(Name,
      XmlChildText(entry, "title", "Untitled"),
      EntryLink(entry, baseUrl),
      EntryContent(entry),
      EntryAuthor(entry),
      match FirstChild(entry, "published") case Some(d) => Some(formatDate(d.text)) case None => None,
      map["feed_type" := MStr("atom"), "id" := MStr(XmlChildText(entry, "id", ""))])
  }

  /** Defaults of an Atom entry; the content prefers `<content>` over `<summary>`. */
  lemma AtomEntryDefaults(formatDate: string -> string, baseUrl: string, entry: XmlElement)
    ensures var a := AtomEntryArticle(formatDate, baseUrl, entry);
      (FirstChild(entry, "title").None? ==> a.title == "Untitled") &&
      (FirstChild(entry, "link").None? ==> a.url == baseUrl) &&
      (FirstChild(entry, "content").Some? ==> a.content == FirstChild(entry, "content").value.text) &&
      (FirstChild(entry, "content").None? && FirstChild(entry, "summary").Some? ==>
        a.content == FirstChild(entry, "summary").value.text) &&
      (FirstChild(entry, "content").None? && FirstChild(entry, "summary").None? ==> a.content == "") &&
      (FirstChild(entry, "author").None? ==> a.author.None?) &&
      (a.publishedAt.None? <==> FirstChild(entry, "published").None?)
  {
  }

  /** An Atom entry's metadata: feed type "atom", its id, and the crawler's defaults. */
  lemma AtomEntryMetadata(formatDate: string -> string, baseUrl: string, entry: XmlElement)
    ensures var m := AtomEntryArticle(formatDate, baseUrl, entry).metadata;
      m.Keys == {"feed_type", "id", "source_type", "crawler"} &&
      m["feed_type"] == MStr("atom") && m["id"] == MStr(XmlChildText(entry, "id", "")) &&
      m["source_type"] == MStr("website") && m["crawler"] == MStr(Name)
  {
    TwoKeyMetadata(Name, XmlChildText(entry, "title", "Untitled"), EntryLink(entry, baseUrl), EntryContent(entry), EntryAuthor(entry),
      match FirstChild(entry, "published") case Some(d) => Some(formatDate(d.text)) case None => None,
      "feed_type", MStr("atom"), "id", MStr(XmlChildText(entry, "id", "")));
  }

  // ---------------------------------------------------------------------
  // The two loops

  function RssItemReader(formatDate: string -> string, baseUrl: string): XmlElement -> Article
  {
    item => RssItemArticle(formatDate, baseUrl, item)
  }

  function AtomEntryReader(formatDate: string -> string, baseUrl: string): XmlElement -> Article
  {
    entry => AtomEntryArticle(formatDate, baseUrl, entry)
  }

  function RssArticles(formatDate: string -> string, baseUrl: string, items: seq<XmlElement>): (r: seq<Article>)
    ensures |r| == |items| && forall k :: 0 <= k < |r| ==> r[k] == RssItemArticle(formatDate, baseUrl, items[k])
  {
    MapSeq(RssItemReader(formatDate, baseUrl), items)
  }

  function AtomArticles(formatDate: string -> string, baseUrl: string, entries: seq<XmlElement>): (r: seq<Article>)
    ensures |r| == |entries| && forall k :: 0 <= k < |r| ==> r[k] == AtomEntryArticle(formatDate, baseUrl, entries[k])
  {
    MapSeq(AtomEntryReader(formatDate, baseUrl), entries)
  }

  method CollectItems(formatDate: string -> string, baseUrl: string, items: seq<XmlElement>)
    returns (articles: seq<Article>)
    ensures articles == RssArticles(formatDate, baseUrl, items)
  {
    ghost var read := RssItemReader(formatDate, baseUrl);
    articles := [];
    for i := 0 to |items|
      invariant articles == MapSeq(read, items[..i])
    {
      articles := articles + [RssItemArticle(formatDate, baseUrl, items[i])];
      MapSeqStep(read, items, i);
    }
    assert items[..|items|] == items;
  }

  method CollectEntries(formatDate: string -> string, baseUrl: string, entries: seq<XmlElement>)
    returns (articles: seq<Article>)
    ensures articles == AtomArticles(formatDate, baseUrl, entries)
  {
    ghost var read := AtomEntryReader(formatDate, baseUrl);
    articles := [];
    for i := 0 to |entries|
      invariant articles == MapSeq(read, entries[..i])
    {
      articles := articles + [AtomEntryArticle(formatDate, baseUrl, entries[i])];
      MapSeqStep(read, entries, i);
    }
    assert entries[..|entries|] == entries;
  }

  // ---------------------------------------------------------------------
  // parseRssFeed and crawl

  const ParseFailure: string := "Failed to parse RSS XML"

  /**
   * `parseRssFeed`: the channel's items when there is a channel, else the
   * entries, else nothing. XML that libxml refuses fails with libxml's own
   * message, or with "Failed to parse RSS XML" once libxml's internal error
   * handling is on.
   */
  function ParseFeedSpec(env: Env, xml: string, baseUrl: string): (r: Catchable<seq<Article>>)
    ensures r.Err? <==> env.parseXml(xml).Err?
    ensures env.parseXml(xml).Err? && env.libxmlInternalErrors ==> r == Err(ParseFailure)
    ensures env.parseXml(xml).Err? && !env.libxmlInternalErrors ==> r == Err(env.parseXml(xml).message)
  {
    match env.parseXml(xml)
    case Err(_) => Err(XmlLoadError(env, xml, ParseFailure))
    case Ok(root) =>
      match FirstChild(root, "channel")
      case Some(channel) => Ok(RssArticles(env.formatDate, baseUrl, ChildrenNamed(channel, "item")))
      case None =>
        if FirstChild(root, "entry").Some? then Ok(AtomArticles(env.formatDate, baseUrl, ChildrenNamed(root, "entry")))
        else Ok([])
  }

  method ParseRssFeed(env: Env, xml: string, baseUrl: string) returns (r: Catchable<seq<Article>>)
    ensures r == ParseFeedSpec(env, xml, baseUrl)
  {
    var root := env.parseXml(xml);
    if root.Err? {
      return Err(XmlLoadError(env, xml, ParseFailure));
    }
    var articles: seq<Article> := [];
    var channel := FirstChild(root.value, "channel");
    if channel.Some? {
      articles := CollectItems(env.formatDate, baseUrl, ChildrenNamed(channel.value, "item"));
    } else if FirstChild(root.value, "entry").Some? {
      articles := CollectEntries(env.formatDate, baseUrl, ChildrenNamed(root.value, "entry"));
    }
    r := Ok(articles);
  }

  function FetchFailure(baseUrl: string): string
  {
    "Failed to fetch RSS feed from " + baseUrl
  }

  /** `crawl`: probe, reject an empty answer, parse. */
  function CrawlSpec(env: Env, source: NewsSource): (r: Catchable<seq<Article>>)
  {
    match FirstFetched(env.fetch, FeedUrls(source.baseUrl))
    case Some(xml) => if Truthy(xml) then ParseFeedSpec(env, xml, source.baseUrl) else Err(FetchFailure(source.baseUrl))
    case None => Err(FetchFailure(source.baseUrl))
  }

  method Crawl(env: Env, source: NewsSource) returns (r: Catchable<seq<Article>>)
    ensures r == CrawlSpec(env, source)
  {
    var xml := ProbeFeeds(env.fetch, source.baseUrl);
    if xml.None? || !Truthy(xml.value) {
      return Err(FetchFailure(source.baseUrl));
    }
    r := ParseRssFeed(env, xml.value, source.baseUrl);
  }

  // ---------------------------------------------------------------------
  // What a crawl guarantees

  /** When every probe throws, the crawl fails with the fetch message. */
  lemma AllProbesFail(env: Env, source: NewsSource)
    requires forall path :: path in FeedPaths ==> env.fetch(FeedUrl(source.baseUrl, path)).Err?
    ensures CrawlSpec(env, source) == Err(FetchFailure(source.baseUrl))
  {
    FirstFetchedIsFirst(env.fetch, FeedUrls(source.baseUrl));
    assert forall k :: 0 <= k < |FeedPaths| ==> FeedPaths[k] in FeedPaths;
  }

  /** The body parsed is that of the first path, in the fixed order, whose fetch succeeds. */
  lemma ParsesFirstAnsweringPath(env: Env, source: NewsSource)
    requires CrawlSpec(env, source).Ok?
    ensures exists k ::
      0 <= k < |FeedPaths| &&
      env.fetch(FeedUrl(source.baseUrl, FeedPaths[k])).Ok? &&
      (forall h :: 0 <= h < k ==> env.fetch(FeedUrl(source.baseUrl, FeedPaths[h])).Err?) &&
      CrawlSpec(env, source) == ParseFeedSpec(env, env.fetch(FeedUrl(source.baseUrl, FeedPaths[k])).value, source.baseUrl)
  {
    FirstFetchedIsFirst(env.fetch, FeedUrls(source.baseUrl));
  }

  /** With a channel there is one rss-tagged article per item, in order. */
  lemma ChannelItemsInOrder(env: Env, xml: string, baseUrl: string)
    requires env.parseXml(xml).Ok? && FirstChild(env.parseXml(xml).value, "channel").Some?
    ensures var items := ChildrenNamed(FirstChild(env.parseXml(xml).value, "channel").value, "item");
      var r := ParseFeedSpec(env, xml, baseUrl);
      r.Ok? && |r.value| == |items| &&
      forall k :: 0 <= k < |items| ==>
        r.value[k] == RssItemArticle(env.formatDate, baseUrl, items[k]) &&
        "feed_type" in r.value[k].metadata && r.value[k].metadata["feed_type"] == MStr("rss")
  {
    var items := ChildrenNamed(FirstChild(env.parseXml(xml).value, "channel").value, "item");
    forall k | 0 <= k < |items|
      ensures "feed_type" in RssItemArticle(env.formatDate, baseUrl, items[k]).metadata
      ensures RssItemArticle(env.formatDate, baseUrl, items[k]).metadata["feed_type"] == MStr("rss")
    {
      RssItemMetadata(env.formatDate, baseUrl, items[k]);
    }
  }

  /** Every article of a feed with a channel is tagged "rss"; without a channel, every article of its entries is tagged "atom". */
  lemma FeedTypeByBranch(env: Env, xml: string, baseUrl: string)
    requires env.parseXml(xml).Ok?
    ensures var root := env.parseXml(xml).value;
      var r := ParseFeedSpec(env, xml, baseUrl).value;
      (FirstChild(root, "channel").Some? ==>
         forall k :: 0 <= k < |r| ==> "feed_type" in r[k].metadata && r[k].metadata["feed_type"] == MStr("rss")) &&
      (FirstChild(root, "channel").None? ==>
         forall k :: 0 <= k < |r| ==> "feed_type" in r[k].metadata && r[k].metadata["feed_type"] == MStr("atom"))
  {
    var root := env.parseXml(xml).value;
    var r := ParseFeedSpec(env, xml, baseUrl).value;
    if FirstChild(root, "channel").Some? {
      ChannelItemsInOrder(env, xml, baseUrl);
    } else if FirstChild(root, "entry").Some? {
      var entries := ChildrenNamed(root, "entry");
      forall k | 0 <= k < |r|
        ensures "feed_type" in r[k].metadata && r[k].metadata["feed_type"] == MStr("atom")
      {
        AtomEntryMetadata(env.formatDate, baseUrl, entries[k]);
      }
    }
  }

  /** A document with neither a channel nor an entry gives no articles and no error. */
  lemma NeitherGivesEmpty(env: Env, xml: string, baseUrl: string)
    requires env.parseXml(xml).Ok?
    requires FirstChild(env.parseXml(xml).value, "channel").None? && FirstChild(env.parseXml(xml).value, "entry").None?
    ensures ParseFeedSpec(env, xml, baseUrl) == Ok([])
  {
  }
}
