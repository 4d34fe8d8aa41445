// The BBC crawler (app/Services/Crawlers/BbcNewsCrawlerService.php): the
// site's feed first; on any failure there, the home page parsed as HTML,
// which always yields at least one article.

module BbcCrawler {
  import opened Common
  import opened Dom
  import opened CrawlerBase

  const Name: string := "BBC News Crawler"
  const Priority: int := 100

  /** `supports`: the lower-cased base URL mentions bbc.com or bbc.co.uk, whatever the source type. */
  predicate Supports(source: NewsSource)
  {
    Contains(Lower(source.baseUrl), "bbc.com") || Contains(Lower(source.baseUrl), "bbc.co.uk")
  }

  /** The feed address: the base without trailing slashes, then "/feed". */
  function FeedUrl(baseUrl: string): (r: string)
    ensures r == TrimRight(baseUrl, Slash) + "/feed"
  {
    TrimRight(baseUrl, Slash) + "/feed"
  }

  // ---------------------------------------------------------------------
  // parseRssFeed

  const ParseFailure: string := "Failed to parse RSS XML"

  /** The article of a feed `<item>`: no author, and the BBC feed tags. */
  function FeedItemArticle(formatDate: string -> string, baseUrl: string, item: XmlElement): Article
  {
    CreateArticle(Name,
      XmlChildText(item, "title", "Untitled"),
      XmlChildText(item, "link", baseUrl),
      XmlChildText(item, "description", ""),
      None,
      match FirstChild(item, "pubDate") case Some(d) => Some(formatDate(d.text)) case None => None,
      map["feed_type" := MStr("rss"), "source" := MStr("bbc")])
  }

  /** Defaults of a feed item: "Untitled", the base URL, "", no author, and no date without `<pubDate>`. */
  lemma FeedItemDefaults(formatDate: string -> string, baseUrl: string, item: XmlElement)
    ensures var a := FeedItemArticle(formatDate, baseUrl, item);
      (FirstChild(item, "title").None? ==> a.title == "Untitled") &&
      (FirstChild(item, "link").None? ==> a.url == baseUrl) &&
      (FirstChild(item, "link").Some? ==> a.url == FirstChild(item, "link").value.text) &&
      (FirstChild(item, "description").None? ==> a.content == "") &&
      a.author.None? &&
      (a.publishedAt.None? <==> FirstChild(item, "pubDate").None?)
  {
  }

  /** A feed item's metadata: feed type "rss", source "bbc", over the crawler's defaults. */
  lemma FeedItemMetadata(formatDate: string -> string, baseUrl: string, item: XmlElement)
    ensures var m := FeedItemArticle(formatDate, baseUrl, item).metadata;
      m.Keys == {"feed_type", "source", "source_type", "crawler"} &&
      m["feed_type"] == MStr("rss") && m["source"] == MStr("bbc") && m["crawler"] == MStr(Name)
  {
    TwoKeyMetadata(Name, XmlChildText(item, "title", "Untitled"), XmlChildText(item, "link", baseUrl), XmlChildText(item, "description", ""),
      None, match FirstChild(item, "pubDate") case Some(d) => Some(formatDate(d.text)) case None => None,
      "feed_type", MStr("rss"), "source", MStr("bbc"));
  }

  /** `$xmlObj->channel->item ?? []`: the items of the first channel, none without a channel. */
  function FeedItems(root: XmlElement): (r: seq<XmlElement>)
    ensures FirstChild(root, "channel").None? ==> r == []
  {
    match FirstChild(root, "channel")
    case Some(channel) => ChildrenNamed(channel, "item")
    case None => []
  }

  function FeedItemReader(formatDate: string -> string, baseUrl: string): XmlElement -> Article
  {
    item => FeedItemArticle(formatDate, baseUrl, item)
  }

  function FeedArticles(formatDate: string -> string, baseUrl: string, items: seq<XmlElement>): (r: seq<Article>)
    ensures |r| == |items| && forall k :: 0 <= k < |r| ==> r[k] == FeedItemArticle(formatDate, baseUrl, items[k])
  {
    MapSeq(FeedItemReader(formatDate, baseUrl), items)
  }

  /**
   * `parseRssFeed`: one article per item of the channel. XML that libxml
   * refuses fails with libxml's own message, or with "Failed to parse RSS
   * XML" once libxml's internal error handling is on; the crawl catches
   * either and falls back to the website.
   */
  function ParseFeedSpec(env: Env, xml: string, baseUrl: string): (r: Catchable<seq<Article>>)
    ensures r.Err? <==> env.parseXml(xml).Err?
    ensures env.parseXml(xml).Err? && env.libxmlInternalErrors ==> r == Err(ParseFailure)
    ensures env.parseXml(xml).Err? && !env.libxmlInternalErrors ==> r == Err(env.parseXml(xml).message)
  {
    match env.parseXml(xml)
    case Err(_) => Err(XmlLoadError(env, xml, ParseFailure))
    case Ok(root) => Ok(FeedArticles(env.formatDate, baseUrl, FeedItems(root)))
  }

  method ParseRssFeed(env: Env, xml: string, baseUrl: string) returns (r: Catchable<seq<Article>>)
    ensures r == ParseFeedSpec(env, xml, baseUrl)
  {
    var root := env.parseXml(xml);
    if root.Err? {
      return Err(XmlLoadError(env, xml, ParseFailure));
    }
    var articles := CollectItems(env.formatDate, baseUrl, FeedItems(root.value));
    r := Ok(articles);
  }

  /** The `foreach ($items as $item)` loop of `parseRssFeed`. */
  method CollectItems(formatDate: string -> string, baseUrl: string, items: seq<XmlElement>)
    returns (articles: seq<Article>)
    ensures articles == FeedArticles(formatDate, baseUrl, items)
  {
    ghost var read := FeedItemReader(formatDate, baseUrl);
    articles := [];
    for i := 0 to |items|
      invariant articles == MapSeq(read, items[..i])
    {
      articles := articles + [FeedItemArticle(formatDate, baseUrl, items[i])];
      MapSeqStep(read, items, i);
    }
    assert items[..|items|] == items;
  }

  // ---------------------------------------------------------------------
  // parseWebsite

  const CardSelector: string := "article, div[data-testid=\"card\"], div[data-testid=\"story-card\"]"
  const PromoSelector: string := "div.gs-c-promo, div.qa-story"
  const HeadlineSelector: string := "h3, h2, .qa-story-headline, [data-testid=\"card-headline\"]"
  const SummarySelector: string := "p, .qa-story-summary, [data-testid=\"card-description\"]"

  /** The story cards: the first selector's matches, or the second's when it matches nothing. */
  function Cards(doc: Document): (r: seq<Element>)
    ensures |Query(doc, None, CardSelector)| > 0 ==> r == Query(doc, None, CardSelector)
    ensures |Query(doc, None, CardSelector)| == 0 ==> r == Query(doc, None, PromoSelector)
  {
    var cards := Query(doc, None, CardSelector);
    if |cards| > 0 then cards else Query(doc, None, PromoSelector)
  }

  /** One card: skipped when both title and link are empty; the title defaults to "BBC News Article". */
  function CardArticle(doc: Document, baseUrl: string, card: Element): (r: Option<Article>)
  {
    CardFrom(CardTitle(doc, card), LinkUrl(QueryOf(doc), doc, baseUrl, card),
      ExtractText(doc, At(Query(doc, Some(card), SummarySelector), 0)))
  }

  /** The text of the card's first headline element. */
  function CardTitle(doc: Document, card: Element): string
  {
    ExtractText(doc, At(Query(doc, Some(card), HeadlineSelector), 0))
  }

  /** The card article built from its extracted title, link and summary. */
  function CardFrom(title: string, url: string, content: string): Option<Article>
  {
    if !Truthy(title) && !Truthy(url) then None
    else
      Some(CardBuild(if Truthy(title) then title else "BBC News Article", url, content))
  }

  /** The `createArticle` call of a card, with the website tags. */
  function CardBuild(title: string, url: string, content: string): Article
  {
    CreateArticle(Name, title, url, content, None, None,
      map["source" := MStr("bbc"), "parsed_from" := MStr("website")])
  }

  /** A card that gives an article gives it a non-empty title, the card's link and the website tags. */
  lemma CardFromShape(title: string, url: string, content: string)
    ensures CardFrom(title, url, content).None? <==> !Truthy(title) && !Truthy(url)
    ensures CardFrom(title, url, content).Some? ==>
      var a := CardFrom(title, url, content).value;
      Truthy(a.title) && (a.title == title || (!Truthy(title) && a.title == "BBC News Article")) &&
      a.url == url && a.content == content && a.author.None? && a.publishedAt.None? &&
      "source" in a.metadata && a.metadata["source"] == MStr("bbc") &&
      "parsed_from" in a.metadata && a.metadata["parsed_from"] == MStr("website")
  {
  }

  /** A card that gives an article gives it a non-empty title (its headline when there is one) and the card's link. */
  lemma CardArticleShape(doc: Document, baseUrl: string, card: Element)
    requires CardArticle(doc, baseUrl, card).Some?
    ensures var a := CardArticle(doc, baseUrl, card).value;
      var title := CardTitle(doc, card);
      Truthy(a.title) && (a.title == title || (!Truthy(title) && a.title == "BBC News Article")) &&
      a.url == LinkUrl(QueryOf(doc), doc, baseUrl, card) &&
      "source" in a.metadata && a.metadata["source"] == MStr("bbc") &&
      "parsed_from" in a.metadata && a.metadata["parsed_from"] == MStr("website")
  {
    CardFromShape(CardTitle(doc, card), LinkUrl(QueryOf(doc), doc, baseUrl, card),
      ExtractText(doc, At(Query(doc, Some(card), SummarySelector), 0)));
  }

  /** A card is skipped exactly when its title and its link are both empty. */
  lemma CardSkipped(doc: Document, baseUrl: string, card: Element)
    ensures CardArticle(doc, baseUrl, card).None? <==> !Truthy(CardTitle(doc, card)) && !Truthy(LinkUrl(QueryOf(doc), doc, baseUrl, card))
  {
    CardFromShape(CardTitle(doc, card), LinkUrl(QueryOf(doc), doc, baseUrl, card),
      ExtractText(doc, At(Query(doc, Some(card), SummarySelector), 0)));
  }

  function CardReader(doc: Document, baseUrl: string): Element -> Option<Article>
  {
    card => CardArticle(doc, baseUrl, card)
  }

  /** The page-level article used when no card gave one. */
  function FallbackArticle(env: Env, doc: Document, html: string, baseUrl: string): Article
  {
    FallbackFrom(ExtractText(doc, At(Query(doc, None, "title"), 0)), baseUrl, env.stripTags(html))
  }

  /** The fallback built from the page title's text and the page's text without tags. */
  function FallbackFrom(pageTitle: string, baseUrl: string, text: string): Article
  {
    CreateArticle(Name, Elvis(pageTitle, "BBC News"), baseUrl, Prefix(text, 2000), None, None,
      map["source" := MStr("bbc"), "fallback" := MBool(true)])
  }

  /** The fallback sits at the base URL, is flagged, and has a non-empty title and at most 2000 characters of text. */
  lemma FallbackShape(pageTitle: string, baseUrl: string, text: string)
    ensures var a := FallbackFrom(pageTitle, baseUrl, text);
      a.url == baseUrl && Truthy(a.title) && (Truthy(pageTitle) ==> a.title == pageTitle) &&
      a.content == text[..|a.content|] && |a.content| == (if |text| < 2000 then |text| else 2000) &&
      a.metadata["fallback"] == MBool(true) && a.metadata["source"] == MStr("bbc")
  {
  }

  function WebsiteArticles(env: Env, doc: Document, html: string, baseUrl: string): seq<Article>
  {
    var cards := FilterMap(CardReader(doc, baseUrl), Cards(doc));
    if |cards| > 0 then cards else [FallbackArticle(env, doc, html, baseUrl)]
  }

  function ParseWebsiteSpec(env: Env, html: string, baseUrl: string): (r: Catchable<seq<Article>>)
  {
    match ParseHtmlSpec(env.parsers, html)
    case Err(m) => Err(m)
    case Ok(doc) => Ok(WebsiteArticles(env, doc, html, baseUrl))
  }

  /** The body of the `foreach ($articleElements as $articleElement)` loop. */
  method ReadCard(doc: Document, baseUrl: string, card: Element) returns (r: Option<Article>)
    ensures r == CardArticle(doc, baseUrl, card)
  {
    QueryOfAnswers(doc);
    var title := FirstText(QueryOf(doc), doc, Some(card), HeadlineSelector);
    var url := ReadLinkUrl(QueryOf(doc), doc, baseUrl, card);
    var content := FirstText(QueryOf(doc), doc, Some(card), SummarySelector);
    ghost var found := title;
    if !Truthy(title) && !Truthy(url) {
      return None;
    }
    if !Truthy(title) {
      title := "BBC News Article";
    }
    r := Some(CardBuild(title, url, content));
    assert r == CardFrom(found, url, content);
  }

  /** The story cards of a page: the first selector's matches, or the second's when it matches nothing. */
  method FindCards(doc: Document) returns (cards: seq<Element>)
    ensures cards == Cards(doc)
  {
    cards := Find(doc, None, CardSelector);
    if |cards| == 0 {
      cards := Find(doc, None, PromoSelector);
    }
  }

  method CollectCards(doc: Document, baseUrl: string, cards: seq<Element>) returns (articles: seq<Article>)
    ensures articles == FilterMap(CardReader(doc, baseUrl), cards)
  {
    articles := [];
    for i := 0 to |cards|
      invariant articles == FilterMap(CardReader(doc, baseUrl), cards[..i])
    {
      FilterMapStep(CardReader(doc, baseUrl), cards, i);
      var a := ReadCard(doc, baseUrl, cards[i]);
      if a.Some? {
        articles := articles + [a.value];
      }
    }
    assert cards[..|cards|] == cards;
  }

  method ParseWebsite(env: Env, html: string, baseUrl: string) returns (r: Catchable<seq<Article>>)
    ensures r == ParseWebsiteSpec(env, html, baseUrl)
  {
    var parsed := ParseHtml(env.parsers, html);
    if parsed.Err? {
      return Err(parsed.message);
    }
    var dom := parsed.value;
    var cards := FindCards(dom);
    var articles := CollectCards(dom, baseUrl, cards);
    if |articles| == 0 {
      QueryOfAnswers(dom);
      var pageTitle := FirstText(QueryOf(dom), dom, None, "title");
      articles := [FallbackFrom(pageTitle, baseUrl, env.stripTags(html))];
    }
    r := Ok(articles);
  }

  // ---------------------------------------------------------------------
  // crawl

  /** The feed branch: fetch the feed address, then parse it. */
  function FeedBranch(env: Env, baseUrl: string): Catchable<seq<Article>>
  {
    match env.fetch(FeedUrl(baseUrl))
    case Err(m) => Err(m)
    case Ok(xml) => ParseFeedSpec(env, xml, baseUrl)
  }

  /** The website branch: fetch the base URL, then parse it as HTML; its exceptions propagate. */
  function WebsiteBranch(env: Env, baseUrl: string): Catchable<seq<Article>>
  {
    match env.fetch(baseUrl)
    case Err(m) => Err(m)
    case Ok(html) => ParseWebsiteSpec(env, html, baseUrl)
  }

  function CrawlSpec(env: Env, source: NewsSource): (r: Catchable<seq<Article>>)
  {
    var feed := FeedBranch(env, source.baseUrl);
    if feed.Ok? then feed else WebsiteBranch(env, source.baseUrl)
  }

  method Crawl(env: Env, source: NewsSource) returns (r: Catchable<seq<Article>>)
    ensures r == CrawlSpec(env, source)
  {
    var xml := env.fetch(FeedUrl(source.baseUrl));
    if xml.Ok? {
      r := ParseRssFeed(env, xml.value, source.baseUrl);
      if r.Ok? {
        return r;
      }
    }
    var html := env.fetch(source.baseUrl);
    if html.Err? {
      return Err(html.message);
    }
    r := ParseWebsite(env, html.value, source.baseUrl);
  }

  // ---------------------------------------------------------------------
  // What a crawl guarantees

  /** Any failure of the feed branch, fetch or XML, hands over to the website branch. */
  lemma FeedFailureFallsBack(env: Env, source: NewsSource)
    requires env.fetch(FeedUrl(source.baseUrl)).Err? ||
      env.parseXml(env.fetch(FeedUrl(source.baseUrl)).value).Err?
    ensures CrawlSpec(env, source) == WebsiteBranch(env, source.baseUrl)
  {
  }

  /** A readable feed is used as it is, even when it has no items. */
  lemma FeedIsUsed(env: Env, source: NewsSource)
    requires env.fetch(FeedUrl(source.baseUrl)).Ok?
    requires env.parseXml(env.fetch(FeedUrl(source.baseUrl)).value).Ok?
    ensures var root := env.parseXml(env.fetch(FeedUrl(source.baseUrl)).value).value;
      CrawlSpec(env, source) == Ok(FeedArticles(env.formatDate, source.baseUrl, FeedItems(root)))
  {
  }

  /** A parsed website never yields an empty list; without any card article it is one flagged page article. */
  lemma WebsiteNeverEmpty(env: Env, html: string, baseUrl: string)
    requires ParseWebsiteSpec(env, html, baseUrl).Ok?
    ensures var doc := ParseHtmlSpec(env.parsers, html).value;
      var r := ParseWebsiteSpec(env, html, baseUrl).value;
      |r| >= 1 &&
      ((forall c :: c in Cards(doc) ==> CardArticle(doc, baseUrl, c).None?) ==>
         r == [FallbackArticle(env, doc, html, baseUrl)] && r[0].url == baseUrl &&
         r[0].metadata["fallback"] == MBool(true))
  {
    var doc := ParseHtmlSpec(env.parsers, html).value;
    FilterMapFacts(CardReader(doc, baseUrl), Cards(doc));
    FallbackShape(ExtractText(doc, At(Query(doc, None, "title"), 0)), baseUrl, env.stripTags(html));
  }

  /** Every article of a parsed website comes from a card, with a non-empty title, or is the fallback. */
  lemma WebsiteArticlesFromCards(env: Env, html: string, baseUrl: string)
    requires ParseWebsiteSpec(env, html, baseUrl).Ok?
    ensures var doc := ParseHtmlSpec(env.parsers, html).value;
      var r := ParseWebsiteSpec(env, html, baseUrl).value;
      r == [FallbackArticle(env, doc, html, baseUrl)] ||
      forall a :: a in r ==> Truthy(a.title) && exists c :: c in Cards(doc) && CardArticle(doc, baseUrl, c) == Some(a)
  {
    var doc := ParseHtmlSpec(env.parsers, html).value;
    var r := ParseWebsiteSpec(env, html, baseUrl).value;
    FilterMapFacts(CardReader(doc, baseUrl), Cards(doc));
    if r != [FallbackArticle(env, doc, html, baseUrl)] {
      forall a | a in r
        ensures Truthy(a.title) && exists c :: c in Cards(doc) && CardArticle(doc, baseUrl, c) == Some(a)
      {
        var c :| c in Cards(doc) && CardReader(doc, baseUrl)(c) == Some(a);
        CardArticleShape(doc, baseUrl, c);
      }
    }
  }
}
