# News aggregator crawl pipeline — a Dafny model

This project models the core of a Laravel news aggregator. The aggregator
crawls news sources (the BBC and CNN sites, RSS/Atom feeds, JSON APIs and
arbitrary websites) on behalf of campaigns. It stores the articles it finds
and indexes them for search. The model covers these parts:

- **Crawler registry** (`registry.dfy`, module `Registry`). The manager keeps
  its crawlers in registration order. It picks, for a source, the first
  registered crawler of highest priority among those that support it. The
  service provider registers BBC 100, CNN 100, RSS 80, API 80 and Generic 10,
  in that order.
- **CSS-to-XPath translator** (`selector.dfy`, module `Selector`). Both DOM
  wrappers translate a subset of CSS selectors (W3C Selectors Level 3,
  sections 6.3.1, 6.3.2, 6.4 and 6.5) into XPath 1.0. The document wrapper
  writes `//`; the element wrapper writes `.//`.
- **DOM wrappers** (`dom.dfy`, module `Dom`). Elements are an immutable tree
  value; the XPath evaluator is an oracle on the parsed document. The module
  covers `find` with and without an index, the whitespace-collapsing plain
  text, `getAttribute`, `parent` and the `__get` properties.
- **Shared crawler helpers** (`crawler_base.dfy`, module `CrawlerBase`).
  `parseHtml` rejects short input, normalises line endings and NUL bytes, and
  picks the DOMDocument or simple_html_dom backend by size. The module also
  covers `resolveUrl`, `createArticle`, `extractText` and `extractAttribute`,
  and gives SimpleXML reads over an XML element tree.
- **Extraction adapters**:
  - `generic.dfy` (`GenericCrawler`): container selectors, the link
    fallback and the page fallback.
  - `bbc.dfy` (`BbcCrawler`): the feed first, then the website.
  - `rss.dfy` (`RssCrawler`): feed path probing, then RSS or Atom.
  - `api.dfy` (`ApiCrawler`): JSON response shapes and field precedence.
  - `cnn.dfy` (`CnnCrawler`): link collection, at most 50 detail pages,
    content assembly and fallbacks.

  Each adapter's `crawl` is a method proved equal to a specification
  function. The fallback and non-emptiness guarantees are lemmas about that
  function.
- **Crawl job** (`job.dfy`, module `CrawlJobs`). `CrawlCampaignJob::handle`
  is modelled as the in_progress → success | failed state machine over the
  `Store.Database` class (`store.dfy`). The database holds the tables and the
  job queue as sequence fields.
- **Scheduler** (`scheduler.dfy`, module `Scheduler`). It chooses the active
  campaigns and their active, due sources, deletes each chosen source's
  articles and queues one crawl job per chosen pair.
- **Search request shaping** (`elasticsearch.dfy`, module `Search`).
  `buildSearchQuery` covers the clamps, offsets, filter clauses and sort
  keys. `formatSearchResults` covers the data, the total and the page count.
- **Campaign/source association** (`campaign_sources.dfy`, module
  `CampaignSources`). `create`/`attach` refuse missing rows and duplicates;
  `detach` removes the one pair.

`common.dfy` (module `Common`) holds the PHP semantics the rest relies on:

- `empty()` as `Truthy`;
- `trim` with its character sets;
- `implode`/`explode`;
- integer-to-string conversion;
- order-keeping `FilterMap`/`MapResult` over loops;
- the "first non-empty answer of a selector chain" helper `KeepUntilTruthy`.

Side effects the model cannot see are parameters. The HTTP fetch, the HTML,
XML and JSON parsers, `filter_var`, `strip_tags`, `date(strtotime(...))` and
the clock are fields of an `Env` value or explicit arguments. A failure is
one of two cases of `Result`. `Err` is an `\Exception`, including the
ErrorException the framework makes of a PHP warning. `Fatal` is an `\Error`,
such as a TypeError, that passes `catch (\Exception $e)`. Code that can only
throw exceptions returns `Catchable`, the `Result`s that are not `Fatal`.

## Model

All source paths are relative to the repository root.

| member | source | states |
|---|---|---|
| Selector.TranslationIsUnionOfParts | app/Services/Crawlers/DomDocumentWrapper.php:63-67 | A selector with commas translates to the translations of its trimmed parts, in order, joined by " \| ". |
| Selector.ElementScopeIsRelative | app/Services/Crawlers/DomElementWrapper.php:100-166 | The element wrapper's translation has the same members as the document wrapper's, each with "." in front, so every member starts with ".//" and only reaches descendants. |
| Selector.AttrContainsSelector | app/Services/Crawlers/DomDocumentWrapper.php:72-77 | `tag[attr*="v"]`, with either quote and with the tag optional (default `*`), translates to the axis and `tag[contains(@attr,'v')]`. |
| Selector.ClassEqualsSelector | app/Services/Crawlers/DomDocumentWrapper.php:83-85 | `[class="v"]` translates to the same class-token test as `.v`, not to exact equality. |
| Selector.AttrEqualsSelector | app/Services/Crawlers/DomDocumentWrapper.php:87-89 | `[name="v"]`, for any other hyphenated name, translates to the exact test `*[@name='v']`. |
| Selector.AttrPresentSelector | app/Services/Crawlers/DomDocumentWrapper.php:90-91 | `[name]`, a hyphenated name with no value, translates to the axis and the presence test `*[@name]`. |
| Selector.ClassSelector | app/Services/Crawlers/DomDocumentWrapper.php:95-98 | `.c` translates to the axis and `*` with the class-token test for `c`. |
| Selector.IdSelector | app/Services/Crawlers/DomDocumentWrapper.php:101-104 | `#id` translates to the axis and `*[@id='id']`. |
| Selector.QualifiedSelector | app/Services/Crawlers/DomDocumentWrapper.php:107-117 | `tag.c` and `tag#id` translate to the tag qualified by the class-token test or by the id test. |
| Selector.QualifiedAttrEqualsPassesThrough | app/Services/Crawlers/DomDocumentWrapper.php:120-125 | `tag[attr="v"]` matches no supported form and is written out unchanged after the axis. |
| Selector.ClassTestMeansToken | app/Services/Crawlers/DomDocumentWrapper.php:95-98 | The emitted class test holds exactly when `c` is one of the whitespace-separated tokens of the class attribute, so it matches class="a c b" and not class="cc". |
| Dom.CollapseIsCollapsed | app/Services/Crawlers/DomElementWrapper.php:60 | Collapsing `\s+` leaves only plain spaces, never two in a row; it empties only the empty string and keeps the first character unless that is whitespace. |
| Dom.CleanIsCleaned | app/Services/Crawlers/DomElementWrapper.php:60-61 | After the collapse and `trim`, the text has no leading, trailing or doubled whitespace. |
| Dom.CleanIdempotent | app/Services/Crawlers/DomElementWrapper.php:60-61 | Cleaning cleaned text changes nothing. |
| Dom.PlainTextIsCleaned | app/Services/Crawlers/DomElementWrapper.php:42-62 | The plain text of any element is clean and is a fixed point of the cleanup. |
| Dom.PlainTextOfText | app/Services/Crawlers/DomElementWrapper.php:44-47 | An element whose `textContent` is non-empty after trimming has that text, cleaned, as its plain text. |
| Dom.GetPlainText | app/Services/Crawlers/DomElementWrapper.php:42-62 | The method computes the plain text: `textContent`, else the traversal of the children, then the cleanup. |
| Dom.CollectFallback | app/Services/Crawlers/DomElementWrapper.php:49-57 | The child loop concatenates the text nodes and the child elements' plain texts, in order. |
| Dom.SimpleAttribute | app/Services/Crawlers/AbstractCrawlerService.php:223 | On the simple_html_dom backend an attribute is present exactly when the element has it, and then it is the raw value. |
| Dom.Get | app/Services/Crawlers/DomElementWrapper.php:26-37 | `__get` gives the tag name for "tag", clean plain text for "plaintext", and null for every other name. |
| Dom.WrapperAttribute | app/Services/Crawlers/DomElementWrapper.php:171-174 | `getAttribute` is null exactly when the attribute is missing or empty (PHP `?:`); otherwise it is the attribute's value, never "". |
| Dom.Parent | app/Services/Crawlers/DomElementWrapper.php:179-186 | `parent` is the parent node when that node is an element, and null otherwise. |
| Dom.ElementsOf | app/Services/Crawlers/DomElementWrapper.php:80-85 | Keeping the element nodes gives exactly the elements among the nodes, in order, and no more of them than there were nodes. |
| Dom.KeepElements | app/Services/Crawlers/DomElementWrapper.php:80-85 | The loop keeps exactly the element nodes, in order. |
| Dom.ElementFind | app/Services/Crawlers/DomElementWrapper.php:67-94 | Every result of an element query is an element that the relative XPath query selected. |
| Dom.FindInElement | app/Services/Crawlers/DomElementWrapper.php:67-94 | The element wrapper's `find` returns the element nodes of the relative query, or [] when the query fails. |
| Dom.WrapAll | app/Services/Crawlers/DomDocumentWrapper.php:41-44 | The document wrapper's loop wraps every node the query returned, one result per node, in order. |
| Dom.FindInDocument | app/Services/Crawlers/DomDocumentWrapper.php:29-54 | The document wrapper's `find` returns the nodes of the translated query, or [] when the query fails. |
| Dom.At | app/Services/Crawlers/DomDocumentWrapper.php:46-48 | `find($s, $i)` is the result at index i when there is one, and null when i is out of range (including when nothing matched). |
| Dom.FindAt | app/Services/Crawlers/DomDocumentWrapper.php:37-53 | `find` with an index returns the element at that index of the query's results, or null. |
| Dom.HrefAsWritten | app/Services/Crawlers/DomElementWrapper.php:26-37 | As written, `$link->href` is always "" on the DOMDocument backend, because `__get` knows no `href`; on simple_html_dom it is the attribute. |
| Dom.Href | app/Services/Crawlers/DomElementWrapper.php:171-174 | The intended `href`: the attribute on either backend, "" when it is absent. |
| Dom.HrefLostOnDomDocument | app/Services/Crawlers/DomElementWrapper.php:26-37 | An anchor with href "https://example.org/a" reads as "" through `__get` on the DOMDocument backend. |
| CrawlerBase.FirstChild | app/Services/Crawlers/RssFeedCrawlerService.php:76-77 | `$x->name` is the first child element with that name, and is missing exactly when no child has that name. |
| CrawlerBase.ChildrenNamed | app/Services/Crawlers/RssFeedCrawlerService.php:77-78 | `foreach ($x->name ...)` visits exactly the children with that name, in document order, starting with `$x->name`. |
| CrawlerBase.XmlChildText | app/Services/Crawlers/RssFeedCrawlerService.php:79-81 | `(string) ($x->name ?? $default)` is the first such child's text, or the default when there is none. |
| CrawlerBase.Merge | app/Services/Crawlers/AbstractCrawlerService.php:272-275 | `array_merge` keeps every key of both maps, the caller's values win, and the defaults fill the rest. |
| CrawlerBase.CreateArticleFields | app/Services/Crawlers/AbstractCrawlerService.php:257-278 | The article keeps the title, URL, content, author and date it was given. Its summary is the first min(200, length) characters of the content. Its metadata holds the source_type and crawler defaults under the caller's keys. |
| CrawlerBase.ResolveUrl | app/Services/Crawlers/AbstractCrawlerService.php:181-188 | A URL starting with "http" is returned unchanged. Otherwise the result is rtrim(base,'/') + "/" + ltrim(url,'/'), with exactly that one slash at the join. |
| CrawlerBase.ExtractText | app/Services/Crawlers/AbstractCrawlerService.php:193-206 | `extractText(null)` is "", the result is always trimmed, and on DOMDocument it is the element's plain text. |
| CrawlerBase.ExtractAttribute | app/Services/Crawlers/AbstractCrawlerService.php:211-224 | `extractAttribute(null, _)` is null. On DOMDocument it is null unless the attribute is non-empty. On simple_html_dom it is always a string. |
| CrawlerBase.LinkUrlChoice | app/Services/Crawlers/GenericWebsiteCrawlerService.php:109-116 | A block's URL is the base URL, unless its first anchor has a non-empty `href`; then it is that `href` resolved against the base. |
| CrawlerBase.ReadLinkUrl | app/Services/Crawlers/GenericWebsiteCrawlerService.php:109-116 | The method computes that link choice. |
| CrawlerBase.NormalizeNewlines | app/Services/Crawlers/AbstractCrawlerService.php:62 | No "\r" is left, and text without "\r" is unchanged. |
| CrawlerBase.Normalize | app/Services/Crawlers/AbstractCrawlerService.php:61-64 | After preprocessing, the HTML contains neither "\r" nor a NUL byte. |
| CrawlerBase.NormalizeClean | app/Services/Crawlers/AbstractCrawlerService.php:61-64 | Text with neither "\r" nor NUL passes the preprocessing unchanged. |
| CrawlerBase.ExtractBody | app/Services/Crawlers/AbstractCrawlerService.php:88-91 | The lazily matched body contains no closing `</body>` tag, in any letter case. |
| CrawlerBase.FirstLoaded | app/Services/Crawlers/AbstractCrawlerService.php:103-125 | The result is the document of the first attempt that loads, after failures of all earlier attempts. It is nothing only when every attempt fails. |
| CrawlerBase.SimpleInput | app/Services/Crawlers/AbstractCrawlerService.php:148-154 | simple_html_dom is first given a prefix of the page of at most 550000 characters. |
| CrawlerBase.ParseHtmlSpec | app/Services/Crawlers/AbstractCrawlerService.php:53-77 | Empty input, or input shorter than 100 bytes after `trim`, is rejected with the source's message. |
| CrawlerBase.ParseHtml | app/Services/Crawlers/AbstractCrawlerService.php:53-77 | The method steps (check, normalise, choose the backend) compute `ParseHtmlSpec`. |
| CrawlerBase.ParseHtmlWithDomDocument | app/Services/Crawlers/AbstractCrawlerService.php:82-136 | The retry chain (body-only attempts, then the whole text when a body was found, else the error) computes `DomDocumentPath`. |
| CrawlerBase.ParseHtmlWithSimpleDom | app/Services/Crawlers/AbstractCrawlerService.php:141-176 | The truncated text, then the wrapped text, then the error, computes `SimpleDomPath`. |
| CrawlerBase.BackendBySize | app/Services/Crawlers/AbstractCrawlerService.php:67-76 | A successful parse uses the DOMDocument backend exactly when the normalised text is longer than 600000 bytes. |
| CrawlerBase.SimpleDomSeesPrefix | app/Services/Crawlers/AbstractCrawlerService.php:146-164 | Every string simple_html_dom is asked to parse is a prefix of at most 550000 characters of the page, possibly wrapped in a page skeleton. |
| GenericCrawler.FirstMatchingIsFirst | app/Services/Crawlers/GenericWebsiteCrawlerService.php:34-51 | The containers are empty exactly when no selector matches. Otherwise they are the matches of the first selector, in list order, that matches anything. |
| GenericCrawler.FindFirstMatching | app/Services/Crawlers/GenericWebsiteCrawlerService.php:46-51 | The selector loop with its `break` computes the first matching selector's elements. |
| GenericCrawler.SelectedText | app/Services/Crawlers/GenericWebsiteCrawlerService.php:89-97 | A selector inside a container gives no text exactly when it matches nothing. |
| GenericCrawler.ReadSelectedText | app/Services/Crawlers/GenericWebsiteCrawlerService.php:89-97 | `find($selector, 0)` followed by `extractText` computes the selector's text in the container. |
| GenericCrawler.ReadTitleChain | app/Services/Crawlers/GenericWebsiteCrawlerService.php:88-98 | The title loop stops at the first selector whose text is non-empty. |
| GenericCrawler.ReadTitle | app/Services/Crawlers/GenericWebsiteCrawlerService.php:88-106 | The title is the chain's answer, else the text of the first heading. |
| GenericCrawler.JoinedTexts | app/Services/Crawlers/GenericWebsiteCrawlerService.php:120-134 | A content selector gives nothing exactly when it matches nothing; otherwise it gives its matches' non-empty texts joined by spaces. |
| GenericCrawler.CollectTexts | app/Services/Crawlers/GenericWebsiteCrawlerService.php:125-130 | The loop keeps the non-empty texts of the matches, in order. |
| GenericCrawler.ReadJoinedTexts | app/Services/Crawlers/GenericWebsiteCrawlerService.php:120-134 | The method computes one content selector's joined texts. |
| GenericCrawler.ReadContentChain | app/Services/Crawlers/GenericWebsiteCrawlerService.php:119-136 | The content loop stops at the first selector whose joined text is non-empty. |
| GenericCrawler.ReadContent | app/Services/Crawlers/GenericWebsiteCrawlerService.php:119-141 | The content is the chain's answer, else all of the container's text. |
| GenericCrawler.ContainerDate | app/Services/Crawlers/GenericWebsiteCrawlerService.php:151-162 | Without a date element there is no date. |
| GenericCrawler.DateFromAttributeOrText | app/Services/Crawlers/GenericWebsiteCrawlerService.php:153-157 | On DOMDocument a non-empty `datetime` attribute is the date text; otherwise the element's text is. |
| GenericCrawler.ReadDate | app/Services/Crawlers/GenericWebsiteCrawlerService.php:151-162 | The method computes the container's date. |
| GenericCrawler.ContainerFromShape | app/Services/Crawlers/GenericWebsiteCrawlerService.php:165-180 | A container is skipped exactly when its title and link are both empty. Otherwise its title is never empty (default "Article from <name>") and its content has at most 5000 characters. |
| GenericCrawler.ContainerArticleShape | app/Services/Crawlers/GenericWebsiteCrawlerService.php:109-116 | A container article's URL is the base URL, or its first anchor's non-empty `href` resolved against the base. |
| GenericCrawler.ReadContainer | app/Services/Crawlers/GenericWebsiteCrawlerService.php:86-181 | One iteration of the container loop computes that container's article, or none. |
| GenericCrawler.CollectContainers | app/Services/Crawlers/GenericWebsiteCrawlerService.php:86-181 | The container loop gives one article per kept container, in order. |
| GenericCrawler.ContainerArticlesUnmarked | app/Services/Crawlers/GenericWebsiteCrawlerService.php:174-180 | No container article carries the page note or the link marker. |
| GenericCrawler.LinkFromShape | app/Services/Crawlers/GenericWebsiteCrawlerService.php:57-81 | A link is kept exactly when its text and `href` are non-empty. It then points to the resolved `href` and has at most 2000 characters of content. |
| GenericCrawler.LinkFallbackAsWrittenIsEmpty | app/Services/Crawlers/GenericWebsiteCrawlerService.php:54-83 | As written, the link fallback yields nothing on the DOMDocument backend, whatever the links. |
| GenericCrawler.LinkWithHrefIsKept | app/Services/Crawlers/GenericWebsiteCrawlerService.php:54-83 | When `href` is read from the attribute, a link with non-empty text and `href` gives an article at the resolved `href` on either backend. |
| GenericCrawler.LinkArticleMarked | app/Services/Crawlers/GenericWebsiteCrawlerService.php:74-81 | A link article is marked as extracted from a link and carries no page note. |
| GenericCrawler.LinkArticlesMarked | app/Services/Crawlers/GenericWebsiteCrawlerService.php:74-81 | Every article of the link fallback has that marking. |
| GenericCrawler.ReadLink | app/Services/Crawlers/GenericWebsiteCrawlerService.php:58-81 | One iteration of the link loop computes that link's article, or none. |
| GenericCrawler.CollectLinks | app/Services/Crawlers/GenericWebsiteCrawlerService.php:57-82 | The link loop gives one article per kept link, in order. |
| GenericCrawler.PageFromShape | app/Services/Crawlers/GenericWebsiteCrawlerService.php:185-200 | The page article sits at the base URL. Its title is never empty (default "Crawled from <name>"), its content has at most 5000 characters, it is dated now and it carries the note. |
| GenericCrawler.PageArticleShape | app/Services/Crawlers/GenericWebsiteCrawlerService.php:185-200 | The page article of a parsed page sits at the base URL, is dated now, and carries the note and no link marker. |
| GenericCrawler.ReadPage | app/Services/Crawlers/GenericWebsiteCrawlerService.php:185-200 | The method computes the page article. |
| GenericCrawler.PageArticlesOfExtracted | app/Services/Crawlers/GenericWebsiteCrawlerService.php:185-200 | The result is what was extracted, or the single page article when nothing was. |
| GenericCrawler.ExtractedUnnoted | app/Services/Crawlers/GenericWebsiteCrawlerService.php:74-180 | Nothing extracted from containers or links carries the page note. |
| GenericCrawler.PageNeverEmpty | app/Services/Crawlers/GenericWebsiteCrawlerService.php:185-200 | A parsed page never gives an empty list. When nothing was extracted, the result is exactly the one page article. |
| GenericCrawler.ExtractedFromContainers | app/Services/Crawlers/GenericWebsiteCrawlerService.php:54 | When some container selector matches, nothing extracted comes from a link. |
| GenericCrawler.LinksOnlyWithoutContainers | app/Services/Crawlers/GenericWebsiteCrawlerService.php:54-83 | The link fallback runs only when no container matched: with containers, no article of the result is marked as extracted from a link. |
| GenericCrawler.ExtractPage | app/Services/Crawlers/GenericWebsiteCrawlerService.php:31-203 | Everything after parsing (containers, else links, else the page) computes `PageArticles`. |
| GenericCrawler.FailuresPropagate | app/Services/Crawlers/GenericWebsiteCrawlerService.php:25-215 | A failed fetch or a failed parse is the crawl's failure, with its message. The crawl succeeds exactly when both succeed. |
| GenericCrawler.Crawl | app/Services/Crawlers/GenericWebsiteCrawlerService.php:21-218 | The method computes `CrawlSpec`: fetch, parse, extract. |
| BbcCrawler.FeedUrl | app/Services/Crawlers/BbcNewsCrawlerService.php:30 | The feed URL is rtrim(base_url, '/') + "/feed". |
| BbcCrawler.FeedItems | app/Services/Crawlers/BbcNewsCrawlerService.php:68 | Without a channel there are no items. |
| BbcCrawler.FeedArticles | app/Services/Crawlers/BbcNewsCrawlerService.php:69-84 | There is one article per feed item, in order. |
| BbcCrawler.FeedItemDefaults | app/Services/Crawlers/BbcNewsCrawlerService.php:70-82 | A feed item's title, link and description default to "Untitled", base_url and "". It has no author, and no date without `<pubDate>`. |
| BbcCrawler.FeedItemMetadata | app/Services/Crawlers/BbcNewsCrawlerService.php:82 | A feed item's metadata says feed type "rss" and source "bbc", over the crawler's defaults. |
| BbcCrawler.ParseFeedSpec | app/Services/Crawlers/BbcNewsCrawlerService.php:62-66 | The feed fails exactly when libxml refuses the XML. The exception carries libxml's message while libxml's errors are PHP warnings, and "Failed to parse RSS XML" once its internal error handling is on. |
| BbcCrawler.ParseRssFeed | app/Services/Crawlers/BbcNewsCrawlerService.php:59-86 | The method computes `ParseFeedSpec`. |
| BbcCrawler.CollectItems | app/Services/Crawlers/BbcNewsCrawlerService.php:69-84 | The item loop computes the feed articles in order. |
| BbcCrawler.Cards | app/Services/Crawlers/BbcNewsCrawlerService.php:98-103 | The cards are the first selector's matches, or the second selector's when the first matches nothing. |
| BbcCrawler.FindCards | app/Services/Crawlers/BbcNewsCrawlerService.php:98-103 | The method computes the cards. |
| BbcCrawler.CardFromShape | app/Services/Crawlers/BbcNewsCrawlerService.php:124-138 | A card is skipped exactly when its title and link are both empty. Otherwise the title defaults to "BBC News Article" and the article has the card's link and the website tags. |
| BbcCrawler.CardArticleShape | app/Services/Crawlers/BbcNewsCrawlerService.php:105-138 | A card article's title is never empty (its headline when there is one), and its URL is the card's link. |
| BbcCrawler.CardSkipped | app/Services/Crawlers/BbcNewsCrawlerService.php:124-126 | A card is skipped exactly when its headline text and its link are both empty. |
| BbcCrawler.ReadCard | app/Services/Crawlers/BbcNewsCrawlerService.php:106-139 | One iteration of the card loop computes that card's article, or none. |
| BbcCrawler.CollectCards | app/Services/Crawlers/BbcNewsCrawlerService.php:105-140 | The card loop gives one article per kept card, in order. |
| BbcCrawler.FallbackShape | app/Services/Crawlers/BbcNewsCrawlerService.php:143-155 | The fallback article sits at base_url and is flagged fallback=true. Its title is never empty (default "BBC News"), and it has at most 2000 characters of text. |
| BbcCrawler.WebsiteNeverEmpty | app/Services/Crawlers/BbcNewsCrawlerService.php:143-155 | A parsed website never gives an empty list. Without any card article, the result is the one flagged page article. |
| BbcCrawler.WebsiteArticlesFromCards | app/Services/Crawlers/BbcNewsCrawlerService.php:105-158 | Every article of a parsed website comes from a card and has a non-empty title, or it is the fallback. |
| BbcCrawler.ParseWebsite | app/Services/Crawlers/BbcNewsCrawlerService.php:91-161 | The method computes `ParseWebsiteSpec`; parse errors propagate. |
| BbcCrawler.FeedFailureFallsBack | app/Services/Crawlers/BbcNewsCrawlerService.php:31-39 | Any failure of the feed branch (fetch or XML) makes the crawl the website branch on base_url. |
| BbcCrawler.FeedIsUsed | app/Services/Crawlers/BbcNewsCrawlerService.php:31-33 | A feed that can be fetched and parsed is the result, even when it has no items. |
| BbcCrawler.Crawl | app/Services/Crawlers/BbcNewsCrawlerService.php:22-54 | The method computes `CrawlSpec`: the feed, else the website. |
| RssCrawler.FeedUrl | app/Services/Crawlers/RssFeedCrawlerService.php:34 | A probe address is rtrim(base_url, '/') followed by the path. |
| RssCrawler.FeedUrls | app/Services/Crawlers/RssFeedCrawlerService.php:29-34 | One address per path, in the fixed order /feed, /rss, /rss.xml, /feed.xml, /atom.xml. |
| RssCrawler.FirstFetchedIsFirst | app/Services/Crawlers/RssFeedCrawlerService.php:32-40 | The probe gives nothing exactly when every fetch fails. Otherwise it gives the body of the first address whose fetch succeeds, after failures of all earlier ones. |
| RssCrawler.ProbeFeeds | app/Services/Crawlers/RssFeedCrawlerService.php:32-40 | The probe loop with its `break` computes that first fetched body. |
| RssCrawler.AllProbesFail | app/Services/Crawlers/RssFeedCrawlerService.php:42-44 | When every probe fails, the crawl fails with "Failed to fetch RSS feed from <base_url>". |
| RssCrawler.ParsesFirstAnsweringPath | app/Services/Crawlers/RssFeedCrawlerService.php:32-46 | A successful crawl parsed the body of the first path whose fetch succeeded. |
| RssCrawler.RssItemDefaults | app/Services/Crawlers/RssFeedCrawlerService.php:79-83 | An RSS item's title, link and description default to "Untitled", base_url and "". A missing author or pubDate gives null. |
| RssCrawler.RssItemMetadata | app/Services/Crawlers/RssFeedCrawlerService.php:91 | An RSS item's metadata has feed type "rss" and its guid, over the crawler's defaults. |
| RssCrawler.EntryLink | app/Services/Crawlers/RssFeedCrawlerService.php:99 | An Atom entry's URL is the `href` of its first `<link>`, or base_url when there is none. |
| RssCrawler.EntryAuthor | app/Services/Crawlers/RssFeedCrawlerService.php:101 | An Atom entry has an author exactly when it has `<author><name>`. |
| RssCrawler.AtomEntryDefaults | app/Services/Crawlers/RssFeedCrawlerService.php:98-102 | An Atom entry's defaults are "Untitled" and base_url. Its content prefers `<content>` over `<summary>`, then "". A missing published date gives null. |
| RssCrawler.AtomEntryMetadata | app/Services/Crawlers/RssFeedCrawlerService.php:110 | An Atom entry's metadata has feed type "atom" and its id, over the crawler's defaults. |
| RssCrawler.RssArticles | app/Services/Crawlers/RssFeedCrawlerService.php:78-93 | There is one article per RSS item, in order. |
| RssCrawler.AtomArticles | app/Services/Crawlers/RssFeedCrawlerService.php:97-112 | There is one article per Atom entry, in order. |
| RssCrawler.CollectItems | app/Services/Crawlers/RssFeedCrawlerService.php:78-93 | The item loop computes the RSS articles. |
| RssCrawler.CollectEntries | app/Services/Crawlers/RssFeedCrawlerService.php:97-112 | The entry loop computes the Atom articles. |
| RssCrawler.ParseFeedSpec | app/Services/Crawlers/RssFeedCrawlerService.php:69-73 | The feed fails exactly when libxml refuses the XML. The exception carries libxml's message while libxml's errors are PHP warnings (the warning's ErrorException is thrown before the `=== false` test), and "Failed to parse RSS XML" once its internal error handling is on. |
| RssCrawler.ParseRssFeed | app/Services/Crawlers/RssFeedCrawlerService.php:66-116 | The method computes `ParseFeedSpec`. |
| RssCrawler.ChannelItemsInOrder | app/Services/Crawlers/RssFeedCrawlerService.php:76-94 | With a channel, there is one article per item, in order. |
| RssCrawler.FeedTypeByBranch | app/Services/Crawlers/RssFeedCrawlerService.php:76-113 | With a channel, every article is tagged "rss". Without one, every article comes from an entry and is tagged "atom". |
| RssCrawler.NeitherGivesEmpty | app/Services/Crawlers/RssFeedCrawlerService.php:115 | A document with neither channel nor entry gives an empty list, not an error. |
| RssCrawler.Crawl | app/Services/Crawlers/RssFeedCrawlerService.php:21-61 | The method computes `CrawlSpec`: probe, reject an empty answer, parse. |
| ApiCrawler.Field | app/Services/Crawlers/ApiCrawlerService.php:38-44 | `isset($j[$k])` semantics: a set value is never null, and scalars have no fields. |
| ApiCrawler.Values | app/Services/Crawlers/ApiCrawlerService.php:50 | `foreach` visits a list's elements or an object's values, in order. Over a scalar it fails with the "foreach() argument must be of type array\|object" warning's exception. |
| ApiCrawler.AsString | app/Services/Crawlers/ApiCrawlerService.php:65-72 | A string parameter refuses exactly arrays, objects and null, with a TypeError (`Fatal`) naming the parameter and the given type. A string passes unchanged, and a boolean becomes "1" or "". |
| ApiCrawler.PickIsFirstSet | app/Services/Crawlers/ApiCrawlerService.php:51-54 | A `??` chain is null exactly when no key is set. Otherwise it is the value of the first key that is set. |
| ApiCrawler.PickOrder | app/Services/Crawlers/ApiCrawlerService.php:51-54 | The first key wins when it is set; the second wins when only it is set; the chain falls through to its default only when no key is set. |
| ApiCrawler.ItemsShape | app/Services/Crawlers/ApiCrawlerService.php:38-50 | Items come from articles, else results, else data, else a bare list with an element 0, and are walked by `foreach`. Any other shape raises "Unexpected API response structure". Every failure here is an exception, never an `\Error`. |
| ApiCrawler.BareListIsItems | app/Services/Crawlers/ApiCrawlerService.php:44-45 | A list whose first element is set is its own list of items. |
| ApiCrawler.ListFieldNonNumeric | app/Services/Crawlers/ApiCrawlerService.php:38-42 | A list has nothing under a key that starts with a letter, so "articles", "results" and "data" are never set on a bare list. |
| ApiCrawler.ItemPrecedence | app/Services/Crawlers/ApiCrawlerService.php:51-63 | Field precedence: title, headline, "Untitled"; url, link, base_url; content, body, description, ""; author, byline, null; publishedAt, published_at, date, null. |
| ApiCrawler.ItemArticleFields | app/Services/Crawlers/ApiCrawlerService.php:65-72 | An item's article carries its values. Its metadata has source_type "api" over the default, names the crawler, and holds the raw item. |
| ApiCrawler.ArrayFieldsAreFatal | app/Services/Crawlers/ApiCrawlerService.php:56-72 | An array `publishedAt` fails the item in `strtotime` with a TypeError. Without a date, an array title fails in `createArticle`'s first parameter with a TypeError. |
| ApiCrawler.ScalarItemsSucceed | app/Services/Crawlers/ApiCrawlerService.php:50-73 | An item whose fields are all scalars always gives an article. |
| ApiCrawler.CollectArticles | app/Services/Crawlers/ApiCrawlerService.php:50-73 | The item loop gives the articles in item order, or stops at the first item's TypeError. |
| ApiCrawler.CrawlSpec | app/Services/Crawlers/ApiCrawlerService.php:29-33 | A request that throws fails the crawl with its message. A non-2xx response fails with "API request failed with status: <status>". |
| ApiCrawler.NonJsonBodyFails | app/Services/Crawlers/ApiCrawlerService.php:35-48 | A successful response whose body is not JSON has no recognised shape and fails with "Unexpected API response structure". |
| ApiCrawler.ScalarItemsFail | app/Services/Crawlers/ApiCrawlerService.php:38-50 | A scalar under the chosen key (`{"data": "x"}`) fails the crawl with the `foreach` warning's exception; it never gives an empty success. |
| ApiCrawler.CrawlYieldsOnePerItem | app/Services/Crawlers/ApiCrawlerService.php:29-73 | A successful crawl had a successful response whose chosen items are an array, and gives exactly one article per item, in order. |
| ApiCrawler.ItemFailureIsTheCrawls | app/Services/Crawlers/ApiCrawlerService.php:50-85 | When the items were found, a failed crawl failed on an item: the first failing item's failure, of the same kind and message, is the crawl's, and every earlier item succeeded. |
| ApiCrawler.Crawl | app/Services/Crawlers/ApiCrawlerService.php:22-88 | The method computes `CrawlSpec`: request, status check, shape check, items. |
| CnnCrawler.WithProtocol | app/Services/Crawlers/CnnNewsCrawlerService.php:31-35 | The result always has a protocol. A URL that has one is unchanged; any other URL becomes "https://" + ltrim(url, '/'). |
| CnnCrawler.WithProtocolIdempotent | app/Services/Crawlers/CnnNewsCrawlerService.php:190-193 | Fixing the protocol twice is fixing it once. |
| CnnCrawler.LinkTarget | app/Services/Crawlers/CnnNewsCrawlerService.php:187-204 | An anchor contributes only an address that `filter_var` accepts. |
| CnnCrawler.CollectLinksFacts | app/Services/Crawlers/CnnNewsCrawlerService.php:186-205 | Gathering keeps the earlier links, adds every address an anchor gives exactly once, adds nothing else, and keeps the links pairwise distinct. |
| CnnCrawler.GatherLinks | app/Services/Crawlers/CnnNewsCrawlerService.php:186-205 | The anchor loop computes the gathered links. |
| CnnCrawler.FirstLinksIsFirst | app/Services/Crawlers/CnnNewsCrawlerService.php:174-212 | The links are empty exactly when every selector gives none. Otherwise they are the first giving selector's links. |
| CnnCrawler.SelectorLinksFacts | app/Services/Crawlers/CnnNewsCrawlerService.php:174-205 | A selector gives links exactly when one of its matches gives an address. Its links are distinct and each comes from a match. |
| CnnCrawler.FirstLinksFacts | app/Services/Crawlers/CnnNewsCrawlerService.php:167-216 | The collected links are pairwise distinct and all come from one selector's matches. Every earlier selector's matches gave no address. |
| CnnCrawler.ArticleLinksValid | app/Services/Crawlers/CnnNewsCrawlerService.php:167-216 | The article links are pairwise distinct and every one passes URL validation. |
| CnnCrawler.FindLinks | app/Services/Crawlers/CnnNewsCrawlerService.php:174-212 | The selector loop with its `break` computes the first selector's links. |
| CnnCrawler.DetailUrls | app/Services/Crawlers/CnnNewsCrawlerService.php:240-243 | `array_slice($links, 0, 50)`: the first min(50, n) links, in order. |
| CnnCrawler.DetailPagesBounded | app/Services/Crawlers/CnnNewsCrawlerService.php:240-243 | At most 50 detail pages are fetched, the first ones in link order, and all of them when there are at most 50. |
| CnnCrawler.FirstTextOf | app/Services/Crawlers/CnnNewsCrawlerService.php:263-265 | A selector gives no text exactly when nothing matches; any text it gives is trimmed. |
| CnnCrawler.ReadTextChain | app/Services/Crawlers/CnnNewsCrawlerService.php:262-271 | A title or author loop stops at the first selector whose text is non-empty. |
| CnnCrawler.KeptFacts | app/Services/Crawlers/CnnNewsCrawlerService.php:375-381 | A kept text is trimmed, non-empty and longer than the byte threshold. |
| CnnCrawler.KeptTextsFacts | app/Services/Crawlers/CnnNewsCrawlerService.php:374-382 | Every kept paragraph or text part is trimmed, non-empty, longer than the threshold, and the text of one of the elements. |
| CnnCrawler.KeepText | app/Services/Crawlers/CnnNewsCrawlerService.php:375-381 | One iteration keeps the trimmed text when it is non-empty and long enough. |
| CnnCrawler.CollectKept | app/Services/Crawlers/CnnNewsCrawlerService.php:374-382 | The paragraph loop keeps those texts, in order. |
| CnnCrawler.JoinTruthy | app/Services/Crawlers/CnnNewsCrawlerService.php:386 | Non-empty pieces joined by "\n\n" are non-empty. |
| Common.Dedup | app/Services/Crawlers/CnnNewsCrawlerService.php:426 | `array_unique` keeps every value exactly once and adds none; the result is never longer than the input. |
| CnnCrawler.ContentFromTruthy | app/Services/Crawlers/CnnNewsCrawlerService.php:360-433 | The three content strategies give non-empty content exactly when one of them found text. |
| CnnCrawler.ContentOfFacts | app/Services/Crawlers/CnnNewsCrawlerService.php:360-393 | When a content element's paragraphs have kept text (over 10 bytes), the content is their join with "\n\n". |
| CnnCrawler.ReadContentOf | app/Services/Crawlers/CnnNewsCrawlerService.php:360-434 | The method computes one content element's content. |
| CnnCrawler.ContentAt | app/Services/Crawlers/CnnNewsCrawlerService.php:353-354 | A content selector gives nothing exactly when it matches nothing. |
| CnnCrawler.ReadContentChain | app/Services/Crawlers/CnnNewsCrawlerService.php:351-436 | The content loop stops at the first selector that gives non-empty content. |
| CnnCrawler.NewlineRun | app/Services/Crawlers/CnnNewsCrawlerService.php:442 | The run of line feeds at the front of a text, and nothing more. |
| CnnCrawler.SquashNewlinesFacts | app/Services/Crawlers/CnnNewsCrawlerService.php:442 | After `preg_replace('/\n{3,}/', "\n\n", ...)` no run of three line feeds is left, and a first character that is not a line feed is kept. |
| CnnCrawler.CleanContentFacts | app/Services/Crawlers/CnnNewsCrawlerService.php:440-444 | Cleaned non-empty content is trimmed and has no run of three or more "\n". |
| CnnCrawler.DetailFromShape | app/Services/Crawlers/CnnNewsCrawlerService.php:449-469 | A detail article exists exactly when its title or content is non-empty. It sits at the page's URL, and its author is null when empty. |
| CnnCrawler.ReadDetailPage | app/Services/Crawlers/CnnNewsCrawlerService.php:261-469 | The method computes a parsed detail page's article. |
| CnnCrawler.DetailFailureSkipped | app/Services/Crawlers/CnnNewsCrawlerService.php:474-482 | A detail page whose fetch or parse fails gives no article and does not abort the batch. |
| CnnCrawler.DetailArticleShape | app/Services/Crawlers/CnnNewsCrawlerService.php:449-457 | A detail article sits at its page's URL and is not a fallback. |
| CnnCrawler.ReadDetail | app/Services/Crawlers/CnnNewsCrawlerService.php:244-482 | One iteration of the detail loop computes that page's article, or none. |
| Common.FilterMapPlaced | app/Services/Crawlers/CnnNewsCrawlerService.php:243-488 | A loop that appends an element's result when it makes one keeps the results in element order, one per element that made one: a strictly increasing map of positions covers every such element. |
| CnnCrawler.DetailArticlesFacts | app/Services/Crawlers/CnnNewsCrawlerService.php:243-488 | Detail articles come in link order, one per page that gave one (a strictly increasing map into the links covers every such page), each at that page's URL and no fallback; there are none exactly when no page gave one. |
| CnnCrawler.CollectDetails | app/Services/Crawlers/CnnNewsCrawlerService.php:243-488 | The detail loop computes those articles. |
| CnnCrawler.FallbackShape | app/Services/Crawlers/CnnNewsCrawlerService.php:223-237 | The fallback article sits at base_url and is flagged fallback=true. Its title is never empty (default "CNN News"), and it has at most 2000 characters of text. |
| CnnCrawler.ReadFallback | app/Services/Crawlers/CnnNewsCrawlerService.php:224-236 | The method computes the fallback article. |
| CnnCrawler.ParseFailureShape | app/Services/Crawlers/CnnNewsCrawlerService.php:118-160 | When the listing page cannot be parsed, the article sits at base_url, is flagged, carries the parse error, and its content is never empty ("Content unavailable" at worst). |
| CnnCrawler.WebsiteNeverEmpty | app/Services/Crawlers/CnnNewsCrawlerService.php:496-510 | A parsed listing page never gives an empty list. With no links, or with no detail article, the result is exactly one fallback article at base_url. |
| CnnCrawler.ExtractWebsite | app/Services/Crawlers/CnnNewsCrawlerService.php:163-510 | Everything after parsing (links, detail pages, fallbacks) computes `WebsiteArticles`. |
| CnnCrawler.ParseWebsite | app/Services/Crawlers/CnnNewsCrawlerService.php:113-535 | The method computes `ParseWebsiteSpec`; a parse failure gives the parse-failure article instead of an exception. |
| CnnCrawler.CrawlFailsOnlyOnFetch | app/Services/Crawlers/CnnNewsCrawlerService.php:23-104 | A crawl fails exactly when the listing page cannot be fetched, and then with the fetch's message. Otherwise it returns at least one article. |
| CnnCrawler.Crawl | app/Services/Crawlers/CnnNewsCrawlerService.php:23-104 | The method computes `CrawlSpec`: fix the protocol, fetch, parse the website. |
| Registry.NamesDistinct | app/Services/Crawlers/BbcNewsCrawlerService.php:11-14 | Different crawlers have different `getName` values. |
| Registry.RunCrawler | app/Jobs/CrawlCampaignJob.php:192 | Calling `crawl` through the interface runs the chosen crawler's own `crawl`. |
| Registry.Filter | app/Services/Crawlers/CrawlerServiceManager.php:51-52 | `filter` keeps exactly the elements that pass. |
| Registry.SortPermutes | app/Services/Crawlers/CrawlerServiceManager.php:53 | `sortByDesc` is a permutation. |
| Registry.SortByDescFacts | app/Services/Crawlers/CrawlerServiceManager.php:53 | The sort orders by non-increasing priority. It is stable: its head is the first element of highest priority. |
| Registry.Choose | app/Services/Crawlers/CrawlerServiceManager.php:51-62 | filter, sort and first give nothing exactly when nothing passes. Otherwise they give a passing element of highest priority, the earliest such. |
| Registry.Resolve | app/Services/Crawlers/CrawlerServiceManager.php:48-63 | Resolution fails exactly when no registered crawler supports the source, with "No crawler found that supports source: ...". Otherwise it gives a supporting crawler of highest priority, the first registered among those. |
| Registry.FirstWhere | app/Services/Crawlers/CrawlerServiceManager.php:73-75 | `first($callback)` is null exactly when nothing passes. Otherwise it is the first element that passes. |
| Registry.FirstWithNameFacts | app/Services/Crawlers/CrawlerServiceManager.php:71-76 | `getCrawlerByName` is null exactly when no registered crawler has that name. Otherwise it is the first registered crawler with that name. |
| Registry.Manager.constructor | app/Services/Crawlers/CrawlerServiceManager.php:18-21 | A new manager has no crawlers. |
| Registry.Manager.Register | app/Services/Crawlers/CrawlerServiceManager.php:26-29 | `register` appends at the end; earlier entries and their order are unchanged. |
| Registry.Manager.GetAllCrawlers | app/Services/Crawlers/CrawlerServiceManager.php:36-39 | `getAllCrawlers` returns the registered list. |
| Registry.Manager.GetCrawlerForSource | app/Services/Crawlers/CrawlerServiceManager.php:48-63 | `getCrawlerForSource` gives `Resolve` of the list and leaves the list unchanged. |
| Registry.Manager.GetCrawlerByName | app/Services/Crawlers/CrawlerServiceManager.php:71-76 | `getCrawlerByName` gives the first crawler with that name and leaves the list unchanged. |
| Registry.Boot | app/Providers/CrawlerServiceProvider.php:21-32 | The provider's manager holds BBC, CNN, RSS, API and Generic, in that order. |
| Registry.DefaultChoice | app/Providers/CrawlerServiceProvider.php:25-29 | With the default table and priorities, choosing is a fixed precedence: BBC, CNN, RSS, API, Generic. |
| Registry.DefaultResolution | app/Providers/CrawlerServiceProvider.php:25-29 | The resulting dispatch table on a source's `supports` answers. |
| Registry.BbcSourcesGoToBbc | app/Providers/CrawlerServiceProvider.php:25-26 | A source whose lowercased URL names bbc.com or bbc.co.uk goes to BBC whatever its type, even when the URL also names edition.cnn.com. |
| Registry.RssTypedBbcGoesToBbc | app/Providers/CrawlerServiceProvider.php:25-27 | The rss-typed BBC source is supported by the feed crawler too, yet it goes to BBC. |
| Registry.CnnSourcesGoToCnn | app/Providers/CrawlerServiceProvider.php:26 | A CNN edition URL that is not a BBC one goes to CNN. |
| Registry.RssSourcesGoToRss | app/Providers/CrawlerServiceProvider.php:27 | Off both outlets (for example on www.cnn.com), an rss-typed source goes to the feed crawler. |
| Registry.ApiSourcesGoToApi | app/Providers/CrawlerServiceProvider.php:28 | Off both outlets, an api-typed source goes to the API crawler. |
| Registry.WebsiteSourcesGoToGeneric | app/Providers/CrawlerServiceProvider.php:29 | Off both outlets, a website-typed source goes to Generic, the only crawler that supports it. |
| Registry.OtherSourcesHaveNoCrawler | app/Providers/CrawlerServiceProvider.php:25-29 | Off both outlets, a source of any other type has no crawler. |
| Store.FindCampaign | app/Jobs/CrawlCampaignJob.php:92 | A lookup finds nothing exactly when no row has the id; otherwise it finds a row with that id. |
| Store.FindSource | app/Jobs/CrawlCampaignJob.php:93 | The same for news sources. |
| Store.WithoutSourceFacts | app/Console/Commands/ScheduleCrawlJobs.php:105 | Deleting by source removes exactly that source's articles and adds none. |
| Store.TouchFacts | app/Jobs/CrawlCampaignJob.php:252 | After `last_crawled_at` is updated, the source shows the new time and every other source is as it was. |
| Store.Database.constructor | app/Jobs/CrawlCampaignJob.php:92-93 | A database holds the given campaigns, sources and associations, with no crawl jobs, articles or queued jobs yet. |
| Store.Database.CreateCrawlJob | app/Jobs/CrawlCampaignJob.php:150-155 | A new crawl_jobs row with the next id, no finish time, no articles and no error; nothing else changes. |
| Store.Database.UpdateCrawlJob | app/Jobs/CrawlCampaignJob.php:245-249 | The row takes the new values and keeps its id; nothing else changes. |
| Store.Database.CreateArticle | app/Jobs/CrawlCampaignJob.php:209-220 | A new articles row with the next id and the given tags; nothing else changes. |
| Store.Database.Push | app/Jobs/CrawlCampaignJob.php:225-226 | The job goes to the back of the queue; nothing else changes. |
| Store.Database.TouchSource | app/Jobs/CrawlCampaignJob.php:252 | Only the source's `last_crawled_at` changes. |
| Store.Database.DeleteArticlesOf | app/Console/Commands/ScheduleCrawlJobs.php:105 | The source's articles go, the others keep their order, and the count of removed rows is returned. |
| Store.Database.InsertPair | app/Services/CampaignSourceService.php:43 | The association row goes at the end. |
| Store.Database.DeletePairAt | app/Services/CampaignSourceService.php:75 | The association row at the index goes; the others keep their order. |
| CrawlJobs.LifeCycle | app/Jobs/CrawlCampaignJob.php:150-297 | A record opens consistent and in_progress. After an exception or a result it closes consistent in one allowed step: success exactly when the crawl returned articles (counted), failed exactly when it threw an exception (with the message); finished_at is set either way. After an `\Error` it stays exactly as opened, in_progress. |
| CrawlJobs.LoadSource | app/Jobs/CrawlCampaignJob.php:92-93 | Loading succeeds exactly when both rows exist. A missing campaign fails first, with the findOrFail message. |
| CrawlJobs.CrawlOutcomeFacts | app/Jobs/CrawlCampaignJob.php:169-192 | The job fails with "No crawler found..." exactly when no registered crawler supports the source. A success ran a supporting crawler of highest priority. |
| CrawlJobs.UnsupportedSourceFails | app/Jobs/CrawlCampaignJob.php:169-170 | With the default crawlers, a source off both outlets whose type none of them reads fails the job. |
| CrawlJobs.SavedRowsFacts | app/Jobs/CrawlCampaignJob.php:208-226 | Each saved row is one of the crawler's articles, in order, tagged with the job's campaign, source and record, with an id no earlier row has. There is exactly one index dispatch per saved row, in save order. |
| CrawlJobs.SaveArticles | app/Jobs/CrawlCampaignJob.php:208-236 | The save loop appends the saved rows and their index jobs and changes nothing else. |
| CrawlJobs.ResolveAndCrawl | app/Jobs/CrawlCampaignJob.php:169-192 | Resolution then crawl gives the crawler's articles or the first exception. |
| CrawlJobs.Close | app/Jobs/CrawlCampaignJob.php:245-297 | On success: save, mark success with the count, and set last_crawled_at. On an exception: only close the record, with the error, and rethrow it. On an `\Error`: change nothing and let it through. |
| CrawlJobs.Process | app/Jobs/CrawlCampaignJob.php:150-298 | With both rows loaded: exactly one record is added, then closed by `Finish` (left in progress on an `\Error`); the outcome is returned as the result or rethrown with its kind. |
| CrawlJobs.Handle | app/Jobs/CrawlCampaignJob.php:57-299 | A missing campaign or source throws before any write. Otherwise there is one new record, saved articles and index jobs only on success, last_crawled_at updated only on success, and the crawl's exception or `\Error` rethrown on failure. |
| CrawlJobs.HandleKeepsRecordsConsistent | app/Jobs/CrawlCampaignJob.php:150-297 | Running the job keeps every crawl_jobs record consistent. |
| Scheduler.ShouldCrawlFacts | app/Console/Commands/ScheduleCrawlJobs.php:156-167 | A never-crawled source is due. Due stays due as time passes. Right after a crawl at t, a source is due exactly when now − t ≥ crawl_interval_minutes. |
| Scheduler.TouchedSourceWaits | app/Console/Commands/ScheduleCrawlJobs.php:164-166 | A source the job marked crawled at t is due again exactly once its interval has passed. |
| Scheduler.ActiveCampaignsFacts | app/Console/Commands/ScheduleCrawlJobs.php:38-45 | The query returns exactly the running campaigns with start_date ≤ now and end_date null or ≥ now. |
| Scheduler.ActiveSourcesFacts | app/Console/Commands/ScheduleCrawlJobs.php:67 | A campaign's sources are exactly the active rows that its association rows point to. |
| Scheduler.CampaignPlanFacts | app/Console/Commands/ScheduleCrawlJobs.php:88-132 | One campaign is paired with exactly its due sources. |
| Scheduler.CampaignsPlanFacts | app/Console/Commands/ScheduleCrawlJobs.php:61-142 | The plan over several campaigns is the union of their own plans. |
| Scheduler.PlanFacts | app/Console/Commands/ScheduleCrawlJobs.php:38-142 | A pair is dispatched exactly when its campaign is active, the two are associated, and the source row is active and due. |
| Scheduler.PurgeFacts | app/Console/Commands/ScheduleCrawlJobs.php:105 | An article survives exactly when no planned pair names its source. |
| Scheduler.PurgeAppend | app/Console/Commands/ScheduleCrawlJobs.php:105 | Deleting for two plans in turn is deleting for both together. |
| Scheduler.ScheduleSource | app/Console/Commands/ScheduleCrawlJobs.php:89-131 | A source that is not due changes nothing. A due source has all its articles deleted, then exactly one job queued, and the method reports it. |
| Scheduler.ScheduleCampaign | app/Console/Commands/ScheduleCrawlJobs.php:88-132 | The inner loop queues the campaign's plan, deletes the planned sources' articles, and counts the plan. |
| Scheduler.ScheduleActiveSources | app/Console/Commands/ScheduleCrawlJobs.php:62-141 | One campaign's iteration queues and deletes exactly for its active, due sources. |
| Scheduler.ScheduleCampaigns | app/Console/Commands/ScheduleCrawlJobs.php:61-142 | The outer loop queues the plan in order, deletes for it, and counts it. |
| Scheduler.Handle | app/Console/Commands/ScheduleCrawlJobs.php:31-151 | The command queues one crawl job per planned pair, in order, and deletes the articles of every planned source. The count the command reports is the number of jobs queued; nothing else changes. |
| Scheduler.PurgedExactlyPlannedSources | app/Console/Commands/ScheduleCrawlJobs.php:105 | Afterwards no stored article belongs to a source a job was queued for, and every article of any other source is still there. |
| CampaignSources.CreateOutcomeFacts | app/Services/CampaignSourceService.php:27-44 | A pair is created exactly when both rows exist and the pair is new. An existing pair is refused with the duplicate message on source_id. Adding the created pair keeps the table unique. |
| CampaignSources.FindPair | app/Services/CampaignSourceService.php:71 | The lookup finds nothing exactly when the pair is absent; otherwise it finds the position of a row holding it. |
| CampaignSources.RemoveAtFacts | app/Services/CampaignSourceService.php:75 | Removing one row of a unique table removes exactly its pair and keeps the table unique. |
| CampaignSources.Create | app/Services/CampaignSourceService.php:27-44 | An invalid or duplicate pair is refused and changes nothing. Otherwise exactly the pair is appended. |
| CampaignSources.Attach | app/Services/CampaignSourceService.php:61-67 | `attachSourceToCampaign` behaves exactly like `create` on {campaign_id, source_id}. |
| CampaignSources.Detach | app/Services/CampaignSourceService.php:69-76 | Detaching an absent pair returns false and changes nothing. Detaching a present pair returns true and removes only its row. |
| CampaignSources.DetachFacts | app/Services/CampaignSourceService.php:69-76 | On a unique table, detaching removes exactly that pair and nothing else; the table stays unique and the pair is then absent. |
| Search.LeadingDigits | app/Services/ElasticsearchService.php:75-76 | The digits `(int)` reads are the longest run of digits at the front. |
| Search.IntCastOfIntToString | app/Services/ElasticsearchService.php:75-76 | `(int)` undoes PHP's integer-to-string conversion for every integer. |
| Search.CastOfNegative | app/Services/ElasticsearchService.php:75-76 | A minus sign followed by digits casts to the negated value. |
| Search.NonNumericCastsToZero | app/Services/ElasticsearchService.php:75-76 | A parameter that does not start with a number, a sign or whitespace casts to 0. |
| Search.OrElse | app/Services/ElasticsearchService.php:69-78 | `??`: the value when set, else the default. |
| Search.ClampPage | app/Services/ElasticsearchService.php:75 | page ≥ 1; a page of at least 1 is kept; a missing or smaller page becomes 1. |
| Search.ClampPerPage | app/Services/ElasticsearchService.php:76 | 1 ≤ per_page ≤ 100, default 20; values in range are kept and others are clamped to the nearer bound. |
| Search.OffsetFacts | app/Services/ElasticsearchService.php:161 | from ≥ 0. The next page starts where this one ends, and later pages never overlap earlier ones. |
| Search.ClauseOfRankFacts | app/Services/ElasticsearchService.php:98-151 | Each filter slot holds its wanted clause exactly when its parameter is set. |
| Search.ClausesUpToFacts | app/Services/ElasticsearchService.php:98-151 | The clauses of the first n slots are exactly the wanted ones of those slots, in slot order. |
| Search.ClauseListFacts | app/Services/ElasticsearchService.php:98-151 | The filter list is exactly the wanted clauses in the order author, source, campaign, dates. It is non-empty exactly when one of those parameters is non-empty. |
| Search.FilterClauses | app/Services/ElasticsearchService.php:97-151 | The appends give that list. The date clause is a should over published_at and created_at with minimum_should_match 1; gte is present only with date_from and lte only with date_to. |
| Search.BuildSearchQuery | app/Services/ElasticsearchService.php:67-190 | must is multi_match over title^3, content^1, summary^2 and author, or match_all without q. The filter key exists exactly when a filter is set. size is the clamped per_page and from the offset. The sort is [_score desc, created_at] by relevance, else [created_at] with the requested order. |
| Search.CeilDiv | app/Services/ElasticsearchService.php:211 | For per_page > 0, total_pages is the least n with n·per_page ≥ total. |
| Search.SourceOf | app/Services/ElasticsearchService.php:201-203 | `$hit['_source']` is the value under the key exactly when the hit is an object that has it. Any other hit fails; only a string hit fails with an `\Error`. |
| Search.FormatSearchResults | app/Services/ElasticsearchService.php:195-214 | data is the hits' `_source` values, in order, and total, page and per_page are passed through. total_pages is the ceiling. It fails exactly where PHP throws: hits not an array (a TypeError), a hit without `_source`, a non-numeric total, or per_page 0. |
| Search.MissingSourceFails | app/Services/ElasticsearchService.php:201-203 | The first hit without a `_source` fails the page with the "Undefined array key" exception; it is never read as null. |
| Search.TotalForms | app/Services/ElasticsearchService.php:198 | `hits.total.value` and a bare-number `hits.total` are read alike; a response with neither total reads 0. |
| Search.EmptyResponse | app/Services/ElasticsearchService.php:195-214 | An empty response is one empty page: no data, total 0 and no pages. |

## Left out

- HTTP and network I/O are inputs: `fetchHtml`, the API request, and the Elasticsearch `search`, `deleteBy*` and `getFilterOptions` calls. Indexing jobs are only queued, never run.
- libxml/DOMDocument loading, simple_html_dom, SimpleXML, XPath evaluation, `strip_tags`, `filter_var` and `json_decode` are foreign libraries. They are oracles in `Env`/`Document`; only the translator's output and the wrappers' own logic are modelled.
- Json objects with a repeated key are not modelled: the decoder is taken to yield one binding per key, as `json_decode` does by keeping the last.
- libxml's error mode is the `Env.libxmlInternalErrors` input of a crawl. It is not carried from one crawl to the next: which earlier crawl in the same worker process parsed a page over 600000 bytes is not modelled.
- `date('Y-m-d H:i:s', strtotime(...))` is an opaque `formatDate` parameter. A bad date gives whatever that function gives, not null.
- Logging, `usleep`, `microtime`, `uniqid`, the `$processedCount` counter and `cleanupDom` only affect timing or observability.
- GenericCrawler.Crawl: the crawl (`ReadLink`, `CollectLinks`, `PageArticles`, `ExtractPage`, `CrawlSpec`) reads a link's `href` with the corrected `Dom.Href`, not with `Dom.HrefAsWritten`. On the DOMDocument backend the link fallback as written yields nothing; `GenericCrawler.LinkFallbackAsWrittenIsEmpty` states that, and the Findings table records it.
- CrawlJobs.Handle: a job whose crawl throws an `\Error` ends with its record in progress, and the queue would run it again (`$tries = 3`, `$backoff = 60`). The retries are not modelled; the model stops at the first run.
- Json values have no floating-point case. Numbers are integers, so a float field in an API response or an Elasticsearch total is not modelled.
- Scheduler.Handle: `now()` is read three times in the source (lines 39, 42 and 166). The model takes one clock reading per run, in whole minutes, so seconds and the time that passes during a run are not modelled.
- Queue retries, backoff, cross-worker concurrency and the `withoutOverlapping`/`everyMinute` schedule are not modelled.
- Database exceptions are not modelled. Table rows are sequences in insertion order, so a query without `orderBy` returns table order.
- CnnCrawler.Crawl: the catch blocks that can only run when creating a fallback article itself throws are unreachable in the model, so they are not written out.
- CrawlJobs.Handle: `crawl` is a function parameter standing for the crawler interface; `Registry.RunCrawler` is the concrete one over a fixed `Env`. The two clock readings, `finished_at` (line 246) and `last_crawled_at` (line 252), are taken as one `finishedAt` value.
- CrawlJobs.Handle does not model the fallback-to-`Exception` path of `getCrawlerManager` or a crawl-job `update` that fails.
- Search.IntCast: `(int)` of a string in exponent form ("1e3"), or one that overflows 64 bits, is not modelled. page and per_page arrive already typed as integers.
- Search.FormatSearchResults: a total that is a string or a boolean is refused rather than coerced. An `_source` list keyed like an object is read by its values, and the keys are dropped. Float precision in `ceil` is not modelled; the division is exact.
- CampaignSources.Create: when both ids are invalid, only the campaign field's message is reported; Laravel would report both fields.
- Eloquent models beyond their status enums, controllers, repositories, migrations, seeders and the other services are CRUD glue and are not part of this model.
- simple_html_dom's element properties come from a library that is not part of this model. Its `plaintext` is the oracle `Document.simpleText`, with no property assumed. Its attribute read is the element's raw attribute.

## Findings

| source | as written | input that shows it | evidently intended | confidence | as-written member | corrected member |
|---|---|---|---|---|---|---|
| app/Services/Crawlers/GenericWebsiteCrawlerService.php:59 with app/Services/Crawlers/DomElementWrapper.php:26-37 | The link fallback reads `$link->href ?? ''`, but DomElementWrapper's `__get` answers only "tag" and "plaintext", so on the DOMDocument backend (pages over 600000 bytes) every href is null and every link is skipped. | A page over 600000 bytes with no article containers and an anchor `<a href="https://example.org/a">Story</a>`: the fallback yields no article. | Read the `href` attribute (`getAttribute('href')` or `extractAttribute`), so that the link gives an article at the resolved href on either backend. | not executed | GenericCrawler.LinkFallbackAsWrittenIsEmpty | GenericCrawler.LinkWithHrefIsKept |
