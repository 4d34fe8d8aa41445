// The generic website crawler (app/Services/Crawlers/GenericWebsiteCrawlerService.php):
// the fallback crawler for "website" sources. Article blocks come from the
// first container selector that matches; without any, links that look like
// articles are used; when nothing is extracted, one article holds the page.

module GenericCrawler {
  import opened Common
  import opened Dom
  import opened CrawlerBase

  const Name: string := "Generic Website Crawler"
  const Priority: int := 10

  /** `supports`: exactly the sources of type "website". */
  predicate Supports(source: NewsSource)
  {
    source.sourceType == "website"
  }

  const ContainerSelectors: seq<string> := [
    "article", "div.article", "div[class*=\"article\"]", "div.post", "div[class*=\"post\"]",
    "div.entry", "div[class*=\"entry\"]", "div.item", "div[class*=\"item\"]"]
  const LinkSelector: string := "a[href*=\"/article\"], a[href*=\"/post\"], a[href*=\"/news\"], a[href*=\"/story\"]"
  const TitleSelectors: seq<string> := ["h1", "h2", "h3", ".title", "[class*=\"title\"]", "a.title"]
  const HeadingSelector: string := "h1, h2, h3"
  const ContentSelectors: seq<string> := [".content", ".excerpt", ".summary", "p", "[class*=\"content\"]", "[class*=\"excerpt\"]"]
  const AuthorSelector: string := ".author, [class*=\"author\"], .byline, [class*=\"byline\"]"
  const DateSelector: string := "time, .date, [class*=\"date\"], .published, [class*=\"published\"]"
  const PageNote: string := "No structured articles found, saved page content"

  // ---------------------------------------------------------------------
  // The container chain

  /** The matches of the first selector that matches anything; none when no selector does. */
  function FirstMatching(find: Finder, sels: seq<string>): seq<Element>
    decreases |sels|
  {
    if sels == [] then []
    else
      var found := find(None, sels[0]);
      if |found| > 0 then found else FirstMatching(find, sels[1..])
  }

  /** The containers are empty exactly when no selector matches, and otherwise are the first matching selector's. */
  lemma {:induction false} FirstMatchingIsFirst(find: Finder, sels: seq<string>)
    ensures |FirstMatching(find, sels)| == 0 <==> forall i :: 0 <= i < |sels| ==> |find(None, sels[i])| == 0
    ensures |FirstMatching(find, sels)| > 0 ==>
      exists i :: 0 <= i < |sels| && FirstMatching(find, sels) == find(None, sels[i]) &&
        forall j :: 0 <= j < i ==> |find(None, sels[j])| == 0
    decreases |sels|
  {
    if sels != [] && |find(None, sels[0])| == 0 {
      FirstMatchingIsFirst(find, sels[1..]);
      assert forall i :: 0 <= i < |sels| - 1 ==> sels[1..][i] == sels[i + 1];
      if |FirstMatching(find, sels)| > 0 {
        var i :| 0 <= i < |sels[1..]| && FirstMatching(find, sels[1..]) == find(None, sels[1..][i]) &&
          forall j :: 0 <= j < i ==> |find(None, sels[1..][j])| == 0;
        assert FirstMatching(find, sels) == find(None, sels[i + 1]);
        assert forall j :: 0 <= j < i + 1 ==> |find(None, sels[j])| == 0 by {
          forall j | 0 <= j < i + 1
            ensures |find(None, sels[j])| == 0
          {
            if j > 0 {
              assert sels[j] == sels[1..][j - 1];
            }
          }
        }
      }
    }
  }

  // ---------------------------------------------------------------------
  // The fields of a container

  /** `$el->find($selector, 0)` followed by `extractText`: None when nothing matches. */
  function SelectedText(find: Finder, doc: Document, block: Element, selector: string): (r: Option<string>)
    ensures r.None? <==> |find(Some(block), selector)| == 0
  {
    match At(find(Some(block), selector), 0)
    case None => None
    case Some(e) => Some(ExtractText(doc, Some(e)))
  }

  /** A title selector's answer inside a container. */
  function TitleReader(find: Finder, doc: Document, block: Element): string -> Option<string>
  {
    selector => SelectedText(find, doc, block, selector)
  }

  /** The title: the first non-empty title text, else the first heading's text when there is a heading. */
  function ContainerTitle(find: Finder, doc: Document, block: Element): string
  {
    var t := KeepUntilTruthy(TitleReader(find, doc, block), TitleSelectors, "");
    if Truthy(t) then t
    else match SelectedText(find, doc, block, HeadingSelector) case Some(h) => h case None => t
  }

  /** `extractText` kept only when non-empty, for the content parts. */
  function TextReader(doc: Document): Element -> Option<string>
  {
    e => var t := ExtractText(doc, Some(e)); if Truthy(t) then Some(t) else None
  }

  /** `implode(' ', $contentParts)` over the selector's matches; None when it matches nothing. */
  function JoinedTexts(find: Finder, doc: Document, block: Element, selector: string): (r: Option<string>)
    ensures r.None? <==> |find(Some(block), selector)| == 0
  {
    var found := find(Some(block), selector);
    if |found| == 0 then None else Some(Join(FilterMap(TextReader(doc), found), " "))
  }

  /** A content selector's answer inside a container. */
  function ContentReader(find: Finder, doc: Document, block: Element): string -> Option<string>
  {
    selector => JoinedTexts(find, doc, block, selector)
  }

  /** The content: the first non-empty joined texts, else all the container's text. */
  function ContainerContent(find: Finder, doc: Document, block: Element): string
  {
    var c := KeepUntilTruthy(ContentReader(find, doc, block), ContentSelectors, "");
    if Truthy(c) then c else ExtractText(doc, Some(block))
  }

  /** The date text: the `datetime` attribute unless `extractAttribute` gives null, then the element's text. */
  function DateString(doc: Document, e: Element): string
  {
    match ExtractAttribute(doc, Some(e), "datetime")
    case Some(v) => v
    case None => ExtractText(doc, Some(e))
  }

  /** The date: the formatted date text of the first date element, when that text is non-empty. */
  function ContainerDate(find: Finder, formatDate: string -> string, doc: Document, block: Element): (r: Option<string>)
    ensures |find(Some(block), DateSelector)| == 0 ==> r.None?
  {
    match At(find(Some(block), DateSelector), 0)
    case None => None
    case Some(e) => if Truthy(DateString(doc, e)) then Some(formatDate(DateString(doc, e))) else None
  }

  /** On the DOMDocument backend a non-empty `datetime` attribute is the date, and otherwise the element's text. */
  lemma DateFromAttributeOrText(formatDate: string -> string, doc: Document, e: Element)
    requires doc.backend == DomDocumentBackend
    ensures "datetime" in e.attrs && Truthy(e.attrs["datetime"]) ==> DateString(doc, e) == e.attrs["datetime"]
    ensures !("datetime" in e.attrs && Truthy(e.attrs["datetime"])) ==> DateString(doc, e) == PlainText(e)
  {
  }

  // ---------------------------------------------------------------------
  // A container's article

  /** The article of one container, from its fields; None when both title and link are empty. */
  function ContainerFrom(sourceName: string, title: string, url: string, content: string,
    author: Option<string>, publishedAt: Option<string>): Option<Article>
  {
    if !Truthy(title) && !Truthy(url) then None
    else Some(ContainerBuild(if Truthy(title) then title else "Article from " + sourceName, url, content, author, publishedAt))
  }

  /** The `createArticle` call of a container: content cut to 5000 characters, no extra metadata. */
  function ContainerBuild(title: string, url: string, content: string, author: Option<string>, publishedAt: Option<string>): Article
  {
    CreateArticle(Name, title, url, Prefix(content, 5000), author, publishedAt, map[])
  }

  /** A container is skipped exactly when title and link are both empty; else its title is never empty and its text is at most 5000 characters. */
  lemma ContainerFromShape(sourceName: string, title: string, url: string, content: string,
    author: Option<string>, publishedAt: Option<string>)
    ensures ContainerFrom(sourceName, title, url, content, author, publishedAt).None? <==> !Truthy(title) && !Truthy(url)
    ensures ContainerFrom(sourceName, title, url, content, author, publishedAt).Some? ==>
      var a := ContainerFrom(sourceName, title, url, content, author, publishedAt).value;
      Truthy(a.title) && (Truthy(title) ==> a.title == title) &&
      (!Truthy(title) ==> a.title == "Article from " + sourceName) &&
      a.url == url && |a.content| <= 5000 && a.content == content[..|a.content|] &&
      (|content| <= 5000 ==> a.content == content) &&
      a.author == author && a.publishedAt == publishedAt &&
      a.metadata.Keys == {"source_type", "crawler"} && a.metadata["source_type"] == MStr("website")
  {
    if !(!Truthy(title) && !Truthy(url)) {
      var t := if Truthy(title) then title else "Article from " + sourceName;
      assert t != "" && t != "0" by {
        if !Truthy(title) {
          assert |t| > 1;
        }
      }
      CreateArticleFields(Name, t, url, Prefix(content, 5000), author, publishedAt, map[]);
    }
  }

  function ContainerArticle(find: Finder, formatDate: string -> string, doc: Document, source: NewsSource, block: Element): Option<Article>
  {
    ContainerFrom(source.name, ContainerTitle(find, doc, block), LinkUrl(find, doc, source.baseUrl, block),
      ContainerContent(find, doc, block), SelectedText(find, doc, block, AuthorSelector), ContainerDate(find, formatDate, doc, block))
  }

  /** A container article links to its first anchor's resolved `href`, or to the base URL. */
  lemma ContainerArticleShape(find: Finder, formatDate: string -> string, doc: Document, source: NewsSource, block: Element)
    requires ContainerArticle(find, formatDate, doc, source, block).Some?
    ensures var a := ContainerArticle(find, formatDate, doc, source, block).value;
      var title := ContainerTitle(find, doc, block);
      a.url == LinkUrl(find, doc, source.baseUrl, block) && Truthy(a.title) &&
      (Truthy(title) ==> a.title == title) && |a.content| <= 5000 &&
      a.author == SelectedText(find, doc, block, AuthorSelector) &&
      "extracted_from" !in a.metadata && "note" !in a.metadata
  {
    var title, url := ContainerTitle(find, doc, block), LinkUrl(find, doc, source.baseUrl, block);
    var content, author := ContainerContent(find, doc, block), SelectedText(find, doc, block, AuthorSelector);
    var date := ContainerDate(find, formatDate, doc, block);
    ContainerFromShape(source.name, title, url, content, author, date);
  }

  function ContainerReader(find: Finder, formatDate: string -> string, doc: Document, source: NewsSource): Element -> Option<Article>
  {
    block => ContainerArticle(find, formatDate, doc, source, block)
  }

  // ---------------------------------------------------------------------
  // A link's article

  /** The text of a link's parent element, trimmed; "" when the parent is not an element. */
  function ParentText(doc: Document, link: Element): string
  {
    match Parent(doc, link)
    case Some(p) => Trim(PlainTextOf(doc, p))
    case None => ""
  }

  /** The article of one link, from its text, its `href` and its parent's text; None when the text or the `href` is empty. */
  function LinkFrom(baseUrl: string, title: string, href: string, content: string): Option<Article>
  {
    if !Truthy(title) || !Truthy(href) then None
    else Some(CreateArticle(Name, title, ResolveUrl(href, baseUrl), Prefix(content, 2000), None, None,
      map["extracted_from" := MStr("link")]))
  }

  /** A link is kept exactly when its text and `href` are non-empty; it then points at the resolved `href`. */
  lemma LinkFromShape(baseUrl: string, title: string, href: string, content: string)
    ensures LinkFrom(baseUrl, title, href, content).Some? <==> Truthy(title) && Truthy(href)
    ensures LinkFrom(baseUrl, title, href, content).Some? ==>
      var a := LinkFrom(baseUrl, title, href, content).value;
      a.title == title && a.url == ResolveUrl(href, baseUrl) &&
      |a.content| <= 2000 && a.content == content[..|a.content|] &&
      a.author.None? && a.publishedAt.None? &&
      a.metadata["extracted_from"] == MStr("link") && a.metadata["source_type"] == MStr("website")
  {
    if Truthy(title) && Truthy(href) {
      CreateArticleFields(Name, title, ResolveUrl(href, baseUrl), Prefix(content, 2000), None, None,
        map["extracted_from" := MStr("link")]);
    }
  }

  /** The link's article with its `href` read from the attribute, on either backend. */
  function LinkArticle(doc: Document, baseUrl: string, link: Element): Option<Article>
  {
    LinkFrom(baseUrl, Trim(PlainTextOf(doc, link)), Href(link), ParentText(doc, link))
  }

  /** The link's article as written, with `$link->href`, which the DOMDocument wrapper does not provide. */
  function LinkArticleAsWritten(doc: Document, baseUrl: string, link: Element): Option<Article>
  {
    LinkFrom(baseUrl, Trim(PlainTextOf(doc, link)), HrefAsWritten(doc, link), ParentText(doc, link))
  }

  function LinkReader(doc: Document, baseUrl: string): Element -> Option<Article>
  {
    link => LinkArticle(doc, baseUrl, link)
  }

  function LinkReaderAsWritten(doc: Document, baseUrl: string): Element -> Option<Article>
  {
    link => LinkArticleAsWritten(doc, baseUrl, link)
  }

  /** As written, the link fallback yields nothing on the DOMDocument backend, whatever the links. */
  lemma LinkFallbackAsWrittenIsEmpty(doc: Document, baseUrl: string, links: seq<Element>)
    requires doc.backend == DomDocumentBackend
    ensures FilterMap(LinkReaderAsWritten(doc, baseUrl), links) == []
  {
    forall l | l in links
      ensures LinkReaderAsWritten(doc, baseUrl)(l).None?
    {
      LinkFromShape(baseUrl, Trim(PlainTextOf(doc, l)), HrefAsWritten(doc, l), ParentText(doc, l));
    }
    FilterMapFacts(LinkReaderAsWritten(doc, baseUrl), links);
  }

  /** With the attribute read, a link with non-empty text and `href` gives an article on either backend. */
  lemma LinkWithHrefIsKept(doc: Document, baseUrl: string, link: Element)
    requires Truthy(Trim(PlainTextOf(doc, link))) && "href" in link.attrs && Truthy(link.attrs["href"])
    ensures LinkArticle(doc, baseUrl, link).Some?
    ensures LinkArticle(doc, baseUrl, link).value.url == ResolveUrl(link.attrs["href"], baseUrl)
  {
    LinkFromShape(baseUrl, Trim(PlainTextOf(doc, link)), Href(link), ParentText(doc, link));
  }

  // ---------------------------------------------------------------------
  // The page-level article

  /** The page article: the page title or "Crawled from <name>", the base URL, the body text cut to 5000, dated now. */
  function PageFrom(source: NewsSource, titleText: string, bodyText: string, now: string): Article
  {
    CreateArticle(Name, Elvis(titleText, "Crawled from " + source.name), source.baseUrl, Prefix(bodyText, 5000),
      None, Some(now), map["note" := MStr(PageNote)])
  }

  /** The page article sits at the base URL, has a non-empty title, is dated now and carries the note. */
  lemma PageFromShape(source: NewsSource, titleText: string, bodyText: string, now: string)
    ensures var a := PageFrom(source, titleText, bodyText, now);
      a.url == source.baseUrl && Truthy(a.title) && (Truthy(titleText) ==> a.title == titleText) &&
      |a.content| <= 5000 && a.content == bodyText[..|a.content|] &&
      a.author.None? && a.publishedAt == Some(now) &&
      a.metadata.Keys == {"note", "source_type", "crawler"} && a.metadata["note"] == MStr(PageNote) &&
      "extracted_from" !in a.metadata
  {
    var t := Elvis(titleText, "Crawled from " + source.name);
    assert Truthy(t) by {
      if !Truthy(titleText) {
        assert |t| > 1;
      }
    }
    CreateArticleFields(Name, t, source.baseUrl, Prefix(bodyText, 5000), None, Some(now), map["note" := MStr(PageNote)]);
  }

  function PageArticle(find: Finder, env: Env, doc: Document, source: NewsSource): Article
  {
    PageFrom(source, ExtractText(doc, At(find(None, "title"), 0)),
      ExtractText(doc, At(find(None, "body"), 0)), env.now)
  }

  // ---------------------------------------------------------------------
  // The whole page

  /** The articles of a parsed page: containers, else links, else the page itself. */
  function PageArticles(find: Finder, env: Env, doc: Document, source: NewsSource): seq<Article>
  {
    var containers := FirstMatching(find, ContainerSelectors);
    var found :=
      if |containers| == 0 then FilterMap(LinkReader(doc, source.baseUrl), find(None, LinkSelector))
      else FilterMap(ContainerReader(find, env.formatDate, doc, source), containers);
    if |found| > 0 then found else [PageArticle(find, env, doc, source)]
  }

  function CrawlSpec(env: Env, source: NewsSource): Catchable<seq<Article>>
  {
    match env.fetch(source.baseUrl)
    case Err(m) => Err(m)
    case Ok(html) =>
      match ParseHtmlSpec(env.parsers, html)
      case Err(m) => Err(m)
      case Ok(doc) => Ok(PageArticles(QueryOf(doc), env, doc, source))
  }

  // ---------------------------------------------------------------------
  // The loops of `crawl`; `find` stands for the page's own `find` (Dom.Answers)

  /** `$el->find($selector, 0)` followed by `extractText`. */
  method ReadSelectedText(ghost find: Finder, doc: Document, block: Element, selector: string) returns (r: Option<string>)
    requires Answers(find, doc)
    ensures r == SelectedText(find, doc, block, selector)
  {
    var e := FindAt(find, doc, Some(block), selector, 0);
    r := if e.Some? then Some(ExtractText(doc, e)) else None;
  }

  /** The `foreach ($selectors as $selector)` loop with its `break`. */
  method FindFirstMatching(ghost find: Finder, doc: Document, sels: seq<string>) returns (elements: seq<Element>)
    requires Answers(find, doc)
    ensures elements == FirstMatching(find, sels)
  {
    elements := [];
    var i := 0;
    while i < |sels|
      invariant 0 <= i <= |sels|
      invariant FirstMatching(find, sels) == FirstMatching(find, sels[i..])
    {
      assert sels[i..][0] == sels[i] && sels[i..][1..] == sels[i + 1..];
      elements := FindWith(find, doc, None, sels[i]);
      if |elements| > 0 {
        return;
      }
      i := i + 1;
    }
    elements := [];
  }

  /** The `foreach ($titleSelectors as $titleSelector)` loop. */
  method ReadTitleChain(ghost find: Finder, doc: Document, block: Element, sels: seq<string>) returns (title: string)
    requires Answers(find, doc)
    ensures title == KeepUntilTruthy(TitleReader(find, doc, block), sels, "")
  {
    ghost var read := TitleReader(find, doc, block);
    title := "";
    var i := 0;
    while i < |sels|
      invariant 0 <= i <= |sels|
      invariant KeepUntilTruthy(read, sels, "") == KeepUntilTruthy(read, sels[i..], title)
    {
      KeepUntilTruthyStep(read, sels, i, title);
      var t := ReadSelectedText(find, doc, block, sels[i]);
      assert read(sels[i]) == t;
      if t.Some? {
        title := t.value;
        if Truthy(title) {
          return;
        }
      }
      i := i + 1;
    }
  }

  /** The title chain, then the first heading when the chain gave nothing. */
  method ReadTitle(ghost find: Finder, doc: Document, block: Element) returns (title: string)
    requires Answers(find, doc)
    ensures title == ContainerTitle(find, doc, block)
  {
    title := ReadTitleChain(find, doc, block, TitleSelectors);
    if !Truthy(title) {
      var heading := ReadSelectedText(find, doc, block, HeadingSelector);
      if heading.Some? {
        title := heading.value;
      }
    }
  }

  /** The `foreach ($contentElements as $contentEl)` loop. */
  method CollectTexts(doc: Document, elements: seq<Element>) returns (parts: seq<string>)
    ensures parts == FilterMap(TextReader(doc), elements)
  {
    parts := [];
    for i := 0 to |elements|
      invariant parts == FilterMap(TextReader(doc), elements[..i])
    {
      FilterMapStep(TextReader(doc), elements, i);
      var text := ExtractText(doc, Some(elements[i]));
      if Truthy(text) {
        parts := parts + [text];
      }
    }
    assert elements[..|elements|] == elements;
  }

  /** One content selector: its matches' non-empty texts joined by spaces, or None without matches. */
  method ReadJoinedTexts(ghost find: Finder, doc: Document, block: Element, selector: string) returns (r: Option<string>)
    requires Answers(find, doc)
    ensures r == JoinedTexts(find, doc, block, selector)
  {
    var found := FindWith(find, doc, Some(block), selector);
    if |found| == 0 {
      return None;
    }
    var parts := CollectTexts(doc, found);
    r := Some(Join(parts, " "));
  }

  /** The `foreach ($contentSelectors as $contentSelector)` loop. */
  method ReadContentChain(ghost find: Finder, doc: Document, block: Element, sels: seq<string>) returns (content: string)
    requires Answers(find, doc)
    ensures content == KeepUntilTruthy(ContentReader(find, doc, block), sels, "")
  {
    ghost var read := ContentReader(find, doc, block);
    content := "";
    var i := 0;
    while i < |sels|
      invariant 0 <= i <= |sels|
      invariant KeepUntilTruthy(read, sels, "") == KeepUntilTruthy(read, sels[i..], content)
    {
      KeepUntilTruthyStep(read, sels, i, content);
      var joined := ReadJoinedTexts(find, doc, block, sels[i]);
      assert read(sels[i]) == joined;
      if joined.Some? {
        content := joined.value;
        if Truthy(content) {
          return;
        }
      }
      i := i + 1;
    }
  }

  method ReadContent(ghost find: Finder, doc: Document, block: Element) returns (content: string)
    requires Answers(find, doc)
    ensures content == ContainerContent(find, doc, block)
  {
    content := ReadContentChain(find, doc, block, ContentSelectors);
    if !Truthy(content) {
      content := ExtractText(doc, Some(block));
    }
  }

  method ReadDate(ghost find: Finder, formatDate: string -> string, doc: Document, block: Element) returns (publishedAt: Option<string>)
    requires Answers(find, doc)
    ensures publishedAt == ContainerDate(find, formatDate, doc, block)
  {
    publishedAt := None;
    var dateElement := FindAt(find, doc, Some(block), DateSelector, 0);
    if dateElement.Some? {
      var attribute := ExtractAttribute(doc, dateElement, "datetime");
      var dateStr := if attribute.Some? then attribute.value else ExtractText(doc, dateElement);
      if Truthy(dateStr) {
        publishedAt := Some(formatDate(dateStr));
      }
    }
  }

  /** The body of the `foreach ($articleElements as $articleElement)` loop. */
  method ReadContainer(ghost find: Finder, formatDate: string -> string, doc: Document, source: NewsSource, block: Element)
    returns (r: Option<Article>)
    requires Answers(find, doc)
    ensures r == ContainerArticle(find, formatDate, doc, source, block)
  {
    var title := ReadTitle(find, doc, block);
    var url := ReadLinkUrl(find, doc, source.baseUrl, block);
    var content := ReadContent(find, doc, block);
    var author := ReadSelectedText(find, doc, block, AuthorSelector);
    var publishedAt := ReadDate(find, formatDate, doc, block);
    ghost var found := title;
    if !Truthy(title) && !Truthy(url) {
      return None;
    }
    if !Truthy(title) {
      title := "Article from " + source.name;
    }
    r := Some(ContainerBuild(title, url, content, author, publishedAt));
    assert r == ContainerFrom(source.name, found, url, content, author, publishedAt);
  }

  method CollectContainers(ghost find: Finder, formatDate: string -> string, doc: Document, source: NewsSource, blocks: seq<Element>)
    returns (articles: seq<Article>)
    requires Answers(find, doc)
    ensures articles == FilterMap(ContainerReader(find, formatDate, doc, source), blocks)
  {
    articles := [];
    for i := 0 to |blocks|
      invariant articles == FilterMap(ContainerReader(find, formatDate, doc, source), blocks[..i])
    {
      FilterMapStep(ContainerReader(find, formatDate, doc, source), blocks, i);
      var a := ReadContainer(find, formatDate, doc, source, blocks[i]);
      if a.Some? {
        articles := articles + [a.value];
      }
    }
    assert blocks[..|blocks|] == blocks;
  }

  /** The body of the `foreach ($links as $link)` loop. */
  method ReadLink(doc: Document, baseUrl: string, link: Element) returns (r: Option<Article>)
    ensures r == LinkArticle(doc, baseUrl, link)
  {
    var title := Trim(PlainTextOf(doc, link));
    var url := Href(link);
    if !Truthy(title) || !Truthy(url) {
      return None;
    }
    url := ResolveUrl(url, baseUrl);
    var parent := Parent(doc, link);
    var content := "";
    if parent.Some? {
      content := Trim(PlainTextOf(doc, parent.value));
    }
    r := Some(CreateArticle(Name, title, url, Prefix(content, 2000), None, None, map["extracted_from" := MStr("link")]));
  }

  method CollectLinks(doc: Document, baseUrl: string, links: seq<Element>) returns (articles: seq<Article>)
    ensures articles == FilterMap(LinkReader(doc, baseUrl), links)
  {
    articles := [];
    for i := 0 to |links|
      invariant articles == FilterMap(LinkReader(doc, baseUrl), links[..i])
    {
      FilterMapStep(LinkReader(doc, baseUrl), links, i);
      var a := ReadLink(doc, baseUrl, links[i]);
      if a.Some? {
        articles := articles + [a.value];
      }
    }
    assert links[..|links|] == links;
  }

  /** The page-level fallback of `crawl`. */
  method ReadPage(ghost find: Finder, env: Env, doc: Document, source: NewsSource) returns (a: Article)
    requires Answers(find, doc)
    ensures a == PageArticle(find, env, doc, source)
  {
    var titleText := FirstText(find, doc, None, "title");
    var bodyText := FirstText(find, doc, None, "body");
    a := PageFrom(source, titleText, bodyText, env.now);
  }

  /** Everything `crawl` does once the page is parsed. */
  method ExtractPage(ghost find: Finder, env: Env, doc: Document, source: NewsSource) returns (articles: seq<Article>)
    requires Answers(find, doc)
    ensures articles == PageArticles(find, env, doc, source)
  {
    var containers := FindFirstMatching(find, doc, ContainerSelectors);
    if |containers| == 0 {
      var links := FindWith(find, doc, None, LinkSelector);
      articles := CollectLinks(doc, source.baseUrl, links);
    } else {
      articles := CollectContainers(find, env.formatDate, doc, source, containers);
    }
    if |articles| == 0 {
      var page := ReadPage(find, env, doc, source);
      articles := [page];
    }
  }

  /** `crawl`: fetch and parse failures reach the caller unchanged. */
  method Crawl(env: Env, source: NewsSource) returns (r: Catchable<seq<Article>>)
    ensures r == CrawlSpec(env, source)
  {
    var html := env.fetch(source.baseUrl);
    if html.Err? {
      return Err(html.message);
    }
    var parsed := ParseHtml(env.parsers, html.value);
    if parsed.Err? {
      return Err(parsed.message);
    }
    QueryOfAnswers(parsed.value);
    var articles := ExtractPage(QueryOf(parsed.value), env, parsed.value, source);
    r := Ok(articles);
  }

  // ---------------------------------------------------------------------
  // What a crawl guarantees

  /** No container article carries the page note or the link marker. */
  lemma ContainerArticlesUnmarked(find: Finder, formatDate: string -> string, doc: Document, source: NewsSource, blocks: seq<Element>)
    ensures forall a :: a in FilterMap(ContainerReader(find, formatDate, doc, source), blocks) ==>
      "note" !in a.metadata && "extracted_from" !in a.metadata
  {
    var read := ContainerReader(find, formatDate, doc, source);
    FilterMapFacts(read, blocks);
    forall a: Article | a in FilterMap(read, blocks)
      ensures "note" !in a.metadata && "extracted_from" !in a.metadata
    {
      var c :| c in blocks && read(c) == Some(a);
      ContainerArticleShape(find, formatDate, doc, source, c);
    }
  }

  /** A link article is marked as taken from a link and carries no page note. */
  lemma LinkArticleMarked(doc: Document, baseUrl: string, link: Element)
    ensures LinkArticle(doc, baseUrl, link).Some? ==>
      var a := LinkArticle(doc, baseUrl, link).value;
      "note" !in a.metadata && "extracted_from" in a.metadata
  {
    LinkFromMarked(baseUrl, Trim(PlainTextOf(doc, link)), Href(link), ParentText(doc, link));
  }

  /** The metadata keys of a link article: the link marker and `createArticle`'s defaults. */
  lemma LinkFromMarked(baseUrl: string, title: string, href: string, content: string)
    ensures LinkFrom(baseUrl, title, href, content).Some? ==>
      var a := LinkFrom(baseUrl, title, href, content).value;
      "note" !in a.metadata && "extracted_from" in a.metadata
  {
    if Truthy(title) && Truthy(href) {
      var extra := map["extracted_from" := MStr("link")];
      CreateArticleFields(Name, title, ResolveUrl(href, baseUrl), Prefix(content, 2000), None, None, extra);
      assert "note" !in extra.Keys + {"source_type", "crawler"};
    }
  }

  /** No link article carries the page note; each is marked as taken from a link. */
  lemma LinkArticlesMarked(doc: Document, baseUrl: string, links: seq<Element>)
    ensures forall a :: a in FilterMap(LinkReader(doc, baseUrl), links) ==>
      "note" !in a.metadata && "extracted_from" in a.metadata
  {
    var read := LinkReader(doc, baseUrl);
    FilterMapFacts(read, links);
    forall a: Article | a in FilterMap(read, links)
      ensures "note" !in a.metadata && "extracted_from" in a.metadata
    {
      var l :| l in links && read(l) == Some(a);
      LinkArticleMarked(doc, baseUrl, l);
    }
  }

  /** When some selector matches, the chain finds containers. */
  lemma SomeMatchFound(find: Finder, sels: seq<string>)
    requires exists i :: 0 <= i < |sels| && |find(None, sels[i])| > 0
    ensures |FirstMatching(find, sels)| > 0
  {
    FirstMatchingIsFirst(find, sels);
  }

  /** What the container or link pass extracted, before the page fallback. */
  function Extracted(find: Finder, env: Env, doc: Document, source: NewsSource): seq<Article>
  {
    var containers := FirstMatching(find, ContainerSelectors);
    if |containers| == 0 then FilterMap(LinkReader(doc, source.baseUrl), find(None, LinkSelector))
    else FilterMap(ContainerReader(find, env.formatDate, doc, source), containers)
  }

  lemma PageArticlesOfExtracted(find: Finder, env: Env, doc: Document, source: NewsSource)
    ensures var found := Extracted(find, env, doc, source);
      PageArticles(find, env, doc, source) == if |found| > 0 then found else [PageArticle(find, env, doc, source)]
  {
  }

  /** Nothing extracted carries the page note. */
  lemma ExtractedUnnoted(find: Finder, env: Env, doc: Document, source: NewsSource)
    ensures forall a :: a in Extracted(find, env, doc, source) ==> "note" !in a.metadata
  {
    var containers := FirstMatching(find, ContainerSelectors);
    if |containers| == 0 {
      LinkArticlesMarked(doc, source.baseUrl, find(None, LinkSelector));
    } else {
      ContainerArticlesUnmarked(find, env.formatDate, doc, source, containers);
    }
  }

  /** A parsed page never yields an empty list; when nothing was extracted it is exactly the page article. */
  lemma PageNeverEmpty(find: Finder, env: Env, doc: Document, source: NewsSource)
    ensures var r := PageArticles(find, env, doc, source);
      |r| >= 1 &&
      (r == [PageArticle(find, env, doc, source)] || forall a :: a in r ==> "note" !in a.metadata) &&
      (r == [PageArticle(find, env, doc, source)] ==>
        r[0].url == source.baseUrl && r[0].publishedAt == Some(env.now) && r[0].metadata["note"] == MStr(PageNote))
  {
    PageArticlesOfExtracted(find, env, doc, source);
    ExtractedUnnoted(find, env, doc, source);
    PageArticleShape(find, env, doc, source);
  }

  /** The page article sits at the base URL, is dated now and carries the note and no link marker. */
  lemma PageArticleShape(find: Finder, env: Env, doc: Document, source: NewsSource)
    ensures var a := PageArticle(find, env, doc, source);
      a.url == source.baseUrl && a.publishedAt == Some(env.now) &&
      "note" in a.metadata && a.metadata["note"] == MStr(PageNote) && "extracted_from" !in a.metadata
  {
    var titleText := ExtractText(doc, At(find(None, "title"), 0));
    var bodyText := ExtractText(doc, At(find(None, "body"), 0));
    PageFromShape(source, titleText, bodyText, env.now);
  }

  /** With containers found, nothing extracted comes from a link. */
  lemma ExtractedFromContainers(find: Finder, env: Env, doc: Document, source: NewsSource)
    requires |FirstMatching(find, ContainerSelectors)| > 0
    ensures forall a :: a in Extracted(find, env, doc, source) ==> "extracted_from" !in a.metadata
  {
    ContainerArticlesUnmarked(find, env.formatDate, doc, source, FirstMatching(find, ContainerSelectors));
  }

  /** The link fallback runs only when no container selector matches: with a container, no article comes from a link. */
  lemma LinksOnlyWithoutContainers(find: Finder, env: Env, doc: Document, source: NewsSource)
    requires exists i :: 0 <= i < |ContainerSelectors| && |find(None, ContainerSelectors[i])| > 0
    ensures forall a :: a in PageArticles(find, env, doc, source) ==> "extracted_from" !in a.metadata
  {
    SomeMatchFound(find, ContainerSelectors);
    ExtractedFromContainers(find, env, doc, source);
    PageArticlesOfExtracted(find, env, doc, source);
    PageArticleShape(find, env, doc, source);
  }

  /** A failed fetch or a failed parse is the crawl's failure, with its message. */
  lemma FailuresPropagate(env: Env, source: NewsSource)
    ensures env.fetch(source.baseUrl).Err? ==> CrawlSpec(env, source) == Err(env.fetch(source.baseUrl).message)
    ensures env.fetch(source.baseUrl).Ok? && ParseHtmlSpec(env.parsers, env.fetch(source.baseUrl).value).Err? ==>
      CrawlSpec(env, source) == Err(ParseHtmlSpec(env.parsers, env.fetch(source.baseUrl).value).message)
    ensures CrawlSpec(env, source).Ok? <==>
      env.fetch(source.baseUrl).Ok? && ParseHtmlSpec(env.parsers, env.fetch(source.baseUrl).value).Ok?
  {
  }
}
