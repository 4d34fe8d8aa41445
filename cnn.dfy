// The CNN crawler (app/Services/Crawlers/CnnNewsCrawlerService.php): a
// two-level crawl. The listing page gives the article links (the first link
// selector that yields any valid address wins; addresses are resolved,
// validated and kept once each); at most 50 detail pages are then fetched
// in link order, and each gives a headline, an author and the paragraphs of
// its body. A detail page that fails is skipped. Whatever happens after the
// listing page was fetched, the result is never empty.

module CnnCrawler {
  import opened Common
  import opened Dom
  import opened CrawlerBase

  const Name: string := "CNN News Crawler"
  const Priority: int := 100

  /** `supports`: the lowercased base URL names the CNN edition host. */
  predicate Supports(source: NewsSource)
  {
    Contains(Lower(source.baseUrl), "edition.cnn.com")
  }

  // ---------------------------------------------------------------------
  // The protocol fix

  predicate HasProtocol(url: string)
  {
    StartsWith(url, "http://") || StartsWith(url, "https://")
  }

  /** An address without "http://" or "https://" gets "https://" in front of it, leading slashes dropped. */
  function WithProtocol(url: string): (r: string)
    ensures HasProtocol(r)
    ensures HasProtocol(url) ==> r == url
    ensures !HasProtocol(url) ==> StartsWith(r, "https://") && r[8..] == TrimLeft(url, Slash)
  {
    if HasProtocol(url) then url
    else
      var r := "https://" + TrimLeft(url, Slash);
      assert r[..8] == "https://";
      r
  }

  /** Fixing an address twice is fixing it once. */
  lemma WithProtocolIdempotent(url: string)
    ensures WithProtocol(WithProtocol(url)) == WithProtocol(url)
  {
  }

  // ---------------------------------------------------------------------
  // Step 1: the article links of the listing page

  const LinkSelectors: seq<string> := ["a.container__link", "a[class*=\"container__link\"]", "a[class=\"container__link\"]"]

  /**
   * What one anchor contributes: its non-empty `href`, resolved against the
   * base URL with its protocol fixed, when `filter_var` accepts the result.
   */
  function LinkTarget(env: Env, doc: Document, baseUrl: string, e: Element): (r: Option<string>)
    ensures r.Some? ==> env.isValidUrl(r.value)
  {
    var href := ExtractAttribute(doc, Some(e), "href");
    if href.Some? && Truthy(href.value) then
      var full := ResolveUrl(href.value, WithProtocol(baseUrl));
      if env.isValidUrl(full) then Some(full) else None
    else None
  }

  function LinkReader(env: Env, doc: Document, baseUrl: string): Element -> Option<string>
  {
    e => LinkTarget(env, doc, baseUrl, e)
  }

  /** `if (!in_array($fullUrl, $articleLinks)) $articleLinks[] = $fullUrl;` */
  function AddLink(links: seq<string>, c: Option<string>): seq<string>
  {
    if c.Some? && c.value !in links then links + [c.value] else links
  }

  /** The links gathered from `els`, in order, after those already in `links`. */
  function CollectLinks(read: Element -> Option<string>, links: seq<string>, els: seq<Element>): seq<string>
    decreases |els|
  {
    if els == [] then links else CollectLinks(read, AddLink(links, read(els[0])), els[1..])
  }

  /**
   * Gathering keeps what was there, adds every address an element gives
   * exactly once, and adds nothing else.
   */
  lemma {:induction false} CollectLinksFacts(read: Element -> Option<string>, links: seq<string>, els: seq<Element>)
    requires Distinct(links)
    ensures var r := CollectLinks(read, links, els);
      Distinct(r) && |links| <= |r| && r[..|links|] == links &&
      (forall x :: x in r ==> x in links || exists e :: e in els && read(e) == Some(x)) &&
      (forall e :: e in els && read(e).Some? ==> read(e).value in r)
    decreases |els|
  {
    if els != [] {
      var next := AddLink(links, read(els[0]));
      assert Distinct(next) && |links| <= |next| && next[..|links|] == links by {
        if read(els[0]).Some? && read(els[0]).value !in links {
          assert next[..|links|] == links;
        }
      }
      CollectLinksFacts(read, next, els[1..]);
      var r := CollectLinks(read, links, els);
      assert r[..|next|] == next;
      assert r[..|links|] == links by {
        assert r[..|links|] == r[..|next|][..|links|];
      }
      forall x | x in r
        ensures x in links || exists e :: e in els && read(e) == Some(x)
      {
        if x !in next {
          var e :| e in els[1..] && read(e) == Some(x);
          assert e in els;
        } else if x !in links {
          assert read(els[0]) == Some(x);
        }
      }
      forall e | e in els && read(e).Some?
        ensures read(e).value in r
      {
        if e != els[0] {
          assert e in els[1..];
        } else {
          assert read(e).value in next;
          assert next == r[..|next|];
        }
      }
    }
  }

  /** The links of one selector's matches, gathered from none. */
  function SelectorLinks(find: Finder, read: Element -> Option<string>, selector: string): seq<string>
  {
    CollectLinks(read, [], find(None, selector))
  }

  /** The links of the first selector whose matches give any; none when no selector's do. */
  function FirstLinks(find: Finder, read: Element -> Option<string>, sels: seq<string>): seq<string>
    decreases |sels|
  {
    if sels == [] then []
    else
      var links := SelectorLinks(find, read, sels[0]);
      if |links| > 0 then links else FirstLinks(find, read, sels[1..])
  }

  /** The links are empty exactly when every selector gives none, and otherwise are the first giving selector's. */
  lemma {:induction false} FirstLinksIsFirst(find: Finder, read: Element -> Option<string>, sels: seq<string>)
    ensures |FirstLinks(find, read, sels)| == 0 <==> forall i :: 0 <= i < |sels| ==> |SelectorLinks(find, read, sels[i])| == 0
    ensures |FirstLinks(find, read, sels)| > 0 ==>
      exists i :: 0 <= i < |sels| && FirstLinks(find, read, sels) == SelectorLinks(find, read, sels[i]) &&
        forall j :: 0 <= j < i ==> |SelectorLinks(find, read, sels[j])| == 0
    decreases |sels|
  {
    if sels != [] && |SelectorLinks(find, read, sels[0])| == 0 {
      var rest := sels[1..];
      FirstLinksIsFirst(find, read, rest);
      assert forall i :: 0 <= i < |rest| ==> rest[i] == sels[i + 1];
      if |FirstLinks(find, read, sels)| > 0 {
        var i :| 0 <= i < |rest| && FirstLinks(find, read, rest) == SelectorLinks(find, read, rest[i]) &&
          forall j :: 0 <= j < i ==> |SelectorLinks(find, read, rest[j])| == 0;
        assert FirstLinks(find, read, sels) == SelectorLinks(find, read, sels[i + 1]);
        forall j | 0 <= j < i + 1
          ensures |SelectorLinks(find, read, sels[j])| == 0
        {
          if j > 0 {
            assert sels[j] == rest[j - 1];
          }
        }
      } else {
        forall i | 0 <= i < |sels|
          ensures |SelectorLinks(find, read, sels[i])| == 0
        {
          if i > 0 {
            assert sels[i] == rest[i - 1];
          }
        }
      }
    }
  }

  /** A selector gives links exactly when one of its matches gives an address; its links are distinct and each comes from a match. */
  lemma SelectorLinksFacts(find: Finder, read: Element -> Option<string>, selector: string)
    ensures var r := SelectorLinks(find, read, selector);
      Distinct(r) &&
      (forall x :: x in r ==> exists e :: e in find(None, selector) && read(e) == Some(x)) &&
      (forall e :: e in find(None, selector) && read(e).Some? ==> read(e).value in r) &&
      (|r| == 0 <==> forall e :: e in find(None, selector) ==> read(e).None?)
  {
    CollectLinksFacts(read, [], find(None, selector));
    var r := SelectorLinks(find, read, selector);
    if |r| > 0 {
      assert r[0] in r;
    }
  }

  /**
   * The links found are pairwise distinct and all come from the matches of
   * one selector, and every earlier selector's matches gave no address at
   * all.
   */
  lemma FirstLinksFacts(find: Finder, read: Element -> Option<string>, sels: seq<string>)
    ensures var r := FirstLinks(find, read, sels);
      Distinct(r) &&
      (|r| > 0 ==>
         exists i :: 0 <= i < |sels| &&
           (forall x :: x in r ==> exists e :: e in find(None, sels[i]) && read(e) == Some(x)) &&
           (forall j, e :: 0 <= j < i && e in find(None, sels[j]) ==> read(e).None?))
  {
    FirstLinksIsFirst(find, read, sels);
    var r := FirstLinks(find, read, sels);
    if |r| > 0 {
      var i :| 0 <= i < |sels| && r == SelectorLinks(find, read, sels[i]) &&
        forall j :: 0 <= j < i ==> |SelectorLinks(find, read, sels[j])| == 0;
      SelectorLinksFacts(find, read, sels[i]);
      forall j | 0 <= j < i
        ensures forall e :: e in find(None, sels[j]) ==> read(e).None?
      {
        SelectorLinksFacts(find, read, sels[j]);
      }
    }
  }

  /** The article links are pairwise distinct and every one is a valid address. */
  lemma ArticleLinksValid(find: Finder, env: Env, doc: Document, baseUrl: string, sels: seq<string>)
    ensures var r := FirstLinks(find, LinkReader(env, doc, baseUrl), sels);
      Distinct(r) && forall x :: x in r ==> env.isValidUrl(x)
  {
    var read := LinkReader(env, doc, baseUrl);
    FirstLinksFacts(find, read, sels);
    var r := FirstLinks(find, read, sels);
    forall x | x in r
      ensures env.isValidUrl(x)
    {
      var i :| 0 <= i < |sels| && forall y :: y in r ==> exists e :: e in find(None, sels[i]) && read(e) == Some(y);
      var e :| e in find(None, sels[i]) && read(e) == Some(x);
      assert LinkTarget(env, doc, baseUrl, e) == Some(x);
    }
  }

  // ---------------------------------------------------------------------
  // Step 2: the detail pages

  /** At most this many detail pages are fetched. */
  const MaxArticles: nat := 50

  /** `array_slice($articleLinks, 0, 50)`. */
  function DetailUrls(links: seq<string>): (r: seq<string>)
    ensures |r| == (if |links| <= MaxArticles then |links| else MaxArticles)
    ensures r == links[..|r|]
  {
    if |links| <= MaxArticles then links else links[..MaxArticles]
  }

  const HeadlineSelectors: seq<string> := [
    ".headline__text", "[class*=\"headline__text\"]", "[class=\"headline__text\"]", "h1.headline__text"]
  const FallbackTitleSelectors: seq<string> := ["h1", "title", ".article__headline", "[data-module=\"ArticleHeadline\"]"]
  const AuthorSelectors: seq<string> := [
    ".byline__authors", "[class*=\"byline__authors\"]", "[class=\"byline__authors\"]", ".byline__author",
    "[class*=\"byline__author\"]", ".author", "[class*=\"author\"]", "[data-module=\"ArticleAuthor\"]"]
  const FallbackAuthorSelectors: seq<string> := [
    ".byline", "[class*=\"byline\"]", "[rel=\"author\"]", ".article__author", "[data-module=\"Byline\"]"]
  const ContentSelectors: seq<string> := [
    ".article__content", "[class*=\"article__content\"]", "[class=\"article__content\"]", ".article-body",
    "[class*=\"article-body\"]", ".l-container", "[data-module=\"ArticleBody\"]"]

  /** `$articleDom->find($selector, 0)` then `extractText`: nothing when no element matches. */
  function FirstTextOf(find: Finder, doc: Document, selector: string): (r: Option<string>)
    ensures r.None? <==> |find(None, selector)| == 0
    ensures r.Some? ==> Trim(r.value) == r.value
  {
    match At(find(None, selector), 0)
    case None => None
    case Some(e) => Some(ExtractText(doc, Some(e)))
  }

  function TextReader(find: Finder, doc: Document): string -> Option<string>
  {
    selector => FirstTextOf(find, doc, selector)
  }

  /** The headline: the first non-empty headline text, else the first non-empty text of the fallback selectors. */
  function DetailTitle(find: Finder, doc: Document): string
  {
    var t := KeepUntilTruthy(TextReader(find, doc), HeadlineSelectors, "");
    if Truthy(t) then t else KeepUntilTruthy(TextReader(find, doc), FallbackTitleSelectors, t)
  }

  /** The author: the first non-empty byline text, else the first non-empty text of the fallback selectors. */
  function DetailAuthor(find: Finder, doc: Document): string
  {
    var a := KeepUntilTruthy(TextReader(find, doc), AuthorSelectors, "");
    if Truthy(a) then a else KeepUntilTruthy(TextReader(find, doc), FallbackAuthorSelectors, a)
  }

  /** A matched element's text, trimmed, kept when non-empty and longer than `min` bytes. */
  function Kept(doc: Document, min: nat, e: Element): Option<string>
  {
    var t := Trim(ExtractText(doc, Some(e)));
    if Truthy(t) && ByteLen(t) > min then Some(t) else None
  }

  /** A kept text is trimmed, non-empty and longer than `min` bytes. */
  lemma KeptFacts(doc: Document, min: nat, e: Element)
    requires Kept(doc, min, e).Some?
    ensures var t := Kept(doc, min, e).value;
      Trim(t) == t && Truthy(t) && ByteLen(t) > min && t == Trim(ExtractText(doc, Some(e)))
  {
    var raw := ExtractText(doc, Some(e));
    TrimIdempotent(raw);
    assert Kept(doc, min, e) == Some(Trim(raw));
  }

  function KeptText(doc: Document, min: nat): Element -> Option<string>
  {
    e => Kept(doc, min, e)
  }

  /** Every kept text is trimmed, non-empty, longer than `min` bytes, and is the text of one of the elements. */
  lemma KeptTextsFacts(doc: Document, min: nat, els: seq<Element>)
    ensures forall t :: t in FilterMap(KeptText(doc, min), els) ==>
      Trim(t) == t && Truthy(t) && ByteLen(t) > min &&
      exists e :: e in els && t == Trim(ExtractText(doc, Some(e)))
  {
    var read := KeptText(doc, min);
    FilterMapFacts(read, els);
    forall t | t in FilterMap(read, els)
      ensures Trim(t) == t && Truthy(t) && ByteLen(t) > min && exists e :: e in els && t == Trim(ExtractText(doc, Some(e)))
    {
      var e :| e in els && read(e) == Some(t);
      KeptFacts(doc, min, e);
    }
  }

  const ParagraphSeparator: string := "\n\n"

  /**
   * What one content element gives: its paragraphs' kept texts (over 10
   * bytes) joined by blank lines; else its own text when non-empty; else
   * its distinct `p, div, span` texts over 20 bytes joined by blank lines;
   * else its own (empty) text.
   */
  function ContentOf(find: Finder, doc: Document, e: Element): string
  {
    ContentFrom(FilterMap(KeptText(doc, 10), find(Some(e), "p")), ExtractText(doc, Some(e)),
      FilterMap(KeptText(doc, 20), find(Some(e), "p, div, span")))
  }

  /** The three strategies over what each of them found. */
  function ContentFrom(paragraphs: seq<string>, text: string, parts: seq<string>): string
  {
    if |paragraphs| > 0 then Join(paragraphs, ParagraphSeparator)
    else if Truthy(Trim(text)) then text
    else if |parts| > 0 then Join(Dedup(parts), ParagraphSeparator)
    else text
  }

  /** A join of non-empty pieces with a non-empty separator is non-empty. */
  lemma JoinTruthy(parts: seq<string>, sep: string)
    requires |parts| > 0 && |sep| > 0
    requires forall p :: p in parts ==> Truthy(p)
    ensures Truthy(Join(parts, sep))
  {
    assert parts[0] in parts;
    if |parts| > 1 {
      assert |Join(parts, sep)| >= |parts[0]| + |sep|;
    }
  }

  /** The strategies give non-empty content exactly when one of them found text. */
  lemma ContentFromTruthy(paragraphs: seq<string>, text: string, parts: seq<string>)
    requires forall p :: p in paragraphs ==> Truthy(p)
    requires forall p :: p in parts ==> Truthy(p)
    requires Trim(text) == text
    ensures Truthy(ContentFrom(paragraphs, text, parts)) <==> |paragraphs| > 0 || Truthy(text) || |parts| > 0
  {
    if |paragraphs| > 0 {
      JoinTruthy(paragraphs, ParagraphSeparator);
    } else if !Truthy(text) && |parts| > 0 {
      assert parts[0] in Dedup(parts);
      JoinTruthy(Dedup(parts), ParagraphSeparator);
    }
  }

  /**
   * A content element gives a non-empty value exactly when one of its three
   * strategies finds text; when its paragraphs have kept text, their join
   * is the value.
   */
  lemma ContentOfFacts(find: Finder, doc: Document, e: Element)
    ensures var paragraphs := FilterMap(KeptText(doc, 10), find(Some(e), "p"));
      var parts := FilterMap(KeptText(doc, 20), find(Some(e), "p, div, span"));
      var c := ContentOf(find, doc, e);
      (|paragraphs| > 0 ==> c == Join(paragraphs, ParagraphSeparator)) &&
      (Truthy(c) <==> |paragraphs| > 0 || Truthy(ExtractText(doc, Some(e))) || |parts| > 0)
  {
    var paragraphs := FilterMap(KeptText(doc, 10), find(Some(e), "p"));
    var parts := FilterMap(KeptText(doc, 20), find(Some(e), "p, div, span"));
    KeptTextsFacts(doc, 10, find(Some(e), "p"));
    KeptTextsFacts(doc, 20, find(Some(e), "p, div, span"));
    ContentFromTruthy(paragraphs, ExtractText(doc, Some(e)), parts);
  }

  /** `$articleDom->find($selector, 0)` and the content strategies: nothing when no element matches. */
  function ContentAt(find: Finder, doc: Document, selector: string): (r: Option<string>)
    ensures r.None? <==> |find(None, selector)| == 0
  {
    match At(find(None, selector), 0)
    case None => None
    case Some(e) => Some(ContentOf(find, doc, e))
  }

  function ContentReader(find: Finder, doc: Document): string -> Option<string>
  {
    selector => ContentAt(find, doc, selector)
  }

  /** The body text before cleanup: the first content selector whose element gives non-empty text. */
  function DetailContent(find: Finder, doc: Document): string
  {
    KeepUntilTruthy(ContentReader(find, doc), ContentSelectors, "")
  }

  // ---------------------------------------------------------------------
  // The cleanup of the body text

  /** No three line feeds in a row. */
  predicate NoTripleNewline(s: string)
  {
    forall i :: 0 <= i < |s| - 2 ==> !(s[i] == '\n' && s[i + 1] == '\n' && s[i + 2] == '\n')
  }

  /** The number of line feeds `s` starts with. */
  function NewlineRun(s: string): (n: nat)
    ensures n <= |s|
    ensures forall i :: 0 <= i < n ==> s[i] == '\n'
    ensures n < |s| ==> s[n] != '\n'
  {
    if s != [] && s[0] == '\n' then 1 + NewlineRun(s[1..]) else 0
  }

  /** `preg_replace('/\n{3,}/', "\n\n", $s)`: every run of three or more line feeds becomes two. */
  function SquashNewlines(s: string): string
    decreases |s|
  {
    if s == [] then []
    else if s[0] != '\n' then [s[0]] + SquashNewlines(s[1..])
    else
      var n := NewlineRun(s);
      (if n >= 3 then "\n\n" else s[..n]) + SquashNewlines(s[n..])
  }

  lemma NoTripleCons(c: char, rest: string)
    requires c != '\n' && NoTripleNewline(rest)
    ensures NoTripleNewline([c] + rest)
  {
    var s := [c] + rest;
    forall i | 0 <= i < |s| - 2
      ensures !(s[i] == '\n' && s[i + 1] == '\n' && s[i + 2] == '\n')
    {
      if i > 0 {
        assert s[i] == rest[i - 1] && s[i + 1] == rest[i] && s[i + 2] == rest[i + 1];
      }
    }
  }

  lemma NoTripleAfterBlock(b: string, rest: string)
    requires |b| <= 2 && NoTripleNewline(rest) && (rest == [] || rest[0] != '\n')
    ensures NoTripleNewline(b + rest)
  {
    var s := b + rest;
    forall i | 0 <= i < |s| - 2
      ensures !(s[i] == '\n' && s[i + 1] == '\n' && s[i + 2] == '\n')
    {
      if i >= |b| {
        assert s[i] == rest[i - |b|] && s[i + 1] == rest[i - |b| + 1] && s[i + 2] == rest[i - |b| + 2];
      } else {
        assert s[|b|] == rest[0];
      }
    }
  }

  /** The squash leaves no run of three line feeds, and keeps a first character that is not one. */
  lemma {:induction false} SquashNewlinesFacts(s: string)
    ensures NoTripleNewline(SquashNewlines(s))
    ensures s != [] && s[0] != '\n' ==> SquashNewlines(s) != [] && SquashNewlines(s)[0] == s[0]
    decreases |s|
  {
    if s == [] {
    } else if s[0] != '\n' {
      SquashNewlinesFacts(s[1..]);
      NoTripleCons(s[0], SquashNewlines(s[1..]));
    } else {
      var n := NewlineRun(s);
      SquashNewlinesFacts(s[n..]);
      var block: string := if n >= 3 then "\n\n" else s[..n];
      NoTripleAfterBlock(block, SquashNewlines(s[n..]));
    }
  }

  lemma NoTripleOccurrence(s: string, t: string, k: nat)
    requires NoTripleNewline(s) && OccursAt(s, t, k)
    ensures NoTripleNewline(t)
  {
    assert forall i :: 0 <= i < |t| ==> t[i] == s[k + i];
  }

  /** `if (!empty($content))`: squash the line feeds, then `trim`. */
  function CleanContent(content: string): string
  {
    if Truthy(content) then Trim(SquashNewlines(content)) else content
  }

  /** Cleaned non-empty text is trimmed and has no run of three line feeds. */
  lemma CleanContentFacts(content: string)
    requires Truthy(content)
    ensures Trim(CleanContent(content)) == CleanContent(content)
    ensures NoTripleNewline(CleanContent(content))
  {
    var q := SquashNewlines(content);
    SquashNewlinesFacts(content);
    TrimNoTriple(q);
    TrimIdempotent(q);
  }

  /** Trimming keeps a text free of runs of three line feeds. */
  lemma TrimNoTriple(q: string)
    requires NoTripleNewline(q)
    ensures NoTripleNewline(Trim(q))
  {
    TrimIsTrimmed(q);
    var t := Trim(q);
    var k :| 0 <= k <= |q| - |t| && OccursAt(q, t, k);
    NoTripleOccurrence(q, t, k);
  }

  // ---------------------------------------------------------------------
  // A detail article

  /** The metadata of a detail article. */
  function DetailMetadata(content: string): map<string, MetaValue>
  {
    map["source" := MStr("cnn"), "parsed_from" := MStr("article_page"), "content_empty" := MBool(!Truthy(content))]
  }

  /** A detail article from its extracted fields; none when title and content are both empty. */
  function DetailFrom(url: string, title: string, content: string, author: string): Option<Article>
  {
    if Truthy(title) || Truthy(content) then
      Some(CreateArticle(Name, title, url, content, if Truthy(author) then Some(author) else None, None, DetailMetadata(content)))
    else None
  }

  /** A detail article exists exactly when its title or its content is non-empty; it sits at the page's address. */
  lemma DetailFromShape(url: string, title: string, content: string, author: string)
    ensures DetailFrom(url, title, content, author).Some? <==> Truthy(title) || Truthy(content)
    ensures DetailFrom(url, title, content, author).Some? ==>
      var a := DetailFrom(url, title, content, author).value;
      a.url == url && a.title == title && a.content == content &&
      (a.author.Some? <==> Truthy(author)) && a.publishedAt.None? &&
      a.metadata["source"] == MStr("cnn") && a.metadata["content_empty"] == MBool(!Truthy(content)) &&
      "fallback" !in a.metadata
  {
    if Truthy(title) || Truthy(content) {
      var au := if Truthy(author) then Some(author) else None;
      CreateArticleFields(Name, title, url, content, au, None, DetailMetadata(content));
    }
  }

  /** The article of a parsed detail page. */
  function DetailPage(find: Finder, doc: Document, url: string): Option<Article>
  {
    DetailFrom(url, DetailTitle(find, doc), CleanContent(DetailContent(find, doc)), DetailAuthor(find, doc))
  }

  /** A detail page: fetched and parsed, else skipped. */
  function DetailArticle(env: Env, url: string): Option<Article>
  {
    match env.fetch(url)
    case Err(_) => None
    case Ok(html) =>
      match ParseHtmlSpec(env.parsers, html)
      case Err(_) => None
      case Ok(doc) => DetailPage(QueryOf(doc), doc, url)
  }

  function DetailReader(env: Env): string -> Option<Article>
  {
    url => DetailArticle(env, url)
  }

  /** A detail page whose fetch or parse fails gives no article. */
  lemma DetailFailureSkipped(env: Env, url: string)
    requires env.fetch(url).Err? || ParseHtmlSpec(env.parsers, env.fetch(url).value).Err?
    ensures DetailArticle(env, url).None?
  {
  }

  /**
   * The detail articles come in link order, one per page that gave one: each
   * is its own page's article and sits at that page's address, the others
   * (failures included) leave no trace, and none is a fallback.
   */
  lemma DetailArticlesFacts(env: Env, urls: seq<string>)
    ensures exists idx :: Placed(DetailReader(env), urls, FilterMap(DetailReader(env), urls), idx)
    ensures var r := FilterMap(DetailReader(env), urls);
      |r| <= |urls| &&
      (forall a :: a in r ==> exists u :: u in urls && DetailArticle(env, u) == Some(a) && a.url == u && "fallback" !in a.metadata) &&
      (r == [] <==> forall u :: u in urls ==> DetailArticle(env, u).None?)
  {
    var read := DetailReader(env);
    var idx := FilterMapPlaced(read, urls);
    FilterMapFacts(read, urls);
    forall a | a in FilterMap(read, urls)
      ensures exists u :: u in urls && DetailArticle(env, u) == Some(a) && a.url == u && "fallback" !in a.metadata
    {
      var u :| u in urls && read(u) == Some(a);
      DetailArticleShape(env, u);
    }
  }

  /** A detail article sits at its page's address and is no fallback. */
  lemma DetailArticleShape(env: Env, url: string)
    requires DetailArticle(env, url).Some?
    ensures DetailArticle(env, url).value.url == url && "fallback" !in DetailArticle(env, url).value.metadata
  {
    var doc := ParseHtmlSpec(env.parsers, env.fetch(url).value).value;
    var find := QueryOf(doc);
    var title, content, author := DetailTitle(find, doc), CleanContent(DetailContent(find, doc)), DetailAuthor(find, doc);
    DetailFromShape(url, title, content, author);
  }

  // ---------------------------------------------------------------------
  // The fallbacks

  /** The page-level article used when no link is found or no detail article is made. */
  function FallbackFrom(pageTitle: string, baseUrl: string, text: string, reason: string): Article
  {
    CreateArticle(Name, Elvis(pageTitle, "CNN News"), baseUrl, Prefix(text, 2000), None, None,
      map["source" := MStr("cnn"), "fallback" := MBool(true), "reason" := MStr(reason)])
  }

  function Fallback(find: Finder, env: Env, doc: Document, html: string, baseUrl: string, reason: string): Article
  {
    FallbackFrom(ExtractText(doc, At(find(None, "title"), 0)), baseUrl, env.stripTags(html), reason)
  }

  /** The fallback sits at the base URL, is flagged, and has a non-empty title and at most 2000 characters of text. */
  lemma FallbackShape(pageTitle: string, baseUrl: string, text: string, reason: string)
    ensures var a := FallbackFrom(pageTitle, baseUrl, text, reason);
      a.url == baseUrl && Truthy(a.title) && (Truthy(pageTitle) ==> a.title == pageTitle) &&
      |a.content| <= 2000 && a.content == text[..|a.content|] &&
      "fallback" in a.metadata && a.metadata["fallback"] == MBool(true) && a.metadata["reason"] == MStr(reason)
  {
  }

  const ParseFailedContent: string := "Content unavailable - HTML parsing failed"

  /** The article made when the listing page cannot be parsed: the text without tags (or the raw text), else a notice. */
  function ParseFailureArticle(sourceName: string, baseUrl: string, html: string, stripped: string, message: string): Article
  {
    var content := if Truthy(html) then Prefix(Elvis(stripped, html), 2000) else "";
    CreateArticle(Name, "CNN News - " + sourceName, baseUrl, Elvis(content, ParseFailedContent), None, None,
      map["source" := MStr("cnn"), "fallback" := MBool(true), "parse_error" := MStr(message)])
  }

  /** That article sits at the base URL, is flagged, carries the parse error and never has empty content. */
  lemma ParseFailureShape(sourceName: string, baseUrl: string, html: string, stripped: string, message: string)
    ensures var a := ParseFailureArticle(sourceName, baseUrl, html, stripped, message);
      a.url == baseUrl && Truthy(a.content) && |a.content| <= 2000 &&
      "fallback" in a.metadata && a.metadata["fallback"] == MBool(true) && a.metadata["parse_error"] == MStr(message)
  {
    var content := if Truthy(html) then Prefix(Elvis(stripped, html), 2000) else "";
    assert Truthy(Elvis(content, ParseFailedContent));
  }

  // ---------------------------------------------------------------------
  // parseWebsite and crawl

  /** The articles of a parsed listing page. */
  function WebsiteArticles(find: Finder, env: Env, doc: Document, html: string, source: NewsSource): seq<Article>
  {
    var links := FirstLinks(find, LinkReader(env, doc, source.baseUrl), LinkSelectors);
    if |links| == 0 then [Fallback(find, env, doc, html, source.baseUrl, "no_links_found")]
    else
      var articles := FilterMap(DetailReader(env), DetailUrls(links));
      if |articles| > 0 then articles else [Fallback(find, env, doc, html, source.baseUrl, "no_articles_created")]
  }

  /** `parseWebsite`: a parse failure gives the parse-failure article instead of an exception. */
  function ParseWebsiteSpec(env: Env, html: string, source: NewsSource): seq<Article>
  {
    match ParseHtmlSpec(env.parsers, html)
    case Err(m) => [ParseFailureArticle(source.name, source.baseUrl, html, env.stripTags(html), m)]
    case Ok(doc) => WebsiteArticles(QueryOf(doc), env, doc, html, source)
  }

  /** `crawl`: the listing page is fetched at the fixed address; a failed fetch is rethrown, as no article exists yet. */
  function CrawlSpec(env: Env, source: NewsSource): Catchable<seq<Article>>
  {
    match env.fetch(WithProtocol(source.baseUrl))
    case Err(m) => Err(m)
    case Ok(html) => Ok(ParseWebsiteSpec(env, html, source))
  }

  // ---------------------------------------------------------------------
  // The loops; `find` stands for the page's own `find` (Dom.Answers)

  /** A title or author loop: `find($selector, 0)`, `extractText`, stop at the first non-empty text. */
  method ReadTextChain(ghost find: Finder, doc: Document, sels: seq<string>, start: string) returns (text: string)
    requires Answers(find, doc)
    ensures text == KeepUntilTruthy(TextReader(find, doc), sels, start)
  {
    ghost var read := TextReader(find, doc);
    text := start;
    ghost var initial := start;
    var i := 0;
    while i < |sels|
      invariant 0 <= i <= |sels|
      invariant KeepUntilTruthy(read, sels, initial) == KeepUntilTruthy(read, sels[i..], text)
    {
      KeepUntilTruthyStep(read, sels, i, text);
      var element := FindAt(find, doc, None, sels[i], 0);
      assert read(sels[i]) == (if element.Some? then Some(ExtractText(doc, element)) else None);
      if element.Some? {
        text := ExtractText(doc, element);
        if Truthy(text) {
          return;
        }
      }
      i := i + 1;
    }
  }

  /** A paragraph or text-part loop: the trimmed texts that are non-empty and longer than `min` bytes. */
  method CollectKept(doc: Document, els: seq<Element>, min: nat) returns (texts: seq<string>)
    ensures texts == FilterMap(KeptText(doc, min), els)
  {
    texts := [];
    for i := 0 to |els|
      invariant texts == FilterMap(KeptText(doc, min), els[..i])
    {
      FilterMapStep(KeptText(doc, min), els, i);
      var text := KeepText(doc, els[i], min);
      if text.Some? {
        texts := texts + [text.value];
      }
    }
    assert els[..|els|] == els;
  }

  /** One iteration: `trim($this->extractText($el))`, kept when non-empty and longer than `min` bytes. */
  method KeepText(doc: Document, e: Element, min: nat) returns (r: Option<string>)
    ensures r == Kept(doc, min, e)
  {
    var text := ExtractText(doc, Some(e));
    text := Trim(text);
    if Truthy(text) && ByteLen(text) > min {
      r := Some(text);
    } else {
      r := None;
    }
  }

  /** The three strategies tried on one content element. */
  method ReadContentOf(ghost find: Finder, doc: Document, e: Element) returns (content: string)
    requires Answers(find, doc)
    ensures content == ContentOf(find, doc, e)
  {
    var paragraphs := FindWith(find, doc, Some(e), "p");
    if |paragraphs| > 0 {
      var paragraphTexts := CollectKept(doc, paragraphs, 10);
      if |paragraphTexts| > 0 {
        return Join(paragraphTexts, ParagraphSeparator);
      }
    } else {
      assert FilterMap(KeptText(doc, 10), paragraphs) == [];
    }
    content := ExtractText(doc, Some(e));
    if Truthy(Trim(content)) {
      return;
    }
    var allTextElements := FindWith(find, doc, Some(e), "p, div, span");
    if |allTextElements| > 0 {
      var textParts := CollectKept(doc, allTextElements, 20);
      if |textParts| > 0 {
        content := Join(Dedup(textParts), ParagraphSeparator);
      }
    } else {
      assert FilterMap(KeptText(doc, 20), allTextElements) == [];
    }
  }

  /** The content loop over the content selectors. */
  method ReadContentChain(ghost find: Finder, doc: Document, sels: seq<string>) returns (content: string)
    requires Answers(find, doc)
    ensures content == KeepUntilTruthy(ContentReader(find, doc), sels, "")
  {
    ghost var read := ContentReader(find, doc);
    content := "";
    var i := 0;
    while i < |sels|
      invariant 0 <= i <= |sels|
      invariant KeepUntilTruthy(read, sels, "") == KeepUntilTruthy(read, sels[i..], content)
    {
      KeepUntilTruthyStep(read, sels, i, content);
      var contentElement := FindAt(find, doc, None, sels[i], 0);
      if contentElement.Some? {
        content := ReadContentOf(find, doc, contentElement.value);
        if Truthy(content) {
          return;
        }
      }
      i := i + 1;
    }
  }

  /** Title, author and content of a parsed detail page, and its article when one of title and content is non-empty. */
  method ReadDetailPage(ghost find: Finder, doc: Document, url: string) returns (r: Option<Article>)
    requires Answers(find, doc)
    ensures r == DetailPage(find, doc, url)
  {
    var title := ReadTextChain(find, doc, HeadlineSelectors, "");
    if !Truthy(title) {
      title := ReadTextChain(find, doc, FallbackTitleSelectors, title);
    }
    var author := ReadTextChain(find, doc, AuthorSelectors, "");
    if !Truthy(author) {
      author := ReadTextChain(find, doc, FallbackAuthorSelectors, author);
    }
    var content := ReadContentChain(find, doc, ContentSelectors);
    if Truthy(content) {
      content := SquashNewlines(content);
      content := Trim(content);
    }
    r := DetailFrom(url, title, content, author);
  }

  /** One iteration of the detail loop; an exception on the way skips the page. */
  method ReadDetail(env: Env, url: string) returns (r: Option<Article>)
    ensures r == DetailArticle(env, url)
  {
    var articleHtml := env.fetch(url);
    if articleHtml.Err? {
      return None;
    }
    var articleDom := ParseHtml(env.parsers, articleHtml.value);
    if articleDom.Err? {
      return None;
    }
    QueryOfAnswers(articleDom.value);
    r := ReadDetailPage(QueryOf(articleDom.value), articleDom.value, url);
  }

  /** `foreach (array_slice($articleLinks, 0, $maxArticles) as $articleUrl)`. */
  method CollectDetails(env: Env, urls: seq<string>) returns (articles: seq<Article>)
    ensures articles == FilterMap(DetailReader(env), urls)
  {
    articles := [];
    for i := 0 to |urls|
      invariant articles == FilterMap(DetailReader(env), urls[..i])
    {
      FilterMapStep(DetailReader(env), urls, i);
      var a := ReadDetail(env, urls[i]);
      if a.Some? {
        articles := articles + [a.value];
      }
    }
    assert urls[..|urls|] == urls;
  }

  /** The inner `foreach ($linkElements as $linkElement)` loop. */
  method GatherLinks(env: Env, doc: Document, baseUrl: string, els: seq<Element>) returns (links: seq<string>)
    ensures links == CollectLinks(LinkReader(env, doc, baseUrl), [], els)
  {
    ghost var read := LinkReader(env, doc, baseUrl);
    links := [];
    var i := 0;
    while i < |els|
      invariant 0 <= i <= |els|
      invariant CollectLinks(read, [], els) == CollectLinks(read, links, els[i..])
    {
      assert els[i..][0] == els[i] && els[i..][1..] == els[i + 1..];
      var href := ExtractAttribute(doc, Some(els[i]), "href");
      if href.Some? && Truthy(href.value) {
        var fixedBase := WithProtocol(baseUrl);
        var fullUrl := ResolveUrl(href.value, fixedBase);
        if env.isValidUrl(fullUrl) {
          if fullUrl !in links {
            links := links + [fullUrl];
          }
        }
      }
      i := i + 1;
    }
  }

  /** The outer `foreach ($linkSelectors as $selector)` loop with its `break`. */
  method FindLinks(ghost find: Finder, env: Env, doc: Document, baseUrl: string, sels: seq<string>) returns (articleLinks: seq<string>)
    requires Answers(find, doc)
    ensures articleLinks == FirstLinks(find, LinkReader(env, doc, baseUrl), sels)
  {
    ghost var read := LinkReader(env, doc, baseUrl);
    articleLinks := [];
    var i := 0;
    while i < |sels|
      invariant 0 <= i <= |sels|
      invariant |articleLinks| == 0
      invariant FirstLinks(find, read, sels) == FirstLinks(find, read, sels[i..])
    {
      assert sels[i..][0] == sels[i] && sels[i..][1..] == sels[i + 1..];
      var linkElements := FindWith(find, doc, None, sels[i]);
      articleLinks := GatherLinks(env, doc, baseUrl, linkElements);
      if |articleLinks| > 0 {
        return;
      }
      i := i + 1;
    }
  }

  /** The page-level fallback with the given reason. */
  method ReadFallback(ghost find: Finder, env: Env, doc: Document, html: string, baseUrl: string, reason: string) returns (a: Article)
    requires Answers(find, doc)
    ensures a == Fallback(find, env, doc, html, baseUrl, reason)
  {
    var pageTitle := FirstText(find, doc, None, "title");
    a := FallbackFrom(pageTitle, baseUrl, env.stripTags(html), reason);
  }

  /** Everything `parseWebsite` does once the listing page is parsed. */
  method ExtractWebsite(ghost find: Finder, env: Env, doc: Document, html: string, source: NewsSource) returns (articles: seq<Article>)
    requires Answers(find, doc)
    ensures articles == WebsiteArticles(find, env, doc, html, source)
  {
    var articleLinks := FindLinks(find, env, doc, source.baseUrl, LinkSelectors);
    if |articleLinks| == 0 {
      var fallback := ReadFallback(find, env, doc, html, source.baseUrl, "no_links_found");
      return [fallback];
    }
    articles := CollectDetails(env, DetailUrls(articleLinks));
    if |articles| == 0 {
      var fallback := ReadFallback(find, env, doc, html, source.baseUrl, "no_articles_created");
      articles := [fallback];
    }
  }

  method ParseWebsite(env: Env, html: string, source: NewsSource) returns (articles: seq<Article>)
    ensures articles == ParseWebsiteSpec(env, html, source)
  {
    var dom := ParseHtml(env.parsers, html);
    if dom.Err? {
      var content := "";
      if Truthy(html) {
        var stripped := env.stripTags(html);
        content := Prefix(Elvis(stripped, html), 2000);
      }
      if !Truthy(content) {
        content := ParseFailedContent;
      }
      var a := CreateArticle(Name, "CNN News - " + source.name, source.baseUrl, content, None, None,
        map["source" := MStr("cnn"), "fallback" := MBool(true), "parse_error" := MStr(dom.message)]);
      return [a];
    }
    QueryOfAnswers(dom.value);
    articles := ExtractWebsite(QueryOf(dom.value), env, dom.value, html, source);
  }

  method Crawl(env: Env, source: NewsSource) returns (r: Catchable<seq<Article>>)
    ensures r == CrawlSpec(env, source)
  {
    var url := source.baseUrl;
    if !StartsWith(url, "http://") && !StartsWith(url, "https://") {
      url := "https://" + TrimLeft(url, Slash);
    }
    var html := env.fetch(url);
    if html.Err? {
      return Err(html.message);
    }
    var articles := ParseWebsite(env, html.value, source);
    r := Ok(articles);
  }

  // ---------------------------------------------------------------------
  // What a crawl guarantees

  /** A parsed listing page never yields an empty list; without links, or without any detail article, it is one flagged page article. */
  lemma WebsiteNeverEmpty(find: Finder, env: Env, doc: Document, html: string, source: NewsSource)
    ensures var links := FirstLinks(find, LinkReader(env, doc, source.baseUrl), LinkSelectors);
      var r := WebsiteArticles(find, env, doc, html, source);
      |r| >= 1 &&
      (|links| == 0 ==> r == [Fallback(find, env, doc, html, source.baseUrl, "no_links_found")]) &&
      (|links| > 0 && (forall u :: u in DetailUrls(links) ==> DetailArticle(env, u).None?) ==>
         r == [Fallback(find, env, doc, html, source.baseUrl, "no_articles_created")]) &&
      ((r[0].url == source.baseUrl && "fallback" in r[0].metadata && r[0].metadata["fallback"] == MBool(true)) ||
       (forall a :: a in r ==> "fallback" !in a.metadata && exists u :: u in DetailUrls(links) && a.url == u))
  {
    var links := FirstLinks(find, LinkReader(env, doc, source.baseUrl), LinkSelectors);
    var titleText := ExtractText(doc, At(find(None, "title"), 0));
    if |links| == 0 {
      FallbackShape(titleText, source.baseUrl, env.stripTags(html), "no_links_found");
    } else {
      DetailArticlesFacts(env, DetailUrls(links));
      FallbackShape(titleText, source.baseUrl, env.stripTags(html), "no_articles_created");
    }
  }

  /** Detail pages are fetched for at most 50 links, the first ones in link order. */
  lemma DetailPagesBounded(links: seq<string>)
    ensures |DetailUrls(links)| <= MaxArticles
    ensures forall i :: 0 <= i < |DetailUrls(links)| ==> DetailUrls(links)[i] == links[i]
    ensures |links| <= MaxArticles ==> DetailUrls(links) == links
  {
  }

  /** A crawl fails exactly when the listing page cannot be fetched; otherwise it returns at least one article. */
  lemma CrawlFailsOnlyOnFetch(env: Env, source: NewsSource)
    ensures CrawlSpec(env, source).Err? <==> env.fetch(WithProtocol(source.baseUrl)).Err?
    ensures CrawlSpec(env, source).Err? ==> CrawlSpec(env, source).message == env.fetch(WithProtocol(source.baseUrl)).message
    ensures CrawlSpec(env, source).Ok? ==> |CrawlSpec(env, source).value| >= 1
  {
    var fetched := env.fetch(WithProtocol(source.baseUrl));
    if fetched.Ok? {
      var html := fetched.value;
      match ParseHtmlSpec(env.parsers, html) {
        case Err(m) =>
        case Ok(doc) => WebsiteNeverEmpty(QueryOf(doc), env, doc, html, source);
      }
    }
  }
}
