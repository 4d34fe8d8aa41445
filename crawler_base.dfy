// What every crawler shares (app/Services/Crawlers/AbstractCrawlerService.php):
// the news source and article records, the outside world a crawl talks to,
// HTML parsing with its size-based choice of backend, URL resolution, the
// null-safe text and attribute readers and the article constructor. Feeds
// read by the BBC and RSS crawlers are parsed XML trees, also defined here.

module CrawlerBase {
  import opened Common
  import opened Dom

  // ---------------------------------------------------------------------
  // Records

  /** A row of `news_sources`; `lastCrawledAt` is a timestamp in whole minutes. */
  datatype NewsSource = NewsSource(
    id: nat,
    name: string,
    baseUrl: string,
    sourceType: string,
    isActive: bool,
    crawlIntervalMinutes: int,
    lastCrawledAt: Option<int>)

  /**
   * A decoded JSON value; objects keep their keys in document order. A key
   * appears once in a decoded object: `json_decode` keeps the last of
   * repeated keys, so the decoder hands over one binding per key.
   */
  datatype Json = JNull | JBool(b: bool) | JInt(i: int) | JStr(s: string) | JArr(items: seq<Json>) | JObj(fields: seq<(string, Json)>)

  /** A value stored in an article's `metadata`. */
  datatype MetaValue = MStr(s: string) | MBool(b: bool) | MJson(j: Json)

  /** The array `createArticle` returns. */
  datatype Article = Article(
    title: string,
    content: string,
    url: string,
    author: Option<string>,
    publishedAt: Option<string>,
    summary: string,
    metadata: map<string, MetaValue>)

  /** A parsed XML element as SimpleXML exposes it: name, attributes, string value, child elements. */
  datatype XmlElement = XmlElement(name: string, attrs: map<string, string>, text: string, children: seq<XmlElement>)

  /** `$x->name` on SimpleXML: the first child element with that name, if any. */
  function FirstChild(x: XmlElement, name: string): (r: Option<XmlElement>)
    ensures r.Some? ==> r.value in x.children && r.value.name == name
    ensures r.None? <==> forall c :: c in x.children ==> c.name != name
  {
    FirstNamed(x.children, name)
  }

  function FirstNamed(cs: seq<XmlElement>, name: string): (r: Option<XmlElement>)
    ensures r.Some? ==> r.value in cs && r.value.name == name
    ensures r.None? <==> forall c :: c in cs ==> c.name != name
    ensures |cs| > 0 && cs[0].name == name ==> r == Some(cs[0])
  {
    if cs == [] then None
    else if cs[0].name == name then Some(cs[0])
    else FirstNamed(cs[1..], name)
  }

  /** `foreach ($x->name as $c)`: every child element with that name, in document order. */
  function ChildrenNamed(x: XmlElement, name: string): (r: seq<XmlElement>)
    ensures forall c :: c in r <==> c in x.children && c.name == name
    ensures |r| > 0 <==> FirstChild(x, name).Some?
    ensures |r| > 0 ==> r[0] == FirstChild(x, name).value
  {
    AllNamed(x.children, name)
  }

  function AllNamed(cs: seq<XmlElement>, name: string): (r: seq<XmlElement>)
    ensures forall c :: c in r <==> c in cs && c.name == name
    ensures |r| > 0 <==> FirstNamed(cs, name).Some?
    ensures |r| > 0 ==> r[0] == FirstNamed(cs, name).value
  {
    if cs == [] then []
    else if cs[0].name == name then [cs[0]] + AllNamed(cs[1..], name)
    else AllNamed(cs[1..], name)
  }

  /** `(string) ($x->name ?? $default)`: the text of the first such child, or the default. */
  function XmlChildText(x: XmlElement, name: string, default: string): (r: string)
    ensures FirstChild(x, name).Some? ==> r == FirstChild(x, name).value.text
    ensures FirstChild(x, name).None? ==> r == default
  {
    match FirstChild(x, name)
    case Some(c) => c.text
    case None => default
  }

  /** An HTTP response of the API crawler: status code and `json()` (None when the body is not JSON). */
  datatype ApiResponse = ApiResponse(status: int, json: Option<Json>)

  /** The loaders of the two HTML backends; None when loading fails or yields no document element. */
  datatype Parsers = Parsers(loadHtml: string -> Option<Document>, strGetHtml: string -> Option<Document>)

  /**
   * Everything a crawl reads from outside: `fetchHtml` (the body, or the
   * exception message), the HTML loaders, `strip_tags`,
   * `filter_var(..., FILTER_VALIDATE_URL)`, `simplexml_load_string` (the
   * root element, or the message of the first error libxml reports),
   * `date('Y-m-d H:i:s', strtotime(...))`, the API request (the response,
   * or the message of the connection exception) and `now()`.
   *
   * `libxmlInternalErrors` is the worker process's libxml error mode. It is
   * off until some crawl parses a page over 600000 bytes, which calls
   * `libxml_use_internal_errors(true)` (AbstractCrawlerService.php:97); nothing
   * turns it off again. While it is off, a libxml error is a PHP warning,
   * which the framework throws as an ErrorException with libxml's message.
   */
  datatype Env = Env(
    fetch: string -> Catchable<string>,
    parsers: Parsers,
    stripTags: string -> string,
    isValidUrl: string -> bool,
    parseXml: string -> Catchable<XmlElement>,
    libxmlInternalErrors: bool,
    formatDate: string -> string,
    apiGet: string -> Catchable<ApiResponse>,
    now: string)

  /**
   * The message of the exception a failed `simplexml_load_string` leads to.
   * With libxml's errors as warnings, the warning's ErrorException is thrown
   * inside the call, with libxml's message, before the caller's `=== false`
   * test runs. With internal errors on, the call returns false and the
   * caller throws `falseMessage`.
   */
  function XmlLoadError(env: Env, xml: string, falseMessage: string): (m: string)
    requires env.parseXml(xml).Err?
    ensures env.libxmlInternalErrors ==> m == falseMessage
    ensures !env.libxmlInternalErrors ==> m == env.parseXml(xml).message
  {
    if env.libxmlInternalErrors then falseMessage else env.parseXml(xml).message
  }

  // ---------------------------------------------------------------------
  // createArticle

  /** `array_merge($defaults, $metadata)` on string keys: the caller's keys win. */
  function Merge(defaults: map<string, MetaValue>, metadata: map<string, MetaValue>): (r: map<string, MetaValue>)
    ensures r.Keys == defaults.Keys + metadata.Keys
    ensures forall k :: k in metadata ==> r[k] == metadata[k]
    ensures forall k :: k in defaults && k !in metadata ==> r[k] == defaults[k]
  {
    defaults + metadata
  }

  /** `createArticle`: the fields as given, a 200-character summary, and metadata over the crawler's defaults. */
  function CreateArticle(
    crawler: string, title: string, url: string, content: string,
    author: Option<string>, publishedAt: Option<string>, metadata: map<string, MetaValue>): Article
  {
    var defaults := map["source_type" := MStr("website"), "crawler" := MStr(crawler)];
    Article(title, content, url, author, publishedAt, Prefix(content, 200), Merge(defaults, metadata))
  }

  /** What `createArticle` promises about the record it builds. */
  lemma CreateArticleFields(
    crawler: string, title: string, url: string, content: string,
    author: Option<string>, publishedAt: Option<string>, metadata: map<string, MetaValue>)
    ensures var a := CreateArticle(crawler, title, url, content, author, publishedAt, metadata);
      a.title == title && a.url == url && a.content == content &&
      a.author == author && a.publishedAt == publishedAt &&
      |a.summary| == (if |content| < 200 then |content| else 200) &&
      a.summary == content[..|a.summary|] &&
      a.metadata.Keys == metadata.Keys + {"source_type", "crawler"} &&
      (forall k :: k in metadata ==> a.metadata[k] == metadata[k]) &&
      ("source_type" !in metadata ==> a.metadata["source_type"] == MStr("website")) &&
      ("crawler" !in metadata ==> a.metadata["crawler"] == MStr(crawler))
  {
  }

  /** The metadata of an article created with two keys of its own, neither of them a default's. */
  lemma TwoKeyMetadata(
    crawler: string, title: string, url: string, content: string,
    author: Option<string>, publishedAt: Option<string>, k1: string, v1: MetaValue, k2: string, v2: MetaValue)
    requires k1 != k2 && k1 !in {"source_type", "crawler"} && k2 !in {"source_type", "crawler"}
    ensures var m := CreateArticle(crawler, title, url, content, author, publishedAt, map[k1 := v1, k2 := v2]).metadata;
      m.Keys == {k1, k2, "source_type", "crawler"} &&
      m[k1] == v1 && m[k2] == v2 && m["source_type"] == MStr("website") && m["crawler"] == MStr(crawler)
  {
    CreateArticleFields(crawler, title, url, content, author, publishedAt, map[k1 := v1, k2 := v2]);
  }

  // ---------------------------------------------------------------------
  // resolveUrl

  const Slash: set<char> := {'/'}

  /** `resolveUrl`: an address starting with "http" as it is, otherwise the base and the path joined by one slash. */
  function ResolveUrl(url: string, baseUrl: string): (r: string)
    ensures StartsWith(url, "http") ==> r == url
    ensures !StartsWith(url, "http") ==>
      var k := |TrimRight(baseUrl, Slash)|;
      k < |r| && r[k] == '/' &&
      r[..k] == baseUrl[..k] && (k == 0 || r[k - 1] != '/') &&
      r[k + 1..] == TrimLeft(url, Slash) && (k + 1 == |r| || r[k + 1] != '/')
  {
    if StartsWith(url, "http") then url
    else
      var b := TrimRight(baseUrl, Slash);
      var u := TrimLeft(url, Slash);
      JoinedBySlash(b, u);
      b + "/" + u
  }

  lemma JoinedBySlash(b: string, u: string)
    ensures var r := b + "/" + u; |b| < |r| && r[|b|] == '/' && r[..|b|] == b && r[|b| + 1..] == u
  {
    var r := b + "/" + u;
    assert r[..|b|] == b;
    assert r[|b| + 1..] == u;
  }

  // ---------------------------------------------------------------------
  // extractText / extractAttribute

  /** `extractText`: "" for null, otherwise the element's plain text, trimmed. */
  function ExtractText(doc: Document, e: Option<Element>): (r: string)
    ensures e.None? ==> r == ""
    ensures Trim(r) == r
    ensures e.Some? && doc.backend == DomDocumentBackend ==> r == PlainText(e.value)
  {
    match e
    case None => ""
    case Some(x) =>
      var t := PlainTextOf(doc, x);
      TrimIdempotent(t);
      if doc.backend == DomDocumentBackend then PlainTextIsCleaned(x); Trim(t) else Trim(t)
  }

  /**
   * `extractAttribute`: null for null; on the DOMDocument backend the wrapper's
   * `getAttribute` (null unless the value is non-empty); on simple_html_dom the
   * library's answer, whose `false` for a missing attribute the `?string`
   * return type turns into "".
   */
  function ExtractAttribute(doc: Document, e: Option<Element>, name: string): (r: Option<string>)
    ensures e.None? ==> r.None?
    ensures e.Some? && doc.backend == DomDocumentBackend ==>
      (r.Some? <==> name in e.value.attrs && Truthy(e.value.attrs[name]))
    ensures e.Some? && doc.backend == SimpleDomBackend ==> r.Some?
    ensures r.Some? && r.value != "" ==> name in e.value.attrs && r.value == e.value.attrs[name]
  {
    match e
    case None => None
    case Some(x) =>
      match doc.backend
      case DomDocumentBackend => WrapperAttribute(x, name)
      case SimpleDomBackend =>
        match SimpleAttribute(x, name)
        case Some(v) => Some(v)
        case None => Some("")
  }

  /**
   * The link of a block as the BBC and generic crawlers read it: the resolved
   * `href` of its first anchor when `extractAttribute` gives a non-empty one,
   * otherwise the base URL.
   */
  function LinkUrl(find: Finder, doc: Document, baseUrl: string, block: Element): (r: string)
  {
    var link := At(find(Some(block), "a"), 0);
    var href := if link.Some? then ExtractAttribute(doc, link, "href") else None;
    if href.Some? && Truthy(href.value) then ResolveUrl(href.value, baseUrl) else baseUrl
  }

  /** A block's link is the base URL, or its first anchor's non-empty `href` resolved against the base. */
  lemma LinkUrlChoice(find: Finder, doc: Document, baseUrl: string, block: Element)
    ensures var anchors := find(Some(block), "a");
      (|anchors| == 0 ==> LinkUrl(find, doc, baseUrl, block) == baseUrl) &&
      (LinkUrl(find, doc, baseUrl, block) == baseUrl ||
       (|anchors| > 0 && "href" in anchors[0].attrs && Truthy(anchors[0].attrs["href"]) &&
        LinkUrl(find, doc, baseUrl, block) == ResolveUrl(anchors[0].attrs["href"], baseUrl)))
  {
  }

  method ReadLinkUrl(ghost find: Finder, doc: Document, baseUrl: string, block: Element) returns (url: string)
    requires Answers(find, doc)
    ensures url == LinkUrl(find, doc, baseUrl, block)
  {
    var linkElement := FindAt(find, doc, Some(block), "a", 0);
    url := baseUrl;
    if linkElement.Some? {
      var href := ExtractAttribute(doc, linkElement, "href");
      if href.Some? && Truthy(href.value) {
        url := ResolveUrl(href.value, baseUrl);
      }
    }
  }

  /** `extractText` of the first match of a selector (the empty string when nothing matches). */
  method FirstText(ghost find: Finder, doc: Document, ctx: Option<Element>, selector: string) returns (text: string)
    requires Answers(find, doc)
    ensures text == ExtractText(doc, At(find(ctx, selector), 0))
  {
    var element := FindAt(find, doc, ctx, selector, 0);
    text := ExtractText(doc, element);
  }

  // ---------------------------------------------------------------------
  // parseHtml

  /** `str_replace(["\r\n", "\r"], "\n", $s)`. */
  function NormalizeNewlines(s: string): (r: string)
    ensures '\r' !in r
    ensures '\r' !in s ==> r == s
    decreases |s|
  {
    if s == [] then []
    else if s[0] == '\r' then
      "\n" + NormalizeNewlines(if |s| >= 2 && s[1] == '\n' then s[2..] else s[1..])
    else [s[0]] + NormalizeNewlines(s[1..])
  }

  /** The preprocessing of `parseHtml`: line endings to "\n", then NUL bytes removed. */
  function Normalize(html: string): (r: string)
    ensures '\r' !in r && '\0' !in r
  {
    var h := NormalizeNewlines(html);
    RemoveCharKeepsOthers(h, '\0', '\r');
    RemoveChar(h, '\0')
  }

  lemma RemoveCharKeepsOthers(s: string, c: char, d: char)
    requires d !in s
    ensures d !in RemoveChar(s, c)
  {
  }

  /** Text with neither carriage returns nor NUL bytes passes the preprocessing unchanged. */
  lemma {:induction false} NormalizeClean(html: string)
    requires '\r' !in html && '\0' !in html
    ensures Normalize(html) == html
  {
    RemoveCharAbsent(html, '\0');
  }

  lemma {:induction false} RemoveCharAbsent(s: string, c: char)
    requires c !in s
    ensures RemoveChar(s, c) == s
    decreases |s|
  {
    if s != [] {
      assert s[0] != c;
      RemoveCharAbsent(s[1..], c);
      assert s == [s[0]] + s[1..];
    }
  }

  /** Above this many bytes `parseHtml` uses DOMDocument. */
  const DomDocumentThreshold: nat := 600000

  /** At most this many characters go to simple_html_dom. */
  const SimpleDomMaxSize: nat := 550000

  const XmlDeclaration: string := "<?xml encoding=\"UTF-8\">"

  function TooShortMessage(html: string): string
  {
    "HTML content is empty or too short. Length: " + NatToString(ByteLen(html))
  }

  /** `empty($html) || strlen(trim($html)) < 100`. */
  predicate TooShort(html: string)
  {
    !Truthy(html) || ByteLen(Trim(html)) < 100
  }

  /**
   * `preg_match('/<body[^>]*>(.*?)<\/body>/is', ...)`: the text between the
   * first `<body` (any case) that is followed by a `>` and the first
   * `</body>` (any case) after that `>`. A later `<body` cannot succeed
   * where the first failed, so the first one decides.
   */
  function ExtractBody(h: string): (r: Option<string>)
    ensures r.Some? ==> !Contains(Lower(r.value), "</body>")
  {
    var lh := Lower(h);
    match IndexOf(lh, "<body", 0)
    case None => None
    case Some(i) =>
      match IndexOf(h, ">", i + 5)
      case None => None
      case Some(g) =>
        match IndexOf(lh, "</body>", g + 1)
        case None => None
        case Some(k) =>
          LazyBody(h, g + 1, k);
          Some(h[g + 1..k])
  }

  /** The body text ends at the first closing tag, so it holds none. */
  lemma LazyBody(h: string, from: nat, k: nat)
    requires from <= k <= |h|
    requires forall j :: from <= j < k ==> !OccursAt(Lower(h), "</body>", j)
    ensures !Contains(Lower(h[from..k]), "</body>")
  {
    var b := h[from..k];
    var lh := Lower(h);
    forall j | 0 <= j <= |b| - 7
      ensures !OccursAt(Lower(b), "</body>", j)
    {
      assert Lower(b)[j..j + 7] == lh[from + j..from + j + 7];
      assert !OccursAt(lh, "</body>", from + j);
    }
  }

  /** The strings `parseHtmlWithDomDocument` hands to `loadHTML`, in order. */
  function DomAttempts(h: string): seq<string>
  {
    var body := match ExtractBody(h) case Some(b) => b case None => "";
    var toParse := if Truthy(body) then "<html><body>" + body + "</body></html>" else h;
    [XmlDeclaration + toParse, toParse] + (if Truthy(body) then [XmlDeclaration + h, h] else [])
  }

  /** The document of the first attempt that loads. */
  function FirstLoaded(load: string -> Option<Document>, xs: seq<string>): (r: Option<Document>)
    ensures r.Some? ==> exists i :: 0 <= i < |xs| && load(xs[i]) == r && forall j :: 0 <= j < i ==> load(xs[j]).None?
    ensures r.None? ==> forall i :: 0 <= i < |xs| ==> load(xs[i]).None?
  {
    if xs == [] then None
    else if load(xs[0]).Some? then load(xs[0])
    else
      var r := FirstLoaded(load, xs[1..]);
      assert forall i :: 1 <= i < |xs| ==> xs[i] == xs[1..][i - 1];
      r
  }

  /** The exception `parseHtmlWithDomDocument` throws when every attempt fails. */
  function DomFailure(h: string): string
  {
    "DOMDocument failed to parse HTML content. Length: " + NatToString(ByteLen(h))
  }

  /** The outcome of `parseHtmlWithDomDocument` on normalised text. */
  function DomDocumentPath(p: Parsers, h: string): Catchable<Document>
  {
    match FirstLoaded(p.loadHtml, DomAttempts(h))
    case Some(d) => Ok(d)
    case None => Err(DomFailure(h))
  }

  /** What simple_html_dom is given first: at most the first 550000 characters. */
  function SimpleInput(h: string): (t: string)
    ensures |t| <= SimpleDomMaxSize && |t| <= |h|
    ensures t == h[..|t|]
  {
    if ByteLen(h) > SimpleDomMaxSize then Prefix(h, SimpleDomMaxSize) else h
  }

  function Wrapped(t: string): string
  {
    "<html><body>" + t + "</body></html>"
  }

  /** The strings `parseHtmlWithSimpleDom` hands to `str_get_html`, in order. */
  function SimpleAttempts(h: string): seq<string>
  {
    var t := SimpleInput(h);
    [t] + (if !Contains(t, "<html") then [Wrapped(t)] else [])
  }

  /** The outcome of `parseHtmlWithSimpleDom`; the error names the length of the last string tried. */
  function SimpleDomPath(p: Parsers, h: string): Catchable<Document>
  {
    var xs := SimpleAttempts(h);
    match FirstLoaded(p.strGetHtml, xs)
    case Some(d) => Ok(d)
    case None => Err(SimpleDomFailure(xs[|xs| - 1]))
  }

  /** `parseHtml`: reject short input, normalise, then pick the backend by size. */
  function ParseHtmlSpec(p: Parsers, html: string): (r: Catchable<Document>)
    ensures TooShort(html) ==> r == Err(TooShortMessage(html))
  {
    if TooShort(html) then Err(TooShortMessage(html))
    else
      var h := Normalize(html);
      if ByteLen(h) > DomDocumentThreshold then DomDocumentPath(p, h) else SimpleDomPath(p, h)
  }

  method ParseHtml(p: Parsers, html: string) returns (r: Catchable<Document>)
    ensures r == ParseHtmlSpec(p, html)
  {
    if !Truthy(html) || ByteLen(Trim(html)) < 100 {
      return Err(TooShortMessage(html));
    }
    var h := NormalizeNewlines(html);
    h := RemoveChar(h, '\0');
    var htmlLength := ByteLen(h);
    if htmlLength > DomDocumentThreshold {
      r := ParseHtmlWithDomDocument(p, h);
    } else {
      r := ParseHtmlWithSimpleDom(p, h);
    }
  }

  /** `parseHtmlWithDomDocument`: body-only attempts, then, when a body was found, the whole text. */
  method ParseHtmlWithDomDocument(p: Parsers, h: string) returns (r: Catchable<Document>)
    ensures r == DomDocumentPath(p, h)
  {
    var found := ExtractBody(h);
    var bodyContent := if found.Some? then found.value else "";
    var htmlToParse := if Truthy(bodyContent) then "<html><body>" + bodyContent + "</body></html>" else h;
    DomAttemptsShape(h, bodyContent, htmlToParse);
    FirstLoadedUnrolled(p.loadHtml, DomAttempts(h));
    var dom := p.loadHtml(XmlDeclaration + htmlToParse);
    if dom.None? {
      dom := p.loadHtml(htmlToParse);
    }
    if dom.None? && Truthy(bodyContent) {
      dom := p.loadHtml(XmlDeclaration + h);
      if dom.None? {
        dom := p.loadHtml(h);
      }
    }
    if dom.None? {
      return Err(DomFailure(h));
    }
    r := Ok(dom.value);
  }

  lemma DomAttemptsShape(h: string, bodyContent: string, htmlToParse: string)
    requires bodyContent == match ExtractBody(h) case Some(b) => b case None => ""
    requires htmlToParse == if Truthy(bodyContent) then "<html><body>" + bodyContent + "</body></html>" else h
    ensures DomAttempts(h) ==
      [XmlDeclaration + htmlToParse, htmlToParse] + (if Truthy(bodyContent) then [XmlDeclaration + h, h] else [])
  {
  }

  /** `FirstLoaded` on a list of two or four attempts, written out. */
  lemma FirstLoadedUnrolled(load: string -> Option<Document>, xs: seq<string>)
    requires |xs| == 2 || |xs| == 4
    ensures |xs| == 2 ==>
      FirstLoaded(load, xs) == (if load(xs[0]).Some? then load(xs[0]) else load(xs[1]))
    ensures |xs| == 4 ==>
      FirstLoaded(load, xs) ==
        (if load(xs[0]).Some? then load(xs[0]) else if load(xs[1]).Some? then load(xs[1])
         else if load(xs[2]).Some? then load(xs[2]) else load(xs[3]))
  {
    if |xs| == 4 {
      assert xs[1..][1..][1..][1..] == [];
    } else {
      assert xs[1..][1..] == [];
    }
  }

  /** `parseHtmlWithSimpleDom`: the truncated text, then, when it has no `<html`, the text wrapped in a page. */
  method ParseHtmlWithSimpleDom(p: Parsers, h: string) returns (r: Catchable<Document>)
    ensures r == SimpleDomPath(p, h)
  {
    var t := h;
    if ByteLen(t) > SimpleDomMaxSize {
      t := Prefix(t, SimpleDomMaxSize);
    }
    SimpleDomPathUnrolled(p, h, t);
    var dom := p.strGetHtml(t);
    if dom.None? {
      if !Contains(t, "<html") {
        t := Wrapped(t);
        dom := p.strGetHtml(t);
      }
      if dom.None? {
        return Err(SimpleDomFailure(t));
      }
    }
    r := Ok(dom.value);
  }

  function SimpleDomFailure(t: string): string
  {
    "HTML parsing error: Failed to parse HTML content with simple_html_dom. Length: " + NatToString(ByteLen(t))
  }

  /** `SimpleDomPath` written as the two attempts of the source. */
  lemma SimpleDomPathUnrolled(p: Parsers, h: string, t: string)
    requires t == SimpleInput(h)
    ensures SimpleDomPath(p, h) ==
        if p.strGetHtml(t).Some? then Ok(p.strGetHtml(t).value)
        else if Contains(t, "<html") then Err(SimpleDomFailure(t))
        else if p.strGetHtml(Wrapped(t)).Some? then Ok(p.strGetHtml(Wrapped(t)).value)
        else Err(SimpleDomFailure(Wrapped(t)))
  {
    var xs := SimpleAttempts(h);
    if Contains(t, "<html") {
      assert xs == [t];
      assert xs[1..] == [];
    } else {
      assert xs == [t, Wrapped(t)];
      FirstLoadedUnrolled(p.strGetHtml, xs);
    }
  }

  // ---------------------------------------------------------------------
  // What parseHtml guarantees

  /** `loadHTML` yields DOMDocument-backed pages and `str_get_html` simple_html_dom ones. */
  ghost predicate BackendsTagged(p: Parsers)
  {
    (forall s :: p.loadHtml(s).Some? ==> p.loadHtml(s).value.backend == DomDocumentBackend) &&
    (forall s :: p.strGetHtml(s).Some? ==> p.strGetHtml(s).value.backend == SimpleDomBackend)
  }

  /** The DOMDocument backend parses the page exactly when the normalised text exceeds 600000 bytes. */
  lemma BackendBySize(p: Parsers, html: string)
    requires BackendsTagged(p)
    requires ParseHtmlSpec(p, html).Ok?
    ensures ParseHtmlSpec(p, html).value.backend == DomDocumentBackend
      <==> ByteLen(Normalize(html)) > DomDocumentThreshold
  {
    var h := Normalize(html);
    if ByteLen(h) > DomDocumentThreshold {
      var d := FirstLoaded(p.loadHtml, DomAttempts(h));
      assert d.Some?;
      var i :| 0 <= i < |DomAttempts(h)| && p.loadHtml(DomAttempts(h)[i]) == d;
    } else {
      var d := FirstLoaded(p.strGetHtml, SimpleAttempts(h));
      assert d.Some?;
      var i :| 0 <= i < |SimpleAttempts(h)| && p.strGetHtml(SimpleAttempts(h)[i]) == d;
    }
  }

  /** simple_html_dom only ever sees a prefix of at most 550000 characters of the page, possibly wrapped. */
  lemma SimpleDomSeesPrefix(h: string, a: string)
    requires a in SimpleAttempts(h)
    ensures exists t :: |t| <= SimpleDomMaxSize && |t| <= |h| && t == h[..|t|] && (a == t || a == Wrapped(t))
  {
    var t := SimpleInput(h);
    assert a == t || a == Wrapped(t);
  }
}
