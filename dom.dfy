// The parsed page the crawlers read. Two backends stand behind one
// interface: PHP's DOMDocument, reached through DomDocumentWrapper and
// DomElementWrapper (CSS selectors are translated to XPath, text is read
// from the node tree), and the simple_html_dom library, which answers CSS
// selectors itself. The tree is a value; what the foreign libraries compute
// (XPath evaluation, simple_html_dom's selector engine and text, the parent
// pointer) is carried by the document as functions.

module Dom {
  import opened Common
  import opened Selector

  // ---------------------------------------------------------------------
  // Node tree

  /** A DOM node: text, a CDATA section, an element, or anything else (comment, processing instruction). */
  datatype XNode = TextNode(text: string) | CDataNode(data: string) | ElementNode(element: Element) | OtherNode

  /** An element: its identity in the document, its tag name, its attributes and its children in order. */
  datatype Element = Element(id: nat, name: string, attrs: map<string, string>, childNodes: seq<XNode>)

  /** DOM `textContent` of an element: the text of all text and CDATA descendants, in document order. */
  function TextContent(e: Element): string
    decreases e, 1
  {
    ChildText(e, |e.childNodes|)
  }

  /** The `textContent` contributed by the first `i` children of `e`. */
  function ChildText(e: Element, i: nat): string
    requires i <= |e.childNodes|
    decreases e, 0, i
  {
    if i == 0 then ""
    else
      ChildText(e, i - 1) +
      match e.childNodes[i - 1]
      case TextNode(t) => t
      case CDataNode(t) => t
      case ElementNode(c) => TextContent(c)
      case OtherNode => ""
  }

  // ---------------------------------------------------------------------
  // Whitespace cleanup of DomElementWrapper::getPlainText

  /** `preg_replace('/\s+/', ' ', $s)`: every maximal run of `\s` characters becomes one space. */
  function Collapse(s: string): string
    decreases |s|
  {
    if s == [] then []
    else if IsRegexSpace(s[0]) then " " + Collapse(TrimLeft(s, RegexSpaceChars))
    else [s[0]] + Collapse(s[1..])
  }

  /** The collapse leaves only plain spaces, never two in a row, and keeps the first character unless it is one. */
  lemma {:induction false} CollapseIsCollapsed(s: string)
    ensures SpacesCollapsed(Collapse(s))
    ensures Collapse(s) == [] <==> s == []
    ensures s != [] ==> Collapse(s)[0] == (if IsRegexSpace(s[0]) then ' ' else s[0])
    decreases |s|
  {
    if s != [] {
      var rest := if IsRegexSpace(s[0]) then TrimLeft(s, RegexSpaceChars) else s[1..];
      CollapseIsCollapsed(rest);
    }
  }

  /** Every `\s` character is a plain space and no two of them are adjacent. */
  predicate SpacesCollapsed(r: string)
  {
    (forall i :: 0 <= i < |r| && IsRegexSpace(r[i]) ==> r[i] == ' ') &&
    (forall i :: 0 <= i < |r| - 1 ==> !(IsRegexSpace(r[i]) && IsRegexSpace(r[i + 1])))
  }

  /** What `getPlainText` returns: collapsed, with no `\s` character at either end. */
  predicate Cleaned(r: string)
  {
    SpacesCollapsed(r) && (r == "" || (!IsRegexSpace(r[0]) && !IsRegexSpace(r[|r| - 1])))
  }

  /** The cleanup applied at the end of `getPlainText`: collapse, then `trim`. */
  function Clean(s: string): string
  {
    Trim(Collapse(s))
  }

  /** A piece of a collapsed string is collapsed. */
  lemma CollapsedPiece(s: string, k: nat, n: nat)
    requires SpacesCollapsed(s) && k + n <= |s|
    ensures SpacesCollapsed(s[k..k + n])
  {
    var p := s[k..k + n];
    assert forall i :: 0 <= i < |p| ==> p[i] == s[k + i];
  }

  /** A piece of a collapsed string whose ends `trim` would not strip is cleaned. */
  lemma TrimmedPieceIsCleaned(c: string, r: string, k: nat)
    requires SpacesCollapsed(c) && OccursAt(c, r, k)
    requires r == "" || (r[0] !in PhpTrimChars && r[|r| - 1] !in PhpTrimChars)
    ensures Cleaned(r)
  {
    CollapsedPiece(c, k, |r|);
    assert c[k..k + |r|] == r;
    if r != "" {
      assert ' ' in PhpTrimChars;
      assert r[0] != ' ' && r[|r| - 1] != ' ';
    }
  }

  /** The cleanup leaves no leading, trailing or doubled whitespace. */
  lemma CleanIsCleaned(s: string)
    ensures Cleaned(Clean(s))
  {
    var c := Collapse(s);
    CollapseIsCollapsed(s);
    TrimIsTrimmed(c);
    var k :| 0 <= k <= |c| - |Trim(c)| && OccursAt(c, Trim(c), k);
    TrimmedPieceIsCleaned(c, Trim(c), k);
  }

  /** Dropping a single leading space that is followed by a non-space. */
  lemma TrimLeftOne(s: string)
    requires |s| >= 1 && IsRegexSpace(s[0])
    requires |s| == 1 || !IsRegexSpace(s[1])
    ensures TrimLeft(s, RegexSpaceChars) == s[1..]
  {
    assert TrimLeft(s, RegexSpaceChars) == TrimLeft(s[1..], RegexSpaceChars);
  }

  /** A collapsed string is left alone by the collapse. */
  lemma {:induction false} CollapseFixed(s: string)
    requires SpacesCollapsed(s)
    ensures Collapse(s) == s
    decreases |s|
  {
    if s != [] {
      CollapsedPiece(s, 1, |s| - 1);
      assert s[1..1 + (|s| - 1)] == s[1..];
      CollapseFixed(s[1..]);
      if IsRegexSpace(s[0]) {
        assert |s| == 1 || !IsRegexSpace(s[1]);
        TrimLeftOne(s);
        assert s == [' '] + s[1..];
      } else {
        assert s == [s[0]] + s[1..];
      }
    }
  }

  /** Applying the cleanup to its own output changes nothing. */
  lemma CleanIdempotent(s: string)
    ensures Clean(Clean(s)) == Clean(s)
  {
    var c := Clean(s);
    CleanIsCleaned(s);
    CollapseFixed(c);
    TrimIdempotent(Collapse(s));
  }

  // ---------------------------------------------------------------------
  // DomElementWrapper::getPlainText

  /**
   * The wrapper's plain text: `textContent`, or, when that is empty after
   * trimming, the text rebuilt from the children (text nodes as they are,
   * child elements by their own plain text, CDATA and the rest skipped);
   * then whitespace cleanup.
   */
  function PlainText(e: Element): string
    decreases e, 2, 0
  {
    var t := TextContent(e);
    Clean(if Truthy(Trim(t)) then t else Fallback(e, |e.childNodes|))
  }

  /** The plain text has no leading, trailing or doubled whitespace, and cleaning it again changes nothing. */
  lemma PlainTextIsCleaned(e: Element)
    ensures Cleaned(PlainText(e))
    ensures Clean(PlainText(e)) == PlainText(e)
  {
    var t := TextContent(e);
    var raw := if Truthy(Trim(t)) then t else Fallback(e, |e.childNodes|);
    CleanIsCleaned(raw);
    CleanIdempotent(raw);
  }

  /** The text the fallback traversal collects from the first `i` children of `e`. */
  function Fallback(e: Element, i: nat): string
    requires i <= |e.childNodes|
    decreases e, 1, i
  {
    if i == 0 then "" else Fallback(e, i - 1) + ChildPiece(e, i - 1)
  }

  /** What the fallback traversal takes from child `i`: a text node's text, a child element's plain text, nothing else. */
  function ChildPiece(e: Element, i: nat): string
    requires i < |e.childNodes|
    decreases e, 0, i
  {
    match e.childNodes[i]
    case TextNode(t) => t
    case ElementNode(c) => PlainText(c)
    case _ => ""
  }

  lemma PlainTextIsCleanOfRaw(e: Element, content: string, raw: string)
    requires content == TextContent(e)
    requires raw == if Truthy(Trim(content)) then content else Fallback(e, |e.childNodes|)
    ensures PlainText(e) == Clean(raw)
  {
  }

  /** `getPlainText`: `textContent`, else the fallback traversal, then the cleanup. */
  method GetPlainText(e: Element) returns (r: string)
    ensures r == PlainText(e)
    decreases e, 2
  {
    ghost var content := TextContent(e);
    var text := TextContent(e);
    if !Truthy(Trim(text)) {
      text := CollectFallback(e);
    }
    PlainTextIsCleanOfRaw(e, content, text);
    text := Collapse(text);
    r := Trim(text);
  }

  /** The loop of `getPlainText` over the child nodes, used when `textContent` is empty. */
  method CollectFallback(e: Element) returns (text: string)
    ensures text == Fallback(e, |e.childNodes|)
    decreases e, 1
  {
    text := "";
    var i := 0;
    while i < |e.childNodes|
      invariant 0 <= i <= |e.childNodes|
      invariant text == Fallback(e, i)
    {
      var piece := TakeChild(e, i);
      text := text + piece;
      i := i + 1;
    }
  }

  /** One iteration of that loop: a text node's text, or a child element's plain text. */
  method TakeChild(e: Element, i: nat) returns (piece: string)
    requires i < |e.childNodes|
    ensures piece == ChildPiece(e, i)
    decreases e, 0
  {
    var node := e.childNodes[i];
    piece := "";
    if node.TextNode? {
      piece := node.text;
    } else if node.ElementNode? {
      piece := GetPlainText(node.element);
    }
  }

  /** The plain text of an element with literal text is that text, cleaned. */
  lemma PlainTextOfText(e: Element, t: string)
    requires e.childNodes == [TextNode(t)] && Truthy(Trim(t))
    ensures PlainText(e) == Clean(t)
  {
    assert ChildText(e, 0) == "";
    assert TextContent(e) == t;
  }

  // ---------------------------------------------------------------------
  // Attributes, properties, parent

  /** DomElementWrapper::getAttribute: `getAttribute($name) ?: null`, so a missing, "" or "0" value is null. */
  function WrapperAttribute(e: Element, name: string): (r: Option<string>)
    ensures r.Some? <==> name in e.attrs && Truthy(e.attrs[name])
    ensures r.Some? ==> r.value == e.attrs[name] && r.value != ""
  {
    var v := if name in e.attrs then e.attrs[name] else "";
    if Truthy(v) then Some(v) else None
  }

  /** simple_html_dom's getAttribute: the value, or `false` (here None) when the attribute is absent. */
  function SimpleAttribute(e: Element, name: string): (r: Option<string>)
    ensures r.Some? <==> name in e.attrs
    ensures r.Some? ==> r.value == e.attrs[name]
  {
    if name in e.attrs then Some(e.attrs[name]) else None
  }

  /** DomElementWrapper::__get: the tag name for "tag", the plain text for "plaintext", null for every other name. */
  function Get(e: Element, name: string): (r: Option<string>)
    ensures name == "tag" ==> r == Some(e.name)
    ensures name == "plaintext" ==> r.Some? && Cleaned(r.value)
    ensures r.Some? <==> name == "tag" || name == "plaintext"
  {
    if name == "tag" then Some(e.name)
    else if name == "plaintext" then PlainTextIsCleaned(e); Some(PlainText(e))
    else None
  }

  // ---------------------------------------------------------------------
  // The parsed document and its queries

  datatype Backend = DomDocumentBackend | SimpleDomBackend

  /**
   * A parsed page. `xpathAll` and `xpathIn` are DOMXPath::query from the
   * root and relative to an element (None: the query returned false or
   * threw); `css` is simple_html_dom's `find` without an index;
   * `parentNode` is the node above an element; `simpleText` is
   * simple_html_dom's `plaintext`.
   */
  datatype Document = Document(
    backend: Backend,
    xpathAll: string -> Option<seq<Element>>,
    xpathIn: (Element, string) -> Option<seq<XNode>>,
    css: (Option<Element>, string) -> seq<Element>,
    parentNode: Element -> Option<XNode>,
    simpleText: Element -> string)

  /** The elements among `ns`, in order. */
  function ElementsOf(ns: seq<XNode>): (r: seq<Element>)
    ensures |r| <= |ns|
    ensures forall x :: x in r <==> ElementNode(x) in ns
    ensures (forall i :: 0 <= i < |ns| ==> ns[i].ElementNode?) ==>
      |r| == |ns| && forall i :: 0 <= i < |ns| ==> r[i] == ns[i].element
  {
    if ns == [] then []
    else
      var init := ns[..|ns| - 1];
      var last := ns[|ns| - 1];
      assert ns == init + [last];
      assert forall i :: 0 <= i < |init| ==> init[i] == ns[i];
      ElementsOf(init) + (if last.ElementNode? then [last.element] else [])
  }

  lemma ElementsOfStep(ns: seq<XNode>, i: nat)
    requires i < |ns|
    ensures ElementsOf(ns[..i + 1]) == ElementsOf(ns[..i]) + (if ns[i].ElementNode? then [ns[i].element] else [])
  {
    assert ns[..i + 1][..i] == ns[..i];
  }

  /** DomDocumentWrapper::find without an index: the nodes the translated query selects, or [] on failure. */
  function DocumentFind(doc: Document, selector: string): seq<Element>
  {
    match doc.xpathAll(CssToXPath(DocumentScope, selector))
    case None => []
    case Some(ns) => ns
  }

  /** DomElementWrapper::find without an index: the element nodes the relative query selects, or [] on failure. */
  function ElementFind(doc: Document, e: Element, selector: string): (r: seq<Element>)
    ensures forall x :: x in r ==>
      exists ns :: doc.xpathIn(e, CssToXPath(ElementScope, selector)) == Some(ns) && ElementNode(x) in ns
  {
    match doc.xpathIn(e, CssToXPath(ElementScope, selector))
    case None => []
    case Some(ns) => ElementsOf(ns)
  }

  /** DomDocumentWrapper::find, which wraps every node the query returns. */
  method FindInDocument(doc: Document, selector: string) returns (r: seq<Element>)
    ensures r == DocumentFind(doc, selector)
  {
    var xpath := CssToXPath(DocumentScope, selector);
    var nodes := doc.xpathAll(xpath);
    if nodes.None? || |nodes.value| == 0 {
      return [];
    }
    r := WrapAll(nodes.value);
  }

  /** The `foreach` of DomDocumentWrapper::find: one result per node, in order. */
  method WrapAll(nodes: seq<Element>) returns (r: seq<Element>)
    ensures r == nodes
  {
    r := [];
    var i := 0;
    while i < |nodes|
      invariant 0 <= i <= |nodes|
      invariant r == nodes[..i]
    {
      r := r + [nodes[i]];
      i := i + 1;
    }
    assert nodes[..i] == nodes;
  }

  /** DomElementWrapper::find, which keeps only the element nodes. */
  method FindInElement(doc: Document, e: Element, selector: string) returns (r: seq<Element>)
    ensures r == ElementFind(doc, e, selector)
  {
    var xpath := CssToXPath(ElementScope, selector);
    var nodes := doc.xpathIn(e, xpath);
    if nodes.None? || |nodes.value| == 0 {
      return [];
    }
    r := KeepElements(nodes.value);
  }

  /** The `foreach` of DomElementWrapper::find: the element nodes, in order. */
  method KeepElements(ns: seq<XNode>) returns (r: seq<Element>)
    ensures r == ElementsOf(ns)
  {
    r := [];
    var i := 0;
    while i < |ns|
      invariant 0 <= i <= |ns|
      invariant r == ElementsOf(ns[..i])
    {
      ElementsOfStep(ns, i);
      if ns[i].ElementNode? {
        r := r + [ns[i].element];
      }
      i := i + 1;
    }
    assert ns[..i] == ns;
  }

  /**
   * `$dom->find($selector)` from the root (ctx = None) or `$element->find($selector)`
   * below an element, whichever backend parsed the page.
   */
  function Query(doc: Document, ctx: Option<Element>, selector: string): seq<Element>
  {
    match doc.backend
    case SimpleDomBackend => doc.css(ctx, selector)
    case DomDocumentBackend =>
      match ctx
      case None => DocumentFind(doc, selector)
      case Some(e) => ElementFind(doc, e, selector)
  }

  /** What a crawler asks of a parsed page: the matches of a selector from the root (None) or below an element. */
  type Finder = (Option<Element>, string) -> seq<Element>

  /** The `find` of a parsed page, on whichever backend parsed it. */
  function QueryOf(doc: Document): Finder
  {
    (ctx, selector) => Query(doc, ctx, selector)
  }

  /** `find` gives exactly the page's answers. */
  ghost predicate Answers(find: Finder, doc: Document)
  {
    forall ctx, selector {:trigger Query(doc, ctx, selector)} :: find(ctx, selector) == Query(doc, ctx, selector)
  }

  /** The page's own `find` does. */
  lemma QueryOfAnswers(doc: Document)
    ensures Answers(QueryOf(doc), doc)
  {
  }

  method Find(doc: Document, ctx: Option<Element>, selector: string) returns (r: seq<Element>)
    ensures r == Query(doc, ctx, selector)
  {
    match doc.backend {
      case SimpleDomBackend =>
        r := doc.css(ctx, selector);
      case DomDocumentBackend =>
        match ctx {
          case None => r := FindInDocument(doc, selector);
          case Some(e) => r := FindInElement(doc, e, selector);
        }
    }
  }

  /** `find($selector, $index)`: `isset($results[$index]) ? $results[$index] : null`. */
  function At(results: seq<Element>, index: nat): (r: Option<Element>)
    ensures index < |results| ==> r == Some(results[index])
    ensures index >= |results| ==> r == None
  {
    if index < |results| then Some(results[index]) else None
  }

  /** `find($selector)` as a crawler that reasons about `find` sees it. */
  method FindWith(ghost find: Finder, doc: Document, ctx: Option<Element>, selector: string) returns (r: seq<Element>)
    requires Answers(find, doc)
    ensures r == find(ctx, selector)
  {
    r := Find(doc, ctx, selector);
  }

  /** `find($selector, $index)` on either backend: the element at that index, or null. */
  method FindAt(ghost find: Finder, doc: Document, ctx: Option<Element>, selector: string, index: nat) returns (r: Option<Element>)
    requires Answers(find, doc)
    ensures r == At(find(ctx, selector), index)
  {
    var all := Find(doc, ctx, selector);
    r := At(all, index);
  }

  /** `$element->plaintext` on either backend. */
  function PlainTextOf(doc: Document, e: Element): string
  {
    match doc.backend
    case DomDocumentBackend => PlainText(e)
    case SimpleDomBackend => doc.simpleText(e)
  }

  /** `$element->parent()`: the parent when it is an element, null otherwise. */
  function Parent(doc: Document, e: Element): (r: Option<Element>)
    ensures r.Some? <==> doc.parentNode(e).Some? && doc.parentNode(e).value.ElementNode?
    ensures r.Some? ==> doc.parentNode(e) == Some(ElementNode(r.value))
  {
    match doc.parentNode(e)
    case Some(ElementNode(p)) => Some(p)
    case _ => None
  }

  /** `$link->href ?? ''` as written: DomElementWrapper::__get knows no `href`, so the DOMDocument backend always gives "". */
  function HrefAsWritten(doc: Document, e: Element): (r: string)
    ensures doc.backend == DomDocumentBackend ==> r == ""
    ensures doc.backend == SimpleDomBackend ==> r == (if "href" in e.attrs then e.attrs["href"] else "")
  {
    match doc.backend
    case DomDocumentBackend =>
      (match Get(e, "href") case Some(v) => v case None => "")
    case SimpleDomBackend =>
      (match SimpleAttribute(e, "href") case Some(v) => v case None => "")
  }

  /** `$link->href` as intended: the `href` attribute on either backend, "" when it is absent. */
  function Href(e: Element): (r: string)
    ensures "href" in e.attrs ==> r == e.attrs["href"]
    ensures "href" !in e.attrs ==> r == ""
  {
    if "href" in e.attrs then e.attrs["href"] else ""
  }

  /** An anchor with a real link that the DOMDocument backend, as written, reports as having none. */
  lemma HrefLostOnDomDocument(doc: Document, e: Element)
    requires doc.backend == DomDocumentBackend
    requires e.attrs == map["href" := "https://example.org/a"]
    ensures HrefAsWritten(doc, e) == "" && Href(e) == "https://example.org/a"
  {
  }
}
