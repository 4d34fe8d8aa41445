// The CSS-to-XPath translator shared by the two DOMDocument wrappers
// (app/Services/Crawlers/DomDocumentWrapper.php and DomElementWrapper.php).
// Both copies of `cssToXPath` take the same branches in the same order and
// differ only in the axis written in front of every step: `//` for the
// document, `.//` for queries scoped to one element. Each regular expression
// of the source is decided here by a small parser, proved to accept exactly
// the strings the expression describes.

module Selector {
  import opened Common

  /** Where a translated expression is evaluated. */
  datatype Scope = DocumentScope | ElementScope

  function AxisPrefix(scope: Scope): (p: string)
    ensures p == if scope == DocumentScope then "//" else ".//"
  {
    match scope
    case DocumentScope => "//"
    case ElementScope => ".//"
  }

  /** The predicate the translator writes for a class token `c`. */
  function ClassTest(c: string): string
  {
    "[contains(concat(' ', normalize-space(@class), ' '), ' " + c + " ')]"
  }

  /** The predicate the translator writes for an id. */
  function IdTest(id: string): string
  {
    "[@id='" + id + "']"
  }

  predicate IsQuote(c: char)
  {
    c == '"' || c == '\''
  }

  predicate NoQuote(v: string)
  {
    forall i :: 0 <= i < |v| ==> !IsQuote(v[i])
  }

  predicate AllWord(t: string)
  {
    forall i :: 0 <= i < |t| ==> IsWordChar(t[i])
  }

  /** Length of the longest prefix of `\w` characters. */
  function WordRun(s: string): (n: nat)
    ensures n <= |s| && AllWord(s[..n])
    ensures n < |s| ==> !IsWordChar(s[n])
  {
    if |s| > 0 && IsWordChar(s[0]) then
      var k := WordRun(s[1..]);
      assert s[..k + 1] == [s[0]] + s[1..][..k];
      k + 1
    else 0
  }

  lemma WordRunOf(t: string, rest: string)
    requires AllWord(t) && (rest == [] || !IsWordChar(rest[0]))
    ensures WordRun(t + rest) == |t|
    decreases |t|
  {
    if |t| > 0 {
      assert (t + rest)[1..] == t[1..] + rest;
      WordRunOf(t[1..], rest);
    } else {
      assert t + rest == rest;
    }
  }

  /** The position of the last quote character. */
  function LastQuote(t: string): (r: Option<nat>)
    ensures r.Some? ==> r.value < |t| && IsQuote(t[r.value]) && NoQuote(t[r.value + 1..])
    ensures r.None? ==> NoQuote(t)
  {
    if t == [] then None
    else if IsQuote(t[|t| - 1]) then Some(|t| - 1)
    else
      var r := LastQuote(t[..|t| - 1]);
      assert r.Some? ==> t[r.value + 1..] == t[..|t| - 1][r.value + 1..] + [t[|t| - 1]];
      r
  }

  lemma LastQuoteAt(w: string, p: nat)
    requires p < |w| && IsQuote(w[p]) && NoQuote(w[p + 1..])
    ensures LastQuote(w) == Some(p)
    decreases |w|
  {
    if p < |w| - 1 {
      assert w[|w| - 1] == w[p + 1..][|w| - 2 - p];
      var u := w[..|w| - 1];
      assert u[p + 1..] == w[p + 1..][..|w| - 2 - p];
      LastQuoteAt(u, p);
    }
  }

  lemma LastQuoteOf(t: string, q: char, v: string)
    requires IsQuote(q) && NoQuote(v)
    ensures LastQuote(t + [q] + v) == Some(|t|)
  {
    var w := t + [q] + v;
    assert w[|t|] == q;
    assert w[|t| + 1..] == v;
    LastQuoteAt(w, |t|);
  }

  // ---------------------------------------------------------------------
  // /^(\w+)?\[([^\]]*)\*=["']([^"']+)["']\]$/

  /** The groups of a match, with the two quote characters it used. */
  datatype AttrContains = AttrContains(tag: string, attr: string, value: string, open: char, close: char)

  function ContainsSelector(m: AttrContains): string
  {
    m.tag + "[" + m.attr + "*=" + [m.open] + m.value + [m.close] + "]"
  }

  predicate ContainsShapeOk(m: AttrContains)
  {
    AllWord(m.tag) && ']' !in m.attr && |m.value| >= 1 && NoQuote(m.value)
    && IsQuote(m.open) && IsQuote(m.close)
  }

  /** The part after `[`: an attribute text, `*=`, a quote, and a quote-free value up to the end. */
  function ContainsTail(tag: string, t: string, close: char): (m: Option<AttrContains>)
    ensures m.Some? ==> m.value.tag == tag && m.value.close == close
    ensures m.Some? ==> ']' !in m.value.attr && |m.value.value| >= 1 && NoQuote(m.value.value) && IsQuote(m.value.open)
    ensures m.Some? ==> t == m.value.attr + "*=" + [m.value.open] + m.value.value
  {
    match LastQuote(t)
    case None => None
    case Some(j) =>
      if j >= 2 && j + 1 < |t| && t[j - 2..j] == "*=" && ']' !in t[..j - 2] then
        assert t == t[..j - 2] + t[j - 2..j] + [t[j]] + t[j + 1..];
        Some(AttrContains(tag, t[..j - 2], t[j + 1..], t[j], close))
      else None
  }

  lemma ContainsTailComplete(m: AttrContains)
    requires ']' !in m.attr && |m.value| >= 1 && NoQuote(m.value) && IsQuote(m.open)
    ensures ContainsTail(m.tag, m.attr + "*=" + [m.open] + m.value, m.close) == Some(m)
  {
    var a := m.attr + "*=";
    var t := a + [m.open] + m.value;
    LastQuoteOf(a, m.open, m.value);
    var j := |a|;
    assert t[j - 2..j] == "*=";
    assert t[..j - 2] == m.attr;
    assert t[j + 1..] == m.value;
  }

  /** How a bracketed string decomposes around its opening bracket and closing quote. */
  lemma SplitAroundBracket(s: string, k: nat)
    requires k < |s| && s[k] == '[' && |s| - (k + 1) >= 2 && s[|s| - 1] == ']'
    ensures s == s[..k] + "[" + s[k + 1..|s| - 2] + [s[|s| - 2]] + "]"
  {
    assert s == s[..k] + [s[k]] + s[k + 1..|s| - 2] + [s[|s| - 2]] + [s[|s| - 1]];
  }

  /** The expression is its tag, then the bracketed attribute test. */
  lemma ContainsSelectorAround(m: AttrContains, t: string)
    requires t == m.attr + "*=" + [m.open] + m.value
    ensures ContainsSelector(m) == m.tag + "[" + t + [m.close] + "]"
  {
    assert m.tag + "[" + m.attr + "*=" + [m.open] + m.value == m.tag + "[" + t;
  }

  /** Decides the attribute-contains expression. */
  function MatchAttrContains(s: string): (m: Option<AttrContains>)
    ensures m.Some? ==> ContainsShapeOk(m.value) && s == ContainsSelector(m.value)
  {
    var k := WordRun(s);
    if k < |s| && s[k] == '[' && |s| - (k + 1) >= 2 && s[|s| - 1] == ']' && IsQuote(s[|s| - 2]) then
      var t := s[k + 1..|s| - 2];
      var r := ContainsTail(s[..k], t, s[|s| - 2]);
      if r.Some? then
        SplitAroundBracket(s, k);
        ContainsSelectorAround(r.value, t);
        r
      else None
    else None
  }

  lemma MatchAttrContainsWhen(s: string, k: nat, m: AttrContains)
    requires WordRun(s) == k && k < |s| && s[k] == '[' && |s| - (k + 1) >= 2
    requires s[|s| - 1] == ']' && IsQuote(s[|s| - 2])
    requires ContainsTail(s[..k], s[k + 1..|s| - 2], s[|s| - 2]) == Some(m)
    ensures MatchAttrContains(s) == Some(m)
  {
  }

  /** Every string of the expression's shape is accepted, with its groups. */
  lemma MatchAttrContainsComplete(m: AttrContains)
    requires ContainsShapeOk(m)
    ensures MatchAttrContains(ContainsSelector(m)) == Some(m)
  {
    var t := m.attr + "*=" + [m.open] + m.value;
    ContainsSelectorAround(m, t);
    ContainsTailComplete(m);
    MatchAttrContainsOfParts(m.tag, t, m.close, m);
  }

  /** A word, `[`, a tail the tail matcher accepts, a quote and `]` are accepted as a whole. */
  lemma MatchAttrContainsOfParts(tag: string, t: string, close: char, m: AttrContains)
    requires AllWord(tag) && IsQuote(close) && |t| >= 1
    requires ContainsTail(tag, t, close) == Some(m)
    ensures MatchAttrContains(tag + "[" + t + [close] + "]") == Some(m)
  {
    BracketedShape(tag, t, close);
    MatchAttrContainsWhen(tag + "[" + t + [close] + "]", |tag|, m);
  }

  /** The pieces of `tag[t<close>]` read back by position, with the word run ending at `[`. */
  lemma BracketedShape(tag: string, t: string, close: char)
    requires AllWord(tag)
    ensures var s := tag + "[" + t + [close] + "]";
      WordRun(s) == |tag| && |s| == |tag| + |t| + 3 && s[..|tag|] == tag && s[|tag|] == '[' &&
      s[|tag| + 1..|s| - 2] == t && s[|s| - 2] == close && s[|s| - 1] == ']'
  {
    var s := tag + "[" + t + [close] + "]";
    assert s[..|tag|] == tag;
    assert s[|tag| + 1..|s| - 2] == t;
    WordRunOf(tag, "[" + t + [close] + "]");
    assert s == tag + ("[" + t + [close] + "]");
  }

  // ---------------------------------------------------------------------
  // /^\[([^\]]+)\]$/

  /** The text between the brackets of `[...]`. */
  function BracketInner(s: string): (r: Option<string>)
    ensures r.Some? ==> |r.value| >= 1 && ']' !in r.value && s == "[" + r.value + "]"
    ensures r.None? ==> forall v :: |v| >= 1 && ']' !in v ==> s != "[" + v + "]"
  {
    if |s| >= 3 && s[0] == '[' && s[|s| - 1] == ']' && ']' !in s[1..|s| - 1] then
      assert s == "[" + s[1..|s| - 1] + "]";
      Some(s[1..|s| - 1])
    else None
  }

  // ['"]([^'"]+)['"]$ -- `$` also accepts a final line feed.

  predicate EndAnchor(e: string)
  {
    e == "" || e == "\n"
  }

  /** Length of the longest prefix free of quote characters. */
  function NonQuoteRun(s: string): (n: nat)
    ensures n <= |s| && NoQuote(s[..n])
    ensures n < |s| ==> IsQuote(s[n])
  {
    if |s| > 0 && !IsQuote(s[0]) then
      var k := NonQuoteRun(s[1..]);
      assert s[..k + 1] == [s[0]] + s[1..][..k];
      k + 1
    else 0
  }

  lemma NonQuoteRunOf(v: string, rest: string)
    requires NoQuote(v) && (rest == [] || IsQuote(rest[0]))
    ensures NonQuoteRun(v + rest) == |v|
    decreases |v|
  {
    if |v| > 0 {
      assert (v + rest)[1..] == v[1..] + rest;
      NonQuoteRunOf(v[1..], rest);
    } else {
      assert v + rest == rest;
    }
  }

  /** A quoted value closing the subject: `q value q` and the end anchor. */
  function QuotedTail(b: string): (r: Option<string>)
    ensures r.Some? ==> |r.value| >= 1 && NoQuote(r.value) && |b| >= |r.value| + 2
    ensures r.Some? ==> IsQuote(b[0]) && IsQuote(b[|r.value| + 1]) && EndAnchor(b[|r.value| + 2..])
    ensures r.Some? ==> b == [b[0]] + r.value + [b[|r.value| + 1]] + b[|r.value| + 2..]
  {
    if |b| >= 3 && IsQuote(b[0]) then
      var n := NonQuoteRun(b[1..]);
      if n >= 1 && n + 1 < |b| && EndAnchor(b[n + 2..]) then
        assert b[1..][..n] == b[1..n + 1];
        assert b == [b[0]] + b[1..n + 1] + [b[n + 1]] + b[n + 2..];
        Some(b[1..n + 1])
      else None
    else None
  }

  lemma QuotedTailComplete(q1: char, v: string, q2: char, e: string)
    requires IsQuote(q1) && IsQuote(q2) && |v| >= 1 && NoQuote(v) && EndAnchor(e)
    ensures QuotedTail([q1] + v + [q2] + e) == Some(v)
  {
    var b := [q1] + v + [q2] + e;
    assert b[1..] == v + ([q2] + e);
    NonQuoteRunOf(v, [q2] + e);
    assert b[|v| + 2..] == e;
    assert b[1..|v| + 1] == v;
  }

  /** `\s*` at the front of the subject. */
  function SkipSpaces(s: string): (r: string)
    ensures r == TrimLeft(s, RegexSpaceChars)
  {
    TrimLeft(s, RegexSpaceChars)
  }

  predicate AllSpaces(w: string)
  {
    forall i :: 0 <= i < |w| ==> w[i] in RegexSpaceChars
  }

  lemma SkipSpacesOf(w: string, rest: string)
    requires AllSpaces(w) && |rest| > 0 && rest[0] !in RegexSpaceChars
    ensures SkipSpaces(w + rest) == rest
    decreases |w|
  {
    if |w| > 0 {
      assert (w + rest)[1..] == w[1..] + rest;
      SkipSpacesOf(w[1..], rest);
    } else {
      assert w + rest == rest;
    }
  }

  /** `\s* = \s*` followed by a quoted value closing the subject. */
  function EqualsQuoted(a: string): (r: Option<string>)
  {
    var b := SkipSpaces(a);
    if |b| > 0 && b[0] == '=' then QuotedTail(SkipSpaces(b[1..])) else None
  }

  lemma EqualsQuotedComplete(w1: string, w2: string, tail: string, v: string)
    requires AllSpaces(w1) && AllSpaces(w2)
    requires |tail| > 0 && IsQuote(tail[0]) && QuotedTail(tail) == Some(v)
    ensures EqualsQuoted(w1 + "=" + w2 + tail) == Some(v)
  {
    var rest2 := w2 + tail;
    var a := w1 + "=" + w2 + tail;
    assert a == w1 + ("=" + rest2);
    SkipSpacesOf(w1, "=" + rest2);
    SkipSpacesOf(w2, tail);
    EqualsQuotedAfter(a, rest2);
  }

  lemma EqualsQuotedAfter(a: string, rest: string)
    requires SkipSpaces(a) == "=" + rest
    ensures EqualsQuoted(a) == QuotedTail(SkipSpaces(rest))
  {
    var b := "=" + rest;
    assert b[0] == '=' && b[1..] == rest;
  }

  // /^class\s*=\s*['"]([^'"]+)['"]$/

  function MatchClassEquals(inner: string): (r: Option<string>)
    ensures r.Some? ==> StartsWith(inner, "class") && |r.value| >= 1 && NoQuote(r.value)
  {
    if StartsWith(inner, "class") then EqualsQuoted(inner[5..]) else None
  }

  lemma MatchClassEqualsComplete(w1: string, w2: string, q1: char, v: string, q2: char, e: string)
    requires AllSpaces(w1) && AllSpaces(w2)
    requires IsQuote(q1) && IsQuote(q2) && |v| >= 1 && NoQuote(v) && EndAnchor(e)
    ensures MatchClassEquals("class" + w1 + "=" + w2 + [q1] + v + [q2] + e) == Some(v)
  {
    var tail := [q1] + v + [q2] + e;
    QuotedTailComplete(q1, v, q2, e);
    var a := w1 + "=" + w2 + tail;
    assert "class" + w1 + "=" + w2 + [q1] + v + [q2] + e == "class" + a;
    var inner := "class" + a;
    assert inner[..5] == "class";
    assert inner[5..] == a;
    EqualsQuotedComplete(w1, w2, tail, v);
  }

  // /^(\w+(?:-\w+)*)\s*=\s*['"]([^'"]+)['"]$/

  /** Word runs joined by single hyphens: `\w+(?:-\w+)*`. */
  predicate IsHyphenatedName(n: string)
  {
    |n| >= 1 && IsWordChar(n[0]) && IsWordChar(n[|n| - 1])
    && (forall i :: 0 <= i < |n| ==> IsWordChar(n[i]) || n[i] == '-')
    && (forall i :: 0 <= i < |n| - 1 ==> !(n[i] == '-' && n[i + 1] == '-'))
  }

  predicate IsNameChar(c: char)
  {
    IsWordChar(c) || c == '-'
  }

  predicate AllName(t: string)
  {
    forall i :: 0 <= i < |t| ==> IsNameChar(t[i])
  }

  function NameRun(s: string): (n: nat)
    ensures n <= |s| && AllName(s[..n])
    ensures n < |s| ==> !IsNameChar(s[n])
  {
    if |s| > 0 && IsNameChar(s[0]) then
      var k := NameRun(s[1..]);
      assert s[..k + 1] == [s[0]] + s[1..][..k];
      k + 1
    else 0
  }

  lemma NameRunOf(t: string, rest: string)
    requires AllName(t)
    requires rest == [] || !IsNameChar(rest[0])
    ensures NameRun(t + rest) == |t|
    decreases |t|
  {
    if |t| > 0 {
      assert (t + rest)[1..] == t[1..] + rest;
      NameRunOf(t[1..], rest);
    } else {
      assert t + rest == rest;
    }
  }

  function MatchAttrEquals(inner: string): (r: Option<(string, string)>)
    ensures r.Some? ==> IsHyphenatedName(r.value.0) && |r.value.1| >= 1 && NoQuote(r.value.1)
    ensures r.Some? ==> StartsWith(inner, r.value.0)
  {
    var n := NameRun(inner);
    if IsHyphenatedName(inner[..n]) then
      (match EqualsQuoted(inner[n..])
       case None => None
       case Some(v) => Some((inner[..n], v)))
    else None
  }

  lemma MatchAttrEqualsComplete(name: string, w1: string, w2: string, q1: char, v: string, q2: char, e: string)
    requires IsHyphenatedName(name) && AllSpaces(w1) && AllSpaces(w2)
    requires IsQuote(q1) && IsQuote(q2) && |v| >= 1 && NoQuote(v) && EndAnchor(e)
    ensures MatchAttrEquals(name + w1 + "=" + w2 + [q1] + v + [q2] + e) == Some((name, v))
  {
    var tail := [q1] + v + [q2] + e;
    QuotedTailComplete(q1, v, q2, e);
    var rest := w1 + "=" + w2 + tail;
    var inner := name + rest;
    assert name + w1 + "=" + w2 + [q1] + v + [q2] + e == inner;
    assert rest[0] == if |w1| > 0 then w1[0] else '=';
    assert AllName(name);
    NameRunOf(name, rest);
    assert inner[..|name|] == name;
    assert inner[|name|..] == rest;
    EqualsQuotedComplete(w1, w2, tail, v);
  }

  // /^(\w+)(\.|#)(.+)$/  -- the subject is trimmed, so `$` is its end.

  datatype Qualified = Qualified(tag: string, sep: char, value: string)

  function MatchQualified(s: string): (r: Option<Qualified>)
    ensures r.Some? ==> |r.value.tag| >= 1 && AllWord(r.value.tag) && (r.value.sep == '.' || r.value.sep == '#')
    ensures r.Some? ==> |r.value.value| >= 1 && '\n' !in r.value.value
    ensures r.Some? ==> s == r.value.tag + [r.value.sep] + r.value.value
  {
    var k := WordRun(s);
    if 1 <= k && k + 1 < |s| && (s[k] == '.' || s[k] == '#') && '\n' !in s[k + 1..] then
      assert s == s[..k] + [s[k]] + s[k + 1..];
      Some(Qualified(s[..k], s[k], s[k + 1..]))
    else None
  }

  // ---------------------------------------------------------------------
  // The translation

  /** The step for `tag[attr*="v"]`: a `contains` test on the trimmed attribute name. */
  function ContainsStep(m: AttrContains): string
  {
    Elvis(m.tag, "*") + "[contains(@" + Trim(m.attr) + ", '" + m.value + "')]"
  }

  /** The step for a bracketed `[inner]` that is not the contains form. */
  function BracketStep(inner: string): string
  {
    match MatchClassEquals(inner)
    case Some(v) => "*" + ClassTest(v)
    case None =>
      match MatchAttrEquals(inner)
      case Some(nv) => "*[@" + nv.0 + "='" + nv.1 + "']"
      case None => "*[@" + inner + "]"
  }

  /** The step for a selector without brackets. */
  function PlainStep(s: string): string
  {
    if StartsWith(s, ".") then "*" + ClassTest(s[1..])
    else if StartsWith(s, "#") then "*" + IdTest(s[1..])
    else
      match MatchQualified(s)
      case Some(q) => q.tag + (if q.sep == '.' then ClassTest(q.value) else IdTest(q.value))
      // the plain-tag expression and the fallback both yield the selector itself
      case None => s
  }

  /** The XPath step written after the axis for one trimmed selector without commas. */
  function Step(s: string): string
  {
    match MatchAttrContains(s)
    case Some(m) => ContainsStep(m)
    case None =>
      match BracketInner(s)
      case Some(inner) => BracketStep(inner)
      case None => PlainStep(s)
  }

  /** One member of the union: the axis of the scope, then the step. */
  function TranslateOne(scope: Scope, s: string): string
  {
    AxisPrefix(scope) + Step(s)
  }

  /** `cssToXPath`: a comma-separated list becomes the union of its trimmed parts. */
  function CssToXPath(scope: Scope, selector: string): string
    decreases |selector|
  {
    if ',' in selector then
      var parts := Split(selector, ',');
      Join(seq(|parts|, i requires 0 <= i < |parts| => CssToXPath(scope, Trim(parts[i]))), " | ")
    else TranslateOne(scope, Trim(selector))
  }

  /** The comma-separated parts of a selector (the whole selector when it has no comma). */
  function Parts(selector: string): (ps: seq<string>)
    ensures |ps| >= 1
  {
    if ',' in selector then Split(selector, ',') else [selector]
  }

  /** The members of the union `CssToXPath` writes, one per comma-separated part. */
  function Members(scope: Scope, selector: string): (ms: seq<string>)
    ensures |ms| == |Parts(selector)|
    ensures forall i :: 0 <= i < |ms| ==> StartsWith(ms[i], AxisPrefix(scope))
  {
    var parts := Parts(selector);
    seq(|parts|, i requires 0 <= i < |parts| => TranslateOne(scope, Trim(parts[i])))
  }

  /** A trimmed part of a comma-free string has no comma and is already trimmed. */
  lemma TrimmedPart(p: string)
    requires ',' !in p
    ensures ',' !in Trim(p) && Trim(Trim(p)) == Trim(p)
  {
    if ',' in Trim(p) {
      TrimKeepsChars(p, ',');
    }
    TrimIdempotent(p);
  }

  /** The translation is the union (` | `) of the translations of the trimmed parts. */
  lemma TranslationIsUnionOfParts(scope: Scope, selector: string)
    ensures CssToXPath(scope, selector) == Join(Members(scope, selector), " | ")
  {
    if ',' in selector {
      var parts := Split(selector, ',');
      var xs := seq(|parts|, i requires 0 <= i < |parts| => CssToXPath(scope, Trim(parts[i])));
      forall i | 0 <= i < |parts|
        ensures xs[i] == Members(scope, selector)[i]
      {
        TrimmedPart(parts[i]);
      }
      assert xs == Members(scope, selector);
    }
  }

  lemma RelativeAxis(x: string)
    ensures ".//" + x == "." + ("//" + x)
  {
    assert ".//" == "." + "//";
  }

  /** An element-scoped query is the document query with every member made relative (`.//`). */
  lemma ElementScopeIsRelative(selector: string)
    ensures |Members(ElementScope, selector)| == |Members(DocumentScope, selector)|
    ensures forall i :: 0 <= i < |Members(DocumentScope, selector)| ==>
      Members(ElementScope, selector)[i] == "." + Members(DocumentScope, selector)[i]
  {
    var parts := Parts(selector);
    forall i | 0 <= i < |parts|
      ensures Members(ElementScope, selector)[i] == "." + Members(DocumentScope, selector)[i]
    {
      var x := Step(Trim(parts[i]));
      assert Members(ElementScope, selector)[i] == ".//" + x;
      assert Members(DocumentScope, selector)[i] == "//" + x;
      RelativeAxis(x);
    }
  }

  // ---------------------------------------------------------------------
  // What the individual forms translate to

  /** A string that `trim` leaves unchanged because neither end is strippable. */
  predicate TrimStable(s: string)
  {
    s == "" || (s[0] !in PhpTrimChars && s[|s| - 1] !in PhpTrimChars)
  }

  lemma TrimOfStable(s: string)
    requires TrimStable(s)
    ensures Trim(s) == s
  {
    assert TrimLeft(s, PhpTrimChars) == s;
  }

  /** A comma-free selector that trimming leaves alone is one member: the axis and its step. */
  lemma CssOfSingle(scope: Scope, s: string)
    requires ',' !in s && TrimStable(s)
    ensures CssToXPath(scope, s) == AxisPrefix(scope) + Step(s)
  {
    TrimOfStable(s);
  }

  lemma StepOfBracket(s: string, inner: string)
    requires MatchAttrContains(s) == None && BracketInner(s) == Some(inner)
    ensures Step(s) == BracketStep(inner)
  {
  }

  lemma StepOfPlain(s: string)
    requires MatchAttrContains(s) == None && BracketInner(s) == None
    ensures Step(s) == PlainStep(s)
  {
  }

  lemma NotPrefixed(s: string)
    requires |s| > 0 && s[0] != '.' && s[0] != '#'
    ensures !StartsWith(s, ".") && !StartsWith(s, "#")
  {
    assert s[..1] == [s[0]];
  }

  lemma PlainStepOfQualified(s: string, q: Qualified)
    requires |s| > 0 && s[0] != '.' && s[0] != '#' && MatchQualified(s) == Some(q)
    ensures PlainStep(s) == q.tag + (if q.sep == '.' then ClassTest(q.value) else IdTest(q.value))
  {
    NotPrefixed(s);
  }

  lemma PlainStepOfOther(s: string)
    requires |s| > 0 && s[0] != '.' && s[0] != '#' && MatchQualified(s) == None
    ensures PlainStep(s) == s
  {
    NotPrefixed(s);
  }

  /** A selector that neither starts a word run nor a bracket is not the contains form. */
  lemma ContainsNeedsBracket(s: string)
    requires |s| > 0 && !IsWordChar(s[0]) && s[0] != '['
    ensures MatchAttrContains(s) == None
  {
    assert WordRun(s) == 0;
  }

  lemma MatchAttrContainsRejectedBy(s: string, k: nat)
    requires WordRun(s) == k && k < |s| && |s| - (k + 1) >= 2
    requires ContainsTail(s[..k], s[k + 1..|s| - 2], s[|s| - 2]) == None
    ensures MatchAttrContains(s) == None
  {
  }

  /** A quoted value after a plain `=` is not the contains form: the quote is not preceded by `*=`. */
  lemma ContainsTailRejectsEquals(tag: string, a: string, q: char, v: string, close: char)
    requires IsQuote(q) && NoQuote(v) && (a == "" || a[|a| - 1] != '*')
    ensures ContainsTail(tag, a + "=" + [q] + v, close) == None
  {
    var t := a + "=" + [q] + v;
    LastQuoteOf(a + "=", q, v);
    assert t == (a + "=") + [q] + v;
    if |a| >= 1 {
      assert t[|a| - 1..|a| + 1] == [a[|a| - 1], '='];
    }
  }

  // `.c` and `#id`

  lemma ClassStep(c: string)
    ensures Step("." + c) == "*" + ClassTest(c)
  {
    var s := "." + c;
    ContainsNeedsBracket(s);
    assert s[1..] == c;
  }

  lemma PrefixedIsSingle(p: char, c: string)
    requires p !in PhpTrimChars && p != ',' && ',' !in c && TrimStable(c)
    ensures ',' !in [p] + c && TrimStable([p] + c)
  {
    var s := [p] + c;
    assert forall i :: 1 <= i < |s| ==> s[i] == c[i - 1];
  }

  /** `.c` selects by class token. */
  lemma ClassSelector(scope: Scope, c: string)
    requires ',' !in c && TrimStable(c)
    ensures CssToXPath(scope, "." + c) == AxisPrefix(scope) + ("*" + ClassTest(c))
  {
    PrefixedIsSingle('.', c);
    CssOfSingle(scope, "." + c);
    ClassStep(c);
  }

  lemma IdStep(id: string)
    ensures Step("#" + id) == "*" + IdTest(id)
  {
    var s := "#" + id;
    ContainsNeedsBracket(s);
    assert s[1..] == id;
  }

  /** `#id` selects by id. */
  lemma IdSelector(scope: Scope, id: string)
    requires ',' !in id && TrimStable(id)
    ensures CssToXPath(scope, "#" + id) == AxisPrefix(scope) + ("*" + IdTest(id))
  {
    PrefixedIsSingle('#', id);
    CssOfSingle(scope, "#" + id);
    IdStep(id);
  }

  // `[name="v"]` and `[class="v"]`

  /** A bracketed `name=` text with a quoted value is not the contains form. */
  lemma BracketEqualsNotContains(name: string, q: char, v: string)
    requires IsQuote(q) && NoQuote(v) && (name == "" || name[|name| - 1] != '*')
    ensures MatchAttrContains("[" + name + "=" + [q] + v + [q] + "]") == None
  {
    var t := name + "=" + [q] + v;
    var s := "[" + t + [q] + "]";
    assert s == "[" + name + "=" + [q] + v + [q] + "]";
    assert s[0] == '[' && WordRun(s) == 0;
    assert s[1..|s| - 2] == t && s[|s| - 2] == q && s[..0] == "";
    ContainsTailRejectsEquals("", name, q, v, q);
    MatchAttrContainsRejectedBy(s, 0);
  }

  lemma BracketInnerOf(inner: string)
    requires |inner| >= 1 && ']' !in inner
    ensures BracketInner("[" + inner + "]") == Some(inner)
  {
    var s := "[" + inner + "]";
    assert s[1..|s| - 1] == inner;
  }

  lemma BracketedEquals(name: string, q: char, v: string)
    ensures "[" + name + "=" + [q] + v + [q] + "]" == "[" + (name + "=" + [q] + v + [q]) + "]"
  {
  }

  /** The step of a bracketed `name="v"` form is the step chosen for its inner text. */
  lemma EqualsFormStep(name: string, q: char, v: string)
    requires IsQuote(q) && |v| >= 1 && NoQuote(v) && ']' !in v && ']' !in name
    requires name == "" || name[|name| - 1] != '*'
    ensures Step("[" + name + "=" + [q] + v + [q] + "]") == BracketStep(name + "=" + [q] + v + [q])
  {
    var inner := name + "=" + [q] + v + [q];
    BracketedEquals(name, q, v);
    BracketEqualsNotContains(name, q, v);
    BracketInnerOf(inner);
    StepOfBracket("[" + inner + "]", inner);
  }

  lemma EqualsWithoutSpaces(name: string, q: char, v: string)
    ensures name + "=" + [q] + v + [q] == name + "" + "=" + "" + [q] + v + [q] + ""
  {
  }

  lemma ClassEqualsBracketStep(q: char, v: string)
    requires IsQuote(q) && |v| >= 1 && NoQuote(v)
    ensures BracketStep("class" + "=" + [q] + v + [q]) == "*" + ClassTest(v)
  {
    EqualsWithoutSpaces("class", q, v);
    MatchClassEqualsComplete("", "", q, v, q, "");
  }

  lemma ClassEqualsSpelled(q: char, v: string)
    ensures "[class=" + [q] + v + [q] + "]" == "[" + "class" + "=" + [q] + v + [q] + "]"
  {
  }

  lemma ClassEqualsSpelledStep(q: char, v: string, r: string)
    requires Step("[" + "class" + "=" + [q] + v + [q] + "]") == r
    ensures Step("[class=" + [q] + v + [q] + "]") == r
  {
    ClassEqualsSpelled(q, v);
  }

  lemma ClassEqualsStep(q: char, v: string)
    requires IsQuote(q) && |v| >= 1 && NoQuote(v) && ']' !in v
    ensures Step("[class=" + [q] + v + [q] + "]") == "*" + ClassTest(v)
  {
    EqualsFormStep("class", q, v);
    ClassEqualsBracketStep(q, v);
    ClassEqualsSpelledStep(q, v, "*" + ClassTest(v));
  }

  lemma ClassEqualsIsSingle(q: char, v: string)
    requires IsQuote(q) && ',' !in v
    ensures ',' !in "[class=" + [q] + v + [q] + "]" && TrimStable("[class=" + [q] + v + [q] + "]")
  {
  }

  /** `[class="v"]` (either quote) selects by class token, like `.v`. */
  lemma ClassEqualsSelector(scope: Scope, q: char, v: string)
    requires IsQuote(q) && |v| >= 1 && NoQuote(v) && ']' !in v && ',' !in v
    ensures CssToXPath(scope, "[class=" + [q] + v + [q] + "]") == AxisPrefix(scope) + ("*" + ClassTest(v))
  {
    ClassEqualsIsSingle(q, v);
    CssOfSingle(scope, "[class=" + [q] + v + [q] + "]");
    ClassEqualsStep(q, v);
  }

  /** A name other than `class` followed by `=` does not start the class form. */
  lemma ShortNameNotClass(name: string, inner: string)
    requires name != "class" && |inner| > |name| && inner[..|name|] == name && inner[|name|] == '=' && |name| <= 5
    ensures !StartsWith(inner, "class")
  {
    if |name| < 5 {
      assert "class"[|name|] != '=';
    }
  }

  lemma LongNameNotClassEquals(name: string, inner: string)
    requires IsHyphenatedName(name)
    requires |inner| > |name| && inner[..|name|] == name && |name| > 5
    ensures MatchClassEquals(inner) == None
  {
    if StartsWith(inner, "class") {
      var a := inner[5..];
      assert a[0] == name[5];
      assert !IsRegexSpace(a[0]) && a[0] != '=';
      assert SkipSpaces(a) == a;
    }
  }

  lemma NotClassEquals(name: string, inner: string)
    requires IsHyphenatedName(name) && name != "class"
    requires |inner| > |name| && inner[..|name|] == name && inner[|name|] == '='
    ensures MatchClassEquals(inner) == None
  {
    if |name| <= 5 {
      ShortNameNotClass(name, inner);
    } else {
      LongNameNotClassEquals(name, inner);
    }
  }

  lemma AttrEqualsBracketStep(name: string, q: char, v: string)
    requires IsHyphenatedName(name) && name != "class"
    requires IsQuote(q) && |v| >= 1 && NoQuote(v)
    ensures BracketStep(name + "=" + [q] + v + [q]) == "*[@" + name + "='" + v + "']"
  {
    var inner := name + "=" + [q] + v + [q];
    assert inner[..|name|] == name && inner[|name|] == '=';
    NotClassEquals(name, inner);
    EqualsWithoutSpaces(name, q, v);
    MatchAttrEqualsComplete(name, "", "", q, v, q, "");
  }

  lemma AttrEqualsStep(name: string, q: char, v: string)
    requires IsHyphenatedName(name) && name != "class"
    requires IsQuote(q) && |v| >= 1 && NoQuote(v) && ']' !in v
    ensures Step("[" + name + "=" + [q] + v + [q] + "]") == "*[@" + name + "='" + v + "']"
  {
    assert AllName(name);
    assert ']' !in name;
    EqualsFormStep(name, q, v);
    AttrEqualsBracketStep(name, q, v);
  }

  lemma AttrEqualsIsSingle(name: string, q: char, v: string)
    requires IsHyphenatedName(name) && IsQuote(q) && ',' !in v
    ensures ',' !in "[" + name + "=" + [q] + v + [q] + "]"
    ensures TrimStable("[" + name + "=" + [q] + v + [q] + "]")
  {
    assert AllName(name);
    assert ',' !in name;
  }

  /** `[name="v"]` for any other hyphenated name selects by exact attribute value. */
  lemma AttrEqualsSelector(scope: Scope, name: string, q: char, v: string)
    requires IsHyphenatedName(name) && name != "class"
    requires IsQuote(q) && |v| >= 1 && NoQuote(v) && ']' !in v && ',' !in v
    ensures CssToXPath(scope, "[" + name + "=" + [q] + v + [q] + "]")
      == AxisPrefix(scope) + ("*[@" + name + "='" + v + "']")
  {
    AttrEqualsIsSingle(name, q, v);
    CssOfSingle(scope, "[" + name + "=" + [q] + v + [q] + "]");
    AttrEqualsStep(name, q, v);
  }

  // `[name]`

  /** A name, with no `=` and no quote, is neither the class form nor the `name="v"` form. */
  lemma BareNameNotEquals(name: string)
    requires IsHyphenatedName(name)
    ensures MatchClassEquals(name) == None && MatchAttrEquals(name) == None
  {
    assert AllName(name);
    if StartsWith(name, "class") {
      var a := name[5..];
      if |a| > 0 {
        assert IsNameChar(a[0]) && !IsRegexSpace(a[0]);
        assert SkipSpaces(a) == a;
      }
    }
    NameRunOf(name, []);
    assert name + [] == name;
    assert name[..|name|] == name;
  }

  /** The step of `[name]` tests that the attribute is present. */
  lemma AttrPresentStep(name: string)
    requires IsHyphenatedName(name)
    ensures Step("[" + name + "]") == "*[@" + name + "]"
  {
    var s := "[" + name + "]";
    assert AllName(name);
    assert WordRun(s) == 0;
    assert s[|s| - 2] == name[|name| - 1] && !IsQuote(s[|s| - 2]);
    BracketInnerOf(name);
    StepOfBracket(s, name);
    BareNameNotEquals(name);
  }

  /** `[name]` without a value selects the elements that carry the attribute. */
  lemma AttrPresentSelector(scope: Scope, name: string)
    requires IsHyphenatedName(name)
    ensures CssToXPath(scope, "[" + name + "]") == AxisPrefix(scope) + ("*[@" + name + "]")
  {
    assert AllName(name);
    assert ',' !in "[" + name + "]";
    CssOfSingle(scope, "[" + name + "]");
    AttrPresentStep(name);
  }

  // `tag[attr*="v"]`

  lemma ContainsStepOf(m: AttrContains)
    requires ContainsShapeOk(m)
    ensures Step(ContainsSelector(m)) == ContainsStep(m)
  {
    MatchAttrContainsComplete(m);
  }

  lemma ContainsSelectorIsSingle(m: AttrContains)
    requires ContainsShapeOk(m) && ',' !in m.attr && ',' !in m.value
    ensures ',' !in ContainsSelector(m) && TrimStable(ContainsSelector(m))
  {
    var s := ContainsSelector(m);
    assert ',' !in m.tag;
    if |m.tag| > 0 { assert IsWordChar(s[0]); } else { assert s[0] == '['; }
  }

  /** `tag[attr*="v"]` (either quote, tag optional) selects where the attribute contains `v`. */
  lemma AttrContainsSelector(scope: Scope, m: AttrContains)
    requires ContainsShapeOk(m) && ',' !in m.attr && ',' !in m.value
    ensures CssToXPath(scope, ContainsSelector(m)) == AxisPrefix(scope) + ContainsStep(m)
  {
    ContainsSelectorIsSingle(m);
    CssOfSingle(scope, ContainsSelector(m));
    ContainsStepOf(m);
  }

  // `tag.c`, `tag#id` and the forms passed through

  lemma QualifiedSplit(tag: string, sep: char, value: string)
    ensures tag + [sep] + value == tag + ([sep] + value)
  {
  }

  lemma QualifiedStep(tag: string, sep: char, value: string)
    requires |tag| >= 1 && AllWord(tag) && (sep == '.' || sep == '#')
    requires |value| >= 1 && '\n' !in value
    ensures Step(tag + [sep] + value) == tag + (if sep == '.' then ClassTest(value) else IdTest(value))
  {
    var s := tag + [sep] + value;
    QualifiedSplit(tag, sep, value);
    WordRunOf(tag, [sep] + value);
    assert s[..|tag|] == tag && s[|tag| + 1..] == value;
    assert MatchAttrContains(s) == None by {
      assert s[|tag|] == sep;
    }
    assert BracketInner(s) == None by {
      assert IsWordChar(s[0]);
    }
    StepOfPlain(s);
    assert MatchQualified(s) == Some(Qualified(tag, sep, value));
    PlainStepOfQualified(s, Qualified(tag, sep, value));
  }

  lemma QualifiedIsSingle(tag: string, sep: char, value: string)
    requires |tag| >= 1 && AllWord(tag) && (sep == '.' || sep == '#')
    requires ',' !in value && TrimStable(value) && |value| >= 1
    ensures ',' !in tag + [sep] + value && TrimStable(tag + [sep] + value)
  {
    assert ',' !in tag;
    assert IsWordChar(tag[0]);
  }

  /** `tag.c` and `tag#id` qualify the tag with a class token or an id. */
  lemma QualifiedSelector(scope: Scope, tag: string, sep: char, value: string)
    requires |tag| >= 1 && AllWord(tag) && (sep == '.' || sep == '#')
    requires |value| >= 1 && '\n' !in value && ',' !in value && TrimStable(value)
    ensures CssToXPath(scope, tag + [sep] + value)
      == AxisPrefix(scope) + (tag + (if sep == '.' then ClassTest(value) else IdTest(value)))
  {
    QualifiedIsSingle(tag, sep, value);
    CssOfSingle(scope, tag + [sep] + value);
    QualifiedStep(tag, sep, value);
  }

  lemma TaggedEquals(tag: string, attr: string, q: char, v: string)
    ensures tag + "[" + attr + "=" + [q] + v + [q] + "]" == tag + ("[" + attr + "=" + [q] + v + [q] + "]")
  {
  }

  lemma QualifiedAttrEqualsNotContains(tag: string, attr: string, q: char, v: string)
    requires AllWord(tag) && IsQuote(q) && NoQuote(v)
    requires attr == "" || attr[|attr| - 1] != '*'
    ensures MatchAttrContains(tag + "[" + attr + "=" + [q] + v + [q] + "]") == None
  {
    var rest := "[" + attr + "=" + [q] + v + [q] + "]";
    var s := tag + rest;
    TaggedEquals(tag, attr, q, v);
    WordRunOf(tag, rest);
    var k := |tag|;
    assert s[k + 1..|s| - 2] == attr + "=" + [q] + v;
    ContainsTailRejectsEquals(s[..k], attr, q, v, s[|s| - 2]);
    MatchAttrContainsRejectedBy(s, k);
  }

  lemma QualifiedAttrEqualsNotQualified(tag: string, attr: string, q: char, v: string)
    requires |tag| >= 1 && AllWord(tag)
    ensures MatchQualified(tag + "[" + attr + "=" + [q] + v + [q] + "]") == None
  {
    var rest := "[" + attr + "=" + [q] + v + [q] + "]";
    var s := tag + rest;
    TaggedEquals(tag, attr, q, v);
    WordRunOf(tag, rest);
    assert s[|tag|] == '[';
  }

  lemma QualifiedAttrEqualsStep(tag: string, attr: string, q: char, v: string)
    requires |tag| >= 1 && AllWord(tag) && IsQuote(q) && NoQuote(v)
    requires attr == "" || attr[|attr| - 1] != '*'
    ensures Step(tag + "[" + attr + "=" + [q] + v + [q] + "]") == tag + "[" + attr + "=" + [q] + v + [q] + "]"
  {
    var s := tag + "[" + attr + "=" + [q] + v + [q] + "]";
    QualifiedAttrEqualsNotContains(tag, attr, q, v);
    assert IsWordChar(s[0]);
    StepOfPlain(s);
    QualifiedAttrEqualsNotQualified(tag, attr, q, v);
    PlainStepOfOther(s);
  }

  lemma QualifiedAttrEqualsIsSingle(tag: string, attr: string, q: char, v: string)
    requires |tag| >= 1 && AllWord(tag) && IsQuote(q) && ',' !in attr && ',' !in v
    ensures ',' !in tag + "[" + attr + "=" + [q] + v + [q] + "]"
    ensures TrimStable(tag + "[" + attr + "=" + [q] + v + [q] + "]")
  {
    assert ',' !in tag;
    assert IsWordChar(tag[0]);
  }

  /** `tag[attr="v"]` is not one of the supported forms: it is written out unchanged after the axis. */
  lemma QualifiedAttrEqualsPassesThrough(scope: Scope, tag: string, attr: string, q: char, v: string)
    requires |tag| >= 1 && AllWord(tag) && IsQuote(q) && NoQuote(v)
    requires ',' !in attr && ',' !in v && (attr == "" || attr[|attr| - 1] != '*')
    ensures CssToXPath(scope, tag + "[" + attr + "=" + [q] + v + [q] + "]")
      == AxisPrefix(scope) + (tag + "[" + attr + "=" + [q] + v + [q] + "]")
  {
    QualifiedAttrEqualsIsSingle(tag, attr, q, v);
    CssOfSingle(scope, tag + "[" + attr + "=" + [q] + v + [q] + "]");
    QualifiedAttrEqualsStep(tag, attr, q, v);
  }

  // ---------------------------------------------------------------------
  // What the class test means (XPath 1.0, sections 4.2 and 4.3)

  /** XPath whitespace: space, tab, carriage return, line feed. */
  const XPathSpaceChars: set<char> := {' ', '\t', '\r', '\n'}

  predicate NoXPathSpace(t: string)
  {
    forall i :: 0 <= i < |t| ==> t[i] !in XPathSpaceChars
  }

  function NonSpaceRun(s: string): (n: nat)
    ensures n <= |s| && NoXPathSpace(s[..n])
    ensures n < |s| ==> s[n] in XPathSpaceChars
  {
    if |s| > 0 && s[0] !in XPathSpaceChars then
      var k := NonSpaceRun(s[1..]);
      assert s[..k + 1] == [s[0]] + s[1..][..k];
      k + 1
    else 0
  }

  /** The whitespace-separated tokens of a string: the class names of a `class` attribute. */
  predicate IsToken(t: string)
  {
    |t| >= 1 && NoXPathSpace(t)
  }

  predicate AllTokens(ts: seq<string>)
  {
    forall i :: 0 <= i < |ts| ==> IsToken(ts[i])
  }

  lemma AllTokensCons(t: string, ts: seq<string>)
    requires IsToken(t) && AllTokens(ts)
    ensures AllTokens([t] + ts)
  {
    assert forall i :: 1 <= i < |[t] + ts| ==> ([t] + ts)[i] == ts[i - 1];
  }

  function Tokens(s: string): (ts: seq<string>)
    ensures AllTokens(ts)
    decreases |s|
  {
    var l := TrimLeft(s, XPathSpaceChars);
    if l == "" then []
    else
      var k := NonSpaceRun(l);
      assert k >= 1;
      var rest := Tokens(l[k..]);
      AllTokensCons(l[..k], rest);
      [l[..k]] + rest
  }

  /** `normalize-space`: the tokens separated by single spaces. */
  function NormalizeSpace(s: string): string
  {
    Join(Tokens(s), " ")
  }

  /** `contains(concat(' ', normalize-space(@class), ' '), ' c ')` on the attribute's value. */
  predicate ClassTestHolds(classAttr: string, c: string)
  {
    Contains(" " + NormalizeSpace(classAttr) + " ", " " + c + " ")
  }

  /** The tokens, each preceded by a space, with a closing space. */
  function Spaced(ts: seq<string>): string
  {
    if ts == [] then " " else " " + ts[0] + Spaced(ts[1..])
  }

  lemma SpacedIsPadded(ts: seq<string>)
    requires |ts| >= 1
    ensures " " + Join(ts, " ") + " " == Spaced(ts)
  {
    if |ts| > 1 {
      SpacedIsPadded(ts[1..]);
      assert Join(ts, " ") == ts[0] + " " + Join(ts[1..], " ");
    }
  }

  lemma {:induction false} TokenFoundInSpaced(ts: seq<string>, c: string)
    requires c in ts
    ensures Contains(Spaced(ts), " " + c + " ")
    decreases |ts|
  {
    var rest := Spaced(ts[1..]);
    assert Spaced(ts) == " " + ts[0] + rest;
    assert rest[0] == ' ' by { if ts[1..] != [] { assert rest == " " + ts[1] + Spaced(ts[2..]); } }
    if ts[0] == c {
      var pat := " " + c + " ";
      assert Spaced(ts)[0..|pat|] == pat;
      assert OccursAt(Spaced(ts), pat, 0);
    } else {
      TokenFoundInSpaced(ts[1..], c);
      ContainsInSuffix(" " + ts[0], rest, " " + c + " ");
      assert Spaced(ts) == (" " + ts[0]) + rest;
    }
  }

  /** A match of ` c ` at the front of ` t rest` (rest starting with a space) is the token itself. */
  lemma MatchAtStartIsToken(t: string, rest: string, c: string)
    requires IsToken(t) && IsToken(c) && |rest| >= 1 && rest[0] == ' '
    ensures OccursAt(" " + t + rest, " " + c + " ", 0) ==> c == t
  {
    var w := " " + t + rest;
    var pat := " " + c + " ";
    if |c| < |t| {
      assert w[|c| + 1] == t[|c|] && pat[|c| + 1] == ' ';
      assert w[..|pat|] != pat;
    } else if |c| > |t| {
      if |pat| <= |w| {
        assert w[|t| + 1] == ' ' && pat[|t| + 1] == c[|t|];
        assert w[..|pat|] != pat;
      }
    } else if OccursAt(w, pat, 0) {
      assert c == pat[1..|c| + 1] == w[1..|t| + 1] == t;
    }
  }

  /** No match of ` c ` starts inside a token. */
  lemma NoMatchInsideToken(t: string, rest: string, c: string, i: nat)
    requires IsToken(t) && 1 <= i <= |t|
    ensures !OccursAt(" " + t + rest, " " + c + " ", i)
  {
    var w := " " + t + rest;
    assert w[i] == t[i - 1];
  }

  lemma {:induction false} SpacedHoldsOnlyTokens(ts: seq<string>, c: string)
    requires AllTokens(ts) && IsToken(c)
    requires Contains(Spaced(ts), " " + c + " ")
    ensures c in ts
    decreases |ts|
  {
    var pat := " " + c + " ";
    if ts == [] {
      assert false;
    } else {
      var i :| 0 <= i <= |Spaced(ts)| - |pat| && OccursAt(Spaced(ts), pat, i);
      var t := ts[0];
      var rest := Spaced(ts[1..]);
      var w := Spaced(ts);
      assert w == " " + t + rest;
      assert IsToken(t);
      assert rest[0] == ' ' by { if ts[1..] != [] { assert rest == " " + ts[1] + Spaced(ts[2..]); } }
      if i == 0 {
        MatchAtStartIsToken(t, rest, c);
      } else {
        if i <= |t| {
          NoMatchInsideToken(t, rest, c, i);
        }
        assert i > |t|;
        var j := i - |t| - 1;
        assert rest[j..j + |pat|] == w[i..i + |pat|];
        assert OccursAt(rest, pat, j);
        assert AllTokens(ts[1..]);
        SpacedHoldsOnlyTokens(ts[1..], c);
      }
    }
  }

  /** The class test holds exactly when `c` is one of the attribute's class names. */
  lemma ClassTestMeansToken(classAttr: string, c: string)
    requires IsToken(c)
    ensures ClassTestHolds(classAttr, c) <==> c in Tokens(classAttr)
  {
    var ts := Tokens(classAttr);
    if ts == [] {
      assert " " + NormalizeSpace(classAttr) + " " == "  ";
      assert !Contains("  ", " " + c + " ");
    } else {
      SpacedIsPadded(ts);
      if ClassTestHolds(classAttr, c) {
        SpacedHoldsOnlyTokens(ts, c);
      }
      if c in ts {
        TokenFoundInSpaced(ts, c);
      }
    }
  }
}
