// The API crawler (app/Services/Crawlers/ApiCrawlerService.php): one GET of
// the source's base URL, a classification of the decoded JSON body by its
// shape, and one article per item with a fixed precedence of field names.

module ApiCrawler {
  import opened Common
  import opened CrawlerBase

  const Name: string := "API Crawler"
  const Priority: int := 80

  /** `supports`: only sources typed "api". */
  predicate Supports(source: NewsSource)
  {
    source.sourceType == "api"
  }

  // ---------------------------------------------------------------------
  // Reading decoded JSON the way PHP arrays are read

  /** The binding of `key` among an object's fields, if any (decoded objects bind each key once). */
  function Binding(fields: seq<(string, Json)>, key: string): (r: Option<Json>)
    ensures r.Some? <==> exists i :: 0 <= i < |fields| && fields[i].0 == key
    ensures r.Some? ==> exists i :: 0 <= i < |fields| && fields[i] == (key, r.value)
  {
    if fields == [] then None
    else if fields[0].0 == key then Some(fields[0].1)
    else
      var r := Binding(fields[1..], key);
      assert forall i :: 0 < i < |fields| ==> fields[i] == fields[1..][i - 1];
      r
  }

  /**
   * `isset($j[$key])`, `$j[$key] ?? ...`: the value at `key` unless it is
   * missing or null. A list answers decimal keys; scalars answer nothing.
   */
  function Field(j: Json, key: string): (r: Option<Json>)
    ensures r.Some? ==> r.value != JNull
    ensures !(j.JObj? || j.JArr?) ==> r.None?
  {
    match j
    case JObj(fields) =>
      (match Binding(fields, key)
       case Some(v) => if v == JNull then None else Some(v)
       case None => None)
    case JArr(items) => ListField(items, key, 0)
    case _ => None
  }

  function ListField(items: seq<Json>, key: string, k: nat): (r: Option<Json>)
    ensures r.Some? ==> r.value != JNull && r.value in items
    decreases |items|
  {
    if items == [] then None
    else if NatToString(k) == key then (if items[0] == JNull then None else Some(items[0]))
    else ListField(items[1..], key, k + 1)
  }

  /** `$j[$k1] ?? $j[$k2] ?? ...`: the value of the first key that is set. */
  function Pick(j: Json, keys: seq<string>): (r: Option<Json>)
  {
    if keys == [] then None
    else if Field(j, keys[0]).Some? then Field(j, keys[0])
    else Pick(j, keys[1..])
  }

  /** `Pick` is null exactly when no key is set, and otherwise the value of the first key that is. */
  lemma {:induction false} PickIsFirstSet(j: Json, keys: seq<string>)
    ensures Pick(j, keys).None? <==> forall i :: 0 <= i < |keys| ==> Field(j, keys[i]).None?
    ensures Pick(j, keys).Some? ==>
      exists i :: 0 <= i < |keys| && Field(j, keys[i]) == Pick(j, keys) &&
        forall h :: 0 <= h < i ==> Field(j, keys[h]).None?
  {
    if keys != [] && Field(j, keys[0]).None? {
      PickIsFirstSet(j, keys[1..]);
      assert forall i :: 0 < i < |keys| ==> keys[i] == keys[1..][i - 1];
      var r := Pick(j, keys);
      if r.Some? {
        var i :| 0 <= i < |keys[1..]| && Field(j, keys[1..][i]) == r &&
          forall h :: 0 <= h < i ==> Field(j, keys[1..][h]).None?;
        assert Field(j, keys[i + 1]) == r;
      }
    }
  }

  /** PHP's name for the type of a decoded JSON value, as error messages spell it. */
  function TypeName(j: Json): string
  {
    match j
    case JNull => "null"
    case JBool(_) => "bool"
    case JInt(_) => "int"
    case JStr(_) => "string"
    case _ => "array"
  }

  /** `is_array`: lists and objects both decode to PHP arrays. */
  predicate IsArray(j: Json)
  {
    j.JArr? || j.JObj?
  }

  /** The warning `foreach` raises on a value that is neither an array nor an object. */
  function ForeachWarning(j: Json): string
  {
    "foreach() argument must be of type array|object, " + TypeName(j) + " given"
  }

  /**
   * What `foreach` visits: a list's elements or an object's values. On a
   * scalar PHP warns, and the framework's error handler turns every warning
   * into an ErrorException, so the loop throws.
   */
  function Values(j: Json): (r: Result<seq<Json>>)
    ensures r.Ok? <==> j.JArr? || j.JObj?
    ensures j.JArr? ==> r == Ok(j.items)
    ensures j.JObj? ==> |r.value| == |j.fields| && forall i :: 0 <= i < |r.value| ==> r.value[i] == j.fields[i].1
    ensures !r.Ok? ==> r == Err(ForeachWarning(j))
  {
    match j
    case JArr(items) => Ok(items)
    case JObj(fields) => Ok(seq(|fields|, i requires 0 <= i < |fields| => fields[i].1))
    case _ => Err(ForeachWarning(j))
  }

  /** The parameter a value is passed to, as a TypeError message names it. */
  const TitleParameter: string := "App\\Services\\Crawlers\\AbstractCrawlerService::createArticle(): Argument #1 ($title)"
  const UrlParameter: string := "App\\Services\\Crawlers\\AbstractCrawlerService::createArticle(): Argument #2 ($url)"
  const ContentParameter: string := "App\\Services\\Crawlers\\AbstractCrawlerService::createArticle(): Argument #3 ($content)"
  const AuthorParameter: string := "App\\Services\\Crawlers\\AbstractCrawlerService::createArticle(): Argument #4 ($author)"
  const DateParameter: string := "strtotime(): Argument #1 ($datetime)"

  /** The TypeError raised when `j` is passed to `parameter`, a string parameter. */
  function TypeErrorMessage(parameter: string, j: Json): string
  {
    parameter + " must be of type string, " + TypeName(j) + " given"
  }

  /**
   * A JSON value passed where a `string` parameter is expected, as PHP
   * coerces it outside strict mode: strings as they are, integers in
   * decimal, true as "1", false as "". An array or null raises a TypeError,
   * an `\Error` and not an `\Exception`.
   */
  function AsString(j: Json, parameter: string): (r: Result<string>)
    ensures r.Ok? <==> !(j.JArr? || j.JObj? || j.JNull?)
    ensures !r.Ok? ==> r == Fatal(TypeErrorMessage(parameter, j))
    ensures j.JStr? ==> r == Ok(j.s)
    ensures j.JBool? ==> r == Ok(if j.b then "1" else "")
  {
    match j
    case JStr(s) => Ok(s)
    case JInt(i) => Ok(IntToString(i))
    case JBool(b) => Ok(if b then "1" else "")
    case _ => Fatal(TypeErrorMessage(parameter, j))
  }

  // ---------------------------------------------------------------------
  // Response shapes

  /** The non-2xx message. */
  function StatusMessage(status: int): string
  {
    "API request failed with status: " + IntToString(status)
  }

  predicate Successful(status: int)
  {
    200 <= status < 300
  }

  const UnexpectedShape: string := "Unexpected API response structure"

  /**
   * The if/elseif chain that picks the items (articles, results, data, or a
   * list with an element 0), followed by the `foreach` that walks them.
   */
  function Items(data: Json): (r: Result<seq<Json>>)
  {
    if Field(data, "articles").Some? then Values(Field(data, "articles").value)
    else if Field(data, "results").Some? then Values(Field(data, "results").value)
    else if Field(data, "data").Some? then Values(Field(data, "data").value)
    else if (data.JArr? || data.JObj?) && Field(data, "0").Some? then Values(data)
    else Err(UnexpectedShape)
  }

  /**
   * The classification: the first set key of articles, results and data
   * gives the items, else a list with an element 0 is its own items, else
   * the structure is refused. A scalar under the chosen key fails the walk.
   */
  lemma ItemsShape(data: Json)
    ensures (Field(data, "articles").None? && Field(data, "results").None? && Field(data, "data").None? &&
             Field(data, "0").None?) ==> Items(data) == Err(UnexpectedShape)
    ensures Field(data, "articles").Some? ==> Items(data) == Values(Field(data, "articles").value)
    ensures Field(data, "articles").None? && Field(data, "results").Some? ==>
      Items(data) == Values(Field(data, "results").value)
    ensures Field(data, "articles").None? && Field(data, "results").None? && Field(data, "data").Some? ==>
      Items(data) == Values(Field(data, "data").value)
    ensures (Field(data, "articles").None? && Field(data, "results").None? && Field(data, "data").None? &&
             Field(data, "0").Some?) ==> Items(data) == Values(data) && Items(data).Ok?
    ensures !Items(data).Ok? ==> Items(data).Err?
  {
  }

  /** A bare list whose first element is set is its own list of items. */
  lemma BareListIsItems(items: seq<Json>)
    requires |items| > 0 && items[0] != JNull
    ensures Items(JArr(items)) == Ok(items)
  {
    assert NatToString(0) == "0";
    assert Field(JArr(items), "0") == Some(items[0]);
    ListFieldNonNumeric(items, "articles", 0);
    ListFieldNonNumeric(items, "results", 0);
    ListFieldNonNumeric(items, "data", 0);
  }

  /** A list has nothing under a key that starts with a letter. */
  lemma {:induction false} ListFieldNonNumeric(items: seq<Json>, key: string, k: nat)
    requires |key| > 0 && !('0' <= key[0] <= '9')
    ensures ListField(items, key, k).None?
    decreases |items|
  {
    if items != [] {
      assert NatToString(k) != key;
      ListFieldNonNumeric(items[1..], key, k + 1);
    }
  }

  // ---------------------------------------------------------------------
  // One item

  const TitleKeys: seq<string> := ["title", "headline"]
  const UrlKeys: seq<string> := ["url", "link"]
  const ContentKeys: seq<string> := ["content", "body", "description"]
  const AuthorKeys: seq<string> := ["author", "byline"]
  const DateKeys: seq<string> := ["publishedAt", "published_at", "date"]

  /** A picked field passed to `parameter`, or the default when no key is set. */
  function PickString(item: Json, keys: seq<string>, default: string, parameter: string): (r: Result<string>)
  {
    match Pick(item, keys)
    case None => Ok(default)
    case Some(v) => AsString(v, parameter)
  }

  /** A picked field passed to `parameter`, or null when no key is set. */
  function PickOptional(item: Json, keys: seq<string>, parameter: string): (r: Result<Option<string>>)
  {
    match Pick(item, keys)
    case None => Ok(None)
    case Some(v) => var s := AsString(v, parameter); if s.Ok? then Ok(Some(s.value)) else Rethrow(s)
  }

  /** The five values one item contributes, after `??` and the string coercion of the parameters. */
  datatype ItemValues = ItemValues(title: string, url: string, content: string, author: Option<string>, date: Option<string>)

  /**
   * Reads one item. The date is passed to `strtotime` before `createArticle`
   * is called, so its TypeError comes first; `createArticle` then checks its
   * parameters from the first to the fourth.
   */
  function ReadItem(baseUrl: string, item: Json): (r: Result<ItemValues>)
  {
    var date := PickOptional(item, DateKeys, DateParameter);
    var title := PickString(item, TitleKeys, "Untitled", TitleParameter);
    var url := PickString(item, UrlKeys, baseUrl, UrlParameter);
    var content := PickString(item, ContentKeys, "", ContentParameter);
    var author := PickOptional(item, AuthorKeys, AuthorParameter);
    if !date.Ok? then Rethrow(date)
    else if !title.Ok? then Rethrow(title)
    else if !url.Ok? then Rethrow(url)
    else if !content.Ok? then Rethrow(content)
    else if !author.Ok? then Rethrow(author)
    else Ok(ItemValues(title.value, url.value, content.value, author.value, date.value))
  }

  /** The article of one item; the date, when set, goes through `date(strtotime(...))`. */
  function ItemArticle(baseUrl: string, formatDate: string -> string, item: Json): (r: Result<Article>)
  {
    var v := ReadItem(baseUrl, item);
    if v.Ok? then Ok(ItemToArticle(formatDate, item, v.value)) else Rethrow(v)
  }

  function ItemToArticle(formatDate: string -> string, item: Json, v: ItemValues): Article
  {
    var publishedAt := match v.date case Some(d) => Some(formatDate(d)) case None => None;
    CreateArticle(Name, v.title, v.url, v.content, v.author, publishedAt,
      map["source_type" := MStr("api"), "raw_data" := MJson(item)])
  }

  /** Field precedence and defaults of one item. */
  lemma ItemPrecedence(baseUrl: string, item: Json)
    requires ReadItem(baseUrl, item).Ok?
    ensures var v := ReadItem(baseUrl, item).value;
      (Field(item, "title").Some? ==> Ok(v.title) == AsString(Field(item, "title").value, TitleParameter)) &&
      (Field(item, "title").None? && Field(item, "headline").Some? ==>
        Ok(v.title) == AsString(Field(item, "headline").value, TitleParameter)) &&
      (Field(item, "title").None? && Field(item, "headline").None? ==> v.title == "Untitled") &&
      (Field(item, "url").Some? ==> Ok(v.url) == AsString(Field(item, "url").value, UrlParameter)) &&
      (Field(item, "url").None? && Field(item, "link").Some? ==> Ok(v.url) == AsString(Field(item, "link").value, UrlParameter)) &&
      (Field(item, "url").None? && Field(item, "link").None? ==> v.url == baseUrl) &&
      (Field(item, "content").Some? ==> Ok(v.content) == AsString(Field(item, "content").value, ContentParameter)) &&
      (Field(item, "content").None? && Field(item, "body").Some? ==>
        Ok(v.content) == AsString(Field(item, "body").value, ContentParameter)) &&
      (Field(item, "content").None? && Field(item, "body").None? && Field(item, "description").None? ==>
        v.content == "") &&
      (Field(item, "author").Some? ==> Ok(v.author.value) == AsString(Field(item, "author").value, AuthorParameter)) &&
      (v.author.None? <==> Field(item, "author").None? && Field(item, "byline").None?) &&
      (v.date.None? <==>
        Field(item, "publishedAt").None? && Field(item, "published_at").None? && Field(item, "date").None?) &&
      (Field(item, "publishedAt").Some? ==> Ok(v.date.value) == AsString(Field(item, "publishedAt").value, DateParameter)) &&
      (Field(item, "publishedAt").None? && Field(item, "published_at").Some? ==>
        Ok(v.date.value) == AsString(Field(item, "published_at").value, DateParameter))
  {
    PickOrder(item, TitleKeys);
    PickOrder(item, UrlKeys);
    PickOrder(item, ContentKeys);
    PickOrder(item, AuthorKeys);
    PickOrder(item, DateKeys);
  }

  /** The first two keys of a chain, and the chain falling through to its default. */
  lemma PickOrder(item: Json, keys: seq<string>)
    requires |keys| > 1
    ensures Field(item, keys[0]).Some? ==> Pick(item, keys) == Field(item, keys[0])
    ensures Field(item, keys[0]).None? && Field(item, keys[1]).Some? ==> Pick(item, keys) == Field(item, keys[1])
    ensures |keys| == 2 ==> (Pick(item, keys).None? <==> Field(item, keys[0]).None? && Field(item, keys[1]).None?)
    ensures |keys| == 3 ==>
      (Pick(item, keys).None? <==>
         Field(item, keys[0]).None? && Field(item, keys[1]).None? && Field(item, keys[2]).None?)
  {
    assert keys[1..][0] == keys[1];
    PickIsFirstSet(item, keys);
  }

  /** An item's article carries its values; its metadata says "api" over the default, names the crawler and holds the raw item. */
  lemma ItemArticleFields(baseUrl: string, formatDate: string -> string, item: Json)
    ensures ItemArticle(baseUrl, formatDate, item).Ok? <==> ReadItem(baseUrl, item).Ok?
    ensures ItemArticle(baseUrl, formatDate, item).Ok? ==>
      var a := ItemArticle(baseUrl, formatDate, item).value;
      var v := ReadItem(baseUrl, item).value;
      a.title == v.title && a.url == v.url && a.content == v.content && a.author == v.author &&
      (a.publishedAt.Some? <==> v.date.Some?) &&
      (v.date.Some? ==> a.publishedAt.value == formatDate(v.date.value)) &&
      a.metadata.Keys == {"source_type", "raw_data", "crawler"} &&
      a.metadata["source_type"] == MStr("api") && a.metadata["raw_data"] == MJson(item) &&
      a.metadata["crawler"] == MStr(Name)
  {
  }

  /** An item whose fields are all scalars always yields an article. */
  lemma ScalarItemsSucceed(baseUrl: string, item: Json)
    requires forall k :: Field(item, k).Some? ==> !(Field(item, k).value.JArr? || Field(item, k).value.JObj?)
    ensures ReadItem(baseUrl, item).Ok?
  {
    PickScalar(item, TitleKeys);
    PickScalar(item, UrlKeys);
    PickScalar(item, ContentKeys);
    PickScalar(item, AuthorKeys);
    PickScalar(item, DateKeys);
  }

  /**
   * An array among an item's fields is a TypeError, an `\Error`: an array
   * date fails first, in `strtotime`; without a date, an array title fails
   * in `createArticle`'s first parameter.
   */
  lemma ArrayFieldsAreFatal(baseUrl: string, item: Json)
    ensures Field(item, "publishedAt").Some? && IsArray(Field(item, "publishedAt").value) ==>
      ReadItem(baseUrl, item) == Fatal(TypeErrorMessage(DateParameter, Field(item, "publishedAt").value))
    ensures (Field(item, "title").Some? && IsArray(Field(item, "title").value) &&
             Field(item, "publishedAt").None? && Field(item, "published_at").None? && Field(item, "date").None?) ==>
      ReadItem(baseUrl, item) == Fatal(TypeErrorMessage(TitleParameter, Field(item, "title").value))
  {
    PickOrder(item, TitleKeys);
    PickOrder(item, DateKeys);
  }

  lemma PickScalar(item: Json, keys: seq<string>)
    requires forall k :: Field(item, k).Some? ==> !(Field(item, k).value.JArr? || Field(item, k).value.JObj?)
    ensures Pick(item, keys).Some? ==>
      Pick(item, keys).value != JNull && !(Pick(item, keys).value.JArr? || Pick(item, keys).value.JObj?)
  {
    PickIsFirstSet(item, keys);
    if Pick(item, keys).Some? {
      var i :| 0 <= i < |keys| && Field(item, keys[i]) == Pick(item, keys) &&
        forall h :: 0 <= h < i ==> Field(item, keys[h]).None?;
    }
  }

  // ---------------------------------------------------------------------
  // The items in order

  /** The `foreach` body as a function of the item. */
  function ArticleReader(baseUrl: string, formatDate: string -> string): Json -> Result<Article>
  {
    item => ItemArticle(baseUrl, formatDate, item)
  }

  /** The articles of `items` in order, or the first item's error. */
  function ItemsArticles(baseUrl: string, formatDate: string -> string, items: seq<Json>): Result<seq<Article>>
  {
    MapResult(ArticleReader(baseUrl, formatDate), items)
  }

  /** The `foreach ($items as $item)` loop; a TypeError leaves it at once. */
  method CollectArticles(baseUrl: string, formatDate: string -> string, items: seq<Json>)
    returns (r: Result<seq<Article>>)
    ensures r == ItemsArticles(baseUrl, formatDate, items)
  {
    var f := ArticleReader(baseUrl, formatDate);
    var articles: seq<Article> := [];
    var i := 0;
    assert items[0..] == items;
    assert MapResult(f, items) == Prepend([], MapResult(f, items)) by {
      if MapResult(f, items).Ok? { assert [] + MapResult(f, items).value == MapResult(f, items).value; }
    }
    while i < |items|
      invariant 0 <= i <= |items|
      invariant MapResult(f, items) == Prepend(articles, MapResult(f, items[i..]))
    {
      var a := ItemArticle(baseUrl, formatDate, items[i]);
      assert a == f(items[i..][0]);
      if !a.Ok? {
        return Rethrow(a);
      }
      MapResultStep(f, articles, items[i..]);
      assert items[i..][1..] == items[i + 1..];
      articles := articles + [a.value];
      i := i + 1;
    }
    assert articles + [] == articles;
    r := Ok(articles);
  }

  // ---------------------------------------------------------------------
  // crawl

  /** `$response->json()`: the decoded body, null when it is not JSON. */
  function Decoded(response: ApiResponse): Json
  {
    match response.json
    case Some(j) => j
    case None => JNull
  }

  /**
   * `crawl`: the request (a connection failure or time-out throws), the
   * status check, the shape check, then the walk over the items. Every
   * exception is logged and rethrown.
   */
  function CrawlSpec(env: Env, source: NewsSource): (r: Result<seq<Article>>)
    ensures env.apiGet(source.baseUrl).Err? ==> r == Err(env.apiGet(source.baseUrl).message)
    ensures env.apiGet(source.baseUrl).Ok? && !Successful(env.apiGet(source.baseUrl).value.status) ==>
      r == Err(StatusMessage(env.apiGet(source.baseUrl).value.status))
  {
    match env.apiGet(source.baseUrl)
    case Err(m) => Err(m)
    case Ok(response) =>
      if !Successful(response.status) then Err(StatusMessage(response.status))
      else
        var items := Items(Decoded(response));
        if items.Ok? then ItemsArticles(source.baseUrl, env.formatDate, items.value) else Rethrow(items)
  }

  method Crawl(env: Env, source: NewsSource) returns (r: Result<seq<Article>>)
    ensures r == CrawlSpec(env, source)
  {
    var got := env.apiGet(source.baseUrl);
    if got.Err? {
      return Err(got.message);
    }
    var response := got.value;
    if !Successful(response.status) {
      return Err(StatusMessage(response.status));
    }
    var data := Decoded(response);
    var chosen: Json;
    if Field(data, "articles").Some? {
      chosen := Field(data, "articles").value;
    } else if Field(data, "results").Some? {
      chosen := Field(data, "results").value;
    } else if Field(data, "data").Some? {
      chosen := Field(data, "data").value;
    } else if IsArray(data) && Field(data, "0").Some? {
      chosen := data;
    } else {
      return Err(UnexpectedShape);
    }
    var items := Values(chosen);
    if !items.Ok? {
      return Err(items.message);
    }
    r := CollectArticles(source.baseUrl, env.formatDate, items.value);
  }

  /** A body that is not JSON has no recognised shape. */
  lemma NonJsonBodyFails(env: Env, source: NewsSource)
    requires env.apiGet(source.baseUrl).Ok?
    requires Successful(env.apiGet(source.baseUrl).value.status)
    requires env.apiGet(source.baseUrl).value.json.None?
    ensures CrawlSpec(env, source) == Err(UnexpectedShape)
  {
  }

  /**
   * A scalar under the key the chain picks (`{"data": "x"}`) is walked by
   * `foreach`, whose warning fails the crawl with an exception.
   */
  lemma ScalarItemsFail(env: Env, source: NewsSource)
    requires env.apiGet(source.baseUrl).Ok? && Successful(env.apiGet(source.baseUrl).value.status)
    ensures var data := Decoded(env.apiGet(source.baseUrl).value);
      && (Field(data, "articles").Some? && !IsArray(Field(data, "articles").value) ==>
            CrawlSpec(env, source) == Err(ForeachWarning(Field(data, "articles").value)))
      && (Field(data, "articles").None? && Field(data, "results").Some? && !IsArray(Field(data, "results").value) ==>
            CrawlSpec(env, source) == Err(ForeachWarning(Field(data, "results").value)))
      && (Field(data, "articles").None? && Field(data, "results").None? && Field(data, "data").Some? &&
          !IsArray(Field(data, "data").value) ==>
            CrawlSpec(env, source) == Err(ForeachWarning(Field(data, "data").value)))
  {
    ItemsShape(Decoded(env.apiGet(source.baseUrl).value));
  }

  /**
   * A successful crawl had a successful response whose chosen items are an
   * array, and yields one article per item, in order.
   */
  lemma CrawlYieldsOnePerItem(env: Env, source: NewsSource)
    requires CrawlSpec(env, source).Ok?
    ensures env.apiGet(source.baseUrl).Ok?
    ensures var data := Decoded(env.apiGet(source.baseUrl).value);
      Successful(env.apiGet(source.baseUrl).value.status) && Items(data).Ok? &&
      |CrawlSpec(env, source).value| == |Items(data).value| &&
      forall k :: 0 <= k < |Items(data).value| ==>
        ItemArticle(source.baseUrl, env.formatDate, Items(data).value[k]) == Ok(CrawlSpec(env, source).value[k])
  {
    var data := Decoded(env.apiGet(source.baseUrl).value);
    MapResultPerItem(ArticleReader(source.baseUrl, env.formatDate), Items(data).value);
  }

  /**
   * A crawl that fails without an exception from the request, the status
   * or the shape check failed on an item, with that item's failure: an
   * array field is a TypeError that no `catch (\Exception $e)` handles.
   */
  lemma ItemFailureIsTheCrawls(env: Env, source: NewsSource)
    requires env.apiGet(source.baseUrl).Ok? && Successful(env.apiGet(source.baseUrl).value.status)
    requires Items(Decoded(env.apiGet(source.baseUrl).value)).Ok?
    ensures var items := Items(Decoded(env.apiGet(source.baseUrl).value)).value;
      !CrawlSpec(env, source).Ok? ==>
        exists k :: 0 <= k < |items| && !ItemArticle(source.baseUrl, env.formatDate, items[k]).Ok? &&
          CrawlSpec(env, source) == Rethrow(ItemArticle(source.baseUrl, env.formatDate, items[k])) &&
          forall h :: 0 <= h < k ==> ItemArticle(source.baseUrl, env.formatDate, items[h]).Ok?
  {
    var items := Items(Decoded(env.apiGet(source.baseUrl).value)).value;
    MapResultPerItem(ArticleReader(source.baseUrl, env.formatDate), items);
  }
}
