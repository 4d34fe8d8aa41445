// Search request shaping (app/Services/ElasticsearchService.php): the query
// body `buildSearchQuery` sends to the `articles` index for a set of request
// parameters, and the page of results `formatSearchResults` makes of the
// decoded response. Sending the request is not part of this model.

module Search {
  import opened Common
  import opened CrawlerBase
  import ApiCrawler

  // ---------------------------------------------------------------------
  // PHP's `(int)` on a string

  predicate IsDigit(c: char)
  {
    '0' <= c <= '9'
  }

  function DigitValue(c: char): nat
    requires IsDigit(c)
  {
    c as int - '0' as int
  }

  /** The value of a string of decimal digits. */
  function DecimalValue(s: string): nat
    requires forall i :: 0 <= i < |s| ==> IsDigit(s[i])
    decreases |s|
  {
    if s == [] then 0 else DecimalValue(s[..|s| - 1]) * 10 + DigitValue(s[|s| - 1])
  }

  /** The longest prefix made of digits. */
  function LeadingDigits(s: string): (r: string)
    ensures |r| <= |s| && r == s[..|r|]
    ensures forall i :: 0 <= i < |r| ==> IsDigit(r[i])
    ensures |r| < |s| ==> !IsDigit(s[|r|])
    decreases |s|
  {
    if s != [] && IsDigit(s[0]) then [s[0]] + LeadingDigits(s[1..]) else []
  }

  /** The whitespace `(int)` skips before the number. */
  const CastSpaceChars: set<char> := {' ', '\t', '\n', '\r', '\U{000B}', '\U{000C}'}

  /**
   * `(int) $s`: leading whitespace is skipped, an optional sign is read, and
   * the digits that follow make the value; a string that does not start
   * with a number is 0.
   */
  function IntCast(s: string): int
  {
    var t := TrimLeft(s, CastSpaceChars);
    if t != [] && (t[0] == '-' || t[0] == '+') then
      var n: int := DecimalValue(LeadingDigits(t[1..]));
      if t[0] == '-' then -n else n
    else DecimalValue(LeadingDigits(t))
  }

  lemma DigitCharValue(d: nat)
    requires d < 10
    ensures IsDigit(DigitChar(d)) && DigitValue(DigitChar(d)) == d
  {
  }

  lemma {:induction false} DecimalValueOfNatToString(n: nat)
    ensures DecimalValue(NatToString(n)) == n
  {
    DigitCharValue(n % 10);
    if n >= 10 {
      DecimalValueOfNatToString(n / 10);
      var prefix := NatToString(n / 10);
      var s := prefix + [DigitChar(n % 10)];
      assert s == NatToString(n);
      assert s[..|s| - 1] == prefix;
    }
  }

  lemma {:induction false} LeadingDigitsOfDigits(s: string)
    requires forall i :: 0 <= i < |s| ==> IsDigit(s[i])
    ensures LeadingDigits(s) == s
    decreases |s|
  {
    if s != [] {
      LeadingDigitsOfDigits(s[1..]);
      assert [s[0]] + s[1..] == s;
    }
  }

  lemma NothingToSkip(s: string)
    requires s == [] || s[0] !in CastSpaceChars
    ensures TrimLeft(s, CastSpaceChars) == s
  {
  }

  /** A run of digits casts to its value. */
  lemma CastOfDigits(digits: string)
    requires forall i :: 0 <= i < |digits| ==> IsDigit(digits[i])
    requires digits != []
    ensures IntCast(digits) == DecimalValue(digits)
  {
    CastOfUnsigned(digits);
    LeadingDigitsOfDigits(digits);
  }

  lemma CastOfUnsigned(s: string)
    requires s != [] && IsDigit(s[0])
    ensures IntCast(s) == DecimalValue(LeadingDigits(s))
  {
    NothingToSkip(s);
  }

  /** A minus sign and a run of digits cast to the negated value. */
  lemma CastOfNegative(s: string, digits: string)
    requires forall i :: 0 <= i < |digits| ==> IsDigit(digits[i])
    requires s == "-" + digits
    ensures IntCast(s) == -(DecimalValue(digits) as int)
  {
    NothingToSkip(s);
    assert s[1..] == digits;
    LeadingDigitsOfDigits(digits);
  }

  /** A non-negative integer written in decimal reads back as itself. */
  lemma IntCastOfNatToString(n: nat)
    ensures IntCast(NatToString(n)) == n
  {
    DecimalValueOfNatToString(n);
    CastOfDigits(NatToString(n));
  }

  /** An integer written in decimal reads back as itself: `(int)` undoes PHP's integer-to-string conversion. */
  lemma IntCastOfIntToString(n: int)
    ensures IntCast(IntToString(n)) == n
  {
    if n < 0 {
      var digits := NatToString(-n);
      DecimalValueOfNatToString(-n);
      CastOfNegative(IntToString(n), digits);
    } else {
      IntCastOfNatToString(n);
    }
  }

  /** A parameter that does not start with a number, a sign or whitespace casts to 0. */
  lemma NonNumericCastsToZero(s: string)
    requires s != [] && !IsDigit(s[0]) && s[0] !in CastSpaceChars && s[0] != '-' && s[0] != '+'
    ensures IntCast(s) == 0
  {
    assert TrimLeft(s, CastSpaceChars) == s;
  }

  // ---------------------------------------------------------------------
  // Request parameters

  /** The request parameters; `None` is a missing or null parameter. */
  datatype Params = Params(
    q: Option<string>,
    author: Option<string>,
    sourceId: Option<string>,
    campaignId: Option<string>,
    dateFrom: Option<string>,
    dateTo: Option<string>,
    page: Option<int>,
    perPage: Option<int>,
    sort: Option<string>,
    order: Option<string>)

  /** `!empty($params[$key] ?? null)`. */
  predicate Given(p: Option<string>)
  {
    p.Some? && Truthy(p.value)
  }

  /** `$x ?? $default`. */
  function OrElse<T>(p: Option<T>, default: T): (r: T)
    ensures p.Some? ==> r == p.value
    ensures p.None? ==> r == default
  {
    if p.Some? then p.value else default
  }

  /** `max(1, (int) ($params['page'] ?? 1))`. */
  function ClampPage(p: Option<int>): (r: int)
    ensures r >= 1
    ensures p.Some? && p.value >= 1 ==> r == p.value
    ensures p.None? || p.value < 1 ==> r == 1
  {
    if p.Some? && p.value >= 1 then p.value else 1
  }

  const DefaultPerPage := 20
  const MaxPerPage := 100

  /** `min(100, max(1, (int) ($params['per_page'] ?? 20)))`. */
  function ClampPerPage(p: Option<int>): (r: int)
    ensures 1 <= r <= MaxPerPage
    ensures p.None? ==> r == DefaultPerPage
    ensures p.Some? && 1 <= p.value <= MaxPerPage ==> r == p.value
    ensures p.Some? && p.value < 1 ==> r == 1
    ensures p.Some? && p.value > MaxPerPage ==> r == MaxPerPage
  {
    var n := OrElse(p, DefaultPerPage);
    if n < 1 then 1 else if n > MaxPerPage then MaxPerPage else n
  }

  /** The offset of the requested page. */
  function Offset(params: Params): (r: int)
  {
    (ClampPage(params.page) - 1) * ClampPerPage(params.perPage)
  }

  /** The offset is never negative; the next page starts where this one ends, so pages never overlap. */
  lemma OffsetFacts(a: Params, b: Params)
    ensures Offset(a) >= 0
    ensures a.perPage == b.perPage && ClampPage(b.page) == ClampPage(a.page) + 1 ==>
      Offset(b) == Offset(a) + ClampPerPage(a.perPage)
    ensures a.perPage == b.perPage && ClampPage(a.page) < ClampPage(b.page) ==>
      Offset(a) + ClampPerPage(a.perPage) <= Offset(b)
  {
    var size := ClampPerPage(a.perPage);
    var k := ClampPage(a.page) - 1;
    assert Offset(a) == k * size;
    assert k >= 0 && size >= 1;
    if a.perPage == b.perPage && ClampPage(a.page) < ClampPage(b.page) {
      var h := ClampPage(b.page) - 1;
      assert Offset(b) == h * size;
      assert h * size >= (k + 1) * size by {
        LemmaMulMonotone(k + 1, h, size);
      }
    }
  }

  lemma LemmaMulMonotone(a: nat, b: nat, size: int)
    requires a <= b && size >= 1
    ensures a * size <= b * size
  {
  }

  // ---------------------------------------------------------------------
  // The query body

  /** The full-text fields and their boosts. */
  const SearchFields: seq<string> := ["title^3", "content^1", "summary^2", "author"]

  datatype Must =
    | MatchAll
    | MultiMatch(query: string, fields: seq<string>, matchType: string, fuzziness: string)

  /** The `gte`/`lte` bounds of a range; a bound is absent when its parameter is. */
  datatype DateRange = DateRange(gte: Option<string>, lte: Option<string>)

  datatype RangeClause = RangeClause(field: string, range: DateRange)

  datatype Filter =
    | MatchAuthor(author: string)
    | TermSourceId(sourceId: int)
    | TermCampaignId(campaignId: int)
    | DateShould(should: seq<RangeClause>, minimumShouldMatch: nat)

  datatype SortKey = SortKey(field: string, order: string, missing: Option<string>)

  /** The request body: `query.bool.must`, the optional `query.bool.filter`, `size`, `from` and `sort`. */
  datatype EsQuery = EsQuery(must: seq<Must>, filter: Option<seq<Filter>>, size: int, from: int, sort: seq<SortKey>)

  /** The place of each kind of filter clause in the list. */
  function Rank(f: Filter): nat
  {
    match f
    case MatchAuthor(_) => 0
    case TermSourceId(_) => 1
    case TermCampaignId(_) => 2
    case DateShould(_, _) => 3
  }

  predicate InRankOrder(fs: seq<Filter>)
  {
    forall i, j :: 0 <= i < j < |fs| ==> Rank(fs[i]) < Rank(fs[j])
  }

  /** Whether a filter parameter is set. */
  predicate AnyFilter(params: Params)
  {
    Given(params.author) || Given(params.sourceId) || Given(params.campaignId) ||
    Given(params.dateFrom) || Given(params.dateTo)
  }

  /** The filter clause `f` belongs in the query for these parameters. */
  predicate Wanted(params: Params, f: Filter)
  {
    match f
    case MatchAuthor(a) => Given(params.author) && a == params.author.value
    case TermSourceId(id) => Given(params.sourceId) && id == IntCast(params.sourceId.value)
    case TermCampaignId(id) => Given(params.campaignId) && id == IntCast(params.campaignId.value)
    case DateShould(should, m) =>
      && (Given(params.dateFrom) || Given(params.dateTo))
      && m == 1
      && |should| == 2
      && should[0].field == "published_at" && should[1].field == "created_at"
      && should[0].range == should[1].range
      && (should[0].range.gte.Some? <==> Given(params.dateFrom))
      && (should[0].range.gte.Some? ==> should[0].range.gte.value == params.dateFrom.value)
      && (should[0].range.lte.Some? <==> Given(params.dateTo))
      && (should[0].range.lte.Some? ==> should[0].range.lte.value == params.dateTo.value)
  }

  /** Sorting by relevance: a search text is given, or `_score` is asked for. */
  predicate ByRelevance(params: Params)
  {
    Given(params.q) || OrElse(params.sort, "published_at") == "_score"
  }

  /** The `created_at` key every query sorts by, in the requested order, missing values last. */
  function CreatedAtKey(params: Params): SortKey
  {
    SortKey("created_at", OrElse(params.order, "desc"), Some("_last"))
  }

  /** The date-range clause: the given bounds over `published_at`, or else over `created_at`. */
  function DateClause(dateFrom: Option<string>, dateTo: Option<string>): Filter
  {
    var range := DateRange(
      if Given(dateFrom) then Some(dateFrom.value) else None,
      if Given(dateTo) then Some(dateTo.value) else None);
    DateShould([RangeClause("published_at", range), RangeClause("created_at", range)], 1)
  }

  /** `[f]` when `wanted`, otherwise nothing. */
  function OptionalClause(wanted: bool, f: Filter): (r: seq<Filter>)
    ensures wanted ==> r == [f]
    ensures !wanted ==> r == []
  {
    if wanted then [f] else []
  }

  /** The clause of each rank, kept when its parameter is set. */
  function ClauseOfRank(params: Params, rank: nat): seq<Filter>
  {
    if rank == 0 then OptionalClause(Given(params.author), MatchAuthor(OrElse(params.author, "")))
    else if rank == 1 then OptionalClause(Given(params.sourceId), TermSourceId(IntCast(OrElse(params.sourceId, ""))))
    else if rank == 2 then OptionalClause(Given(params.campaignId), TermCampaignId(IntCast(OrElse(params.campaignId, ""))))
    else OptionalClause(Given(params.dateFrom) || Given(params.dateTo), DateClause(params.dateFrom, params.dateTo))
  }

  /** The clause of a rank, if kept, is the wanted clause of that rank. */
  lemma ClauseOfRankFacts(params: Params, rank: nat)
    requires rank < 4
    ensures forall f :: f in ClauseOfRank(params, rank) <==> Wanted(params, f) && Rank(f) == rank
    ensures ClauseOfRank(params, rank) != [] <==>
      (if rank == 0 then Given(params.author)
       else if rank == 1 then Given(params.sourceId)
       else if rank == 2 then Given(params.campaignId)
       else Given(params.dateFrom) || Given(params.dateTo))
  {
    forall f | Wanted(params, f) && Rank(f) == rank
      ensures f in ClauseOfRank(params, rank)
    {
      if f.DateShould? {
        assert f == DateClause(params.dateFrom, params.dateTo);
      }
    }
  }

  /** The clauses of the first `n` ranks, in rank order. */
  function ClausesUpTo(params: Params, n: nat): seq<Filter>
    requires n <= 4
  {
    if n == 0 then [] else ClausesUpTo(params, n - 1) + ClauseOfRank(params, n - 1)
  }

  /** The kept clauses of the first `n` ranks are exactly the wanted ones of those ranks, in rank order. */
  lemma {:induction false} ClausesUpToFacts(params: Params, n: nat)
    requires n <= 4
    ensures InRankOrder(ClausesUpTo(params, n))
    ensures forall f :: f in ClausesUpTo(params, n) <==> Wanted(params, f) && Rank(f) < n
  {
    if n > 0 {
      ClausesUpToFacts(params, n - 1);
      ClauseOfRankFacts(params, n - 1);
      var init := ClausesUpTo(params, n - 1);
      var last := ClauseOfRank(params, n - 1);
      var fs := init + last;
      assert |last| <= 1;
      forall i, j | 0 <= i < j < |fs|
        ensures Rank(fs[i]) < Rank(fs[j])
      {
        if j >= |init| {
          assert fs[j] in last;
          assert fs[i] in init;
        }
      }
    }
  }

  /** There is a clause exactly when a filter parameter is set. */
  lemma ClauseListNonEmpty(params: Params)
    ensures ClausesUpTo(params, 4) != [] <==> AnyFilter(params)
  {
    assert |ClausesUpTo(params, 1)| == |ClauseOfRank(params, 0)|;
    assert |ClausesUpTo(params, 2)| == |ClausesUpTo(params, 1)| + |ClauseOfRank(params, 1)|;
    assert |ClausesUpTo(params, 3)| == |ClausesUpTo(params, 2)| + |ClauseOfRank(params, 2)|;
    assert |ClausesUpTo(params, 4)| == |ClausesUpTo(params, 3)| + |ClauseOfRank(params, 3)|;
  }

  /** All four ranks: the kept clauses are exactly the wanted ones, in rank order, and there is one when a filter parameter is set. */
  lemma ClauseListFacts(params: Params)
    ensures ClausesUpTo(params, 4) != [] <==> AnyFilter(params)
    ensures InRankOrder(ClausesUpTo(params, 4))
    ensures forall f :: f in ClausesUpTo(params, 4) <==> Wanted(params, f)
  {
    ClausesUpToFacts(params, 4);
    ClauseListNonEmpty(params);
    forall f | Wanted(params, f)
      ensures Rank(f) < 4
    {
    }
  }

  /** The clause of each rank, written as the `if` that adds it. */
  lemma ClauseOfRankShape(params: Params)
    ensures ClauseOfRank(params, 0) == if Given(params.author) then [MatchAuthor(params.author.value)] else []
    ensures ClauseOfRank(params, 1) == if Given(params.sourceId) then [TermSourceId(IntCast(params.sourceId.value))] else []
    ensures ClauseOfRank(params, 2) == if Given(params.campaignId) then [TermCampaignId(IntCast(params.campaignId.value))] else []
    ensures ClauseOfRank(params, 3) ==
      if Given(params.dateFrom) || Given(params.dateTo) then [DateClause(params.dateFrom, params.dateTo)] else []
  {
  }

  /** The filter clauses for the set parameters, in the order author, source, campaign, dates. */
  method FilterClauses(params: Params) returns (filterClauses: seq<Filter>)
    ensures filterClauses != [] <==> AnyFilter(params)
    ensures InRankOrder(filterClauses)
    ensures forall f :: f in filterClauses <==> Wanted(params, f)
  {
    ClauseOfRankShape(params);
    filterClauses := [];
    if Given(params.author) {
      filterClauses := filterClauses + [MatchAuthor(params.author.value)];
    }
    assert filterClauses == ClausesUpTo(params, 0) + ClauseOfRank(params, 0);
    assert filterClauses == ClausesUpTo(params, 1);
    ghost var upTo1 := filterClauses;
    if Given(params.sourceId) {
      filterClauses := filterClauses + [TermSourceId(IntCast(params.sourceId.value))];
    }
    assert filterClauses == upTo1 + ClauseOfRank(params, 1);
    assert filterClauses == ClausesUpTo(params, 2);
    ghost var upTo2 := filterClauses;
    if Given(params.campaignId) {
      filterClauses := filterClauses + [TermCampaignId(IntCast(params.campaignId.value))];
    }
    assert filterClauses == upTo2 + ClauseOfRank(params, 2);
    assert filterClauses == ClausesUpTo(params, 3);
    ghost var upTo3 := filterClauses;
    if Given(params.dateFrom) || Given(params.dateTo) {
      filterClauses := filterClauses + [DateClause(params.dateFrom, params.dateTo)];
    }
    assert filterClauses == upTo3 + ClauseOfRank(params, 3);
    assert filterClauses == ClausesUpTo(params, 4);
    ClauseListFacts(params);
  }

  /**
   * `buildSearchQuery`: one `must` clause (the full-text match, or match_all
   * without a search text), the filters for the set parameters under
   * `filter` (the key only when there is one), the clamped page as
   * `size`/`from`, and relevance first in `sort` when searching.
   */
  method BuildSearchQuery(params: Params) returns (esQuery: EsQuery)
    ensures Given(params.q) ==> esQuery.must == [MultiMatch(params.q.value, SearchFields, "best_fields", "AUTO")]
    ensures !Given(params.q) ==> esQuery.must == [MatchAll]
    ensures esQuery.filter.Some? <==> AnyFilter(params)
    ensures esQuery.filter.Some? ==>
      InRankOrder(esQuery.filter.value) && forall f :: f in esQuery.filter.value <==> Wanted(params, f)
    ensures 1 <= esQuery.size <= MaxPerPage && esQuery.size == ClampPerPage(params.perPage)
    ensures esQuery.from == Offset(params)
    ensures |esQuery.sort| == (if ByRelevance(params) then 2 else 1)
    ensures ByRelevance(params) ==> esQuery.sort[0] == SortKey("_score", "desc", None)
    ensures esQuery.sort[|esQuery.sort| - 1] == CreatedAtKey(params)
  {
    var query := OrElse(params.q, "");
    var page := ClampPage(params.page);
    var perPage := ClampPerPage(params.perPage);
    var sort := OrElse(params.sort, "published_at");
    var order := OrElse(params.order, "desc");

    var mustClauses: seq<Must> := [];
    if Truthy(query) {
      mustClauses := mustClauses + [MultiMatch(query, SearchFields, "best_fields", "AUTO")];
    } else {
      mustClauses := mustClauses + [MatchAll];
    }
    var filterClauses := FilterClauses(params);

    esQuery := EsQuery(mustClauses, None, perPage, (page - 1) * perPage, []);
    if sort == "_score" || Truthy(query) {
      esQuery := esQuery.(sort := [SortKey("_score", "desc", None), SortKey("created_at", order, Some("_last"))]);
    } else if sort == "created_at" {
      esQuery := esQuery.(sort := [SortKey("created_at", order, Some("_last"))]);
    } else {
      esQuery := esQuery.(sort := [SortKey("created_at", order, Some("_last"))]);
    }
    if filterClauses != [] {
      esQuery := esQuery.(filter := Some(filterClauses));
    }
  }

  // ---------------------------------------------------------------------
  // The page of results

  /** The `meta` block and `data` list the endpoint returns. */
  datatype SearchPage = SearchPage(data: seq<Json>, total: int, page: int, perPage: int, totalPages: int)

  /** `(int) ceil($total / $perPage)`. */
  function CeilDiv(total: int, perPage: int): (r: int)
    requires perPage != 0
    ensures perPage > 0 ==> (r - 1) * perPage < total <= r * perPage
  {
    if perPage > 0 then
      var q := (total + perPage - 1) / perPage;
      var m := (total + perPage - 1) % perPage;
      assert total + perPage - 1 == q * perPage + m;
      assert q * perPage - perPage == (q - 1) * perPage;
      q
    else -(total / -perPage)
  }

  /** `$hits = $results['hits'] ?? []`. */
  function Hits(results: Json): Json
  {
    OrElse(ApiCrawler.Field(results, "hits"), JArr([]))
  }

  /** `$hits['total']['value'] ?? ($hits['total'] ?? 0)`: the total as an object or as a bare number. */
  function Total(hits: Json): Json
  {
    var total := OrElse(ApiCrawler.Field(hits, "total"), JInt(0));
    OrElse(ApiCrawler.Field(total, "value"), total)
  }

  /** The warning PHP raises for a missing key, which the framework turns into an ErrorException. */
  const UndefinedSource: string := "Undefined array key \"_source\""

  /**
   * `$hit['_source']`: the value under the key, null included. A hit
   * without the key, or a null, boolean or number hit, draws a warning and
   * so an ErrorException; a string hit raises a TypeError.
   */
  function SourceOf(hit: Json): (r: Result<Json>)
    ensures r.Ok? <==> hit.JObj? && ApiCrawler.Binding(hit.fields, "_source").Some?
    ensures r.Ok? ==> r.value == ApiCrawler.Binding(hit.fields, "_source").value
    ensures r.Fatal? <==> hit.JStr?
  {
    match hit
    case JObj(fields) =>
      (match ApiCrawler.Binding(fields, "_source")
       case Some(v) => Ok(v)
       case None => Err(UndefinedSource))
    case JArr(_) => Err(UndefinedSource)
    case JStr(_) => Fatal("Cannot access offset of type string on string")
    case _ => Err("Trying to access array offset on value of type " + ApiCrawler.TypeName(hit))
  }

  /** The hits `array_map` visits, or `None` when `$hits['hits']` is not an array. */
  function HitList(hits: Json): Option<seq<Json>>
  {
    var list := OrElse(ApiCrawler.Field(hits, "hits"), JArr([]));
    if ApiCrawler.IsArray(list) then Some(ApiCrawler.Values(list).value) else None
  }

  /** Every hit of the list has a `_source`. */
  predicate AllSourced(list: seq<Json>)
  {
    forall i :: 0 <= i < |list| ==> SourceOf(list[i]).Ok?
  }

  /**
   * `formatSearchResults`: the hits' `_source` documents in order, the total,
   * and the number of pages of `perPage` it takes to hold the total. It
   * fails, in PHP's order of evaluation, on a hits list that is not an array
   * (a TypeError), on the first hit without a `_source`, on a total that is
   * not a number (a TypeError) and on a zero page size (a
   * DivisionByZeroError).
   */
  function FormatSearchResults(results: Json, page: int, perPage: int): (r: Result<SearchPage>)
    ensures HitList(Hits(results)).None? ==> r.Fatal?
    ensures r.Ok? <==>
      HitList(Hits(results)).Some? && AllSourced(HitList(Hits(results)).value) &&
      Total(Hits(results)).JInt? && perPage != 0
    ensures r.Ok? ==>
      var list := HitList(Hits(results)).value;
      && |r.value.data| == |list|
      && (forall i :: 0 <= i < |list| ==> SourceOf(list[i]) == Ok(r.value.data[i]))
      && r.value.total == Total(Hits(results)).i
      && r.value.page == page && r.value.perPage == perPage
      && (perPage > 0 ==>
            (r.value.totalPages - 1) * perPage < r.value.total <= r.value.totalPages * perPage)
  {
    var hits := Hits(results);
    var total := Total(hits);
    match HitList(hits)
    case None => Fatal("array_map(): Argument #2 ($array) must be of type array")
    case Some(list) =>
      var sources := MapResult(SourceOf, list);
      MapResultPerItem(SourceOf, list);
      if !sources.Ok? then Rethrow(sources)
      else if !total.JInt? then Fatal("Unsupported operand types: " + ApiCrawler.TypeName(total) + " / int")
      else if perPage == 0 then Fatal("Division by zero")
      else Ok(SearchPage(sources.value, total.i, page, perPage, CeilDiv(total.i, perPage)))
  }

  /**
   * A hit without a `_source` fails the page with the warning's
   * ErrorException when every earlier hit has one; it is never read as null.
   */
  lemma MissingSourceFails(results: Json, page: int, perPage: int, k: nat)
    requires HitList(Hits(results)).Some?
    requires var list := HitList(Hits(results)).value;
      k < |list| && list[k].JObj? && ApiCrawler.Binding(list[k].fields, "_source").None? &&
      forall h :: 0 <= h < k ==> SourceOf(list[h]).Ok?
    ensures FormatSearchResults(results, page, perPage) == Err(UndefinedSource)
  {
    var list := HitList(Hits(results)).value;
    MapResultPerItem(SourceOf, list);
    var r := MapResult(SourceOf, list);
    assert !r.Ok?;
    var j :| 0 <= j < |list| && !SourceOf(list[j]).Ok? && r == Rethrow(SourceOf(list[j])) &&
      forall h :: 0 <= h < j ==> SourceOf(list[h]).Ok?;
    assert j == k;
  }

  /** An Elasticsearch 7 response (`hits.total` an object) and a bare-number total are read alike. */
  lemma TotalForms(n: int, relation: string, rest: seq<(string, Json)>)
    ensures Total(JObj([("total", JObj([("value", JInt(n)), ("relation", JStr(relation))]))] + rest)) == JInt(n)
    ensures Total(JObj([("total", JInt(n))] + rest)) == JInt(n)
    ensures Total(JObj(rest)) == JInt(0) || ApiCrawler.Field(JObj(rest), "total").Some?
  {
    var h1 := JObj([("total", JObj([("value", JInt(n)), ("relation", JStr(relation))]))] + rest);
    assert ApiCrawler.Binding(h1.fields, "total") == Some(JObj([("value", JInt(n)), ("relation", JStr(relation))]));
    var h2 := JObj([("total", JInt(n))] + rest);
    assert ApiCrawler.Binding(h2.fields, "total") == Some(JInt(n));
  }

  /** An empty response is one empty page: no data, total 0, no pages. */
  lemma EmptyResponse(results: Json, page: int, perPage: int)
    requires ApiCrawler.Field(results, "hits").None? && perPage > 0
    ensures FormatSearchResults(results, page, perPage) == Ok(SearchPage([], 0, page, perPage, 0))
  {
  }
}
