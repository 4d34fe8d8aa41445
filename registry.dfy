// The crawler registry (app/Services/Crawlers/CrawlerServiceManager.php)
// and the table the application boots it with
// (app/Providers/CrawlerServiceProvider.php). A source is crawled by the
// supporting crawler of highest priority; among equals, the one registered
// first, because the sort by descending priority is stable.

module Registry {
  import opened Common
  import opened CrawlerBase
  import BbcCrawler
  import CnnCrawler
  import RssCrawler
  import ApiCrawler
  import GenericCrawler

  /** The five crawler services. */
  datatype CrawlerKind = Bbc | Cnn | Rss | Api | Generic

  /** `getName`. */
  function NameOf(k: CrawlerKind): string
  {
    match k
    case Bbc => BbcCrawler.Name
    case Cnn => CnnCrawler.Name
    case Rss => RssCrawler.Name
    case Api => ApiCrawler.Name
    case Generic => GenericCrawler.Name
  }

  /** `getPriority`. */
  function PriorityOf(k: CrawlerKind): int
  {
    match k
    case Bbc => BbcCrawler.Priority
    case Cnn => CnnCrawler.Priority
    case Rss => RssCrawler.Priority
    case Api => ApiCrawler.Priority
    case Generic => GenericCrawler.Priority
  }

  /** `supports`. */
  predicate SupportsSource(k: CrawlerKind, source: NewsSource)
  {
    match k
    case Bbc => BbcCrawler.Supports(source)
    case Cnn => CnnCrawler.Supports(source)
    case Rss => RssCrawler.Supports(source)
    case Api => ApiCrawler.Supports(source)
    case Generic => GenericCrawler.Supports(source)
  }

  /** `crawl`: what the chosen crawler returns, or the exception it throws. */
  function CrawlWith(k: CrawlerKind, env: Env, source: NewsSource): Result<seq<Article>>
  {
    match k
    case Bbc => BbcCrawler.CrawlSpec(env, source)
    case Cnn => CnnCrawler.CrawlSpec(env, source)
    case Rss => RssCrawler.CrawlSpec(env, source)
    case Api => ApiCrawler.CrawlSpec(env, source)
    case Generic => GenericCrawler.CrawlSpec(env, source)
  }

  /** `$crawler->crawl($source)` through the crawler interface: runs the chosen crawler's own `crawl`. */
  method RunCrawler(k: CrawlerKind, env: Env, source: NewsSource) returns (r: Result<seq<Article>>)
    ensures r == CrawlWith(k, env, source)
  {
    match k
    case Bbc => r := BbcCrawler.Crawl(env, source);
    case Cnn => r := CnnCrawler.Crawl(env, source);
    case Rss => r := RssCrawler.Crawl(env, source);
    case Api => r := ApiCrawler.Crawl(env, source);
    case Generic => r := GenericCrawler.Crawl(env, source);
  }

  /** Different crawlers have different names. */
  lemma NamesDistinct(a: CrawlerKind, b: CrawlerKind)
    ensures NameOf(a) == NameOf(b) <==> a == b
  {
    if a != b {
      assert NameOf(a)[0] != NameOf(b)[0];
    }
  }

  // ---------------------------------------------------------------------
  // filter and sortByDesc

  /** The priority of every crawler, as a function value. */
  const Priorities: CrawlerKind -> int := k => PriorityOf(k)

  /** Which crawlers support a source, as a function value. */
  function SupportFor(source: NewsSource): CrawlerKind -> bool
  {
    k => SupportsSource(k, source)
  }

  // ---------------------------------------------------------------------
  // filter, sortByDesc and first

  /** `filter`: the elements that pass, in their order. */
  function Filter<T(==,!new)>(p: T -> bool, xs: seq<T>): (r: seq<T>)
    ensures forall x :: x in r <==> x in xs && p(x)
    decreases |xs|
  {
    if xs == [] then []
    else (if p(xs[0]) then [xs[0]] else []) + Filter(p, xs[1..])
  }

  // The stable sort is stated over any element type and any priority
  // function; `Resolve` uses it with the crawlers' own priorities.

  predicate SortedBy<T(!new)>(prio: T -> int, xs: seq<T>)
  {
    forall i, j :: 0 <= i < j < |xs| ==> prio(xs[i]) >= prio(xs[j])
  }

  /** Places `k` after every element of at least its priority. */
  function InsertByPriority<T>(prio: T -> int, sorted: seq<T>, k: T): (r: seq<T>)
    ensures |r| == |sorted| + 1
    decreases |sorted|
  {
    if sorted == [] then [k]
    else if prio(sorted[0]) >= prio(k) then [sorted[0]] + InsertByPriority(prio, sorted[1..], k)
    else [k] + sorted
  }

  /** An insertion adds the one element. */
  lemma {:induction false} InsertPermutes<T>(prio: T -> int, sorted: seq<T>, k: T)
    ensures multiset(InsertByPriority(prio, sorted, k)) == multiset(sorted) + multiset{k}
    decreases |sorted|
  {
    if sorted != [] && prio(sorted[0]) >= prio(k) {
      InsertPermutes(prio, sorted[1..], k);
      assert sorted == [sorted[0]] + sorted[1..];
    }
  }

  /** `sortByDesc`: a stable sort, every element inserted after the earlier ones of at least its priority. */
  function SortByDesc<T>(prio: T -> int, xs: seq<T>): (r: seq<T>)
    ensures |r| == |xs|
    decreases |xs|
  {
    if xs == [] then [] else InsertByPriority(prio, SortByDesc(prio, xs[..|xs| - 1]), xs[|xs| - 1])
  }

  /** The sort is a permutation. */
  lemma {:induction false} SortPermutes<T>(prio: T -> int, xs: seq<T>)
    ensures multiset(SortByDesc(prio, xs)) == multiset(xs)
    decreases |xs|
  {
    if xs != [] {
      var init := xs[..|xs| - 1];
      SortPermutes(prio, init);
      InsertPermutes(prio, SortByDesc(prio, init), xs[|xs| - 1]);
      assert xs == init + [xs[|xs| - 1]];
    }
  }

  /** A head of at least every priority of a sorted tail keeps it sorted. */
  lemma SortedCons<T(!new)>(prio: T -> int, h: T, t: seq<T>)
    requires SortedBy(prio, t)
    requires forall i :: 0 <= i < |t| ==> prio(t[i]) <= prio(h)
    ensures SortedBy(prio, [h] + t)
  {
    var r := [h] + t;
    forall i, j | 0 <= i < j < |r|
      ensures prio(r[i]) >= prio(r[j])
    {
      assert r[j] == t[j - 1];
      if i > 0 {
        assert r[i] == t[i - 1];
      }
    }
  }

  /** The head of a sorted sequence has at least every priority in it. */
  lemma SortedHead<T(!new)>(prio: T -> int, xs: seq<T>)
    requires SortedBy(prio, xs) && |xs| > 0
    ensures forall i :: 0 <= i < |xs| ==> prio(xs[i]) <= prio(xs[0])
  {
  }

  lemma {:induction false} InsertKeepsSorted<T(!new)>(prio: T -> int, sorted: seq<T>, k: T)
    requires SortedBy(prio, sorted)
    ensures SortedBy(prio, InsertByPriority(prio, sorted, k))
    ensures InsertByPriority(prio, sorted, k)[0] == (if sorted != [] && prio(sorted[0]) >= prio(k) then sorted[0] else k)
    decreases |sorted|
  {
    if sorted != [] {
      var h := sorted[0];
      var tail := sorted[1..];
      SortedHead(prio, sorted);
      if prio(h) >= prio(k) {
        InsertKeepsSorted(prio, tail, k);
        var rest := InsertByPriority(prio, tail, k);
        forall i | 0 <= i < |rest|
          ensures prio(rest[i]) <= prio(h)
        {
          InsertMember(prio, tail, k, i);
          if rest[i] != k {
            var m :| 0 <= m < |tail| && tail[m] == rest[i];
            assert sorted[m + 1] == tail[m];
          }
        }
        SortedCons(prio, h, rest);
      } else {
        SortedCons(prio, k, sorted);
      }
    }
  }

  /** Every element after an insertion was there before or is the inserted one. */
  lemma InsertMember<T(!new)>(prio: T -> int, sorted: seq<T>, k: T, i: nat)
    requires i < |sorted| + 1
    ensures var r := InsertByPriority(prio, sorted, k);
      r[i] == k || exists m :: 0 <= m < |sorted| && sorted[m] == r[i]
  {
    var r := InsertByPriority(prio, sorted, k);
    InsertPermutes(prio, sorted, k);
    assert r[i] in multiset(r);
    if r[i] != k {
      assert r[i] in multiset(sorted);
      assert r[i] in sorted;
    }
  }

  /** `k` occurs in `xs`, nothing in `xs` has a higher priority, and nothing before its first occurrence has as high a one. */
  predicate FirstOfHighest<T(==,!new)>(prio: T -> int, xs: seq<T>, k: T)
  {
    (forall c :: c in xs ==> prio(c) <= prio(k)) &&
    exists i :: 0 <= i < |xs| && xs[i] == k && forall j :: 0 <= j < i ==> prio(xs[j]) < prio(k)
  }

  /** The sort orders by non-increasing priority, and its head is the first element of highest priority. */
  lemma {:induction false} SortByDescFacts<T(!new)>(prio: T -> int, xs: seq<T>)
    ensures SortedBy(prio, SortByDesc(prio, xs))
    ensures |xs| > 0 ==> FirstOfHighest(prio, xs, SortByDesc(prio, xs)[0])
    decreases |xs|
  {
    if xs != [] {
      var init := xs[..|xs| - 1];
      var x := xs[|xs| - 1];
      SortByDescFacts(prio, init);
      var s := SortByDesc(prio, init);
      InsertKeepsSorted(prio, s, x);
      if init == [] {
        assert FirstOfHighest(prio, xs, x) by {
          assert xs[0] == x;
        }
      } else {
        FirstOfHighestStep(prio, xs, init, s[0], x);
      }
    }
  }

  lemma FirstOfHighestStep<T(!new)>(prio: T -> int, xs: seq<T>, init: seq<T>, h: T, x: T)
    requires xs == init + [x]
    requires FirstOfHighest(prio, init, h)
    ensures FirstOfHighest(prio, xs, if prio(h) >= prio(x) then h else x)
  {
    if prio(h) >= prio(x) {
      FirstOfHighestExtend(prio, init, h, x);
    } else {
      FirstOfHighestLast(prio, init, h, x);
    }
  }

  lemma FirstOfHighestExtend<T(!new)>(prio: T -> int, init: seq<T>, h: T, x: T)
    requires FirstOfHighest(prio, init, h) && prio(h) >= prio(x)
    ensures FirstOfHighest(prio, init + [x], h)
  {
    var xs := init + [x];
    var i :| 0 <= i < |init| && init[i] == h && forall j :: 0 <= j < i ==> prio(init[j]) < prio(h);
    assert xs[i] == h;
    forall j | 0 <= j < i
      ensures prio(xs[j]) < prio(h)
    {
      assert xs[j] == init[j];
    }
    forall c | c in xs
      ensures prio(c) <= prio(h)
    {
      if c != x {
        assert c in init;
      }
    }
  }

  lemma FirstOfHighestLast<T(!new)>(prio: T -> int, init: seq<T>, h: T, x: T)
    requires FirstOfHighest(prio, init, h) && prio(h) < prio(x)
    ensures FirstOfHighest(prio, init + [x], x)
  {
    var xs := init + [x];
    assert xs[|init|] == x;
    forall j | 0 <= j < |init|
      ensures prio(xs[j]) < prio(x)
    {
      assert xs[j] == init[j] && init[j] in init;
    }
    forall c | c in xs
      ensures prio(c) <= prio(x)
    {
      if c != x {
        assert c in init;
      }
    }
  }

  // ---------------------------------------------------------------------
  // getCrawlerForSource and getCrawlerByName

  /**
   * The head of the passing elements sorted by descending priority: none
   * exactly when nothing passes; otherwise a passing element of highest
   * priority, the first such in `xs`.
   */
  function Choose<T(==,!new)>(prio: T -> int, p: T -> bool, xs: seq<T>): (r: Option<T>)
    ensures r.None? <==> forall x :: x in xs ==> !p(x)
    ensures r.Some? ==> r.value in xs && p(r.value)
    ensures r.Some? ==> forall x :: x in xs && p(x) ==> prio(x) <= prio(r.value)
    ensures r.Some? ==>
      exists i :: 0 <= i < |xs| && xs[i] == r.value &&
        forall j :: 0 <= j < i && p(xs[j]) ==> prio(xs[j]) < prio(r.value)
  {
    var passing := Filter(p, xs);
    var sorted := SortByDesc(prio, passing);
    if |sorted| == 0 then
      None
    else
      SortByDescFacts(prio, passing);
      FilterFirst(prio, p, xs, sorted[0]);
      Some(sorted[0])
  }

  /** The first occurrence of a highest-priority element in the filtered list is one in the full list. */
  lemma {:induction false} FilterFirst<T(!new)>(prio: T -> int, p: T -> bool, xs: seq<T>, k: T)
    requires FirstOfHighest(prio, Filter(p, xs), k)
    ensures exists i :: 0 <= i < |xs| && xs[i] == k &&
                        forall j :: 0 <= j < i && p(xs[j]) ==> prio(xs[j]) < prio(k)
    decreases |xs|
  {
    var s := Filter(p, xs);
    var i :| 0 <= i < |s| && s[i] == k && forall j :: 0 <= j < i ==> prio(s[j]) < prio(k);
    var rest := Filter(p, xs[1..]);
    if p(xs[0]) {
      assert s == [xs[0]] + rest;
      if i == 0 {
        assert xs[0] == k;
      } else {
        assert FirstOfHighest(prio, rest, k) by {
          assert rest[i - 1] == k;
          forall j | 0 <= j < i - 1
            ensures prio(rest[j]) < prio(k)
          {
            assert rest[j] == s[j + 1];
          }
          forall c | c in rest
            ensures prio(c) <= prio(k)
          {
            assert c in s;
          }
        }
        FilterFirst(prio, p, xs[1..], k);
        ShiftFirst(prio, p, xs, k);
      }
    } else {
      assert s == rest;
      FilterFirst(prio, p, xs[1..], k);
      ShiftFirst(prio, p, xs, k);
    }
  }

  lemma ShiftFirst<T(!new)>(prio: T -> int, p: T -> bool, xs: seq<T>, k: T)
    requires |xs| > 0
    requires !p(xs[0]) || prio(xs[0]) < prio(k)
    requires exists i :: 0 <= i < |xs[1..]| && xs[1..][i] == k &&
                         forall j :: 0 <= j < i && p(xs[1..][j]) ==> prio(xs[1..][j]) < prio(k)
    ensures exists i :: 0 <= i < |xs| && xs[i] == k &&
                        forall j :: 0 <= j < i && p(xs[j]) ==> prio(xs[j]) < prio(k)
  {
    var tail := xs[1..];
    var i :| 0 <= i < |tail| && tail[i] == k &&
      forall j :: 0 <= j < i && p(tail[j]) ==> prio(tail[j]) < prio(k);
    assert xs[i + 1] == k;
    forall j | 0 <= j < i + 1 && p(xs[j])
      ensures prio(xs[j]) < prio(k)
    {
      if j > 0 {
        assert xs[j] == tail[j - 1];
      }
    }
  }

  /** `first($callback)`: the first element that passes, or null. */
  function FirstWhere<T(!new)>(p: T -> bool, xs: seq<T>): (r: Option<T>)
    ensures r.None? <==> forall i :: 0 <= i < |xs| ==> !p(xs[i])
    ensures r.Some? ==>
      exists i :: 0 <= i < |xs| && xs[i] == r.value && p(r.value) &&
        forall j :: 0 <= j < i ==> !p(xs[j])
    decreases |xs|
  {
    if xs == [] then None
    else if p(xs[0]) then Some(xs[0])
    else
      var r := FirstWhere(p, xs[1..]);
      assert forall i :: 0 < i < |xs| ==> xs[i] == xs[1..][i - 1];
      r
  }

  // ---------------------------------------------------------------------
  // getCrawlerForSource and getCrawlerByName

  /** The message of the exception thrown when nothing supports a source. */
  function NoCrawlerMessage(source: NewsSource): string
  {
    "No crawler found that supports source: " + source.name + " (ID: " + NatToString(source.id) + ")"
  }

  /**
   * `getCrawlerForSource`: it fails exactly when no registered crawler
   * supports the source; otherwise it gives a supporting crawler of highest
   * priority, the first registered among those.
   */
  function Resolve(crawlers: seq<CrawlerKind>, source: NewsSource): (r: Catchable<CrawlerKind>)
    ensures r.Err? <==> forall k :: k in crawlers ==> !SupportsSource(k, source)
    ensures r.Err? ==> r.message == NoCrawlerMessage(source)
    ensures r.Ok? ==> r.value in crawlers && SupportsSource(r.value, source)
    ensures r.Ok? ==> forall k :: k in crawlers && SupportsSource(k, source) ==> PriorityOf(k) <= PriorityOf(r.value)
    ensures r.Ok? ==>
      exists i :: 0 <= i < |crawlers| && crawlers[i] == r.value &&
        forall j :: 0 <= j < i && SupportsSource(crawlers[j], source) ==> PriorityOf(crawlers[j]) < PriorityOf(r.value)
  {
    match Choose(Priorities, SupportFor(source), crawlers)
    case None => Err(NoCrawlerMessage(source))
    case Some(k) => Ok(k)
  }

  /** The first registered crawler with that name, or null. */
  function FirstWithName(crawlers: seq<CrawlerKind>, name: string): Option<CrawlerKind>
  {
    FirstWhere(k => NameOf(k) == name, crawlers)
  }

  /** A name finds nothing exactly when no registered crawler has it; otherwise a registered crawler with that name. */
  lemma FirstWithNameFacts(crawlers: seq<CrawlerKind>, name: string)
    ensures FirstWithName(crawlers, name).None? <==> forall k :: k in crawlers ==> NameOf(k) != name
    ensures FirstWithName(crawlers, name).Some? ==>
      FirstWithName(crawlers, name).value in crawlers && NameOf(FirstWithName(crawlers, name).value) == name
  {
    var p := k => NameOf(k) == name;
    var r := FirstWhere(p, crawlers);
    if r.None? {
      forall k | k in crawlers
        ensures NameOf(k) != name
      {
        var i :| 0 <= i < |crawlers| && crawlers[i] == k;
        assert !p(crawlers[i]);
      }
    }
  }

  /** The registry; `crawlers` is the `$crawlers` collection, in registration order. */
  class Manager {
    var crawlers: seq<CrawlerKind>

    constructor()
      ensures crawlers == []
    {
      crawlers := [];
    }

    /** `register`: appends; what was registered before keeps its place. */
    method Register(crawler: CrawlerKind)
      modifies this
      ensures crawlers == old(crawlers) + [crawler]
    {
      crawlers := crawlers + [crawler];
    }

    /** `getAllCrawlers`. */
    method GetAllCrawlers() returns (r: seq<CrawlerKind>)
      ensures r == crawlers
    {
      r := crawlers;
    }

    /** `getCrawlerForSource`: reads the list and leaves it as it is. */
    method GetCrawlerForSource(source: NewsSource) returns (r: Catchable<CrawlerKind>)
      ensures r == Resolve(crawlers, source)
    {
      var supportedCrawlers := SortByDesc(Priorities, Filter(SupportFor(source), crawlers));
      if |supportedCrawlers| == 0 {
        return Err(NoCrawlerMessage(source));
      }
      r := Ok(supportedCrawlers[0]);
    }

    /** `getCrawlerByName`. */
    method GetCrawlerByName(name: string) returns (r: Option<CrawlerKind>)
      ensures r == FirstWithName(crawlers, name)
    {
      r := FirstWithName(crawlers, name);
    }
  }

  // ---------------------------------------------------------------------
  // CrawlerServiceProvider

  /** The registration order of the service provider. */
  const DefaultCrawlers: seq<CrawlerKind> := [Bbc, Cnn, Rss, Api, Generic]

  /** The provider's singleton: a new manager with the five crawlers registered in order. */
  method Boot() returns (manager: Manager)
    ensures fresh(manager)
    ensures manager.crawlers == DefaultCrawlers
  {
    manager := new Manager();
    manager.Register(Bbc);
    manager.Register(Cnn);
    manager.Register(Rss);
    manager.Register(Api);
    manager.Register(Generic);
  }

  /**
   * With the default table, resolution is a fixed precedence: BBC, then
   * CNN, then the feed, API and generic crawlers; nothing when none of them
   * supports the source.
   */
  lemma DefaultChoice(p: CrawlerKind -> bool)
    ensures Choose(Priorities, p, DefaultCrawlers) ==
      if p(Bbc) then Some(Bbc) else if p(Cnn) then Some(Cnn) else if p(Rss) then Some(Rss)
      else if p(Api) then Some(Api) else if p(Generic) then Some(Generic) else None
  {
    ChoiceInTableOrder(p, DefaultCrawlers);
  }

  lemma ChoiceInTableOrder(p: CrawlerKind -> bool, xs: seq<CrawlerKind>)
    requires |xs| == 5 && xs[0] == Bbc && xs[1] == Cnn && xs[2] == Rss && xs[3] == Api && xs[4] == Generic
    ensures Choose(Priorities, p, xs) ==
      if p(Bbc) then Some(Bbc) else if p(Cnn) then Some(Cnn) else if p(Rss) then Some(Rss)
      else if p(Api) then Some(Api) else if p(Generic) then Some(Generic) else None
  {
    var r := Choose(Priorities, p, xs);
    if r.Some? {
      var i :| 0 <= i < |xs| && xs[i] == r.value &&
        forall j :: 0 <= j < i && p(xs[j]) ==> Priorities(xs[j]) < Priorities(r.value);
      if p(Bbc) {
        assert xs[0] in xs;
      } else if p(Cnn) {
        assert xs[1] in xs;
      } else if p(Rss) {
        assert xs[2] in xs;
      } else if p(Api) {
        assert xs[3] in xs;
      }
    } else {
      assert xs[0] in xs && xs[1] in xs && xs[2] in xs && xs[3] in xs && xs[4] in xs;
    }
  }

  /** The dispatch table the provider's registration order gives. */
  lemma DefaultResolution(source: NewsSource)
    ensures Resolve(DefaultCrawlers, source) ==
      if BbcCrawler.Supports(source) then Ok(Bbc)
      else if CnnCrawler.Supports(source) then Ok(Cnn)
      else if RssCrawler.Supports(source) then Ok(Rss)
      else if ApiCrawler.Supports(source) then Ok(Api)
      else if GenericCrawler.Supports(source) then Ok(Generic)
      else Err(NoCrawlerMessage(source))
  {
    ResolutionInTableOrder(source, DefaultCrawlers);
  }

  lemma ResolutionInTableOrder(source: NewsSource, xs: seq<CrawlerKind>)
    requires |xs| == 5 && xs[0] == Bbc && xs[1] == Cnn && xs[2] == Rss && xs[3] == Api && xs[4] == Generic
    ensures Resolve(xs, source) ==
      if BbcCrawler.Supports(source) then Ok(Bbc)
      else if CnnCrawler.Supports(source) then Ok(Cnn)
      else if RssCrawler.Supports(source) then Ok(Rss)
      else if ApiCrawler.Supports(source) then Ok(Api)
      else if GenericCrawler.Supports(source) then Ok(Generic)
      else Err(NoCrawlerMessage(source))
  {
    var p := SupportFor(source);
    ChoiceInTableOrder(p, xs);
    assert p(Bbc) == BbcCrawler.Supports(source) && p(Cnn) == CnnCrawler.Supports(source);
    assert p(Rss) == RssCrawler.Supports(source) && p(Api) == ApiCrawler.Supports(source);
    assert p(Generic) == GenericCrawler.Supports(source);
  }

  /** A BBC address goes to the BBC crawler whatever the source type, even when it also names CNN's edition host. */
  lemma BbcSourcesGoToBbc(source: NewsSource)
    requires BbcCrawler.Supports(source)
    ensures Resolve(DefaultCrawlers, source) == Ok(Bbc)
  {
    DefaultResolution(source);
  }

  /** The rss-typed BBC source is one the feed crawler also supports, yet it goes to the BBC crawler. */
  lemma RssTypedBbcGoesToBbc(source: NewsSource)
    requires source.sourceType == "rss" && Contains(Lower(source.baseUrl), "bbc.com")
    ensures RssCrawler.Supports(source)
    ensures Resolve(DefaultCrawlers, source) == Ok(Bbc)
  {
    DefaultResolution(source);
  }

  /** Neither outlet-specific crawler supports the source. */
  predicate NoOutlet(source: NewsSource)
  {
    !BbcCrawler.Supports(source) && !CnnCrawler.Supports(source)
  }

  /** A CNN edition address that is not a BBC one goes to the CNN crawler. */
  lemma CnnSourcesGoToCnn(source: NewsSource)
    requires CnnCrawler.Supports(source) && !BbcCrawler.Supports(source)
    ensures Resolve(DefaultCrawlers, source) == Ok(Cnn)
  {
    DefaultResolution(source);
  }

  /** Off the two outlets, an rss-typed source (such as one on www.cnn.com) goes to the feed crawler. */
  lemma RssSourcesGoToRss(source: NewsSource)
    requires NoOutlet(source) && source.sourceType == "rss"
    ensures Resolve(DefaultCrawlers, source) == Ok(Rss)
  {
    DefaultResolution(source);
  }

  /** Off the two outlets, an api-typed source goes to the API crawler. */
  lemma ApiSourcesGoToApi(source: NewsSource)
    requires NoOutlet(source) && source.sourceType == "api"
    ensures Resolve(DefaultCrawlers, source) == Ok(Api)
  {
    DefaultResolution(source);
  }

  /** Off the two outlets, a website-typed source goes to the generic crawler, the only one that supports it. */
  lemma WebsiteSourcesGoToGeneric(source: NewsSource)
    requires NoOutlet(source) && source.sourceType == "website"
    ensures Resolve(DefaultCrawlers, source) == Ok(Generic)
    ensures forall k :: k in DefaultCrawlers && SupportsSource(k, source) ==> k == Generic
  {
    DefaultResolution(source);
  }

  /** Off the two outlets, a source of any other type has no crawler. */
  lemma OtherSourcesHaveNoCrawler(source: NewsSource)
    requires NoOutlet(source) && source.sourceType != "website" && source.sourceType != "rss" && source.sourceType != "api"
    ensures Resolve(DefaultCrawlers, source) == Err(NoCrawlerMessage(source))
  {
    DefaultResolution(source);
  }
}
