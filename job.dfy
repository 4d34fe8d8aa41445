// The queued crawl of one source for one campaign (app/Jobs/CrawlCampaignJob.php):
// load both rows, open a crawl_jobs record in progress, resolve and run the
// crawler, store every article it returns with one indexing job each, and
// close the record as a success or a failure. An exception is caught and
// closes the record as failed; an `\Error` passes the catch and leaves the
// record in progress. Clock readings are parameters.

module CrawlJobs {
  import opened Common
  import opened CrawlerBase
  import opened Store
  import opened Registry

  // ---------------------------------------------------------------------
  // The record's life cycle

  /** The status changes a crawl_jobs record may go through. */
  predicate Step(from: JobStatus, to: JobStatus)
  {
    (from == Pending && to == InProgress) || (from == InProgress && (to == Success || to == Failed))
  }

  /** A record is finished exactly when it is in a final state, and only a failed one carries an error. */
  predicate Consistent(job: CrawlJob)
  {
    (job.finishedAt.Some? <==> (job.status == Success || job.status == Failed)) &&
    (job.errorMessage.Some? ==> job.status == Failed)
  }

  /** The record `handle` creates (lines 150-155). */
  function Opened(id: nat, campaignId: nat, sourceId: nat, startedAt: int): CrawlJob
  {
    CrawlJob(id, campaignId, sourceId, startedAt, None, InProgress, 0, None)
  }

  /**
   * The record once the crawl is over: success with the article count, or
   * failure with the exception's message. An `\Error` passes the
   * `catch (\Exception $e)` of lines 269-298, so the record stays as it was.
   */
  function Finish(job: CrawlJob, outcome: Result<seq<Article>>, at: int): CrawlJob
  {
    match outcome
    case Ok(items) => job.(finishedAt := Some(at), status := Success, totalArticles := |items|)
    case Err(m) => job.(finishedAt := Some(at), status := Failed, errorMessage := Some(m))
    case Fatal(_) => job
  }

  /**
   * A job record opens consistent and in progress. When the crawl returns
   * or throws an exception, the record closes consistent in one allowed
   * step: success exactly when the crawl produced articles (counted),
   * failure exactly when it threw an exception (with its message). When it
   * raised an `\Error`, the record stays open: in progress, unfinished and
   * without a message. Its id, campaign, source and start time never change.
   */
  lemma LifeCycle(id: nat, campaignId: nat, sourceId: nat, startedAt: int, outcome: Result<seq<Article>>, at: int)
    ensures Consistent(Opened(id, campaignId, sourceId, startedAt))
    ensures var done := Finish(Opened(id, campaignId, sourceId, startedAt), outcome, at);
      && Consistent(done)
      && (!outcome.Fatal? ==> Step(InProgress, done.status) && done.finishedAt == Some(at))
      && (outcome.Fatal? <==> done.status == InProgress)
      && (outcome.Fatal? ==> done == Opened(id, campaignId, sourceId, startedAt))
      && (done.status == Success <==> outcome.Ok?)
      && (done.status == Failed <==> outcome.Err?)
      && (outcome.Ok? ==> done.totalArticles == |outcome.value| && done.errorMessage.None?)
      && (outcome.Err? ==> done.errorMessage == Some(outcome.message) && done.totalArticles == 0)
      && done.id == id && done.campaignId == campaignId && done.sourceId == sourceId && done.startedAt == startedAt
  {
  }

  // ---------------------------------------------------------------------
  // Loading the models

  const CampaignModel := "App\\Models\\Campaign"
  const SourceModel := "App\\Models\\NewsSource"

  /** The message of the exception `findOrFail` throws for a missing row. */
  function NotFoundMessage(model: string, id: nat): string
  {
    "No query results for model [" + model + "] " + NatToString(id)
  }

  /** `Campaign::findOrFail` then `NewsSource::findOrFail` (lines 92-93): the source, or the first miss. */
  function LoadSource(campaigns: seq<Campaign>, sources: seq<NewsSource>, campaignId: nat, sourceId: nat): (r: Result<NewsSource>)
    ensures r.Ok? <==> FindCampaign(campaigns, campaignId).Some? && FindSource(sources, sourceId).Some?
    ensures r.Ok? ==> r.value in sources && r.value.id == sourceId
    ensures FindCampaign(campaigns, campaignId).None? ==> r == Err(NotFoundMessage(CampaignModel, campaignId))
  {
    if FindCampaign(campaigns, campaignId).None? then Err(NotFoundMessage(CampaignModel, campaignId))
    else
      match FindSource(sources, sourceId)
      case None => Err(NotFoundMessage(SourceModel, sourceId))
      case Some(s) => Ok(s)
  }

  // ---------------------------------------------------------------------
  // Crawling and saving

  /**
   * Resolving the crawler and running it (lines 169-192): the articles, or
   * the exception either step throws. `crawl` is the crawler interface's
   * `crawl`; `Registry.CrawlWith` with a fixed environment is the concrete one.
   */
  function CrawlOutcome(crawlers: seq<CrawlerKind>, crawl: (CrawlerKind, NewsSource) -> Result<seq<Article>>, source: NewsSource): Result<seq<Article>>
  {
    var resolved := Resolve(crawlers, source);
    if resolved.Ok? then crawl(resolved.value, source) else Err(resolved.message)
  }

  /**
   * The job fails with "No crawler found..." exactly when no registered
   * crawler supports the source; when it succeeds, it ran a supporting
   * crawler of the highest priority.
   */
  lemma CrawlOutcomeFacts(crawlers: seq<CrawlerKind>, crawl: (CrawlerKind, NewsSource) -> Result<seq<Article>>, source: NewsSource)
    ensures (forall k :: k in crawlers ==> !SupportsSource(k, source)) ==>
      CrawlOutcome(crawlers, crawl, source) == Err(NoCrawlerMessage(source))
    ensures CrawlOutcome(crawlers, crawl, source).Ok? ==>
      exists k :: k in crawlers && SupportsSource(k, source) && CrawlOutcome(crawlers, crawl, source) == crawl(k, source) &&
        forall j :: j in crawlers && SupportsSource(j, source) ==> PriorityOf(j) <= PriorityOf(k)
  {
  }

  /** With the default crawlers, a source off both outlets whose type none of them reads fails the job with "No crawler found...". */
  lemma UnsupportedSourceFails(crawl: (CrawlerKind, NewsSource) -> Result<seq<Article>>, source: NewsSource)
    requires NoOutlet(source) && source.sourceType != "website" && source.sourceType != "rss" && source.sourceType != "api"
    ensures CrawlOutcome(DefaultCrawlers, crawl, source) == Err(NoCrawlerMessage(source))
  {
    OtherSourcesHaveNoCrawler(source);
  }

  /** The rows the save loop writes (lines 208-222), numbered from the table's next id. */
  function SavedRows(items: seq<Article>, campaignId: nat, sourceId: nat, jobId: nat, firstId: nat): seq<StoredArticle>
  {
    seq(|items|, i requires 0 <= i < |items| => StoredArticle(firstId + i, campaignId, sourceId, jobId, items[i]))
  }

  /** One indexing job per saved row, in save order (lines 225-226). */
  function IndexDispatches(rows: seq<StoredArticle>): seq<Dispatch>
  {
    seq(|rows|, i requires 0 <= i < |rows| => IndexArticle(rows[i].id))
  }

  /**
   * Every saved row is one of the crawler's articles, in its order, tagged
   * with the job's campaign, source and record; its id collides with no
   * earlier row; and the indexing jobs name each saved row exactly once.
   */
  lemma {:induction false} SavedRowsFacts(before: seq<StoredArticle>, items: seq<Article>, campaignId: nat, sourceId: nat, jobId: nat, firstId: nat)
    requires forall i :: 0 <= i < |before| ==> before[i].id < firstId
    ensures var rows := SavedRows(items, campaignId, sourceId, jobId, firstId);
      && |rows| == |items|
      && (forall i :: 0 <= i < |rows| ==>
            rows[i].article == items[i] && rows[i].campaignId == campaignId &&
            rows[i].sourceId == sourceId && rows[i].crawlJobId == jobId)
      && (forall a, b :: a in before && b in rows ==> a.id != b.id)
      && Distinct(IndexDispatches(rows))
      && (forall d :: d in IndexDispatches(rows) <==> exists a :: a in rows && d == IndexArticle(a.id))
  {
    var rows := SavedRows(items, campaignId, sourceId, jobId, firstId);
    forall d | d in IndexDispatches(rows)
      ensures exists a :: a in rows && d == IndexArticle(a.id)
    {
      var i :| 0 <= i < |rows| && IndexDispatches(rows)[i] == d;
      assert rows[i] in rows;
    }
    forall a | a in rows
      ensures IndexArticle(a.id) in IndexDispatches(rows)
    {
      var i :| 0 <= i < |rows| && rows[i] == a;
      assert IndexDispatches(rows)[i] == IndexArticle(a.id);
    }
    forall a, b | a in before && b in rows
      ensures a.id != b.id
    {
      var i :| 0 <= i < |before| && before[i] == a;
    }
  }

  /** The save loop (lines 208-236): store each article, then queue its indexing job. */
  method SaveArticles(db: Database, items: seq<Article>, campaignId: nat, sourceId: nat, jobId: nat)
    returns (saved: seq<StoredArticle>)
    requires db.Valid()
    modifies db
    ensures db.Valid()
    ensures saved == SavedRows(items, campaignId, sourceId, jobId, old(db.nextArticleId))
    ensures db.articles == old(db.articles) + saved && db.nextArticleId == old(db.nextArticleId) + |items|
    ensures db.queue == old(db.queue) + IndexDispatches(saved)
    ensures db.campaigns == old(db.campaigns) && db.sources == old(db.sources)
    ensures db.campaignSources == old(db.campaignSources)
    ensures db.crawlJobs == old(db.crawlJobs) && db.nextJobId == old(db.nextJobId)
  {
    ghost var firstId := db.nextArticleId;
    saved := [];
    var i := 0;
    while i < |items|
      invariant 0 <= i <= |items|
      invariant db.Valid()
      invariant saved == SavedRows(items[..i], campaignId, sourceId, jobId, firstId)
      invariant db.articles == old(db.articles) + saved && db.nextArticleId == firstId + i
      invariant db.queue == old(db.queue) + IndexDispatches(saved)
      invariant db.campaigns == old(db.campaigns) && db.sources == old(db.sources)
      invariant db.campaignSources == old(db.campaignSources)
      invariant db.crawlJobs == old(db.crawlJobs) && db.nextJobId == old(db.nextJobId)
    {
      var row := db.CreateArticle(campaignId, sourceId, jobId, items[i]);
      ghost var before := saved;
      saved := saved + [row];
      db.Push(IndexArticle(row.id));
      assert IndexDispatches(saved) == IndexDispatches(before) + [IndexArticle(row.id)];
      assert items[..i + 1] == items[..i] + [items[i]];
      i := i + 1;
    }
    assert items[..i] == items;
  }

  // ---------------------------------------------------------------------
  // handle

  /** Resolving the crawler and running it (lines 169-192). */
  method ResolveAndCrawl(manager: Manager, crawl: (CrawlerKind, NewsSource) -> Result<seq<Article>>, source: NewsSource)
    returns (outcome: Result<seq<Article>>)
    ensures outcome == CrawlOutcome(manager.crawlers, crawl, source)
  {
    var crawler := manager.GetCrawlerForSource(source);
    if crawler.Err? {
      outcome := Err(crawler.message);
    } else {
      outcome := crawl(crawler.value, source);
    }
  }

  /**
   * Everything after the record is opened (lines 162-298): save on success,
   * then close the record at row `index` and mark the source crawled; on an
   * exception only close the record, and rethrow; on an `\Error` change
   * nothing, as it leaves `handle` before the `catch` can act.
   */
  method Close(db: Database, index: nat, job: CrawlJob, outcome: Result<seq<Article>>, finishedAt: int)
    returns (r: Result<()>)
    requires db.Valid() && index < |db.crawlJobs| && db.crawlJobs[index].id == job.id
    modifies db
    ensures db.Valid()
    ensures !outcome.Fatal? ==> db.crawlJobs == old(db.crawlJobs)[index := Finish(job, outcome, finishedAt)]
    ensures outcome.Fatal? ==> db.crawlJobs == old(db.crawlJobs)
    ensures db.nextJobId == old(db.nextJobId)
    ensures db.campaigns == old(db.campaigns) && db.campaignSources == old(db.campaignSources)
    ensures !outcome.Ok? ==>
      && r == Rethrow(outcome)
      && db.articles == old(db.articles) && db.nextArticleId == old(db.nextArticleId)
      && db.queue == old(db.queue) && db.sources == old(db.sources)
    ensures outcome.Ok? ==>
      var saved := SavedRows(outcome.value, job.campaignId, job.sourceId, job.id, old(db.nextArticleId));
      && r == Ok(())
      && db.articles == old(db.articles) + saved
      && db.nextArticleId == old(db.nextArticleId) + |outcome.value|
      && db.queue == old(db.queue) + IndexDispatches(saved)
      && db.sources == Touch(old(db.sources), job.sourceId, finishedAt)
  {
    if outcome.Fatal? {
      return Fatal(outcome.message);
    }
    if outcome.Err? {
      db.UpdateCrawlJob(index, job.(finishedAt := Some(finishedAt), status := Failed, errorMessage := Some(outcome.message)));
      return Err(outcome.message);
    }
    var saved := SaveArticles(db, outcome.value, job.campaignId, job.sourceId, job.id);
    db.UpdateCrawlJob(index, job.(finishedAt := Some(finishedAt), status := Success, totalArticles := |saved|));
    db.TouchSource(job.sourceId, finishedAt);
    r := Ok(());
  }

  /** Lines 150-298 once both rows are loaded: open the record, crawl, close the record. */
  method Process(db: Database, manager: Manager, crawl: (CrawlerKind, NewsSource) -> Result<seq<Article>>, campaignId: nat, source: NewsSource, startedAt: int, finishedAt: int)
    returns (r: Result<()>)
    requires db.Valid()
    modifies db
    ensures db.Valid()
    ensures db.campaigns == old(db.campaigns) && db.campaignSources == old(db.campaignSources)
    ensures var jobId := old(db.nextJobId);
      var outcome := CrawlOutcome(manager.crawlers, crawl, source);
      && db.crawlJobs == old(db.crawlJobs) + [Finish(Opened(jobId, campaignId, source.id, startedAt), outcome, finishedAt)]
      && db.nextJobId == jobId + 1
      && (!outcome.Ok? ==>
            && r == Rethrow(outcome)
            && db.articles == old(db.articles) && db.nextArticleId == old(db.nextArticleId)
            && db.queue == old(db.queue) && db.sources == old(db.sources))
      && (outcome.Ok? ==>
            var saved := SavedRows(outcome.value, campaignId, source.id, jobId, old(db.nextArticleId));
            && r == Ok(())
            && db.articles == old(db.articles) + saved
            && db.nextArticleId == old(db.nextArticleId) + |outcome.value|
            && db.queue == old(db.queue) + IndexDispatches(saved)
            && db.sources == Touch(old(db.sources), source.id, finishedAt))
  {
    var job := db.CreateCrawlJob(campaignId, source.id, startedAt, InProgress);
    var outcome := ResolveAndCrawl(manager, crawl, source);
    r := Close(db, |db.crawlJobs| - 1, job, outcome, finishedAt);
  }

  /**
   * `handle`. A missing campaign or source throws before anything is
   * written. Otherwise exactly one crawl_jobs record is added: in progress
   * while the crawl runs, then closed by `Finish`. On success the articles
   * are stored and queued for indexing and the source's last_crawled_at is
   * set; on an exception nothing else changes and the exception is
   * rethrown. An `\Error` (a TypeError from the API crawler) passes the
   * `catch`: the record stays in progress and the error propagates.
   */
  method Handle(db: Database, manager: Manager, crawl: (CrawlerKind, NewsSource) -> Result<seq<Article>>, campaignId: nat, sourceId: nat, startedAt: int, finishedAt: int)
    returns (r: Result<()>)
    requires db.Valid()
    modifies db
    ensures db.Valid()
    ensures db.campaigns == old(db.campaigns) && db.campaignSources == old(db.campaignSources)
    ensures var loaded := LoadSource(old(db.campaigns), old(db.sources), campaignId, sourceId);
      loaded.Err? ==>
        && r == Err(loaded.message)
        && db.crawlJobs == old(db.crawlJobs) && db.nextJobId == old(db.nextJobId)
        && db.articles == old(db.articles) && db.nextArticleId == old(db.nextArticleId)
        && db.queue == old(db.queue) && db.sources == old(db.sources)
    ensures var loaded := LoadSource(old(db.campaigns), old(db.sources), campaignId, sourceId);
      loaded.Ok? ==>
        var jobId := old(db.nextJobId);
        var outcome := CrawlOutcome(manager.crawlers, crawl, loaded.value);
        && db.crawlJobs == old(db.crawlJobs) + [Finish(Opened(jobId, campaignId, sourceId, startedAt), outcome, finishedAt)]
        && db.nextJobId == jobId + 1
        && (!outcome.Ok? ==>
              && r == Rethrow(outcome)
              && db.articles == old(db.articles) && db.nextArticleId == old(db.nextArticleId)
              && db.queue == old(db.queue) && db.sources == old(db.sources))
        && (outcome.Ok? ==>
              var saved := SavedRows(outcome.value, campaignId, sourceId, jobId, old(db.nextArticleId));
              && r == Ok(())
              && db.articles == old(db.articles) + saved
              && db.nextArticleId == old(db.nextArticleId) + |outcome.value|
              && db.queue == old(db.queue) + IndexDispatches(saved)
              && db.sources == Touch(old(db.sources), sourceId, finishedAt))
  {
    var campaign := FindCampaign(db.campaigns, campaignId);
    if campaign.None? {
      return Err(NotFoundMessage(CampaignModel, campaignId));
    }
    var found := FindSource(db.sources, sourceId);
    if found.None? {
      return Err(NotFoundMessage(SourceModel, sourceId));
    }
    r := Process(db, manager, crawl, campaignId, found.value, startedAt, finishedAt);
  }

  /** Running the job keeps every crawl_jobs record consistent. */
  lemma HandleKeepsRecordsConsistent(before: seq<CrawlJob>, jobId: nat, campaignId: nat, sourceId: nat, startedAt: int, outcome: Result<seq<Article>>, at: int)
    requires forall i :: 0 <= i < |before| ==> Consistent(before[i])
    ensures var after := before + [Finish(Opened(jobId, campaignId, sourceId, startedAt), outcome, at)];
      forall i :: 0 <= i < |after| ==> Consistent(after[i])
  {
    LifeCycle(jobId, campaignId, sourceId, startedAt, outcome, at);
  }
}
