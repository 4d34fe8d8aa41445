// The tables and queues the crawl pipeline reads and writes: the Eloquent
// models of app/Models over the tables of database/migrations, and the two
// job queues ("crawling" and "elasticsearch"). Timestamps are whole minutes.
// Each table is a sequence of rows in insertion order; ids come from the
// table's auto-increment counter.

module Store {
  import opened Common
  import opened CrawlerBase

  // ---------------------------------------------------------------------
  // Rows

  /** `CrawlJob::getValidStatuses`. */
  datatype JobStatus = Pending | InProgress | Success | Failed

  /** `Campaign::getValidStatuses`. */
  datatype CampaignStatus = Scheduled | Running | Completed | CampaignFailed

  /** A row of `campaigns`. */
  datatype Campaign = Campaign(id: nat, name: string, status: CampaignStatus, startDate: int, endDate: Option<int>)

  /** A row of `campaign_sources`, the campaign/source association. */
  datatype Pair = Pair(campaignId: nat, sourceId: nat)

  /** A row of `crawl_jobs`. */
  datatype CrawlJob = CrawlJob(
    id: nat,
    campaignId: nat,
    sourceId: nat,
    startedAt: int,
    finishedAt: Option<int>,
    status: JobStatus,
    totalArticles: nat,
    errorMessage: Option<string>)

  /** A row of `articles`: what a crawler returned, tagged with the campaign, source and crawl job. */
  datatype StoredArticle = StoredArticle(id: nat, campaignId: nat, sourceId: nat, crawlJobId: nat, article: Article)

  /** A job pushed onto a queue. */
  datatype Dispatch =
    | IndexArticle(articleId: nat)
    | CrawlCampaign(campaignId: nat, sourceId: nat)

  /** The queue each kind of job is sent to. */
  function QueueOf(d: Dispatch): string
  {
    match d
    case IndexArticle(_) => "elasticsearch"
    case CrawlCampaign(_, _) => "crawling"
  }

  // ---------------------------------------------------------------------
  // Lookups

  /** `Campaign::find($id)`: the row with that id, or null. */
  function FindCampaign(rows: seq<Campaign>, id: nat): (r: Option<Campaign>)
    ensures r.None? <==> forall i :: 0 <= i < |rows| ==> rows[i].id != id
    ensures r.Some? ==> r.value in rows && r.value.id == id
    decreases |rows|
  {
    if rows == [] then None
    else if rows[0].id == id then Some(rows[0])
    else
      var r := FindCampaign(rows[1..], id);
      assert forall i :: 0 < i < |rows| ==> rows[i] == rows[1..][i - 1];
      r
  }

  /** `NewsSource::find($id)`: the first row with that id, or null. */
  function FindSource(rows: seq<NewsSource>, id: nat): (r: Option<NewsSource>)
    ensures r.None? <==> forall i :: 0 <= i < |rows| ==> rows[i].id != id
    ensures r.Some? ==> r.value in rows && r.value.id == id
    decreases |rows|
  {
    if rows == [] then None
    else if rows[0].id == id then Some(rows[0])
    else
      var r := FindSource(rows[1..], id);
      assert forall i :: 0 < i < |rows| ==> rows[i] == rows[1..][i - 1];
      r
  }

  // ---------------------------------------------------------------------
  // Bulk updates

  /** `Article::where('source_id', $id)->delete()`: the other rows, in their order. */
  function WithoutSource(rows: seq<StoredArticle>, sourceId: nat): seq<StoredArticle>
    decreases |rows|
  {
    if rows == [] then []
    else (if rows[0].sourceId == sourceId then [] else [rows[0]]) + WithoutSource(rows[1..], sourceId)
  }

  /** Deleting by source removes exactly that source's rows and never adds any. */
  lemma {:induction false} WithoutSourceFacts(rows: seq<StoredArticle>, sourceId: nat)
    ensures forall a :: a in WithoutSource(rows, sourceId) <==> a in rows && a.sourceId != sourceId
    ensures |WithoutSource(rows, sourceId)| <= |rows|
    decreases |rows|
  {
    if rows != [] {
      WithoutSourceFacts(rows[1..], sourceId);
      assert forall a :: a in rows <==> a == rows[0] || a in rows[1..];
    }
  }

  /** `$source->update(['last_crawled_at' => $at])` on the rows with that id. */
  function Touch(rows: seq<NewsSource>, id: nat, at: int): seq<NewsSource>
  {
    seq(|rows|, i requires 0 <= i < |rows| => if rows[i].id == id then rows[i].(lastCrawledAt := Some(at)) else rows[i])
  }

  /** After `Touch`, looking the source up again shows the new time, and every other source is as it was. */
  lemma {:induction false} TouchFacts(rows: seq<NewsSource>, id: nat, at: int, other: nat)
    ensures FindSource(Touch(rows, id, at), id) ==
      (match FindSource(rows, id) case None => None case Some(s) => Some(s.(lastCrawledAt := Some(at))))
    ensures other != id ==> FindSource(Touch(rows, id, at), other) == FindSource(rows, other)
    decreases |rows|
  {
    if rows != [] {
      var t := Touch(rows, id, at);
      assert Touch(rows[1..], id, at) == t[1..];
      TouchFacts(rows[1..], id, at, other);
    }
  }

  // ---------------------------------------------------------------------
  // The database

  class Database {
    var campaigns: seq<Campaign>
    var sources: seq<NewsSource>
    var campaignSources: seq<Pair>
    var crawlJobs: seq<CrawlJob>
    var articles: seq<StoredArticle>
    var queue: seq<Dispatch>
    var nextJobId: nat
    var nextArticleId: nat

    /** Every id handed out so far is below the table's counter, so the next id is fresh. */
    predicate Valid()
      reads this
    {
      (forall i :: 0 <= i < |crawlJobs| ==> crawlJobs[i].id < nextJobId) &&
      (forall i :: 0 <= i < |articles| ==> articles[i].id < nextArticleId)
    }

    /** A database holding the given campaigns, sources and associations, with no crawl results yet. */
    constructor(campaigns: seq<Campaign>, sources: seq<NewsSource>, campaignSources: seq<Pair>)
      ensures Valid()
      ensures this.campaigns == campaigns && this.sources == sources && this.campaignSources == campaignSources
      ensures crawlJobs == [] && articles == [] && queue == []
    {
      this.campaigns := campaigns;
      this.sources := sources;
      this.campaignSources := campaignSources;
      crawlJobs := [];
      articles := [];
      queue := [];
      nextJobId := 1;
      nextArticleId := 1;
    }

    /** `CrawlJob::create`: a new row with the next id, no finish time, no articles and no error. */
    method CreateCrawlJob(campaignId: nat, sourceId: nat, startedAt: int, status: JobStatus) returns (job: CrawlJob)
      requires Valid()
      modifies this
      ensures Valid()
      ensures job == CrawlJob(old(nextJobId), campaignId, sourceId, startedAt, None, status, 0, None)
      ensures crawlJobs == old(crawlJobs) + [job] && nextJobId == old(nextJobId) + 1
      ensures campaigns == old(campaigns) && sources == old(sources) && campaignSources == old(campaignSources)
      ensures articles == old(articles) && queue == old(queue) && nextArticleId == old(nextArticleId)
    {
      job := CrawlJob(nextJobId, campaignId, sourceId, startedAt, None, status, 0, None);
      crawlJobs := crawlJobs + [job];
      nextJobId := nextJobId + 1;
    }

    /** `$crawlJob->update(...)`: the row at `i` takes the new values and keeps its id. */
    method UpdateCrawlJob(i: nat, job: CrawlJob)
      requires Valid() && i < |crawlJobs| && job.id == crawlJobs[i].id
      modifies this
      ensures Valid()
      ensures crawlJobs == old(crawlJobs)[i := job] && nextJobId == old(nextJobId)
      ensures campaigns == old(campaigns) && sources == old(sources) && campaignSources == old(campaignSources)
      ensures articles == old(articles) && queue == old(queue) && nextArticleId == old(nextArticleId)
    {
      crawlJobs := crawlJobs[i := job];
    }

    /** `Article::create`: a new row with the next id. */
    method CreateArticle(campaignId: nat, sourceId: nat, crawlJobId: nat, article: Article) returns (row: StoredArticle)
      requires Valid()
      modifies this
      ensures Valid()
      ensures row == StoredArticle(old(nextArticleId), campaignId, sourceId, crawlJobId, article)
      ensures articles == old(articles) + [row] && nextArticleId == old(nextArticleId) + 1
      ensures campaigns == old(campaigns) && sources == old(sources) && campaignSources == old(campaignSources)
      ensures crawlJobs == old(crawlJobs) && queue == old(queue) && nextJobId == old(nextJobId)
    {
      row := StoredArticle(nextArticleId, campaignId, sourceId, crawlJobId, article);
      articles := articles + [row];
      nextArticleId := nextArticleId + 1;
    }

    /** `Job::dispatch(...)->onQueue(...)`: the job goes to the back of the queue. */
    method Push(d: Dispatch)
      requires Valid()
      modifies this
      ensures Valid()
      ensures queue == old(queue) + [d]
      ensures campaigns == old(campaigns) && sources == old(sources) && campaignSources == old(campaignSources)
      ensures crawlJobs == old(crawlJobs) && articles == old(articles)
      ensures nextJobId == old(nextJobId) && nextArticleId == old(nextArticleId)
    {
      queue := queue + [d];
    }

    /** `$source->update(['last_crawled_at' => now()])`. */
    method TouchSource(id: nat, at: int)
      requires Valid()
      modifies this
      ensures Valid()
      ensures sources == Touch(old(sources), id, at)
      ensures campaigns == old(campaigns) && campaignSources == old(campaignSources) && queue == old(queue)
      ensures crawlJobs == old(crawlJobs) && articles == old(articles)
      ensures nextJobId == old(nextJobId) && nextArticleId == old(nextArticleId)
    {
      sources := Touch(sources, id, at);
    }

    /** `Article::where('source_id', $id)->delete()`, returning how many rows went. */
    method DeleteArticlesOf(sourceId: nat) returns (count: nat)
      requires Valid()
      modifies this
      ensures Valid()
      ensures articles == WithoutSource(old(articles), sourceId)
      ensures count == |old(articles)| - |articles|
      ensures campaigns == old(campaigns) && sources == old(sources) && campaignSources == old(campaignSources)
      ensures crawlJobs == old(crawlJobs) && queue == old(queue)
      ensures nextJobId == old(nextJobId) && nextArticleId == old(nextArticleId)
    {
      var before := articles;
      WithoutSourceFacts(before, sourceId);
      articles := WithoutSource(articles, sourceId);
      forall i | 0 <= i < |articles|
        ensures articles[i].id < nextArticleId
      {
        assert articles[i] in before;
      }
      count := |before| - |articles|;
    }

    /** `CampaignSource::create`: the association row goes at the end. */
    method InsertPair(p: Pair)
      requires Valid()
      modifies this
      ensures Valid()
      ensures campaignSources == old(campaignSources) + [p]
      ensures campaigns == old(campaigns) && sources == old(sources) && queue == old(queue)
      ensures crawlJobs == old(crawlJobs) && articles == old(articles)
      ensures nextJobId == old(nextJobId) && nextArticleId == old(nextArticleId)
    {
      campaignSources := campaignSources + [p];
    }

    /** `$campaignSource->delete()`: the association row at `i` goes, the others keep their order. */
    method DeletePairAt(i: nat)
      requires Valid() && i < |campaignSources|
      modifies this
      ensures Valid()
      ensures campaignSources == old(campaignSources)[..i] + old(campaignSources)[i + 1..]
      ensures campaigns == old(campaigns) && sources == old(sources) && queue == old(queue)
      ensures crawlJobs == old(crawlJobs) && articles == old(articles)
      ensures nextJobId == old(nextJobId) && nextArticleId == old(nextArticleId)
    {
      campaignSources := campaignSources[..i] + campaignSources[i + 1..];
    }
  }
}
