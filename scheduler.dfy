// The `campaigns:schedule-crawl` command (app/Console/Commands/ScheduleCrawlJobs.php):
// for every running campaign inside its date window and every active source
// linked to it, a source whose crawl interval has passed loses its stored
// articles and gets a crawl job queued; the command reports how many jobs it
// queued and exits with success.

module Scheduler {
  import opened Common
  import opened CrawlerBase
  import opened Store

  // ---------------------------------------------------------------------
  // Selection

  /** `shouldCrawl`: never crawled, or the crawl interval has passed since the last crawl. */
  predicate ShouldCrawl(source: NewsSource, now: int)
  {
    match source.lastCrawledAt
    case None => true
    case Some(t) => now >= t + source.crawlIntervalMinutes
  }

  /**
   * A source that is due stays due as time goes on, and right after a crawl
   * at `at` it is due again exactly once its interval has passed.
   */
  lemma ShouldCrawlFacts(source: NewsSource, now: int, later: int, at: int)
    ensures source.lastCrawledAt.None? ==> ShouldCrawl(source, now)
    ensures ShouldCrawl(source, now) && now <= later ==> ShouldCrawl(source, later)
    ensures ShouldCrawl(source.(lastCrawledAt := Some(at)), now) <==> now - at >= source.crawlIntervalMinutes
  {
  }

  /** A crawl job run at `at` makes its source not due before `at` plus its interval. */
  lemma TouchedSourceWaits(rows: seq<NewsSource>, id: nat, at: int, now: int)
    requires FindSource(rows, id).Some?
    ensures FindSource(Touch(rows, id, at), id).Some?
    ensures ShouldCrawl(FindSource(Touch(rows, id, at), id).value, now) <==>
      now >= at + FindSource(rows, id).value.crawlIntervalMinutes
  {
    TouchFacts(rows, id, at, id);
  }

  /** The campaign query (lines 38-45): status running, started, and not yet ended. */
  predicate IsActive(c: Campaign, now: int)
  {
    c.status == Running && c.startDate <= now && (c.endDate.None? || c.endDate.value >= now)
  }

  /** The campaigns the query returns, in table order. */
  function ActiveCampaigns(cs: seq<Campaign>, now: int): seq<Campaign>
    decreases |cs|
  {
    if cs == [] then []
    else (if IsActive(cs[0], now) then [cs[0]] else []) + ActiveCampaigns(cs[1..], now)
  }

  /** The query returns exactly the active campaigns. */
  lemma {:induction false} ActiveCampaignsFacts(cs: seq<Campaign>, now: int)
    ensures forall c :: c in ActiveCampaigns(cs, now) <==> c in cs && IsActive(c, now)
    decreases |cs|
  {
    if cs != [] {
      ActiveCampaignsFacts(cs[1..], now);
      assert forall c :: c in cs <==> c == cs[0] || c in cs[1..];
    }
  }

  /**
   * `$campaign->sources->where('is_active', true)` (line 67): for each
   * association row of the campaign, in table order, the linked source row
   * when it exists and is active.
   */
  function ActiveSourcesOf(pairs: seq<Pair>, sources: seq<NewsSource>, campaignId: nat): seq<NewsSource>
    decreases |pairs|
  {
    if pairs == [] then []
    else LinkedActive(pairs[0], sources, campaignId) + ActiveSourcesOf(pairs[1..], sources, campaignId)
  }

  /** The source one association row contributes. */
  function LinkedActive(p: Pair, sources: seq<NewsSource>, campaignId: nat): seq<NewsSource>
  {
    if p.campaignId != campaignId then []
    else match FindSource(sources, p.sourceId)
      case Some(s) => if s.isActive then [s] else []
      case None => []
  }

  /** The campaign's active sources are exactly the active rows its association rows point to. */
  lemma {:induction false} ActiveSourcesFacts(pairs: seq<Pair>, sources: seq<NewsSource>, campaignId: nat)
    ensures forall s :: s in ActiveSourcesOf(pairs, sources, campaignId) <==>
      exists p :: p in pairs && p.campaignId == campaignId && FindSource(sources, p.sourceId) == Some(s) && s.isActive
    decreases |pairs|
  {
    if pairs != [] {
      ActiveSourcesFacts(pairs[1..], sources, campaignId);
      assert forall p :: p in pairs <==> p == pairs[0] || p in pairs[1..];
    }
  }

  // ---------------------------------------------------------------------
  // The plan

  /** The (campaign, source) pairs the inner loop (lines 88-132) dispatches, in order. */
  function CampaignPlan(c: Campaign, sources: seq<NewsSource>, now: int): seq<Pair>
    decreases |sources|
  {
    if sources == [] then []
    else
      var last := sources[|sources| - 1];
      CampaignPlan(c, sources[..|sources| - 1], now) + (if ShouldCrawl(last, now) then [Pair(c.id, last.id)] else [])
  }

  /** One campaign's plan pairs it with exactly its due sources. */
  lemma {:induction false} CampaignPlanFacts(c: Campaign, sources: seq<NewsSource>, now: int)
    ensures forall p :: p in CampaignPlan(c, sources, now) <==>
      exists s :: s in sources && ShouldCrawl(s, now) && p == Pair(c.id, s.id)
    decreases |sources|
  {
    if sources != [] {
      var init := sources[..|sources| - 1];
      CampaignPlanFacts(c, init, now);
      assert forall s :: s in sources <==> s == sources[|sources| - 1] || s in init;
    }
  }

  /** The pairs the outer loop (lines 61-142) dispatches over the given campaigns, in order. */
  function CampaignsPlan(cs: seq<Campaign>, pairs: seq<Pair>, sources: seq<NewsSource>, now: int): seq<Pair>
    decreases |cs|
  {
    if cs == [] then []
    else
      var last := cs[|cs| - 1];
      CampaignsPlan(cs[..|cs| - 1], pairs, sources, now) + CampaignPlan(last, ActiveSourcesOf(pairs, sources, last.id), now)
  }

  /** The plan over several campaigns is the union of their own plans. */
  lemma {:induction false} CampaignsPlanFacts(cs: seq<Campaign>, pairs: seq<Pair>, sources: seq<NewsSource>, now: int)
    ensures forall p :: p in CampaignsPlan(cs, pairs, sources, now) <==>
      exists c :: c in cs && p in CampaignPlan(c, ActiveSourcesOf(pairs, sources, c.id), now)
    decreases |cs|
  {
    if cs != [] {
      var init := cs[..|cs| - 1];
      CampaignsPlanFacts(init, pairs, sources, now);
      assert forall c :: c in cs <==> c == cs[|cs| - 1] || c in init;
    }
  }

  /** Every (campaign, source) pair the command dispatches a crawl job for, in order. */
  function Plan(campaigns: seq<Campaign>, pairs: seq<Pair>, sources: seq<NewsSource>, now: int): seq<Pair>
  {
    CampaignsPlan(ActiveCampaigns(campaigns, now), pairs, sources, now)
  }

  /**
   * A pair is dispatched exactly when its campaign is active, the two are
   * associated, and the source row is active and due.
   */
  lemma PlanFacts(campaigns: seq<Campaign>, pairs: seq<Pair>, sources: seq<NewsSource>, now: int, p: Pair)
    ensures p in Plan(campaigns, pairs, sources, now) <==>
      && (exists c :: c in campaigns && IsActive(c, now) && c.id == p.campaignId)
      && p in pairs
      && (exists s :: FindSource(sources, p.sourceId) == Some(s) && s.isActive && ShouldCrawl(s, now))
  {
    var active := ActiveCampaigns(campaigns, now);
    ActiveCampaignsFacts(campaigns, now);
    CampaignsPlanFacts(active, pairs, sources, now);
    if p in Plan(campaigns, pairs, sources, now) {
      var c :| c in active && p in CampaignPlan(c, ActiveSourcesOf(pairs, sources, c.id), now);
      CampaignPlanFacts(c, ActiveSourcesOf(pairs, sources, c.id), now);
      ActiveSourcesFacts(pairs, sources, c.id);
      var s :| s in ActiveSourcesOf(pairs, sources, c.id) && ShouldCrawl(s, now) && p == Pair(c.id, s.id);
      var q :| q in pairs && q.campaignId == c.id && FindSource(sources, q.sourceId) == Some(s) && s.isActive;
      assert q == p;
    }
    if && (exists c :: c in campaigns && IsActive(c, now) && c.id == p.campaignId)
       && p in pairs
       && (exists s :: FindSource(sources, p.sourceId) == Some(s) && s.isActive && ShouldCrawl(s, now))
    {
      var c :| c in campaigns && IsActive(c, now) && c.id == p.campaignId;
      var s :| FindSource(sources, p.sourceId) == Some(s) && s.isActive && ShouldCrawl(s, now);
      ActiveSourcesFacts(pairs, sources, c.id);
      assert s in ActiveSourcesOf(pairs, sources, c.id);
      CampaignPlanFacts(c, ActiveSourcesOf(pairs, sources, c.id), now);
      assert p in CampaignPlan(c, ActiveSourcesOf(pairs, sources, c.id), now);
    }
  }

  /** The crawl jobs the plan queues, in order (lines 120-121). */
  function Dispatched(plan: seq<Pair>): seq<Dispatch>
  {
    seq(|plan|, i requires 0 <= i < |plan| => CrawlCampaign(plan[i].campaignId, plan[i].sourceId))
  }

  /** The articles left after deleting those of each planned source in turn (line 105). */
  function Purge(rows: seq<StoredArticle>, plan: seq<Pair>): seq<StoredArticle>
    decreases |plan|
  {
    if plan == [] then rows
    else WithoutSource(Purge(rows, plan[..|plan| - 1]), plan[|plan| - 1].sourceId)
  }

  /** An article survives exactly when no planned pair names its source. */
  lemma {:induction false} PurgeFacts(rows: seq<StoredArticle>, plan: seq<Pair>)
    ensures forall a :: a in Purge(rows, plan) <==> a in rows && forall p :: p in plan ==> p.sourceId != a.sourceId
    decreases |plan|
  {
    if plan != [] {
      var init := plan[..|plan| - 1];
      PurgeFacts(rows, init);
      WithoutSourceFacts(Purge(rows, init), plan[|plan| - 1].sourceId);
      assert forall p :: p in plan <==> p == plan[|plan| - 1] || p in init;
    }
  }

  /** Deleting for two plans one after the other is deleting for the two together. */
  lemma {:induction false} PurgeAppend(rows: seq<StoredArticle>, a: seq<Pair>, b: seq<Pair>)
    ensures Purge(rows, a + b) == Purge(Purge(rows, a), b)
    decreases |b|
  {
    if b == [] {
      assert a + b == a;
    } else {
      var init := b[..|b| - 1];
      assert (a + b)[..|a + b| - 1] == a + init;
      PurgeAppend(rows, a, init);
    }
  }

  // ---------------------------------------------------------------------
  // handle

  /** One iteration of the inner loop (lines 89-131): skip a source that is not due, else delete its articles and queue its job. */
  method ScheduleSource(db: Database, c: Campaign, s: NewsSource, now: int) returns (dispatched: bool)
    requires db.Valid()
    modifies db
    ensures db.Valid()
    ensures dispatched == ShouldCrawl(s, now)
    ensures dispatched ==> db.articles == WithoutSource(old(db.articles), s.id) && db.queue == old(db.queue) + [CrawlCampaign(c.id, s.id)]
    ensures !dispatched ==> db.articles == old(db.articles) && db.queue == old(db.queue)
    ensures db.campaigns == old(db.campaigns) && db.sources == old(db.sources) && db.campaignSources == old(db.campaignSources)
    ensures db.crawlJobs == old(db.crawlJobs) && db.nextJobId == old(db.nextJobId) && db.nextArticleId == old(db.nextArticleId)
  {
    if !ShouldCrawl(s, now) {
      return false;
    }
    var deletedCount := db.DeleteArticlesOf(s.id);
    db.Push(CrawlCampaign(c.id, s.id));
    dispatched := true;
  }

  /** One step of the inner loop, as the plan, the queue and the deletions see it. */
  lemma CampaignStep(rows: seq<StoredArticle>, c: Campaign, sources: seq<NewsSource>, j: nat, now: int)
    requires j < |sources|
    ensures var done := CampaignPlan(c, sources[..j], now);
      var next := CampaignPlan(c, sources[..j + 1], now);
      var p := Pair(c.id, sources[j].id);
      && (ShouldCrawl(sources[j], now) ==>
            && next == done + [p]
            && Dispatched(next) == Dispatched(done) + [CrawlCampaign(c.id, sources[j].id)]
            && Purge(rows, next) == WithoutSource(Purge(rows, done), sources[j].id))
      && (!ShouldCrawl(sources[j], now) ==> next == done)
  {
    var done := CampaignPlan(c, sources[..j], now);
    assert sources[..j + 1][..j] == sources[..j];
    if ShouldCrawl(sources[j], now) {
      var p := Pair(c.id, sources[j].id);
      assert (done + [p])[..|done|] == done;
    } else {
      assert CampaignPlan(c, sources[..j + 1], now) == done + [];
    }
  }

  /** The inner loop over one campaign's active sources (lines 88-132), returning how many jobs it queued. */
  method ScheduleCampaign(db: Database, c: Campaign, sources: seq<NewsSource>, now: int) returns (count: nat)
    requires db.Valid()
    modifies db
    ensures db.Valid()
    ensures db.queue == old(db.queue) + Dispatched(CampaignPlan(c, sources, now))
    ensures db.articles == Purge(old(db.articles), CampaignPlan(c, sources, now))
    ensures count == |CampaignPlan(c, sources, now)|
    ensures db.campaigns == old(db.campaigns) && db.sources == old(db.sources) && db.campaignSources == old(db.campaignSources)
    ensures db.crawlJobs == old(db.crawlJobs) && db.nextJobId == old(db.nextJobId) && db.nextArticleId == old(db.nextArticleId)
  {
    count := 0;
    var j := 0;
    while j < |sources|
      invariant 0 <= j <= |sources|
      invariant db.Valid()
      invariant db.queue == old(db.queue) + Dispatched(CampaignPlan(c, sources[..j], now))
      invariant db.articles == Purge(old(db.articles), CampaignPlan(c, sources[..j], now))
      invariant count == |CampaignPlan(c, sources[..j], now)|
      invariant db.campaigns == old(db.campaigns) && db.sources == old(db.sources) && db.campaignSources == old(db.campaignSources)
      invariant db.crawlJobs == old(db.crawlJobs) && db.nextJobId == old(db.nextJobId) && db.nextArticleId == old(db.nextArticleId)
    {
      CampaignStep(old(db.articles), c, sources, j, now);
      var dispatched := ScheduleSource(db, c, sources[j], now);
      if dispatched {
        count := count + 1;
      }
      j := j + 1;
    }
    assert sources[..j] == sources;
  }

  /** One step of the outer loop: the plan grows by the campaign's own plan. */
  lemma CampaignsStep(cs: seq<Campaign>, i: nat, pairs: seq<Pair>, sources: seq<NewsSource>, now: int)
    requires i < |cs|
    ensures CampaignsPlan(cs[..i + 1], pairs, sources, now) ==
      CampaignsPlan(cs[..i], pairs, sources, now) + CampaignPlan(cs[i], ActiveSourcesOf(pairs, sources, cs[i].id), now)
  {
    assert cs[..i + 1][..i] == cs[..i];
  }

  /** Queuing two plans one after the other queues the two together. */
  lemma DispatchedAppend(a: seq<Pair>, b: seq<Pair>)
    ensures Dispatched(a + b) == Dispatched(a) + Dispatched(b)
  {
  }

  /** One iteration of the outer loop (lines 62-141): the campaign's active sources, skipped when there are none. */
  method ScheduleActiveSources(db: Database, campaign: Campaign, pairs: seq<Pair>, sources: seq<NewsSource>, now: int)
    returns (count: nat)
    requires db.Valid()
    modifies db
    ensures db.Valid()
    ensures var step := CampaignPlan(campaign, ActiveSourcesOf(pairs, sources, campaign.id), now);
      && db.queue == old(db.queue) + Dispatched(step)
      && db.articles == Purge(old(db.articles), step)
      && count == |step|
    ensures db.campaigns == old(db.campaigns) && db.sources == old(db.sources) && db.campaignSources == old(db.campaignSources)
    ensures db.crawlJobs == old(db.crawlJobs) && db.nextJobId == old(db.nextJobId) && db.nextArticleId == old(db.nextArticleId)
  {
    var active := ActiveSourcesOf(pairs, sources, campaign.id);
    if |active| == 0 {
      assert active == [];
      return 0;
    }
    count := ScheduleCampaign(db, campaign, active, now);
  }

  /** The outer loop (lines 61-142) over the given campaigns, with the association and source rows it loaded. */
  method ScheduleCampaigns(db: Database, cs: seq<Campaign>, pairs: seq<Pair>, sources: seq<NewsSource>, now: int)
    returns (total: nat)
    requires db.Valid()
    modifies db
    ensures db.Valid()
    ensures db.queue == old(db.queue) + Dispatched(CampaignsPlan(cs, pairs, sources, now))
    ensures db.articles == Purge(old(db.articles), CampaignsPlan(cs, pairs, sources, now))
    ensures total == |CampaignsPlan(cs, pairs, sources, now)|
    ensures db.campaigns == old(db.campaigns) && db.sources == old(db.sources) && db.campaignSources == old(db.campaignSources)
    ensures db.crawlJobs == old(db.crawlJobs) && db.nextJobId == old(db.nextJobId) && db.nextArticleId == old(db.nextArticleId)
  {
    total := 0;
    ghost var rows, queued0 := db.articles, db.queue;
    ghost var plan: seq<Pair> := [];
    var i := 0;
    while i < |cs|
      invariant 0 <= i <= |cs|
      invariant db.Valid()
      invariant plan == CampaignsPlan(cs[..i], pairs, sources, now)
      invariant db.queue == queued0 + Dispatched(plan)
      invariant db.articles == Purge(rows, plan)
      invariant total == |plan|
      invariant db.campaigns == old(db.campaigns) && db.sources == old(db.sources) && db.campaignSources == old(db.campaignSources)
      invariant db.crawlJobs == old(db.crawlJobs) && db.nextJobId == old(db.nextJobId) && db.nextArticleId == old(db.nextArticleId)
    {
      ghost var step := CampaignPlan(cs[i], ActiveSourcesOf(pairs, sources, cs[i].id), now);
      CampaignsStep(cs, i, pairs, sources, now);
      DispatchedAppend(plan, step);
      PurgeAppend(rows, plan, step);
      AppendAssoc(queued0, Dispatched(plan), Dispatched(step));
      var count := ScheduleActiveSources(db, cs[i], pairs, sources, now);
      total := total + count;
      plan := plan + step;
      i := i + 1;
    }
    assert cs[..i] == cs;
  }

  /**
   * `handle`: queues one crawl job per planned pair, in order, deletes the
   * stored articles of every planned source, and yields the count the command
   * reports (the exit code itself is always success). Nothing else changes.
   */
  method Handle(db: Database, now: int) returns (totalJobsDispatched: nat)
    requires db.Valid()
    modifies db
    ensures db.Valid()
    ensures var plan := Plan(old(db.campaigns), old(db.campaignSources), old(db.sources), now);
      && db.queue == old(db.queue) + Dispatched(plan)
      && db.articles == Purge(old(db.articles), plan)
      && totalJobsDispatched == |plan|
    ensures db.campaigns == old(db.campaigns) && db.sources == old(db.sources) && db.campaignSources == old(db.campaignSources)
    ensures db.crawlJobs == old(db.crawlJobs) && db.nextJobId == old(db.nextJobId) && db.nextArticleId == old(db.nextArticleId)
  {
    var activeCampaigns := ActiveCampaigns(db.campaigns, now);
    if |activeCampaigns| == 0 {
      return 0;
    }
    totalJobsDispatched := ScheduleCampaigns(db, activeCampaigns, db.campaignSources, db.sources, now);
  }

  /**
   * After the command, no stored article belongs to a source it queued a
   * job for, and every article of any other source is still there.
   */
  lemma PurgedExactlyPlannedSources(rows: seq<StoredArticle>, campaigns: seq<Campaign>, pairs: seq<Pair>, sources: seq<NewsSource>, now: int, a: StoredArticle)
    requires a in rows
    ensures var plan := Plan(campaigns, pairs, sources, now);
      a in Purge(rows, plan) <==> forall p :: p in plan ==> p.sourceId != a.sourceId
  {
    PurgeFacts(rows, Plan(campaigns, pairs, sources, now));
  }
}
