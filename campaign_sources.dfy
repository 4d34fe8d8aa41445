// The campaign/source association (app/Services/CampaignSourceService.php over
// the `campaign_sources` table): creating or attaching a pair checks that both
// rows exist and that the pair is new, detaching removes the one row found.
// The table's unique (campaign_id, source_id) index is the invariant `Unique`.

module CampaignSources {
  import opened Common
  import opened CrawlerBase
  import opened Store

  /** The table's unique index on (campaign_id, source_id). */
  predicate Unique(pairs: seq<Pair>)
  {
    Distinct(pairs)
  }

  /** What `create` and `attachSourceToCampaign` end with: the new row, or a validation error on a field. */
  datatype Outcome = Created(pair: Pair) | ValidationError(field: string, message: string)

  const DuplicateMessage := "This source is already associated with this campaign."

  /** The validator's message for a failed `exists` rule. */
  function InvalidMessage(attribute: string): string
  {
    "The selected " + attribute + " is invalid."
  }

  /**
   * `create` on {campaign_id, source_id} (lines 27-44): the `exists` rules
   * first (line 29, the campaign's first), then the duplicate check
   * (lines 32-41), then the new row.
   */
  function CreateOutcome(campaigns: seq<Campaign>, sources: seq<NewsSource>, pairs: seq<Pair>, campaignId: nat, sourceId: nat): Outcome
  {
    if FindCampaign(campaigns, campaignId).None? then ValidationError("campaign_id", InvalidMessage("campaign id"))
    else if FindSource(sources, sourceId).None? then ValidationError("source_id", InvalidMessage("source id"))
    else if Pair(campaignId, sourceId) in pairs then ValidationError("source_id", DuplicateMessage)
    else Created(Pair(campaignId, sourceId))
  }

  /**
   * A pair is created exactly when both rows exist and the pair is new, and
   * then it is that pair; an existing pair is refused with the duplicate
   * message on source_id. Adding the created pair keeps the table unique.
   */
  lemma CreateOutcomeFacts(campaigns: seq<Campaign>, sources: seq<NewsSource>, pairs: seq<Pair>, campaignId: nat, sourceId: nat)
    ensures var r := CreateOutcome(campaigns, sources, pairs, campaignId, sourceId);
      && (r.Created? <==>
            (exists c :: c in campaigns && c.id == campaignId) &&
            (exists s :: s in sources && s.id == sourceId) &&
            Pair(campaignId, sourceId) !in pairs)
      && (r.Created? ==> r.pair == Pair(campaignId, sourceId))
      && (Pair(campaignId, sourceId) in pairs ==> r.ValidationError?)
      && (Pair(campaignId, sourceId) in pairs && FindCampaign(campaigns, campaignId).Some? && FindSource(sources, sourceId).Some? ==>
            r == ValidationError("source_id", DuplicateMessage))
      && (Unique(pairs) && r.Created? ==> Unique(pairs + [r.pair]))
  {
    var r := CreateOutcome(campaigns, sources, pairs, campaignId, sourceId);
    if (exists c :: c in campaigns && c.id == campaignId) {
      var c :| c in campaigns && c.id == campaignId;
      var i :| 0 <= i < |campaigns| && campaigns[i] == c;
    }
    if (exists s :: s in sources && s.id == sourceId) {
      var s :| s in sources && s.id == sourceId;
      var i :| 0 <= i < |sources| && sources[i] == s;
    }
    if Unique(pairs) && r.Created? {
      var all := pairs + [r.pair];
      forall i, j | 0 <= i < j < |all|
        ensures all[i] != all[j]
      {
        if j == |pairs| {
          assert all[i] in pairs;
        }
      }
    }
  }

  /** `findCampaignSource`: the position of the first row holding the pair, if any. */
  function FindPair(pairs: seq<Pair>, p: Pair): (r: Option<nat>)
    ensures r.None? <==> p !in pairs
    ensures r.Some? ==> r.value < |pairs| && pairs[r.value] == p
    decreases |pairs|
  {
    if pairs == [] then None
    else if pairs[0] == p then Some(0)
    else
      match FindPair(pairs[1..], p)
      case None => None
      case Some(i) => Some(i + 1)
  }

  /** Removing the row at `i` of a unique table removes exactly its pair and keeps the table unique. */
  lemma RemoveAtFacts(pairs: seq<Pair>, i: nat)
    requires Unique(pairs) && i < |pairs|
    ensures var rest := pairs[..i] + pairs[i + 1..];
      && Unique(rest)
      && (forall q :: q in rest <==> q in pairs && q != pairs[i])
      && |rest| == |pairs| - 1
  {
    var rest := pairs[..i] + pairs[i + 1..];
    assert forall k :: 0 <= k < |rest| ==> rest[k] == if k < i then pairs[k] else pairs[k + 1];
    forall q | q in pairs && q != pairs[i]
      ensures q in rest
    {
      var k :| 0 <= k < |pairs| && pairs[k] == q;
      assert k != i;
      if k < i {
        assert rest[k] == q;
      } else {
        assert rest[k - 1] == q;
      }
    }
    forall q | q in rest
      ensures q in pairs && q != pairs[i]
    {
      var k :| 0 <= k < |rest| && rest[k] == q;
      if k < i {
        assert pairs[k] == q;
      } else {
        assert pairs[k + 1] == q;
      }
    }
  }

  /** `create`: refuses an invalid or duplicate pair and changes nothing, otherwise appends the pair. */
  method Create(db: Database, campaignId: nat, sourceId: nat) returns (r: Outcome)
    requires db.Valid()
    modifies db
    ensures db.Valid()
    ensures r == CreateOutcome(old(db.campaigns), old(db.sources), old(db.campaignSources), campaignId, sourceId)
    ensures r.Created? ==> db.campaignSources == old(db.campaignSources) + [r.pair]
    ensures r.ValidationError? ==> db.campaignSources == old(db.campaignSources)
    ensures db.campaigns == old(db.campaigns) && db.sources == old(db.sources) && db.queue == old(db.queue)
    ensures db.crawlJobs == old(db.crawlJobs) && db.articles == old(db.articles)
    ensures db.nextJobId == old(db.nextJobId) && db.nextArticleId == old(db.nextArticleId)
  {
    if FindCampaign(db.campaigns, campaignId).None? {
      return ValidationError("campaign_id", InvalidMessage("campaign id"));
    }
    if FindSource(db.sources, sourceId).None? {
      return ValidationError("source_id", InvalidMessage("source id"));
    }
    var existing := FindPair(db.campaignSources, Pair(campaignId, sourceId));
    if existing.Some? {
      return ValidationError("source_id", DuplicateMessage);
    }
    db.InsertPair(Pair(campaignId, sourceId));
    r := Created(Pair(campaignId, sourceId));
  }

  /** `attachSourceToCampaign` (lines 61-67): exactly `create` on the two ids. */
  method Attach(db: Database, campaignId: nat, sourceId: nat) returns (r: Outcome)
    requires db.Valid()
    modifies db
    ensures db.Valid()
    ensures r == CreateOutcome(old(db.campaigns), old(db.sources), old(db.campaignSources), campaignId, sourceId)
    ensures r.Created? ==> db.campaignSources == old(db.campaignSources) + [r.pair]
    ensures r.ValidationError? ==> db.campaignSources == old(db.campaignSources)
    ensures db.campaigns == old(db.campaigns) && db.sources == old(db.sources) && db.queue == old(db.queue)
    ensures db.crawlJobs == old(db.crawlJobs) && db.articles == old(db.articles)
    ensures db.nextJobId == old(db.nextJobId) && db.nextArticleId == old(db.nextArticleId)
  {
    r := Create(db, campaignId, sourceId);
  }

  /**
   * `detachSourceFromCampaign` (lines 69-76): false and no change when the
   * pair is absent, otherwise true with the row holding it removed.
   */
  method Detach(db: Database, campaignId: nat, sourceId: nat) returns (removed: bool)
    requires db.Valid()
    modifies db
    ensures db.Valid()
    ensures removed <==> Pair(campaignId, sourceId) in old(db.campaignSources)
    ensures !removed ==> db.campaignSources == old(db.campaignSources)
    ensures removed ==>
      var i := FindPair(old(db.campaignSources), Pair(campaignId, sourceId)).value;
      db.campaignSources == old(db.campaignSources)[..i] + old(db.campaignSources)[i + 1..]
    ensures db.campaigns == old(db.campaigns) && db.sources == old(db.sources) && db.queue == old(db.queue)
    ensures db.crawlJobs == old(db.crawlJobs) && db.articles == old(db.articles)
    ensures db.nextJobId == old(db.nextJobId) && db.nextArticleId == old(db.nextArticleId)
  {
    var campaignSource := FindPair(db.campaignSources, Pair(campaignId, sourceId));
    if campaignSource.None? {
      return false;
    }
    db.DeletePairAt(campaignSource.value);
    removed := true;
  }

  /**
   * On a unique table, detaching removes exactly the one pair and nothing
   * else, and the table stays unique; detaching again then finds nothing.
   */
  lemma DetachFacts(pairs: seq<Pair>, p: Pair)
    requires Unique(pairs) && p in pairs
    ensures var rest := pairs[..FindPair(pairs, p).value] + pairs[FindPair(pairs, p).value + 1..];
      && Unique(rest)
      && (forall q :: q in rest <==> q in pairs && q != p)
      && FindPair(rest, p).None?
  {
    RemoveAtFacts(pairs, FindPair(pairs, p).value);
  }
}
