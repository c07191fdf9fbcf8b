/** Pracuj.pl: what becomes of every offer a whole unfiltered run fetches. */
module PracujOutcomes {
  import opened Options
  import opened Offers
  import opened IngestionRunner
  import opened IngestionGuarantees
  import opened IngestionRows
  import opened SitemapDetail
  import opened BlockedLetters
  import opened PracujListing
  import opened PracujCoverage
  import opened DeadLetters
  import opened DeadLetterRows

  // ---------------------------------------------------------------- blocked candidates

  lemma {:induction false} BlocksMembers(ds: seq<(string, Detail)>, b: (string, int))
    ensures b in Blocks(ds) <==> exists k :: 0 <= k < |ds| && ds[k] == (b.0, DetailBlocked(b.1))
  {
    if ds != [] {
      BlocksMembers(ds[1..], b);
      assert b in BlockOf(ds[0].0, ds[0].1) <==> ds[0] == (b.0, DetailBlocked(b.1));
      assert forall k :: 0 < k < |ds| ==> ds[k] == ds[1..][k - 1];
    }
  }

  lemma {:induction false} RecordsMembers(ds: seq<(string, Detail)>, raw: Raw)
    ensures raw in Records(ds) <==> exists k :: 0 <= k < |ds| && ds[k].1 == Record(raw)
  {
    if ds != [] {
      RecordsMembers(ds[1..], raw);
      assert raw in RecordOf(ds[0].1) <==> ds[0].1 == Record(raw);
      assert forall k :: 0 < k < |ds| ==> ds[k] == ds[1..][k - 1];
    }
  }

  /** No later candidate with the same URL is blocked. */
  predicate LastBlockOf(ds: seq<(string, Detail)>, k: nat)
    requires k < |ds|
  {
    ds[k].1.DetailBlocked? && forall m :: k < m < |ds| && ds[m].0 == ds[k].0 ==> !ds[m].1.DetailBlocked?
  }

  lemma LastBlockPosition(ds: seq<(string, Detail)>, k: nat) returns (i: nat)
    requires k < |ds| && LastBlockOf(ds, k)
    ensures var bs := Blocks(ds);
            i < |bs| && bs[i] == (ds[k].0, ds[k].1.status) && forall j :: i < j < |bs| ==> bs[j].0 != ds[k].0
  {
    var later := ds[k + 1..];
    assert ds == ds[..k] + ds[k..];
    RecordsAppend(ds[..k], ds[k..]);
    assert ds[k..][1..] == later;
    assert Blocks(ds[k..]) == [(ds[k].0, ds[k].1.status)] + Blocks(later);
    i := |Blocks(ds[..k])|;
    forall j | i < j < |Blocks(ds)|
      ensures Blocks(ds)[j].0 != ds[k].0
    {
      var b := Blocks(ds)[j];
      assert b == Blocks(later)[j - i - 1];
      BlocksMembers(later, b);
      var m :| 0 <= m < |later| && later[m] == (b.0, DetailBlocked(b.1));
      assert ds[k + 1 + m] == later[m];
    }
  }

  /** What the run makes of a fetched candidate: a collected record, an open dead letter of its own with
      the status of the URL's last block, or nothing. */
  ghost predicate Fate(cfg: Config, ds: seq<(string, Detail)>, k: nat, records: seq<Raw>, before: Table, after: Table)
    requires k < |ds|
  {
    match ds[k].1
    case Record(raw) => raw in records
    case DetailBlocked(status) =>
      && AwaitsRetry(cfg, ds[k].0, before, after)
      && (LastBlockOf(ds, k) ==> after[DetailUrlKey(cfg.sourceId, ds[k].0)].blockedStatus == Some(status))
    case NoRecord => true
  }

  lemma FateOf(cfg: Config, ds: seq<(string, Detail)>, k: nat, before: Table, between: Table)
    requires k < |ds| && SameRow(before, between, DetailUrlKey(cfg.sourceId, ds[k].0))
    ensures Fate(cfg, ds, k, Records(ds), before, RecordAll(between, BlockedWrites(cfg, Blocks(ds))))
  {
    match ds[k].1
    case Record(raw) => RecordsMembers(ds, raw);
    case DetailBlocked(status) =>
      BlocksMembers(ds, (ds[k].0, status));
      BlockedUrlAwaits(cfg, Blocks(ds), ds[k].0, between);
      if LastBlockOf(ds, k) {
        var i := LastBlockPosition(ds, k);
        LastBlockDecides(cfg, Blocks(ds), i, between);
      }
    case NoRecord =>
  }

  function Nothings(ds: seq<(string, Detail)>): nat {
    if ds == [] then 0 else (if ds[0].1.NoRecord? then 1 else 0) + Nothings(ds[1..])
  }

  lemma {:induction false} OutcomesAddUp(ds: seq<(string, Detail)>)
    ensures |Records(ds)| + |Blocks(ds)| + Nothings(ds) == |ds|
  {
    if ds != [] { OutcomesAddUp(ds[1..]); }
  }

  // ---------------------------------------------------------------- the ingestion of what was collected

  lemma ChunksRead(env: Env, cfg: Config, records: seq<Raw>, pageSize: nat, offers: seq<Row>, failures: Table)
    ensures var feed := ChunkFeed(records, pageSize);
            var end := Run(env, cfg, feed, Start(offers, failures), 0).0;
            end.fetched <= |records| && ItemsOf(feed, end.walked) == records[..end.fetched]
  {
    var feed := ChunkFeed(records, pageSize);
    var end := Run(env, cfg, feed, Start(offers, failures), 0).0;
    RunAccounts(env, cfg, feed, offers, failures, 0);
    if end.walked != [] {
      ChunksInOrder(records, pageSize, end.walked);
      var n := Min(end.walked[|end.walked| - 1] + pageSize, |records|);
      assert |records[..n]| == n;
    }
  }

  /** Ingesting collected records touches the dead letters of rejected ones only. */
  lemma ChunkLetters(env: Env, cfg: Config, records: seq<Raw>, pageSize: nat, offers: seq<Row>, failures: Table)
    ensures var end := Run(env, cfg, ChunkFeed(records, pageSize), Start(offers, failures), 0).0;
            forall key :: !OfRejected(env, cfg, records, key) ==> SameRow(failures, end.failures, key)
  {
    var feed := ChunkFeed(records, pageSize);
    var end := Run(env, cfg, feed, Start(offers, failures), 0).0;
    RunDeadLetters(env, cfg, feed, offers, failures, 0);
    ChunksRead(env, cfg, records, pageSize, offers, failures);
    forall key | !OfRejected(env, cfg, records, key)
      ensures SameRow(failures, end.failures, key)
    {
      assert forall raw :: raw in records[..end.fetched] ==> raw in records;
      assert !OfRejected(env, cfg, ItemsOf(feed, end.walked), key);
    }
  }

  /** Recording blocked URLs afterwards undoes nothing that ingestion has accounted for. */
  lemma StaysAccounted(env: Env, cfg: Config, bs: seq<(string, int)>, st: RunState, raw: Raw)
    requires Accounted(env, cfg, st, raw)
    ensures Accounted(env, cfg, st.(failures := RecordAll(st.failures, BlockedWrites(cfg, bs))), raw)
  {
    if env.validate(env.mapOffer(raw)).Invalid? {
      UnblockedRow(cfg, bs, ValidationKey(env.validate(env.mapOffer(raw)).resource), st.failures);
    }
  }

  // ---------------------------------------------------------------- the whole run

  /** The candidates a run fetches, with their outcomes: those of the listing pages it consumes, up to the cap. */
  function FetchedBy(board: Board, pageSize: nat, maxPages: nat, start: nat): seq<(string, Detail)> {
    var ds := OutcomesOfPages(board, start, CollectFrom(board, pageSize, maxPages, start).got.upTo);
    ds[..Reach(ds, pageSize * maxPages)]
  }

  /** The key is that of a fetched candidate that is blocked. */
  ghost predicate OfBlockedCandidate(cfg: Config, ds: seq<(string, Detail)>, key: DedupKey) {
    exists k :: 0 <= k < |ds| && ds[k].1.DetailBlocked? && key == DetailUrlKey(cfg.sourceId, ds[k].0)
  }

  /** The dead letter table a run starts ingestion from. */
  function Entered(cfg: Config, c: Collection, failures: Table): Table {
    if c.midRunFailure then RecordFailure(failures, MidRunWrite(cfg, c.blockedStatus)) else failures
  }

  /** Every candidate has its fate. */
  ghost predicate Classified(cfg: Config, ds: seq<(string, Detail)>, records: seq<Raw>, before: Table, after: Table) {
    forall k :: 0 <= k < |ds| ==> Fate(cfg, ds, k, records, before, after)
  }

  /** No row changes but those of blocked candidates, of rejected records, and the source's own if a
      later listing page failed. */
  ghost predicate OthersKept(env: Env, cfg: Config, ds: seq<(string, Detail)>, records: seq<Raw>, midRun: bool,
                             before: Table, after: Table) {
    forall key :: !OfBlockedCandidate(cfg, ds, key) && !OfRejected(env, cfg, records, key) ==>
      (key == SourceKey(cfg.sourceId) && midRun) || SameRow(before, after, key)
  }

  lemma BlocksClassified(env: Env, cfg: Config, ds: seq<(string, Detail)>, midRun: bool, before: Table, between: Table)
    requires OthersKept(env, cfg, [], Records(ds), midRun, before, between)
    ensures var after := RecordAll(between, BlockedWrites(cfg, Blocks(ds)));
            Classified(cfg, ds, Records(ds), before, after) && OthersKept(env, cfg, ds, Records(ds), midRun, before, after)
  {
    var after := RecordAll(between, BlockedWrites(cfg, Blocks(ds)));
    forall k | 0 <= k < |ds|
      ensures Fate(cfg, ds, k, Records(ds), before, after)
    {
      var key := DetailUrlKey(cfg.sourceId, ds[k].0);
      assert !OfBlockedCandidate(cfg, [], key) && !OfRejected(env, cfg, Records(ds), key);
      FateOf(cfg, ds, k, before, between);
    }
    forall key | !OfBlockedCandidate(cfg, ds, key) && !OfRejected(env, cfg, Records(ds), key)
      ensures (key == SourceKey(cfg.sourceId) && midRun) || SameRow(before, after, key)
    {
      assert !OfBlockedCandidate(cfg, [], key);
      forall b | b in Blocks(ds)
        ensures key != DetailUrlKey(cfg.sourceId, b.0)
      {
        BlocksMembers(ds, b);
      }
      UnblockedRow(cfg, Blocks(ds), key, between);
    }
  }

  /** Up to the recording of the blocks: the mid-run failure and the rejected records. */
  lemma IngestLetters(env: Env, cfg: Config, c: Collection, pageSize: nat, offers: seq<Row>, failures: Table)
    ensures var end := Run(env, cfg, ChunkFeed(c.got.records, pageSize), Start(offers, Entered(cfg, c, failures)), 0).0;
            && OthersKept(env, cfg, [], c.got.records, c.midRunFailure, failures, end.failures)
            && (c.midRunFailure ==> PageLetter(cfg, c.blockedStatus, failures, end.failures))
  {
    var entered := Entered(cfg, c, failures);
    ChunkLetters(env, cfg, c.got.records, pageSize, offers, entered);
    var between := Run(env, cfg, ChunkFeed(c.got.records, pageSize), Start(offers, entered), 0).0.failures;
    assert !OfRejected(env, cfg, c.got.records, SourceKey(cfg.sourceId));
    assert SameRow(entered, between, SourceKey(cfg.sourceId));
  }

  /** The ingestion of the collected records, apart from dead letters. */
  lemma IngestReports(env: Env, cfg: Config, board: Board, pageSize: nat, start: nat, offers: seq<Row>, failures: Table)
    ensures var records := CollectFrom(board, pageSize, ListingPages(cfg), start).got.records;
            var (end, stop) := Run(env, cfg, ChunkFeed(records, pageSize), Start(offers, failures), 0);
            && end.fetched <= |records| && offers <= end.offers
            && (cfg.forceRefresh && !cfg.sortedByRecency ==> end.fetched == |records|)
            && (forall raw :: raw in records[..end.fetched] ==> Accounted(env, cfg, end, raw))
            && ResultOf(end, stop) == Result(true, end.fetched, |end.offers| - |offers|, None)
  {
    var records := CollectFrom(board, pageSize, ListingPages(cfg), start).got.records;
    ChunksRead(env, cfg, records, pageSize, offers, failures);
    RunAccounts(env, cfg, ChunkFeed(records, pageSize), offers, failures, 0);
    ChunkRunSucceeds(env, cfg, records, pageSize, Start(offers, failures));
    if cfg.forceRefresh && !cfg.sortedByRecency {
      ForcedRunHandsOverAll(env, cfg, board, pageSize, start, Start(offers, failures));
    }
  }

  /** Every candidate a run fetches is a collected record, or blocked with an open dead letter of its
      own, or yields nothing; every collected record that was read is accounted for, and all are read by
      a forced run; a later listing page that fails leaves the source's dead letter open with that
      page's status; and no other dead letter changes. */
  lemma FetchedOffersClassified(env: Env, cfg: Config, board: Board, pageSize: nat, stored: Option<int>,
                                offers: seq<Row>, failures: Table)
    requires CollectFrom(board, pageSize, ListingPages(cfg), StartPage(stored)).ok
    ensures var c := CollectFrom(board, pageSize, ListingPages(cfg), StartPage(stored));
            var ds := FetchedBy(board, pageSize, ListingPages(cfg), StartPage(stored));
            var (end, result, _) := RunOnce(env, cfg, board, pageSize, stored, Start(offers, failures));
            && c.got.records == Records(ds)
            && |Records(ds)| + |Blocks(ds)| + Nothings(ds) == |ds|
            && Classified(cfg, ds, c.got.records, failures, end.failures)
            && OthersKept(env, cfg, ds, c.got.records, c.midRunFailure, failures, end.failures)
            && (c.midRunFailure ==>
                  && board.listing(c.got.upTo).ListingFailed?
                  && PageLetter(cfg, board.listing(c.got.upTo).blockedStatus, failures, end.failures))
            && end.fetched <= |c.got.records| && offers <= end.offers
            && (cfg.forceRefresh && !cfg.sortedByRecency ==> end.fetched == |c.got.records|)
            && (forall raw :: raw in c.got.records[..end.fetched] ==> Accounted(env, cfg, end, raw))
            && result == Result(true, end.fetched, |end.offers| - |offers|, None)
  {
    var start := StartPage(stored);
    var c := CollectFrom(board, pageSize, ListingPages(cfg), start);
    var ds := FetchedBy(board, pageSize, ListingPages(cfg), start);
    var read := Run(env, cfg, ChunkFeed(c.got.records, pageSize), Start(offers, Entered(cfg, c, failures)), 0).0;
    BlocksUpToCap(board, pageSize, ListingPages(cfg), start);
    OutcomesAddUp(ds);
    CursorHasNoGap(board, pageSize, ListingPages(cfg), start, start, Gathered([], [], start));
    IngestLetters(env, cfg, c, pageSize, offers, failures);
    BlocksClassified(env, cfg, ds, c.midRunFailure, failures, read.failures);
    UnblockedRow(cfg, c.got.blocked, SourceKey(cfg.sourceId), read.failures);
    IngestReports(env, cfg, board, pageSize, start, offers, Entered(cfg, c, failures));
    forall raw | raw in c.got.records[..read.fetched]
      ensures Accounted(env, cfg, read.(failures := RecordAll(read.failures, BlockedWrites(cfg, c.got.blocked))), raw)
    {
      StaysAccounted(env, cfg, c.got.blocked, read, raw);
    }
  }

  /** When the first listing page cannot be fetched the run changes nothing and says why. */
  lemma FailedListingReported(env: Env, cfg: Config, board: Board, pageSize: nat, stored: Option<int>, start: RunState)
    requires !CollectFrom(board, pageSize, ListingPages(cfg), StartPage(stored)).ok
    ensures var page := board.listing(StartPage(stored));
            && page.ListingFailed?
            && RunOnce(env, cfg, board, pageSize, stored, start) == (start, Result(false, 0, 0, page.blockedStatus), stored)
  {
    var p := StartPage(stored);
    CursorHasNoGap(board, pageSize, ListingPages(cfg), p, p, Gathered([], [], p));
  }
}
