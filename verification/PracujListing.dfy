/**
 * The Pracuj.pl connector (app/connectors/pracuj.py): enumerate search-listing pages, fetch
 * each offer's detail page up to a total cap, then ingest what was collected.
 */
module PracujListing {
  import opened Options
  import opened Sequences
  import opened Offers
  import opened IngestionRunner
  import opened SitemapDetail
  import DeadLetters

  /** One fetched listing page: the candidate URLs of each of its groups (none for a malformed
      group), or a failed fetch. */
  datatype Listing = Groups(groups: seq<seq<string>>) | ListingFailed(blockedStatus: Option<int>)

  datatype Detail = Record(raw: Raw) | DetailBlocked(status: int) | NoRecord

  /** What the site answers during one run: listing pages, and detail fetches by page and position. */
  datatype Board = Board(listing: nat -> Listing, detail: (nat, nat) -> Detail)

  /** What has been gathered so far; `upTo` is the first listing page not consumed. */
  datatype Gathered = Gathered(records: seq<Raw>, blocked: seq<(string, int)>, upTo: nat)

  /** The return value of `_collect_offers`, together with its out-parameter `blocked`. */
  datatype Collection = Collection(
    got: Gathered, ok: bool, midRunFailure: bool, nextPage: nat, blockedStatus: Option<int>)

  /** `_fetch_offer_details` from the i-th candidate on. */
  function FetchDetails(urls: seq<string>, board: Board, page: nat, i: nat, cap: nat, got: Gathered): Gathered
    decreases |urls| - i
  {
    if i >= |urls| || |got.records| >= cap then got
    else
      match board.detail(page, i)
      case Record(raw) => FetchDetails(urls, board, page, i + 1, cap, got.(records := got.records + [raw]))
      case DetailBlocked(status) =>
        FetchDetails(urls, board, page, i + 1, cap, got.(blocked := got.blocked + [(urls[i], status)]))
      case NoRecord => FetchDetails(urls, board, page, i + 1, cap, got)
  }

  /** `_collect_offers` from listing page `page` on. */
  function Collect(board: Board, pageSize: nat, maxPages: nat, start: nat, page: nat, got: Gathered): Collection
    decreases start + maxPages - page
  {
    var cap := pageSize * maxPages;
    if page >= start + maxPages || |got.records| >= cap then Collection(got, true, false, got.upTo, None)
    else
      match board.listing(page)
      case ListingFailed(status) =>
        if page == start then Collection(got.(records := []), false, false, start, status)
        else Collection(got, true, true, page, status)
      case Groups(groups) =>
        if groups == [] then Collection(got, true, false, 1, None)
        else
          var got' := FetchDetails(Flatten(groups), board, page, 0, cap, got).(upTo := page + 1);
          if |groups| < pageSize then Collection(got', true, false, 1, None)
          else Collect(board, pageSize, maxPages, start, page + 1, got')
  }

  function CollectFrom(board: Board, pageSize: nat, maxPages: nat, start: nat): Collection {
    Collect(board, pageSize, maxPages, start, start, Gathered([], [], start))
  }

  /** The inner `fetch_page` over the collected records. */
  function ChunkAt(records: seq<Raw>, pageSize: nat, cursor: Cursor): Page {
    if cursor < 0 || cursor > |records| then Fetched([], None)
    else Fetched(records[cursor..Min(cursor + pageSize, |records|)],
                 if cursor + pageSize < |records| then Some(cursor + pageSize) else None)
  }

  function ChunkFeed(records: seq<Raw>, pageSize: nat): Feed {
    (c: Cursor) => ChunkAt(records, pageSize, c)
  }

  /** The persisted `listing_page_cursor`, read back as a start page. */
  function StartPage(stored: Option<int>): (p: nat)
    ensures p >= 1
    ensures p == 1 || stored == Some(p)
    ensures stored.Some? && stored.value >= 1 ==> p == stored.value
  {
    if stored.Some? && stored.value >= 1 then stored.value else 1
  }

  /** Recorded when a later listing page failed. */
  function MidRunWrite(cfg: Config, status: Option<int>): DeadLetters.Write {
    DeadLetters.Write(DeadLetters.SourceKey(cfg.sourceId), DeadLetters.PageFetchFailed, cfg.now,
                      DeadLetters.Fields("failed to fetch page mid-run", Some(status), None))
  }

  /** The listing pages a run may fetch: a negative budget allows none. */
  function ListingPages(cfg: Config): nat {
    if cfg.maxPages > 0 then cfg.maxPages else 0
  }

  /** What one unfiltered run leaves: the ingestion state, its result, and the stored cursor. */
  ghost function RunOnce(env: Env, cfg: Config, board: Board, pageSize: nat, stored: Option<int>, start: RunState)
    : (RunState, Result, Option<int>)
  {
    var c := CollectFrom(board, pageSize, ListingPages(cfg), StartPage(stored));
    if !c.ok then (start, Result(false, 0, 0, c.blockedStatus), stored)
    else
      var entered := if c.midRunFailure
                     then start.(failures := DeadLetters.RecordFailure(start.failures, MidRunWrite(cfg, c.blockedStatus)))
                     else start;
      var (end, stop) := Run(env, cfg, ChunkFeed(c.got.records, pageSize), entered, 0);
      (end.(failures := DeadLetters.RecordAll(end.failures, BlockedWrites(cfg, c.got.blocked))),
       ResultOf(end, stop), Some(c.nextPage))
  }

  class PracujConnector {
    var listingPageCursor: Option<int>

    constructor (stored: Option<int>)
      ensures listingPageCursor == stored
    {
      listingPageCursor := stored;
    }

    static method FetchOfferDetails(urls: seq<string>, board: Board, page: nat, cap: nat, got: Gathered)
      returns (got': Gathered)
      ensures got' == FetchDetails(urls, board, page, 0, cap, got)
    {
      got' := got;
      for i := 0 to |urls|
        invariant FetchDetails(urls, board, page, i, cap, got') == FetchDetails(urls, board, page, 0, cap, got)
      {
        if |got'.records| >= cap { return; }
        match board.detail(page, i) {
          case Record(raw) => got' := got'.(records := got'.records + [raw]);
          case DetailBlocked(status) => got' := got'.(blocked := got'.blocked + [(urls[i], status)]);
          case NoRecord =>
        }
      }
    }

    static method CandidateUrls(groups: seq<seq<string>>) returns (urls: seq<string>)
      ensures urls == Flatten(groups)
    {
      urls := [];
      for i := 0 to |groups|
        invariant urls == Flatten(groups[..i])
      {
        FlattenSnoc(groups[..i], groups[i]);
        assert groups[..i + 1] == groups[..i] + [groups[i]];
        urls := urls + groups[i];
      }
      assert groups[..|groups|] == groups;
    }

    static method CollectOffers(board: Board, pageSize: nat, maxPages: nat, start: nat) returns (c: Collection)
      ensures c == CollectFrom(board, pageSize, maxPages, start)
    {
      var cap := pageSize * maxPages;
      var got := Gathered([], [], start);
      var page := start;
      while page < start + maxPages
        invariant start <= page <= start + maxPages
        invariant Collect(board, pageSize, maxPages, start, page, got) == CollectFrom(board, pageSize, maxPages, start)
      {
        if |got.records| >= cap { break; }
        var listing := board.listing(page);
        if listing.ListingFailed? {
          if page == start { return Collection(got.(records := []), false, false, start, listing.blockedStatus); }
          return Collection(got, true, true, page, listing.blockedStatus);
        }
        if |listing.groups| == 0 { return Collection(got, true, false, 1, None); }
        var urls := CandidateUrls(listing.groups);
        got := FetchOfferDetails(urls, board, page, cap, got);
        got := got.(upTo := page + 1);
        if |listing.groups| < pageSize { return Collection(got, true, false, 1, None); }
        page := page + 1;
      }
      return Collection(got, true, false, got.upTo, None);
    }

    /** `run` with an unfiltered fetch scope. */
    method RunUnfiltered(run: IngestionRun, board: Board, pageSize: nat) returns (result: Result)
      requires run.walked == [] && !run.cfg.sortedByRecency
      modifies this, run, run.table
      ensures (run.State(), result, listingPageCursor)
           == RunOnce(run.env, run.cfg, board, pageSize, old(listingPageCursor), old(run.State()))
    {
      var c := CollectOffers(board, pageSize, ListingPages(run.cfg), StartPage(listingPageCursor));
      if !c.ok { return Result(false, 0, 0, c.blockedStatus); }
      if c.midRunFailure {
        run.failures := DeadLetters.RecordFailure(run.failures, MidRunWrite(run.cfg, c.blockedStatus));
      }
      result := run.RunPaginated(ChunkFeed(c.got.records, pageSize), 0);
      SitemapConnector.RecordBlocked(run, c.got.blocked);
      listingPageCursor := Some(c.nextPage);
    }
  }
}
