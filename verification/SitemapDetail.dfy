/**
 * The sitemap-enumeration connectors (app/connectors/sitemap_detail.py,
 * app/connectors/sitemap.py): one live fetch per URL, resumed from a persisted cursor.
 */
module SitemapDetail {
  import opened Options
  import opened Offers
  import opened IngestionRunner
  import opened IngestionGuarantees
  import DeadLetters

  /** What fetching and parsing one URL came to. */
  datatype Attempt = Parsed(raw: Raw) | Blocked(status: int) | Skipped

  /** The attempts of one run, by position in the URL list. */
  type Site = nat -> Attempt

  /** `resolve_sitemap_cursor`: the stored cursor, or 0 when absent or out of range. */
  function ResolveCursor(stored: Option<int>, count: nat): (c: nat)
    ensures count > 0 ==> c < count
    ensures stored.Some? && 0 <= stored.value < count ==> c == stored.value
    ensures !(stored.Some? && 0 <= stored.value < count) ==> c == 0
  {
    var c := GetOr(stored, 0);
    if 0 <= c < count then c else 0
  }

  /** `next_sitemap_cursor`: wrap to 0 after the end. */
  function NextStored(finalCursor: Option<int>): int {
    GetOr(finalCursor, 0)
  }

  function ParsedIn(site: Site, lo: nat, hi: nat): seq<Raw>
    decreases hi - lo
  {
    if lo >= hi then []
    else if site(lo).Parsed? then [site(lo).raw] + ParsedIn(site, lo + 1, hi)
    else ParsedIn(site, lo + 1, hi)
  }

  function BlockedIn(urls: seq<string>, site: Site, lo: nat, hi: nat): seq<(string, int)>
    requires hi <= |urls|
    decreases hi - lo
  {
    if lo >= hi then []
    else if site(lo).Blocked? then [(urls[lo], site(lo).status)] + BlockedIn(urls, site, lo + 1, hi)
    else BlockedIn(urls, site, lo + 1, hi)
  }

  function Min(a: nat, b: nat): nat { if a <= b then a else b }

  /** The page the inner `fetch_page` returns at a cursor. */
  function PageAt(count: nat, site: Site, pageSize: nat, cursor: Cursor): Page {
    if cursor < 0 || pageSize == 0 || cursor >= count then Fetched([], None)
    else Fetched(ParsedIn(site, cursor, Min(cursor + pageSize, count)),
                 if cursor + pageSize < count then Some(cursor + pageSize) else None)
  }

  function FeedOf(count: nat, site: Site, pageSize: nat): Feed {
    (c: Cursor) => PageAt(count, site, pageSize, c)
  }

  /** The blocked URLs of the pages at the given cursors. */
  function BlockedOn(urls: seq<string>, site: Site, pageSize: nat, walked: seq<Cursor>): seq<(string, int)> {
    if walked == [] then []
    else BlockedOnPage(urls, site, pageSize, walked[0]) + BlockedOn(urls, site, pageSize, walked[1..])
  }

  function BlockedOnPage(urls: seq<string>, site: Site, pageSize: nat, cursor: Cursor): seq<(string, int)> {
    if cursor < 0 || pageSize == 0 || cursor >= |urls| then []
    else BlockedIn(urls, site, cursor, Min(cursor + pageSize, |urls|))
  }

  /** `last_cursor` when the run ends. */
  function FinalCursor(feed: Feed, walked: seq<Cursor>, initial: Cursor): Option<int> {
    if walked == [] then Some(initial)
    else if feed(walked[|walked| - 1]).Fetched? then feed(walked[|walked| - 1]).next
    else None
  }

  function BlockedWrite(cfg: Config, b: (string, int)): DeadLetters.Write {
    DeadLetters.Write(DeadLetters.DetailUrlKey(cfg.sourceId, b.0), DeadLetters.DetailFetchBlocked, cfg.now,
                      DeadLetters.Fields("detail fetch blocked", Some(Some(b.1)), Some(Some(b.0))))
  }

  function BlockedWrites(cfg: Config, bs: seq<(string, int)>): seq<DeadLetters.Write> {
    seq(|bs|, i requires 0 <= i < |bs| => BlockedWrite(cfg, bs[i]))
  }

  lemma {:induction false} BlockedOnSnoc(urls: seq<string>, site: Site, pageSize: nat, walked: seq<Cursor>, c: Cursor)
    ensures BlockedOn(urls, site, pageSize, walked + [c])
         == BlockedOn(urls, site, pageSize, walked) + BlockedOnPage(urls, site, pageSize, c)
  {
    if walked == [] {
      assert BlockedOn(urls, site, pageSize, [c])
          == BlockedOnPage(urls, site, pageSize, c) + BlockedOn(urls, site, pageSize, []);
    } else {
      assert (walked + [c])[1..] == walked[1..] + [c];
      BlockedOnSnoc(urls, site, pageSize, walked[1..], c);
    }
  }

  lemma {:induction false} ParsedInSplit(site: Site, lo: nat, mid: nat, hi: nat)
    requires lo <= mid <= hi
    ensures ParsedIn(site, lo, hi) == ParsedIn(site, lo, mid) + ParsedIn(site, mid, hi)
    decreases mid - lo
  {
    if lo < mid { ParsedInSplit(site, lo + 1, mid, hi); }
  }

  lemma {:induction false} BlockedInSplit(urls: seq<string>, site: Site, lo: nat, mid: nat, hi: nat)
    requires lo <= mid <= hi <= |urls|
    ensures BlockedIn(urls, site, lo, hi) == BlockedIn(urls, site, lo, mid) + BlockedIn(urls, site, mid, hi)
    decreases mid - lo
  {
    if lo < mid { BlockedInSplit(urls, site, lo + 1, mid, hi); }
  }

  /** The variables `_run_over_urls` shares with its inner `fetch_page`. */
  class UrlWalk {
    const urls: seq<string>
    const site: Site
    const pageSize: nat
    var lastCursor: Option<int>
    var blocked: seq<(string, int)>

    constructor (urls: seq<string>, site: Site, pageSize: nat, initialCursor: nat)
      ensures this.urls == urls && this.site == site && this.pageSize == pageSize
      ensures lastCursor == Some(initialCursor) && blocked == []
    {
      this.urls, this.site, this.pageSize := urls, site, pageSize;
      lastCursor, blocked := Some(initialCursor), [];
    }

    method FetchPage(cursor: nat) returns (page: Page)
      modifies this
      ensures page == PageAt(|urls|, site, pageSize, cursor)
      ensures lastCursor == page.next
      ensures blocked == old(blocked) + BlockedOnPage(urls, site, pageSize, cursor)
    {
      var hi := Min(cursor + pageSize, |urls|);
      if cursor >= hi {
        lastCursor := None;
        return Fetched([], None);
      }
      var offers: seq<Raw> := [];
      var i := cursor;
      while i < hi
        invariant cursor <= i <= hi
        invariant offers == ParsedIn(site, cursor, i)
        invariant blocked == old(blocked) + BlockedIn(urls, site, cursor, i)
      {
        ParsedInSplit(site, cursor, i, i + 1);
        BlockedInSplit(urls, site, cursor, i, i + 1);
        match site(i) {
          case Blocked(status) => blocked := blocked + [(urls[i], status)];
          case Skipped =>
          case Parsed(raw) => offers := offers + [raw];
        }
        i := i + 1;
      }
      lastCursor := if cursor + pageSize < |urls| then Some(cursor + pageSize) else None;
      return Fetched(offers, lastCursor);
    }
  }

  /** A source row's persisted cursor and the run that moves it. */
  class SitemapConnector {
    var sitemapCursor: Option<int>

    constructor (stored: Option<int>)
      ensures sitemapCursor == stored
    {
      sitemapCursor := stored;
    }

    /** The run itself, with the inner `fetch_page` as its page source. */
    static method WalkPages(run: IngestionRun, walk: UrlWalk, initialCursor: nat) returns (result: Result)
      requires run.walked == [] && walk.blocked == [] && walk.lastCursor == Some(initialCursor)
      modifies walk, run, run.table
      ensures var feed := FeedOf(|walk.urls|, walk.site, walk.pageSize);
              var (end, stop) := Run(run.env, run.cfg, feed, old(run.State()), initialCursor);
              && run.State() == end
              && result == ResultOf(end, stop)
              && walk.blocked == BlockedOn(walk.urls, walk.site, walk.pageSize, end.walked)
              && walk.lastCursor == FinalCursor(feed, end.walked, initialCursor)
    {
      ghost var start := run.State();
      ghost var feed := FeedOf(|walk.urls|, walk.site, walk.pageSize);
      var cursor: nat := initialCursor;
      while |run.walked| < run.cfg.maxPages
        invariant Run(run.env, run.cfg, feed, run.State(), cursor) == Run(run.env, run.cfg, feed, start, initialCursor)
        invariant walk.blocked == BlockedOn(walk.urls, walk.site, walk.pageSize, run.walked)
        invariant walk.lastCursor == FinalCursor(feed, run.walked, initialCursor)
        decreases run.cfg.maxPages - |run.walked|
      {
        RunStep(run.env, run.cfg, feed, run.State(), cursor);
        SitemapPageWalked(run.env, run.cfg, run.State(), cursor, feed, |walk.urls|, walk.site, walk.pageSize);
        BlockedOnSnoc(walk.urls, walk.site, walk.pageSize, run.walked, cursor);
        var page := walk.FetchPage(cursor);
        var stop := run.Step(cursor, page);
        if stop.Some? { return Result(true, run.fetched, run.created, None); }
        cursor := page.next.value;
      }
      return Result(true, run.fetched, run.created, None);
    }

    /** The blocked URLs become open dead letters once the run is over. */
    static method RecordBlocked(run: IngestionRun, blocked: seq<(string, int)>)
      modifies run
      ensures run.State() == old(run.State()).(failures :=
                DeadLetters.RecordAll(old(run.failures), BlockedWrites(run.cfg, blocked)))
    {
      ghost var writes := BlockedWrites(run.cfg, blocked);
      var i := 0;
      while i < |blocked|
        invariant 0 <= i <= |blocked|
        invariant DeadLetters.RecordAll(run.failures, writes[i..]) == DeadLetters.RecordAll(old(run.failures), writes)
        invariant run.State() == old(run.State()).(failures := run.failures)
      {
        assert writes[i..][1..] == writes[i + 1..];
        run.failures := DeadLetters.RecordFailure(run.failures, BlockedWrite(run.cfg, blocked[i]));
        i := i + 1;
      }
    }

    /** `_run_over_urls`. */
    method RunOverUrls(run: IngestionRun, urls: seq<string>, site: Site, pageSize: nat, persistCursor: bool)
      returns (result: Result)
      requires run.walked == [] && !run.cfg.sortedByRecency
      modifies this, run, run.table
      ensures var feed := FeedOf(|urls|, site, pageSize);
              var c := ResolveCursor(old(sitemapCursor), |urls|);
              var (end, stop) := Run(run.env, run.cfg, feed, old(run.State()), c);
              && result == ResultOf(end, stop)
              && run.State() == end.(failures :=
                   DeadLetters.RecordAll(end.failures,
                     BlockedWrites(run.cfg, BlockedOn(urls, site, pageSize, end.walked))))
              && sitemapCursor == (if persistCursor then Some(NextStored(FinalCursor(feed, end.walked, c)))
                                   else old(sitemapCursor))
    {
      var initialCursor := ResolveCursor(sitemapCursor, |urls|);
      var walk := new UrlWalk(urls, site, pageSize, initialCursor);
      result := WalkPages(run, walk, initialCursor);
      RecordBlocked(run, walk.blocked);
      if persistCursor { sitemapCursor := Some(NextStored(walk.lastCursor)); }
    }
  }

  /** A sitemap page never fails, so each iteration walks it and never stops on the first page's failure. */
  lemma SitemapPageWalked(env: Env, cfg: Config, st: RunState, cursor: Cursor, feed: Feed,
                          count: nat, site: Site, pageSize: nat)
    requires feed == FeedOf(count, site, pageSize)
    ensures feed(cursor).Fetched?
    ensures var (st', stop) := Iterate(env, cfg, st, cursor, feed(cursor));
            && st'.walked == st.walked + [cursor]
            && (stop.Some? ==> !stop.value.FirstPageFailed?)
  {
    PageExtends(env, cfg, st, cursor, feed(cursor));
  }
}
