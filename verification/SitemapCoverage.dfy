/** Coverage of the sitemap over repeated runs, and what becomes of each visited URL. */
module SitemapCoverage {
  import opened Options
  import opened Sequences
  import opened Offers
  import opened IngestionRunner
  import opened IngestionGuarantees
  import opened IngestionRows
  import opened SitemapDetail
  import opened BlockedLetters
  import opened DeadLetters
  import opened DeadLetterRows

  /** Everything that may differ between two unfiltered runs over the same URL list: thresholds,
      range, clock, mapping, what each URL answers, and the tables it starts from. */
  datatype Visit = Visit(env: Env, cfg: Config, site: Site, offers: seq<Row>, failures: Table)

  ghost function Walked(v: Visit, count: nat, pageSize: nat, stored: Option<int>): seq<Cursor> {
    Run(v.env, v.cfg, FeedOf(count, v.site, pageSize), Start(v.offers, v.failures),
        ResolveCursor(stored, count)).0.walked
  }

  /** The cursor the run persists. */
  ghost function StoredAfter(v: Visit, count: nat, pageSize: nat, stored: Option<int>): Option<int> {
    Some(NextStored(FinalCursor(FeedOf(count, v.site, pageSize), Walked(v, count, pageSize, stored),
                                ResolveCursor(stored, count))))
  }

  /** The run fetches the URL at position `x`. */
  ghost predicate Attempts(v: Visit, count: nat, pageSize: nat, stored: Option<int>, x: nat) {
    Touches(Walked(v, count, pageSize, stored), pageSize, x)
  }

  ghost predicate Touches(walked: seq<Cursor>, pageSize: nat, x: nat) {
    exists i :: 0 <= i < |walked| && walked[i] <= x < walked[i] + pageSize
  }

  /** The pages are consecutive blocks of the list starting at `c`. */
  ghost predicate Consecutive(walked: seq<Cursor>, c: nat, pageSize: nat, count: nat) {
    && (walked != [] ==> walked[0] == c)
    && (forall i :: 0 <= i < |walked| - 1 ==> walked[i + 1] == walked[i] + pageSize < count)
  }

  lemma ChainIsConsecutive(count: nat, site: Site, pageSize: nat, walked: seq<Cursor>, c: nat)
    requires Chain(FeedOf(count, site, pageSize), walked)
    requires walked != [] ==> walked[0] == c
    ensures Consecutive(walked, c, pageSize, count)
  {
    var feed := FeedOf(count, site, pageSize);
    forall i | 0 <= i < |walked| - 1
      ensures walked[i + 1] == walked[i] + pageSize < count
    {
      assert feed(walked[i]).next == Some(walked[i + 1]);
    }
  }

  /** Consecutive pages leave no gap. */
  lemma {:induction false} ConsecutiveTouchesAll(walked: seq<Cursor>, c: nat, pageSize: nat, count: nat, x: nat)
    requires walked != [] && Consecutive(walked, c, pageSize, count)
    requires c <= x < walked[|walked| - 1] + pageSize
    ensures Touches(walked, pageSize, x)
    ensures walked[|walked| - 1] >= c
    decreases |walked|
  {
    var last := |walked| - 1;
    ConsecutiveRises(walked, c, pageSize, count);
    if walked[last] <= x {
      assert walked[last] <= x < walked[last] + pageSize;
    } else {
      var front := walked[..last];
      assert front[last - 1] == walked[last - 1];
      ConsecutiveTouchesAll(front, c, pageSize, count, x);
      var i :| 0 <= i < |front| && front[i] <= x < front[i] + pageSize;
      assert walked[i] == front[i];
    }
  }

  lemma {:induction false} ConsecutiveRises(walked: seq<Cursor>, c: nat, pageSize: nat, count: nat)
    requires walked != [] && Consecutive(walked, c, pageSize, count)
    ensures walked[|walked| - 1] >= c
    ensures c < count ==> walked[|walked| - 1] < count
    ensures forall i :: 0 <= i < |walked| ==> walked[i] <= walked[|walked| - 1]
    decreases |walked|
  {
    if |walked| > 1 {
      var front := walked[..|walked| - 1];
      assert front[|front| - 1] == walked[|walked| - 2];
      ConsecutiveRises(front, c, pageSize, count);
      forall i | 0 <= i < |walked|
        ensures walked[i] <= walked[|walked| - 1]
      {
        if i < |front| { assert walked[i] == front[i]; }
      }
    }
  }

  lemma WalksSomePage(v: Visit, count: nat, pageSize: nat, stored: Option<int>)
    requires v.cfg.maxPages >= 1
    ensures Walked(v, count, pageSize, stored) != []
  {
    var c := ResolveCursor(stored, count);
    var feed := FeedOf(count, v.site, pageSize);
    var st := Start(v.offers, v.failures);
    RunStep(v.env, v.cfg, feed, st, c);
    SitemapPageWalked(v.env, v.cfg, st, c, feed, count, v.site, pageSize);
    var (st1, stop) := Iterate(v.env, v.cfg, st, c, feed(c));
    if stop.None? { RunWalks(v.env, v.cfg, feed, st1, feed(c).next.value); }
  }

  lemma WalkShape(v: Visit, count: nat, pageSize: nat, stored: Option<int>)
    ensures Consecutive(Walked(v, count, pageSize, stored), ResolveCursor(stored, count), pageSize, count)
  {
    var c := ResolveCursor(stored, count);
    RunAccounts(v.env, v.cfg, FeedOf(count, v.site, pageSize), v.offers, v.failures, c);
    ChainIsConsecutive(count, v.site, pageSize, Walked(v, count, pageSize, stored), c);
  }

  /** One run visits a contiguous block of at least one page from the resolved cursor, whatever
      ends it: up to the cursor it persists, or to the end of the list, when it persists 0. */
  lemma OneRun(v: Visit, count: nat, pageSize: nat, stored: Option<int>)
    requires count > 0 && pageSize >= 1 && v.cfg.maxPages >= 1
    ensures var c := ResolveCursor(stored, count);
            var next := StoredAfter(v, count, pageSize, stored).value;
            && Walked(v, count, pageSize, stored) != []
            && Consecutive(Walked(v, count, pageSize, stored), c, pageSize, count)
            && (next == 0 || c + pageSize <= next < count)
            && forall x: nat :: c <= x < (if next == 0 then count else next) ==> Attempts(v, count, pageSize, stored, x)
  {
    var c := ResolveCursor(stored, count);
    var walked := Walked(v, count, pageSize, stored);
    WalksSomePage(v, count, pageSize, stored);
    WalkShape(v, count, pageSize, stored);
    ConsecutiveRises(walked, c, pageSize, count);
    var last := walked[|walked| - 1];
    var next := StoredAfter(v, count, pageSize, stored).value;
    assert next == (if last + pageSize < count then last + pageSize else 0);
    forall x: nat | c <= x < (if next == 0 then count else next)
      ensures Attempts(v, count, pageSize, stored, x)
    {
      ConsecutiveTouchesAll(walked, c, pageSize, count, x);
    }
  }

  /** Some run of the sequence fetches the URL at position `x`. */
  ghost predicate AttemptedBy(vs: seq<Visit>, count: nat, pageSize: nat, stored: Option<int>, x: nat)
    decreases |vs|
  {
    vs != [] &&
    (Attempts(vs[0], count, pageSize, stored, x) ||
     AttemptedBy(vs[1..], count, pageSize, StoredAfter(vs[0], count, pageSize, stored), x))
  }

  /** A position ahead of the cursor is reached before the list wraps. */
  lemma {:induction false} ReachAhead(vs: seq<Visit>, count: nat, pageSize: nat, stored: Option<int>, x: nat)
    requires pageSize >= 1 && forall v :: v in vs ==> v.cfg.maxPages >= 1
    requires ResolveCursor(stored, count) <= x < count
    requires |vs| >= Steps(x + 1 - ResolveCursor(stored, count), pageSize)
    ensures AttemptedBy(vs, count, pageSize, stored, x)
    decreases |vs|
  {
    var c := ResolveCursor(stored, count);
    OneRun(vs[0], count, pageSize, stored);
    if !Attempts(vs[0], count, pageSize, stored, x) {
      var next := StoredAfter(vs[0], count, pageSize, stored);
      StepsMonotone(x + 1 - next.value, x + 1 - c - pageSize, pageSize);
      ReachAhead(vs[1..], count, pageSize, next, x);
    }
  }

  /** A position behind the cursor is reached after at most one wrap. */
  lemma {:induction false} ReachBehind(vs: seq<Visit>, count: nat, pageSize: nat, stored: Option<int>, x: nat)
    requires pageSize >= 1 && forall v :: v in vs ==> v.cfg.maxPages >= 1
    requires x < ResolveCursor(stored, count)
    requires |vs| >= Steps(count - ResolveCursor(stored, count), pageSize) + Steps(x + 1, pageSize)
    ensures AttemptedBy(vs, count, pageSize, stored, x)
    decreases |vs|
  {
    var c := ResolveCursor(stored, count);
    OneRun(vs[0], count, pageSize, stored);
    var next := StoredAfter(vs[0], count, pageSize, stored);
    if next.value == 0 {
      ReachAhead(vs[1..], count, pageSize, next, x);
    } else {
      StepsMonotone(count - next.value, count - c - pageSize, pageSize);
      ReachBehind(vs[1..], count, pageSize, next, x);
    }
  }

  /** Full coverage: from any persisted cursor, ceil((n - c) / p) + ceil(c / p) unfiltered runs,
      however each of them ends, attempt every URL of the list. */
  lemma EveryUrlAttempted(vs: seq<Visit>, count: nat, pageSize: nat, stored: Option<int>)
    requires pageSize >= 1 && forall v :: v in vs ==> v.cfg.maxPages >= 1
    requires var c := ResolveCursor(stored, count);
             |vs| >= Steps(if count > c then count - c else 0, pageSize) + Steps(c, pageSize)
    ensures forall x: nat :: x < count ==> AttemptedBy(vs, count, pageSize, stored, x)
  {
    var c := ResolveCursor(stored, count);
    forall x: nat | x < count
      ensures AttemptedBy(vs, count, pageSize, stored, x)
    {
      if c <= x {
        StepsMonotone(x + 1 - c, count - c, pageSize);
        ReachAhead(vs, count, pageSize, stored, x);
      } else {
        StepsMonotone(x + 1, c, pageSize);
        ReachBehind(vs, count, pageSize, stored, x);
      }
    }
  }

  /** No run looks behind the cursor it starts from. */
  lemma NothingBehindTheCursor(v: Visit, count: nat, pageSize: nat, stored: Option<int>, x: nat)
    requires Attempts(v, count, pageSize, stored, x)
    ensures x >= ResolveCursor(stored, count)
  {
    var c := ResolveCursor(stored, count);
    var walked := Walked(v, count, pageSize, stored);
    WalkShape(v, count, pageSize, stored);
    var i :| 0 <= i < |walked| && walked[i] <= x < walked[i] + pageSize;
    RisesFromStart(walked, c, pageSize, count, i);
  }

  lemma {:induction false} RisesFromStart(walked: seq<Cursor>, c: nat, pageSize: nat, count: nat, i: nat)
    requires i < |walked| && Consecutive(walked, c, pageSize, count)
    ensures walked[i] >= c
  {
    if i > 0 { RisesFromStart(walked, c, pageSize, count, i - 1); }
  }

  /** With no page budget a run fetches nothing and leaves the cursor at the position it resolves to. */
  lemma NoBudgetNoMove(v: Visit, count: nat, pageSize: nat, stored: Option<int>)
    requires v.cfg.maxPages <= 0
    ensures Walked(v, count, pageSize, stored) == []
    ensures StoredAfter(v, count, pageSize, stored) == Some(ResolveCursor(stored, count))
  {
  }

  /** Exactly which URLs one run fetches: those from the resolved cursor up to the cursor it ends at. */
  lemma AttemptsExactly(v: Visit, count: nat, pageSize: nat, stored: Option<int>, x: nat)
    requires pageSize >= 1 && v.cfg.maxPages >= 1 && x < count
    ensures var c, next := ResolveCursor(stored, count), StoredAfter(v, count, pageSize, stored).value;
            Attempts(v, count, pageSize, stored, x) <==> c <= x < (if next == 0 then count else next)
  {
    var c := ResolveCursor(stored, count);
    OneRun(v, count, pageSize, stored);
    if Attempts(v, count, pageSize, stored, x) {
      var walked := Walked(v, count, pageSize, stored);
      NothingBehindTheCursor(v, count, pageSize, stored, x);
      ConsecutiveRises(walked, c, pageSize, count);
      var i :| 0 <= i < |walked| && walked[i] <= x < walked[i] + pageSize;
      assert walked[i] <= walked[|walked| - 1];
    }
  }

  // ---------------------------------------------------------------- runs that leave the cursor

  /** Some run of a series that leaves the stored cursor alone, as filtered runs do, fetches the URL
      at position `x`. */
  ghost predicate AttemptedWithout(vs: seq<Visit>, count: nat, pageSize: nat, stored: Option<int>, x: nat) {
    exists v :: v in vs && Attempts(v, count, pageSize, stored, x)
  }

  /** The run walks to the end of the list. */
  ghost predicate ReachesEnd(v: Visit, count: nat, pageSize: nat, stored: Option<int>) {
    StoredAfter(v, count, pageSize, stored) == Some(0)
  }

  /** However often they are repeated, filtered runs fetch the head of their list exactly when the
      cursor unfiltered runs have left is not a later position of that list. */
  lemma FilteredRunsReachHead(vs: seq<Visit>, count: nat, pageSize: nat, stored: Option<int>)
    requires vs != [] && count > 0 && pageSize >= 1 && forall v :: v in vs ==> v.cfg.maxPages >= 1
    ensures AttemptedWithout(vs, count, pageSize, stored, 0) <==> ResolveCursor(stored, count) == 0
    ensures ResolveCursor(stored, count) == 0 <==> !(stored.Some? && 0 < stored.value < count)
  {
    assert vs[0] in vs;
    AttemptsExactly(vs[0], count, pageSize, stored, 0);
    OneRun(vs[0], count, pageSize, stored);
    if AttemptedWithout(vs, count, pageSize, stored, 0) {
      var v :| v in vs && Attempts(v, count, pageSize, stored, 0);
      AttemptsExactly(v, count, pageSize, stored, 0);
    }
  }

  /** They fetch the whole list exactly when, besides, one of them walks to its end. */
  lemma FilteredRunsCoverAll(vs: seq<Visit>, count: nat, pageSize: nat, stored: Option<int>)
    requires count > 0 && pageSize >= 1 && forall v :: v in vs ==> v.cfg.maxPages >= 1
    ensures (forall x: nat :: x < count ==> AttemptedWithout(vs, count, pageSize, stored, x))
       <==> ResolveCursor(stored, count) == 0 && exists v :: v in vs && ReachesEnd(v, count, pageSize, stored)
  {
    var c := ResolveCursor(stored, count);
    if forall x: nat :: x < count ==> AttemptedWithout(vs, count, pageSize, stored, x) {
      assert AttemptedWithout(vs, count, pageSize, stored, 0) && AttemptedWithout(vs, count, pageSize, stored, count - 1);
      FilteredRunsReachHead(vs, count, pageSize, stored);
      var v :| v in vs && Attempts(v, count, pageSize, stored, count - 1);
      AttemptsExactly(v, count, pageSize, stored, count - 1);
      OneRun(v, count, pageSize, stored);
      assert ReachesEnd(v, count, pageSize, stored);
    }
    if c == 0 && exists v :: v in vs && ReachesEnd(v, count, pageSize, stored) {
      var v :| v in vs && ReachesEnd(v, count, pageSize, stored);
      forall x: nat | x < count
        ensures AttemptedWithout(vs, count, pageSize, stored, x)
      {
        AttemptsExactly(v, count, pageSize, stored, x);
      }
    }
  }

  /** For instance, with the cursor at 1 a filtered list of two URLs never has its first one fetched. */
  lemma FilteredRunsMissTheHead(vs: seq<Visit>, pageSize: nat)
    ensures !AttemptedWithout(vs, 2, pageSize, Some(1), 0)
  {
    if AttemptedWithout(vs, 2, pageSize, Some(1), 0) {
      var v :| v in vs && Attempts(v, 2, pageSize, Some(1), 0);
      NothingBehindTheCursor(v, 2, pageSize, Some(1), 0);
    }
  }

  // ---------------------------------------------------------------- what becomes of a URL

  function SkippedCount(site: Site, lo: nat, hi: nat): nat
    decreases hi - lo
  {
    if lo >= hi then 0 else (if site(lo).Skipped? then 1 else 0) + SkippedCount(site, lo + 1, hi)
  }

  /** Each URL of a block is exactly one of parsed, blocked and skipped. */
  lemma {:induction false} BlockPartition(urls: seq<string>, site: Site, lo: nat, hi: nat)
    requires lo <= hi <= |urls|
    ensures |ParsedIn(site, lo, hi)| + |BlockedIn(urls, site, lo, hi)| + SkippedCount(site, lo, hi) == hi - lo
    decreases hi - lo
  {
    if lo < hi { BlockPartition(urls, site, lo + 1, hi); }
  }

  lemma {:induction false} BlockMember(urls: seq<string>, site: Site, lo: nat, hi: nat, x: nat)
    requires lo <= x < hi <= |urls|
    ensures site(x).Parsed? ==> site(x).raw in ParsedIn(site, lo, hi)
    ensures site(x).Blocked? ==> (urls[x], site(x).status) in BlockedIn(urls, site, lo, hi)
    decreases hi - lo
  {
    if lo < x { BlockMember(urls, site, lo + 1, hi, x); }
  }

  /** End of the block the walk covers. */
  function BlockEnd(walked: seq<Cursor>, c: nat, pageSize: nat, count: nat): nat {
    if walked == [] || walked[|walked| - 1] < 0 then c
    else if walked[|walked| - 1] + pageSize < count then walked[|walked| - 1] + pageSize else count
  }

  /** A page extends the block of those before it. */
  lemma BlockEndSnoc(walked: seq<Cursor>, c: nat, pageSize: nat, count: nat)
    requires walked != [] && pageSize >= 1 && c < count && Consecutive(walked, c, pageSize, count)
    ensures var n := |walked| - 1;
            && Consecutive(walked[..n], c, pageSize, count)
            && c <= walked[n] < count
            && BlockEnd(walked[..n], c, pageSize, count) == walked[n]
            && BlockEnd(walked, c, pageSize, count) == Min(walked[n] + pageSize, count)
  {
    var n := |walked| - 1;
    ConsecutiveRises(walked, c, pageSize, count);
    if n > 0 {
      assert walked[..n][n - 1] == walked[n - 1];
      ConsecutiveRises(walked[..n], c, pageSize, count);
    }
  }

  lemma {:induction false} WalkIsBlock(urls: seq<string>, site: Site, pageSize: nat, walked: seq<Cursor>, c: nat)
    requires pageSize >= 1 && c < |urls|
    requires Consecutive(walked, c, pageSize, |urls|)
    ensures var e := BlockEnd(walked, c, pageSize, |urls|);
            && c <= e <= |urls|
            && ItemsOf(FeedOf(|urls|, site, pageSize), walked) == ParsedIn(site, c, e)
            && BlockedOn(urls, site, pageSize, walked) == BlockedIn(urls, site, c, e)
    decreases |walked|
  {
    if walked != [] {
      var n := |walked| - 1;
      BlockEndSnoc(walked, c, pageSize, |urls|);
      WalkIsBlock(urls, site, pageSize, walked[..n], c);
      assert walked == walked[..n] + [walked[n]];
      ItemsOfSnoc(FeedOf(|urls|, site, pageSize), walked[..n], walked[n]);
      BlockedOnSnoc(urls, site, pageSize, walked[..n], walked[n]);
      ParsedInSplit(site, c, walked[n], Min(walked[n] + pageSize, |urls|));
      BlockedInSplit(urls, site, c, walked[n], Min(walked[n] + pageSize, |urls|));
    }
  }

  lemma {:induction false} BlockedMembers(urls: seq<string>, site: Site, lo: nat, hi: nat, b: (string, int))
    requires hi <= |urls|
    ensures b in BlockedIn(urls, site, lo, hi) <==>
              exists x: nat :: lo <= x < hi && site(x).Blocked? && b == (urls[x], site(x).status)
    decreases hi - lo
  {
    if lo < hi {
      BlockedMembers(urls, site, lo + 1, hi, b);
      if site(lo).Blocked? && b == (urls[lo], site(lo).status) { assert lo <= lo < hi; }
    }
  }

  /** No later attempt of the block at the same URL is blocked. */
  predicate LastBlock(urls: seq<string>, site: Site, x: nat, hi: nat)
    requires x < hi <= |urls|
  {
    site(x).Blocked? && forall y :: x < y < hi && urls[y] == urls[x] ==> !site(y).Blocked?
  }

  /** The last blocked attempt at a URL is the last of it in the list of blocked URLs. */
  lemma LastBlockListed(urls: seq<string>, site: Site, lo: nat, x: nat, hi: nat) returns (i: nat)
    requires lo <= x < hi <= |urls| && LastBlock(urls, site, x, hi)
    ensures var bs := BlockedIn(urls, site, lo, hi);
            i < |bs| && bs[i] == (urls[x], site(x).status) && forall j :: i < j < |bs| ==> bs[j].0 != urls[x]
  {
    var bs, front, later := BlockedIn(urls, site, lo, hi), BlockedIn(urls, site, lo, x), BlockedIn(urls, site, x + 1, hi);
    BlockedInSplit(urls, site, lo, x, hi);
    assert bs == front + ([(urls[x], site(x).status)] + later);
    i := |front|;
    forall j | i < j < |bs|
      ensures bs[j].0 != urls[x]
    {
      assert bs[j] == later[j - i - 1];
      BlockedMembers(urls, site, x + 1, hi, bs[j]);
    }
  }

  /** What becomes of the dead letter table in a run over a block: each blocked URL ends as an open
      dead letter of its own, due for a retry, with the status of its last blocked attempt; all other
      rows but those of rejected records are as before. */
  ghost predicate BlocksRecorded(cfg: Config, urls: seq<string>, site: Site, lo: nat, hi: nat, before: Table, after: Table)
    requires hi <= |urls|
  {
    forall x: nat :: lo <= x < hi && site(x).Blocked? ==>
      && AwaitsRetry(cfg, urls[x], before, after)
      && (LastBlock(urls, site, x, hi) ==> after[DetailUrlKey(cfg.sourceId, urls[x])].blockedStatus == Some(site(x).status))
  }

  lemma RecordsBlocks(cfg: Config, urls: seq<string>, site: Site, lo: nat, hi: nat, t: Table)
    requires hi <= |urls|
    ensures BlocksRecorded(cfg, urls, site, lo, hi, t, RecordAll(t, BlockedWrites(cfg, BlockedIn(urls, site, lo, hi))))
  {
    var bs := BlockedIn(urls, site, lo, hi);
    forall x: nat | lo <= x < hi && site(x).Blocked?
      ensures AwaitsRetry(cfg, urls[x], t, RecordAll(t, BlockedWrites(cfg, bs)))
      ensures LastBlock(urls, site, x, hi) ==>
                RecordAll(t, BlockedWrites(cfg, bs))[DetailUrlKey(cfg.sourceId, urls[x])].blockedStatus == Some(site(x).status)
    {
      BlockMember(urls, site, lo, hi, x);
      BlockedUrlAwaits(cfg, bs, urls[x], t);
      if LastBlock(urls, site, x, hi) {
        var i := LastBlockListed(urls, site, lo, x, hi);
        LastBlockDecides(cfg, bs, i, t);
      }
    }
  }

  /** Outside the block's blocked URLs and its rejected records the two tables agree. */
  ghost predicate OthersKept(env: Env, cfg: Config, urls: seq<string>, site: Site, lo: nat, hi: nat, before: Table, after: Table)
    requires hi <= |urls|
  {
    forall key :: !OfBlocked(cfg, urls, site, lo, hi, key) && !OfRejected(env, cfg, ParsedIn(site, lo, hi), key) ==>
      SameRow(before, after, key)
  }

  /** The key is one of the blocked URLs'. */
  ghost predicate OfBlocked(cfg: Config, urls: seq<string>, site: Site, lo: nat, hi: nat, key: DedupKey)
    requires hi <= |urls|
  {
    exists x: nat :: lo <= x < hi && site(x).Blocked? && key == DetailUrlKey(cfg.sourceId, urls[x])
  }

  /** Ingestion touches the dead letters of rejected records only, and then the blocked URLs are recorded. */
  lemma BlockLetters(env: Env, cfg: Config, urls: seq<string>, site: Site, lo: nat, hi: nat, before: Table, between: Table)
    requires hi <= |urls|
    requires forall key :: !OfRejected(env, cfg, ParsedIn(site, lo, hi), key) ==> SameRow(before, between, key)
    ensures var after := RecordAll(between, BlockedWrites(cfg, BlockedIn(urls, site, lo, hi)));
            BlocksRecorded(cfg, urls, site, lo, hi, before, after) && OthersKept(env, cfg, urls, site, lo, hi, before, after)
  {
    var blocked := BlockedIn(urls, site, lo, hi);
    var after := RecordAll(between, BlockedWrites(cfg, blocked));
    RecordsBlocks(cfg, urls, site, lo, hi, between);
    assert forall url :: SameRow(before, between, DetailUrlKey(cfg.sourceId, url));
    forall key | !OfBlocked(cfg, urls, site, lo, hi, key) && !OfRejected(env, cfg, ParsedIn(site, lo, hi), key)
      ensures SameRow(before, after, key)
    {
      forall b | b in blocked
        ensures key != DetailUrlKey(cfg.sourceId, b.0)
      {
        BlockedMembers(urls, site, lo, hi, b);
      }
      UnblockedRow(cfg, blocked, key, between);
    }
  }

  /** The walk as a block of the list: what it hands over, what it lists as blocked, and the count. */
  lemma WalkedBlock(v: Visit, urls: seq<string>, pageSize: nat, stored: Option<int>) returns (e: nat)
    requires urls != [] && pageSize >= 1 && v.cfg.maxPages >= 1
    ensures var c := ResolveCursor(stored, |urls|);
            var feed := FeedOf(|urls|, v.site, pageSize);
            var end := Run(v.env, v.cfg, feed, Start(v.offers, v.failures), c).0;
            && e == BlockEnd(end.walked, c, pageSize, |urls|) && c < e <= |urls|
            && ItemsOf(feed, end.walked) == ParsedIn(v.site, c, e)
            && BlockedOn(urls, v.site, pageSize, end.walked) == BlockedIn(urls, v.site, c, e)
            && end.fetched + |BlockedIn(urls, v.site, c, e)| + SkippedCount(v.site, c, e) == e - c
            && forall raw :: raw in ParsedIn(v.site, c, e) ==> Accounted(v.env, v.cfg, end, raw)
  {
    var c := ResolveCursor(stored, |urls|);
    var feed := FeedOf(|urls|, v.site, pageSize);
    var end := Run(v.env, v.cfg, feed, Start(v.offers, v.failures), c).0;
    OneRun(v, |urls|, pageSize, stored);
    assert end.walked == Walked(v, |urls|, pageSize, stored);
    ConsecutiveRises(end.walked, c, pageSize, |urls|);
    RunAccounts(v.env, v.cfg, feed, v.offers, v.failures, c);
    WalkIsBlock(urls, v.site, pageSize, end.walked, c);
    e := BlockEnd(end.walked, c, pageSize, |urls|);
    BlockPartition(urls, v.site, c, e);
  }

  /** The fate of every URL a run visits: its block is split into records handed to ingestion in
      list order, blocked URLs that end as open dead letters of their own, and skipped ones; and no
      dead letter changes but theirs and those of rejected records. */
  lemma VisitedUrlsClassified(v: Visit, urls: seq<string>, pageSize: nat, stored: Option<int>) returns (e: nat)
    requires urls != [] && pageSize >= 1 && v.cfg.maxPages >= 1
    ensures var c := ResolveCursor(stored, |urls|);
            var feed := FeedOf(|urls|, v.site, pageSize);
            var end := Run(v.env, v.cfg, feed, Start(v.offers, v.failures), c).0;
            var failures := RecordAll(end.failures, BlockedWrites(v.cfg, BlockedOn(urls, v.site, pageSize, end.walked)));
            && e == BlockEnd(end.walked, c, pageSize, |urls|) && c < e <= |urls|
            && ItemsOf(feed, end.walked) == ParsedIn(v.site, c, e)
            && end.fetched + |BlockedIn(urls, v.site, c, e)| + SkippedCount(v.site, c, e) == e - c
            && (forall x :: c <= x < e && v.site(x).Parsed? ==> Accounted(v.env, v.cfg, end, v.site(x).raw))
            && BlocksRecorded(v.cfg, urls, v.site, c, e, v.failures, failures)
            && OthersKept(v.env, v.cfg, urls, v.site, c, e, v.failures, failures)
  {
    var c := ResolveCursor(stored, |urls|);
    var feed := FeedOf(|urls|, v.site, pageSize);
    e := WalkedBlock(v, urls, pageSize, stored);
    RunDeadLetters(v.env, v.cfg, feed, v.offers, v.failures, c);
    var end := Run(v.env, v.cfg, feed, Start(v.offers, v.failures), c).0;
    BlockLetters(v.env, v.cfg, urls, v.site, c, e, v.failures, end.failures);
    forall x | c <= x < e && v.site(x).Parsed?
      ensures Accounted(v.env, v.cfg, end, v.site(x).raw)
    {
      BlockMember(urls, v.site, c, e, x);
    }
  }
}
