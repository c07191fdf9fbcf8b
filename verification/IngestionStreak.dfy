/**
 * What ends an ingestion run, and what the streak of already-seen records counts: an account of the
 * whole loop by the records it has consumed and the table as each of them found it.
 */
module IngestionStreak {
  import opened Options
  import opened Sequences
  import opened Offers
  import opened IngestionRunner
  import opened IngestionGuarantees
  import opened IngestionCheckpoint
  import DeadLetters

  /** The offers table once the records have been read: each in-range valid one persisted in turn. */
  ghost function Stored(env: Env, cfg: Config, offers: seq<Row>, items: seq<Raw>): seq<Row>
    decreases |items|
  {
    if items == [] then offers
    else
      var n := |items| - 1;
      var before := Stored(env, cfg, offers, items[..n]);
      if Ingestible(env, cfg, items[n]) then Persist(env, before, OfferOf(env, items[n]), items[n]) else before
  }

  lemma StoredSnoc(env: Env, cfg: Config, offers: seq<Row>, items: seq<Raw>, raw: Raw)
    ensures var before := Stored(env, cfg, offers, items);
            var after := if Ingestible(env, cfg, raw) then Persist(env, before, OfferOf(env, raw), raw) else before;
            Stored(env, cfg, offers, items + [raw]) == after
  {
    assert (items + [raw])[..|items|] == items;
  }

  /** Reading the k-th record grew the table. */
  ghost predicate Grew(env: Env, cfg: Config, offers: seq<Row>, items: seq<Raw>, k: nat)
    requires k < |items|
  {
    Stored(env, cfg, offers, items[..k + 1]) != Stored(env, cfg, offers, items[..k])
  }

  /** The in-range valid records among them. */
  ghost function Ingestibles(env: Env, cfg: Config, items: seq<Raw>): seq<Raw> {
    Filter((raw: Raw) => Ingestible(env, cfg, raw), items)
  }

  /** The records from the g-th on are those read since the table last grew, or since the start. */
  ghost predicate SinceGrowth(env: Env, cfg: Config, offers: seq<Row>, items: seq<Raw>, g: nat) {
    && g <= |items|
    && (g > 0 ==> Grew(env, cfg, offers, items, g - 1))
    && forall k :: g <= k < |items| ==> !Grew(env, cfg, offers, items, k)
  }

  /** So many in-range valid records have been read since the table last grew. */
  ghost predicate StreakIs(env: Env, cfg: Config, offers: seq<Row>, items: seq<Raw>, streak: nat) {
    exists g: nat :: SinceGrowth(env, cfg, offers, items, g) && streak == |Ingestibles(env, cfg, items[g..])|
  }

  /** The run's table and streak, after the given records. */
  ghost predicate Accounts(env: Env, cfg: Config, offers: seq<Row>, items: seq<Raw>, st: RunState) {
    st.offers == Stored(env, cfg, offers, items) && StreakIs(env, cfg, offers, items, st.seenStreak)
  }

  // ---------------------------------------------------------------- the streak

  lemma GrewPrefix(env: Env, cfg: Config, offers: seq<Row>, items: seq<Raw>, raw: Raw, k: nat)
    requires k < |items|
    ensures Grew(env, cfg, offers, items + [raw], k) <==> Grew(env, cfg, offers, items, k)
  {
    assert (items + [raw])[..k] == items[..k] && (items + [raw])[..k + 1] == items[..k + 1];
  }

  lemma GrewLast(env: Env, cfg: Config, offers: seq<Row>, items: seq<Raw>, raw: Raw)
    ensures Grew(env, cfg, offers, items + [raw], |items|) <==>
              Ingestible(env, cfg, raw) && !Represented(env, Stored(env, cfg, offers, items), OfferOf(env, raw))
  {
    var all := items + [raw];
    assert all[..|items|] == items && all[..|items| + 1] == all;
    StoredSnoc(env, cfg, offers, items, raw);
  }

  /** Whether the records so far grew the table is not changed by one more. */
  lemma GrewPrefixes(env: Env, cfg: Config, offers: seq<Row>, items: seq<Raw>, raw: Raw)
    ensures forall k :: 0 <= k < |items| ==> (Grew(env, cfg, offers, items + [raw], k) <==> Grew(env, cfg, offers, items, k))
  {
    forall k | 0 <= k < |items|
      ensures Grew(env, cfg, offers, items + [raw], k) <==> Grew(env, cfg, offers, items, k)
    {
      GrewPrefix(env, cfg, offers, items, raw, k);
    }
  }

  /** A record that grows the table starts the streak afresh. */
  lemma StreakRestarts(env: Env, cfg: Config, offers: seq<Row>, items: seq<Raw>, raw: Raw)
    requires Grew(env, cfg, offers, items + [raw], |items|)
    ensures StreakIs(env, cfg, offers, items + [raw], 0)
  {
    assert (items + [raw])[|items| + 1..] == [];
    assert SinceGrowth(env, cfg, offers, items + [raw], |items| + 1);
  }

  /** Any other continues it, and is counted if it is in range and valid. */
  lemma StreakGoesOn(env: Env, cfg: Config, offers: seq<Row>, items: seq<Raw>, raw: Raw, streak: nat)
    requires StreakIs(env, cfg, offers, items, streak) && !Grew(env, cfg, offers, items + [raw], |items|)
    ensures StreakIs(env, cfg, offers, items + [raw], if Ingestible(env, cfg, raw) then streak + 1 else streak)
  {
    var all := items + [raw];
    var g: nat :| SinceGrowth(env, cfg, offers, items, g) && streak == |Ingestibles(env, cfg, items[g..])|;
    GrewPrefixes(env, cfg, offers, items, raw);
    assert all[g..] == items[g..] + [raw];
    FilterSnoc((r: Raw) => Ingestible(env, cfg, r), items[g..], raw);
    assert SinceGrowth(env, cfg, offers, all, g);
  }

  lemma AccountsItem(env: Env, cfg: Config, offers: seq<Row>, items: seq<Raw>, st: RunState, raw: Raw)
    requires Accounts(env, cfg, offers, items, st)
    ensures Accounts(env, cfg, offers, items + [raw], ConsumeItem(env, cfg, st, raw))
  {
    StoredSnoc(env, cfg, offers, items, raw);
    GrewLast(env, cfg, offers, items, raw);
    if Grew(env, cfg, offers, items + [raw], |items|) {
      StreakRestarts(env, cfg, offers, items, raw);
    } else {
      StreakGoesOn(env, cfg, offers, items, raw, st.seenStreak);
    }
  }

  /** Within a page the account holds after every record. */
  lemma {:induction false} AccountsItems(env: Env, cfg: Config, offers: seq<Row>, before: seq<Raw>, st: RunState, items: seq<Raw>)
    requires Accounts(env, cfg, offers, before, st)
    ensures Accounts(env, cfg, offers, before + items, ConsumeItems(env, cfg, st, items))
    decreases |items|
  {
    if items == [] {
      assert before + items == before;
    } else {
      assert before + items == (before + [items[0]]) + items[1..];
      AccountsItem(env, cfg, offers, before, st, items[0]);
      AccountsItems(env, cfg, offers, before + [items[0]], ConsumeItem(env, cfg, st, items[0]), items[1..]);
    }
  }

  /** The page number and the count of fetched records are no part of the account. */
  lemma AccountsEntered(env: Env, cfg: Config, offers: seq<Row>, items: seq<Raw>, st: RunState, cursor: Cursor, page: seq<Raw>)
    requires Accounts(env, cfg, offers, items, st)
    ensures Accounts(env, cfg, offers, items + page, ConsumePage(env, cfg, st, cursor, page))
  {
    var entered := st.(fetched := st.fetched + |page|, walked := st.walked + [cursor]);
    assert Accounts(env, cfg, offers, items, entered);
    AccountsItems(env, cfg, offers, items, entered, page);
  }

  lemma AccountsPage(env: Env, cfg: Config, feed: Feed, offers: seq<Row>, st: RunState, cursor: Cursor)
    requires Accounts(env, cfg, offers, ItemsOf(feed, st.walked), st) && feed(cursor).Fetched?
    ensures var st' := Iterate(env, cfg, st, cursor, feed(cursor)).0;
            Accounts(env, cfg, offers, ItemsOf(feed, st'.walked), st')
  {
    PageWalks(env, cfg, st, cursor, feed(cursor));
    ItemsOfSnoc(feed, st.walked, cursor);
    AccountsEntered(env, cfg, offers, ItemsOf(feed, st.walked), st, cursor, feed(cursor).items);
  }

  lemma StartAccounts(env: Env, cfg: Config, offers: seq<Row>, failures: DeadLetters.Table)
    ensures Accounts(env, cfg, offers, [], Start(offers, failures))
  {
    assert SinceGrowth(env, cfg, offers, [], 0);
    assert Ingestibles(env, cfg, []) == [];
  }

  /** From any point of a run that the account fits, to its end: after each page, as after each record
      within it, the table is the records read persisted in turn, and the streak the number of in-range
      valid ones read since the table last grew. */
  lemma {:induction false} RunKeepsAccount(env: Env, cfg: Config, feed: Feed, offers: seq<Row>, st: RunState, cursor: Cursor)
    requires Accounts(env, cfg, offers, ItemsOf(feed, st.walked), st)
    ensures var end := Run(env, cfg, feed, st, cursor).0;
            Accounts(env, cfg, offers, ItemsOf(feed, end.walked), end)
    decreases cfg.maxPages - |st.walked|
  {
    if |st.walked| < cfg.maxPages {
      RunStep(env, cfg, feed, st, cursor);
      var (st', stop) := Iterate(env, cfg, st, cursor, feed(cursor));
      if feed(cursor).Fetched? { AccountsPage(env, cfg, feed, offers, st, cursor); }
      if stop.None? { RunKeepsAccount(env, cfg, feed, offers, st', feed(cursor).next.value); }
    }
  }

  // ---------------------------------------------------------------- why a run ends

  /** The last `n` in-range valid records, at least, were all represented in the table before they
      were read. */
  ghost predicate LastKnown(env: Env, cfg: Config, offers: seq<Row>, items: seq<Raw>, n: int) {
    exists m: nat :: m <= |items| && |Ingestibles(env, cfg, items[m..])| >= n && KnownFrom(env, cfg, offers, items, m)
  }

  /** Every in-range valid record from the m-th on was represented before it was read. */
  ghost predicate KnownFrom(env: Env, cfg: Config, offers: seq<Row>, items: seq<Raw>, m: nat) {
    forall k :: m <= k < |items| && Ingestible(env, cfg, items[k]) ==>
      Represented(env, Stored(env, cfg, offers, items[..k]), OfferOf(env, items[k]))
  }

  lemma GrewIffNew(env: Env, cfg: Config, offers: seq<Row>, items: seq<Raw>, k: nat)
    requires k < |items|
    ensures Grew(env, cfg, offers, items, k) <==>
              Ingestible(env, cfg, items[k]) && !Represented(env, Stored(env, cfg, offers, items[..k]), OfferOf(env, items[k]))
  {
    assert items[..k + 1] == items[..k] + [items[k]];
    StoredSnoc(env, cfg, offers, items[..k], items[k]);
  }

  lemma FewerIngestibles(env: Env, cfg: Config, items: seq<Raw>, g: nat, m: nat)
    requires g <= m <= |items|
    ensures |Ingestibles(env, cfg, items[m..])| <= |Ingestibles(env, cfg, items[g..])|
  {
    assert items[g..] == items[g..m] + items[m..];
    FilterAppend((raw: Raw) => Ingestible(env, cfg, raw), items[g..m], items[m..]);
  }

  /** A streak reaches n exactly when the last n in-range valid records were known before they were read. */
  lemma StreakReaches(env: Env, cfg: Config, offers: seq<Row>, items: seq<Raw>, streak: nat, n: int)
    requires StreakIs(env, cfg, offers, items, streak)
    ensures streak >= n <==> LastKnown(env, cfg, offers, items, n)
  {
    var g: nat :| SinceGrowth(env, cfg, offers, items, g) && streak == |Ingestibles(env, cfg, items[g..])|;
    forall k | 0 <= k < |items|
      ensures Grew(env, cfg, offers, items, k) <==>
                Ingestible(env, cfg, items[k]) && !Represented(env, Stored(env, cfg, offers, items[..k]), OfferOf(env, items[k]))
    {
      GrewIffNew(env, cfg, offers, items, k);
    }
    assert KnownFrom(env, cfg, offers, items, g);
    if LastKnown(env, cfg, offers, items, n) {
      var m: nat :| m <= |items| && |Ingestibles(env, cfg, items[m..])| >= n && KnownFrom(env, cfg, offers, items, m);
      assert g <= m;
      FewerIngestibles(env, cfg, items, g, m);
    }
  }

  /** Whether the walk ends with its last page, and why, told from the pages walked alone: the age
      stop, then the end of the feed, then the catch-up stop. */
  ghost function EndsWalk(env: Env, cfg: Config, feed: Feed, offers: seq<Row>, walked: seq<Cursor>): Option<Stop> {
    if walked == [] then None
    else
      var last := feed(walked[|walked| - 1]);
      if StopsOnAge(env, cfg, PageItems(last)) then Some(AllOlderThanSince)
      else if last.Fetched? && last.next.None? then Some(NoNextPage)
      else if !cfg.forceRefresh && LastKnown(env, cfg, offers, ItemsOf(feed, walked), cfg.seenThreshold) then Some(CaughtUp)
      else None
  }

  /** The cursor after the pages walked. */
  function NextCursor(feed: Feed, walked: seq<Cursor>, cursor: Cursor): Cursor {
    if walked == [] || !feed(walked[|walked| - 1]).Fetched? then cursor
    else GetOr(feed(walked[|walked| - 1]).next, cursor)
  }

  /** No page before the last of the walk ends it. */
  ghost predicate GoesOn(env: Env, cfg: Config, feed: Feed, offers: seq<Row>, walked: seq<Cursor>) {
    forall n :: 0 <= n < |walked| ==> EndsWalk(env, cfg, feed, offers, walked[..n]) == None
  }

  /** What ends the walk is its last page, or else the page budget, or else a page that cannot be
      fetched. */
  ghost predicate StopsBecause(env: Env, cfg: Config, feed: Feed, offers: seq<Row>, walked: seq<Cursor>, cursor: Cursor, stop: Stop) {
    match EndsWalk(env, cfg, feed, offers, walked)
    case Some(reason) => stop == reason
    case None =>
      if |walked| >= cfg.maxPages then stop == PageBudget
      else
        var page := feed(NextCursor(feed, walked, cursor));
        page.Failed? && stop == (if walked == [] then FirstPageFailed(page.blockedStatus) else LaterPageFailed)
  }

  lemma GoesOnSnoc(env: Env, cfg: Config, feed: Feed, offers: seq<Row>, walked: seq<Cursor>, c: Cursor)
    requires GoesOn(env, cfg, feed, offers, walked) && EndsWalk(env, cfg, feed, offers, walked) == None
    ensures GoesOn(env, cfg, feed, offers, walked + [c])
  {
    assert (walked + [c])[..|walked|] == walked;
    forall n | 0 <= n < |walked|
      ensures EndsWalk(env, cfg, feed, offers, (walked + [c])[..n]) == None
    {
      assert (walked + [c])[..n] == walked[..n];
    }
  }

  lemma PageEndsWalk(env: Env, cfg: Config, feed: Feed, offers: seq<Row>, st: RunState, cursor: Cursor)
    requires Accounts(env, cfg, offers, ItemsOf(feed, st.walked), st) && feed(cursor).Fetched?
    ensures var (st', stop) := Iterate(env, cfg, st, cursor, feed(cursor));
            && st'.walked == st.walked + [cursor]
            && Accounts(env, cfg, offers, ItemsOf(feed, st'.walked), st')
            && stop == EndsWalk(env, cfg, feed, offers, st'.walked)
  {
    var st' := Iterate(env, cfg, st, cursor, feed(cursor)).0;
    PageWalks(env, cfg, st, cursor, feed(cursor));
    AccountsPage(env, cfg, feed, offers, st, cursor);
    StreakReaches(env, cfg, offers, ItemsOf(feed, st'.walked), st'.seenStreak, cfg.seenThreshold);
  }

  /** A page that cannot be fetched ends the run without being walked. */
  lemma FailedPageEndsWalk(env: Env, cfg: Config, st: RunState, cursor: Cursor, page: Page)
    requires page.Failed?
    ensures var (st', stop) := Iterate(env, cfg, st, cursor, page);
            && st'.walked == st.walked
            && stop == Some(if st.walked == [] then FirstPageFailed(page.blockedStatus) else LaterPageFailed)
  {
  }

  lemma {:induction false} RunEndsFrom(env: Env, cfg: Config, feed: Feed, offers: seq<Row>, st: RunState, first: Cursor, cursor: Cursor)
    requires Accounts(env, cfg, offers, ItemsOf(feed, st.walked), st)
    requires cursor == NextCursor(feed, st.walked, first)
    requires GoesOn(env, cfg, feed, offers, st.walked) && EndsWalk(env, cfg, feed, offers, st.walked) == None
    ensures var (end, stop) := Run(env, cfg, feed, st, cursor);
            GoesOn(env, cfg, feed, offers, end.walked) && StopsBecause(env, cfg, feed, offers, end.walked, first, stop)
    decreases cfg.maxPages - |st.walked|
  {
    if |st.walked| < cfg.maxPages {
      RunStep(env, cfg, feed, st, cursor);
      if feed(cursor).Failed? {
        FailedPageEndsWalk(env, cfg, st, cursor, feed(cursor));
      } else {
        PageEndsWalk(env, cfg, feed, offers, st, cursor);
        GoesOnSnoc(env, cfg, feed, offers, st.walked, cursor);
        var (st', stop) := Iterate(env, cfg, st, cursor, feed(cursor));
        if stop.None? { RunEndsFrom(env, cfg, feed, offers, st', first, feed(cursor).next.value); }
      }
    }
  }

  /** Exactly when and why a run ends, for every feed, table and configuration; with the chain of pages
      this determines its whole walk. It stores its records in turn, and its streak is the number of
      in-range valid ones read since the table last grew. */
  lemma RunEndsExactly(env: Env, cfg: Config, feed: Feed, offers: seq<Row>, failures: DeadLetters.Table, cursor: Cursor)
    ensures var (end, stop) := Run(env, cfg, feed, Start(offers, failures), cursor);
            && Chain(feed, end.walked) && (end.walked != [] ==> end.walked[0] == cursor)
            && GoesOn(env, cfg, feed, offers, end.walked)
            && StopsBecause(env, cfg, feed, offers, end.walked, cursor, stop)
            && end.offers == Stored(env, cfg, offers, ItemsOf(feed, end.walked))
            && StreakIs(env, cfg, offers, ItemsOf(feed, end.walked), end.seenStreak)
  {
    var st := Start(offers, failures);
    StartAccounts(env, cfg, offers, failures);
    RunEndsFrom(env, cfg, feed, offers, st, cursor, cursor);
    RunKeepsAccount(env, cfg, feed, offers, st, cursor);
    RunAccounts(env, cfg, feed, offers, failures, cursor);
  }

  /** The catch-up stop: a run ends in it if and only if it is not forced and its last page has a
      successor, does not stop it on age, and leaves the last `seenThreshold` in-range valid records
      all known before they were read. */
  lemma CaughtUpExactly(env: Env, cfg: Config, feed: Feed, offers: seq<Row>, failures: DeadLetters.Table, cursor: Cursor)
    ensures var (end, stop) := Run(env, cfg, feed, Start(offers, failures), cursor);
            stop == CaughtUp <==>
              && !cfg.forceRefresh && end.walked != []
              && var last := feed(end.walked[|end.walked| - 1]);
                 && last.Fetched? && last.next.Some? && !StopsOnAge(env, cfg, last.items)
                 && LastKnown(env, cfg, offers, ItemsOf(feed, end.walked), cfg.seenThreshold)
  {
    RunEndsExactly(env, cfg, feed, offers, failures, cursor);
  }

  /** Only a first page that cannot be fetched fails the run, and then nothing has happened. */
  lemma FirstPageFails(env: Env, cfg: Config, feed: Feed, st: RunState, cursor: Cursor)
    requires st.walked == []
    ensures var (end, stop) := Run(env, cfg, feed, st, cursor);
            && (stop.FirstPageFailed? <==> cfg.maxPages > 0 && feed(cursor).Failed?)
            && (stop.FirstPageFailed? ==> end == st && stop.blockedStatus == feed(cursor).blockedStatus)
  {
    if cfg.maxPages > 0 {
      RunStep(env, cfg, feed, st, cursor);
      PageWalks(env, cfg, st, cursor, feed(cursor));
      var (st', stop) := Iterate(env, cfg, st, cursor, feed(cursor));
      if stop.None? { LaterStops(env, cfg, feed, st', feed(cursor).next.value); }
    }
  }

  /** What the caller is told: failure exactly when the first page cannot be fetched, with that page's
      status and nothing stored; otherwise the records of the pages walked and the growth of the table. */
  lemma RunReports(env: Env, cfg: Config, feed: Feed, offers: seq<Row>, failures: DeadLetters.Table, cursor: Cursor)
    ensures var (end, stop) := Run(env, cfg, feed, Start(offers, failures), cursor);
            var result := ResultOf(end, stop);
            && offers <= end.offers
            && (result.ok <==> !(cfg.maxPages > 0 && feed(cursor).Failed?))
            && (!result.ok ==> result == Result(false, 0, 0, feed(cursor).blockedStatus) && end == Start(offers, failures))
            && (result.ok ==> result == Result(true, |ItemsOf(feed, end.walked)|, |end.offers| - |offers|, None))
  {
    RunAccounts(env, cfg, feed, offers, failures, cursor);
    FirstPageFails(env, cfg, feed, Start(offers, failures), cursor);
  }
}
