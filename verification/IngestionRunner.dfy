/**
 * The pagination loop shared by all connectors (app/ingestion/runner.py): fetch, filter,
 * persist, three early stops. `Run` is its specification, `IngestionRun` the loop itself.
 */
module IngestionRunner {
  import opened Options
  import opened Offers
  import DeadLetters

  type Cursor = int

  /** `fetch_page`'s outcome; `Failed` covers both `None` and a `BlockedFetchError`. */
  datatype Page = Fetched(items: seq<Raw>, next: Option<Cursor>) | Failed(blockedStatus: Option<int>)

  type Feed = Cursor -> Page

  /** The arguments of a run. `now` is the one clock value used for undated offers. */
  datatype Config = Config(
    sourceId: int,
    maxPages: int,
    seenThreshold: int,
    forceRefresh: bool,
    since: Option<real>,
    until: Option<real>,
    sortedByRecency: bool,
    now: real)

  /** The loop's variables. `walked` lists the cursors of the pages consumed so far. */
  datatype RunState = RunState(
    offers: seq<Row>,
    failures: DeadLetters.Table,
    fetched: nat,
    created: nat,
    seenStreak: nat,
    walked: seq<Cursor>)

  datatype Stop =
    | FirstPageFailed(blockedStatus: Option<int>)
    | LaterPageFailed
    | AllOlderThanSince
    | NoNextPage
    | CaughtUp
    | PageBudget

  /** `IngestionResult`. */
  datatype Result = Result(ok: bool, fetched: nat, created: nat, blockedStatus: Option<int>)

  function EffectiveDate(env: Env, cfg: Config, raw: Raw): real {
    GetOr(env.mapOffer(raw).postedAt, cfg.now)
  }

  predicate OlderThanSince(env: Env, cfg: Config, raw: Raw) {
    cfg.since.Some? && EffectiveDate(env, cfg, raw) < cfg.since.value
  }

  /** The Fetch Range filter. */
  predicate OutOfRange(env: Env, cfg: Config, raw: Raw) {
    || OlderThanSince(env, cfg, raw)
    || (cfg.until.Some? && EffectiveDate(env, cfg, raw) > cfg.until.value)
  }

  function InvalidWrite(cfg: Config, v: Validation): DeadLetters.Write
    requires v.Invalid?
  {
    DeadLetters.Write(DeadLetters.ValidationKey(v.resource), DeadLetters.ValidationFailed, cfg.now, DeadLetters.Fields(v.message, None, None))
  }

  function PageFailureWrite(cfg: Config, blockedStatus: Option<int>): DeadLetters.Write {
    DeadLetters.Write(DeadLetters.SourceKey(cfg.sourceId), DeadLetters.PageFetchFailed, cfg.now,
                      DeadLetters.Fields("failed to fetch page", Some(blockedStatus), None))
  }

  ghost function ConsumeItem(env: Env, cfg: Config, st: RunState, raw: Raw): RunState {
    if OutOfRange(env, cfg, raw) then st
    else
      match env.validate(env.mapOffer(raw))
      case Invalid(resource, message) =>
        st.(failures := DeadLetters.RecordFailure(st.failures, InvalidWrite(cfg, Invalid(resource, message))))
      case Valid(offer) =>
        if Represented(env, st.offers, offer) then st.(seenStreak := st.seenStreak + 1)
        else st.(offers := Persist(env, st.offers, offer, raw), created := st.created + 1, seenStreak := 0)
  }

  ghost function ConsumeItems(env: Env, cfg: Config, st: RunState, items: seq<Raw>): RunState
    decreases |items|
  {
    if items == [] then st else ConsumeItems(env, cfg, ConsumeItem(env, cfg, st, items[0]), items[1..])
  }

  /** The page is wholly, unambiguously older than the cutoff, and the feed claims recency order. */
  ghost predicate StopsOnAge(env: Env, cfg: Config, items: seq<Raw>) {
    && cfg.sortedByRecency
    && cfg.since.Some?
    && items != []
    && AllOlder(env, cfg, items)
  }

  ghost predicate AllOlder(env: Env, cfg: Config, items: seq<Raw>) {
    forall raw :: raw in items ==> OlderThanSince(env, cfg, raw)
  }

  lemma AllOlderSnoc(env: Env, cfg: Config, items: seq<Raw>, raw: Raw)
    ensures AllOlder(env, cfg, items + [raw]) <==> AllOlder(env, cfg, items) && OlderThanSince(env, cfg, raw)
  {
    assert forall r :: r in items + [raw] <==> r in items || r == raw;
  }

  ghost function ConsumePage(env: Env, cfg: Config, st: RunState, cursor: Cursor, items: seq<Raw>): RunState {
    ConsumeItems(env, cfg, st.(fetched := st.fetched + |items|, walked := st.walked + [cursor]), items)
  }

  /** One iteration of the loop: the new variables, and why it leaves the loop if it does. */
  ghost function Iterate(env: Env, cfg: Config, st: RunState, cursor: Cursor, page: Page): (RunState, Option<Stop>) {
    match page
    case Failed(status) =>
      if st.walked == [] then (st, Some(FirstPageFailed(status)))
      else (st.(failures := DeadLetters.RecordFailure(st.failures, PageFailureWrite(cfg, status))), Some(LaterPageFailed))
    case Fetched(items, next) =>
      var st' := ConsumePage(env, cfg, st, cursor, items);
      (st', if StopsOnAge(env, cfg, items) then Some(AllOlderThanSince)
            else if next.None? then Some(NoNextPage)
            else if !cfg.forceRefresh && st'.seenStreak >= cfg.seenThreshold then Some(CaughtUp)
            else None)
  }

  ghost function Run(env: Env, cfg: Config, feed: Feed, st: RunState, cursor: Cursor): (RunState, Stop)
    decreases cfg.maxPages - |st.walked|
  {
    if |st.walked| >= cfg.maxPages then (st, PageBudget)
    else
      var (st', stop) := Iterate(env, cfg, st, cursor, feed(cursor));
      if stop.Some? then (st', stop.value)
      else
        ConsumeItemsTrace(env, cfg, st.(fetched := st.fetched + |feed(cursor).items|,
                                        walked := st.walked + [cursor]), feed(cursor).items);
        Run(env, cfg, feed, st', feed(cursor).next.value)
  }

  lemma {:induction false} ConsumeItemsTrace(env: Env, cfg: Config, st: RunState, items: seq<Raw>)
    ensures var st' := ConsumeItems(env, cfg, st, items);
            st'.walked == st.walked && st'.fetched == st.fetched
    decreases |items|
  {
    if items != [] { ConsumeItemsTrace(env, cfg, ConsumeItem(env, cfg, st, items[0]), items[1..]); }
  }

  /** The run's recursion, one page at a time. */
  lemma RunStep(env: Env, cfg: Config, feed: Feed, st: RunState, cursor: Cursor)
    requires |st.walked| < cfg.maxPages
    ensures var (st', stop) := Iterate(env, cfg, st, cursor, feed(cursor));
            && (stop.None? ==> feed(cursor).Fetched? && feed(cursor).next.Some?
                               && |st'.walked| == |st.walked| + 1
                               && Run(env, cfg, feed, st, cursor) == Run(env, cfg, feed, st', feed(cursor).next.value))
            && (stop.Some? ==> Run(env, cfg, feed, st, cursor) == (st', stop.value))
  {
    if feed(cursor).Fetched? {
      ConsumeItemsTrace(env, cfg, st.(fetched := st.fetched + |feed(cursor).items|, walked := st.walked + [cursor]), feed(cursor).items);
    }
  }

  function Start(offers: seq<Row>, failures: DeadLetters.Table): RunState {
    RunState(offers, failures, 0, 0, 0, [])
  }

  function ResultOf(st: RunState, stop: Stop): Result {
    if stop.FirstPageFailed? then Result(false, 0, 0, stop.blockedStatus)
    else Result(true, st.fetched, st.created, None)
  }

  /** `run_paginated_ingestion` as an object whose fields are the loop's variables. */
  class IngestionRun {
    const env: Env
    const cfg: Config
    const table: OfferTable
    var failures: DeadLetters.Table
    var fetched: nat
    var created: nat
    var seenStreak: nat
    var walked: seq<Cursor>

    constructor (env: Env, cfg: Config, table: OfferTable, failures: DeadLetters.Table)
      ensures this.env == env && this.cfg == cfg && this.table == table
      ensures State() == Start(table.rows, failures)
    {
      this.env, this.cfg, this.table, this.failures := env, cfg, table, failures;
      fetched, created, seenStreak, walked := 0, 0, 0, [];
    }

    ghost function State(): RunState
      reads this, table
    {
      RunState(table.rows, failures, fetched, created, seenStreak, walked)
    }

    /** One record: filter, validate, persist. */
    method IngestItem(raw: Raw) returns (older: bool)
      modifies this, table
      ensures State() == ConsumeItem(env, cfg, old(State()), raw)
      ensures older <==> OlderThanSince(env, cfg, raw)
    {
      older := false;
      var mapped := env.mapOffer(raw);
      if cfg.since.Some? || cfg.until.Some? {
        var effectiveDate := if mapped.postedAt.Some? then mapped.postedAt.value else cfg.now;
        older := cfg.since.Some? && effectiveDate < cfg.since.value;
        if older || (cfg.until.Some? && effectiveDate > cfg.until.value) { return; }
      }
      var validated := env.validate(mapped);
      if validated.Invalid? {
        failures := DeadLetters.RecordFailure(failures, InvalidWrite(cfg, validated));
        return;
      }
      var _, isNew := table.PersistOffer(env, validated.offer, raw);
      if isNew {
        created := created + 1;
        seenStreak := 0;
      } else {
        seenStreak := seenStreak + 1;
      }
    }

    /** The inner loop over one page's records. */
    method PersistPage(items: seq<Raw>) returns (allOlder: bool)
      modifies this, table
      ensures State() == ConsumeItems(env, cfg, old(State()), items)
      ensures allOlder <==> StopsOnAge(env, cfg, items)
    {
      allOlder := cfg.sortedByRecency && cfg.since.Some? && |items| > 0;
      ghost var before := State();
      var i := 0;
      while i < |items|
        invariant 0 <= i <= |items|
        invariant ConsumeItems(env, cfg, State(), items[i..]) == ConsumeItems(env, cfg, before, items)
        invariant allOlder <==> cfg.sortedByRecency && cfg.since.Some? && |items| > 0 &&
                                AllOlder(env, cfg, items[..i])
      {
        assert items[i..][1..] == items[i + 1..];
        assert items[..i + 1] == items[..i] + [items[i]];
        AllOlderSnoc(env, cfg, items[..i], items[i]);
        var older := IngestItem(items[i]);
        if !older { allOlder := false; }
        i := i + 1;
      }
      assert items[..i] == items;
    }

    /** The body of the page loop, given the page that was fetched at `cursor`. */
    method Step(cursor: Cursor, page: Page) returns (stop: Option<Stop>)
      modifies this, table
      ensures (State(), stop) == Iterate(env, cfg, old(State()), cursor, page)
    {
      if page.Failed? {
        if |walked| == 0 { return Some(FirstPageFailed(page.blockedStatus)); }
        failures := DeadLetters.RecordFailure(failures, PageFailureWrite(cfg, page.blockedStatus));
        return Some(LaterPageFailed);
      }
      fetched := fetched + |page.items|;
      walked := walked + [cursor];
      var allOlder := PersistPage(page.items);
      if allOlder { return Some(AllOlderThanSince); }
      if page.next.None? { return Some(NoNextPage); }
      if !cfg.forceRefresh && seenStreak >= cfg.seenThreshold { return Some(CaughtUp); }
      return None;
    }

    /** The whole run over a feed. */
    method RunPaginated(feed: Feed, initialCursor: Cursor) returns (result: Result)
      requires walked == []
      modifies this, table
      ensures var (st, stop) := Run(env, cfg, feed, old(State()), initialCursor);
              State() == st && result == ResultOf(st, stop)
    {
      ghost var before := State();
      var cursor := initialCursor;
      while |walked| < cfg.maxPages
        invariant Run(env, cfg, feed, State(), cursor) == Run(env, cfg, feed, before, initialCursor)
        decreases cfg.maxPages - |walked|
      {
        var page := feed(cursor);
        RunStep(env, cfg, feed, State(), cursor);
        var stop := Step(cursor, page);
        if stop.Some? {
          if stop.value.FirstPageFailed? { return Result(false, 0, 0, stop.value.blockedStatus); }
          return Result(true, fetched, created, None);
        }
        cursor := page.next.value;
      }
      return Result(true, fetched, created, None);
    }
  }
}
