/** What a whole ingestion run guarantees, for every feed, table and configuration. */
module IngestionGuarantees {
  import opened Options
  import opened Offers
  import opened IngestionRunner
  import DeadLetters

  function PageItems(page: Page): seq<Raw> {
    if page.Fetched? then page.items else []
  }

  /** The records of the pages at the given cursors, in order. */
  function ItemsOf(feed: Feed, walked: seq<Cursor>): seq<Raw> {
    if walked == [] then [] else PageItems(feed(walked[0])) + ItemsOf(feed, walked[1..])
  }

  lemma {:induction false} ItemsOfSnoc(feed: Feed, walked: seq<Cursor>, c: Cursor)
    ensures ItemsOf(feed, walked + [c]) == ItemsOf(feed, walked) + PageItems(feed(c))
  {
    if walked == [] {
      assert ItemsOf(feed, [c]) == PageItems(feed(c)) + ItemsOf(feed, []);
    } else {
      assert (walked + [c])[1..] == walked[1..] + [c];
      ItemsOfSnoc(feed, walked[1..], c);
    }
  }

  // ---------------------------------------------------------------- accounting

  /** Nothing is silently lost: a record is out of range, or failed validation and is an open
      dead letter, or is represented by a stored row. */
  ghost predicate Accounted(env: Env, cfg: Config, st: RunState, raw: Raw) {
    || OutOfRange(env, cfg, raw)
    || match env.validate(env.mapOffer(raw))
       case Invalid(resource, _) =>
         var key := DeadLetters.ValidationKey(resource);
         key in st.failures && st.failures[key].status == DeadLetters.Open
       case Valid(offer) => Represented(env, st.offers, offer)
  }

  /** How a run's variables move: rows are only appended, each append is counted, keys that were
      unique stay unique, open dead letters stay open. */
  ghost predicate Extends(a: RunState, b: RunState) {
    && a.offers <= b.offers
    && b.created - a.created == |b.offers| - |a.offers|
    && (UniqueHashes(a.offers) ==> UniqueHashes(b.offers))
    && (UniqueContent(a.offers) ==> UniqueContent(b.offers))
    && forall k :: k in a.failures && a.failures[k].status == DeadLetters.Open ==>
         k in b.failures && b.failures[k].status == DeadLetters.Open
  }

  lemma ExtendsTransitive(a: RunState, b: RunState, c: RunState)
    requires Extends(a, b) && Extends(b, c)
    ensures Extends(a, c)
  {
  }

  lemma AccountedExtends(env: Env, cfg: Config, a: RunState, b: RunState, raw: Raw)
    requires Extends(a, b) && Accounted(env, cfg, a, raw)
    ensures Accounted(env, cfg, b, raw)
  {
    if !OutOfRange(env, cfg, raw) && env.validate(env.mapOffer(raw)).Valid? {
      RepresentedGrows(env, a.offers, b.offers, env.validate(env.mapOffer(raw)).offer);
    }
  }

  lemma ItemExtends(env: Env, cfg: Config, st: RunState, raw: Raw)
    ensures Extends(st, ConsumeItem(env, cfg, st, raw))
    ensures Accounted(env, cfg, ConsumeItem(env, cfg, st, raw), raw)
  {
    if !OutOfRange(env, cfg, raw) && env.validate(env.mapOffer(raw)).Valid? {
      var offer := env.validate(env.mapOffer(raw)).offer;
      PersistRepresents(env, st.offers, offer, raw);
      PersistKeepsKeysUnique(env, st.offers, offer, raw);
    }
  }

  lemma {:induction false} ItemsExtend(env: Env, cfg: Config, st: RunState, items: seq<Raw>)
    ensures Extends(st, ConsumeItems(env, cfg, st, items))
    ensures forall raw :: raw in items ==> Accounted(env, cfg, ConsumeItems(env, cfg, st, items), raw)
    decreases |items|
  {
    if items != [] {
      var st1 := ConsumeItem(env, cfg, st, items[0]);
      ItemExtends(env, cfg, st, items[0]);
      ItemsExtend(env, cfg, st1, items[1..]);
      AccountedExtends(env, cfg, st1, ConsumeItems(env, cfg, st, items), items[0]);
    }
  }

  lemma PageExtends(env: Env, cfg: Config, st: RunState, cursor: Cursor, page: Page)
    ensures var st' := Iterate(env, cfg, st, cursor, page).0;
            && Extends(st, st')
            && (page.Fetched? ==> forall raw :: raw in page.items ==> Accounted(env, cfg, st', raw))
            && st'.walked == st.walked + (if page.Fetched? then [cursor] else [])
            && st'.fetched == st.fetched + |PageItems(page)|
  {
    if page.Fetched? {
      var entered := st.(fetched := st.fetched + |page.items|, walked := st.walked + [cursor]);
      ItemsExtend(env, cfg, entered, page.items);
      ConsumeItemsTrace(env, cfg, entered, page.items);
    }
  }

  /** The pages walked form a chain of fetched pages, each pointing at the next. */
  ghost predicate Chain(feed: Feed, walked: seq<Cursor>) {
    && (forall i :: 0 <= i < |walked| ==> feed(walked[i]).Fetched?)
    && (forall i :: 0 <= i < |walked| - 1 ==> feed(walked[i]).next == Some(walked[i + 1]))
  }

  /** The walk so far leads to `cursor`. */
  ghost predicate LeadsTo(feed: Feed, walked: seq<Cursor>, cursor: Cursor) {
    && Chain(feed, walked)
    && (walked != [] ==> feed(walked[|walked| - 1]).next == Some(cursor))
  }

  /** What the loop maintains about the pages walked so far, besides leading to the next one. */
  ghost predicate WalkAccounted(env: Env, cfg: Config, feed: Feed, st: RunState) {
    && Chain(feed, st.walked)
    && st.fetched == |ItemsOf(feed, st.walked)|
    && forall raw :: raw in ItemsOf(feed, st.walked) ==> Accounted(env, cfg, st, raw)
  }

  lemma PageAccounted(env: Env, cfg: Config, feed: Feed, st: RunState, cursor: Cursor)
    requires WalkAccounted(env, cfg, feed, st) && LeadsTo(feed, st.walked, cursor)
    ensures var (st', stop) := Iterate(env, cfg, st, cursor, feed(cursor));
            && Extends(st, st')
            && WalkAccounted(env, cfg, feed, st')
            && (stop.None? ==> feed(cursor).next.Some? && LeadsTo(feed, st'.walked, feed(cursor).next.value))
  {
    PageExtends(env, cfg, st, cursor, feed(cursor));
    var st' := Iterate(env, cfg, st, cursor, feed(cursor)).0;
    ItemsOfSnoc(feed, st.walked, cursor);
    forall raw | raw in ItemsOf(feed, st'.walked)
      ensures Accounted(env, cfg, st', raw)
    {
      if raw in ItemsOf(feed, st.walked) { AccountedExtends(env, cfg, st, st', raw); }
    }
  }

  lemma {:induction false} RunExtends(env: Env, cfg: Config, feed: Feed, st: RunState, cursor: Cursor)
    requires WalkAccounted(env, cfg, feed, st) && LeadsTo(feed, st.walked, cursor)
    ensures var end := Run(env, cfg, feed, st, cursor).0;
            && Extends(st, end)
            && WalkAccounted(env, cfg, feed, end)
    decreases cfg.maxPages - |st.walked|
  {
    if |st.walked| < cfg.maxPages {
      PageAccounted(env, cfg, feed, st, cursor);
      var (st', stop) := Iterate(env, cfg, st, cursor, feed(cursor));
      if stop.None? {
        RunStep(env, cfg, feed, st, cursor);
        RunExtends(env, cfg, feed, st', feed(cursor).next.value);
        ExtendsTransitive(st, st', Run(env, cfg, feed, st, cursor).0);
      }
    }
  }

  lemma {:induction false} RunWalks(env: Env, cfg: Config, feed: Feed, st: RunState, cursor: Cursor)
    ensures var end := Run(env, cfg, feed, st, cursor).0;
            && Extends(st, end)
            && st.walked <= end.walked
            && (|end.walked| > |st.walked| ==> end.walked[|st.walked|] == cursor)
            && |end.walked| <= (if cfg.maxPages > |st.walked| then cfg.maxPages else |st.walked|)
    decreases cfg.maxPages - |st.walked|
  {
    if |st.walked| < cfg.maxPages {
      PageExtends(env, cfg, st, cursor, feed(cursor));
      RunStep(env, cfg, feed, st, cursor);
      var (st', stop) := Iterate(env, cfg, st, cursor, feed(cursor));
      if stop.None? {
        RunWalks(env, cfg, feed, st', feed(cursor).next.value);
        ExtendsTransitive(st, st', Run(env, cfg, feed, st, cursor).0);
      }
    }
  }

  /** Accounting of a whole run: `created` is the growth of a table that only grows and keeps its
      keys unique, `fetched` counts the records of the pages walked, and every one of those
      records is accounted for. */
  lemma RunAccounts(env: Env, cfg: Config, feed: Feed, offers: seq<Row>, failures: DeadLetters.Table, cursor: Cursor)
    ensures var (end, stop) := Run(env, cfg, feed, Start(offers, failures), cursor);
            && offers <= end.offers
            && end.created == |end.offers| - |offers|
            && (UniqueHashes(offers) ==> UniqueHashes(end.offers))
            && (UniqueContent(offers) ==> UniqueContent(end.offers))
            && Chain(feed, end.walked)
            && (end.walked != [] ==> end.walked[0] == cursor)
            && |end.walked| <= (if cfg.maxPages > 0 then cfg.maxPages else 0)
            && end.fetched == |ItemsOf(feed, end.walked)|
            && (forall raw :: raw in ItemsOf(feed, end.walked) ==> Accounted(env, cfg, end, raw))
  {
    RunExtends(env, cfg, feed, Start(offers, failures), cursor);
    RunWalks(env, cfg, feed, Start(offers, failures), cursor);
  }

  // ---------------------------------------------------------------- running twice

  /** Every in-range valid record of the list already has a row. */
  ghost predicate AllRepresented(env: Env, cfg: Config, offers: seq<Row>, items: seq<Raw>) {
    forall raw :: raw in items && !OutOfRange(env, cfg, raw) && env.validate(env.mapOffer(raw)).Valid? ==>
      Represented(env, offers, env.validate(env.mapOffer(raw)).offer)
  }

  /** The coupling of two runs over the same items: `a` may create, `b` has seen it all. */
  lemma {:induction false} ItemsCoupled(env: Env, cfg: Config, a: RunState, b: RunState, items: seq<Raw>)
    requires a.seenStreak <= b.seenStreak
    requires AllRepresented(env, cfg, b.offers, items)
    ensures var a' := ConsumeItems(env, cfg, a, items);
            var b' := ConsumeItems(env, cfg, b, items);
            a'.seenStreak <= b'.seenStreak && b'.offers == b.offers && b'.created == b.created
    decreases |items|
  {
    if items != [] {
      ItemsCoupled(env, cfg, ConsumeItem(env, cfg, a, items[0]), ConsumeItem(env, cfg, b, items[0]), items[1..]);
    }
  }

  lemma AccountedMeansRepresented(env: Env, cfg: Config, a: RunState, offers: seq<Row>, items: seq<Raw>)
    requires a.offers <= offers
    requires forall raw :: raw in items ==> Accounted(env, cfg, a, raw)
    ensures AllRepresented(env, cfg, offers, items)
  {
    forall raw | raw in items && !OutOfRange(env, cfg, raw) && env.validate(env.mapOffer(raw)).Valid?
      ensures Represented(env, offers, env.validate(env.mapOffer(raw)).offer)
    {
      assert Accounted(env, cfg, a, raw);
      RepresentedGrows(env, a.offers, offers, env.validate(env.mapOffer(raw)).offer);
    }
  }

  lemma PageCoupled(env: Env, cfg: Config, a: RunState, b: RunState, cursor: Cursor, page: Page)
    requires a.walked == b.walked && a.seenStreak <= b.seenStreak
    requires Iterate(env, cfg, a, cursor, page).0.offers <= b.offers
    ensures var (a', stopA) := Iterate(env, cfg, a, cursor, page);
            var (b', stopB) := Iterate(env, cfg, b, cursor, page);
            && a'.walked == b'.walked && a'.seenStreak <= b'.seenStreak
            && b'.offers == b.offers && b'.created == b.created
            && (stopA == stopB || stopB == Some(CaughtUp))
  {
    if page.Fetched? {
      var items := page.items;
      PageExtends(env, cfg, a, cursor, page);
      AccountedMeansRepresented(env, cfg, Iterate(env, cfg, a, cursor, page).0, b.offers, items);
      var enteredA := a.(fetched := a.fetched + |items|, walked := a.walked + [cursor]);
      var enteredB := b.(fetched := b.fetched + |items|, walked := b.walked + [cursor]);
      ConsumeItemsTrace(env, cfg, enteredA, items);
      ConsumeItemsTrace(env, cfg, enteredB, items);
      ItemsCoupled(env, cfg, enteredA, enteredB, items);
    }
  }

  lemma {:induction false} RunCoupled(env: Env, cfg: Config, feed: Feed, a: RunState, b: RunState, cursor: Cursor)
    requires a.walked == b.walked && a.seenStreak <= b.seenStreak
    requires b.offers == Run(env, cfg, feed, a, cursor).0.offers
    ensures var (a', stopA) := Run(env, cfg, feed, a, cursor);
            var (b', stopB) := Run(env, cfg, feed, b, cursor);
            && b'.offers == b.offers
            && b'.created == b.created
            && b'.walked <= a'.walked
            && (stopA.FirstPageFailed? <==> stopB.FirstPageFailed?)
            && (b'.walked == a'.walked || stopB == CaughtUp)
    decreases cfg.maxPages - |a.walked|
  {
    if |a.walked| < cfg.maxPages {
      var (a1, stopA) := Iterate(env, cfg, a, cursor, feed(cursor));
      var (b1, stopB) := Iterate(env, cfg, b, cursor, feed(cursor));
      RunStep(env, cfg, feed, a, cursor);
      RunStep(env, cfg, feed, b, cursor);
      if stopA.None? { RunWalks(env, cfg, feed, a1, feed(cursor).next.value); }
      PageCoupled(env, cfg, a, b, cursor, feed(cursor));
      if stopB.None? {
        RunCoupled(env, cfg, feed, a1, b1, feed(cursor).next.value);
      } else if stopA.None? {
        LaterStops(env, cfg, feed, a1, feed(cursor).next.value);
      }
    }
  }

  /** Only the first page can fail the whole run. */
  lemma {:induction false} LaterStops(env: Env, cfg: Config, feed: Feed, st: RunState, cursor: Cursor)
    requires st.walked != []
    ensures !Run(env, cfg, feed, st, cursor).1.FirstPageFailed?
    decreases cfg.maxPages - |st.walked|
  {
    if |st.walked| < cfg.maxPages {
      RunStep(env, cfg, feed, st, cursor);
      PageExtends(env, cfg, st, cursor, feed(cursor));
      var (st', stop) := Iterate(env, cfg, st, cursor, feed(cursor));
      if stop.None? { LaterStops(env, cfg, feed, st', feed(cursor).next.value); }
    }
  }

  /** Whole-run idempotence: a second run over the same feed creates nothing, leaves the offer
      table as it is, succeeds or fails alike, and walks a prefix of the first run's pages
      (all of them unless it notices it has caught up). */
  lemma RunTwice(env: Env, cfg: Config, feed: Feed, offers: seq<Row>, failures: DeadLetters.Table, cursor: Cursor)
    ensures var (first, stop1) := Run(env, cfg, feed, Start(offers, failures), cursor);
            var (second, stop2) := Run(env, cfg, feed, Start(first.offers, first.failures), cursor);
            && second.offers == first.offers
            && second.created == 0
            && second.walked <= first.walked
            && (second.walked == first.walked || stop2 == CaughtUp)
            && ResultOf(second, stop2).ok == ResultOf(first, stop1).ok
  {
    var first := Run(env, cfg, feed, Start(offers, failures), cursor).0;
    RunCoupled(env, cfg, feed, Start(offers, failures), Start(first.offers, first.failures), cursor);
  }

  // ---------------------------------------------------------------- what a run still consumes

  /** The records a run still consumes from here on. */
  ghost function Remaining(env: Env, cfg: Config, feed: Feed, st: RunState, cursor: Cursor): seq<Raw> {
    RunWalks(env, cfg, feed, st, cursor);
    ItemsOf(feed, Run(env, cfg, feed, st, cursor).0.walked[|st.walked|..])
  }

  lemma PageWalks(env: Env, cfg: Config, st: RunState, cursor: Cursor, page: Page)
    ensures Iterate(env, cfg, st, cursor, page).0.walked == st.walked + (if page.Fetched? then [cursor] else [])
  {
    if page.Fetched? {
      ConsumeItemsTrace(env, cfg, st.(fetched := st.fetched + |page.items|, walked := st.walked + [cursor]), page.items);
    }
  }

  lemma RemainingStep(env: Env, cfg: Config, feed: Feed, st: RunState, cursor: Cursor)
    requires |st.walked| < cfg.maxPages
    ensures var (st', stop) := Iterate(env, cfg, st, cursor, feed(cursor));
            && (stop.None? ==> feed(cursor).Fetched? && feed(cursor).next.Some?)
            && Remaining(env, cfg, feed, st, cursor) == PageItems(feed(cursor)) +
                 (if stop.Some? then [] else Remaining(env, cfg, feed, st', feed(cursor).next.value))
  {
    var (st', stop) := Iterate(env, cfg, st, cursor, feed(cursor));
    RunStep(env, cfg, feed, st, cursor);
    PageWalks(env, cfg, st, cursor, feed(cursor));
    if stop.None? {
      RunWalks(env, cfg, feed, st', feed(cursor).next.value);
      UnwalkedStep(feed, st.walked, cursor, Run(env, cfg, feed, st', feed(cursor).next.value).0.walked);
    } else {
      UnwalkedEnd(feed, st.walked, cursor);
    }
  }

  /** The records of a walk beyond a prefix: those of the next page, and the rest. */
  lemma UnwalkedStep(feed: Feed, walked: seq<Cursor>, cursor: Cursor, all: seq<Cursor>)
    requires walked + [cursor] <= all
    ensures ItemsOf(feed, all[|walked|..]) == PageItems(feed(cursor)) + ItemsOf(feed, all[|walked| + 1..])
  {
    var n := |walked|;
    assert all[n] == (walked + [cursor])[n] == cursor;
    assert all[n..] == [cursor] + all[n + 1..];
    assert ([cursor] + all[n + 1..])[1..] == all[n + 1..];
  }

  lemma UnwalkedEnd(feed: Feed, walked: seq<Cursor>, cursor: Cursor)
    ensures ItemsOf(feed, walked[|walked|..]) == []
    ensures ItemsOf(feed, (walked + [cursor])[|walked|..]) == PageItems(feed(cursor))
  {
    assert walked[|walked|..] == [];
    assert (walked + [cursor])[|walked|..] == [cursor];
    OnePage(feed, cursor);
  }

  lemma OnePage(feed: Feed, cursor: Cursor)
    ensures ItemsOf(feed, [cursor]) == PageItems(feed(cursor))
  {
    ItemsOfSnoc(feed, [], cursor);
    assert [] + [cursor] == [cursor];
  }

  /** Whatever a run still consumes is accounted for when it ends. */
  lemma {:induction false} RemainingAccounted(env: Env, cfg: Config, feed: Feed, st: RunState, cursor: Cursor)
    ensures forall raw :: raw in Remaining(env, cfg, feed, st, cursor) ==>
              Accounted(env, cfg, Run(env, cfg, feed, st, cursor).0, raw)
    decreases cfg.maxPages - |st.walked|
  {
    if |st.walked| >= cfg.maxPages {
      assert Run(env, cfg, feed, st, cursor).0.walked[|st.walked|..] == [];
    } else {
      var (st', stop) := Iterate(env, cfg, st, cursor, feed(cursor));
      RunStep(env, cfg, feed, st, cursor);
      RemainingStep(env, cfg, feed, st, cursor);
      PageExtends(env, cfg, st, cursor, feed(cursor));
      if stop.None? {
        var next := feed(cursor).next.value;
        RunWalks(env, cfg, feed, st', next);
        RemainingAccounted(env, cfg, feed, st', next);
        forall raw | raw in PageItems(feed(cursor))
          ensures Accounted(env, cfg, Run(env, cfg, feed, st, cursor).0, raw)
        {
          AccountedExtends(env, cfg, st', Run(env, cfg, feed, st', next).0, raw);
        }
      }
    }
  }
}
