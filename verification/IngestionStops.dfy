/**
 * The early stops of the pagination loop: what a run that may stop early stores, compared with
 * one over the same feed that goes on.
 */
module IngestionStops {
  import opened Options
  import opened Offers
  import opened IngestionRunner
  import opened IngestionGuarantees
  import DeadLetters

  /** The two configurations differ in their stop flags only, and `early` stops wherever `full` does. */
  predicate StopsSooner(early: Config, full: Config) {
    && early == full.(sortedByRecency := early.sortedByRecency, forceRefresh := early.forceRefresh)
    && (full.sortedByRecency ==> early.sortedByRecency)
    && (early.forceRefresh ==> full.forceRefresh)
  }

  lemma {:induction false} ItemsIgnoreStops(env: Env, early: Config, full: Config, st: RunState, items: seq<Raw>)
    requires StopsSooner(early, full)
    ensures ConsumeItems(env, early, st, items) == ConsumeItems(env, full, st, items)
    decreases |items|
  {
    if items != [] {
      ItemsIgnoreStops(env, early, full, ConsumeItem(env, early, st, items[0]), items[1..]);
    }
  }

  /** Why `early` leaves the loop where `full` goes on: the age stop or the catch-up stop. */
  ghost predicate CutShort(env: Env, early: Config, full: Config, items: seq<Raw>, st: RunState) {
    || (!full.sortedByRecency && StopsOnAge(env, early, items))
    || (full.forceRefresh && !early.forceRefresh && st.seenStreak >= early.seenThreshold)
  }

  lemma PageSooner(env: Env, early: Config, full: Config, st: RunState, cursor: Cursor, page: Page)
    requires StopsSooner(early, full)
    ensures var (a, stopA) := Iterate(env, early, st, cursor, page);
            var (b, stopB) := Iterate(env, full, st, cursor, page);
            && a == b
            && (stopB.Some? ==> stopA.Some?)
            && (stopA.Some? && stopB.None? ==> CutShort(env, early, full, PageItems(page), a))
  {
    if page.Fetched? {
      ItemsIgnoreStops(env, early, full, st.(fetched := st.fetched + |page.items|, walked := st.walked + [cursor]), page.items);
    }
  }

  /** The end of the early run is the end of the full one, or the full one goes on from there. */
  ghost predicate Resumes(env: Env, early: Config, full: Config, feed: Feed, a: RunState, b: RunState, resume: Option<Cursor>) {
    match resume
    case None => a == b
    case Some(cursor) =>
      && b == Run(env, full, feed, a, cursor).0
      && a.walked != []
      && CutShort(env, early, full, PageItems(feed(a.walked[|a.walked| - 1])), a)
  }

  lemma {:induction false} EarlyRunIsPrefix(env: Env, early: Config, full: Config, feed: Feed, st: RunState, cursor: Cursor)
    returns (resume: Option<Cursor>)
    requires StopsSooner(early, full)
    ensures Resumes(env, early, full, feed, Run(env, early, feed, st, cursor).0, Run(env, full, feed, st, cursor).0, resume)
    decreases full.maxPages - |st.walked|
  {
    resume := None;
    if |st.walked| < full.maxPages {
      PageSooner(env, early, full, st, cursor, feed(cursor));
      RunStep(env, early, feed, st, cursor);
      RunStep(env, full, feed, st, cursor);
      PageExtends(env, early, st, cursor, feed(cursor));
      var (st', stopA) := Iterate(env, early, st, cursor, feed(cursor));
      var stopB := Iterate(env, full, st, cursor, feed(cursor)).1;
      if stopA.None? {
        resume := EarlyRunIsPrefix(env, early, full, feed, st', feed(cursor).next.value);
      } else if stopB.None? {
        resume := Some(feed(cursor).next.value);
      }
    }
  }

  lemma {:induction false} KnownItemsChangeNothing(env: Env, cfg: Config, st: RunState, items: seq<Raw>)
    requires AllRepresented(env, cfg, st.offers, items)
    ensures var st' := ConsumeItems(env, cfg, st, items);
            st'.offers == st.offers && st'.created == st.created
    decreases |items|
  {
    if items != [] {
      KnownItemsChangeNothing(env, cfg, ConsumeItem(env, cfg, st, items[0]), items[1..]);
    }
  }

  lemma KnownPageChangesNothing(env: Env, cfg: Config, st: RunState, cursor: Cursor, page: Page)
    requires AllRepresented(env, cfg, st.offers, PageItems(page))
    ensures var st' := Iterate(env, cfg, st, cursor, page).0;
            st'.offers == st.offers && st'.created == st.created
  {
    if page.Fetched? {
      KnownItemsChangeNothing(env, cfg, st.(fetched := st.fetched + |page.items|, walked := st.walked + [cursor]), page.items);
    }
  }

  lemma {:induction false} KnownTailChangesNothing(env: Env, cfg: Config, feed: Feed, st: RunState, cursor: Cursor)
    requires AllRepresented(env, cfg, st.offers, Remaining(env, cfg, feed, st, cursor))
    ensures var end := Run(env, cfg, feed, st, cursor).0;
            end.offers == st.offers && end.created == st.created
    decreases cfg.maxPages - |st.walked|
  {
    if |st.walked| < cfg.maxPages {
      var (st', stop) := Iterate(env, cfg, st, cursor, feed(cursor));
      RunStep(env, cfg, feed, st, cursor);
      RemainingStep(env, cfg, feed, st, cursor);
      KnownPageChangesNothing(env, cfg, st, cursor, feed(cursor));
      if stop.None? { KnownTailChangesNothing(env, cfg, feed, st', feed(cursor).next.value); }
    }
  }

  /** The records of the pages the full run walks beyond the early one. */
  function Unread(feed: Feed, early: RunState, full: RunState): seq<Raw> {
    if |early.walked| <= |full.walked| then ItemsOf(feed, full.walked[|early.walked|..]) else []
  }

  /** What stopping early costs: nothing exactly when every in-range valid record left unread is
      already represented by what the early run has stored. */
  lemma EarlyStopExact(env: Env, early: Config, full: Config, feed: Feed, st: RunState, cursor: Cursor)
    requires StopsSooner(early, full)
    ensures var a, b := Run(env, early, feed, st, cursor).0, Run(env, full, feed, st, cursor).0;
            && a.walked <= b.walked && a.offers <= b.offers
            && (a.offers == b.offers <==> AllRepresented(env, full, a.offers, Unread(feed, a, b)))
            && (a.offers == b.offers ==> a.created == b.created)
  {
    var a, b := Run(env, early, feed, st, cursor).0, Run(env, full, feed, st, cursor).0;
    var resume := EarlyRunIsPrefix(env, early, full, feed, st, cursor);
    if resume.None? {
      assert b.walked[|a.walked|..] == [];
    } else {
      RunWalks(env, full, feed, a, resume.value);
      assert Unread(feed, a, b) == Remaining(env, full, feed, a, resume.value);
      if a.offers == b.offers {
        RemainingAccounted(env, full, feed, a, resume.value);
        AccountedMeansRepresented(env, full, b, b.offers, Unread(feed, a, b));
      }
      if AllRepresented(env, full, a.offers, Unread(feed, a, b)) {
        KnownTailChangesNothing(env, full, feed, a, resume.value);
      }
    }
  }

  // ---------------------------------------------------------------- the age stop

  /** Exactly when the age stop changes nothing that is stored, for every feed, table and
      configuration. */
  lemma AgeStopExact(env: Env, cfg: Config, feed: Feed, offers: seq<Row>, failures: DeadLetters.Table, cursor: Cursor)
    ensures var off := cfg.(sortedByRecency := false);
            var stopping := Run(env, cfg.(sortedByRecency := true), feed, Start(offers, failures), cursor).0;
            var full := Run(env, off, feed, Start(offers, failures), cursor).0;
            && stopping.walked <= full.walked
            && (stopping.offers == full.offers <==>
                  AllRepresented(env, off, stopping.offers, ItemsOf(feed, full.walked[|stopping.walked|..])))
  {
    EarlyStopExact(env, cfg.(sortedByRecency := true), cfg.(sortedByRecency := false), feed, Start(offers, failures), cursor);
  }

  ghost predicate NewestFirst(env: Env, cfg: Config, items: seq<Raw>) {
    forall i, j :: 0 <= i < j < |items| ==> EffectiveDate(env, cfg, items[i]) >= EffectiveDate(env, cfg, items[j])
  }

  lemma NewestFirstSplit(env: Env, cfg: Config, a: seq<Raw>, b: seq<Raw>)
    requires NewestFirst(env, cfg, a + b)
    ensures NewestFirst(env, cfg, b)
    ensures a != [] && AllOlder(env, cfg, a) ==> AllOlder(env, cfg, b)
  {
    forall i, j | 0 <= i < j < |b|
      ensures EffectiveDate(env, cfg, b[i]) >= EffectiveDate(env, cfg, b[j])
    {
      assert (a + b)[|a| + i] == b[i] && (a + b)[|a| + j] == b[j];
    }
    if a != [] && AllOlder(env, cfg, a) {
      forall raw | raw in b
        ensures OlderThanSince(env, cfg, raw)
      {
        var j :| 0 <= j < |b| && b[j] == raw;
        assert (a + b)[0] == a[0] && (a + b)[|a| + j] == raw;
        assert OlderThanSince(env, cfg, a[0]);
      }
    }
  }

  lemma {:induction false} ItemsOfAppend(feed: Feed, a: seq<Cursor>, b: seq<Cursor>)
    ensures ItemsOf(feed, a + b) == ItemsOf(feed, a) + ItemsOf(feed, b)
  {
    if a == [] {
      assert a + b == b;
    } else {
      assert (a + b)[1..] == a[1..] + b;
      ItemsOfAppend(feed, a[1..], b);
    }
  }

  /** A walk's records: those before its m-th page, and the rest. */
  lemma ItemsSplit(feed: Feed, walked: seq<Cursor>, m: nat)
    requires m <= |walked|
    ensures ItemsOf(feed, walked) == ItemsOf(feed, walked[..m]) + ItemsOf(feed, walked[m..])
  {
    assert walked == walked[..m] + walked[m..];
    ItemsOfAppend(feed, walked[..m], walked[m..]);
  }

  /** The age stop is sound on a newest-first feed: over the records the run without it walks,
      if effective dates never increase, stopping early stores exactly the same offers. */
  lemma AgeStopIsSound(env: Env, cfg: Config, feed: Feed, offers: seq<Row>, failures: DeadLetters.Table, cursor: Cursor)
    requires var full := Run(env, cfg.(sortedByRecency := false), feed, Start(offers, failures), cursor).0;
             NewestFirst(env, cfg, ItemsOf(feed, full.walked))
    ensures var stopping := Run(env, cfg.(sortedByRecency := true), feed, Start(offers, failures), cursor).0;
            var full := Run(env, cfg.(sortedByRecency := false), feed, Start(offers, failures), cursor).0;
            stopping.offers == full.offers && stopping.created == full.created
  {
    var on, off := cfg.(sortedByRecency := true), cfg.(sortedByRecency := false);
    var st := Start(offers, failures);
    var a, b := Run(env, on, feed, st, cursor).0, Run(env, off, feed, st, cursor).0;
    EarlyStopExact(env, on, off, feed, st, cursor);
    var resume := EarlyRunIsPrefix(env, on, off, feed, st, cursor);
    if resume.Some? {
      var n := |a.walked| - 1;
      var page, rest := PageItems(feed(a.walked[n])), Unread(feed, a, b);
      ItemsSplit(feed, b.walked, n);
      assert b.walked[n..] == [a.walked[n]] + b.walked[n + 1..];
      ItemsOfAppend(feed, [a.walked[n]], b.walked[n + 1..]);
      OnePage(feed, a.walked[n]);
      NewestFirstSplit(env, cfg, ItemsOf(feed, b.walked[..n]), page + rest);
      assert AllOlder(env, cfg, page) by { assert forall raw :: raw in page ==> OlderThanSince(env, on, raw); }
      NewestFirstSplit(env, cfg, page, rest);
      assert forall raw :: raw in rest ==> OlderThanSince(env, cfg, raw);
    }
  }

  lemma {:induction false} OlderItemsChangeNothing(env: Env, cfg: Config, st: RunState, items: seq<Raw>)
    requires AllOlder(env, cfg, items)
    ensures ConsumeItems(env, cfg, st, items) == st
    decreases |items|
  {
    if items != [] {
      assert OlderThanSince(env, cfg, items[0]);
      OlderItemsChangeNothing(env, cfg, st, items[1..]);
    }
  }

  function UnorderedFeed(cursor: Cursor): Page {
    if cursor == 0 then Fetched(["old"], Some(1)) else Fetched(["new"], None)
  }

  function TwoDates(): Env {
    Env((raw: Raw) => Mapped(Some(if raw == "new" then 10.0 else 1.0), raw),
        (m: Mapped) => Valid(Offer(m.fields, "acme", None, None, None, Some("PLN"), None)),
        (s: string) => s, (s: string) => None, (s: string) => s)
  }

  /** On a feed that is not newest first the age stop does lose offers, which is why the sitemap
      and listing connectors switch it off. */
  lemma AgeStopLosesOffersOutOfOrder()
    ensures var cfg := Config(1, 2, 20, false, Some(5.0), None, true, 20.0);
            var stopping := Run(TwoDates(), cfg, UnorderedFeed, Start([], map[]), 0).0;
            var full := Run(TwoDates(), cfg.(sortedByRecency := false), UnorderedFeed, Start([], map[]), 0).0;
            |stopping.offers| == 0 && |full.offers| == 1
  {
    var env := TwoDates();
    var cfg := Config(1, 2, 20, false, Some(5.0), None, true, 20.0);
    var off := cfg.(sortedByRecency := false);
    var st := Start([], map[]);
    assert "old" != "new" by { assert "old"[0] != "new"[0]; }
    assert OlderThanSince(env, cfg, "old") && OlderThanSince(env, off, "old");
    OlderItemsChangeNothing(env, cfg, st.(fetched := 1, walked := [0]), ["old"]);
    OlderItemsChangeNothing(env, off, st.(fetched := 1, walked := [0]), ["old"]);
    assert StopsOnAge(env, cfg, ["old"]);
    RunStep(env, cfg, UnorderedFeed, st, 0);
    RunStep(env, off, UnorderedFeed, st, 0);
    var st1 := Iterate(env, off, st, 0, UnorderedFeed(0)).0;
    assert st1 == st.(fetched := 1, walked := [0]);
    RunStep(env, off, UnorderedFeed, st1, 1);
    var entered := st1.(fetched := 2, walked := [0, 1]);
    assert ["new"][1..] == [];
    assert !OutOfRange(env, off, "new");
    assert !Represented(env, entered.offers, env.validate(env.mapOffer("new")).offer);
    assert ConsumeItems(env, off, entered, ["new"]) == ConsumeItem(env, off, entered, "new");
    PageExtends(env, off, st1, 1, UnorderedFeed(1));
  }

}
