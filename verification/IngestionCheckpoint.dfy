/**
 * Early stops on a feed without repeats: what they cost can be read off the table the run starts
 * from. The catch-up stop (`already_seen_stop_threshold`) in particular.
 */
module IngestionCheckpoint {
  import opened Options
  import opened Offers
  import opened IngestionRunner
  import opened IngestionGuarantees
  import opened IngestionStops
  import DeadLetters

  /** The record reaches the offers table: in range and valid. */
  predicate Ingestible(env: Env, cfg: Config, raw: Raw) {
    !OutOfRange(env, cfg, raw) && env.validate(env.mapOffer(raw)).Valid?
  }

  function OfferOf(env: Env, raw: Raw): Offer
    requires env.validate(env.mapOffer(raw)).Valid?
  {
    env.validate(env.mapOffer(raw)).offer
  }

  function RowOf(env: Env, raw: Raw): Row
    requires env.validate(env.mapOffer(raw)).Valid?
  {
    Row(DedupHash(env, OfferOf(env, raw)), OfferOf(env, raw), raw)
  }

  /** No record of the feed duplicates an earlier one. */
  ghost predicate NoRepeats(env: Env, cfg: Config, items: seq<Raw>) {
    forall i, j :: 0 <= i < j < |items| && Ingestible(env, cfg, items[i]) && Ingestible(env, cfg, items[j]) ==>
      !StandsFor(env, RowOf(env, items[i]), OfferOf(env, items[j]))
  }

  /** Once the feed reaches a record the table already has, it has all the later ones too. */
  ghost predicate KnownTail(env: Env, cfg: Config, known: seq<Row>, items: seq<Raw>) {
    forall i, j :: 0 <= i < j < |items| && Ingestible(env, cfg, items[i]) && Ingestible(env, cfg, items[j]) ==>
      (Represented(env, known, OfferOf(env, items[i])) ==> Represented(env, known, OfferOf(env, items[j])))
  }

  /** Every row is an initial one or comes from a consumed record, and a running streak means some
      consumed record was known from the start. */
  ghost predicate Checkpoint(env: Env, cfg: Config, known: seq<Row>, consumed: seq<Raw>, st: RunState) {
    && known <= st.offers
    && (forall r :: r in st.offers ==>
          r in known || exists i :: 0 <= i < |consumed| && Ingestible(env, cfg, consumed[i]) && r == RowOf(env, consumed[i]))
    && (st.seenStreak > 0 ==>
          exists i :: 0 <= i < |consumed| && Ingestible(env, cfg, consumed[i])
                      && Represented(env, known, OfferOf(env, consumed[i])))
  }

  lemma CheckpointItem(env: Env, cfg: Config, known: seq<Row>, consumed: seq<Raw>, st: RunState, raw: Raw)
    requires Checkpoint(env, cfg, known, consumed, st)
    requires NoRepeats(env, cfg, consumed + [raw])
    ensures Checkpoint(env, cfg, known, consumed + [raw], ConsumeItem(env, cfg, st, raw))
  {
    var st' := ConsumeItem(env, cfg, st, raw);
    var all := consumed + [raw];
    assert forall i :: 0 <= i < |consumed| ==> all[i] == consumed[i];
    assert all[|consumed|] == raw;
    forall r | r in st'.offers
      ensures r in known || exists i :: 0 <= i < |all| && Ingestible(env, cfg, all[i]) && r == RowOf(env, all[i])
    {
      if r in st.offers && r !in known {
        var i :| 0 <= i < |consumed| && Ingestible(env, cfg, consumed[i]) && r == RowOf(env, consumed[i]);
        assert all[i] == consumed[i];
      } else if r !in st.offers {
        assert r == RowOf(env, all[|consumed|]);
      }
    }
    if st'.seenStreak > 0 {
      if st'.seenStreak == st.seenStreak {
        var i :| 0 <= i < |consumed| && Ingestible(env, cfg, consumed[i]) && Represented(env, known, OfferOf(env, consumed[i]));
        assert Ingestible(env, cfg, all[i]) && Represented(env, known, OfferOf(env, all[i]));
      } else {
        var offer := OfferOf(env, raw);
        var r :| r in st.offers && StandsFor(env, r, offer);
        assert r in known;
        assert Represented(env, known, OfferOf(env, all[|consumed|]));
      }
    }
  }

  lemma NoRepeatsPrefix(env: Env, cfg: Config, a: seq<Raw>, b: seq<Raw>)
    requires NoRepeats(env, cfg, a + b)
    ensures NoRepeats(env, cfg, a)
  {
    forall i, j | 0 <= i < j < |a| && Ingestible(env, cfg, a[i]) && Ingestible(env, cfg, a[j])
      ensures !StandsFor(env, RowOf(env, a[i]), OfferOf(env, a[j]))
    {
      assert (a + b)[i] == a[i] && (a + b)[j] == a[j];
    }
  }

  lemma {:induction false} CheckpointItems(env: Env, cfg: Config, known: seq<Row>, consumed: seq<Raw>, st: RunState, items: seq<Raw>)
    requires Checkpoint(env, cfg, known, consumed, st)
    requires NoRepeats(env, cfg, consumed + items)
    ensures Checkpoint(env, cfg, known, consumed + items, ConsumeItems(env, cfg, st, items))
    decreases |items|
  {
    if items == [] {
      assert consumed + items == consumed;
    } else {
      assert consumed + items == (consumed + [items[0]]) + items[1..];
      NoRepeatsPrefix(env, cfg, consumed + [items[0]], items[1..]);
      CheckpointItem(env, cfg, known, consumed, st, items[0]);
      CheckpointItems(env, cfg, known, consumed + [items[0]], ConsumeItem(env, cfg, st, items[0]), items[1..]);
    }
  }

  lemma CheckpointPage(env: Env, cfg: Config, known: seq<Row>, consumed: seq<Raw>, st: RunState, cursor: Cursor, page: Page)
    requires Checkpoint(env, cfg, known, consumed, st)
    requires NoRepeats(env, cfg, consumed + PageItems(page))
    ensures Checkpoint(env, cfg, known, consumed + PageItems(page), Iterate(env, cfg, st, cursor, page).0)
  {
    if page.Fetched? {
      CheckpointItems(env, cfg, known, consumed,
                      st.(fetched := st.fetched + |page.items|, walked := st.walked + [cursor]), page.items);
    } else {
      assert consumed + PageItems(page) == consumed;
    }
  }

  lemma {:induction false} CheckpointRun(env: Env, early: Config, full: Config, feed: Feed, known: seq<Row>,
                                         consumed: seq<Raw>, st: RunState, cursor: Cursor)
    requires StopsSooner(early, full)
    requires Checkpoint(env, full, known, consumed, st)
    requires NoRepeats(env, full, consumed + Remaining(env, early, feed, st, cursor))
    ensures Checkpoint(env, full, known, consumed + Remaining(env, early, feed, st, cursor),
                       Run(env, early, feed, st, cursor).0)
    decreases full.maxPages - |st.walked|
  {
    if |st.walked| >= full.maxPages {
      assert consumed + Remaining(env, early, feed, st, cursor) == consumed;
    } else {
      var (st', stop) := Iterate(env, early, st, cursor, feed(cursor));
      var page := PageItems(feed(cursor));
      RunStep(env, early, feed, st, cursor);
      RemainingStep(env, early, feed, st, cursor);
      PageSooner(env, early, full, st, cursor, feed(cursor));
      if stop.Some? {
        assert consumed + (page + []) == consumed + page;
        CheckpointPage(env, full, known, consumed, st, cursor, feed(cursor));
      } else {
        var rest := Remaining(env, early, feed, st', feed(cursor).next.value);
        assert consumed + (page + rest) == (consumed + page) + rest;
        NoRepeatsPrefix(env, full, consumed + page, rest);
        CheckpointPage(env, full, known, consumed, st, cursor, feed(cursor));
        CheckpointRun(env, early, full, feed, known, consumed + page, st', feed(cursor).next.value);
      }
    }
  }

  /** Without repeats, the rows a run has added stand for none of the records it has not read. */
  lemma UnreadKnownFromStart(env: Env, cfg: Config, known: seq<Row>, consumed: seq<Raw>, rest: seq<Raw>, st: RunState)
    requires Checkpoint(env, cfg, known, consumed, st)
    requires NoRepeats(env, cfg, consumed + rest)
    ensures AllRepresented(env, cfg, st.offers, rest) <==> AllRepresented(env, cfg, known, rest)
  {
    forall raw | raw in rest && Ingestible(env, cfg, raw)
      ensures Represented(env, st.offers, OfferOf(env, raw)) <==> Represented(env, known, OfferOf(env, raw))
    {
      var j :| 0 <= j < |rest| && rest[j] == raw;
      assert (consumed + rest)[|consumed| + j] == raw;
      if Represented(env, known, OfferOf(env, raw)) {
        RepresentedGrows(env, known, st.offers, OfferOf(env, raw));
      }
      if Represented(env, st.offers, OfferOf(env, raw)) {
        var r :| r in st.offers && StandsFor(env, r, OfferOf(env, raw));
        if r !in known {
          var i :| 0 <= i < |consumed| && Ingestible(env, cfg, consumed[i]) && r == RowOf(env, consumed[i]);
          assert (consumed + rest)[i] == consumed[i];
        }
      }
    }
    AllRepresentedIngestible(env, cfg, st.offers, rest);
    AllRepresentedIngestible(env, cfg, known, rest);
  }

  lemma AllRepresentedIngestible(env: Env, cfg: Config, offers: seq<Row>, items: seq<Raw>)
    ensures AllRepresented(env, cfg, offers, items) <==>
              forall raw :: raw in items && Ingestible(env, cfg, raw) ==> Represented(env, offers, OfferOf(env, raw))
  {
    if forall raw :: raw in items && Ingestible(env, cfg, raw) ==> Represented(env, offers, OfferOf(env, raw)) {
      forall raw | raw in items && !OutOfRange(env, cfg, raw) && env.validate(env.mapOffer(raw)).Valid?
        ensures Represented(env, offers, env.validate(env.mapOffer(raw)).offer)
      {
        assert Ingestible(env, cfg, raw);
      }
    }
  }

  /** The run from the start, seen as a checkpoint. */
  lemma RunCheckpoint(env: Env, early: Config, full: Config, feed: Feed, offers: seq<Row>, failures: DeadLetters.Table, cursor: Cursor)
    requires StopsSooner(early, full)
    requires var a := Run(env, early, feed, Start(offers, failures), cursor).0;
             NoRepeats(env, full, ItemsOf(feed, a.walked))
    ensures var a := Run(env, early, feed, Start(offers, failures), cursor).0;
            Checkpoint(env, full, offers, ItemsOf(feed, a.walked), a)
  {
    var st := Start(offers, failures);
    var walked := Run(env, early, feed, st, cursor).0.walked;
    assert walked[0..] == walked;
    assert [] + Remaining(env, early, feed, st, cursor) == ItemsOf(feed, walked);
    CheckpointRun(env, early, full, feed, offers, [], st, cursor);
  }

  /** On a feed without repeats an early stop costs nothing exactly when the table the run started
      from already knew every in-range valid record that is left unread. */
  lemma EarlyStopExactFresh(env: Env, early: Config, full: Config, feed: Feed, offers: seq<Row>, failures: DeadLetters.Table, cursor: Cursor)
    requires StopsSooner(early, full)
    requires var b := Run(env, full, feed, Start(offers, failures), cursor).0;
             NoRepeats(env, full, ItemsOf(feed, b.walked))
    ensures var a := Run(env, early, feed, Start(offers, failures), cursor).0;
            var b := Run(env, full, feed, Start(offers, failures), cursor).0;
            && (a.offers == b.offers <==> AllRepresented(env, full, offers, Unread(feed, a, b)))
            && Checkpoint(env, full, offers, ItemsOf(feed, a.walked), a)
            && ItemsOf(feed, b.walked) == ItemsOf(feed, a.walked) + Unread(feed, a, b)
  {
    var st := Start(offers, failures);
    var a, b := Run(env, early, feed, st, cursor).0, Run(env, full, feed, st, cursor).0;
    EarlyStopExact(env, early, full, feed, st, cursor);
    assert b.walked[..|a.walked|] == a.walked;
    ItemsSplit(feed, b.walked, |a.walked|);
    NoRepeatsPrefix(env, full, ItemsOf(feed, a.walked), Unread(feed, a, b));
    RunCheckpoint(env, early, full, feed, offers, failures, cursor);
    UnreadKnownFromStart(env, full, offers, ItemsOf(feed, a.walked), Unread(feed, a, b), a);
  }

  /** The age stop on a feed without repeats. */
  lemma AgeStopExactFresh(env: Env, cfg: Config, feed: Feed, offers: seq<Row>, failures: DeadLetters.Table, cursor: Cursor)
    requires var full := Run(env, cfg.(sortedByRecency := false), feed, Start(offers, failures), cursor).0;
             NoRepeats(env, cfg.(sortedByRecency := false), ItemsOf(feed, full.walked))
    ensures var off := cfg.(sortedByRecency := false);
            var stopping := Run(env, cfg.(sortedByRecency := true), feed, Start(offers, failures), cursor).0;
            var full := Run(env, off, feed, Start(offers, failures), cursor).0;
            && stopping.walked <= full.walked
            && (stopping.offers == full.offers <==>
                  AllRepresented(env, off, offers, ItemsOf(feed, full.walked[|stopping.walked|..])))
  {
    EarlyStopExactFresh(env, cfg.(sortedByRecency := true), cfg.(sortedByRecency := false), feed, offers, failures, cursor);
    EarlyStopExact(env, cfg.(sortedByRecency := true), cfg.(sortedByRecency := false), feed, Start(offers, failures), cursor);
  }

  // ---------------------------------------------------------------- the catch-up stop

  /** Exactly when stopping on a streak of seen records stores what a forced re-walk would, for
      every feed, table and configuration. */
  lemma CatchUpExact(env: Env, cfg: Config, feed: Feed, offers: seq<Row>, failures: DeadLetters.Table, cursor: Cursor)
    ensures var on := cfg.(forceRefresh := true);
            var plain := Run(env, cfg.(forceRefresh := false), feed, Start(offers, failures), cursor).0;
            var forced := Run(env, on, feed, Start(offers, failures), cursor).0;
            && plain.walked <= forced.walked
            && (plain.offers == forced.offers <==>
                  AllRepresented(env, on, plain.offers, ItemsOf(feed, forced.walked[|plain.walked|..])))
  {
    EarlyStopExact(env, cfg.(forceRefresh := false), cfg.(forceRefresh := true), feed, Start(offers, failures), cursor);
  }

  /** On a feed without repeats: exactly when every unread record was known before the run. */
  lemma CatchUpExactFresh(env: Env, cfg: Config, feed: Feed, offers: seq<Row>, failures: DeadLetters.Table, cursor: Cursor)
    requires var forced := Run(env, cfg.(forceRefresh := true), feed, Start(offers, failures), cursor).0;
             NoRepeats(env, cfg.(forceRefresh := true), ItemsOf(feed, forced.walked))
    ensures var on := cfg.(forceRefresh := true);
            var plain := Run(env, cfg.(forceRefresh := false), feed, Start(offers, failures), cursor).0;
            var forced := Run(env, on, feed, Start(offers, failures), cursor).0;
            && plain.walked <= forced.walked
            && (plain.offers == forced.offers <==>
                  AllRepresented(env, on, offers, ItemsOf(feed, forced.walked[|plain.walked|..])))
  {
    EarlyStopExactFresh(env, cfg.(forceRefresh := false), cfg.(forceRefresh := true), feed, offers, failures, cursor);
    CatchUpExact(env, cfg, feed, offers, failures, cursor);
  }

  /** With a streak running, everything still to come is known. */
  lemma StreakMeansKnown(env: Env, cfg: Config, known: seq<Row>, consumed: seq<Raw>, rest: seq<Raw>, st: RunState)
    requires Checkpoint(env, cfg, known, consumed, st) && st.seenStreak > 0
    requires KnownTail(env, cfg, known, consumed + rest)
    ensures AllRepresented(env, cfg, st.offers, rest)
  {
    var i :| 0 <= i < |consumed| && Ingestible(env, cfg, consumed[i]) && Represented(env, known, OfferOf(env, consumed[i]));
    forall raw | raw in rest && Ingestible(env, cfg, raw)
      ensures Represented(env, st.offers, OfferOf(env, raw))
    {
      var j :| 0 <= j < |rest| && rest[j] == raw;
      assert (consumed + rest)[i] == consumed[i] && (consumed + rest)[|consumed| + j] == raw;
      RepresentedGrows(env, known, st.offers, OfferOf(env, raw));
    }
  }

  /** The incremental checkpoint is sound on a feed whose records are distinct and whose known
      records are a tail: stopping on a streak of seen records stores exactly what a forced
      re-walk of the whole feed would. */
  lemma CatchUpStopIsSound(env: Env, cfg: Config, feed: Feed, offers: seq<Row>, failures: DeadLetters.Table, cursor: Cursor)
    requires cfg.seenThreshold >= 1
    requires var forced := Run(env, cfg.(forceRefresh := true), feed, Start(offers, failures), cursor).0;
             NoRepeats(env, cfg, ItemsOf(feed, forced.walked)) && KnownTail(env, cfg, offers, ItemsOf(feed, forced.walked))
    ensures var plain := Run(env, cfg.(forceRefresh := false), feed, Start(offers, failures), cursor).0;
            var forced := Run(env, cfg.(forceRefresh := true), feed, Start(offers, failures), cursor).0;
            plain.offers == forced.offers && plain.created == forced.created
  {
    var on, off := cfg.(forceRefresh := true), cfg.(forceRefresh := false);
    var st := Start(offers, failures);
    var a, b := Run(env, off, feed, st, cursor).0, Run(env, on, feed, st, cursor).0;
    assert forall raw :: Ingestible(env, cfg, raw) <==> Ingestible(env, on, raw);
    EarlyStopExact(env, off, on, feed, st, cursor);
    EarlyStopExactFresh(env, off, on, feed, offers, failures, cursor);
    var resume := EarlyRunIsPrefix(env, off, on, feed, st, cursor);
    if resume.None? {
      assert b.walked[|a.walked|..] == [];
    } else {
      StreakMeansKnown(env, on, offers, ItemsOf(feed, a.walked), Unread(feed, a, b), a);
      AllRepresentedIngestible(env, on, a.offers, Unread(feed, a, b));
    }
  }

  function KnownThenNew(cursor: Cursor): Page {
    if cursor == 0 then Fetched(["known"], Some(1)) else Fetched(["new"], None)
  }

  function TitlesOnly(): Env {
    Env((raw: Raw) => Mapped(None, raw),
        (m: Mapped) => Valid(Offer(m.fields, "acme", None, None, None, Some("PLN"), None)),
        (s: string) => s, (s: string) => None, (s: string) => s)
  }

  /** A table that holds the one offer stands for it, and not for the other. */
  lemma NewIsNotKnown()
    ensures var env := TitlesOnly();
            var known := [RowOf(env, "known")];
            Represented(env, known, OfferOf(env, "known")) && !Represented(env, known, OfferOf(env, "new"))
  {
    var env := TitlesOnly();
    var known := [RowOf(env, "known")];
    assert "known" != "new" by { assert |"known"| != |"new"|; }
    assert StandsFor(env, known[0], OfferOf(env, "known"));
    assert DedupHash(env, OfferOf(env, "known")) != DedupHash(env, OfferOf(env, "new")) by {
      assert DedupHash(env, OfferOf(env, "known"))[0] == 'k' && DedupHash(env, OfferOf(env, "new"))[0] == 'n';
    }
  }

  /** The stop does lose a new offer that comes after a run of known ones: with a threshold of one,
      a page of a known offer hides the new one behind it. */
  lemma CatchUpStopLosesNewOffers()
    ensures var cfg := Config(1, 2, 1, false, None, None, true, 20.0);
            var known := [RowOf(TitlesOnly(), "known")];
            var plain := Run(TitlesOnly(), cfg, KnownThenNew, Start(known, map[]), 0).0;
            var forced := Run(TitlesOnly(), cfg.(forceRefresh := true), KnownThenNew, Start(known, map[]), 0).0;
            |plain.offers| == 1 && |forced.offers| == 2
  {
    var env := TitlesOnly();
    var off := Config(1, 2, 1, false, None, None, true, 20.0);
    var on := off.(forceRefresh := true);
    var known := [RowOf(env, "known")];
    var st := Start(known, map[]);
    NewIsNotKnown();
    assert ["known"][1..] == [] && ["new"][1..] == [];
    var entered := st.(fetched := 1, walked := [0]);
    assert ConsumeItems(env, off, entered, ["known"]) == ConsumeItem(env, off, entered, "known");
    assert ConsumeItems(env, on, entered, ["known"]) == ConsumeItem(env, on, entered, "known");
    RunStep(env, off, KnownThenNew, st, 0);
    RunStep(env, on, KnownThenNew, st, 0);
    var st1 := Iterate(env, on, st, 0, KnownThenNew(0)).0;
    RunStep(env, on, KnownThenNew, st1, 1);
    var last := st1.(fetched := 2, walked := [0, 1]);
    assert ConsumeItems(env, on, last, ["new"]) == ConsumeItem(env, on, last, "new");
  }
}
