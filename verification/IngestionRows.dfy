/** Where the rows of the two tables come from after an ingestion run, and which rows it leaves alone. */
module IngestionRows {
  import opened Options
  import opened Sequences
  import opened Offers
  import opened IngestionRunner
  import opened IngestionGuarantees
  import opened IngestionCheckpoint
  import opened IngestionStreak
  import opened DeadLetters
  import opened DeadLetterRows

  /** The Fetch Range over the date a record states: both bounds included, an undated record as of now. */
  predicate InBounds(postedAt: Option<real>, cfg: Config) {
    match postedAt
    case Some(date) => (cfg.since.Some? ==> cfg.since.value <= date) && (cfg.until.Some? ==> date <= cfg.until.value)
    case None => (cfg.since.Some? ==> cfg.since.value <= cfg.now) && (cfg.until.Some? ==> cfg.now <= cfg.until.value)
  }

  // ---------------------------------------------------------------- offers

  /** The row came from the record, which is within the bounds and valid. */
  ghost predicate ComesFrom(env: Env, cfg: Config, r: Row, raw: Raw) {
    && InBounds(env.mapOffer(raw).postedAt, cfg)
    && env.validate(env.mapOffer(raw)) == Valid(r.offer)
    && r.rawPayload == raw && r.dedupHash == DedupHash(env, r.offer)
  }

  lemma {:induction false} StoredRows(env: Env, cfg: Config, offers: seq<Row>, items: seq<Raw>)
    ensures offers <= Stored(env, cfg, offers, items)
    ensures forall r :: r in Stored(env, cfg, offers, items) && r !in offers ==>
              exists raw :: raw in items && ComesFrom(env, cfg, r, raw)
    decreases |items|
  {
    if items != [] {
      var n := |items| - 1;
      StoredRows(env, cfg, offers, items[..n]);
      if Ingestible(env, cfg, items[n]) {
        PersistRepresents(env, Stored(env, cfg, offers, items[..n]), OfferOf(env, items[n]), items[n]);
      }
      forall r | r in Stored(env, cfg, offers, items) && r !in offers
        ensures exists raw :: raw in items && ComesFrom(env, cfg, r, raw)
      {
        if r in Stored(env, cfg, offers, items[..n]) {
          var raw :| raw in items[..n] && ComesFrom(env, cfg, r, raw);
          assert raw in items;
        } else {
          assert items[n] in items && ComesFrom(env, cfg, r, items[n]);
        }
      }
    }
  }

  /** Every valid record walked within the bounds is represented. */
  lemma WalkedInRange(env: Env, cfg: Config, feed: Feed, offers: seq<Row>, failures: Table, cursor: Cursor, raw: Raw)
    requires raw in ItemsOf(feed, Run(env, cfg, feed, Start(offers, failures), cursor).0.walked)
    requires InBounds(env.mapOffer(raw).postedAt, cfg) && env.validate(env.mapOffer(raw)).Valid?
    ensures Represented(env, Run(env, cfg, feed, Start(offers, failures), cursor).0.offers, env.validate(env.mapOffer(raw)).offer)
  {
    RunAccounts(env, cfg, feed, offers, failures, cursor);
    assert Accounted(env, cfg, Run(env, cfg, feed, Start(offers, failures), cursor).0, raw);
  }

  /** A run adds rows for walked records within the bounds only, each carrying its record, and leaves
      every valid one of them represented. */
  lemma RunStoresInRange(env: Env, cfg: Config, feed: Feed, offers: seq<Row>, failures: Table, cursor: Cursor)
    ensures var end := Run(env, cfg, feed, Start(offers, failures), cursor).0;
            var items := ItemsOf(feed, end.walked);
            && (forall r :: r in end.offers && r !in offers ==> exists raw :: raw in items && ComesFrom(env, cfg, r, raw))
            && (forall raw :: raw in items && InBounds(env.mapOffer(raw).postedAt, cfg) && env.validate(env.mapOffer(raw)).Valid? ==>
                  Represented(env, end.offers, env.validate(env.mapOffer(raw)).offer))
  {
    var end := Run(env, cfg, feed, Start(offers, failures), cursor).0;
    RunEndsExactly(env, cfg, feed, offers, failures, cursor);
    StoredRows(env, cfg, offers, ItemsOf(feed, end.walked));
    forall raw | raw in ItemsOf(feed, end.walked) && InBounds(env.mapOffer(raw).postedAt, cfg) && env.validate(env.mapOffer(raw)).Valid?
      ensures Represented(env, end.offers, env.validate(env.mapOffer(raw)).offer)
    {
      WalkedInRange(env, cfg, feed, offers, failures, cursor, raw);
    }
  }

  // ---------------------------------------------------------------- dead letters

  /** The record is within the bounds and fails validation. */
  predicate Rejected(env: Env, cfg: Config, raw: Raw) {
    InBounds(env.mapOffer(raw).postedAt, cfg) && env.validate(env.mapOffer(raw)).Invalid?
  }

  /** The dead letter key of a rejected record. */
  function RejectKey(env: Env, raw: Raw): DedupKey
    requires env.validate(env.mapOffer(raw)).Invalid?
  {
    ValidationKey(env.validate(env.mapOffer(raw)).resource)
  }

  /** The key is one of the rejected records'. */
  ghost predicate OfRejected(env: Env, cfg: Config, items: seq<Raw>, key: DedupKey) {
    exists raw :: raw in items && Rejected(env, cfg, raw) && key == RejectKey(env, raw)
  }

  /** What a record makes the run record. */
  function WritesOf(env: Env, cfg: Config, raw: Raw): seq<Write> {
    if Rejected(env, cfg, raw) then [InvalidWrite(cfg, env.validate(env.mapOffer(raw)))] else []
  }

  ghost function Rejections(env: Env, cfg: Config, items: seq<Raw>): seq<Write> {
    FlatMap((raw: Raw) => WritesOf(env, cfg, raw), items)
  }

  lemma ItemWrites(env: Env, cfg: Config, st: RunState, raw: Raw)
    ensures ConsumeItem(env, cfg, st, raw).failures == RecordAll(st.failures, WritesOf(env, cfg, raw))
  {
    var ws := WritesOf(env, cfg, raw);
    if ws != [] {
      assert ws[1..] == [];
      assert RecordAll(st.failures, ws) == RecordFailure(st.failures, ws[0]);
    }
  }

  lemma {:induction false} ItemsWrite(env: Env, cfg: Config, st: RunState, items: seq<Raw>)
    ensures ConsumeItems(env, cfg, st, items).failures == RecordAll(st.failures, Rejections(env, cfg, items))
    decreases |items|
  {
    if items != [] {
      ItemWrites(env, cfg, st, items[0]);
      ItemsWrite(env, cfg, ConsumeItem(env, cfg, st, items[0]), items[1..]);
      RecordAllAppend(st.failures, WritesOf(env, cfg, items[0]), Rejections(env, cfg, items[1..]));
    }
  }

  /** The dead letters so far are those of the rejected records so far. */
  ghost predicate FailuresAre(env: Env, cfg: Config, failures: Table, items: seq<Raw>, st: RunState) {
    st.failures == RecordAll(failures, Rejections(env, cfg, items))
  }

  lemma PageWrites(env: Env, cfg: Config, feed: Feed, failures: Table, st: RunState, cursor: Cursor)
    requires FailuresAre(env, cfg, failures, ItemsOf(feed, st.walked), st) && feed(cursor).Fetched?
    ensures var st' := Iterate(env, cfg, st, cursor, feed(cursor)).0;
            FailuresAre(env, cfg, failures, ItemsOf(feed, st'.walked), st')
  {
    var before, page := ItemsOf(feed, st.walked), feed(cursor).items;
    PageWalks(env, cfg, st, cursor, feed(cursor));
    ItemsOfSnoc(feed, st.walked, cursor);
    ItemsWrite(env, cfg, st.(fetched := st.fetched + |page|, walked := st.walked + [cursor]), page);
    FlatMapAppend((raw: Raw) => WritesOf(env, cfg, raw), before, page);
    RecordAllAppend(failures, Rejections(env, cfg, before), Rejections(env, cfg, page));
  }

  /** All a run records: its rejected records, then the later page that could not be fetched. */
  ghost function RunWrites(env: Env, cfg: Config, feed: Feed, walked: seq<Cursor>, first: Cursor, stop: Stop): seq<Write> {
    Rejections(env, cfg, ItemsOf(feed, walked))
    + (if stop == LaterPageFailed && feed(NextCursor(feed, walked, first)).Failed?
       then [PageFailureWrite(cfg, feed(NextCursor(feed, walked, first)).blockedStatus)] else [])
  }

  lemma OneMoreWrite(t: Table, ws: seq<Write>, w: Write)
    ensures RecordAll(t, ws + [w]) == RecordFailure(RecordAll(t, ws), w)
  {
    RecordAllAppend(t, ws, [w]);
    assert [w][1..] == [];
    assert RecordAll(RecordAll(t, ws), [w]) == RecordAll(RecordFailure(RecordAll(t, ws), w), []);
  }

  lemma {:induction false} RunRecords(env: Env, cfg: Config, feed: Feed, failures: Table, st: RunState, first: Cursor, cursor: Cursor)
    requires FailuresAre(env, cfg, failures, ItemsOf(feed, st.walked), st)
    requires cursor == NextCursor(feed, st.walked, first)
    ensures var (end, stop) := Run(env, cfg, feed, st, cursor);
            end.failures == RecordAll(failures, RunWrites(env, cfg, feed, end.walked, first, stop))
    decreases cfg.maxPages - |st.walked|
  {
    var rejections := Rejections(env, cfg, ItemsOf(feed, st.walked));
    assert rejections + [] == rejections;
    if |st.walked| < cfg.maxPages {
      RunStep(env, cfg, feed, st, cursor);
      var (st', stop) := Iterate(env, cfg, st, cursor, feed(cursor));
      PageWalks(env, cfg, st, cursor, feed(cursor));
      if feed(cursor).Failed? {
        if st.walked != [] { OneMoreWrite(failures, rejections, PageFailureWrite(cfg, feed(cursor).blockedStatus)); }
      } else {
        PageWrites(env, cfg, feed, failures, st, cursor);
        if stop.None? {
          RunRecords(env, cfg, feed, failures, st', first, feed(cursor).next.value);
        } else {
          assert Rejections(env, cfg, ItemsOf(feed, st'.walked)) + [] == Rejections(env, cfg, ItemsOf(feed, st'.walked));
        }
      }
    }
  }

  lemma {:induction false} RejectionMembers(env: Env, cfg: Config, items: seq<Raw>, w: Write)
    ensures w in Rejections(env, cfg, items) <==>
              exists raw :: raw in items && Rejected(env, cfg, raw) && w == InvalidWrite(cfg, env.validate(env.mapOffer(raw)))
  {
    if items != [] {
      RejectionMembers(env, cfg, items[1..], w);
      assert forall raw :: raw in items <==> raw == items[0] || raw in items[1..];
      assert w in WritesOf(env, cfg, items[0]) <==>
               Rejected(env, cfg, items[0]) && w == InvalidWrite(cfg, env.validate(env.mapOffer(items[0])));
    }
  }

  /** The dead letter of a rejected record: recorded just now, with the message of some record rejected
      under its key, and with whatever block tag the row had. */
  ghost predicate RejectedLetter(env: Env, cfg: Config, items: seq<Raw>, before: Table, after: Table, key: DedupKey) {
    && JustRecorded(before, after, key, ValidationFailed, cfg.now)
    && after[key].blockedStatus == (if key in before then before[key].blockedStatus else None)
    && exists raw :: raw in items && Rejected(env, cfg, raw) && RejectKey(env, raw) == key
                     && after[key].errorMessage == env.validate(env.mapOffer(raw)).message
  }

  lemma RejectionRecorded(env: Env, cfg: Config, items: seq<Raw>, tail: seq<Write>, t: Table, raw: Raw)
    requires raw in items && Rejected(env, cfg, raw) && forall w :: w in tail ==> w.key.SourceKey?
    ensures RejectedLetter(env, cfg, items, t, RecordAll(t, Rejections(env, cfg, items) + tail), RejectKey(env, raw))
  {
    var key, ws := RejectKey(env, raw), Rejections(env, cfg, items) + tail;
    RejectionMembers(env, cfg, items, InvalidWrite(cfg, env.validate(env.mapOffer(raw))));
    var i := LastExists(ws, key);
    RecordedRow(t, ws, key, i);
    assert ws[i] in Rejections(env, cfg, items);
    RejectionMembers(env, cfg, items, ws[i]);
    forall w | w in ws && w.key == key
      ensures w.fields.blockedStatus.None?
    {
      assert w in Rejections(env, cfg, items);
      RejectionMembers(env, cfg, items, w);
    }
  }

  /** Rows that neither a rejected record nor the source's page failure names are as they were. */
  lemma OtherLettersKept(env: Env, cfg: Config, items: seq<Raw>, tail: seq<Write>, t: Table, key: DedupKey)
    requires !OfRejected(env, cfg, items, key) && forall w :: w in tail ==> w.key != key
    ensures SameRow(t, RecordAll(t, Rejections(env, cfg, items) + tail), key)
  {
    var ws := Rejections(env, cfg, items) + tail;
    forall w | w in ws
      ensures w.key != key
    {
      RejectionMembers(env, cfg, items, w);
    }
    UntouchedRow(t, ws, key);
  }

  /** The source's dead letter after a later page could not be fetched. */
  predicate PageLetter(cfg: Config, status: Option<int>, before: Table, after: Table) {
    && JustRecorded(before, after, SourceKey(cfg.sourceId), PageFetchFailed, cfg.now)
    && after[SourceKey(cfg.sourceId)].blockedStatus == status
  }

  lemma PageFailureRecorded(cfg: Config, status: Option<int>, ws: seq<Write>, t: Table)
    ensures PageLetter(cfg, status, t, RecordAll(t, ws + [PageFailureWrite(cfg, status)]))
  {
    RecordedRow(t, ws + [PageFailureWrite(cfg, status)], SourceKey(cfg.sourceId), |ws|);
  }

  /** All the dead letters of rejected records, and others kept. */
  ghost predicate LettersOf(env: Env, cfg: Config, items: seq<Raw>, pageFailed: bool, before: Table, after: Table) {
    && (forall raw :: raw in items && Rejected(env, cfg, raw) ==> RejectedLetter(env, cfg, items, before, after, RejectKey(env, raw)))
    && (forall key :: !OfRejected(env, cfg, items, key) && !(key == SourceKey(cfg.sourceId) && pageFailed) ==> SameRow(before, after, key))
  }

  lemma LettersRecorded(env: Env, cfg: Config, items: seq<Raw>, tail: seq<Write>, t: Table)
    requires forall w :: w in tail ==> w.key == SourceKey(cfg.sourceId)
    ensures LettersOf(env, cfg, items, tail != [], t, RecordAll(t, Rejections(env, cfg, items) + tail))
  {
    var after := RecordAll(t, Rejections(env, cfg, items) + tail);
    forall raw | raw in items && Rejected(env, cfg, raw)
      ensures RejectedLetter(env, cfg, items, t, after, RejectKey(env, raw))
    {
      RejectionRecorded(env, cfg, items, tail, t, raw);
    }
    forall key | !OfRejected(env, cfg, items, key) && !(key == SourceKey(cfg.sourceId) && tail != [])
      ensures SameRow(t, after, key)
    {
      OtherLettersKept(env, cfg, items, tail, t, key);
    }
  }

  /** The letters of rejected records, and of the page if one failed, recorded one after the other. */
  lemma WritesRecorded(env: Env, cfg: Config, feed: Feed, walked: seq<Cursor>, first: Cursor, stop: Stop, t: Table)
    requires stop == LaterPageFailed ==> feed(NextCursor(feed, walked, first)).Failed?
    ensures var page, after := feed(NextCursor(feed, walked, first)), RecordAll(t, RunWrites(env, cfg, feed, walked, first, stop));
            && LettersOf(env, cfg, ItemsOf(feed, walked), stop == LaterPageFailed, t, after)
            && (stop == LaterPageFailed ==> PageLetter(cfg, page.blockedStatus, t, after))
  {
    var page, items := feed(NextCursor(feed, walked, first)), ItemsOf(feed, walked);
    if stop == LaterPageFailed {
      LettersRecorded(env, cfg, items, [PageFailureWrite(cfg, page.blockedStatus)], t);
      PageFailureRecorded(cfg, page.blockedStatus, Rejections(env, cfg, items), t);
    } else {
      LettersRecorded(env, cfg, items, [], t);
    }
  }

  lemma LaterPageUnfetched(env: Env, cfg: Config, feed: Feed, offers: seq<Row>, failures: Table, cursor: Cursor)
    ensures var (end, stop) := Run(env, cfg, feed, Start(offers, failures), cursor);
            stop == LaterPageFailed ==> feed(NextCursor(feed, end.walked, cursor)).Failed?
  {
    RunEndsExactly(env, cfg, feed, offers, failures, cursor);
  }

  lemma StartRecords(env: Env, cfg: Config, feed: Feed, offers: seq<Row>, failures: Table, cursor: Cursor)
    ensures var (end, stop) := Run(env, cfg, feed, Start(offers, failures), cursor);
            end.failures == RecordAll(failures, RunWrites(env, cfg, feed, end.walked, cursor, stop))
  {
    assert FailuresAre(env, cfg, failures, ItemsOf(feed, []), Start(offers, failures));
    RunRecords(env, cfg, feed, failures, Start(offers, failures), cursor, cursor);
  }

  /** The dead letters a run leaves: one for each rejected record; the source's own, tagged with the
      status of the page, exactly when a page after the first could not be fetched; every other row as
      it was. */
  lemma RunDeadLetters(env: Env, cfg: Config, feed: Feed, offers: seq<Row>, failures: Table, cursor: Cursor)
    ensures var (end, stop) := Run(env, cfg, feed, Start(offers, failures), cursor);
            var page := feed(NextCursor(feed, end.walked, cursor));
            && LettersOf(env, cfg, ItemsOf(feed, end.walked), stop == LaterPageFailed, failures, end.failures)
            && (stop == LaterPageFailed ==> page.Failed? && PageLetter(cfg, page.blockedStatus, failures, end.failures))
  {
    var (end, stop) := Run(env, cfg, feed, Start(offers, failures), cursor);
    StartRecords(env, cfg, feed, offers, failures, cursor);
    LaterPageUnfetched(env, cfg, feed, offers, failures, cursor);
    WritesRecorded(env, cfg, feed, end.walked, cursor, stop, failures);
  }
}
