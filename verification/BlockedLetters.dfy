/**
 * The dead letters of blocked detail pages, as both families of connectors record them at the end of
 * a run (app/connectors/sitemap_detail.py, app/connectors/pracuj.py).
 */
module BlockedLetters {
  import opened Options
  import opened IngestionRunner
  import opened SitemapDetail
  import opened DeadLetters
  import opened DeadLetterRows

  /** The URL has an open dead letter under its own key, recorded just now and tagged as blocked, and
      due for an automatic retry at every later cutoff. */
  ghost predicate AwaitsRetry(cfg: Config, url: string, before: Table, after: Table) {
    var key := DetailUrlKey(cfg.sourceId, url);
    && JustRecorded(before, after, key, DetailFetchBlocked, cfg.now)
    && after[key].url == Some(url)
    && forall cutoff :: cutoff >= cfg.now ==> Eligible(after, key, cutoff)
  }

  lemma BlockedUrlAwaits(cfg: Config, bs: seq<(string, int)>, url: string, t: Table)
    requires exists b :: b in bs && b.0 == url
    ensures AwaitsRetry(cfg, url, t, RecordAll(t, BlockedWrites(cfg, bs)))
  {
    var ws, key := BlockedWrites(cfg, bs), DetailUrlKey(cfg.sourceId, url);
    var b :| b in bs && b.0 == url;
    var n :| 0 <= n < |bs| && bs[n] == b;
    assert ws[n] in ws && ws[n].key == key;
    var i := LastExists(ws, key);
    RecordedRow(t, ws, key, i);
  }

  /** The last block of a URL decides the status its dead letter is tagged with. */
  lemma LastBlockDecides(cfg: Config, bs: seq<(string, int)>, i: nat, t: Table)
    requires i < |bs| && forall j :: i < j < |bs| ==> bs[j].0 != bs[i].0
    ensures var key := DetailUrlKey(cfg.sourceId, bs[i].0);
            var after := RecordAll(t, BlockedWrites(cfg, bs));
            key in after && after[key].blockedStatus == Some(bs[i].1)
  {
    RecordedRow(t, BlockedWrites(cfg, bs), DetailUrlKey(cfg.sourceId, bs[i].0), i);
  }

  lemma UnblockedRow(cfg: Config, bs: seq<(string, int)>, key: DedupKey, t: Table)
    requires forall b :: b in bs ==> key != DetailUrlKey(cfg.sourceId, b.0)
    ensures SameRow(t, RecordAll(t, BlockedWrites(cfg, bs)), key)
  {
    UntouchedRow(t, BlockedWrites(cfg, bs), key);
  }
}
