# recruFlow in Dafny

recruFlow collects job offers from several job boards, scores them against a candidate's profile
with a local language model, and keeps what failed in a dead letter queue for another try. This
project models the parts of it that loop, carry state from one run to the next or are shared
between threads, and proves what they guarantee: not on examples, but for every feed, page, table,
schedule and run.

| part | files |
|---|---|
| dead letter queue and its retry protocol | `DeadLetters`, `DeadLetterRows`, `RetryQueue`, `RetryOutcomes` |
| offers table and two-key duplicate check | `Offers` |
| pagination loop with its three early stops | `IngestionRunner`, `IngestionGuarantees`, `IngestionStops`, `IngestionCheckpoint`, `IngestionStreak`, `IngestionRows` |
| sitemap connectors and their persisted cursor | `SitemapDetail`, `BlockedLetters`, `SitemapCoverage`, `DetailFetch` |
| Pracuj.pl connector and its listing cursor | `PracujListing`, `PracujCoverage`, `PracujOutcomes` |
| CV page layout: rows, columns, reading order | `PageRows`, `PageColumns`, `PageText`, `PageLines`, `PageOrder`, `PageThresholds`, over `StableSort`, `Splitting`, `TextTokens` |
| fingerprint bag | `Fingerprints`, `FingerprintCombos` |
| proxy pool shared by threads | `ProxyPools`, `ProxyPoolThreads` |
| score arithmetic and phrase matching | `MatchScore`, `Phrases` |
| concurrent scoring and the batch backlog | `ConcurrentScoring`, `BatchScoring`, `BatchOrder` |
| shared vocabulary | `Options`, `Sequences` |

Code that changes things in place is modelled as classes and loops (`Queue`, `OfferTable`,
`IngestionRun`, `UrlWalk`, `SitemapConnector`, `PracujConnector`, `FingerprintPool`, `ProxyPool`,
`MatcherOutput`, `Scorer`), each method proved equal to a specification function; the theorems are
lemmas about those functions. Code that is an expression is a function. What the program does not
decide itself (what a site answers, what the model returns, what a shuffle, a random choice or a
scrape yields, how a connector maps a record, whether validation accepts it, in which order
threads and tasks run) is an argument, and every theorem holds for all of its values.

Coordinates, weights, scores and dates are mathematical reals. Each run has one clock value.

## What the proofs found

- **Age stop.** Stopping at a page wholly older than `since` changes nothing that is stored exactly
  when every in-range valid record on the pages it leaves unread is already represented by what the
  run has stored (`IngestionStops.AgeStopExact`), or, on a feed without repeats, by the table the run
  started from (`IngestionCheckpoint.AgeStopExactFresh`). A newest-first feed is one such case
  (`IngestionStops.AgeStopIsSound`); on a feed that is not, an offer can be lost
  (`IngestionStops.AgeStopLosesOffersOutOfOrder`).
- **Catch-up stop.** The same condition decides when stopping on a streak of seen offers stores what
  a forced re-walk would (`IngestionCheckpoint.CatchUpExact`, `IngestionCheckpoint.CatchUpExactFresh`).
  It holds when the feed's records are distinct and those already known form its tail
  (`IngestionCheckpoint.CatchUpStopIsSound`); a new offer behind a run of known ones is lost
  (`IngestionCheckpoint.CatchUpStopLosesNewOffers`).
  A run ends in it if and only if it is not forced and its last page has a successor, does not stop it
  on age, and leaves the last `already_seen_stop_threshold` in-range valid records all known before
  they were read (`IngestionStreak.CaughtUpExactly`).
- **Attempt budget.** A dead letter gets at most `max_attempts` automatic retries in its whole
  life, as far as its retries return. A turn raises exactly when the row is within budget and either
  its stored `failure_type` is outside the enum (`app/dlq/retry.py:147-150`; the column is free text)
  or its handler raises. It is rolled back, so the row is never charged, and everything after it in
  the tick is left undone: a selected row is charged exactly when it is within budget and neither it
  nor a row before it raises (`RetryQueue.TickAbortsIffRaises`, `RetryQueue.RowChargedExactly`,
  `RetryQueue.RaisingRowIsNeverCharged`, `RetryQueue.RaiseStarvesTheRest`).
- **Cooldown.** `docs/architecture/ingestion.md:743-770` speaks of a cooldown between automatic
  retries. It restarts exactly when a failed retry marks the row or records a failure of it
  (`RetryOutcomes.FailedRetryCoolsDown`). A detail retry that returns false without being blocked, on a
  page it cannot fetch or parse, does neither (`app/connectors/sitemap_detail.py:305-310`), so the very
  next tick may take the row again until its budget is spent (`RetryOutcomes.UnmarkedRetryHasNoCooldown`).
- **Dedup hash.** It identifies offers by URL, or by title, company and location, only as long as
  the title and the company hold no "|" (`Offers.SameHashIff`); one that does can be taken for another
  and is then never stored (`Offers.BarsCollide`).
- **Block tag.** Once a dead letter is tagged as block-caused it stays so through any series of later
  failures, unless the last one to pass a block status passes a null one (`RetryQueue.BlockTagSticks`).
- **Filtered sitemap runs** start from the cursor unfiltered runs have left, without moving it. If
  that cursor is a later position of the filtered list (0 < cursor < length) they never fetch the
  head of the list, however often they run; otherwise it resolves to 0 and they do
  (`SitemapCoverage.FilteredRunsReachHead`, `SitemapCoverage.FilteredRunsCoverAll`,
  `SitemapCoverage.FilteredRunsMissTheHead`).
- **Pracuj.pl cap.** The collection cap drops a record exactly when the consumed pages hold more
  than `page_size * max_pages` of them (`PracujCoverage.CollectedUpToCap`), and skips a blocked URL
  exactly when one comes after the candidate that fills the cap (`PracujCoverage.BlocksUpToCap`). One
  page with two offers shows both when one is asked for (`PracujCoverage.CapDropsSecondOffer`).
- **Pracuj.pl incremental runs** store the same listing cursor as a forced run, so they pass over the
  collected records that the catch-up stop leaves; they store the same offers exactly when each of
  those is already represented (`PracujCoverage.IncrementalRunExact`,
  `PracujCoverage.IncrementalRunLosesNewOffers`).
- **Scoring that raises.** The backlog drains after ceil(total/limit) completed runs, but a page on
  which every run raises stays at its head, and nothing behind it is ever scored
  (`BatchScoring.BacklogDrains`, `BatchScoring.RaisingPageStarves`).
- **Column starts.** A start of a recurring column is indexed into that column exactly when it is at
  or right of the mean of its cluster, and into the column before it otherwise
  (`PageColumns.StartLandsInItsColumn`, `PageColumns.StartLeftOfItsColumn`). The comment at `app/cv/text_extraction.py:72-74` speaks of
  the column's left edge; the code uses the mean.
- **Fingerprints.** The docstring at `app/connectors/fingerprint.py:14-17` says consecutive calls
  never repeat; this needs at least two combos (`Fingerprints.SingleComboRepeats`), which the
  shipped table of 1398 has.
- **Phrases that begin or end in a symbol.** The `\b` on either side of the pattern at
  `app/llm/matcher.py:188` and `app/llm/matcher.py:206` makes a phrase such as "c++" match only where
  a word character directly follows it, and one such as ".net" only where one directly precedes it,
  so a required skill of that kind is not found when it stands on its own
  (`Phrases.SymbolEndingNeedsWordAfter`, `Phrases.SymbolBeginningNeedsWordBefore`,
  `Phrases.CPlusPlusNotFound`, `Phrases.DotNetNotFound`).

## Model

| member | source | states |
|---|---|---|
| RetryQueue.Queue.Record | app/dlq/service.py:44-65 | one row per dedup key: inserts, or reopens and overwrites only the columns passed; the retry count survives |
| RetryQueue.Queue.Retry | app/dlq/retry.py:146-159 | success resolves, failure leaves the row to its handler's mark or to failures recorded meanwhile; a row loaded with an unknown type, or a raise, commits nothing |
| RetryQueue.Queue.TakeRowTurn | app/dlq/retry.py:200-213 | a row out of budget is abandoned without a retry, any other is charged once and retried; a raise leaves the table as it was |
| RetryQueue.Queue.RunDetailRetryBatch | app/dlq/retry.py:170-217 | the whole tick over the eligible rows, each dispatched on the failure type it was selected with: final table, four counters, and whether a raise cut it short |
| RetryQueue.SummaryBalances | app/dlq/retry.py:196-217 | attempted = resolved + still_blocked; attempted + abandoned = rows selected exactly when no turn raised, fewer otherwise |
| RetryQueue.TurnVerdict | app/dlq/retry.py:200-213 | an open row is counted as resolved if and only if its handler succeeded, and given up if and only if its budget is spent |
| RetryQueue.TallyMatchesVerdicts | app/dlq/retry.py:196-217 | over a completed tick `resolved` and `still_blocked` are the numbers of selected in-budget rows whose handlers did and did not succeed, and `abandoned` that of the rows out of budget, whatever the handlers record meanwhile |
| RetryQueue.BlockTagSticks | app/dlq/service.py:54-63 | through any series of later failures a block-tagged row keeps its tag if and only if the last of them to pass a block status does not pass a null one, and exactly then it is eligible again once the cooldown since the last failure is over |
| RetryQueue.RecordAllKeepsCounts | app/dlq/service.py:54-63 | no sequence of recorded failures changes any row's retry count: reopening does not refill the budget |
| RetryQueue.BoundedAutoRetries | app/dlq/retry.py:200-213 | over any interleaving of failures, manual retries and automatic turns, the retry count counts the automatic retries exactly and a resource gets at most `max_attempts` of them in its life |
| RetryQueue.TickIsHistory | app/dlq/retry.py:200-217 | a tick is one such history: all its rows' turns, or exactly those before the row whose turn raised |
| RetryQueue.TickCounts | app/dlq/retry.py:200-213 | one tick charges a row if and only if it gets through the row's turn and the row is within budget, and then once |
| RetryQueue.RowLeavesOpen | app/dlq/retry.py:188-213 | with no failure recorded by anything but its own retry, over ticks that get as far as this row, it is eligible in at most one tick more than it has attempts left (in one if it is past its budget), and after that many it is no longer open |
| RetryQueue.ServedIffNoneRaises | app/dlq/retry.py:147-150 | a tick gets through a selected row's turn if and only if neither it nor a row before it is within budget with an unknown failure type or a handler that raises |
| RetryQueue.RowChargedExactly | app/dlq/retry.py:200-213 | a selected row is charged if and only if it is within budget and neither it nor a row before it raises |
| RetryQueue.TickAbortsIffRaises | app/dlq/retry.py:147-150 | a tick reaches all its rows if and only if none of them is within budget with an unknown failure type or a handler that raises |
| RetryQueue.RaisingRowIsNeverCharged | app/dlq/retry.py:207-209 | a row of unknown failure type, or whose handler raises, keeps its retry count through every tick |
| RetryQueue.RaiseStarvesTheRest | app/dlq/retry.py:200-213 | two blocked rows, the first of unknown type or with a handler that raises: the tick aborts with the table unchanged, though alone the second would have been resolved |
| RetryOutcomes.RowAfterTurn | app/dlq/retry.py:146-213 | an open row's turn, column by column: at the budget it becomes abandoned and nothing else in the table changes; within it the row is charged and either resolved as of now, or left open as of when it was marked or last recorded |
| RetryOutcomes.RowAfterTick | app/dlq/retry.py:196-217 | a selected row that the tick reaches, and of which no later row's handler records a failure, ends abandoned if and only if its budget was spent, and resolved if and only if it was within budget and its handler succeeded |
| RetryOutcomes.OwnRowAfterTick | app/dlq/retry.py:196-217 | with no failure recorded by another row's handler, a row given up changes in its status only, and a retried one is as its own turn leaves it |
| RetryOutcomes.FailedRetryCoolsDown | app/dlq/retry.py:39-41 | after a failed retry the row is eligible again if and only if its tag is left and `min_age` has passed since the retry, if its handler marked it, or else since the last failure recorded of it |
| RetryOutcomes.UnmarkedRetryHasNoCooldown | app/dlq/retry.py:78-82 | a retry that fails without marking the row or recording a failure of it leaves it eligible at every cutoff at which it was |
| RetryOutcomes.ManualRetry | app/dlq/retry.py:146-159 | a retry by hand of a row of any status is not charged; success resolves it as of now, failure leaves it to its mark or to what was recorded, and a raise or an unknown type changes nothing |
| RetryOutcomes.SpentBudgetStaysSpent | app/dlq/retry.py:200-205 | once a row's budget is spent no history of failures, manual retries and ticks retries it automatically again: any turn it gets while open gives it up, changing its status only |
| DeadLetterRows.RecordedRow | app/dlq/service.py:44-65 | after any series of recorded failures a row they name is open, unresolved, as of the last of them, with its type, message and the columns it passed; columns none of them passed and the retry count are as before |
| DeadLetterRows.UntouchedRow | app/dlq/service.py:44-65 | a row none of them names is as before, absent or present |
| Offers.OfferTable.FindContentDuplicate | app/ingestion/persist.py:52-65 | finds a row with the same company, title and null-safe salary triple, if and only if there is one |
| Offers.OfferTable.FindByHash | app/ingestion/persist.py:86-95 | finds the row holding a dedup hash, if and only if there is one |
| Offers.OfferTable.PersistOffer | app/ingestion/persist.py:68-96 | appends a row exactly when every stored row differs in the dedup hash and in company, title or one of the salary columns, reports `created` accordingly, and returns a row that stands for the offer |
| Offers.PersistRepresents | app/ingestion/persist.py:68-96 | after a persist the offer is represented by content key or hash, and nothing stored before is lost |
| Offers.PersistKeepsKeysUnique | app/ingestion/persist.py:52-96 | each of the two keys, if unique before, is unique after |
| Offers.SameHashIff | app/ingestion/dedup.py:18-31 | with SHA-256 free of collisions and no bar in the texts: two offers share a hash if and only if both have a comparable URL and it is the same, or neither has one and title, company and location are the same up to folding |
| Offers.BarsCollide | app/ingestion/dedup.py:24-31 | two different offers without URL, one with a bar in its title and one in its company, share a hash, and the second is never stored after the first |
| IngestionRunner.IngestionRun.IngestItem | app/ingestion/runner.py:136-163 | one record: out of range touches nothing, invalid becomes a dead letter, new is stored and resets the streak, known extends it |
| IngestionRunner.IngestionRun.PersistPage | app/ingestion/runner.py:127-163 | a page's records in order, and the age flag if and only if the feed claims recency and every record is older than `since` |
| IngestionRunner.IngestionRun.Step | app/ingestion/runner.py:99-183 | one iteration: first-page failure, later failure recorded, or the page consumed and the three stop rules in their order |
| IngestionRunner.IngestionRun.RunPaginated | app/ingestion/runner.py:87-188 | the loop: final tables, counters and result for every feed |
| IngestionGuarantees.RunAccounts | app/ingestion/runner.py:87-188 | the table only grows, keys stay unique, `created` is the growth, `fetched` counts the walked pages' records, the walk is a chain of at most `max_pages` pages, and every record on it is out of range, an open dead letter, or represented by a row |
| IngestionGuarantees.RunExtends | app/ingestion/runner.py:91-186 | the same from any point of a run: no later iteration undoes what an earlier one accounted for |
| IngestionGuarantees.RunTwice | app/ingestion/runner.py:87-188 | a second run over the same feed creates nothing, changes no offer, succeeds or fails alike, and walks a prefix of the first run's pages, shorter only by the catch-up stop |
| IngestionStreak.RunKeepsAccount | app/ingestion/runner.py:91-163 | from any point of a run, after every page and every record within it, the table is the records read persisted in turn, and the streak is the number of in-range valid records read since the one that last grew the table, or since the start |
| IngestionStreak.RunEndsExactly | app/ingestion/runner.py:91-188 | exactly why a run ends, told from the pages walked and the records on them: the last page's age, the end of the feed, the catch-up stop, in this order, or else the page budget, or else a page that cannot be fetched; and no earlier page was such a last one |
| IngestionStreak.CaughtUpExactly | app/ingestion/runner.py:156-183 | a run ends as caught up if and only if it is not forced and its last page has a successor, does not stop it on age, and the last `already_seen_stop_threshold` in-range valid records were all represented before they were read |
| IngestionStreak.RunReports | app/ingestion/runner.py:101-188 | the result is a failure, with that page's block status and nothing changed, if and only if the first page cannot be fetched, and otherwise gives the records on the pages walked and the growth of the table |
| IngestionRows.RunStoresInRange | app/ingestion/runner.py:133-161 | every row a run adds carries a walked valid record dated within both bounds, an undated one counting as now, and every such record is represented |
| IngestionRows.RunDeadLetters | app/ingestion/runner.py:99-155 | every in-range record that fails validation leaves an open dead letter of that type, with the message of a record rejected under its key and the row's block tag kept, a later page that cannot be fetched the source's own with that page's status, recorded as of now with their budgets kept; every other dead letter is unchanged |
| IngestionStops.EarlyRunIsPrefix | app/ingestion/runner.py:165-183 | a run whose stop flags differ only by stopping sooner ends as the longer run does, or the longer run goes on from exactly its end |
| IngestionStops.EarlyStopExact | app/ingestion/runner.py:165-183 | whatever the flags, stopping sooner stores the same offers if and only if every in-range valid record left unread is represented by what the shorter run stored |
| IngestionStops.AgeStopExact | app/ingestion/runner.py:165-169 | the same for the age stop, for every feed, table and configuration |
| IngestionStops.AgeStopIsSound | app/ingestion/runner.py:130-169 | on a newest-first feed the run with the age stop stores exactly the offers, and reports the `created`, of the run without it |
| IngestionCheckpoint.CatchUpStopIsSound | app/ingestion/runner.py:174-183 | when records are distinct and the known ones are a tail, the incremental run stores exactly what a forced one does |
| IngestionStops.AgeStopLosesOffersOutOfOrder | app/ingestion/runner.py:165-169 | a two-page feed, oldest first, on which the age stop loses an offer |
| IngestionCheckpoint.EarlyStopExactFresh | app/ingestion/runner.py:165-183 | on a feed without repeats an early stop costs nothing if and only if the table at the start already represented every in-range valid record left unread |
| IngestionCheckpoint.AgeStopExactFresh | app/ingestion/runner.py:165-169 | the same for the age stop |
| IngestionCheckpoint.CatchUpExact | app/ingestion/runner.py:174-183 | the incremental run stores what a forced one does if and only if every record it leaves unread is represented by what it has stored, for every feed, table and configuration |
| IngestionCheckpoint.CatchUpExactFresh | app/ingestion/runner.py:174-183 | on a feed without repeats: if and only if they were all known before the run |
| IngestionCheckpoint.CatchUpStopLosesNewOffers | app/ingestion/runner.py:174-183 | a page of one known offer hides the new one on the next page at threshold one |
| SitemapDetail.ResolveCursor | app/connectors/sitemap.py:15-21 | the stored cursor if it is in range, otherwise 0; always a position of a non-empty list |
| SitemapDetail.UrlWalk.FetchPage | app/connectors/sitemap_detail.py:155-182 | parsed records of the block in order, blocked URLs appended, `last_cursor` set to the next position or to none at the end |
| SitemapDetail.SitemapConnector.WalkPages | app/connectors/sitemap_detail.py:184-202 | the ingestion loop driven by that closure: result, blocked list and last cursor are those of the pages walked |
| SitemapDetail.SitemapConnector.RecordBlocked | app/connectors/sitemap_detail.py:203-213 | every blocked URL is recorded, in order, under its own key, and nothing else changes |
| SitemapDetail.SitemapConnector.RunOverUrls | app/connectors/sitemap_detail.py:125-216 | the run from the resolved cursor, its dead letters, and the cursor it persists, or leaves alone when told to |
| SitemapCoverage.OneRun | app/connectors/sitemap_detail.py:151-215 | one run fetches a contiguous block of at least one page from the resolved cursor up to the cursor it persists, or to the end of the list, whichever stop rule ends it |
| SitemapCoverage.EveryUrlAttempted | app/connectors/sitemap_detail.py:147-215 | from any persisted cursor c, ceil((n-c)/p) + ceil(c/p) runs attempt every one of the n URLs |
| SitemapCoverage.NothingBehindTheCursor | app/connectors/sitemap_detail.py:151-152 | a run fetches no URL before its resolved cursor |
| SitemapCoverage.AttemptsExactly | app/connectors/sitemap_detail.py:151-215 | a run fetches a URL if and only if it lies between the resolved cursor and the cursor the run ends at |
| SitemapCoverage.NoBudgetNoMove | app/connectors/sitemap_detail.py:151-215 | with no page budget a run fetches nothing and persists the position its cursor resolved to |
| SitemapCoverage.FilteredRunsReachHead | app/connectors/sitemap_detail.py:151-152 | any number of runs that leave the cursor alone fetch the head of their list if and only if the stored cursor is not a later position of it |
| SitemapCoverage.FilteredRunsCoverAll | app/connectors/sitemap_detail.py:255-267 | they fetch the whole list if and only if, besides, one of them walks to its end |
| SitemapCoverage.FilteredRunsMissTheHead | app/connectors/sitemap_detail.py:255-267 | with the cursor at 1, the first of two filtered URLs is never fetched |
| SitemapCoverage.BlockPartition | app/connectors/sitemap_detail.py:164-178 | parsed, blocked and skipped URLs of a block add up to its length |
| SitemapCoverage.VisitedUrlsClassified | app/connectors/sitemap_detail.py:155-213 | every visited URL is parsed and accounted for by ingestion, or skipped, or blocked, and then it has an open dead letter under its own key with its URL, of the blocked type, with the status of its last blocked attempt, eligible for retry at every cutoff from now on; the three counts add up to the block, and no other dead letter but those of rejected records changes |
| Sequences.StepsIsCeiling | app/connectors/sitemap_detail.py:180-181 | the number of runs in the coverage bounds is division rounded up |
| DetailFetch.TryOnce | app/connectors/sitemap_detail.py:75-113 | one attempt: a proxy drawn from the pool, topped up if it was empty, the reply through it, and its eviction unless a page came back |
| DetailFetch.FetchDetailHtml | app/connectors/sitemap_detail.py:72-123 | the loop over the attempts: result, attempts made and the pool they leave, on a cold pool as on a warm one |
| DetailFetch.FetchOutcome | app/connectors/sitemap_detail.py:72-123 | the first page within the attempts wins; without one the fetch is blocked, with that status, if and only if the last attempt that had a proxy ended in 403 or 429 |
| DetailFetch.AttemptsRotate | app/connectors/sitemap_detail.py:74-111 | no attempt goes through a proxy that failed earlier in the fetch, unless the pool ran dry in between |
| DetailFetch.FetchTakesOutFailures | app/connectors/sitemap_detail.py:74-113 | as long as the pool does not run dry, the fetch takes out of it exactly the proxies that failed: one that brought a page stays |
| PracujListing.PracujConnector.FetchOfferDetails | app/connectors/pracuj.py:153-195 | candidates in order, stopping at the cap; blocked ones listed, failed ones skipped |
| PracujListing.PracujConnector.CandidateUrls | app/connectors/pracuj.py:270-276 | the groups' URLs in listing order |
| PracujListing.PracujConnector.CollectOffers | app/connectors/pracuj.py:198-291 | what is collected and blocked, whether the first or a later listing page failed, and the next start page |
| PracujListing.PracujConnector.RunUnfiltered | app/connectors/pracuj.py:553-669 | one unfiltered run: final tables, result and stored listing cursor |
| PracujCoverage.CollectedUpToCap | app/connectors/pracuj.py:179-195 | what is collected is a prefix of the consumed pages' records of at most `page_size * max_pages`, and all of them if and only if they fit |
| PracujCoverage.CapDropsNothing | app/connectors/pracuj.py:244-291 | if no page has more than `page_size` candidates, every record and every block of the consumed pages is kept |
| PracujCoverage.BlocksUpToCap | app/connectors/pracuj.py:179-195 | the consumed pages' candidates are fetched in order up to the one that fills the cap; all their blocks are kept if and only if no later candidate is blocked, all their records if and only if none has one; only the last page consumed can be cut |
| PracujCoverage.CapDropsSecondOffer | app/connectors/pracuj.py:179-181 | a page with two offers in one group, asked for with `page_size` and `max_pages` one: the second's record or block is dropped and the cursor moves on |
| PracujCoverage.ForcedRunHandsOverAll | app/connectors/pracuj.py:630-655 | a forced unfiltered run hands every collected record to ingestion exactly once, in order, and accounts for each |
| PracujCoverage.IncrementalRunExact | app/connectors/pracuj.py:637-668 | an incremental run stores the same listing cursor as a forced one, and the same offers if and only if every collected record it leaves unread is represented by what it stored |
| PracujCoverage.IncrementalRunLosesNewOffers | app/connectors/pracuj.py:637-668 | a board whose first page holds a known offer and whose second a new one: the incremental run stops at the first, and its cursor passes both |
| PracujCoverage.CursorHasNoGap | app/connectors/pracuj.py:247-291 | the next start page is the first page not consumed (the failed one, if one failed), or 1 exactly when the last page consumed was short or the next one was fetched and empty; failure is reported exactly when the first page failed, and a failed page with its own status |
| PracujCoverage.RunOnceStoresCursor | app/connectors/pracuj.py:568-668 | the run stores that page as its cursor; when its first listing page fails it changes nothing and is not ok |
| PracujCoverage.OneRun | app/connectors/pracuj.py:568-668 | over a finite listing, a run whose first page can be fetched consumes at least that page and moves on, or wraps past the end; any other leaves the cursor |
| PracujCoverage.EveryPageConsumed | app/connectors/pracuj.py:568-668 | from any stored cursor, `last + 1` runs that fetch their first page consume every page of the listing |
| PracujOutcomes.FetchedOffersClassified | app/connectors/pracuj.py:590-669 | every candidate a run fetches is a collected record, or yields nothing, or is blocked and has an open dead letter of its own, due for retry, with the status of the URL's last block; collected records that were read, all of them in a forced run, are accounted for; a later listing page that fails leaves the source's dead letter open with that page's status; no other dead letter but those of rejected records changes |
| PracujOutcomes.FailedListingReported | app/connectors/pracuj.py:610-617 | a run whose first listing page cannot be fetched changes nothing and reports that page's status |
| PageRows.GroupIntoRows | app/cv/text_extraction.py:45-59 | the word-at-a-time loop builds the greedy rows of the words ordered by top |
| PageRows.GroupsFromIsGreedy | app/cv/text_extraction.py:49-58 | closing a row at the first far word yields maximal groups measured from each row's first word |
| PageRows.RowsShape | app/cv/text_extraction.py:45-59 | rows are a rearrangement of the words, non-empty, of vertical extent at most the tolerance, and left to right |
| PageRows.FewestRows | app/cv/text_extraction.py:45-59 | no family of groups of that extent covers the words with fewer groups |
| PageRows.RowsCover | app/cv/text_extraction.py:45-59 | the rows are such a family, so their number is the minimum |
| PageRows.RowsDescendThePage | app/cv/text_extraction.py:49-58 | no word of a row lies below a word of a later row |
| PageThresholds.TwoWordRows | app/cv/text_extraction.py:25-50 | two words share a row if and only if their tops are at most 3 apart |
| PageThresholds.TwoWordSegments | app/cv/text_extraction.py:24-68 | two words of a row are split, and the second's left edge collected, if and only if the gap is at least 10 |
| PageThresholds.TwoStartClusters | app/cv/text_extraction.py:26-87 | two starts are clustered if and only if the second is at most 12 to the right |
| PageThresholds.ThirdStartOpensColumn | app/cv/text_extraction.py:27-91 | two rows with a common start give no boundary, a third within tolerance makes their mean one |
| PageColumns.RowSegments | app/cv/text_extraction.py:62-68 | the loop splits a row at its gaps |
| PageColumns.SegmentsSplitAtGaps | app/cv/text_extraction.py:62-68 | segments concatenate to the row, are non-empty, hold no gap inside and have a gap between neighbours |
| PageColumns.GapStartsAreSegmentStarts | app/cv/text_extraction.py:62-80 | the starts collected for boundaries are the left edges of a row's segments after the first: the two passes break rows alike |
| PageColumns.FindColumnBoundaries | app/cv/text_extraction.py:71-91 | the three loops compute the sorted means of the recurring clusters of sorted starts |
| PageColumns.ClustersAreComponents | app/cv/text_extraction.py:82-87 | two starts share a cluster if and only if a chain of starts, each within tolerance of the next, connects them |
| PageColumns.MeanBetween | app/cv/text_extraction.py:89-91 | a boundary lies between its cluster's least and greatest start |
| PageColumns.BoundariesSeparated | app/cv/text_extraction.py:82-91 | boundaries ascend by more than the cluster tolerance, so the final sort changes nothing |
| PageColumns.ColumnIndex | app/cv/text_extraction.py:94-98 | the first boundary right of x: all before it are at or left of x |
| PageColumns.ColumnIndexMonotone | app/cv/text_extraction.py:94-98 | farther right never means an earlier column, for any list of boundaries |
| PageColumns.ColumnIndexCounts | app/cv/text_extraction.py:94-98 | on separated boundaries, boundary i is at or left of x if and only if i is below the index |
| PageColumns.StartLandsInItsColumn | app/cv/text_extraction.py:71-98 | on any page, a start of a recurring cluster is indexed into the column that cluster opens if and only if it is at or right of the cluster's mean, and otherwise exactly one column lower |
| PageColumns.StartLeftOfItsColumn | app/cv/text_extraction.py:71-98 | a page of three rows whose second column starts at 100, 100 and 103: its one boundary is 101, and the first two rows' right-hand segments are indexed into the left column |
| PageColumns.SegmentColumnsAscend | app/cv/text_extraction.py:107-110 | within a row the segments' column indices never decrease |
| PageText.BucketSegments | app/cv/text_extraction.py:106-110 | the dictionary holds, for each column that has a segment and for no other, its lines in row order |
| PageText.JoinRowsByColumn | app/cv/text_extraction.py:105-111 | columns by ascending index, their segments as lines |
| PageText.ExtractPageText | app/cv/text_extraction.py:114-122 | empty page, single column or several: the text is the layout's |
| PageText.ReadingOrderPermutes | app/cv/text_extraction.py:45-122 | reading a page loses, invents and repeats no word |
| PageText.LayoutAscends | app/cv/text_extraction.py:105-111 | each emitted column is one whole column of the page, and a later one has the greater index |
| PageText.PageTextReadsBack | app/cv/text_extraction.py:101-122 | splitting the page text on whitespace gives back all the words' texts, in reading order |
| PageLines.PageTextReads | app/cv/text_extraction.py:101-122 | split at newlines, at the empty lines among them, and at blanks, keeping empty pieces, the text gives back exactly the emitted columns, their lines and their words, in order: one line per row or segment, one empty line between columns; an empty page has no text |
| PageOrder.ColumnsByLeftEdge | app/cv/text_extraction.py:94-111 | of two lines of the page, the first is in an earlier column if and only if some boundary lies right of its left edge and at or left of the second's |
| PageOrder.LinesInRowOrder | app/cv/text_extraction.py:105-111 | within a column a line comes from an earlier row than a later one, or from the same row and starts at or left of it; no word of it lies below a word of the later line unless they share a row |
| StableSort.SortByAscending | app/cv/text_extraction.py:49-58 | the sort is ordered and a rearrangement |
| StableSort.SortByStable | app/cv/text_extraction.py:49-58 | words with equal keys keep their order |
| StableSort.SortByIdentity | app/cv/text_extraction.py:89-91 | sorting what is ordered changes nothing |
| Fingerprints.FingerprintPool.NextCombo | app/connectors/fingerprint.py:69-81 | refill, repair and draw, for any outcome of the shuffle |
| Fingerprints.CyclesArePermutations | app/connectors/fingerprint.py:70-81 | every aligned cycle of N draws is a permutation of all N combos |
| Fingerprints.ConsecutiveDrawsDiffer | app/connectors/fingerprint.py:73-81 | with two or more distinct combos no two consecutive draws are equal, also across a reshuffle |
| Fingerprints.SingleComboRepeats | app/connectors/fingerprint.py:76-77 | with a single combo the repair cannot help |
| Fingerprints.WindowHoldsEveryCombo | app/connectors/fingerprint.py:73-81 | any 2N-1 consecutive draws contain every combo |
| FingerprintCombos.AllCombosDistinct | app/connectors/fingerprint.py:83-90 | the nested product has no duplicate and holds exactly the combos consistent with some profile |
| FingerprintCombos.AllCombosLength | app/connectors/fingerprint.py:83-90 | its length is the sum over profiles of OS tokens times versions times languages |
| FingerprintCombos.ShippedTable | app/connectors/fingerprint.py:20-58 | the shipped profiles and languages are free of repeats and give 1398 combos |
| FingerprintCombos.ShippedDraws | app/connectors/fingerprint.py:20-90 | with the shipped table no two consecutive draws are equal and any 2795 consecutive ones go through all combos |
| ProxyPools.ProxyPool.ReportFailure | app/connectors/proxy_pool.py:85-99 | evicts the first occurrence of the proxy, if any |
| ProxyPools.ProxyPool.TopUp | app/connectors/proxy_pool.py:106-134 | the pool and the admitted count after a top-up of the given budget |
| ProxyPools.ProxyPool.GetProxy | app/connectors/proxy_pool.py:68-83 | a warm pool is untouched, an empty one topped up once; the chosen member of the pool is returned, and none if and only if there is none |
| ProxyPools.EvictMembers | app/connectors/proxy_pool.py:92-94 | an eviction takes out exactly one occurrence |
| ProxyPools.EvictRemoves | app/connectors/proxy_pool.py:92-94 | with no duplicates an evicted proxy is gone |
| ProxyPools.TopUpAlone | app/connectors/proxy_pool.py:117-134 | alone, a top-up keeps the pool free of duplicates and within target, adds only scraped proxies, counts them, and falls short only if every verified candidate was admitted |
| ProxyPoolThreads.StepKeepsInvariant | app/connectors/proxy_pool.py:76-134 | every critical section of every thread keeps the pool invariant |
| ProxyPoolThreads.PoolIsSafe | app/connectors/proxy_pool.py:68-134 | under any interleaving: no duplicates, at most `target_size`, size = admissions - evictions, admissions = what finished and running calls report, no finished or running call over budget, only verified proxies handed out |
| ProxyPoolThreads.StepsMakeProgress | app/connectors/proxy_pool.py:68-134 | each own step of a call brings it closer to returning, and no other thread's step sets it back |
| ProxyPoolThreads.CallReturns | app/connectors/proxy_pool.py:117-134 | a call returns within a bound on its own steps set by its budget, however others are scheduled |
| ProxyPoolThreads.SoloTopUp | app/connectors/proxy_pool.py:106-134 | scheduled alone, the atomic steps come to exactly what the method computes |
| ProxyPoolThreads.SoloGet | app/connectors/proxy_pool.py:68-83 | scheduled alone, the steps of a `get_proxy` leave the pool and hand out the proxy that the method does |
| ProxyPoolThreads.ReportedStaysOut | app/connectors/proxy_pool.py:85-99 | a proxy reported as failed leaves the pool, all others staying, and under any interleaving no thread is handed it again before a scrape has verified it afresh |
| MatchScore.MatcherOutput.ApplyMissingSalaryConservatism | app/llm/matcher.py:220-228 | salary fit is capped at one half if and only if neither salary figure is known; no other dimension moves |
| MatchScore.ScorePercent | app/llm/matcher.py:252-270 | clamp, salary rule, weighting, rounding and caps come to the specified percentage in 0..100 |
| MatchScore.ScoreInRange | app/llm/matcher.py:81-88 | for any raw dimensions the score is within 0..100, before and after the caps |
| MatchScore.ScoreMonotone | app/llm/matcher.py:252-270 | raising any dimension never lowers the final score |
| MatchScore.TotalIsLinear | app/llm/matcher.py:153-154 | the weighted total is linear in the six dimensions |
| MatchScore.WeightOfEachDimension | app/llm/matcher.py:27-34 | each dimension alone at its best is worth 30, 25, 15, 15, 10 and 5 percent, which determine the linear total |
| MatchScore.ClampNearest | app/llm/matcher.py:81-88 | a raw answer counts as the nearest value within 0..1 |
| MatchScore.CapsCommute | app/llm/matcher.py:212-217 | either order of the caps gives the least of the score and every cap that applies, 40 for a deal breaker and 25 for a missing hard skill |
| MatchScore.SalaryRuleCost | app/llm/matcher.py:220-228 | the missing-salary rule never raises the score and lowers it by at most 13 points |
| MatchScore.SalaryRuleCostIsTight | app/llm/matcher.py:220-228 | 13 is reached: 26 becomes 13 by half-even rounding |
| MatchScore.RoundNearest | app/llm/matcher.py:253 | rounding moves by at most a half, and by exactly a half only to an even integer |
| MatchScore.RoundMonotone | app/llm/matcher.py:253 | rounding keeps order |
| Phrases.SearchIffHit | app/llm/matcher.py:188-189 | the backtracking search of the built pattern succeeds if and only if the tokens occur in order, word-bounded, with possibly empty separator runs between |
| Phrases.PhraseVariants | app/llm/matcher.py:157-158 | rewriting a separator run of the phrase leaves its tokens unchanged |
| Phrases.SeparatorsSplit | app/llm/matcher.py:48 | of the folded phrase only: two words with one character between them are two tokens if it is white space, a hyphen, an underscore or a slash, and one token otherwise |
| Phrases.OfferVariants | app/llm/matcher.py:188-189 | rewriting the separator runs inside an occurrence in the offer keeps it a hit |
| Phrases.PhraseFoundIffHit | app/llm/matcher.py:185-190 | a phrase is found if and only if it has tokens and a word-bounded occurrence; its tokens are separator-free |
| Phrases.DealBreakerHit | app/llm/matcher.py:176-191 | the first deal breaker found, and none if and only if none is found |
| Phrases.MissingHardSkills | app/llm/matcher.py:194-209 | true if and only if some hard skill is required and none is found |
| Phrases.FreeStandingOccurrence | app/llm/matcher.py:177-182 | an occurrence with no word character beside it is word-bounded if and only if the phrase begins and ends with one |
| Phrases.WordPhraseStandsAlone | app/llm/matcher.py:177-189 | a phrase that begins and ends with word characters is found if and only if some occurrence has no word character directly beside it |
| Phrases.SymbolEndingNeedsWordAfter | app/llm/matcher.py:188 | a phrase ending in a symbol is found if and only if some occurrence is word-bounded at its start and directly followed by a word character |
| Phrases.SymbolBeginningNeedsWordBefore | app/llm/matcher.py:188 | a phrase beginning with a symbol is found if and only if some occurrence is word-bounded at its end and directly preceded by a word character |
| Phrases.CPlusPlusNotFound | app/llm/matcher.py:202-209 | the skill "c++" is not found in "we use c++ daily" |
| Phrases.DotNetNotFound | app/llm/matcher.py:202-209 | the skill ".net" is not found in "we use .net daily" |
| Phrases.SymbolSkillMissing | app/llm/matcher.py:206 | a skill ending in a symbol is not found in an offer where no occurrence is directly followed by a word character |
| ConcurrentScoring.ConcurrencyBounded | app/llm/matcher.py:333-356 | at every point of every schedule at most the configured number of calls is in flight and progress has been reported as 1, 2, ... |
| ConcurrentScoring.RecordResults | app/llm/matcher.py:362-387 | the pass after the gather writes the rows of the sequential loop |
| ConcurrentScoring.SerialRows | app/llm/matcher.py:362-387 | the sequential loop writes each in-scope offer's own percentage or error, in input order, and nothing else |
| ConcurrentScoring.ConcurrentEqualsSerial | app/llm/matcher.py:333-387 | whichever schedule finished the tasks, rows and their order equal those of a sequential loop, each in-scope offer's score or failure in input order, after exactly one report per offer |
| ConcurrentScoring.SchedulesEnd | app/llm/matcher.py:336-360 | every schedule is finite: it is no longer than the resumptions its tasks still need |
| ConcurrentScoring.NeverStuck | app/llm/matcher.py:342-360 | with at least one semaphore slot some task can always go on until all have finished |
| ConcurrentScoring.NoSlotsStuck | app/llm/matcher.py:333 | with no slot, anything can run at all if and only if some offer is out of scope |
| BatchScoring.InRangeIds | app/scoring/batch.py:160-164 | the in-range ids, in scan order |
| BatchScoring.Hydrate | app/scoring/batch.py:170-172 | fetching the rows in any order and looking them up by id gives back the page in order |
| BatchScoring.SelectCandidates | app/scoring/batch.py:146-173 | the first `limit` candidates in order, and how many there are in all |
| BatchScoring.CandidatesMembers | app/scoring/batch.py:92-106 | the candidates are exactly the in-scope, in-range offers with no score and no open failure, each once |
| BatchScoring.FilterOrdered | app/scoring/batch.py:95-105 | filtering before ordering is ordering before filtering, so the selection does not depend on when rows are excluded |
| BatchScoring.Scorer.ScorePage | app/scoring/batch.py:256-276 | scores and failures of the offers scored, with progress reported as 1, 2, ... without gap or repeat |
| BatchScoring.Scorer.RunBatchScoring | app/scoring/batch.py:230-311 | database, summary, reports and progress view after a run: with no active profile, when scoring raises, and when it completes |
| BatchScoring.SkippedGrowsByScored | app/scoring/batch.py:176-189 | the next run's `skipped` is this run's `skipped` plus its `scored` |
| BatchScoring.RunAdvances | app/scoring/batch.py:244-292 | a run takes the first min(limit, total) candidates, each ends scored or openly failed and never both, no other offer changes, and `remaining` is the next run's total: the rest, in order |
| BatchOrder.RunTakesNewest | app/scoring/batch.py:101-105 | no offer a run leaves behind in the backlog is newer than one it takes: posted later, an undated one last; posted alike, created later; both alike, of the greater id |
| BatchOrder.BacklogNewestFirst | app/scoring/batch.py:101-105 | the whole backlog is in that order |
| BatchOrder.ScopeAddsUp | app/scoring/batch.py:92-189 | the offers in scope are those skipped as scored, those set aside with an open failure, and those the scan considers |
| BatchScoring.BacklogDrains | app/scoring/batch.py:67-80 | serialised runs, some of which may raise, get through the backlog in order, no offer twice, and to its end if and only if ceil(total/limit) of them complete |
| BatchScoring.RaisingPageStarves | app/scoring/batch.py:244-276 | if every run raises on the page at the head of the backlog, no run ever changes anything |

## Left out

- HTTP, Playwright, RSS, HTML and JSON parsing, Ollama calls, SQL drivers, logging, sleeps, routes, migrations and the frontend: I/O and plumbing.
- Per-site `map_offer`, schema validation, URL normalisation and text folding are arbitrary functions.
- SHA-256: the dead letter key of a detail page carries its URL (injective); the offer's dedup hash is an arbitrary function, so collisions are allowed.
- Floating-point error and time zones. The source reads the clock for each undated record; the model has one clock value per run.
- Database locks and isolation, and `record_failure`'s own write errors, which the source logs and swallows: each statement is atomic and succeeds.
- Content uniqueness under concurrent persists, a race the source accepts (`app/ingestion/persist.py:48-51`).
- RetryQueue.Queue.Retry: the handlers' own work (re-ingesting, re-fetching, re-scoring) is an arbitrary verdict with arbitrary recorded failures; re-reading the row after a whole-source retry is the table lookup itself, since the model has one table. What stays as loaded for the length of a tick is the failure type a row is dispatched on.
- The columns `page`, `raw_payload` and `scheduler_run_id` and the wording of error messages.
- IngestionGuarantees.RunTwice: speaks of a feed that answers the same twice with the same clock; nothing is claimed for feeds that change between the runs.
- `resolve_fetch_range` and `_parse_datetime`: configuration parsing, whose outcome is `since`, `until` and the optional `posted_at`.
- SitemapDetail.SitemapConnector.RunOverUrls: page sizes are natural numbers; a negative one would slice the list from its end.
- PracujListing.PracujConnector.RunUnfiltered: the unfiltered mode only, and page sizes that are natural numbers.
- BatchScoring.SelectCandidates: limits are natural numbers; a negative one would slice from the end.
- The filtered modes that loop over search terms (`app/connectors/sitemap_detail.py:230-277` and Pracuj.pl's): sums of the runs modelled here, with what repeated sitemap runs of one list reach in `SitemapCoverage`.
- SitemapDetail.UrlWalk.FetchPage: the source's inner closure over two variables is an object with those two fields.
- DetailFetch.FetchDetailHtml: what a top-up scrapes, which proxy is drawn and the reply through it are arguments; other threads' use of the pool in between is in `ProxyPoolThreads`.
- ProxyPools.ProxyPool.GetProxy: the random choice is an arbitrary index.
- MatchScore.MatcherOutput.ApplyMissingSalaryConservatism: the sentence it adds to the rationale.
- Assembling the offer's text from its fields (`app/llm/matcher.py:161-173`), and the Unicode classes behind `\s`, `\w` and `lower()`, which are arbitrary predicates and functions.
- BatchScoring.Scorer.ScorePage: offers are scored one after the other here; that the concurrent schedule writes the same rows and reports the same progress is `ConcurrentScoring.ConcurrentEqualsSerial`.
- BatchScoring.BacklogDrains: assumes no new offers and stable range decisions.
- BatchScoring.Scorer.RunBatchScoring: after scoring raises, tasks still in flight may report progress later; that is not modelled. Nor are the timestamps and the score events.
- Duplicate scores under overlapping callers: the scoring lock is released before the caller commits (`app/scoring/batch.py:224-227`).
- Job pause and resume, server-sent events, configuration setters and the remaining schema validators: configuration and transport code, outside the model.
