/**
 * The dead letter queue (app/dlq/service.py, app/dlq/retry.py): one row per failing
 * resource, upserted by `record_failure`, retried by hand or by the `dlq:retry_403` tick.
 */
module DeadLetters {
  import opened Options

  /** The stored `failure_type` column; `Unrecognised` is a string outside the enum. */
  datatype FailureType =
    | ValidationFailed
    | PageFetchFailed
    | RunFetchFailed
    | ScoringFailed
    | DetailFetchBlocked
    | Unrecognised(name: string)

  datatype Status = Open | Resolved | Abandoned

  /** The unique `dedup_key` column. The source hashes the URL of a detail key with SHA-256,
      taken as injective here, so the key carries the URL itself. */
  datatype DedupKey =
    | SourceKey(sourceId: int)
    | DetailUrlKey(sourceId: int, url: string)
    | ValidationKey(resource: string)

  datatype FailureRow = FailureRow(
    failureType: FailureType,
    status: Status,
    occurredAt: real,
    resolvedAt: Option<real>,
    errorMessage: string,
    blockedStatus: Option<int>,
    url: Option<string>,
    retryCount: nat)

  type Table = map<DedupKey, FailureRow>

  /** The columns one `record_failure` call passes. `None` means the column is not passed, so
      an existing row keeps its value; `Some(None)` writes a null. */
  datatype Fields = Fields(
    errorMessage: string,
    blockedStatus: Option<Option<int>>,
    url: Option<Option<string>>)

  datatype Write = Write(key: DedupKey, failureType: FailureType, at: real, fields: Fields)

  function Upserted(t: Table, w: Write): FailureRow {
    if w.key in t then
      t[w.key].(
        failureType := w.failureType,
        status := Open,
        occurredAt := w.at,
        resolvedAt := None,
        errorMessage := w.fields.errorMessage,
        blockedStatus := GetOr(w.fields.blockedStatus, t[w.key].blockedStatus),
        url := GetOr(w.fields.url, t[w.key].url))
    else
      FailureRow(w.failureType, Open, w.at, None, w.fields.errorMessage,
                 GetOr(w.fields.blockedStatus, None), GetOr(w.fields.url, None), 0)
  }

  function RecordFailure(t: Table, w: Write): Table {
    t[w.key := Upserted(t, w)]
  }

  function RecordAll(t: Table, ws: seq<Write>): Table
    decreases |ws|
  {
    if ws == [] then t else RecordAll(RecordFailure(t, ws[0]), ws[1..])
  }

  /** What a retry handler did: returned a verdict (possibly re-marking the row, possibly after
      `record_failure` writes of its own), or raised. */
  datatype HandlerResult =
    | Returned(ok: bool, mark: Option<string>, writes: seq<Write>)
    | Raised

  /** What retrying a row comes to, given the failure type it was loaded with: on a type outside the
      enum `perform_retry` raises before any handler runs. */
  function Dispatch(loaded: FailureType, h: HandlerResult): HandlerResult {
    if loaded.Unrecognised? then Raised else h
  }

  /** `perform_retry` once dispatched: `None` when it raises, in which case nothing of it is committed. */
  function PerformRetry(t: Table, key: DedupKey, now: real, h: HandlerResult): Option<Table>
    requires key in t
  {
    if h.Raised? then None
    else
      RecordAllKeepsKeys(t, h.writes);
      var after := RecordAll(t, h.writes);
      var row := after[key];
      var row' :=
        if h.ok then row.(status := Resolved, resolvedAt := Some(now))
        else if h.mark.Some? then row.(errorMessage := h.mark.value, occurredAt := now)
        else row;
      Some(after[key := row'])
  }

  /** How one selected row fares in a tick. */
  datatype Turn = Spent(table: Table, resolved: bool) | GaveUp(table: Table) | Aborted

  function TakeTurn(t: Table, key: DedupKey, now: real, maxAttempts: int, h: HandlerResult): Turn
    requires key in t
  {
    var row := t[key];
    if row.retryCount >= maxAttempts then
      GaveUp(t[key := row.(status := Abandoned)])
    else
      var charged := t[key := row.(retryCount := row.retryCount + 1)];
      match PerformRetry(charged, key, now, h)
      case None => Aborted
      case Some(t') =>
        PerformRetryKeepsKeys(charged, key, now, h);
        Spent(t', t'[key].status == Resolved)
  }

  predicate Eligible(t: Table, key: DedupKey, cutoff: real) {
    key in t && t[key].status == Open && t[key].blockedStatus.Some? && t[key].occurredAt <= cutoff
  }

  /** `DetailRetrySummary`, with the table the tick leaves; `aborted` when a handler raised. */
  datatype Tick = Tick(
    table: Table, attempted: nat, resolved: nat, stillBlocked: nat, abandoned: nat, aborted: bool)

  /** The tick's counters after one more row. */
  function Tally(s: Tick, turn: Turn): Tick
    requires !turn.Aborted?
  {
    match turn
    case GaveUp(t) => s.(table := t, abandoned := s.abandoned + 1)
    case Spent(t, true) => s.(table := t, attempted := s.attempted + 1, resolved := s.resolved + 1)
    case Spent(t, false) => s.(table := t, attempted := s.attempted + 1, stillBlocked := s.stillBlocked + 1)
  }

  function RunRows(s: Tick, keys: seq<DedupKey>, now: real, maxAttempts: int,
                   handle: DedupKey -> HandlerResult): Tick
    requires forall k :: k in keys ==> k in s.table
    decreases |keys|
  {
    if keys == [] then s
    else
      var turn := TakeTurn(s.table, keys[0], now, maxAttempts, handle(keys[0]));
      if turn.Aborted? then s.(aborted := true)
      else
        TurnKeepsKeys(s.table, keys[0], now, maxAttempts, handle(keys[0]));
        RunRows(Tally(s, turn), keys[1..], now, maxAttempts, handle)
  }

  lemma {:induction false} RecordAllKeepsKeys(t: Table, ws: seq<Write>)
    ensures t.Keys <= RecordAll(t, ws).Keys
    decreases |ws|
  {
    if ws != [] { RecordAllKeepsKeys(RecordFailure(t, ws[0]), ws[1..]); }
  }

  lemma PerformRetryKeepsKeys(t: Table, key: DedupKey, now: real, h: HandlerResult)
    requires key in t
    ensures PerformRetry(t, key, now, h).Some? ==> t.Keys <= PerformRetry(t, key, now, h).value.Keys
  {
    if h.Returned? { RecordAllKeepsKeys(t, h.writes); }
  }

  lemma TurnKeepsKeys(t: Table, key: DedupKey, now: real, maxAttempts: int, h: HandlerResult)
    requires key in t
    ensures var r := TakeTurn(t, key, now, maxAttempts, h);
            !r.Aborted? ==> t.Keys <= r.table.Keys
  {
    if t[key].retryCount < maxAttempts {
      PerformRetryKeepsKeys(t[key := t[key].(retryCount := t[key].retryCount + 1)], key, now, h);
    }
  }
}
