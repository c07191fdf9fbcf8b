/**
 * The retry protocol in the source's own form: a table whose rows are updated in place, and
 * what its operations guarantee over whole histories.
 */
module RetryQueue {
  import opened Options
  import opened Sequences
  import opened DeadLetters

  class Queue {
    var rows: Table

    constructor ()
      ensures rows == map[]
    {
      rows := map[];
    }

    /** app/dlq/service.py `record_failure`: insert, or reopen and overwrite on conflict. */
    method Record(w: Write)
      modifies this
      ensures rows == RecordFailure(old(rows), w)
    {
      if w.key !in rows {
        rows := rows[w.key := FailureRow(w.failureType, Open, w.at, None, w.fields.errorMessage,
                                         None, None, 0)];
      }
      var row := rows[w.key].(failureType := w.failureType, errorMessage := w.fields.errorMessage);
      if w.fields.blockedStatus.Some? { row := row.(blockedStatus := w.fields.blockedStatus.value); }
      if w.fields.url.Some? { row := row.(url := w.fields.url.value); }
      rows := rows[w.key := row.(status := Open, resolvedAt := None, occurredAt := w.at)];
    }

    /** app/dlq/retry.py `perform_retry`, dispatching on the failure type the row was loaded with.
        `raised` means nothing was committed. */
    method Retry(key: DedupKey, loaded: FailureType, now: real, h: HandlerResult) returns (raised: bool)
      requires key in rows
      modifies this
      ensures raised <==> PerformRetry(old(rows), key, now, Dispatch(loaded, h)).None?
      ensures rows == GetOr(PerformRetry(old(rows), key, now, Dispatch(loaded, h)), old(rows))
    {
      if loaded.Unrecognised? { return true; }
      if h.Raised? { return true; }
      ghost var before := rows;
      RecordAllKeepsKeys(rows, h.writes);
      var i := 0;
      while i < |h.writes|
        invariant 0 <= i <= |h.writes|
        invariant RecordAll(rows, h.writes[i..]) == RecordAll(before, h.writes)
      {
        assert h.writes[i..][1..] == h.writes[i + 1..];
        Record(h.writes[i]);
        i := i + 1;
      }
      if h.ok {
        rows := rows[key := rows[key].(status := Resolved, resolvedAt := Some(now))];
      } else if h.mark.Some? {
        rows := rows[key := rows[key].(errorMessage := h.mark.value, occurredAt := now)];
      }
      raised := false;
    }

    /** One selected row's turn in a tick. A raise leaves the table as it was before the turn: the
        session is closed without a commit. */
    method TakeRowTurn(key: DedupKey, loaded: FailureType, now: real, maxAttempts: int, h: HandlerResult)
      returns (spent: bool, raised: bool)
      requires key in rows
      modifies this
      ensures var turn := TakeTurn(old(rows), key, now, maxAttempts, Dispatch(loaded, h));
              && raised == turn.Aborted? && spent == turn.Spent?
              && rows == (if turn.Aborted? then old(rows) else turn.table)
              && (turn.Spent? ==> key in rows && turn.resolved == (rows[key].status == Resolved))
    {
      if rows[key].retryCount >= maxAttempts {
        rows := rows[key := rows[key].(status := Abandoned)];
        return false, false;
      }
      var before := rows;
      rows := rows[key := rows[key].(retryCount := rows[key].retryCount + 1)];
      PerformRetryKeepsKeys(rows, key, now, Dispatch(loaded, h));
      raised := Retry(key, loaded, now, h);
      if raised { rows := before; }
      spent := !raised;
    }

    /** app/dlq/retry.py `run_detail_retry_batch`. `selected` lists the eligible rows in the order the
        database returns them. They are loaded once: a commit does not expire them
        (app/db/session.py:23), so each is dispatched on the failure type it was selected with. */
    method RunDetailRetryBatch(selected: seq<DedupKey>, now: real, minAge: real, maxAttempts: int,
                               handle: DedupKey -> HandlerResult)
      returns (attempted: nat, resolved: nat, stillBlocked: nat, abandoned: nat, aborted: bool)
      requires Distinct(selected)
      requires forall k :: k in selected ==> k in rows
      requires forall k :: k in selected <==> Eligible(rows, k, now - minAge)
      modifies this
      ensures Tick(rows, attempted, resolved, stillBlocked, abandoned, aborted)
           == RunRows(Fresh(old(rows)), selected, now, maxAttempts, Dispatched(old(rows), handle))
    {
      var loaded := map k | k in selected :: rows[k].failureType;
      attempted, resolved, stillBlocked, abandoned, aborted :=
        TakeTurns(selected, loaded, now, maxAttempts, handle, Dispatched(rows, handle));
    }

    /** The loop over the selected rows. */
    method TakeTurns(selected: seq<DedupKey>, loaded: map<DedupKey, FailureType>, now: real, maxAttempts: int,
                     handle: DedupKey -> HandlerResult, ghost turn: DedupKey -> HandlerResult)
      returns (attempted: nat, resolved: nat, stillBlocked: nat, abandoned: nat, aborted: bool)
      requires forall k :: k in selected ==> k in rows && k in loaded && turn(k) == Dispatch(loaded[k], handle(k))
      modifies this
      ensures Tick(rows, attempted, resolved, stillBlocked, abandoned, aborted)
           == RunRows(Fresh(old(rows)), selected, now, maxAttempts, turn)
    {
      attempted, resolved, stillBlocked, abandoned, aborted := 0, 0, 0, 0, false;
      ghost var start := Fresh(rows);
      var i := 0;
      while i < |selected|
        invariant 0 <= i <= |selected|
        invariant !aborted
        invariant forall k :: k in selected ==> k in rows && k in start.table
        invariant RunRows(Tick(rows, attempted, resolved, stillBlocked, abandoned, aborted),
                          selected[i..], now, maxAttempts, turn)
               == RunRows(start, selected, now, maxAttempts, turn)
      {
        var key := selected[i];
        assert selected[i..][1..] == selected[i + 1..];
        TurnKeepsKeys(rows, key, now, maxAttempts, turn(key));
        ghost var s := Tick(rows, attempted, resolved, stillBlocked, abandoned, aborted);
        ghost var taken := TakeTurn(rows, key, now, maxAttempts, turn(key));
        var spent, raised := TakeRowTurn(key, loaded[key], now, maxAttempts, handle(key));
        if raised {
          aborted := true;
          return;
        }
        i := i + 1;
        if !spent {
          abandoned := abandoned + 1;
        } else {
          attempted := attempted + 1;
          if rows[key].status == Resolved {
            resolved := resolved + 1;
          } else {
            stillBlocked := stillBlocked + 1;
          }
        }
        assert Tick(rows, attempted, resolved, stillBlocked, abandoned, aborted) == Tally(s, taken);
      }
    }
  }

  function Fresh(t: Table): Tick { Tick(t, 0, 0, 0, 0, false) }

  /** What each row's turn in a tick comes to, given the table the rows were loaded from. */
  function Dispatched(t: Table, handle: DedupKey -> HandlerResult): DedupKey -> HandlerResult {
    (k: DedupKey) => if k in t then Dispatch(t[k].failureType, handle(k)) else handle(k)
  }

  // ---------------------------------------------------------------- one tick

  /** Every selected row is counted exactly once, and every attempt ends one of two ways. */
  lemma {:induction false} SummaryBalances(
      s: Tick, keys: seq<DedupKey>, now: real, maxAttempts: int, handle: DedupKey -> HandlerResult)
    requires forall k :: k in keys ==> k in s.table
    requires !s.aborted
    requires s.attempted == s.resolved + s.stillBlocked
    ensures var r := RunRows(s, keys, now, maxAttempts, handle);
            && r.attempted == r.resolved + r.stillBlocked
            && (!r.aborted ==>
                  r.attempted + r.abandoned == s.attempted + s.abandoned + |keys|)
            && (r.aborted ==>
                  r.attempted + r.abandoned < s.attempted + s.abandoned + |keys|)
    decreases |keys|
  {
    if keys != [] {
      TurnKeepsKeys(s.table, keys[0], now, maxAttempts, handle(keys[0]));
      var turn := TakeTurn(s.table, keys[0], now, maxAttempts, handle(keys[0]));
      if !turn.Aborted? { SummaryBalances(Tally(s, turn), keys[1..], now, maxAttempts, handle); }
    }
  }

  // ---------------------------------------------------------------- verdicts

  /** Selected rows are open, and stay open until their turn: other rows' turns touch only their own
      status, and recorded failures only ever open a row. */
  lemma TurnLeavesOthersOpen(t: Table, at: DedupKey, now: real, maxAttempts: int, h: HandlerResult, key: DedupKey)
    requires at in t && key in t && t[key].status == Open && key != at
    ensures var r := TakeTurn(t, at, now, maxAttempts, h);
            !r.Aborted? ==> key in r.table && r.table[key].status == Open
  {
    if t[at].retryCount < maxAttempts && h.Returned? {
      var charged := t[at := t[at].(retryCount := t[at].retryCount + 1)];
      RecordAllKeepsKeys(charged, h.writes);
      RecordAllStaysOpen(charged, h.writes, key);
    }
  }

  lemma {:induction false} RecordAllStaysOpen(t: Table, ws: seq<Write>, key: DedupKey)
    requires key in t && t[key].status == Open
    ensures key in RecordAll(t, ws) && RecordAll(t, ws)[key].status == Open
    decreases |ws|
  {
    if ws != [] { RecordAllStaysOpen(RecordFailure(t, ws[0]), ws[1..], key); }
  }

  /** An open row's attempt counts as resolved exactly when its handler succeeded. */
  lemma TurnVerdict(t: Table, key: DedupKey, now: real, maxAttempts: int, h: HandlerResult)
    requires key in t && t[key].status == Open
    ensures var r := TakeTurn(t, key, now, maxAttempts, h);
            && (r.GaveUp? <==> t[key].retryCount >= maxAttempts)
            && (r.Spent? ==>
                  && h.Returned? && key in r.table
                  && (r.resolved <==> h.ok)
                  && r.table[key].status == (if h.ok then Resolved else Open))
  {
    if t[key].retryCount < maxAttempts && h.Returned? {
      var charged := t[key := t[key].(retryCount := t[key].retryCount + 1)];
      RecordAllKeepsKeys(charged, h.writes);
      RecordAllStaysOpen(charged, h.writes, key);
    }
  }

  /** Of the listed rows, how many are within budget and have a handler with the given verdict. */
  function Verdicts(t: Table, keys: seq<DedupKey>, maxAttempts: int, handle: DedupKey -> HandlerResult, ok: bool): nat {
    if keys == [] then 0 else
      (if Count(t, keys[0]) < maxAttempts && handle(keys[0]).Returned? && handle(keys[0]).ok == ok then 1 else 0)
      + Verdicts(t, keys[1..], maxAttempts, handle, ok)
  }

  /** How many of them are out of budget. */
  function OutOfBudget(t: Table, keys: seq<DedupKey>, maxAttempts: int): nat {
    if keys == [] then 0 else (if Count(t, keys[0]) >= maxAttempts then 1 else 0) + OutOfBudget(t, keys[1..], maxAttempts)
  }

  lemma {:induction false} VerdictsSame(t: Table, u: Table, keys: seq<DedupKey>, maxAttempts: int, handle: DedupKey -> HandlerResult, ok: bool)
    requires forall k :: k in keys ==> Count(t, k) == Count(u, k)
    ensures Verdicts(t, keys, maxAttempts, handle, ok) == Verdicts(u, keys, maxAttempts, handle, ok)
    ensures OutOfBudget(t, keys, maxAttempts) == OutOfBudget(u, keys, maxAttempts)
  {
    if keys != [] {
      assert keys[0] in keys;
      VerdictsSame(t, u, keys[1..], maxAttempts, handle, ok);
    }
  }

  /** The summary tells the truth about a completed tick: `resolved` counts the selected rows within
      budget whose handler succeeded, `stillBlocked` those whose handler did not, `abandoned` those
      out of budget. */
  lemma {:induction false} TallyMatchesVerdicts(
      s: Tick, keys: seq<DedupKey>, now: real, maxAttempts: int, handle: DedupKey -> HandlerResult)
    requires Distinct(keys) && !s.aborted
    requires forall k :: k in keys ==> k in s.table && s.table[k].status == Open
    ensures var r := RunRows(s, keys, now, maxAttempts, handle);
            !r.aborted ==>
              && r.resolved == s.resolved + Verdicts(s.table, keys, maxAttempts, handle, true)
              && r.stillBlocked == s.stillBlocked + Verdicts(s.table, keys, maxAttempts, handle, false)
              && r.abandoned == s.abandoned + OutOfBudget(s.table, keys, maxAttempts)
    decreases |keys|
  {
    if keys != [] {
      var k0, rest := keys[0], keys[1..];
      TurnKeepsKeys(s.table, k0, now, maxAttempts, handle(k0));
      TurnVerdict(s.table, k0, now, maxAttempts, handle(k0));
      var turn := TakeTurn(s.table, k0, now, maxAttempts, handle(k0));
      if !turn.Aborted? {
        forall k | k in rest
          ensures k in turn.table && turn.table[k].status == Open && Count(turn.table, k) == Count(s.table, k)
        {
          assert k in keys && k != k0;
          TurnLeavesOthersOpen(s.table, k0, now, maxAttempts, handle(k0), k);
          TurnCounts(s.table, k0, now, maxAttempts, handle(k0), k);
        }
        VerdictsSame(s.table, turn.table, rest, maxAttempts, handle, true);
        VerdictsSame(s.table, turn.table, rest, maxAttempts, handle, false);
        TallyMatchesVerdicts(Tally(s, turn), rest, now, maxAttempts, handle);
      }
    }
  }

  /** The last block status a series of failures writes to a row, if any of them passes one. */
  function LastStatus(ws: seq<Write>, key: DedupKey): Option<Option<int>>
    decreases |ws|
  {
    if ws == [] then None
    else
      var later := LastStatus(ws[1..], key);
      if later.Some? || ws[0].key != key then later else ws[0].fields.blockedStatus
  }

  /** When the row was last written. */
  function LastWrite(ws: seq<Write>, key: DedupKey): Option<real>
    decreases |ws|
  {
    if ws == [] then None
    else
      var later := LastWrite(ws[1..], key);
      if later.Some? || ws[0].key != key then later else Some(ws[0].at)
  }

  /** What a series of failures leaves of a row's tag, status and time. */
  lemma {:induction false} RecordAllRow(t: Table, ws: seq<Write>, key: DedupKey)
    requires key in t
    ensures key in RecordAll(t, ws)
    ensures var row := RecordAll(t, ws)[key];
            && row.blockedStatus == GetOr(LastStatus(ws, key), t[key].blockedStatus)
            && row.status == (if LastWrite(ws, key).Some? then Open else t[key].status)
            && row.occurredAt == GetOr(LastWrite(ws, key), t[key].occurredAt)
    decreases |ws|
  {
    if ws != [] { RecordAllRow(RecordFailure(t, ws[0]), ws[1..], key); }
  }

  /** A block-tagged row keeps its tag through any series of later failures unless the last of them
      to pass a block status passes a null one; and exactly then, once the cooldown since the last
      failure is over, the tick picks it up again. */
  lemma BlockTagSticks(t: Table, ws: seq<Write>, key: DedupKey, cutoff: real)
    requires key in t && t[key].blockedStatus.Some? && LastWrite(ws, key).Some?
    ensures key in RecordAll(t, ws)
    ensures RecordAll(t, ws)[key].blockedStatus.Some? <==> LastStatus(ws, key) != Some(None)
    ensures Eligible(RecordAll(t, ws), key, cutoff)
       <==> LastStatus(ws, key) != Some(None) && LastWrite(ws, key).value <= cutoff
  {
    RecordAllRow(t, ws, key);
  }

  // ---------------------------------------------------------------- counts

  /** The retry count of a resource, zero while it has no row. */
  function Count(t: Table, key: DedupKey): nat {
    if key in t then t[key].retryCount else 0
  }

  /** `record_failure` never resets a retry count: reopening does not refill the budget. */
  lemma {:induction false} RecordAllKeepsCounts(t: Table, ws: seq<Write>, key: DedupKey)
    ensures Count(RecordAll(t, ws), key) == Count(t, key)
    decreases |ws|
  {
    if ws != [] { RecordAllKeepsCounts(RecordFailure(t, ws[0]), ws[1..], key); }
  }

  lemma RetryKeepsCounts(t: Table, at: DedupKey, now: real, h: HandlerResult, key: DedupKey)
    requires at in t
    ensures PerformRetry(t, at, now, h).Some? ==>
              Count(PerformRetry(t, at, now, h).value, key) == Count(t, key)
  {
    if h.Returned? {
      RecordAllKeepsKeys(t, h.writes);
      RecordAllKeepsCounts(t, h.writes, key);
      RecordAllKeepsCounts(t, h.writes, at);
    }
  }

  lemma TurnCounts(t: Table, at: DedupKey, now: real, maxAttempts: int, h: HandlerResult, key: DedupKey)
    requires at in t
    ensures var r := TakeTurn(t, at, now, maxAttempts, h);
            !r.Aborted? ==>
              Count(r.table, key) == Count(t, key) + (if r.Spent? && key == at then 1 else 0)
  {
    if t[at].retryCount < maxAttempts {
      RetryKeepsCounts(t[at := t[at].(retryCount := t[at].retryCount + 1)], at, now, h, key);
    }
  }

  // ---------------------------------------------------------------- whole histories

  /** Anything that can touch the table: a recorded failure, a manual retry, or one row's turn in an
      automatic tick, with what dispatching the row as it was selected some time ago comes to. */
  datatype Event =
    | Recorded(w: Write)
    | Manual(key: DedupKey, now: real, h: HandlerResult)
    | Automatic(key: DedupKey, now: real, h: HandlerResult)

  /** Whether the event is an automatic retry of `key` whose handler returned. */
  predicate IsAutoRetry(t: Table, e: Event, maxAttempts: int, key: DedupKey) {
    e.Automatic? && e.key == key && key in t && TakeTurn(t, key, e.now, maxAttempts, e.h).Spent?
  }

  function Apply(t: Table, e: Event, maxAttempts: int): Table {
    match e
    case Recorded(w) => RecordFailure(t, w)
    case Manual(key, now, h) => if key in t then GetOr(PerformRetry(t, key, now, Dispatch(t[key].failureType, h)), t) else t
    case Automatic(key, now, h) =>
      if key !in t then t
      else match TakeTurn(t, key, now, maxAttempts, h)
           case Aborted => t
           case GaveUp(t') => t'
           case Spent(t', _) => t'
  }

  function History(t: Table, es: seq<Event>, maxAttempts: int): Table
    decreases |es|
  {
    if es == [] then t else History(Apply(t, es[0], maxAttempts), es[1..], maxAttempts)
  }

  function AutoRetries(t: Table, es: seq<Event>, maxAttempts: int, key: DedupKey): nat
    decreases |es|
  {
    if es == [] then 0 else
      (if IsAutoRetry(t, es[0], maxAttempts, key) then 1 else 0)
      + AutoRetries(Apply(t, es[0], maxAttempts), es[1..], maxAttempts, key)
  }

  lemma ApplyCounts(t: Table, e: Event, maxAttempts: int, key: DedupKey)
    ensures Count(Apply(t, e, maxAttempts), key)
         == Count(t, key) + (if IsAutoRetry(t, e, maxAttempts, key) then 1 else 0)
    ensures IsAutoRetry(t, e, maxAttempts, key) ==> Count(t, key) < maxAttempts
  {
    match e
    case Recorded(w) =>
    case Manual(at, now, h) => if at in t { RetryKeepsCounts(t, at, now, Dispatch(t[at].failureType, h), key); }
    case Automatic(at, now, h) => if at in t { TurnCounts(t, at, now, maxAttempts, h, key); }
  }

  /** Over any interleaving, a resource is automatically retried at most `maxAttempts` times in
      its whole life, however often it is resolved and reopened in between. */
  lemma {:induction false} BoundedAutoRetries(t: Table, es: seq<Event>, maxAttempts: int, key: DedupKey)
    ensures Count(t, key) + AutoRetries(t, es, maxAttempts, key)
         == Count(History(t, es, maxAttempts), key)
    ensures AutoRetries(t, es, maxAttempts, key) > 0 ==>
              Count(t, key) + AutoRetries(t, es, maxAttempts, key) <= maxAttempts
    ensures key !in t && maxAttempts >= 0 ==> AutoRetries(t, es, maxAttempts, key) <= maxAttempts
    decreases |es|
  {
    if es != [] {
      ApplyCounts(t, es[0], maxAttempts, key);
      BoundedAutoRetries(Apply(t, es[0], maxAttempts), es[1..], maxAttempts, key);
    }
  }

  /** The turns a tick takes, as events. */
  function TurnEvents(keys: seq<DedupKey>, now: real, handle: DedupKey -> HandlerResult): seq<Event> {
    if keys == [] then [] else [Automatic(keys[0], now, handle(keys[0]))] + TurnEvents(keys[1..], now, handle)
  }

  /** A tick is a history: of all its rows' turns, or of exactly those before the one that raised. */
  lemma {:induction false} TickIsHistory(
      s: Tick, keys: seq<DedupKey>, now: real, maxAttempts: int, handle: DedupKey -> HandlerResult)
      returns (done: nat)
    requires forall k :: k in keys ==> k in s.table
    requires !s.aborted
    ensures done <= |keys|
    ensures var r := RunRows(s, keys, now, maxAttempts, handle);
            && (!r.aborted ==> done == |keys|)
            && (r.aborted ==> done < |keys| && keys[done] in r.table
                              && TakeTurn(r.table, keys[done], now, maxAttempts, handle(keys[done])).Aborted?)
            && r.table == History(s.table, TurnEvents(keys[..done], now, handle), maxAttempts)
    decreases |keys|
  {
    done := 0;
    if keys != [] {
      TurnKeepsKeys(s.table, keys[0], now, maxAttempts, handle(keys[0]));
      var turn := TakeTurn(s.table, keys[0], now, maxAttempts, handle(keys[0]));
      if !turn.Aborted? {
        var rest := TickIsHistory(Tally(s, turn), keys[1..], now, maxAttempts, handle);
        done := rest + 1;
        assert keys[..done][1..] == keys[1..][..rest];
        var es := TurnEvents(keys[..done], now, handle);
        assert es[0] == Automatic(keys[0], now, handle(keys[0]));
        assert es[1..] == TurnEvents(keys[1..][..rest], now, handle);
      }
    }
  }

  // ---------------------------------------------------------------- leaving the open state

  /** No other row's handler records a failure of `key`; its own may, as a failing whole-source retry
      does. */
  ghost predicate Leaves(handle: DedupKey -> HandlerResult, key: DedupKey) {
    forall k :: k != key && handle(k).Returned? ==> forall w :: w in handle(k).writes ==> w.key != key
  }

  lemma {:induction false} RecordAllElsewhere(t: Table, ws: seq<Write>, key: DedupKey)
    requires key in t
    requires forall w :: w in ws ==> w.key != key
    ensures key in RecordAll(t, ws) && RecordAll(t, ws)[key] == t[key]
    decreases |ws|
  {
    if ws != [] { RecordAllElsewhere(RecordFailure(t, ws[0]), ws[1..], key); }
  }

  /** An open row of a tick either stops being open or has spent one more attempt. */
  ghost predicate Progress(before: FailureRow, after: FailureRow, maxAttempts: int) {
    after.status != Open || (before.retryCount < maxAttempts && after.retryCount == before.retryCount + 1)
  }

  lemma TurnElsewhere(t: Table, at: DedupKey, now: real, maxAttempts: int,
                      handle: DedupKey -> HandlerResult, key: DedupKey)
    requires at in t && key in t && Leaves(handle, key)
    ensures var r := TakeTurn(t, at, now, maxAttempts, handle(at));
            !r.Aborted? ==>
              && key in r.table
              && (at != key ==> r.table[key] == t[key])
              && (at == key && t[key].status == Open ==> Progress(t[key], r.table[key], maxAttempts))
  {
    if t[at].retryCount < maxAttempts && handle(at).Returned? {
      var charged := t[at := t[at].(retryCount := t[at].retryCount + 1)];
      RecordAllKeepsKeys(charged, handle(at).writes);
      RecordAllKeepsCounts(charged, handle(at).writes, key);
      if at != key { RecordAllElsewhere(charged, handle(at).writes, key); }
    }
  }

  /** The tick gets through the row's own turn: no row before it, nor itself, makes the tick abort. */
  predicate Serves(s: Tick, keys: seq<DedupKey>, now: real, maxAttempts: int,
                   handle: DedupKey -> HandlerResult, key: DedupKey)
    requires forall k :: k in keys ==> k in s.table
    decreases |keys|
  {
    keys != [] &&
    var turn := TakeTurn(s.table, keys[0], now, maxAttempts, handle(keys[0]));
    && !turn.Aborted?
    && (keys[0] == key ||
        (TurnKeepsKeys(s.table, keys[0], now, maxAttempts, handle(keys[0]));
         Serves(Tally(s, turn), keys[1..], now, maxAttempts, handle, key)))
  }

  /** A row that is not served is left alone; an open row that is leaves the open state or spends an
      attempt, whatever its own handler records. */
  lemma {:induction false} RowsProgress(
      s: Tick, keys: seq<DedupKey>, now: real, maxAttempts: int,
      handle: DedupKey -> HandlerResult, key: DedupKey)
    requires Distinct(keys)
    requires forall k :: k in keys ==> k in s.table
    requires key in s.table && Leaves(handle, key)
    ensures var r := RunRows(s, keys, now, maxAttempts, handle);
            && key in r.table
            && (!Serves(s, keys, now, maxAttempts, handle, key) ==> r.table[key] == s.table[key])
            && (Serves(s, keys, now, maxAttempts, handle, key) ==> key in keys)
            && (Serves(s, keys, now, maxAttempts, handle, key) && s.table[key].status == Open ==>
                  Progress(s.table[key], r.table[key], maxAttempts))
    decreases |keys|
  {
    if keys != [] {
      TurnKeepsKeys(s.table, keys[0], now, maxAttempts, handle(keys[0]));
      TurnElsewhere(s.table, keys[0], now, maxAttempts, handle, key);
      var turn := TakeTurn(s.table, keys[0], now, maxAttempts, handle(keys[0]));
      if !turn.Aborted? {
        RowsProgress(Tally(s, turn), keys[1..], now, maxAttempts, handle, key);
        if keys[0] == key { assert key !in keys[1..]; }
      }
    }
  }

  /** One scheduled tick: its clock, the order the database returns rows in, its handlers. */
  datatype TickRun = TickRun(now: real, order: seq<DedupKey>, handle: DedupKey -> HandlerResult)

  /** The tick, started on `t`. */
  function RunTick(t: Table, k: TickRun, maxAttempts: int): Tick
    requires forall key :: key in k.order ==> key in t
  {
    RunRows(Fresh(t), k.order, k.now, maxAttempts, Dispatched(t, k.handle))
  }

  /** It gets through the row's turn. */
  predicate TickServes(t: Table, k: TickRun, maxAttempts: int, key: DedupKey)
    requires forall key :: key in k.order ==> key in t
  {
    Serves(Fresh(t), k.order, k.now, maxAttempts, Dispatched(t, k.handle), key)
  }

  ghost predicate Selects(t: Table, k: TickRun, minAge: real) {
    Distinct(k.order) && forall key :: key in k.order <==> Eligible(t, key, k.now - minAge)
  }

  /** The tick starting from `t` selects correctly, serves `key` if it selects it, and no other row's
      handler records a failure of it. Later rows may still make the tick abort. */
  ghost predicate Ordinary(t: Table, k: TickRun, minAge: real, maxAttempts: int, key: DedupKey) {
    && Selects(t, k, minAge)
    && Leaves(k.handle, key)
    && (key in k.order ==> TickServes(t, k, maxAttempts, key))
  }

  ghost predicate OrdinaryRuns(t: Table, ks: seq<TickRun>, minAge: real, maxAttempts: int, key: DedupKey)
    decreases |ks|
  {
    ks == [] ||
    (Ordinary(t, ks[0], minAge, maxAttempts, key) &&
     OrdinaryRuns(RunTick(t, ks[0], maxAttempts).table, ks[1..], minAge, maxAttempts, key))
  }

  ghost function AfterTicks(t: Table, ks: seq<TickRun>, minAge: real, maxAttempts: int, key: DedupKey): Table
    requires OrdinaryRuns(t, ks, minAge, maxAttempts, key)
    decreases |ks|
  {
    if ks == [] then t
    else AfterTicks(RunTick(t, ks[0], maxAttempts).table, ks[1..], minAge, maxAttempts, key)
  }

  /** How many of the ticks find the row eligible. */
  ghost function EligibleTicks(t: Table, ks: seq<TickRun>, minAge: real, maxAttempts: int, key: DedupKey): nat
    requires OrdinaryRuns(t, ks, minAge, maxAttempts, key)
    decreases |ks|
  {
    if ks == [] then 0 else
      (if Eligible(t, key, ks[0].now - minAge) then 1 else 0)
      + EligibleTicks(RunTick(t, ks[0], maxAttempts).table, ks[1..], minAge, maxAttempts, key)
  }

  /** What is left of a row's budget. */
  function Budget(row: FailureRow, maxAttempts: int): nat {
    if maxAttempts > row.retryCount then maxAttempts - row.retryCount else 0
  }

  /** With no failure of its resource recorded by anything but its own retry, a row is eligible in at
      most one tick more than its budget has attempts left (one that is past its budget in one), and
      once it has been eligible that often it is no longer open. */
  lemma {:induction false} RowLeavesOpen(
      t: Table, ks: seq<TickRun>, minAge: real, maxAttempts: int, key: DedupKey)
    requires key in t
    requires OrdinaryRuns(t, ks, minAge, maxAttempts, key)
    ensures key in AfterTicks(t, ks, minAge, maxAttempts, key)
    ensures var n := EligibleTicks(t, ks, minAge, maxAttempts, key);
            var row := AfterTicks(t, ks, minAge, maxAttempts, key)[key];
            && n <= Budget(t[key], maxAttempts) + 1
            && (t[key].status == Open && n == Budget(t[key], maxAttempts) + 1 ==> row.status != Open)
            && (row.status == Open ==> row.retryCount == t[key].retryCount + n && n <= Budget(t[key], maxAttempts))
            && (t[key].status != Open ==> n == 0 && row == t[key])
    decreases |ks|
  {
    if ks != [] {
      RowsProgress(Fresh(t), ks[0].order, ks[0].now, maxAttempts, Dispatched(t, ks[0].handle), key);
      RowLeavesOpen(RunTick(t, ks[0], maxAttempts).table, ks[1..], minAge, maxAttempts, key);
    }
  }

  /** A tick charges a row exactly when it serves it within its budget, and then once. */
  lemma {:induction false} TickCounts(
      s: Tick, keys: seq<DedupKey>, now: real, maxAttempts: int,
      handle: DedupKey -> HandlerResult, key: DedupKey)
    requires Distinct(keys)
    requires forall k :: k in keys ==> k in s.table
    ensures var r := RunRows(s, keys, now, maxAttempts, handle);
            var charged := Serves(s, keys, now, maxAttempts, handle, key) && Count(s.table, key) < maxAttempts;
            Count(r.table, key) == Count(s.table, key) + (if charged then 1 else 0)
    decreases |keys|
  {
    if keys != [] {
      TurnKeepsKeys(s.table, keys[0], now, maxAttempts, handle(keys[0]));
      TurnCounts(s.table, keys[0], now, maxAttempts, handle(keys[0]), key);
      var turn := TakeTurn(s.table, keys[0], now, maxAttempts, handle(keys[0]));
      if !turn.Aborted? {
        TickCounts(Tally(s, turn), keys[1..], now, maxAttempts, handle, key);
        if keys[0] == key {
          assert key !in keys[1..];
          OnlySelectedServed(Tally(s, turn), keys[1..], now, maxAttempts, handle, key);
        }
      }
    }
  }

  lemma {:induction false} OnlySelectedServed(
      s: Tick, keys: seq<DedupKey>, now: real, maxAttempts: int,
      handle: DedupKey -> HandlerResult, key: DedupKey)
    requires forall k :: k in keys ==> k in s.table
    ensures Serves(s, keys, now, maxAttempts, handle, key) ==> key in keys
    decreases |keys|
  {
    if keys != [] && keys[0] != key {
      TurnKeepsKeys(s.table, keys[0], now, maxAttempts, handle(keys[0]));
      var turn := TakeTurn(s.table, keys[0], now, maxAttempts, handle(keys[0]));
      if !turn.Aborted? { OnlySelectedServed(Tally(s, turn), keys[1..], now, maxAttempts, handle, key); }
    }
  }

  // ---------------------------------------------------------------- turns that raise

  /** Some listed row within its budget has a turn that raises. */
  ghost predicate Poisoned(t: Table, keys: seq<DedupKey>, maxAttempts: int, turn: DedupKey -> HandlerResult) {
    exists k :: k in keys && Count(t, k) < maxAttempts && turn(k).Raised?
  }

  lemma {:induction false} RowsAbortIffPoisoned(
      s: Tick, keys: seq<DedupKey>, now: real, maxAttempts: int, turn: DedupKey -> HandlerResult)
    requires Distinct(keys) && !s.aborted
    requires forall k :: k in keys ==> k in s.table
    ensures RunRows(s, keys, now, maxAttempts, turn).aborted <==> Poisoned(s.table, keys, maxAttempts, turn)
    decreases |keys|
  {
    if keys != [] {
      var k0 := keys[0];
      TurnKeepsKeys(s.table, k0, now, maxAttempts, turn(k0));
      PoisonAfterTurn(s.table, keys, now, maxAttempts, turn);
      var first := TakeTurn(s.table, k0, now, maxAttempts, turn(k0));
      if !first.Aborted? { RowsAbortIffPoisoned(Tally(s, first), keys[1..], now, maxAttempts, turn); }
    }
  }

  /** A turn aborts exactly when it raises within budget; otherwise it leaves the poison of the rows
      after it as it is. */
  lemma PoisonAfterTurn(t: Table, keys: seq<DedupKey>, now: real, maxAttempts: int, turn: DedupKey -> HandlerResult)
    requires keys != [] && Distinct(keys) && keys[0] in t
    ensures var first := TakeTurn(t, keys[0], now, maxAttempts, turn(keys[0]));
            && (first.Aborted? ==> Poisoned(t, keys, maxAttempts, turn))
            && (!first.Aborted? ==>
                  (Poisoned(first.table, keys[1..], maxAttempts, turn) <==> Poisoned(t, keys, maxAttempts, turn)))
  {
    var first := TakeTurn(t, keys[0], now, maxAttempts, turn(keys[0]));
    assert first.Aborted? <==> Count(t, keys[0]) < maxAttempts && turn(keys[0]).Raised?;
    if first.Aborted? {
      assert keys[0] in keys;
    } else {
      forall k | k in keys[1..]
        ensures Count(first.table, k) == Count(t, k) && k in keys && k != keys[0]
      {
        TurnCounts(t, keys[0], now, maxAttempts, turn(keys[0]), k);
      }
      assert forall k :: k in keys <==> k == keys[0] || k in keys[1..];
    }
  }

  /** A row is served exactly when the tick cut off after it would complete. */
  lemma {:induction false} ServesIfPrefixCompletes(
      s: Tick, keys: seq<DedupKey>, now: real, maxAttempts: int,
      turn: DedupKey -> HandlerResult, i: nat)
    requires Distinct(keys) && i < |keys| && !s.aborted
    requires forall k :: k in keys ==> k in s.table
    ensures Serves(s, keys, now, maxAttempts, turn, keys[i]) <==> !RunRows(s, keys[..i + 1], now, maxAttempts, turn).aborted
    decreases |keys|
  {
    var front, rest := keys[..i + 1], keys[1..];
    var first := TakeTurn(s.table, keys[0], now, maxAttempts, turn(keys[0]));
    ServesStep(s, keys, now, maxAttempts, turn, keys[i]);
    if !first.Aborted? {
      if i == 0 {
        assert front[1..] == [];
      } else {
        assert front[1..] == rest[..i] && rest[i - 1] == keys[i];
        ServesIfPrefixCompletes(Tally(s, first), rest, now, maxAttempts, turn, i - 1);
      }
    }
  }

  /** Whether a row is served, one turn at a time. */
  lemma ServesStep(
      s: Tick, keys: seq<DedupKey>, now: real, maxAttempts: int,
      turn: DedupKey -> HandlerResult, key: DedupKey)
    requires keys != [] && forall k :: k in keys ==> k in s.table
    ensures var first := TakeTurn(s.table, keys[0], now, maxAttempts, turn(keys[0]));
            if first.Aborted? then !Serves(s, keys, now, maxAttempts, turn, key)
            else
              && (forall k :: k in keys[1..] ==> k in first.table)
              && Serves(s, keys, now, maxAttempts, turn, key)
                 == (keys[0] == key || Serves(Tally(s, first), keys[1..], now, maxAttempts, turn, key))
  {
    TurnKeepsKeys(s.table, keys[0], now, maxAttempts, turn(keys[0]));
  }

  /** The guard of every raise in a tick: the row is within budget, and either its failure type is
      outside the enum or its handler raises. */
  predicate Raises(t: Table, key: DedupKey, maxAttempts: int, handle: DedupKey -> HandlerResult)
    requires key in t
  {
    t[key].retryCount < maxAttempts && (t[key].failureType.Unrecognised? || handle(key).Raised?)
  }

  /** A tick gets through all its rows exactly when none of them raises; a raise aborts all rows after it. */
  lemma TickAbortsIffRaises(t: Table, k: TickRun, maxAttempts: int)
    requires Distinct(k.order) && forall key :: key in k.order ==> key in t
    ensures RunTick(t, k, maxAttempts).aborted <==> exists key :: key in k.order && Raises(t, key, maxAttempts, k.handle)
  {
    RowsAbortIffPoisoned(Fresh(t), k.order, k.now, maxAttempts, Dispatched(t, k.handle));
    PoisonIsRaise(t, k.order, maxAttempts, k.handle);
  }

  lemma PoisonIsRaise(t: Table, keys: seq<DedupKey>, maxAttempts: int, handle: DedupKey -> HandlerResult)
    requires forall key :: key in keys ==> key in t
    ensures Poisoned(t, keys, maxAttempts, Dispatched(t, handle))
       <==> exists key :: key in keys && Raises(t, key, maxAttempts, handle)
  {
    forall key | key in keys
      ensures Raises(t, key, maxAttempts, handle) <==> Count(t, key) < maxAttempts && Dispatched(t, handle)(key).Raised?
    {
    }
  }

  /** A row's turn is reached and completed exactly when neither it nor a row before it raises. */
  lemma ServedIffNoneRaises(t: Table, k: TickRun, maxAttempts: int, i: nat)
    requires Distinct(k.order) && i < |k.order| && forall key :: key in k.order ==> key in t
    ensures TickServes(t, k, maxAttempts, k.order[i])
       <==> forall j :: 0 <= j <= i ==> !Raises(t, k.order[j], maxAttempts, k.handle)
  {
    var front := k.order[..i + 1];
    ServesIfPrefixCompletes(Fresh(t), k.order, k.now, maxAttempts, Dispatched(t, k.handle), i);
    RowsAbortIffPoisoned(Fresh(t), front, k.now, maxAttempts, Dispatched(t, k.handle));
    PoisonIsRaise(t, front, maxAttempts, k.handle);
    assert forall j :: 0 <= j <= i ==> front[j] == k.order[j];
  }

  /** The charge of a selected row, exactly: one if it is within budget and neither it nor a row before
      it raises, otherwise none. */
  lemma RowChargedExactly(t: Table, k: TickRun, maxAttempts: int, i: nat)
    requires Distinct(k.order) && i < |k.order| && forall key :: key in k.order ==> key in t
    ensures var before, after := Count(t, k.order[i]), Count(RunTick(t, k, maxAttempts).table, k.order[i]);
            var charged := before < maxAttempts && forall j :: 0 <= j <= i ==> !Raises(t, k.order[j], maxAttempts, k.handle);
            after == before + (if charged then 1 else 0)
  {
    TickCounts(Fresh(t), k.order, k.now, maxAttempts, Dispatched(t, k.handle), k.order[i]);
    ServedIffNoneRaises(t, k, maxAttempts, i);
  }

  /** The attempt bound needs retries that return: a row of unknown failure type, or whose handler
      raises, is rolled back and never charged, and while open it raises again at every later tick. */
  lemma RaisingRowIsNeverCharged(t: Table, k: TickRun, maxAttempts: int, key: DedupKey)
    requires Distinct(k.order) && forall other :: other in k.order ==> other in t
    requires key in t && (t[key].failureType.Unrecognised? || k.handle(key).Raised?)
    ensures Count(RunTick(t, k, maxAttempts).table, key) == Count(t, key)
  {
    if key in k.order {
      var i :| 0 <= i < |k.order| && k.order[i] == key;
      RowChargedExactly(t, k, maxAttempts, i);
      assert Count(t, key) < maxAttempts ==> Raises(t, k.order[i], maxAttempts, k.handle);
    } else {
      TickCounts(Fresh(t), k.order, k.now, maxAttempts, Dispatched(t, k.handle), key);
      OnlySelectedServed(Fresh(t), k.order, k.now, maxAttempts, Dispatched(t, k.handle), key);
    }
  }

  const FIRST := DetailUrlKey(1, "a")
  const SECOND := DetailUrlKey(1, "b")

  /** Two copies of a row; the first has a failure type outside the enum, if asked for. */
  function TwoRows(row: FailureRow, unknown: bool): Table {
    map[FIRST := if unknown then row.(failureType := Unrecognised("old_name")) else row, SECOND := row]
  }

  /** Handlers that succeed, except that the first row's may raise. */
  function Succeeding(firstRaises: bool): DedupKey -> HandlerResult {
    (k: DedupKey) => if k == FIRST && firstRaises then Raised else Returned(true, None, [])
  }

  /** Two blocked rows, the first of unknown failure type or with a handler that raises: the tick
      aborts, charges neither, and the second, which would have been resolved, is left untouched. */
  lemma RaiseStarvesTheRest(row: FailureRow, now: real, unknown: bool)
    requires row.status == Open && row.blockedStatus.Some? && !row.failureType.Unrecognised? && row.retryCount == 0
    ensures FIRST != SECOND
    ensures var t, handle := TwoRows(row, unknown), Succeeding(!unknown);
            var both, alone := RunTick(t, TickRun(now, [FIRST, SECOND], handle), 3), RunTick(t, TickRun(now, [SECOND], handle), 3);
            && both.aborted && both.table == t && both.attempted == 0
            && SECOND in alone.table && alone.table[SECOND].status == Resolved
  {
    assert FIRST != SECOND by { assert "a"[0] != "b"[0]; }
    var t := TwoRows(row, unknown);
    var turn := Dispatched(t, Succeeding(!unknown));
    assert TakeTurn(t, FIRST, now, 3, turn(FIRST)).Aborted?;
    assert RunRows(Fresh(t), [FIRST, SECOND], now, 3, turn) == Fresh(t).(aborted := true);
    var charged := t[SECOND := row.(retryCount := 1)];
    assert RecordAll(charged, []) == charged;
    assert turn(SECOND) == Returned(true, None, []);
    var spent := TakeTurn(t, SECOND, now, 3, turn(SECOND));
    assert spent.Spent? && SECOND in spent.table && spent.table[SECOND].status == Resolved;
    assert [SECOND][1..] == [];
    assert RunRows(Fresh(t), [SECOND], now, 3, turn) == Tally(Fresh(t), spent);
  }
}
