/** What the retry tick leaves of each row it selects, column by column. */
module RetryOutcomes {
  import opened Options
  import opened Sequences
  import opened DeadLetters
  import opened DeadLetterRows
  import opened RetryQueue

  /** Given up: abandoned, and otherwise as it was. */
  predicate GivenUp(before: FailureRow, after: FailureRow) {
    after.status == Abandoned && after.(status := before.status) == before
  }

  /** When a failed retry last touched the row: now if the handler marked it, otherwise when the
      handler last recorded a failure of it, if it did. */
  function FailedAt(before: FailureRow, key: DedupKey, now: real, h: HandlerResult): real
    requires h.Returned?
  {
    if h.mark.Some? then now else GetOr(LastWrite(h.writes, key), before.occurredAt)
  }

  /** Retried once: charged, and resolved as of now or still open. */
  predicate Retried(before: FailureRow, after: FailureRow, key: DedupKey, now: real, h: HandlerResult)
    requires h.Returned?
  {
    && after.retryCount == before.retryCount + 1
    && after.blockedStatus == GetOr(LastStatus(h.writes, key), before.blockedStatus)
    && (if h.ok then after.status == Resolved && after.resolvedAt == Some(now)
        else after.status == Open && after.occurredAt == FailedAt(before, key, now, h)
             && (h.mark.Some? ==> after.errorMessage == h.mark.value))
  }

  /** One turn of an open row: given up at the budget, with nothing else touched, and otherwise retried. */
  lemma RowAfterTurn(t: Table, key: DedupKey, now: real, maxAttempts: int, h: HandlerResult)
    requires key in t && t[key].status == Open
    ensures var r := TakeTurn(t, key, now, maxAttempts, h);
            && (r.GaveUp? <==> t[key].retryCount >= maxAttempts)
            && (r.Aborted? <==> t[key].retryCount < maxAttempts && h.Raised?)
            && (r.GaveUp? ==> key in r.table && GivenUp(t[key], r.table[key])
                              && forall other :: other != key ==> SameRow(t, r.table, other))
            && (r.Spent? ==> h.Returned? && key in r.table && Retried(t[key], r.table[key], key, now, h))
  {
    if t[key].retryCount < maxAttempts && h.Returned? {
      var charged := t[key := t[key].(retryCount := t[key].retryCount + 1)];
      RecordAllRow(charged, h.writes, key);
      RecordAllKeepsCounts(charged, h.writes, key);
    }
  }

  /** No handler of the rows from the i-th on records a failure of `key`. */
  ghost predicate LaterLeave(keys: seq<DedupKey>, i: nat, turn: DedupKey -> HandlerResult, key: DedupKey) {
    forall j :: i <= j < |keys| && turn(keys[j]).Returned? ==> forall w :: w in turn(keys[j]).writes ==> w.key != key
  }

  lemma TurnLeavesRow(t: Table, at: DedupKey, now: real, maxAttempts: int, h: HandlerResult, key: DedupKey)
    requires at in t && key in t && at != key
    requires h.Returned? ==> forall w :: w in h.writes ==> w.key != key
    ensures var r := TakeTurn(t, at, now, maxAttempts, h);
            !r.Aborted? ==> key in r.table && r.table[key] == t[key]
  {
    if t[at].retryCount < maxAttempts && h.Returned? {
      var charged := t[at := t[at].(retryCount := t[at].retryCount + 1)];
      RecordAllKeepsKeys(charged, h.writes);
      RecordAllElsewhere(charged, h.writes, key);
    }
  }

  /** The rows that come after leave a row alone if their handlers record no failure of it. */
  lemma {:induction false} RestLeavesRow(
      s: Tick, keys: seq<DedupKey>, now: real, maxAttempts: int, turn: DedupKey -> HandlerResult, key: DedupKey)
    requires forall k :: k in keys ==> k in s.table
    requires key in s.table && key !in keys && LaterLeave(keys, 0, turn, key)
    ensures var r := RunRows(s, keys, now, maxAttempts, turn);
            key in r.table && r.table[key] == s.table[key]
    decreases |keys|
  {
    if keys != [] {
      var k0 := keys[0];
      TurnKeepsKeys(s.table, k0, now, maxAttempts, turn(k0));
      TurnLeavesRow(s.table, k0, now, maxAttempts, turn(k0), key);
      var first := TakeTurn(s.table, k0, now, maxAttempts, turn(k0));
      if !first.Aborted? {
        assert forall j :: 0 <= j < |keys[1..]| ==> keys[1..][j] == keys[j + 1];
        RestLeavesRow(Tally(s, first), keys[1..], now, maxAttempts, turn, key);
      }
    }
  }

  /** No handler of the rows before the i-th records a failure of `key`. */
  ghost predicate EarlierLeave(keys: seq<DedupKey>, i: nat, turn: DedupKey -> HandlerResult, key: DedupKey) {
    forall j :: 0 <= j < i <= |keys| && turn(keys[j]).Returned? ==> forall w :: w in turn(keys[j]).writes ==> w.key != key
  }

  lemma LeaveTail(keys: seq<DedupKey>, i: nat, turn: DedupKey -> HandlerResult, key: DedupKey)
    requires 0 < i < |keys|
    ensures LaterLeave(keys, i + 1, turn, key) ==> LaterLeave(keys[1..], i, turn, key)
    ensures EarlierLeave(keys, i, turn, key) ==> EarlierLeave(keys[1..], i - 1, turn, key)
  {
    assert forall j :: 0 <= j < |keys| - 1 ==> keys[1..][j] == keys[j + 1];
  }

  /** A turn before the row's own leaves its status and budget, and all of it unless it records a
      failure of it. */
  lemma EarlierTurn(t: Table, at: DedupKey, now: real, maxAttempts: int, h: HandlerResult, key: DedupKey)
    requires at in t && key in t && t[key].status == Open && key != at
    ensures var r := TakeTurn(t, at, now, maxAttempts, h);
            !r.Aborted? ==>
              && key in r.table && r.table[key].status == Open && r.table[key].retryCount == t[key].retryCount
              && ((h.Returned? ==> forall w :: w in h.writes ==> w.key != key) ==> r.table[key] == t[key])
  {
    TurnLeavesOthersOpen(t, at, now, maxAttempts, h, key);
    TurnCounts(t, at, now, maxAttempts, h, key);
    if h.Returned? ==> forall w :: w in h.writes ==> w.key != key {
      TurnLeavesRow(t, at, now, maxAttempts, h, key);
    }
  }

  /** The first row's turn decides what the tick leaves of it. */
  lemma FirstTurnDecides(s: Tick, keys: seq<DedupKey>, now: real, maxAttempts: int, turn: DedupKey -> HandlerResult)
    requires Distinct(keys) && keys != [] && forall k :: k in keys ==> k in s.table
    requires LaterLeave(keys, 1, turn, keys[0])
    ensures var own := TakeTurn(s.table, keys[0], now, maxAttempts, turn(keys[0]));
            !own.Aborted? ==>
              var r := RunRows(s, keys, now, maxAttempts, turn);
              keys[0] in own.table && keys[0] in r.table && r.table[keys[0]] == own.table[keys[0]]
  {
    var own := TakeTurn(s.table, keys[0], now, maxAttempts, turn(keys[0]));
    TurnKeepsKeys(s.table, keys[0], now, maxAttempts, turn(keys[0]));
    if !own.Aborted? {
      assert forall j :: 0 <= j < |keys| - 1 ==> keys[1..][j] == keys[j + 1];
      RestLeavesRow(Tally(s, own), keys[1..], now, maxAttempts, turn, keys[0]);
    }
  }

  /** The i-th row is open, its turn is reached and completed, and no later row records a failure of it. */
  ghost predicate Due(s: Tick, keys: seq<DedupKey>, now: real, maxAttempts: int, turn: DedupKey -> HandlerResult, i: nat) {
    && Distinct(keys) && i < |keys| && (forall k :: k in keys ==> k in s.table)
    && s.table[keys[i]].status == Open && LaterLeave(keys, i + 1, turn, keys[i])
    && Serves(s, keys, now, maxAttempts, turn, keys[i])
  }

  /** After the first of several turns the row is due as before, with the budget it had. */
  lemma DueAfterFirst(s: Tick, keys: seq<DedupKey>, now: real, maxAttempts: int, turn: DedupKey -> HandlerResult, i: nat)
    requires i > 0 && Due(s, keys, now, maxAttempts, turn, i)
    ensures var first := TakeTurn(s.table, keys[0], now, maxAttempts, turn(keys[0]));
            && !first.Aborted? && Due(Tally(s, first), keys[1..], now, maxAttempts, turn, i - 1)
            && keys[i] in first.table && first.table[keys[i]].retryCount == s.table[keys[i]].retryCount
            && (EarlierLeave(keys, i, turn, keys[i]) ==>
                  first.table[keys[i]] == s.table[keys[i]] && EarlierLeave(keys[1..], i - 1, turn, keys[i]))
  {
    TurnKeepsKeys(s.table, keys[0], now, maxAttempts, turn(keys[0]));
    ServesStep(s, keys, now, maxAttempts, turn, keys[i]);
    EarlierTurn(s.table, keys[0], now, maxAttempts, turn(keys[0]), keys[i]);
    LeaveTail(keys, i, turn, keys[i]);
  }

  /** The row as its turn finds it has the budget and the status it was selected with; what the turn
      leaves of it is what the tick leaves of it. */
  lemma {:induction false} RowsReachTurn(
      s: Tick, keys: seq<DedupKey>, now: real, maxAttempts: int, turn: DedupKey -> HandlerResult, i: nat)
      returns (t: Table)
    requires Due(s, keys, now, maxAttempts, turn, i)
    ensures keys[i] in t && t[keys[i]].status == Open && t[keys[i]].retryCount == s.table[keys[i]].retryCount
    ensures EarlierLeave(keys, i, turn, keys[i]) ==> t[keys[i]] == s.table[keys[i]]
    ensures var own := TakeTurn(t, keys[i], now, maxAttempts, turn(keys[i]));
            var r := RunRows(s, keys, now, maxAttempts, turn);
            && !own.Aborted? && keys[i] in own.table && keys[i] in r.table
            && r.table[keys[i]] == own.table[keys[i]]
    decreases |keys|
  {
    if i == 0 {
      t := s.table;
      ServesStep(s, keys, now, maxAttempts, turn, keys[0]);
      FirstTurnDecides(s, keys, now, maxAttempts, turn);
    } else {
      DueAfterFirst(s, keys, now, maxAttempts, turn, i);
      t := RowsReachTurn(Tally(s, TakeTurn(s.table, keys[0], now, maxAttempts, turn(keys[0]))), keys[1..], now, maxAttempts, turn, i - 1);
    }
  }

  /** The i-th selected row is open, its turn is reached and does not raise. */
  ghost predicate Reached(t: Table, k: TickRun, maxAttempts: int, i: nat) {
    && Distinct(k.order) && i < |k.order| && (forall key :: key in k.order ==> key in t)
    && t[k.order[i]].status == Open
    && forall j :: 0 <= j <= i ==> !Raises(t, k.order[j], maxAttempts, k.handle)
  }

  /** How a selected row ends the tick, unless the handler of a later row records a failure of it:
      abandoned if and only if its budget was spent, resolved if and only if it was within budget and
      its handler succeeded, and otherwise open with one attempt more. */
  lemma RowAfterTick(t: Table, k: TickRun, maxAttempts: int, i: nat)
    requires Reached(t, k, maxAttempts, i) && LaterLeave(k.order, i + 1, k.handle, k.order[i])
    ensures var key := k.order[i];
            var spent, h := t[key].retryCount >= maxAttempts, k.handle(key);
            var end := RunTick(t, k, maxAttempts).table;
            && key in end
            && (end[key].status == Abandoned <==> spent)
            && (end[key].status == Resolved <==> !spent && h.Returned? && h.ok)
            && (end[key].status == Resolved ==> end[key].resolvedAt == Some(k.now))
            && end[key].retryCount == t[key].retryCount + (if spent then 0 else 1)
  {
    var key, turn := k.order[i], Dispatched(t, k.handle);
    ServedIffNoneRaises(t, k, maxAttempts, i);
    var before := RowsReachTurn(Fresh(t), k.order, k.now, maxAttempts, turn, i);
    RowAfterTurn(before, key, k.now, maxAttempts, turn(key));
    assert !Raises(t, k.order[i], maxAttempts, k.handle);
  }

  /** With no failure recorded by another row's handler, a row that is given up changes in its status
      only, and one that is retried is as `Retried` says. */
  lemma OwnRowAfterTick(t: Table, k: TickRun, maxAttempts: int, i: nat)
    requires Reached(t, k, maxAttempts, i) && Leaves(k.handle, k.order[i])
    ensures var key := k.order[i];
            var h, end := k.handle(key), RunTick(t, k, maxAttempts).table;
            && key in end
            && (if t[key].retryCount >= maxAttempts then GivenUp(t[key], end[key])
                else h.Returned? && Retried(t[key], end[key], key, k.now, h))
  {
    var key, turn := k.order[i], Dispatched(t, k.handle);
    ServedIffNoneRaises(t, k, maxAttempts, i);
    var before := RowsReachTurn(Fresh(t), k.order, k.now, maxAttempts, turn, i);
    RowAfterTurn(before, key, k.now, maxAttempts, turn(key));
    assert !Raises(t, k.order[i], maxAttempts, k.handle);
  }

  /** The cooldown after a failed retry: the row may be picked up again exactly when its tag is left
      and `min_age` has passed since the retry, if the handler marked the row, or else since the
      failure it last recorded of it, or else since the failure the row was selected for. */
  lemma FailedRetryCoolsDown(t: Table, k: TickRun, maxAttempts: int, i: nat, cutoff: real)
    requires Reached(t, k, maxAttempts, i) && Leaves(k.handle, k.order[i])
    requires var key := k.order[i];
             && t[key].blockedStatus.Some? && t[key].retryCount < maxAttempts
             && k.handle(key).Returned? && !k.handle(key).ok
    ensures var key := k.order[i];
            var h := k.handle(key);
            Eligible(RunTick(t, k, maxAttempts).table, key, cutoff)
            <==> LastStatus(h.writes, key) != Some(None) && FailedAt(t[key], key, k.now, h) <= cutoff
  {
    OwnRowAfterTick(t, k, maxAttempts, i);
  }

  lemma {:induction false} NothingRecorded(ws: seq<Write>, key: DedupKey)
    requires forall w :: w in ws ==> w.key != key
    ensures LastStatus(ws, key) == None && LastWrite(ws, key) == None
    decreases |ws|
  {
    if ws != [] { NothingRecorded(ws[1..], key); }
  }

  /** So a handler that fails without marking the row or recording a failure of it, as a detail retry
      does on a page it cannot fetch or parse, does not restart the cooldown: the very next tick may
      pick the row up again, until its budget is spent. */
  lemma UnmarkedRetryHasNoCooldown(t: Table, k: TickRun, maxAttempts: int, i: nat, cutoff: real)
    requires Reached(t, k, maxAttempts, i) && Leaves(k.handle, k.order[i])
    requires var h := k.handle(k.order[i]);
             h.Returned? && !h.ok && h.mark.None? && forall w :: w in h.writes ==> w.key != k.order[i]
    requires t[k.order[i]].retryCount < maxAttempts && Eligible(t, k.order[i], cutoff)
    ensures Eligible(RunTick(t, k, maxAttempts).table, k.order[i], cutoff)
  {
    FailedRetryCoolsDown(t, k, maxAttempts, i, cutoff);
    NothingRecorded(k.handle(k.order[i]).writes, k.order[i]);
  }

  // ---------------------------------------------------------------- rows out of budget

  /** A retry by hand works on a row of any status and is not charged; on a raise, or an unknown failure
      type, nothing changes at all. */
  lemma ManualRetry(t: Table, key: DedupKey, now: real, maxAttempts: int, h: HandlerResult)
    requires key in t
    ensures var after := Apply(t, Manual(key, now, h), maxAttempts);
            && key in after && after[key].retryCount == t[key].retryCount
            && (h.Raised? || t[key].failureType.Unrecognised? ==> after == t)
            && (h.Returned? && !t[key].failureType.Unrecognised? ==>
                  && after[key].blockedStatus == GetOr(LastStatus(h.writes, key), t[key].blockedStatus)
                  && (h.ok ==> after[key].status == Resolved && after[key].resolvedAt == Some(now))
                  && (!h.ok ==> after[key].status == (if LastWrite(h.writes, key).Some? then Open else t[key].status)
                                && after[key].occurredAt == FailedAt(t[key], key, now, h)))
  {
    if h.Returned? && !t[key].failureType.Unrecognised? {
      RecordAllRow(t, h.writes, key);
      RecordAllKeepsCounts(t, h.writes, key);
    }
  }

  /** A budget once spent stays spent, whatever is recorded, resolved by hand or reopened in between: the
      row is never retried automatically again, and a turn it gets while open gives it up. */
  lemma SpentBudgetStaysSpent(t: Table, es: seq<Event>, maxAttempts: int, key: DedupKey, now: real, h: HandlerResult)
    requires key in t && t[key].retryCount >= maxAttempts
    ensures AutoRetries(t, es, maxAttempts, key) == 0
    ensures var later := History(t, es, maxAttempts);
            && key in later && later[key].retryCount == t[key].retryCount
            && TakeTurn(later, key, now, maxAttempts, h).GaveUp?
            && key in TakeTurn(later, key, now, maxAttempts, h).table
            && GivenUp(later[key], TakeTurn(later, key, now, maxAttempts, h).table[key])
  {
    BoundedAutoRetries(t, es, maxAttempts, key);
    HistoryKeepsRows(t, es, maxAttempts, key);
  }

  lemma {:induction false} HistoryKeepsRows(t: Table, es: seq<Event>, maxAttempts: int, key: DedupKey)
    requires key in t
    ensures key in History(t, es, maxAttempts)
    decreases |es|
  {
    if es != [] {
      match es[0] {
        case Recorded(w) =>
        case Manual(at, now, h) => if at in t { PerformRetryKeepsKeys(t, at, now, Dispatch(t[at].failureType, h)); }
        case Automatic(at, now, h) => if at in t { TurnKeepsKeys(t, at, now, maxAttempts, h); }
      }
      HistoryKeepsRows(Apply(t, es[0], maxAttempts), es[1..], maxAttempts, key);
    }
  }
}
