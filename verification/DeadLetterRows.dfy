/** What a series of recorded failures leaves of each row, column by column. */
module DeadLetterRows {
  import opened Options
  import opened DeadLetters

  /** The i-th write is the last one to the row. */
  predicate LastTo(ws: seq<Write>, key: DedupKey, i: nat) {
    i < |ws| && ws[i].key == key && forall j :: i < j < |ws| ==> ws[j].key != key
  }

  lemma {:induction false} LastExists(ws: seq<Write>, key: DedupKey) returns (i: nat)
    requires exists w :: w in ws && w.key == key
    ensures LastTo(ws, key, i)
    decreases |ws|
  {
    var n := |ws| - 1;
    if ws[n].key == key {
      i := n;
    } else {
      var w :| w in ws && w.key == key;
      assert w in ws[..n];
      i := LastExists(ws[..n], key);
      assert ws[i] == ws[..n][i];
      assert forall j :: i < j < n ==> ws[j] == ws[..n][j];
    }
  }

  lemma {:induction false} RecordAllAppend(t: Table, a: seq<Write>, b: seq<Write>)
    ensures RecordAll(t, a + b) == RecordAll(RecordAll(t, a), b)
    decreases |a|
  {
    if a == [] {
      assert a + b == b;
    } else {
      assert (a + b)[1..] == a[1..] + b;
      RecordAllAppend(RecordFailure(t, a[0]), a[1..], b);
    }
  }

  /** A row no write names is left as it is, absent or present. */
  lemma {:induction false} UntouchedRow(t: Table, ws: seq<Write>, key: DedupKey)
    requires forall w :: w in ws ==> w.key != key
    ensures SameRow(t, RecordAll(t, ws), key)
    decreases |ws|
  {
    if ws != [] { UntouchedRow(RecordFailure(t, ws[0]), ws[1..], key); }
  }

  /** Both tables have the row, with the same columns, or neither has it. */
  predicate SameRow(t: Table, u: Table, key: DedupKey) {
    (key in t <==> key in u) && (key in t ==> t[key] == u[key])
  }

  /** A column that is not passed by any write to the row keeps its value, null in a new row. */
  predicate Kept<T(==)>(t: Table, key: DedupKey, column: FailureRow -> Option<T>, row: FailureRow) {
    column(row) == if key in t then column(t[key]) else None
  }

  /** The row after a failure was recorded: open, with what the write passed; never with a new budget. */
  ghost predicate Reflects(t: Table, row: FailureRow, w: Write) {
    && row.failureType == w.failureType
    && row.status == Open
    && row.occurredAt == w.at
    && row.resolvedAt == None
    && row.errorMessage == w.fields.errorMessage
    && (w.fields.blockedStatus.Some? ==> row.blockedStatus == w.fields.blockedStatus.value)
    && (w.fields.url.Some? ==> row.url == w.fields.url.value)
    && row.retryCount == (if w.key in t then t[w.key].retryCount else 0)
  }

  /** The last write to a row decides its columns; one it does not pass, and no write before it
      passed, is as it was. */
  lemma {:induction false} RecordedRow(t: Table, ws: seq<Write>, key: DedupKey, i: nat)
    requires LastTo(ws, key, i)
    ensures key in RecordAll(t, ws) && Reflects(t, RecordAll(t, ws)[key], ws[i])
    ensures var row := RecordAll(t, ws)[key];
            && ((forall w :: w in ws && w.key == key ==> w.fields.blockedStatus.None?) ==>
                  Kept(t, key, (r: FailureRow) => r.blockedStatus, row))
            && ((forall w :: w in ws && w.key == key ==> w.fields.url.None?) ==>
                  Kept(t, key, (r: FailureRow) => r.url, row))
    decreases |ws|
  {
    var t' := RecordFailure(t, ws[0]);
    if i == 0 {
      assert forall w :: w in ws[1..] ==> w.key != key;
      UntouchedRow(t', ws[1..], key);
    } else {
      assert forall j :: i - 1 < j < |ws[1..]| ==> ws[1..][j] == ws[j + 1];
      RecordedRow(t', ws[1..], key, i - 1);
      assert ws[0] in ws;
    }
  }

  /** The row of an open dead letter recorded just now, its budget as it was. */
  predicate JustRecorded(before: Table, after: Table, key: DedupKey, failureType: FailureType, now: real) {
    && key in after
    && var row := after[key];
       && row.failureType == failureType && row.status == Open && row.occurredAt == now && row.resolvedAt == None
       && row.retryCount == (if key in before then before[key].retryCount else 0)
  }
}
