/**
 * Scoring a batch (app/llm/matcher.py `score_offers_with_langchain`): model calls run
 * concurrently under a semaphore, rows are written afterwards in input order.
 */
module ConcurrentScoring {
  import opened Sequences

  type OfferId = int

  /** What the matcher comes to for one offer. */
  datatype Outcome = Scored(percent: int) | Failed(message: string)

  /** One offer of the batch, whether its connector is in scope, and its outcome if it is. */
  datatype Job = Job(id: OfferId, inScope: bool, outcome: Outcome)

  /** A finished task's result: out-of-scope offers have none. */
  datatype Result = NoScore | Done(outcome: Outcome)

  function ResultOf(job: Job): Result {
    if job.inScope then Done(job.outcome) else NoScore
  }

  datatype Task = Waiting | InFlight | Finished(result: Result)

  /** The gathered tasks, the count of finished ones, and the progress reports made. */
  datatype Batch = Batch(tasks: seq<Task>, completed: nat, reports: seq<nat>)

  function Init(jobs: seq<Job>): Batch {
    Batch(seq(|jobs|, _ => Waiting), 0, [])
  }

  function InFlightCount(tasks: seq<Task>): nat {
    if tasks == [] then 0 else (if tasks[0].InFlight? then 1 else 0) + InFlightCount(tasks[1..])
  }

  function FinishedCount(tasks: seq<Task>): nat {
    if tasks == [] then 0 else (if tasks[0].Finished? then 1 else 0) + FinishedCount(tasks[1..])
  }

  /** The event loop resumes task i: an in-scope task takes a semaphore slot if one is free, a task
      in flight gets its answer, an out-of-scope one finishes at once. */
  predicate Enabled(jobs: seq<Job>, limit: nat, b: Batch, i: nat)
    requires |b.tasks| == |jobs|
  {
    i < |jobs| &&
    match b.tasks[i]
    case Waiting => !jobs[i].inScope || InFlightCount(b.tasks) < limit
    case InFlight => true
    case Finished(_) => false
  }

  function Resume(jobs: seq<Job>, limit: nat, b: Batch, i: nat): (b': Batch)
    requires |b.tasks| == |jobs| && Enabled(jobs, limit, b, i)
    ensures |b'.tasks| == |jobs|
  {
    if b.tasks[i].Waiting? && jobs[i].inScope then b.(tasks := b.tasks[i := InFlight])
    else Batch(b.tasks[i := Finished(ResultOf(jobs[i]))], b.completed + 1, b.reports + [b.completed + 1])
  }

  /** A schedule: which task is resumed at each step. */
  predicate Schedule(jobs: seq<Job>, limit: nat, b: Batch, order: seq<nat>)
    requires |b.tasks| == |jobs|
    decreases |order|
  {
    order == [] ||
    (Enabled(jobs, limit, b, order[0]) && Schedule(jobs, limit, Resume(jobs, limit, b, order[0]), order[1..]))
  }

  function After(jobs: seq<Job>, limit: nat, b: Batch, order: seq<nat>): (b': Batch)
    requires |b.tasks| == |jobs| && Schedule(jobs, limit, b, order)
    ensures |b'.tasks| == |jobs|
    decreases |order|
  {
    if order == [] then b else After(jobs, limit, Resume(jobs, limit, b, order[0]), order[1..])
  }

  predicate AllFinished(b: Batch) {
    forall i :: 0 <= i < |b.tasks| ==> b.tasks[i].Finished?
  }

  // ---------------------------------------------------------------- invariant over every schedule

  function UpTo(n: nat): seq<nat> {
    seq(n, i requires 0 <= i < n => i + 1)
  }

  ghost predicate Invariant(jobs: seq<Job>, limit: nat, b: Batch) {
    && |b.tasks| == |jobs|
    && InFlightCount(b.tasks) <= limit
    && b.completed == FinishedCount(b.tasks)
    && b.reports == UpTo(b.completed)
    && (forall i :: 0 <= i < |jobs| && b.tasks[i].Finished? ==> b.tasks[i].result == ResultOf(jobs[i]))
    && (forall i :: 0 <= i < |jobs| && b.tasks[i].InFlight? ==> jobs[i].inScope)
  }

  lemma {:induction false} CountsUpdate(tasks: seq<Task>, i: nat, to: Task)
    requires i < |tasks|
    ensures InFlightCount(tasks[i := to]) == InFlightCount(tasks) - (if tasks[i].InFlight? then 1 else 0) + (if to.InFlight? then 1 else 0)
    ensures FinishedCount(tasks[i := to]) == FinishedCount(tasks) - (if tasks[i].Finished? then 1 else 0) + (if to.Finished? then 1 else 0)
  {
    if i == 0 {
      assert tasks[i := to][1..] == tasks[1..];
    } else {
      assert tasks[i := to][1..] == tasks[1..][i - 1 := to];
      CountsUpdate(tasks[1..], i - 1, to);
    }
  }

  lemma {:induction false} CountsZero(n: nat)
    ensures InFlightCount(seq(n, _ => Waiting)) == 0 && FinishedCount(seq(n, _ => Waiting)) == 0
  {
    if n > 0 {
      assert seq(n, _ => Waiting)[1..] == seq(n - 1, _ => Waiting);
      CountsZero(n - 1);
    }
  }

  lemma ResumeKeepsInvariant(jobs: seq<Job>, limit: nat, b: Batch, i: nat)
    requires Invariant(jobs, limit, b) && Enabled(jobs, limit, b, i)
    ensures Invariant(jobs, limit, Resume(jobs, limit, b, i))
  {
    CountsUpdate(b.tasks, i, Resume(jobs, limit, b, i).tasks[i]);
    assert UpTo(b.completed) + [b.completed + 1] == UpTo(b.completed + 1);
  }

  lemma {:induction false} ScheduleKeepsInvariant(jobs: seq<Job>, limit: nat, b: Batch, order: seq<nat>)
    requires Invariant(jobs, limit, b) && Schedule(jobs, limit, b, order)
    ensures Invariant(jobs, limit, After(jobs, limit, b, order))
    decreases |order|
  {
    if order != [] {
      ResumeKeepsInvariant(jobs, limit, b, order[0]);
      ScheduleKeepsInvariant(jobs, limit, Resume(jobs, limit, b, order[0]), order[1..]);
    }
  }

  /** At every point of every schedule at most `limit` model calls are in flight, and progress has
      been reported as 1, 2, ... with no number skipped or repeated. */
  lemma ConcurrencyBounded(jobs: seq<Job>, limit: nat, order: seq<nat>)
    requires Schedule(jobs, limit, Init(jobs), order)
    ensures var b := After(jobs, limit, Init(jobs), order);
            && InFlightCount(b.tasks) <= limit
            && b.completed == FinishedCount(b.tasks)
            && b.reports == UpTo(b.completed)
  {
    CountsZero(|jobs|);
    ScheduleKeepsInvariant(jobs, limit, Init(jobs), order);
  }

  // ---------------------------------------------------------------- recording, in input order

  /** The rows a batch writes: scores and dead letters, in the order they are added. */
  datatype Ledger = Ledger(scores: seq<(OfferId, int)>, failures: seq<(OfferId, string)>)

  function Record(l: Ledger, id: OfferId, r: Result): Ledger {
    match r
    case NoScore => l
    case Done(Scored(p)) => l.(scores := l.scores + [(id, p)])
    case Done(Failed(m)) => l.(failures := l.failures + [(id, m)])
  }

  /** The serial reference: score and record one offer after the other. */
  function Serial(l: Ledger, jobs: seq<Job>): Ledger
    decreases |jobs|
  {
    if jobs == [] then l else Serial(Record(l, jobs[0].id, ResultOf(jobs[0])), jobs[1..])
  }

  /** The score row an offer ends with, if it was scored, and the dead letter if that failed. */
  function ScoreRow(job: Job): seq<(OfferId, int)> {
    if job.inScope && job.outcome.Scored? then [(job.id, job.outcome.percent)] else []
  }

  function FailureRow(job: Job): seq<(OfferId, string)> {
    if job.inScope && job.outcome.Failed? then [(job.id, job.outcome.message)] else []
  }

  /** The sequential loop writes each in-scope offer's score or failure, in input order, and nothing else. */
  lemma {:induction false} SerialRows(l: Ledger, jobs: seq<Job>)
    ensures Serial(l, jobs).scores == l.scores + FlatMap(ScoreRow, jobs)
    ensures Serial(l, jobs).failures == l.failures + FlatMap(FailureRow, jobs)
    decreases |jobs|
  {
    if jobs != [] { SerialRows(Record(l, jobs[0].id, ResultOf(jobs[0])), jobs[1..]); }
  }

  /** The sequential pass after the gather. */
  method RecordResults(jobs: seq<Job>, b: Batch) returns (ledger: Ledger)
    requires |b.tasks| == |jobs| && AllFinished(b)
    requires forall i :: 0 <= i < |jobs| ==> b.tasks[i] == Finished(ResultOf(jobs[i]))
    ensures ledger == Serial(Ledger([], []), jobs)
  {
    ledger := Ledger([], []);
    var i := 0;
    while i < |jobs|
      invariant 0 <= i <= |jobs|
      invariant Serial(ledger, jobs[i..]) == Serial(Ledger([], []), jobs)
    {
      assert jobs[i..][1..] == jobs[i + 1..];
      match b.tasks[i].result {
        case NoScore =>
        case Done(Failed(message)) => ledger := ledger.(failures := ledger.failures + [(jobs[i].id, message)]);
        case Done(Scored(percent)) => ledger := ledger.(scores := ledger.scores + [(jobs[i].id, percent)]);
      }
      i := i + 1;
    }
  }

  /** The gathered results in input order, as far as tasks have finished. */
  function Gathered(l: Ledger, jobs: seq<Job>, tasks: seq<Task>): Ledger
    requires |tasks| == |jobs|
    decreases |jobs|
  {
    if jobs == [] then l
    else Gathered(if tasks[0].Finished? then Record(l, jobs[0].id, tasks[0].result) else l, jobs[1..], tasks[1..])
  }

  /** Concurrent scoring equals serial scoring: whichever schedule brought every task to its end,
      recording the gathered results writes the rows a sequential loop would, in the same order,
      after exactly one progress report per offer. */
  lemma ConcurrentEqualsSerial(jobs: seq<Job>, limit: nat, order: seq<nat>)
    requires Schedule(jobs, limit, Init(jobs), order)
    requires AllFinished(After(jobs, limit, Init(jobs), order))
    ensures var b := After(jobs, limit, Init(jobs), order);
            && Gathered(Ledger([], []), jobs, b.tasks) == Serial(Ledger([], []), jobs)
                                                       == Ledger(FlatMap(ScoreRow, jobs), FlatMap(FailureRow, jobs))
            && b.reports == UpTo(|jobs|)
  {
    CountsZero(|jobs|);
    ScheduleKeepsInvariant(jobs, limit, Init(jobs), order);
    var b := After(jobs, limit, Init(jobs), order);
    FinishedAll(b.tasks);
    GatheredIsSerial(Ledger([], []), jobs, b.tasks);
    SerialRows(Ledger([], []), jobs);
  }

  lemma {:induction false} FinishedAll(tasks: seq<Task>)
    requires forall i :: 0 <= i < |tasks| ==> tasks[i].Finished?
    ensures FinishedCount(tasks) == |tasks|
  {
    if tasks != [] { FinishedAll(tasks[1..]); }
  }

  lemma {:induction false} GatheredIsSerial(l: Ledger, jobs: seq<Job>, tasks: seq<Task>)
    requires |tasks| == |jobs|
    requires forall i :: 0 <= i < |jobs| ==> tasks[i] == Finished(ResultOf(jobs[i]))
    ensures Gathered(l, jobs, tasks) == Serial(l, jobs)
    decreases |jobs|
  {
    if jobs != [] { GatheredIsSerial(Record(l, jobs[0].id, ResultOf(jobs[0])), jobs[1..], tasks[1..]); }
  }

  // ---------------------------------------------------------------- progress

  /** Resumptions still needed. */
  function Work(tasks: seq<Task>): nat {
    if tasks == [] then 0
    else (if tasks[0].Waiting? then 2 else if tasks[0].InFlight? then 1 else 0) + Work(tasks[1..])
  }

  lemma {:induction false} WorkUpdate(tasks: seq<Task>, i: nat, to: Task)
    requires i < |tasks| && (tasks[i].Waiting? || tasks[i].InFlight?)
    requires to.Finished? || (to.InFlight? && tasks[i].Waiting?)
    ensures Work(tasks[i := to]) < Work(tasks)
  {
    if i == 0 {
      assert tasks[i := to][1..] == tasks[1..];
    } else {
      assert tasks[i := to][1..] == tasks[1..][i - 1 := to];
      WorkUpdate(tasks[1..], i - 1, to);
    }
  }

  /** No schedule goes on for ever. */
  lemma {:induction false} SchedulesEnd(jobs: seq<Job>, limit: nat, b: Batch, order: seq<nat>)
    requires |b.tasks| == |jobs| && Schedule(jobs, limit, b, order)
    ensures |order| <= Work(b.tasks)
    decreases |order|
  {
    if order != [] {
      var b' := Resume(jobs, limit, b, order[0]);
      WorkUpdate(b.tasks, order[0], b'.tasks[order[0]]);
      SchedulesEnd(jobs, limit, b', order[1..]);
    }
  }

  lemma {:induction false} NoneInFlight(tasks: seq<Task>)
    requires forall i :: 0 <= i < |tasks| ==> !tasks[i].InFlight?
    ensures InFlightCount(tasks) == 0
  {
    if tasks != [] { NoneInFlight(tasks[1..]); }
  }

  /** With at least one semaphore slot no batch deadlocks: until every task has finished, some task
      can be resumed. */
  lemma NeverStuck(jobs: seq<Job>, limit: nat, b: Batch)
    requires limit >= 1 && Invariant(jobs, limit, b) && !AllFinished(b)
    ensures exists i: nat :: Enabled(jobs, limit, b, i)
  {
    var i :| 0 <= i < |b.tasks| && !b.tasks[i].Finished?;
    if exists k :: 0 <= k < |b.tasks| && b.tasks[k].InFlight? {
      var k :| 0 <= k < |b.tasks| && b.tasks[k].InFlight?;
      assert Enabled(jobs, limit, b, k);
    } else {
      NoneInFlight(b.tasks);
      assert Enabled(jobs, limit, b, i);
    }
  }

  /** With no slot the batch is stuck from the start exactly when it is non-empty and wholly in scope. */
  lemma NoSlotsStuck(jobs: seq<Job>)
    ensures (exists i: nat :: Enabled(jobs, 0, Init(jobs), i)) <==> (exists i :: 0 <= i < |jobs| && !jobs[i].inScope)
  {
    CountsZero(|jobs|);
    if exists i :: 0 <= i < |jobs| && !jobs[i].inScope {
      var i :| 0 <= i < |jobs| && !jobs[i].inScope;
      assert Enabled(jobs, 0, Init(jobs), i);
    }
  }
}
