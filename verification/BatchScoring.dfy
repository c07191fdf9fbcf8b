/**
 * The batch scorer (app/scoring/batch.py): select the next page of the backlog, score it,
 * record a score or an open failure for each offer, and repeat.
 */
module BatchScoring {
  import opened Options
  import opened Sequences
  import opened ConcurrentScoring

  /** An offer joined with its source: the columns the candidate scan reads. */
  datatype OfferRow = OfferRow(
    id: OfferId,
    postedAt: Option<real>,
    createdAt: real,
    connector: string,
    since: Option<real>,
    until: Option<real>)

  /** The offers, and for the active profile the offers already scored and those with an open
      scoring failure. */
  datatype Db = Db(offers: seq<OfferRow>, scored: set<OfferId>, openFailures: set<OfferId>)

  ghost predicate UniqueIds(offers: seq<OfferRow>) {
    Distinct(offers) && forall a, b :: a in offers && b in offers && a.id == b.id ==> a == b
  }

  /** `_in_fetch_range`; an undated offer counts as dated now. */
  predicate InFetchRange(o: OfferRow, now: real) {
    var effective := GetOr(o.postedAt, now);
    (o.since.Some? ==> effective >= o.since.value) && (o.until.Some? ==> effective <= o.until.value)
  }

  /** posted_at descending with nulls last, then created_at descending, then id descending. */
  predicate Before(a: OfferRow, b: OfferRow) {
    if a.postedAt != b.postedAt then
      a.postedAt.Some? && (b.postedAt.None? || a.postedAt.value > b.postedAt.value)
    else if a.createdAt != b.createdAt then a.createdAt > b.createdAt
    else a.id > b.id
  }

  function Insert(o: OfferRow, s: seq<OfferRow>): seq<OfferRow> {
    if s == [] || !Before(s[0], o) then [o] + s else [s[0]] + Insert(o, s[1..])
  }

  /** ORDER BY. */
  function Ordered(s: seq<OfferRow>): seq<OfferRow> {
    if s == [] then [] else Insert(s[0], Ordered(s[1..]))
  }

  /** The scan's WHERE clause. */
  predicate Unhandled(db: Db, scope: set<string>, o: OfferRow) {
    o.connector in scope && o.id !in db.scored && o.id !in db.openFailures
  }

  /** The scan: filter, then order. */
  function Scan(db: Db, scope: set<string>): seq<OfferRow> {
    Ordered(Filter((o: OfferRow) => Unhandled(db, scope, o), db.offers))
  }

  /** Every in-range candidate, in order. */
  function Candidates(db: Db, scope: set<string>, now: real): seq<OfferRow> {
    Filter((o: OfferRow) => InFetchRange(o, now), Scan(db, scope))
  }

  function Page(candidates: seq<OfferRow>, limit: nat): seq<OfferRow> {
    candidates[..if limit < |candidates| then limit else |candidates|]
  }

  /** The ids of a list of rows. */
  function Ids(rows: seq<OfferRow>): (ids: seq<OfferId>)
    ensures |ids| == |rows| && forall k :: 0 <= k < |rows| ==> ids[k] == rows[k].id
  {
    seq(|rows|, k requires 0 <= k < |rows| => rows[k].id)
  }

  method InRangeIds(scan: seq<OfferRow>, now: real) returns (ids: seq<OfferId>)
    ensures ids == Ids(Filter((o: OfferRow) => InFetchRange(o, now), scan))
  {
    ids := [];
    for i := 0 to |scan|
      invariant ids == Ids(Filter((o: OfferRow) => InFetchRange(o, now), scan[..i]))
    {
      FilterSnoc((o: OfferRow) => InFetchRange(o, now), scan[..i], scan[i]);
      assert scan[..i + 1] == scan[..i] + [scan[i]];
      if InFetchRange(scan[i], now) { ids := ids + [scan[i].id]; }
    }
    assert scan[..|scan|] == scan;
  }

  /** The full rows of a page of ids: fetched in any order, then put back into page order. */
  method Hydrate(offers: seq<OfferRow>, pageIds: seq<OfferId>, ghost page: seq<OfferRow>) returns (selected: seq<OfferRow>)
    requires UniqueIds(offers)
    requires pageIds == Ids(page) && forall o :: o in page ==> o in offers
    ensures selected == page
  {
    var byId := map o | o in offers && o.id in pageIds :: o.id := o;
    selected := [];
    for i := 0 to |pageIds|
      invariant selected == page[..i]
    {
      assert page[i] in offers && pageIds[i] == page[i].id;
      selected := selected + [byId[pageIds[i]]];
    }
  }

  /** `select_scoring_candidates`. */
  method SelectCandidates(db: Db, scope: set<string>, limit: nat, now: real)
    returns (selected: seq<OfferRow>, total: nat)
    requires UniqueIds(db.offers)
    ensures total == |Candidates(db, scope, now)|
    ensures selected == Page(Candidates(db, scope, now), limit)
  {
    var ids := InRangeIds(Scan(db, scope), now);
    ghost var candidates := Candidates(db, scope, now);
    ghost var page := Page(candidates, limit);
    total := |ids|;
    var pageIds := ids[..if limit < |ids| then limit else |ids|];
    CandidatesMembers(db, scope, now);
    assert forall o :: o in page ==> o in candidates;
    assert pageIds == Ids(page);
    selected := Hydrate(db.offers, pageIds, page);
  }

  /** `BatchScoringSummary`, with the page that was scored. */
  datatype Summary = Summary(selected: seq<OfferRow>, scored: nat, skipped: nat, failed: int, remaining: nat)

  /** `_count_already_scored`. */
  function AlreadyScored(db: Db, scope: set<string>): nat {
    |Filter((o: OfferRow) => o.connector in scope && o.id in db.scored, db.offers)|
  }

  /** The jobs of a page: every selected offer is in scope. */
  function Jobs(page: seq<OfferRow>, outcome: OfferId -> Outcome): seq<Job> {
    if page == [] then [] else [Job(page[0].id, true, outcome(page[0].id))] + Jobs(page[1..], outcome)
  }

  function ScoreIds(scores: seq<(OfferId, int)>): set<OfferId> {
    set k | 0 <= k < |scores| :: scores[k].0
  }

  function FailureIds(failures: seq<(OfferId, string)>): set<OfferId> {
    set k | 0 <= k < |failures| :: failures[k].0
  }

  /** The database after one batch run, and its summary. */
  function RunBatch(db: Db, scope: set<string>, limit: nat, now: real, outcome: OfferId -> Outcome): (Db, Summary) {
    var candidates := Candidates(db, scope, now);
    var page := Page(candidates, limit);
    var ledger := Serial(Ledger([], []), Jobs(page, outcome));
    (db.(scored := db.scored + ScoreIds(ledger.scores), openFailures := db.openFailures + FailureIds(ledger.failures)),
     Summary(page, |ledger.scores|, AlreadyScored(db, scope), |page| - |ledger.scores|, |candidates| - |page|))
  }

  /** The in-memory progress view. */
  datatype Progress = Progress(
    running: bool, processed: nat, total: nat, remainingBacklog: nat, lastScored: nat, lastSkipped: nat, lastFailed: int)

  class Scorer {
    var db: Db
    var progress: Progress
    ghost var reported: seq<nat>   // every value `processed` has been reported as

    constructor (db: Db)
      ensures this.db == db && progress == Progress(false, 0, 0, 0, 0, 0, 0) && reported == []
    {
      this.db := db;
      progress := Progress(false, 0, 0, 0, 0, 0, 0);
      reported := [];
    }

    method RecordProgress(processed: nat)
      modifies this`progress, this`reported
      ensures progress == old(progress).(processed := processed)
      ensures reported == old(reported) + [processed]
    {
      progress := progress.(processed := processed);
      reported := reported + [processed];
    }

    /** The first n offers of the page are scored, reporting 1, 2, ... n as it goes. */
    method ScorePage(page: seq<OfferRow>, n: nat, outcome: OfferId -> Outcome) returns (ledger: Ledger)
      requires n <= |page|
      modifies this`progress, this`reported
      ensures ledger == Serial(Ledger([], []), Jobs(page[..n], outcome))
      ensures |ledger.scores| <= n
      ensures progress == old(progress).(processed := if n == 0 then old(progress).processed else n)
      ensures reported == old(reported) + UpTo(n)
    {
      ledger := Ledger([], []);
      ghost var jobs := Jobs(page[..n], outcome);
      JobsAt(page[..n], outcome);
      for i := 0 to n
        invariant Serial(ledger, jobs[i..]) == Serial(Ledger([], []), jobs)
        invariant |ledger.scores| <= i
        invariant progress == old(progress).(processed := if i == 0 then old(progress).processed else i)
        invariant reported == old(reported) + UpTo(i)
      {
        assert jobs[i..][1..] == jobs[i + 1..];
        assert UpTo(i + 1) == UpTo(i) + [i + 1];
        var id := page[i].id;
        match outcome(id) {
          case Scored(percent) => ledger := ledger.(scores := ledger.scores + [(id, percent)]);
          case Failed(message) => ledger := ledger.(failures := ledger.failures + [(id, message)]);
        }
        RecordProgress(i + 1);
      }
    }

    /** `_run_batch_scoring_locked`. Without an active profile nothing happens. `raisesAfter` is set
        when scoring a non-empty page raises after that many reports: nothing is recorded, and the
        progress view is left with `running` off and the last run's figures. */
    method RunBatchScoring(activeProfile: bool, scope: set<string>, limit: nat, now: real, outcome: OfferId -> Outcome,
                           raisesAfter: Option<nat>)
      returns (summary: Option<Summary>)
      requires UniqueIds(db.offers)
      modifies this
      ensures !activeProfile ==>
                summary == Some(Summary([], 0, 0, 0, 0)) && db == old(db) && progress == old(progress) && reported == old(reported)
      ensures activeProfile ==>
                var (after, done) := RunBatch(old(db), scope, limit, now, outcome);
                var n := |done.selected|;
                if raisesAfter.Some? && n > 0 then
                  var k := if raisesAfter.value < n then raisesAfter.value else n - 1;
                  && summary.None? && db == old(db) && reported == old(reported) + UpTo(k)
                  && progress == old(progress).(running := false, processed := k, total := n)
                else
                  && summary == Some(done) && db == after && reported == old(reported) + UpTo(n)
                  && progress == Progress(false, n, n, done.remaining, done.scored, done.skipped, done.failed)
    {
      if !activeProfile { return Some(Summary([], 0, 0, 0, 0)); }
      var selected, total := SelectCandidates(db, scope, limit, now);
      var skipped := AlreadyScored(db, scope);
      progress := progress.(running := true, processed := 0, total := |selected|);
      if raisesAfter.Some? && |selected| > 0 {
        var _ := ScorePage(selected, if raisesAfter.value < |selected| then raisesAfter.value else |selected| - 1, outcome);
        progress := progress.(running := false);
        return None;
      }
      assert selected[..|selected|] == selected;
      var ledger := ScorePage(selected, |selected|, outcome);
      progress := progress.(running := false);
      db := db.(scored := db.scored + ScoreIds(ledger.scores), openFailures := db.openFailures + FailureIds(ledger.failures));
      var failed := |selected| - |ledger.scores|;
      var remaining := if total > |selected| then total - |selected| else 0;
      progress := progress.(lastScored := |ledger.scores|, lastSkipped := skipped, lastFailed := failed, remainingBacklog := remaining);
      summary := Some(Summary(selected, |ledger.scores|, skipped, failed, remaining));
    }
  }

  lemma {:induction false} JobsAt(page: seq<OfferRow>, outcome: OfferId -> Outcome)
    ensures |Jobs(page, outcome)| == |page|
    ensures forall i :: 0 <= i < |page| ==> Jobs(page, outcome)[i] == Job(page[i].id, true, outcome(page[i].id))
  {
    if page != [] { JobsAt(page[1..], outcome); }
  }

  // ---------------------------------------------------------------- order and filters

  ghost predicate Sorted(s: seq<OfferRow>) {
    forall i, j :: 0 <= i < j < |s| ==> !Before(s[j], s[i])
  }

  lemma {:induction false} InsertMultiset(o: OfferRow, s: seq<OfferRow>)
    ensures multiset(Insert(o, s)) == multiset(s) + multiset{o}
    ensures forall x :: x in Insert(o, s) ==> x == o || x in s
  {
    if s != [] && Before(s[0], o) {
      InsertMultiset(o, s[1..]);
      assert s == [s[0]] + s[1..];
    }
  }

  lemma SortedCons(o: OfferRow, s: seq<OfferRow>)
    requires Sorted(s) && forall x :: x in s ==> !Before(x, o)
    ensures Sorted([o] + s)
  {
  }

  lemma {:induction false} InsertShape(o: OfferRow, s: seq<OfferRow>)
    requires Sorted(s)
    ensures Sorted(Insert(o, s)) && multiset(Insert(o, s)) == multiset(s) + multiset{o}
  {
    InsertMultiset(o, s);
    if s != [] {
      forall x | x in s
        ensures !Before(x, s[0])
      {
        var k :| 0 <= k < |s| && s[k] == x;
      }
      if Before(s[0], o) {
        InsertShape(o, s[1..]);
        InsertMultiset(o, s[1..]);
        assert forall x :: x in s[1..] ==> x in s;
        SortedCons(s[0], Insert(o, s[1..]));
      } else {
        SortedCons(o, s);
      }
    }
  }

  lemma {:induction false} OrderedShape(s: seq<OfferRow>)
    ensures Sorted(Ordered(s)) && multiset(Ordered(s)) == multiset(s)
  {
    if s != [] {
      OrderedShape(s[1..]);
      InsertShape(s[0], Ordered(s[1..]));
      assert s == [s[0]] + s[1..];
    }
  }

  lemma InsertCons(o: OfferRow, x: OfferRow, t: seq<OfferRow>)
    ensures Insert(o, [x] + t) == (if Before(x, o) then [x] + Insert(o, t) else [o] + ([x] + t))
  {
    assert ([x] + t)[1..] == t;
  }

  /** A row that belongs first stays first among the rows kept. */
  lemma InsertFirst(keep: OfferRow -> bool, o: OfferRow, s: seq<OfferRow>)
    requires Sorted(s) && (s == [] || !Before(s[0], o))
    ensures Insert(o, s) == [o] + s
    ensures Insert(o, Filter(keep, s)) == [o] + Filter(keep, s)
  {
    var f := Filter(keep, s);
    FilterMembers(keep, s);
    if f != [] {
      assert f[0] in f;
      var k :| 0 <= k < |s| && s[k] == f[0];
      assert k > 0 ==> !Before(s[k], s[0]);
    }
  }

  lemma {:induction false} FilterInsert(keep: OfferRow -> bool, o: OfferRow, s: seq<OfferRow>)
    requires Sorted(s)
    ensures Filter(keep, Insert(o, s)) == (if keep(o) then Insert(o, Filter(keep, s)) else Filter(keep, s))
  {
    if s == [] || !Before(s[0], o) {
      InsertFirst(keep, o, s);
      FilterCons(keep, o, s);
    } else {
      var x, t := s[0], s[1..];
      assert s == [x] + t;
      FilterInsert(keep, o, t);
      InsertCons(o, x, t);
      InsertCons(o, x, Filter(keep, t));
      FilterCons(keep, x, t);
      FilterCons(keep, x, Insert(o, t));
    }
  }

  /** Filtering before ordering is ordering before filtering. */
  lemma {:induction false} FilterOrdered(keep: OfferRow -> bool, s: seq<OfferRow>)
    ensures Ordered(Filter(keep, s)) == Filter(keep, Ordered(s))
  {
    if s != [] {
      var t := s[1..];
      FilterOrdered(keep, t);
      OrderedShape(t);
      FilterInsert(keep, s[0], Ordered(t));
      assert s == [s[0]] + t;
      FilterCons(keep, s[0], t);
      if keep(s[0]) { OrderedCons(s[0], Filter(keep, t)); }
    }
  }

  lemma OrderedCons(o: OfferRow, s: seq<OfferRow>)
    ensures Ordered([o] + s) == Insert(o, Ordered(s))
  {
    assert ([o] + s)[1..] == s;
  }

  lemma {:induction false} FilterFilter(p: OfferRow -> bool, q: OfferRow -> bool, both: OfferRow -> bool, s: seq<OfferRow>)
    requires forall o :: o in s ==> (both(o) <==> p(o) && q(o))
    ensures Filter(p, Filter(q, s)) == Filter(both, s)
  {
    if s != [] {
      var t := s[1..];
      assert s[0] in s && s == [s[0]] + t;
      FilterFilter(p, q, both, t);
      FilterCons(q, s[0], t);
      FilterCons(both, s[0], t);
      if q(s[0]) { FilterCons(p, s[0], Filter(q, t)); }
    }
  }

  /** The whole selection as one predicate over the fixed order of all offers. */
  predicate Wanted(db: Db, scope: set<string>, now: real, o: OfferRow) {
    Unhandled(db, scope, o) && InFetchRange(o, now)
  }

  lemma CandidatesAreFilter(db: Db, scope: set<string>, now: real)
    ensures Candidates(db, scope, now) == Filter((o: OfferRow) => Wanted(db, scope, now, o), Ordered(db.offers))
  {
    var unhandled := (o: OfferRow) => Unhandled(db, scope, o);
    FilterOrdered(unhandled, db.offers);
    FilterFilter((o: OfferRow) => InFetchRange(o, now), unhandled, (o: OfferRow) => Wanted(db, scope, now, o), Ordered(db.offers));
  }

  lemma OrderedUnique(offers: seq<OfferRow>)
    requires UniqueIds(offers)
    ensures UniqueIds(Ordered(offers))
    ensures forall o :: o in Ordered(offers) <==> o in offers
  {
    OrderedShape(offers);
    var s := Ordered(offers);
    DistinctOfPermutation(s, offers);
    forall o
      ensures o in s <==> o in offers
    {
      assert o in s <==> o in multiset(s);
      assert o in offers <==> o in multiset(offers);
    }
  }

  lemma CandidatesMembers(db: Db, scope: set<string>, now: real)
    requires UniqueIds(db.offers)
    ensures forall o :: o in Candidates(db, scope, now) <==> o in db.offers && Wanted(db, scope, now, o)
    ensures forall o :: o in Candidates(db, scope, now) <==>
              && o in db.offers && o.connector in scope && o.id !in db.scored && o.id !in db.openFailures
              && (o.since.Some? ==> o.since.value <= GetOr(o.postedAt, now))
              && (o.until.Some? ==> GetOr(o.postedAt, now) <= o.until.value)
    ensures UniqueIds(Candidates(db, scope, now))
  {
    CandidatesAreFilter(db, scope, now);
    OrderedUnique(db.offers);
    var keep := (o: OfferRow) => Wanted(db, scope, now, o);
    FilterMembers(keep, Ordered(db.offers));
    FilterUnique(keep, Ordered(db.offers));
  }

  lemma FilterUnique(keep: OfferRow -> bool, s: seq<OfferRow>)
    requires UniqueIds(s)
    ensures UniqueIds(Filter(keep, s))
  {
    FilterDistinct(keep, s);
    FilterMembers(keep, s);
  }

  // ---------------------------------------------------------------- one run

  lemma {:induction false} SerialSplits(l: Ledger, page: seq<OfferRow>, outcome: OfferId -> Outcome)
    ensures var r := Serial(l, Jobs(page, outcome));
            && ScoreIds(r.scores) == ScoreIds(l.scores) + (set o | o in page && outcome(o.id).Scored? :: o.id)
            && FailureIds(r.failures) == FailureIds(l.failures) + (set o | o in page && outcome(o.id).Failed? :: o.id)
            && |r.scores| + |r.failures| == |l.scores| + |l.failures| + |page|
    decreases |page|
  {
    if page != [] {
      var id := page[0].id;
      var l' := Record(l, id, Done(outcome(id)));
      assert Jobs(page, outcome)[1..] == Jobs(page[1..], outcome);
      SerialSplits(l', page[1..], outcome);
      assert forall o :: o in page <==> o == page[0] || o in page[1..];
      SnocIds(l, id, outcome(id));
    }
  }

  lemma SnocIds(l: Ledger, id: OfferId, o: Outcome)
    ensures var l' := Record(l, id, Done(o));
            && ScoreIds(l'.scores) == ScoreIds(l.scores) + (if o.Scored? then {id} else {})
            && FailureIds(l'.failures) == FailureIds(l.failures) + (if o.Failed? then {id} else {})
  {
    var l' := Record(l, id, Done(o));
    if o.Scored? {
      assert l'.scores[|l.scores|].0 == id;
      assert forall k :: 0 <= k < |l.scores| ==> l'.scores[k] == l.scores[k];
    } else {
      assert l'.failures[|l.failures|].0 == id;
      assert forall k :: 0 <= k < |l.failures| ==> l'.failures[k] == l.failures[k];
    }
  }

  lemma {:induction false} FilterSame(p: OfferRow -> bool, q: OfferRow -> bool, s: seq<OfferRow>)
    requires forall o :: o in s ==> (p(o) <==> q(o))
    ensures Filter(p, s) == Filter(q, s)
  {
    if s != [] {
      assert s[0] in s;
      FilterSame(p, q, s[1..]);
    }
  }

  /** The k rows kept first, when the head is one of them. */
  lemma KeptHead(keep: OfferRow -> bool, s: seq<OfferRow>, k: nat)
    requires s != [] && keep(s[0]) && 0 < k <= |Filter(keep, s)|
    ensures var kept, rest := Filter(keep, s), Filter(keep, s[1..]);
            k - 1 <= |rest| && kept[..k] == [s[0]] + rest[..k - 1] && kept[k..] == rest[k - 1..]
  {
    assert Filter(keep, s) == [s[0]] + Filter(keep, s[1..]);
  }

  /** What dropping them means for the rows after the head. */
  lemma DropAfterHead(keep: OfferRow -> bool, keep': OfferRow -> bool, s: seq<OfferRow>, k: nat)
    requires s != [] && Distinct(s) && keep(s[0]) && 0 < k <= |Filter(keep, s)|
    requires forall o :: o in s ==> (keep'(o) <==> keep(o) && o !in Filter(keep, s)[..k])
    ensures !keep'(s[0]) && k - 1 <= |Filter(keep, s[1..])|
    ensures forall o :: o in s[1..] ==> (keep'(o) <==> keep(o) && o !in Filter(keep, s[1..])[..k - 1])
  {
    KeptHead(keep, s, k);
    assert s[0] in s;
    forall o | o in s[1..]
      ensures keep'(o) <==> keep(o) && o !in Filter(keep, s[1..])[..k - 1]
    {
      assert o in s && o != s[0];
    }
  }

  /** Dropping the first k kept rows from what is kept leaves the rest, in the same order. */
  lemma {:induction false} DropKept(keep: OfferRow -> bool, keep': OfferRow -> bool, s: seq<OfferRow>, k: nat)
    requires Distinct(s) && k <= |Filter(keep, s)|
    requires forall o :: o in s ==> (keep'(o) <==> keep(o) && o !in Filter(keep, s)[..k])
    ensures Filter(keep', s) == Filter(keep, s)[k..]
  {
    if k == 0 {
      assert Filter(keep, s)[..0] == [];
      FilterSame(keep', keep, s);
    } else if keep(s[0]) {
      KeptHead(keep, s, k);
      DropAfterHead(keep, keep', s, k);
      DropKept(keep, keep', s[1..], k - 1);
    } else {
      assert s[0] in s && forall o :: o in s[1..] ==> o in s;
      DropKept(keep, keep', s[1..], k);
    }
  }

  /** One run takes the first `limit` candidates; each of them ends as scored or as an open failure,
      never both and never neither; and what is left is exactly the rest of the backlog in the same
      order, which is what the next run will see if range decisions are unchanged. */
  lemma RunAdvances(db: Db, scope: set<string>, limit: nat, now: real, next: real, outcome: OfferId -> Outcome)
    requires UniqueIds(db.offers)
    requires forall o :: o in db.offers ==> (InFetchRange(o, now) <==> InFetchRange(o, next))
    ensures var (db', summary) := RunBatch(db, scope, limit, now, outcome);
            var candidates := Candidates(db, scope, now);
            var k := |summary.selected|;
            && k == (if limit < |candidates| then limit else |candidates|)
            && summary.selected == candidates[..k]
            && db'.offers == db.offers
            && (forall o :: o in summary.selected ==> ((o.id in db'.scored) != (o.id in db'.openFailures)))
            && (forall o :: o in db.offers && o !in summary.selected ==>
                  ((o.id in db'.scored <==> o.id in db.scored) && (o.id in db'.openFailures <==> o.id in db.openFailures)))
            && summary.scored + summary.failed == k
            && Candidates(db', scope, next) == candidates[k..]
            && summary.remaining == |Candidates(db', scope, next)|
  {
    var candidates := Candidates(db, scope, now);
    var page := Page(candidates, limit);
    var k := |page|;
    var (db', summary) := RunBatch(db, scope, limit, now, outcome);
    SerialSplits(Ledger([], []), page, outcome);
    CandidatesMembers(db, scope, now);
    assert forall o :: o in page ==> o in candidates;
    RunMarks(db, scope, limit, now, outcome);
    CandidatesAreFilter(db, scope, now);
    CandidatesAreFilter(db', scope, next);
    OrderedUnique(db.offers);
    var keep := (o: OfferRow) => Wanted(db, scope, now, o);
    var keep' := (o: OfferRow) => Wanted(db', scope, next, o);
    var s := Ordered(db.offers);
    forall o | o in s
      ensures keep'(o) <==> keep(o) && o !in Filter(keep, s)[..k]
    {
      assert o in db.offers;
    }
    DropKept(keep, keep', s, k);
  }

  /** The page holds offers of the table, each once, in scope and unhandled. */
  lemma PageIsUnhandled(db: Db, scope: set<string>, limit: nat, now: real)
    requires UniqueIds(db.offers)
    ensures var page := Page(Candidates(db, scope, now), limit);
            Distinct(page) && forall o :: o in page ==> o in db.offers && Unhandled(db, scope, o)
  {
    var candidates := Candidates(db, scope, now);
    CandidatesMembers(db, scope, now);
    assert forall o :: o in Page(candidates, limit) ==> o in candidates;
  }

  /** Exactly the page's offers change sides: those with a score become scored, the others openly failed. */
  lemma Marked(db: Db, scope: set<string>, limit: nat, now: real, outcome: OfferId -> Outcome)
    requires UniqueIds(db.offers)
    ensures var (db', summary) := RunBatch(db, scope, limit, now, outcome);
            forall o :: o in db.offers ==>
              && (o.id in db'.scored <==> o.id in db.scored || (o in summary.selected && outcome(o.id).Scored?))
              && (o.id in db'.openFailures <==> o.id in db.openFailures || (o in summary.selected && outcome(o.id).Failed?))
  {
    var (db', summary) := RunBatch(db, scope, limit, now, outcome);
    var page := summary.selected;
    SerialSplits(Ledger([], []), page, outcome);
    PageIsUnhandled(db, scope, limit, now);
    assert ScoreIds([]) == {} && FailureIds([]) == {};
    forall o | o in db.offers
      ensures o.id in db'.scored <==> o.id in db.scored || (o in page && outcome(o.id).Scored?)
      ensures o.id in db'.openFailures <==> o.id in db.openFailures || (o in page && outcome(o.id).Failed?)
    {
      assert forall p :: p in page && p.id == o.id ==> p == o;
    }
  }

  lemma RunMarks(db: Db, scope: set<string>, limit: nat, now: real, outcome: OfferId -> Outcome)
    requires UniqueIds(db.offers)
    ensures var (db', summary) := RunBatch(db, scope, limit, now, outcome);
            && (forall o :: o in summary.selected ==> o in db.offers && ((o.id in db'.scored) != (o.id in db'.openFailures)))
            && (forall o :: o in db.offers && o !in summary.selected ==>
                  ((o.id in db'.scored <==> o.id in db.scored) && (o.id in db'.openFailures <==> o.id in db.openFailures)))
  {
    Marked(db, scope, limit, now, outcome);
    PageIsUnhandled(db, scope, limit, now);
  }

  lemma {:induction false} FilterCount(keep: OfferRow -> bool, s: seq<OfferRow>)
    requires Distinct(s)
    ensures |Filter(keep, s)| == |set o | o in s && keep(o)|
  {
    if s != [] {
      FilterCount(keep, s[1..]);
      var rest := set o | o in s[1..] && keep(o);
      assert s[0] !in s[1..];
      assert (set o | o in s && keep(o)) == (if keep(s[0]) then {s[0]} + rest else rest);
    } else {
      assert (set o | o in s && keep(o)) == {};
    }
  }

  lemma {:induction false} ScoresCounted(l: Ledger, page: seq<OfferRow>, outcome: OfferId -> Outcome)
    ensures |Serial(l, Jobs(page, outcome)).scores|
         == |l.scores| + |Filter((o: OfferRow) => outcome(o.id).Scored?, page)|
    decreases |page|
  {
    if page != [] {
      assert Jobs(page, outcome)[1..] == Jobs(page[1..], outcome);
      ScoresCounted(Record(l, page[0].id, Done(outcome(page[0].id))), page[1..], outcome);
    }
  }

  lemma CountGrows(offers: seq<OfferRow>, page: seq<OfferRow>, before: OfferRow -> bool, after: OfferRow -> bool,
                   scores: OfferRow -> bool)
    requires Distinct(offers) && Distinct(page)
    requires forall o :: o in page ==> o in offers && !before(o)
    requires forall o :: o in offers ==> (after(o) <==> before(o) || (o in page && scores(o)))
    ensures |Filter(after, offers)| == |Filter(before, offers)| + |Filter(scores, page)|
  {
    FilterCount(before, offers);
    FilterCount(after, offers);
    FilterCount(scores, page);
    var was, added := set o | o in offers && before(o), set o | o in page && scores(o);
    assert was !! added;
    assert (set o | o in offers && after(o)) == was + added;
  }

  /** Each score moves one offer from the backlog to the scored ones: the next run skips exactly those
      this run skipped and those it scored. */
  lemma SkippedGrowsByScored(db: Db, scope: set<string>, limit: nat, now: real, outcome: OfferId -> Outcome)
    requires UniqueIds(db.offers)
    ensures var (db', summary) := RunBatch(db, scope, limit, now, outcome);
            AlreadyScored(db', scope) == summary.skipped + summary.scored
  {
    var (db', summary) := RunBatch(db, scope, limit, now, outcome);
    PageIsUnhandled(db, scope, limit, now);
    ScoresCounted(Ledger([], []), summary.selected, outcome);
    Marked(db, scope, limit, now, outcome);
    CountGrows(db.offers, summary.selected,
               (o: OfferRow) => o.connector in scope && o.id in db.scored,
               (o: OfferRow) => o.connector in scope && o.id in db'.scored,
               (o: OfferRow) => outcome(o.id).Scored?);
  }

  // ---------------------------------------------------------------- draining the backlog

  /** One run's clock, the matcher's verdicts, and the pages on which scoring raises. */
  datatype RunArgs = RunArgs(now: real, outcome: OfferId -> Outcome, raises: seq<OfferRow> -> bool)

  /** Range decisions stay what they are at `now`. */
  ghost predicate Stable(db: Db, now: real, runs: seq<RunArgs>) {
    forall r, o :: r in runs && o in db.offers ==> (InFetchRange(o, r.now) <==> InFetchRange(o, now))
  }

  /** The run scores a page, and raises on it. */
  predicate RunRaises(db: Db, scope: set<string>, limit: nat, r: RunArgs) {
    var page := Page(Candidates(db, scope, r.now), limit);
    page != [] && r.raises(page)
  }

  /** The database after a run, and the offers it got through: a run that raises records nothing. */
  function OneRun(db: Db, scope: set<string>, limit: nat, r: RunArgs): (Db, seq<OfferRow>) {
    if RunRaises(db, scope, limit, r) then (db, [])
    else
      var (db', summary) := RunBatch(db, scope, limit, r.now, r.outcome);
      (db', summary.selected)
  }

  function AfterRuns(db: Db, scope: set<string>, limit: nat, runs: seq<RunArgs>): Db
    decreases |runs|
  {
    if runs == [] then db else AfterRuns(OneRun(db, scope, limit, runs[0]).0, scope, limit, runs[1..])
  }

  /** Everything the runs get through, in order. */
  function SelectedBy(db: Db, scope: set<string>, limit: nat, runs: seq<RunArgs>): seq<OfferRow>
    decreases |runs|
  {
    if runs == [] then []
    else
      var (db', page) := OneRun(db, scope, limit, runs[0]);
      page + SelectedBy(db', scope, limit, runs[1..])
  }

  /** How many of the runs complete. */
  function Completed(db: Db, scope: set<string>, limit: nat, runs: seq<RunArgs>): nat
    decreases |runs|
  {
    if runs == [] then 0
    else
      (if RunRaises(db, scope, limit, runs[0]) then 0 else 1)
      + Completed(OneRun(db, scope, limit, runs[0]).0, scope, limit, runs[1..])
  }

  /** What one run does to the backlog, as the next runs will see it. */
  lemma RunPeels(db: Db, scope: set<string>, limit: nat, now: real, r: RunArgs)
    requires UniqueIds(db.offers)
    requires forall o :: o in db.offers ==> (InFetchRange(o, r.now) <==> InFetchRange(o, now))
    ensures var (db', page) := OneRun(db, scope, limit, r);
            var backlog := Candidates(db, scope, now);
            && db'.offers == db.offers
            && page == (if RunRaises(db, scope, limit, r) then [] else Page(backlog, limit))
            && Candidates(db', scope, now) == backlog[|page|..]
  {
    RunAdvances(db, scope, limit, r.now, now, r.outcome);
    SameRange(db, scope, r.now, now);
  }

  lemma PrefixThenPrefix<T>(all: seq<T>, a: seq<T>, b: seq<T>)
    requires a <= all && b <= all[|a|..]
    ensures a + b <= all && all[|a|..][|b|..] == all[|a + b|..]
    ensures b == all[|a|..] ==> a + b == all
  {
    var rest := all[|a|..];
    assert all == a + rest;
    assert rest == b + rest[|b|..];
    assert all == (a + b) + rest[|b|..];
  }

  /** A page off the backlog and the pages after it: what they come to together. */
  lemma PeelThenDrain(backlog: seq<OfferRow>, limit: nat, page: seq<OfferRow>, later: seq<OfferRow>, raised: bool, completed: nat)
    requires limit >= 1 && page == (if raised then [] else Page(backlog, limit))
    requires later <= backlog[|page|..]
    requires completed >= Steps(|backlog[|page|..]|, limit) <==> later == backlog[|page|..]
    ensures page + later <= backlog
    ensures completed + (if raised then 0 else 1) >= Steps(|backlog|, limit) <==> page + later == backlog
  {
    PrefixThenPrefix(backlog, page, later);
    StepsAfterOne(|backlog|, limit);
    if page + later == backlog {
      assert later == (page + later)[|page|..] == backlog[|page|..];
    }
  }

  lemma {:induction false} RunsDrain(db: Db, scope: set<string>, limit: nat, now: real, runs: seq<RunArgs>)
    requires UniqueIds(db.offers) && limit >= 1 && Stable(db, now, runs)
    ensures var backlog := Candidates(db, scope, now);
            var selected := SelectedBy(db, scope, limit, runs);
            && selected <= backlog
            && Candidates(AfterRuns(db, scope, limit, runs), scope, now) == backlog[|selected|..]
            && (Completed(db, scope, limit, runs) >= Steps(|backlog|, limit) <==> selected == backlog)
    decreases |runs|
  {
    var backlog := Candidates(db, scope, now);
    if runs == [] {
      StepsIsCeiling(|backlog|, limit);
    } else {
      var r := runs[0];
      assert r in runs && forall q :: q in runs[1..] ==> q in runs;
      RunPeels(db, scope, limit, now, r);
      var (db', page) := OneRun(db, scope, limit, r);
      var later := SelectedBy(db', scope, limit, runs[1..]);
      RunsDrain(db', scope, limit, now, runs[1..]);
      PeelThenDrain(backlog, limit, page, later, RunRaises(db, scope, limit, r), Completed(db', scope, limit, runs[1..]));
      PrefixThenPrefix(backlog, page, later);
    }
  }

  lemma SameRange(db: Db, scope: set<string>, now: real, next: real)
    requires UniqueIds(db.offers)
    requires forall o :: o in db.offers ==> (InFetchRange(o, now) <==> InFetchRange(o, next))
    ensures Candidates(db, scope, now) == Candidates(db, scope, next)
  {
    CandidatesAreFilter(db, scope, now);
    CandidatesAreFilter(db, scope, next);
    OrderedUnique(db.offers);
    FilterSame((o: OfferRow) => Wanted(db, scope, now, o), (o: OfferRow) => Wanted(db, scope, next, o), Ordered(db.offers));
  }

  /** Backlog drain: serialised runs with a limit of at least one get through the backlog in order, no
      offer twice, and to its end exactly when ceil(total / limit) of them complete, however each offer
      fares and however many other runs raise in between. */
  lemma BacklogDrains(db: Db, scope: set<string>, limit: nat, now: real, runs: seq<RunArgs>)
    requires UniqueIds(db.offers) && limit >= 1 && Stable(db, now, runs)
    ensures var selected, backlog := SelectedBy(db, scope, limit, runs), Candidates(db, scope, now);
            && UniqueIds(selected)
            && selected <= backlog
            && Candidates(AfterRuns(db, scope, limit, runs), scope, now) == backlog[|selected|..]
            && (Completed(db, scope, limit, runs) >= Steps(|backlog|, limit) <==> selected == backlog)
  {
    RunsDrain(db, scope, limit, now, runs);
    CandidatesMembers(db, scope, now);
    var selected, backlog := SelectedBy(db, scope, limit, runs), Candidates(db, scope, now);
    assert selected == backlog[..|selected|];
    assert forall o :: o in selected ==> o in backlog;
  }

  /** Starvation: a page on which every run raises stays at the head of the backlog, and nothing behind
      it is ever scored. */
  lemma {:induction false} RaisingPageStarves(db: Db, scope: set<string>, limit: nat, now: real, runs: seq<RunArgs>)
    requires UniqueIds(db.offers) && Stable(db, now, runs)
    requires Page(Candidates(db, scope, now), limit) != []
    requires forall r :: r in runs ==> r.raises(Page(Candidates(db, scope, now), limit))
    ensures AfterRuns(db, scope, limit, runs) == db && SelectedBy(db, scope, limit, runs) == []
    decreases |runs|
  {
    if runs != [] {
      assert runs[0] in runs;
      SameRange(db, scope, runs[0].now, now);
      RaisingPageStarves(db, scope, limit, now, runs[1..]);
    }
  }
}
