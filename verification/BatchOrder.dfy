/** Which offers a batch run takes, and how the offers in scope are divided up. */
module BatchOrder {
  import opened Sequences
  import opened ConcurrentScoring
  import opened BatchScoring

  /** The one offer is more recent than the other: posted later, an undated one last; posted alike, taken
      in later; and both alike, of the greater id. */
  predicate Newer(a: OfferRow, b: OfferRow) {
    && (b.postedAt.Some? ==> a.postedAt.Some? && a.postedAt.value >= b.postedAt.value)
    && (a.postedAt == b.postedAt ==> a.createdAt >= b.createdAt)
    && (a.postedAt == b.postedAt && a.createdAt == b.createdAt ==> a.id > b.id)
  }

  lemma {:induction false} FilterSorted(keep: OfferRow -> bool, s: seq<OfferRow>)
    requires Sorted(s)
    ensures Sorted(Filter(keep, s))
  {
    if s != [] {
      FilterSorted(keep, s[1..]);
      FilterMembers(keep, s[1..]);
      forall x | x in s[1..]
        ensures !Before(x, s[0])
      {
        var k :| 0 <= k < |s[1..]| && s[1..][k] == x;
        assert s[k + 1] == x;
      }
      SortedCons(s[0], Filter(keep, s[1..]));
    }
  }

  /** The backlog is ordered newest first. */
  lemma BacklogNewestFirst(db: Db, scope: set<string>, now: real, i: nat, j: nat)
    requires UniqueIds(db.offers) && i < j < |Candidates(db, scope, now)|
    ensures Newer(Candidates(db, scope, now)[i], Candidates(db, scope, now)[j])
  {
    var cs := Candidates(db, scope, now);
    CandidatesAreFilter(db, scope, now);
    OrderedShape(db.offers);
    FilterSorted((o: OfferRow) => Wanted(db, scope, now, o), Ordered(db.offers));
    CandidatesMembers(db, scope, now);
    assert !Before(cs[j], cs[i]);
    assert cs[i] in cs && cs[j] in cs && cs[i] != cs[j];
  }

  /** A run takes the newest of the backlog: no offer it leaves behind is newer than one it takes. */
  lemma RunTakesNewest(db: Db, scope: set<string>, limit: nat, now: real, outcome: OfferId -> Outcome, a: OfferRow, b: OfferRow)
    requires UniqueIds(db.offers)
    requires var taken := RunBatch(db, scope, limit, now, outcome).1.selected;
             a in taken && b in Candidates(db, scope, now) && b !in taken
    ensures Newer(a, b)
  {
    var cs := Candidates(db, scope, now);
    var taken := Page(cs, limit);
    var i :| 0 <= i < |taken| && taken[i] == a;
    var j :| 0 <= j < |cs| && cs[j] == b;
    assert |taken| <= j;
    BacklogNewestFirst(db, scope, now, i, j);
  }

  lemma {:induction false} FilterSplits(
      p: OfferRow -> bool, q: OfferRow -> bool, r: OfferRow -> bool, all: OfferRow -> bool, s: seq<OfferRow>)
    requires forall o :: o in s ==>
               && (all(o) <==> p(o) || q(o) || r(o))
               && !(p(o) && q(o)) && !(p(o) && r(o)) && !(q(o) && r(o))
    ensures |Filter(all, s)| == |Filter(p, s)| + |Filter(q, s)| + |Filter(r, s)|
  {
    if s != [] {
      assert s[0] in s;
      FilterSplits(p, q, r, all, s[1..]);
    }
  }

  /** The offers in scope are those skipped as already scored, those set aside with an open failure, and
      those the scan considers. */
  lemma ScopeAddsUp(db: Db, scope: set<string>)
    ensures |Filter((o: OfferRow) => o.connector in scope, db.offers)|
         == AlreadyScored(db, scope)
            + |Filter((o: OfferRow) => o.connector in scope && o.id !in db.scored && o.id in db.openFailures, db.offers)|
            + |Scan(db, scope)|
  {
    var unhandled := (o: OfferRow) => Unhandled(db, scope, o);
    OrderedShape(Filter(unhandled, db.offers));
    assert |multiset(Scan(db, scope))| == |multiset(Filter(unhandled, db.offers))|;
    FilterSplits((o: OfferRow) => o.connector in scope && o.id in db.scored,
                 (o: OfferRow) => o.connector in scope && o.id !in db.scored && o.id in db.openFailures,
                 unhandled, (o: OfferRow) => o.connector in scope, db.offers);
  }
}
