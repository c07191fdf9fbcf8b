/** Pracuj.pl: the collection cap, and the listing cursor over repeated runs. */
module PracujCoverage {
  import opened Options
  import opened Sequences
  import opened Offers
  import opened IngestionRunner
  import opened IngestionGuarantees
  import opened IngestionStops
  import opened IngestionCheckpoint
  import DeadLetters
  import opened SitemapDetail
  import opened PracujListing

  // ---------------------------------------------------------------- the cap

  /** Every record the candidates from the i-th on yield, with no cap in sight. */
  function AllRecords(urls: seq<string>, board: Board, page: nat, i: nat): seq<Raw>
    decreases |urls| - i
  {
    if i >= |urls| then []
    else if board.detail(page, i).Record? then [board.detail(page, i).raw] + AllRecords(urls, board, page, i + 1)
    else AllRecords(urls, board, page, i + 1)
  }

  function AllBlocked(urls: seq<string>, board: Board, page: nat, i: nat): seq<(string, int)>
    decreases |urls| - i
  {
    if i >= |urls| then []
    else if board.detail(page, i).DetailBlocked? then
      [(urls[i], board.detail(page, i).status)] + AllBlocked(urls, board, page, i + 1)
    else AllBlocked(urls, board, page, i + 1)
  }

  function Candidates(board: Board, page: nat): seq<string> {
    if board.listing(page).Groups? then Flatten(board.listing(page).groups) else []
  }

  function RecordsOfPages(board: Board, lo: nat, hi: nat): seq<Raw>
    decreases hi - lo
  {
    if lo >= hi then []
    else RecordsOfPages(board, lo, hi - 1) + AllRecords(Candidates(board, hi - 1), board, hi - 1, 0)
  }

  function BlockedOfPages(board: Board, lo: nat, hi: nat): seq<(string, int)>
    decreases hi - lo
  {
    if lo >= hi then []
    else BlockedOfPages(board, lo, hi - 1) + AllBlocked(Candidates(board, hi - 1), board, hi - 1, 0)
  }

  function Prefix<T>(s: seq<T>, k: nat): seq<T> {
    if |s| <= k then s else s[..k]
  }

  lemma {:induction false} DetailsArePrefix(urls: seq<string>, board: Board, page: nat, i: nat, cap: nat, got: Gathered)
    requires |got.records| <= cap
    ensures var got' := FetchDetails(urls, board, page, i, cap, got);
            && got'.records == Prefix(got.records + AllRecords(urls, board, page, i), cap)
            && got'.upTo == got.upTo
    decreases |urls| - i
  {
    if i < |urls| && |got.records| < cap {
      match board.detail(page, i)
      case Record(raw) =>
        DetailsArePrefix(urls, board, page, i + 1, cap, got.(records := got.records + [raw]));
        assert (got.records + [raw]) + AllRecords(urls, board, page, i + 1)
            == got.records + AllRecords(urls, board, page, i);
      case DetailBlocked(status) =>
        DetailsArePrefix(urls, board, page, i + 1, cap, got.(blocked := got.blocked + [(urls[i], status)]));
      case NoRecord =>
        DetailsArePrefix(urls, board, page, i + 1, cap, got);
    } else if i < |urls| {
      assert (got.records + AllRecords(urls, board, page, i))[..cap] == got.records;
    } else {
      assert got.records + [] == got.records;
    }
  }

  /** With room for one record per remaining candidate, none is dropped. */
  lemma {:induction false} DetailsComplete(urls: seq<string>, board: Board, page: nat, i: nat, cap: nat, got: Gathered)
    requires i <= |urls| && |got.records| + |urls| - i <= cap
    ensures var got' := FetchDetails(urls, board, page, i, cap, got);
            && got'.records == got.records + AllRecords(urls, board, page, i)
            && got'.blocked == got.blocked + AllBlocked(urls, board, page, i)
            && |got'.records| <= |got.records| + |urls| - i
    decreases |urls| - i
  {
    if i < |urls| {
      match board.detail(page, i)
      case Record(raw) =>
        DetailsComplete(urls, board, page, i + 1, cap, got.(records := got.records + [raw]));
      case DetailBlocked(status) =>
        DetailsComplete(urls, board, page, i + 1, cap, got.(blocked := got.blocked + [(urls[i], status)]));
      case NoRecord =>
        DetailsComplete(urls, board, page, i + 1, cap, got);
    }
  }

  lemma PrefixTwice<T>(a: seq<T>, b: seq<T>, k: nat)
    ensures Prefix(Prefix(a, k) + b, k) == Prefix(a + b, k)
  {
  }

  /** The listing page is fetched and consumed. */
  predicate Consumable(board: Board, start: nat, maxPages: nat, cap: nat, page: nat, got: Gathered) {
    && page < start + maxPages && |got.records| < cap
    && board.listing(page).Groups? && board.listing(page).groups != []
  }

  function ConsumeListing(board: Board, cap: nat, page: nat, got: Gathered): Gathered {
    FetchDetails(Candidates(board, page), board, page, 0, cap, got).(upTo := page + 1)
  }

  /** Each consumed page keeps `inv`. */
  ghost predicate KeptByPages(board: Board, start: nat, maxPages: nat, cap: nat, inv: (nat, Gathered) -> bool) {
    forall page: nat, got: Gathered :: inv(page, got) && Consumable(board, start, maxPages, cap, page, got) ==>
      inv(page + 1, ConsumeListing(board, cap, page, got))
  }

  /** What each consumed page keeps holds of what is collected in the end. */
  lemma {:induction false} CollectKeeps(board: Board, pageSize: nat, maxPages: nat, start: nat, page: nat, got: Gathered,
                                        inv: (nat, Gathered) -> bool)
    requires got.upTo == page && inv(page, got)
    requires KeptByPages(board, start, maxPages, pageSize * maxPages, inv)
    ensures var c := Collect(board, pageSize, maxPages, start, page, got);
            c.ok ==> inv(c.got.upTo, c.got)
    decreases start + maxPages - page
  {
    var cap := pageSize * maxPages;
    if Consumable(board, start, maxPages, cap, page, got) {
      assert inv(page + 1, ConsumeListing(board, cap, page, got));
      if |board.listing(page).groups| >= pageSize {
        CollectKeeps(board, pageSize, maxPages, start, page + 1, ConsumeListing(board, cap, page, got), inv);
      }
    }
  }

  lemma CollectIsPrefix(board: Board, pageSize: nat, maxPages: nat, start: nat)
    ensures var c := CollectFrom(board, pageSize, maxPages, start);
            c.ok ==> c.got.records == Prefix(RecordsOfPages(board, start, c.got.upTo), pageSize * maxPages)
  {
    var cap := pageSize * maxPages;
    var inv := (page: nat, got: Gathered) => start <= page && got.records == Prefix(RecordsOfPages(board, start, page), cap);
    forall page: nat, got: Gathered | inv(page, got) && Consumable(board, start, maxPages, cap, page, got)
      ensures inv(page + 1, ConsumeListing(board, cap, page, got))
    {
      DetailsArePrefix(Candidates(board, page), board, page, 0, cap, got);
      PrefixTwice(RecordsOfPages(board, start, page), AllRecords(Candidates(board, page), board, page, 0), cap);
    }
    assert Prefix<Raw>([], cap) == [];
    var none := Gathered([], [], start);
    assert RecordsOfPages(board, start, start) == none.records && BlockedOfPages(board, start, start) == none.blocked;
    assert inv(start, none);
    CollectKeeps(board, pageSize, maxPages, start, start, none, inv);
  }

  /** What a run collects is exactly the first `page_size * max_pages` records of the listing pages
      it consumes: the cap drops something if and only if those pages hold more. */
  lemma CollectedUpToCap(board: Board, pageSize: nat, maxPages: nat, start: nat)
    ensures var c := CollectFrom(board, pageSize, maxPages, start);
            && |c.got.records| <= pageSize * maxPages
            && (c.ok ==>
                  var all := RecordsOfPages(board, start, c.got.upTo);
                  && c.got.records <= all
                  && (c.got.records == all <==> |all| <= pageSize * maxPages))
  {
    CollectIsPrefix(board, pageSize, maxPages, start);
    FailedIsEmpty(board, pageSize, maxPages, start, start, Gathered([], [], start));
  }

  lemma {:induction false} FailedIsEmpty(board: Board, pageSize: nat, maxPages: nat, start: nat, page: nat, got: Gathered)
    ensures var c := Collect(board, pageSize, maxPages, start, page, got);
            !c.ok ==> c.got.records == []
    decreases start + maxPages - page
  {
    var cap := pageSize * maxPages;
    if page < start + maxPages && |got.records| < cap && board.listing(page).Groups? && board.listing(page).groups != [] {
      var got' := FetchDetails(Candidates(board, page), board, page, 0, cap, got).(upTo := page + 1);
      if |board.listing(page).groups| >= pageSize {
        FailedIsEmpty(board, pageSize, maxPages, start, page + 1, got');
      }
    }
  }

  /** `k` pages of `p` records. */
  function Room(p: nat, k: nat): nat
  {
    if k == 0 then 0 else p + Room(p, k - 1)
  }

  lemma RoomGrows(p: nat, k: nat)
    ensures Room(p, k + 1) == Room(p, k) + p
  {
  }

  lemma {:induction false} RoomIsProduct(p: nat, k: nat)
    ensures Room(p, k) == p * k
  {
    if k > 0 { RoomIsProduct(p, k - 1); }
  }

  /** So far nothing has been dropped, and there is room for every candidate still to come. */
  ghost predicate Complete(board: Board, pageSize: nat, maxPages: nat, start: nat, page: nat, got: Gathered) {
    && start <= page <= start + maxPages
    && |got.records| + Room(pageSize, start + maxPages - page) <= pageSize * maxPages
    && got.records == RecordsOfPages(board, start, page)
    && got.blocked == BlockedOfPages(board, start, page)
  }

  lemma PageComplete(board: Board, pageSize: nat, maxPages: nat, start: nat, page: nat, got: Gathered)
    requires |Candidates(board, page)| <= pageSize && page < start + maxPages
    requires Complete(board, pageSize, maxPages, start, page, got)
    ensures Complete(board, pageSize, maxPages, start, page + 1, ConsumeListing(board, pageSize * maxPages, page, got))
  {
    RoomGrows(pageSize, start + maxPages - page - 1);
    DetailsComplete(Candidates(board, page), board, page, 0, pageSize * maxPages, got);
  }

  /** When no listing page carries more than `page_size` candidates, the cap never drops one: every
      record and every block of the consumed pages is kept. */
  lemma CapDropsNothing(board: Board, pageSize: nat, maxPages: nat, start: nat)
    requires forall p :: |Candidates(board, p)| <= pageSize
    ensures var c := CollectFrom(board, pageSize, maxPages, start);
            c.ok ==>
              && c.got.records == RecordsOfPages(board, start, c.got.upTo)
              && c.got.blocked == BlockedOfPages(board, start, c.got.upTo)
  {
    var cap := pageSize * maxPages;
    var inv := (page: nat, got: Gathered) => Complete(board, pageSize, maxPages, start, page, got);
    forall page: nat, got: Gathered | inv(page, got) && Consumable(board, start, maxPages, cap, page, got)
      ensures inv(page + 1, ConsumeListing(board, cap, page, got))
    {
      PageComplete(board, pageSize, maxPages, start, page, got);
    }
    RoomIsProduct(pageSize, maxPages);
    assert start + maxPages - start == maxPages;
    assert Room(pageSize, start + maxPages - start) == cap;
    var none := Gathered([], [], start);
    assert RecordsOfPages(board, start, start) == none.records && BlockedOfPages(board, start, start) == none.blocked;
    assert inv(start, none);
    CollectKeeps(board, pageSize, maxPages, start, start, none, inv);
  }

  // ---------------------------------------------------------------- the cap, candidate by candidate

  /** The outcomes of the candidates from the i-th on. */
  function Outcomes(urls: seq<string>, board: Board, page: nat, i: nat): seq<(string, Detail)>
    decreases |urls| - i
  {
    if i >= |urls| then [] else [(urls[i], board.detail(page, i))] + Outcomes(urls, board, page, i + 1)
  }

  function OutcomesOfPages(board: Board, lo: nat, hi: nat): seq<(string, Detail)>
    decreases hi - lo
  {
    if lo >= hi then [] else OutcomesOfPages(board, lo, hi - 1) + Outcomes(Candidates(board, hi - 1), board, hi - 1, 0)
  }

  function RecordOf(d: Detail): seq<Raw> { if d.Record? then [d.raw] else [] }

  function BlockOf(url: string, d: Detail): seq<(string, int)> { if d.DetailBlocked? then [(url, d.status)] else [] }

  function Records(ds: seq<(string, Detail)>): seq<Raw> {
    FlatMap((d: (string, Detail)) => RecordOf(d.1), ds)
  }

  function Blocks(ds: seq<(string, Detail)>): seq<(string, int)> {
    FlatMap((d: (string, Detail)) => BlockOf(d.0, d.1), ds)
  }

  /** How many candidates are fetched with room for so many more records. */
  function Reach(ds: seq<(string, Detail)>, room: nat): (n: nat)
    ensures n <= |ds|
  {
    if ds == [] || room == 0 then 0 else 1 + Reach(ds[1..], if ds[0].1.Record? then room - 1 else room)
  }

  lemma RecordsAppend(a: seq<(string, Detail)>, b: seq<(string, Detail)>)
    ensures Records(a + b) == Records(a) + Records(b) && Blocks(a + b) == Blocks(a) + Blocks(b)
  {
    FlatMapAppend((d: (string, Detail)) => RecordOf(d.1), a, b);
    FlatMapAppend((d: (string, Detail)) => BlockOf(d.0, d.1), a, b);
  }

  /** Within the room, all of it used unless every candidate is reached. */
  lemma {:induction false} ReachFillsRoom(ds: seq<(string, Detail)>, room: nat)
    ensures |Records(ds[..Reach(ds, room)])| <= room
    ensures Reach(ds, room) < |ds| ==> |Records(ds[..Reach(ds, room)])| == room
  {
    if ds != [] && room > 0 {
      var room' := if ds[0].1.Record? then room - 1 else room;
      ReachFillsRoom(ds[1..], room');
      assert ds[..Reach(ds, room)][1..] == ds[1..][..Reach(ds[1..], room')];
    }
  }

  lemma {:induction false} ReachAppend(a: seq<(string, Detail)>, b: seq<(string, Detail)>, room: nat)
    ensures |Records(a[..Reach(a, room)])| <= room
    ensures Reach(a + b, room) == Reach(a, room) + Reach(b, room - |Records(a[..Reach(a, room)])|)
  {
    ReachFillsRoom(a, room);
    if a == [] {
      assert a + b == b;
    } else if room > 0 {
      var room' := if a[0].1.Record? then room - 1 else room;
      assert (a + b)[1..] == a[1..] + b;
      assert a[..Reach(a, room)][1..] == a[1..][..Reach(a[1..], room')];
      ReachAppend(a[1..], b, room');
    }
  }

  lemma ReachCons(url: string, d: Detail, later: seq<(string, Detail)>, room: nat)
    requires room > 0
    ensures var ds := [(url, d)] + later;
            var fetched, rest := ds[..Reach(ds, room)], later[..Reach(later, room - |RecordOf(d)|)];
            Records(fetched) == RecordOf(d) + Records(rest) && Blocks(fetched) == BlockOf(url, d) + Blocks(rest)
  {
    var ds := [(url, d)] + later;
    assert ds[1..] == later;
    assert ds[..Reach(ds, room)][1..] == later[..Reach(later, room - |RecordOf(d)|)];
  }

  /** The fetch of one candidate. */
  function FetchOne(url: string, d: Detail, got: Gathered): Gathered {
    got.(records := got.records + RecordOf(d), blocked := got.blocked + BlockOf(url, d))
  }

  lemma FetchOneThen(got: Gathered, url: string, d: Detail, rest: seq<(string, Detail)>)
    ensures FetchOne(url, d, got).records + Records(rest) == got.records + (RecordOf(d) + Records(rest))
    ensures FetchOne(url, d, got).blocked + Blocks(rest) == got.blocked + (BlockOf(url, d) + Blocks(rest))
  {
  }

  lemma FetchStep(urls: seq<string>, board: Board, page: nat, i: nat, cap: nat, got: Gathered)
    requires i < |urls| && |got.records| < cap
    ensures FetchDetails(urls, board, page, i, cap, got)
         == FetchDetails(urls, board, page, i + 1, cap, FetchOne(urls[i], board.detail(page, i), got))
  {
    var d := board.detail(page, i);
    assert d.Record? ==> FetchOne(urls[i], d, got) == got.(records := got.records + [d.raw]);
    assert d.DetailBlocked? ==> FetchOne(urls[i], d, got) == got.(blocked := got.blocked + [(urls[i], d.status)]);
    assert d.NoRecord? ==> FetchOne(urls[i], d, got) == got;
  }

  /** A page's candidates are fetched in order as far as the room goes. */
  lemma {:induction false} DetailsReach(urls: seq<string>, board: Board, page: nat, i: nat, cap: nat, got: Gathered)
    requires |got.records| <= cap
    ensures var ds := Outcomes(urls, board, page, i);
            var fetched := ds[..Reach(ds, cap - |got.records|)];
            var got' := FetchDetails(urls, board, page, i, cap, got);
            && got'.records == got.records + Records(fetched)
            && got'.blocked == got.blocked + Blocks(fetched)
    decreases |urls| - i
  {
    if i < |urls| && |got.records| < cap {
      var d := board.detail(page, i);
      FetchStep(urls, board, page, i, cap, got);
      DetailsReach(urls, board, page, i + 1, cap, FetchOne(urls[i], d, got));
      var later := Outcomes(urls, board, page, i + 1);
      ReachCons(urls[i], d, later, cap - |got.records|);
      FetchOneThen(got, urls[i], d, later[..Reach(later, cap - |got.records| - |RecordOf(d)|)]);
    }
  }

  /** What has been gathered is what the reached candidates yielded. */
  ghost predicate GatheredFrom(ds: seq<(string, Detail)>, cap: nat, got: Gathered) {
    got.records == Records(ds[..Reach(ds, cap)]) && got.blocked == Blocks(ds[..Reach(ds, cap)])
  }

  lemma TakeAppend<T>(a: seq<T>, b: seq<T>, n: nat, m: nat)
    requires n <= |a| && m <= |b| && (n < |a| ==> m == 0)
    ensures (a + b)[..n + m] == a[..n] + b[..m]
  {
  }

  lemma PageReach(ds: seq<(string, Detail)>, cap: nat, got: Gathered, urls: seq<string>, board: Board, page: nat)
    requires GatheredFrom(ds, cap, got) && |got.records| <= cap
    ensures GatheredFrom(ds + Outcomes(urls, board, page, 0), cap, FetchDetails(urls, board, page, 0, cap, got))
  {
    var more := Outcomes(urls, board, page, 0);
    var n, m := Reach(ds, cap), Reach(more, cap - |got.records|);
    DetailsReach(urls, board, page, 0, cap, got);
    ReachAppend(ds, more, cap);
    ReachFillsRoom(ds, cap);
    TakeAppend(ds, more, n, m);
    RecordsAppend(ds[..n], more[..m]);
  }

  /** All pages before the last one consumed left room. */
  ghost predicate RoomBefore(board: Board, start: nat, page: nat, cap: nat) {
    page > start ==> |Records(OutcomesOfPages(board, start, page - 1))| < cap
  }

  /** As long as there is room every candidate has been reached. */
  lemma RoomMeansAll(ds: seq<(string, Detail)>, cap: nat, got: Gathered)
    requires GatheredFrom(ds, cap, got) && |got.records| < cap
    ensures |Records(ds)| < cap
  {
    ReachFillsRoom(ds, cap);
    assert ds[..|ds|] == ds;
  }

  lemma CollectReach(board: Board, pageSize: nat, maxPages: nat, start: nat)
    ensures var c := CollectFrom(board, pageSize, maxPages, start);
            c.ok ==>
              && c.got.upTo >= start
              && GatheredFrom(OutcomesOfPages(board, start, c.got.upTo), pageSize * maxPages, c.got)
              && RoomBefore(board, start, c.got.upTo, pageSize * maxPages)
  {
    var cap := pageSize * maxPages;
    var inv := (page: nat, got: Gathered) =>
      start <= page && GatheredFrom(OutcomesOfPages(board, start, page), cap, got) && RoomBefore(board, start, page, cap);
    forall page: nat, got: Gathered | inv(page, got) && Consumable(board, start, maxPages, cap, page, got)
      ensures inv(page + 1, ConsumeListing(board, cap, page, got))
    {
      PageReach(OutcomesOfPages(board, start, page), cap, got, Candidates(board, page), board, page);
      RoomMeansAll(OutcomesOfPages(board, start, page), cap, got);
      assert OutcomesOfPages(board, start, page + 1)
          == OutcomesOfPages(board, start, page) + Outcomes(Candidates(board, page), board, page, 0);
    }
    var none := Gathered([], [], start);
    assert GatheredFrom(OutcomesOfPages(board, start, start), cap, none) && RoomBefore(board, start, start, cap);
    assert inv(start, none);
    CollectKeeps(board, pageSize, maxPages, start, start, none, inv);
  }

  lemma {:induction false} OutcomesAgree(urls: seq<string>, board: Board, page: nat, i: nat)
    ensures Records(Outcomes(urls, board, page, i)) == AllRecords(urls, board, page, i)
    ensures Blocks(Outcomes(urls, board, page, i)) == AllBlocked(urls, board, page, i)
    decreases |urls| - i
  {
    if i < |urls| {
      OutcomesAgree(urls, board, page, i + 1);
      assert Outcomes(urls, board, page, i)[1..] == Outcomes(urls, board, page, i + 1);
    }
  }

  /** The candidates' outcomes hold all the pages' records and blocks. */
  lemma {:induction false} OutcomesOfPagesAgree(board: Board, lo: nat, hi: nat)
    ensures Records(OutcomesOfPages(board, lo, hi)) == RecordsOfPages(board, lo, hi)
    ensures Blocks(OutcomesOfPages(board, lo, hi)) == BlockedOfPages(board, lo, hi)
    decreases hi - lo
  {
    if lo < hi {
      var front, last := OutcomesOfPages(board, lo, hi - 1), Outcomes(Candidates(board, hi - 1), board, hi - 1, 0);
      OutcomesOfPagesAgree(board, lo, hi - 1);
      OutcomesAgree(Candidates(board, hi - 1), board, hi - 1, 0);
      RecordsAppend(front, last);
      assert OutcomesOfPages(board, lo, hi) == front + last;
    }
  }

  /** The first n outcomes hold everything exactly when the others hold nothing. */
  lemma SplitOutcomes(ds: seq<(string, Detail)>, n: nat)
    requires n <= |ds|
    ensures Records(ds[..n]) == Records(ds) <==> Records(ds[n..]) == []
    ensures Blocks(ds[..n]) == Blocks(ds) <==> Blocks(ds[n..]) == []
  {
    RecordsAppend(ds[..n], ds[n..]);
    assert ds[..n] + ds[n..] == ds;
    WholeOrRest(Records(ds[..n]), Records(ds[n..]));
    WholeOrRest(Blocks(ds[..n]), Blocks(ds[n..]));
  }

  lemma WholeOrRest<T>(a: seq<T>, b: seq<T>)
    ensures a == a + b <==> b == []
  {
    assert |a + b| == |a| + |b|;
  }

  /** With room for its records a list is reached whole, also as the front of a longer one. */
  lemma ReachesFront(a: seq<(string, Detail)>, b: seq<(string, Detail)>, cap: nat)
    requires |Records(a)| < cap
    ensures |a| <= Reach(a + b, cap)
  {
    ReachFillsRoom(a, cap);
    ReachAppend(a, b, cap);
    RecordsAppend(a[..Reach(a, cap)], a[Reach(a, cap)..]);
    assert a[..Reach(a, cap)] + a[Reach(a, cap)..] == a;
  }

  /** Pages that left room are reached whole. */
  lemma EarlierPagesReached(board: Board, start: nat, upTo: nat, cap: nat)
    requires RoomBefore(board, start, upTo, cap)
    ensures upTo > start ==>
              && |RecordsOfPages(board, start, upTo - 1)| < cap
              && |OutcomesOfPages(board, start, upTo - 1)| <= Reach(OutcomesOfPages(board, start, upTo), cap)
  {
    if upTo > start {
      OutcomesOfPagesAgree(board, start, upTo - 1);
      ReachesFront(OutcomesOfPages(board, start, upTo - 1), Outcomes(Candidates(board, upTo - 1), board, upTo - 1, 0), cap);
    }
  }

  /** The cap exactly: a run fetches the candidates of the pages it consumes in order, up to the one
      that fills it, and keeps all their blocks if and only if no candidate after that one is blocked.
      Only the last page can be cut: no page is consumed once the cap is full. */
  lemma BlocksUpToCap(board: Board, pageSize: nat, maxPages: nat, start: nat)
    ensures var c := CollectFrom(board, pageSize, maxPages, start);
            var ds := OutcomesOfPages(board, start, c.got.upTo);
            var n := Reach(ds, pageSize * maxPages);
            c.ok ==>
              && c.got.records == Records(ds[..n]) && c.got.blocked == Blocks(ds[..n])
              && (n < |ds| ==> |c.got.records| == pageSize * maxPages)
              && (c.got.upTo > start ==>
                    && |RecordsOfPages(board, start, c.got.upTo - 1)| < pageSize * maxPages
                    && |OutcomesOfPages(board, start, c.got.upTo - 1)| <= n)
              && (c.got.records == RecordsOfPages(board, start, c.got.upTo) <==> Records(ds[n..]) == [])
              && (c.got.blocked == BlockedOfPages(board, start, c.got.upTo) <==> Blocks(ds[n..]) == [])
  {
    var cap, upTo := pageSize * maxPages, CollectFrom(board, pageSize, maxPages, start).got.upTo;
    var ds := OutcomesOfPages(board, start, upTo);
    var n := Reach(ds, cap);
    CollectReach(board, pageSize, maxPages, start);
    ReachFillsRoom(ds, cap);
    SplitOutcomes(ds, n);
    OutcomesOfPagesAgree(board, start, upTo);
    if CollectFrom(board, pageSize, maxPages, start).ok { EarlierPagesReached(board, start, upTo, cap); }
  }

  // ---------------------------------------------------------------- handing over to ingestion

  /** Without the catch-up and age stops only a missing next page ends the loop. */
  lemma ForcedStep(env: Env, cfg: Config, st: RunState, cursor: Cursor, page: Page)
    requires cfg.forceRefresh && !cfg.sortedByRecency && page.Fetched?
    ensures var (st', stop) := Iterate(env, cfg, st, cursor, page);
            && st'.walked == st.walked + [cursor]
            && (stop.None? <==> page.next.Some?)
  {
    PageExtends(env, cfg, st, cursor, page);
  }

  lemma SliceJoin<T>(s: seq<T>, a: nat, b: nat)
    requires a <= b <= |s|
    ensures s[..a] + s[a..b] == s[..b]
  {
  }

  /** A chunk extends the records handed over so far, and points on exactly while some are left. */
  lemma ChunkItems(records: seq<Raw>, pageSize: nat, walked: seq<Cursor>, cursor: nat)
    requires cursor <= |records|
    requires ItemsOf(ChunkFeed(records, pageSize), walked) == records[..cursor]
    ensures var page := ChunkFeed(records, pageSize)(cursor);
            && page.Fetched?
            && ItemsOf(ChunkFeed(records, pageSize), walked + [cursor]) == records[..Min(cursor + pageSize, |records|)]
            && page.next == (if cursor + pageSize < |records| then Some(cursor + pageSize) else None)
  {
    ItemsOfSnoc(ChunkFeed(records, pageSize), walked, cursor);
    var hi := Min(cursor + pageSize, |records|);
    SliceJoin(records, cursor, hi);
  }

  /** The walk is out of pages to fetch, or has reached one that points nowhere. */
  predicate WalkedOut(feed: Feed, walked: seq<Cursor>, maxPages: int) {
    |walked| >= maxPages || (walked != [] && feed(walked[|walked| - 1]).Fetched? && feed(walked[|walked| - 1]).next.None?)
  }

  /** Over a feed whose pages can all be fetched, nothing else ends a forced run. */
  lemma {:induction false} ForcedRunWalksOut(env: Env, cfg: Config, feed: Feed, st: RunState, cursor: Cursor)
    requires cfg.forceRefresh && !cfg.sortedByRecency && forall c :: feed(c).Fetched?
    ensures WalkedOut(feed, Run(env, cfg, feed, st, cursor).0.walked, cfg.maxPages)
    decreases cfg.maxPages - |st.walked|
  {
    if |st.walked| < cfg.maxPages {
      RunStep(env, cfg, feed, st, cursor);
      ForcedStep(env, cfg, st, cursor, feed(cursor));
      var (st', stop) := Iterate(env, cfg, st, cursor, feed(cursor));
      if stop.None? { ForcedRunWalksOut(env, cfg, feed, st', feed(cursor).next.value); }
    }
  }

  lemma ChainFront(feed: Feed, walked: seq<Cursor>)
    requires |walked| > 1 && Chain(feed, walked)
    ensures var n := |walked| - 1;
            Chain(feed, walked[..n]) && feed(walked[n - 1]).Fetched? && feed(walked[n - 1]).next == Some(walked[n])
  {
    var n := |walked| - 1;
    assert feed(walked[n - 1]).next == Some(walked[n - 1 + 1]);
    assert forall i :: 0 <= i < n ==> walked[..n][i] == walked[i];
  }

  lemma NextChunk(records: seq<Raw>, pageSize: nat, a: Cursor, b: Cursor)
    requires ChunkFeed(records, pageSize)(a).next == Some(b)
    ensures b == a + pageSize < |records|
  {
  }

  /** A chain of chunks from the first on: it hands over the records in order, `page_size` at a time. */
  lemma {:induction false} ChunksInOrder(records: seq<Raw>, pageSize: nat, walked: seq<Cursor>)
    requires walked != [] && walked[0] == 0 && Chain(ChunkFeed(records, pageSize), walked)
    ensures var last := walked[|walked| - 1];
            && last == Room(pageSize, |walked| - 1) && last <= |records|
            && ItemsOf(ChunkFeed(records, pageSize), walked) == records[..Min(last + pageSize, |records|)]
    decreases |walked|
  {
    var feed, n := ChunkFeed(records, pageSize), |walked| - 1;
    var front := walked[..n];
    assert walked == front + [walked[n]];
    if n > 0 {
      ChainFront(feed, walked);
      ChunksInOrder(records, pageSize, front);
      NextChunk(records, pageSize, walked[n - 1], walked[n]);
      RoomGrows(pageSize, n - 1);
    }
    ChunkItems(records, pageSize, front, walked[n]);
  }

  /** Walked out, it has handed over all that there is room for. */
  lemma ChunksWalkAll(records: seq<Raw>, pageSize: nat, walked: seq<Cursor>, maxPages: nat)
    requires (walked != [] ==> walked[0] == 0) && Chain(ChunkFeed(records, pageSize), walked)
    requires WalkedOut(ChunkFeed(records, pageSize), walked, maxPages) && |walked| <= maxPages
    requires |records| <= Room(pageSize, maxPages)
    ensures ItemsOf(ChunkFeed(records, pageSize), walked) == records
  {
    if walked != [] {
      ChunksInOrder(records, pageSize, walked);
      RoomGrows(pageSize, |walked| - 1);
      assert records[..|records|] == records;
    }
  }

  lemma ChunkRunSucceeds(env: Env, cfg: Config, records: seq<Raw>, pageSize: nat, st: RunState)
    requires st.walked == []
    ensures !Run(env, cfg, ChunkFeed(records, pageSize), st, 0).1.FirstPageFailed?
  {
    if cfg.maxPages > 0 {
      var feed := ChunkFeed(records, pageSize);
      RunStep(env, cfg, feed, st, 0);
      PageExtends(env, cfg, st, 0, feed(0));
      var (st', stop) := Iterate(env, cfg, st, 0, feed(0));
      if stop.None? { LaterStops(env, cfg, feed, st', feed(0).next.value); }
    }
  }

  /** The cap matches the ingestion window: a forced unfiltered run hands every collected record to
      ingestion exactly once and in order, and accounts for each of them. */
  lemma ForcedRunHandsOverAll(env: Env, cfg: Config, board: Board, pageSize: nat, start: nat, st: RunState)
    requires cfg.forceRefresh && !cfg.sortedByRecency
    requires st == IngestionRunner.Start(st.offers, st.failures)
    ensures var records := CollectFrom(board, pageSize, ListingPages(cfg), start).got.records;
            var feed := ChunkFeed(records, pageSize);
            var (end, stop) := Run(env, cfg, feed, st, 0);
            && ItemsOf(feed, end.walked) == records
            && ResultOf(end, stop).ok
            && end.fetched == |records|
            && forall raw :: raw in records ==> Accounted(env, cfg, end, raw)
  {
    var records := CollectFrom(board, pageSize, ListingPages(cfg), start).got.records;
    var feed := ChunkFeed(records, pageSize);
    CollectedUpToCap(board, pageSize, ListingPages(cfg), start);
    RoomIsProduct(pageSize, ListingPages(cfg));
    RunAccounts(env, cfg, feed, st.offers, st.failures, 0);
    ForcedRunWalksOut(env, cfg, feed, st, 0);
    ChunksWalkAll(records, pageSize, Run(env, cfg, feed, st, 0).0.walked, ListingPages(cfg));
    ChunkRunSucceeds(env, cfg, records, pageSize, st);
  }

  /** The incremental run: it stores the same listing cursor as a forced one, so what the catch-up stop
      leaves of the collected records is passed over, and it stores the same offers exactly when each of
      those is represented by what it has stored. */
  lemma IncrementalRunExact(env: Env, cfg: Config, board: Board, pageSize: nat, stored: Option<int>,
                            offers: seq<Row>, failures: DeadLetters.Table)
    requires !cfg.sortedByRecency
    ensures var off, on := cfg.(forceRefresh := false), cfg.(forceRefresh := true);
            var (plain, _, plainCursor) := RunOnce(env, off, board, pageSize, stored, Start(offers, failures));
            var (forced, _, forcedCursor) := RunOnce(env, on, board, pageSize, stored, Start(offers, failures));
            var records := CollectFrom(board, pageSize, ListingPages(cfg), StartPage(stored)).got.records;
            && plainCursor == forcedCursor
            && plain.fetched <= |records|
            && (plain.offers == forced.offers <==> AllRepresented(env, on, plain.offers, records[plain.fetched..]))
  {
    var off, on := cfg.(forceRefresh := false), cfg.(forceRefresh := true);
    var c := CollectFrom(board, pageSize, ListingPages(cfg), StartPage(stored));
    FailedIsEmpty(board, pageSize, ListingPages(cfg), StartPage(stored), StartPage(stored), Gathered([], [], StartPage(stored)));
    if c.ok {
      var entered := if c.midRunFailure then DeadLetters.RecordFailure(failures, MidRunWrite(cfg, c.blockedStatus)) else failures;
      ChunksExact(env, cfg, board, pageSize, StartPage(stored), offers, entered);
    }
  }

  /** What a walk leaves unread of a longer one. */
  lemma UnreadOfLonger(feed: Feed, walked: seq<Cursor>, all: seq<Cursor>)
    requires walked <= all
    ensures |ItemsOf(feed, walked)| <= |ItemsOf(feed, all)|
    ensures ItemsOf(feed, all)[|ItemsOf(feed, walked)|..] == ItemsOf(feed, all[|walked|..])
  {
    ItemsSplit(feed, all, |walked|);
    assert all[..|walked|] == walked;
  }

  lemma ChunksExact(env: Env, cfg: Config, board: Board, pageSize: nat, start: nat, offers: seq<Row>, failures: DeadLetters.Table)
    requires !cfg.sortedByRecency
    ensures var off, on := cfg.(forceRefresh := false), cfg.(forceRefresh := true);
            var records := CollectFrom(board, pageSize, ListingPages(cfg), start).got.records;
            var feed := ChunkFeed(records, pageSize);
            var plain, forced := Run(env, off, feed, Start(offers, failures), 0).0, Run(env, on, feed, Start(offers, failures), 0).0;
            && plain.fetched <= |records|
            && (plain.offers == forced.offers <==> AllRepresented(env, on, plain.offers, records[plain.fetched..]))
  {
    var off, on := cfg.(forceRefresh := false), cfg.(forceRefresh := true);
    var st := Start(offers, failures);
    var records := CollectFrom(board, pageSize, ListingPages(cfg), start).got.records;
    var feed := ChunkFeed(records, pageSize);
    var plain, forced := Run(env, off, feed, st, 0).0, Run(env, on, feed, st, 0).0;
    EarlyStopExact(env, off, on, feed, st, 0);
    ForcedRunHandsOverAll(env, on, board, pageSize, start, st);
    RunAccounts(env, off, feed, offers, failures, 0);
    UnreadOfLonger(feed, plain.walked, forced.walked);
  }

  /** A known offer on the first listing page, a new one on the second. */
  function KnownPageFirst(): Board {
    Board((page: nat) => if page == 1 then Groups([["a"]]) else if page == 2 then Groups([["b"]]) else Groups([]),
          (page: nat, i: nat) => Record(if page == 1 then "known" else "new"))
  }

  lemma KnownPageCollected()
    ensures CollectFrom(KnownPageFirst(), 1, 2, 1) == Collection(Gathered(["known", "new"], [], 3), true, false, 3, None)
  {
    var board := KnownPageFirst();
    var a: seq<seq<string>> := [["a"]];
    var b: seq<seq<string>> := [["b"]];
    assert a[1..] == [] && b[1..] == [];
    assert Flatten(a) == ["a"] + Flatten(a[1..]) == ["a"] && Flatten(b) == ["b"] + Flatten(b[1..]) == ["b"];
    var none, one, two := Gathered([], [], 1), Gathered(["known"], [], 2), Gathered(["known", "new"], [], 3);
    assert FetchDetails(["a"], board, 1, 0, 2, none) == one.(upTo := 1);
    assert FetchDetails(["b"], board, 2, 0, 2, one) == two.(upTo := 2);
    assert Collect(board, 1, 2, 1, 3, two) == Collection(two, true, false, 3, None);
    assert Collect(board, 1, 2, 1, 2, one) == Collection(two, true, false, 3, None);
  }

  /** The incremental run over the two stops at the known one. */
  lemma StopsAtKnown(failures: DeadLetters.Table)
    ensures var cfg := Config(1, 2, 1, false, None, None, false, 20.0);
            var known := [RowOf(TitlesOnly(), "known")];
            var end := Run(TitlesOnly(), cfg, ChunkFeed(["known", "new"], 1), Start(known, failures), 0).0;
            end.offers == known && end.fetched == 1
  {
    var env, cfg := TitlesOnly(), Config(1, 2, 1, false, None, None, false, 20.0);
    var st := Start([RowOf(env, "known")], failures);
    var feed := ChunkFeed(["known", "new"], 1);
    NewIsNotKnown();
    assert feed(0) == Fetched(["known"], Some(1));
    assert ["known"][1..] == [];
    var entered := st.(fetched := 1, walked := [0]);
    assert ConsumeItems(env, cfg, entered, ["known"]) == ConsumeItem(env, cfg, entered, "known");
    RunStep(env, cfg, feed, st, 0);
  }

  /** There, with a threshold of one, the incremental run does lose the new offer: it stops at the known
      one, and its cursor moves past both pages. */
  lemma IncrementalRunLosesNewOffers()
    ensures var cfg := Config(1, 2, 1, false, None, None, false, 20.0);
            var known := [RowOf(TitlesOnly(), "known")];
            var (plain, _, cursor) := RunOnce(TitlesOnly(), cfg, KnownPageFirst(), 1, Some(1), Start(known, map[]));
            var (forced, _, _) := RunOnce(TitlesOnly(), cfg.(forceRefresh := true), KnownPageFirst(), 1, Some(1), Start(known, map[]));
            plain.offers == known && cursor == Some(3) && forced.offers != known
  {
    var env, cfg := TitlesOnly(), Config(1, 2, 1, false, None, None, false, 20.0);
    KnownPageCollected();
    StopsAtKnown(map[]);
    IncrementalRunExact(env, cfg, KnownPageFirst(), 1, Some(1), [RowOf(env, "known")], map[]);
    assert cfg.(forceRefresh := false) == cfg;
    NewIsNotKnown();
    assert ["known", "new"][1..] == ["new"];
    assert Ingestible(env, cfg.(forceRefresh := true), "new");
  }

  /** One listing page that carries two offers in a single group; what the second one's page answers. */
  function TwoOffersOnAPage(second: Detail): Board {
    Board((page: nat) => if page == 1 then Groups([["a", "b"]]) else Groups([]),
          (page: nat, i: nat) => if i == 0 then Record("first") else second)
  }

  /** The cap does drop the second offer when one page of one offer is asked for: its record, or its
      block, is among the consumed page's and not among what is collected. */
  lemma CapDropsSecondOffer(second: Detail)
    ensures var board := TwoOffersOnAPage(second);
            var c := CollectFrom(board, 1, 1, 1);
            && c.ok && c.got.upTo == 2 && c.nextPage == 2
            && c.got.records == ["first"] && c.got.blocked == []
            && RecordsOfPages(board, 1, c.got.upTo) == ["first"] + RecordOf(second)
            && BlockedOfPages(board, 1, c.got.upTo) == BlockOf("b", second)
  {
    var board := TwoOffersOnAPage(second);
    var urls := Candidates(board, 1);
    var groups: seq<seq<string>> := [["a", "b"]];
    assert groups[1..] == [];
    assert Flatten(groups) == ["a", "b"] + Flatten(groups[1..]);
    assert urls == ["a", "b"];
    var none := Gathered([], [], 1);
    var one := none.(records := ["first"]);
    assert FetchDetails(urls, board, 1, 1, 1, one) == one;
    assert FetchDetails(urls, board, 1, 0, 1, none) == one;
    assert AllRecords(urls, board, 1, 2) == [] && AllBlocked(urls, board, 1, 2) == [];
    assert AllRecords(urls, board, 1, 1) == RecordOf(second) && AllBlocked(urls, board, 1, 1) == BlockOf("b", second);
    assert AllRecords(urls, board, 1, 0) == ["first"] + RecordOf(second) && AllBlocked(urls, board, 1, 0) == BlockOf("b", second);
  }

  // ---------------------------------------------------------------- the listing cursor

  /** The next unfiltered run starts at the first page this one did not consume, or at 1 exactly when
      an empty or short page has shown the listing's end; a failed first page leaves the cursor alone.
      A failed page is reported with its own status. */
  lemma {:induction false} CursorHasNoGap(board: Board, pageSize: nat, maxPages: nat, start: nat, page: nat, got: Gathered)
    requires start <= page && got.upTo == page
    requires forall p :: start <= p < page ==> board.listing(p).Groups? && board.listing(p).groups != []
    requires page > start ==> |board.listing(page - 1).groups| >= pageSize
    ensures var c := Collect(board, pageSize, maxPages, start, page, got);
            var upTo := c.got.upTo;
            && page <= upTo <= (if page < start + maxPages then start + maxPages else page)
            && (!c.ok <==> page == start && page < start + maxPages && |got.records| < pageSize * maxPages
                           && board.listing(start).ListingFailed?)
            && (forall p :: start <= p < upTo ==> board.listing(p).Groups? && board.listing(p).groups != [])
            && (c.midRunFailure ==> c.ok && upTo > start && board.listing(upTo).ListingFailed? && c.nextPage == upTo)
            && (c.ok ==> c.nextPage == if EndSeen(board, pageSize, maxPages, start, c.got) then 1 else upTo)
            && c.blockedStatus == (if !c.ok then board.listing(start).blockedStatus
                                   else if c.midRunFailure then board.listing(upTo).blockedStatus else None)
            && (upTo == page ==>
                  || page >= start + maxPages
                  || |got.records| >= pageSize * maxPages
                  || board.listing(page).ListingFailed?
                  || board.listing(page).groups == [])
    decreases start + maxPages - page
  {
    var cap := pageSize * maxPages;
    if page < start + maxPages && |got.records| < cap && board.listing(page).Groups? && board.listing(page).groups != [] {
      var got' := FetchDetails(Candidates(board, page), board, page, 0, cap, got).(upTo := page + 1);
      if |board.listing(page).groups| >= pageSize {
        CursorHasNoGap(board, pageSize, maxPages, start, page + 1, got');
      }
    }
    FetchDetailsKeepsUpTo(Candidates(board, page), board, page, 0, cap, got);
  }

  lemma {:induction false} FetchDetailsKeepsUpTo(urls: seq<string>, board: Board, page: nat, i: nat, cap: nat, got: Gathered)
    ensures FetchDetails(urls, board, page, i, cap, got).upTo == got.upTo
    decreases |urls| - i
  {
    if i < |urls| && |got.records| < cap {
      match board.detail(page, i)
      case Record(raw) => FetchDetailsKeepsUpTo(urls, board, page, i + 1, cap, got.(records := got.records + [raw]));
      case DetailBlocked(status) =>
        FetchDetailsKeepsUpTo(urls, board, page, i + 1, cap, got.(blocked := got.blocked + [(urls[i], status)]));
      case NoRecord => FetchDetailsKeepsUpTo(urls, board, page, i + 1, cap, got);
    }
  }

  /** The last page consumed was short, or there was budget for one more page and that is empty. */
  predicate EndSeen(board: Board, pageSize: nat, maxPages: nat, start: nat, got: Gathered) {
    || (got.upTo > start && board.listing(got.upTo - 1).Groups? && |board.listing(got.upTo - 1).groups| < pageSize)
    || (got.upTo < start + maxPages && |got.records| < pageSize * maxPages && board.listing(got.upTo) == Groups([]))
  }

  /** A run over a listing of `last` pages: nothing past the end, full pages before the last, any
      page may fail to be fetched, and details answer anything. */
  ghost predicate Fits(board: Board, pageSize: nat, last: nat) {
    forall p: nat :: p >= 1 && board.listing(p).Groups? ==>
      && (p > last <==> board.listing(p).groups == [])
      && (p < last ==> |board.listing(p).groups| >= pageSize)
  }

  /** The run's first listing page could be fetched. */
  predicate Productive(board: Board, stored: Option<int>) {
    board.listing(StartPage(stored)).Groups?
  }

  /** The cursor an unfiltered run leaves, as `RunOnce` stores it. */
  function StoredAfter(board: Board, pageSize: nat, maxPages: nat, stored: Option<int>): Option<int> {
    var c := CollectFrom(board, pageSize, maxPages, StartPage(stored));
    if c.ok then Some(c.nextPage) else stored
  }

  lemma RunOnceStoresCursor(env: Env, cfg: Config, board: Board, pageSize: nat, stored: Option<int>, start: RunState)
    ensures RunOnce(env, cfg, board, pageSize, stored, start).2 == StoredAfter(board, pageSize, ListingPages(cfg), stored)
    ensures board.listing(StartPage(stored)).ListingFailed? && pageSize >= 1 && cfg.maxPages >= 1 ==>
              var (st, result, _) := RunOnce(env, cfg, board, pageSize, stored, start);
              st == start && !result.ok
  {
    if pageSize >= 1 && cfg.maxPages >= 1 {
      assert pageSize * cfg.maxPages >= 1 by {
        assert pageSize * cfg.maxPages == pageSize + pageSize * (cfg.maxPages - 1);
      }
    }
  }

  predicate Consumes(board: Board, pageSize: nat, maxPages: nat, stored: Option<int>, page: nat) {
    var c := CollectFrom(board, pageSize, maxPages, StartPage(stored));
    c.ok && StartPage(stored) <= page < c.got.upTo
  }

  predicate ConsumedBy(boards: seq<Board>, pageSize: nat, maxPages: nat, stored: Option<int>, page: nat)
    decreases |boards|
  {
    boards != [] &&
    (Consumes(boards[0], pageSize, maxPages, stored, page) ||
     ConsumedBy(boards[1..], pageSize, maxPages, StoredAfter(boards[0], pageSize, maxPages, stored), page))
  }

  function ProductiveRuns(boards: seq<Board>, pageSize: nat, maxPages: nat, stored: Option<int>): nat
    decreases |boards|
  {
    if boards == [] then 0 else
      (if Productive(boards[0], stored) then 1 else 0)
      + ProductiveRuns(boards[1..], pageSize, maxPages, StoredAfter(boards[0], pageSize, maxPages, stored))
  }

  /** One run: unproductive ones change nothing; a productive one consumes its start page or, past
      the end, wraps. */
  lemma OneRun(board: Board, pageSize: nat, maxPages: nat, stored: Option<int>, last: nat)
    returns (upTo: nat)
    requires pageSize >= 1 && maxPages >= 1 && Fits(board, pageSize, last)
    ensures var s := StartPage(stored);
            var next := StoredAfter(board, pageSize, maxPages, stored);
            && (!Productive(board, stored) ==> next == stored)
            && (Productive(board, stored) && s > last ==> next == Some(1))
            && (Productive(board, stored) && s <= last ==>
                    && s < upTo <= last + 1
                    && (forall p: nat :: s <= p < upTo ==> Consumes(board, pageSize, maxPages, stored, p))
                    && (next == Some(upTo) || (next == Some(1) && upTo == last + 1)))
  {
    var s := StartPage(stored);
    assert pageSize * maxPages >= 1 by { assert pageSize * maxPages == pageSize + pageSize * (maxPages - 1); }
    CursorHasNoGap(board, pageSize, maxPages, s, s, Gathered([], [], s));
    var c := CollectFrom(board, pageSize, maxPages, s);
    upTo := c.got.upTo;
    if Productive(board, stored) && s <= last {
      assert board.listing(upTo - 1).Groups?;
      assert upTo <= last + 1;
      assert forall p: nat :: s <= p < upTo ==> Consumes(board, pageSize, maxPages, stored, p);
    }
  }

  lemma {:induction false} ReachAhead(boards: seq<Board>, pageSize: nat, maxPages: nat, stored: Option<int>, last: nat, page: nat)
    requires pageSize >= 1 && maxPages >= 1 && forall b :: b in boards ==> Fits(b, pageSize, last)
    requires StartPage(stored) <= page <= last
    requires ProductiveRuns(boards, pageSize, maxPages, stored) >= page - StartPage(stored) + 1
    ensures ConsumedBy(boards, pageSize, maxPages, stored, page)
    decreases |boards|
  {
    var upTo := OneRun(boards[0], pageSize, maxPages, stored, last);
    if !Consumes(boards[0], pageSize, maxPages, stored, page) {
      ReachAhead(boards[1..], pageSize, maxPages, StoredAfter(boards[0], pageSize, maxPages, stored), last, page);
    }
  }

  lemma {:induction false} ReachBehind(boards: seq<Board>, pageSize: nat, maxPages: nat, stored: Option<int>, last: nat, page: nat)
    requires pageSize >= 1 && maxPages >= 1 && forall b :: b in boards ==> Fits(b, pageSize, last)
    requires 1 <= page <= last && page < StartPage(stored)
    requires var s := StartPage(stored);
             ProductiveRuns(boards, pageSize, maxPages, stored) >= (if s <= last then last + 1 - s else 0) + 1 + page
    ensures ConsumedBy(boards, pageSize, maxPages, stored, page)
    decreases |boards|
  {
    var upTo := OneRun(boards[0], pageSize, maxPages, stored, last);
    var next := StoredAfter(boards[0], pageSize, maxPages, stored);
    if StartPage(next) <= page {
      ReachAhead(boards[1..], pageSize, maxPages, next, last, page);
    } else {
      ReachBehind(boards[1..], pageSize, maxPages, next, last, page);
    }
  }

  /** Listing coverage: from any stored cursor, once `last + 1` runs have managed to fetch their
      first listing page, every page of the listing has been consumed. */
  lemma EveryPageConsumed(boards: seq<Board>, pageSize: nat, maxPages: nat, stored: Option<int>, last: nat)
    requires pageSize >= 1 && maxPages >= 1 && forall b :: b in boards ==> Fits(b, pageSize, last)
    requires ProductiveRuns(boards, pageSize, maxPages, stored) >= last + 1
    ensures forall page: nat :: 1 <= page <= last ==> ConsumedBy(boards, pageSize, maxPages, stored, page)
  {
    forall page: nat | 1 <= page <= last
      ensures ConsumedBy(boards, pageSize, maxPages, stored, page)
    {
      if StartPage(stored) <= page {
        ReachAhead(boards, pageSize, maxPages, stored, last, page);
      } else {
        ReachBehind(boards, pageSize, maxPages, stored, last, page);
      }
    }
  }
}
