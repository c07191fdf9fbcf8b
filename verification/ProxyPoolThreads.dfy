/**
 * The proxy pool shared by many threads: every lock-protected section is one atomic step, the
 * slow scrape happens between steps, and any interleaving is allowed.
 */
module ProxyPoolThreads {
  import opened Options
  import opened Sequences
  import opened ProxyPools

  /** Progress of one `top_up` call: its budget, attempts made, candidates admitted so far, and
      whether it was started by a `get_proxy` that found the pool empty. */
  datatype Call = Call(budget: int, attempts: nat, admitted: nat, forGet: bool)

  /** Where a thread is. */
  datatype Thread =
    | Idle
    | Looping(call: Call)                      // about to test the budget and the pool's size
    | Scraping(call: Call)                     // outside the lock
    | Offering(call: Call, candidate: Proxy)   // about to take the lock to admit
    | Rereading                                // `get_proxy`, second look at the pool

  /** The shared pool, its threads, and a record of what has happened: admissions, evictions,
      finished top-ups, proxies handed out, and every proxy ever scraped or initially present. */
  datatype State = State(
    target: nat,
    good: seq<Proxy>,
    threads: seq<Thread>,
    admissions: nat,
    evictions: nat,
    finished: seq<Call>,
    handed: seq<Proxy>,
    verified: set<Proxy>)

  datatype Action =
    | StartTopUp(maxAttempts: Option<int>)
    | StartGet(pick: nat)
    | Test
    | ScrapeReturns(result: Option<Proxy>)
    | Offer
    | Reread(pick: nat)
    | Report(proxy: Proxy)

  datatype Event = Event(thread: nat, action: Action)

  function Init(target: nat, threadCount: nat): State {
    State(target, [], seq(threadCount, _ => Idle), 0, 0, [], [], {})
  }

  function Goto(s: State, t: nat, to: Thread): State
    requires t < |s.threads|
  {
    s.(threads := s.threads[t := to])
  }

  /** One atomic step of one thread; an action the thread is not ready for does nothing. */
  function Step(s: State, e: Event): State {
    if e.thread >= |s.threads| then s
    else
      var t := e.thread;
      match (e.action, s.threads[t])
      case (StartTopUp(max), Idle) => Goto(s, t, Looping(Call(GetOr(max, s.target * 4), 0, 0, false)))
      case (StartGet(pick), Idle) =>
        if s.good == [] then Goto(s, t, Looping(Call(s.target * 4, 0, 0, true)))
        else if pick < |s.good| then s.(handed := s.handed + [s.good[pick]])
        else s
      case (Test, Looping(c)) =>
        if c.attempts < c.budget && |s.good| < s.target then Goto(s, t, Scraping(c.(attempts := c.attempts + 1)))
        else Goto(s.(finished := s.finished + [c]), t, if c.forGet then Rereading else Idle)
      case (ScrapeReturns(None), Scraping(c)) => Goto(s, t, Looping(c))
      case (ScrapeReturns(Some(p)), Scraping(c)) => Goto(s.(verified := s.verified + {p}), t, Offering(c, p))
      case (Offer, Offering(c, p)) =>
        var good' := Admit(s.good, p, s.target);
        var gained := |good'| - |s.good|;
        Goto(s.(good := good', admissions := s.admissions + gained), t, Looping(c.(admitted := c.admitted + gained)))
      case (Reread(pick), Rereading) =>
        if s.good == [] then Goto(s, t, Idle)
        else if pick < |s.good| then Goto(s.(handed := s.handed + [s.good[pick]]), t, Idle)
        else s
      case (Report(p), Idle) =>
        s.(good := Evict(s.good, p), evictions := s.evictions + (if p in s.good then 1 else 0))
      case _ => s
  }

  function Run(s: State, events: seq<Event>): State
    decreases |events|
  {
    if events == [] then s else Run(Step(s, events[0]), events[1..])
  }

  // ---------------------------------------------------------------- the invariant

  function AdmittedBy(th: Thread): nat {
    if Running(th) then th.call.admitted else 0
  }

  /** What the calls under way have admitted so far. */
  function InProgress(threads: seq<Thread>): nat {
    if threads == [] then 0 else AdmittedBy(threads[0]) + InProgress(threads[1..])
  }

  /** What the finished calls reported. */
  function Reported(calls: seq<Call>): nat {
    if calls == [] then 0 else calls[0].admitted + Reported(calls[1..])
  }

  /** A call never exceeds its budget, nor admits more than it has scraped. */
  predicate WithinBudget(c: Call) {
    && c.admitted <= c.attempts
    && (c.attempts > 0 ==> c.attempts <= c.budget)
  }

  /** The thread is inside a top-up. */
  predicate Running(th: Thread) {
    th.Looping? || th.Scraping? || th.Offering?
  }

  predicate ThreadOk(th: Thread, verified: set<Proxy>) {
    match th
    case Looping(c) => WithinBudget(c)
    case Scraping(c) => WithinBudget(c) && c.admitted < c.attempts
    case Offering(c, p) => WithinBudget(c) && c.admitted < c.attempts && p in verified
    case _ => true
  }

  ghost predicate Invariant(s: State) {
    && Healthy(s.good, s.target)
    && |s.good| == s.admissions - s.evictions
    && s.admissions == Reported(s.finished) + InProgress(s.threads)
    && (forall t :: 0 <= t < |s.threads| ==> ThreadOk(s.threads[t], s.verified))
    && (forall c :: c in s.finished ==> WithinBudget(c))
    && (forall p :: p in s.good ==> p in s.verified)
    && (forall p :: p in s.handed ==> p in s.verified)
  }

  lemma {:induction false} InProgressUpdate(threads: seq<Thread>, t: nat, to: Thread)
    requires t < |threads|
    ensures InProgress(threads[t := to]) == InProgress(threads) - AdmittedBy(threads[t]) + AdmittedBy(to)
  {
    if t == 0 {
      assert threads[t := to][1..] == threads[1..];
    } else {
      assert threads[t := to][1..] == threads[1..][t - 1 := to];
      InProgressUpdate(threads[1..], t - 1, to);
    }
  }

  lemma {:induction false} ReportedSnoc(calls: seq<Call>, c: Call)
    ensures Reported(calls + [c]) == Reported(calls) + c.admitted
  {
    if calls == [] {
      assert [c][1..] == [];
    } else {
      assert (calls + [c])[1..] == calls[1..] + [c];
      ReportedSnoc(calls[1..], c);
    }
  }

  /** Moving one thread: the others are as they were, and only its own count changes. */
  lemma GotoMoves(s: State, t: nat, to: Thread)
    requires t < |s.threads|
    requires forall i :: 0 <= i < |s.threads| ==> ThreadOk(s.threads[i], s.verified)
    requires ThreadOk(to, s.verified)
    ensures var s' := Goto(s, t, to);
            && InProgress(s'.threads) == InProgress(s.threads) - AdmittedBy(s.threads[t]) + AdmittedBy(to)
            && forall i :: 0 <= i < |s'.threads| ==> ThreadOk(s'.threads[i], s'.verified)
  {
    InProgressUpdate(s.threads, t, to);
  }

  lemma TestKeepsInvariant(s: State, t: nat)
    requires Invariant(s) && t < |s.threads| && s.threads[t].Looping?
    ensures Invariant(Step(s, Event(t, Test)))
  {
    var c := s.threads[t].call;
    if c.attempts < c.budget && |s.good| < s.target {
      GotoMoves(s, t, Scraping(c.(attempts := c.attempts + 1)));
    } else {
      ReportedSnoc(s.finished, c);
      GotoMoves(s.(finished := s.finished + [c]), t, if c.forGet then Rereading else Idle);
    }
  }

  lemma ScrapeKeepsInvariant(s: State, t: nat, result: Option<Proxy>)
    requires Invariant(s) && t < |s.threads| && s.threads[t].Scraping?
    ensures Invariant(Step(s, Event(t, ScrapeReturns(result))))
  {
    var c := s.threads[t].call;
    if result.None? {
      GotoMoves(s, t, Looping(c));
    } else {
      GotoMoves(s.(verified := s.verified + {result.value}), t, Offering(c, result.value));
    }
  }

  lemma OfferKeepsInvariant(s: State, t: nat)
    requires Invariant(s) && t < |s.threads| && s.threads[t].Offering?
    ensures Invariant(Step(s, Event(t, Offer)))
  {
    var c, p := s.threads[t].call, s.threads[t].candidate;
    AdmitKeepsHealthy(s.good, p, s.target);
    assert ThreadOk(s.threads[t], s.verified);
    var good' := Admit(s.good, p, s.target);
    var gained := |good'| - |s.good|;
    GotoMoves(s.(good := good', admissions := s.admissions + gained), t, Looping(c.(admitted := c.admitted + gained)));
  }

  lemma GetKeepsInvariant(s: State, t: nat, pick: nat)
    requires Invariant(s) && t < |s.threads|
    ensures s.threads[t].Idle? ==> Invariant(Step(s, Event(t, StartGet(pick))))
    ensures s.threads[t].Rereading? ==> Invariant(Step(s, Event(t, Reread(pick))))
  {
    GotoMoves(s, t, Looping(Call(s.target * 4, 0, 0, true)));
    GotoMoves(s, t, Idle);
    if pick < |s.good| { GotoMoves(s.(handed := s.handed + [s.good[pick]]), t, Idle); }
  }

  lemma ReportKeepsInvariant(s: State, t: nat, p: Proxy)
    requires Invariant(s) && t < |s.threads| && s.threads[t].Idle?
    ensures Invariant(Step(s, Event(t, Report(p))))
  {
    EvictMembers(s.good, p);
    EvictRemoves(s.good, p);
  }

  /** Every atomic step keeps the invariant. */
  lemma StepKeepsInvariant(s: State, e: Event)
    requires Invariant(s)
    ensures Invariant(Step(s, e))
  {
    if e.thread < |s.threads| {
      var t := e.thread;
      match (e.action, s.threads[t])
      case (StartTopUp(max), Idle) => GotoMoves(s, t, Looping(Call(GetOr(max, s.target * 4), 0, 0, false)));
      case (StartGet(pick), Idle) => GetKeepsInvariant(s, t, pick);
      case (Test, Looping(c)) => TestKeepsInvariant(s, t);
      case (ScrapeReturns(r), Scraping(c)) => ScrapeKeepsInvariant(s, t, r);
      case (Offer, Offering(c, p)) => OfferKeepsInvariant(s, t);
      case (Reread(pick), Rereading) => GetKeepsInvariant(s, t, pick);
      case (Report(p), Idle) => ReportKeepsInvariant(s, t, p);
      case _ =>
    }
  }

  lemma {:induction false} InitInvariant(target: nat, threadCount: nat)
    ensures Invariant(Init(target, threadCount))
  {
    IdleInProgress(threadCount);
  }

  lemma {:induction false} IdleInProgress(n: nat)
    ensures InProgress(seq(n, _ => Idle)) == 0
  {
    if n > 0 {
      assert seq(n, _ => Idle)[1..] == seq(n - 1, _ => Idle);
      IdleInProgress(n - 1);
    }
  }

  lemma {:induction false} RunKeepsInvariant(s: State, events: seq<Event>)
    requires Invariant(s)
    ensures Invariant(Run(s, events))
    decreases |events|
  {
    if events != [] {
      StepKeepsInvariant(s, events[0]);
      RunKeepsInvariant(Step(s, events[0]), events[1..]);
    }
  }

  lemma {:induction false} RunKeepsTarget(s: State, events: seq<Event>)
    ensures Run(s, events).target == s.target
    decreases |events|
  {
    if events != [] { RunKeepsTarget(Step(s, events[0]), events[1..]); }
  }

  /** Under any interleaving of any number of threads: the pool never holds a duplicate and never
      exceeds its target; its size is admissions minus evictions; the admissions are exactly those
      the finished and running top-ups account for; no top-up, finished or running, has scraped beyond
      its budget or admitted more than it scraped; and only verified proxies are ever handed out. */
  lemma PoolIsSafe(target: nat, threadCount: nat, events: seq<Event>)
    ensures var s := Run(Init(target, threadCount), events);
            && Distinct(s.good) && |s.good| <= target
            && |s.good| == s.admissions - s.evictions
            && s.admissions == Reported(s.finished) + InProgress(s.threads)
            && (forall c :: c in s.finished ==> WithinBudget(c))
            && (forall t :: 0 <= t < |s.threads| && Running(s.threads[t]) ==> WithinBudget(s.threads[t].call))
            && (forall p :: p in s.handed ==> p in s.verified)
  {
    InitInvariant(target, threadCount);
    RunKeepsInvariant(Init(target, threadCount), events);
    RunKeepsTarget(Init(target, threadCount), events);
    var s := Run(Init(target, threadCount), events);
    forall t | 0 <= t < |s.threads| && Running(s.threads[t])
      ensures WithinBudget(s.threads[t].call)
    {
      assert ThreadOk(s.threads[t], s.verified);
    }
  }

  // ---------------------------------------------------------------- progress

  function Left(c: Call): nat { if c.budget > c.attempts then c.budget - c.attempts else 0 }

  /** Upper bound on the steps a thread still takes before its call returns. */
  function Work(th: Thread): nat {
    match th
    case Idle => 0
    case Rereading => 1
    case Looping(c) => 3 * Left(c) + 2
    case Offering(c, _) => 3 * Left(c) + 3
    case Scraping(c) => 3 * Left(c) + 4
  }

  /** Whether the action is the thread's own next step inside a call. */
  predicate Advances(s: State, e: Event) {
    e.thread < |s.threads| &&
    match (e.action, s.threads[e.thread])
    case (Test, Looping(_)) => true
    case (ScrapeReturns(_), Scraping(_)) => true
    case (Offer, Offering(_, _)) => true
    case (Reread(pick), Rereading) => s.good == [] || pick < |s.good|
    case _ => false
  }

  /** No call hangs: each of its own steps brings it closer to returning, and nothing other threads
      do sets it back. */
  lemma StepsMakeProgress(s: State, e: Event, t: nat)
    requires t < |s.threads|
    ensures var s' := Step(s, e);
            && |s'.threads| == |s.threads|
            && (e.thread == t && Advances(s, e) ==> Work(s'.threads[t]) < Work(s.threads[t]))
            && (e.thread != t ==> s'.threads[t] == s.threads[t])
            && (s.threads[t] != Idle ==> Work(s'.threads[t]) <= Work(s.threads[t]))
  {
  }

  function OwnSteps(s: State, events: seq<Event>, t: nat): nat
    decreases |events|
  {
    if events == [] then 0 else
      (if events[0].thread == t && Advances(s, events[0]) then 1 else 0) + OwnSteps(Step(s, events[0]), events[1..], t)
  }

  /** The thread stays inside one call throughout. */
  predicate Busy(s: State, events: seq<Event>, t: nat)
    requires t < |s.threads|
    decreases |events|
  {
    s.threads[t] != Idle &&
    (events == [] || (StepsMakeProgress(s, events[0], t); Busy(Step(s, events[0]), events[1..], t)))
  }

  /** A `get_proxy` or `top_up` call of budget b returns within 3b + 2 of its own steps, however the
      other threads are scheduled in between. */
  lemma {:induction false} CallReturns(s: State, events: seq<Event>, t: nat)
    requires t < |s.threads| && Busy(s, events, t)
    ensures OwnSteps(s, events, t) < Work(s.threads[t])
    decreases |events|
  {
    if events != [] {
      StepsMakeProgress(s, events[0], t);
      CallReturns(Step(s, events[0]), events[1..], t);
    }
  }

  // ---------------------------------------------------------------- one thread alone

  lemma {:induction false} RunAppend(s: State, a: seq<Event>, b: seq<Event>)
    ensures Run(s, a + b) == Run(Run(s, a), b)
    decreases |a|
  {
    if a == [] {
      assert a + b == b;
    } else {
      assert (a + b)[1..] == a[1..] + b;
      RunAppend(Step(s, a[0]), a[1..], b);
    }
  }

  lemma RunOne(s: State, e: Event)
    ensures Run(s, [e]) == Step(s, e)
  {
    assert [e][1..] == [];
  }

  /** One attempt of a top-up without interference: test, scrape, and offer what was scraped. */
  lemma SoloAttempt(s: State, t: nat, scraped: Option<Proxy>, c: Call) returns (events: seq<Event>)
    requires t < |s.threads| && s.threads[t] == Looping(c)
    requires c.attempts < c.budget && |s.good| < s.target
    ensures var s' := Run(s, events);
            && s'.good == (if scraped.Some? then Admit(s.good, scraped.value, s.target) else s.good)
            && s'.target == s.target && |s'.threads| == |s.threads| && s'.handed == s.handed
            && s'.threads[t] == Looping(c.(attempts := c.attempts + 1, admitted := c.admitted + |s'.good| - |s.good|))
  {
    var s1 := Step(s, Event(t, Test));
    var s2 := Step(s1, Event(t, ScrapeReturns(scraped)));
    RunOne(s, Event(t, Test));
    RunOne(s1, Event(t, ScrapeReturns(scraped)));
    RunAppend(s, [Event(t, Test)], [Event(t, ScrapeReturns(scraped))]);
    events := [Event(t, Test)] + [Event(t, ScrapeReturns(scraped))];
    if scraped.Some? {
      RunOne(s2, Event(t, Offer));
      RunAppend(s, events, [Event(t, Offer)]);
      events := events + [Event(t, Offer)];
    }
  }

  /** Scheduled without interference, the steps of a top-up come to what the method computes. */
  lemma {:induction false} SoloTopUp(s: State, t: nat, scrape: nat -> Option<Proxy>, c: Call) returns (events: seq<Event>)
    requires t < |s.threads| && s.threads[t] == Looping(c)
    ensures var end := Run(s, events);
            var (good, admitted) := TopUpFrom(s.good, s.target, scrape, c.attempts, c.budget);
            && end.good == good && end.handed == s.handed
            && |end.threads| == |s.threads| && end.threads[t] == (if c.forGet then Rereading else Idle)
            && end.finished != [] && end.finished[|end.finished| - 1].admitted == c.admitted + admitted
    decreases Left(c)
  {
    if c.attempts < c.budget && |s.good| < s.target {
      var first := SoloAttempt(s, t, scrape(c.attempts), c);
      var s' := Run(s, first);
      var rest := SoloTopUp(s', t, scrape, s'.threads[t].call);
      RunAppend(s, first, rest);
      events := first + rest;
    } else {
      events := [Event(t, Test)];
      RunOne(s, Event(t, Test));
    }
  }

  /** The random choice as an index: the given one, or the last if it is past the end. */
  function Chosen(good: seq<Proxy>, choice: nat): nat
    requires good != []
  {
    if choice < |good| then choice else |good| - 1
  }

  /** Likewise the steps of a `get_proxy`: a warm pool is left as it is, a cold one topped up once, and
      the proxy handed out, if any, is the one the method returns. */
  lemma SoloGet(s: State, t: nat, scrape: nat -> Option<Proxy>, choice: nat) returns (events: seq<Event>)
    requires t < |s.threads| && s.threads[t] == Idle
    ensures var end := Run(s, events);
            var proxy := Pick(Stocked(s.good, s.target, scrape), choice);
            && end.good == Stocked(s.good, s.target, scrape)
            && end.handed == s.handed + (if proxy.Some? then [proxy.value] else [])
            && |end.threads| == |s.threads| && end.threads[t] == Idle
  {
    if s.good != [] {
      var get := Event(t, StartGet(Chosen(s.good, choice)));
      RunOne(s, get);
      events := [get];
    } else {
      var get := Event(t, StartGet(0));
      var s1 := Step(s, get);
      var topUp := SoloTopUp(s1, t, scrape, s1.threads[t].call);
      var s2 := Run(s1, topUp);
      var reread := Event(t, Reread(if s2.good == [] then 0 else Chosen(s2.good, choice)));
      RunOne(s, get);
      RunOne(s2, reread);
      RunAppend(s, [get], topUp);
      RunAppend(s, [get] + topUp, [reread]);
      events := [get] + topUp + [reread];
    }
  }

  // ---------------------------------------------------------------- a proxy that failed

  /** No thread is about to offer the proxy. */
  ghost predicate NotOffered(s: State, p: Proxy) {
    forall t :: 0 <= t < |s.threads| && s.threads[t].Offering? ==> s.threads[t].candidate != p
  }

  /** It is not in the pool, and has not been handed out since. */
  ghost predicate OutSince(s: State, s': State, p: Proxy) {
    && p !in s'.good && NotOffered(s', p)
    && s.handed <= s'.handed && p !in s'.handed[|s.handed|..]
  }

  lemma StepStaysOut(s: State, e: Event, p: Proxy)
    requires p !in s.good && NotOffered(s, p) && e.action != ScrapeReturns(Some(p))
    ensures OutSince(s, Step(s, e), p)
  {
    if e.action.Report? { EvictMembers(s.good, e.action.proxy); }
  }

  lemma {:induction false} RunStaysOut(s: State, events: seq<Event>, p: Proxy)
    requires p !in s.good && NotOffered(s, p)
    requires forall e :: e in events ==> e.action != ScrapeReturns(Some(p))
    ensures OutSince(s, Run(s, events), p)
    decreases |events|
  {
    if events != [] {
      assert events[0] in events;
      StepStaysOut(s, events[0], p);
      var s1 := Step(s, events[0]);
      RunStaysOut(s1, events[1..], p);
      var end := Run(s, events);
      assert end.handed[|s.handed|..] == s1.handed[|s.handed|..] + end.handed[|s1.handed|..];
    }
  }

  /** A proxy reported as failed leaves the pool at once, all others staying, and no thread is handed it
      again, under any interleaving, before some scrape has verified it afresh. */
  lemma ReportedStaysOut(s: State, t: nat, p: Proxy, events: seq<Event>)
    requires Invariant(s) && t < |s.threads| && s.threads[t] == Idle && NotOffered(s, p)
    requires forall e :: e in events ==> e.action != ScrapeReturns(Some(p))
    ensures var s' := Step(s, Event(t, Report(p)));
            && (forall q :: q in s'.good <==> q in s.good && q != p)
            && s'.handed == s.handed
            && OutSince(s', Run(s', events), p)
  {
    EvictLeavesOthers(s.good, p);
    RunStaysOut(Step(s, Event(t, Report(p))), events, p);
  }
}
