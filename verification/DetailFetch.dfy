/**
 * Fetching one detail page through rotating proxies (app/connectors/sitemap_detail.py
 * `_fetch_detail_html`): a bounded number of attempts (`_limit`, 3 in the source), each
 * with a proxy drawn from the pool, and what counts as blocked.
 */
module DetailFetch {
  import opened Options
  import opened ProxyPools

  /** What a request through a proxy comes to: an HTTP error status, a transport error, or a page. */
  datatype Reply = StatusError(code: int) | TransportError | Page(html: string)

  /** One attempt: the pool had no proxy to give, or the proxy it gave and the reply through it. */
  datatype Attempt = NoProxy | Tried(proxy: Proxy, reply: Reply)

  datatype Fetched = Html(html: string) | Blocked(code: int) | NoHtml

  /** What the fetch meets, attempt by attempt: the candidates a top-up would scrape, the random choice
      of an index, and the reply through the proxy drawn. */
  datatype World = World(
    scrape: nat -> nat -> Option<Proxy>,
    choice: nat -> nat,
    reply: (nat, Proxy) -> Reply)

  predicate IsBlock(code: int) { code == 403 || code == 429 }

  /** The pool the k-th attempt draws from, given the pool before it. */
  function Drawn(w: World, good: seq<Proxy>, target: nat, k: nat): seq<Proxy> {
    Stocked(good, target, w.scrape(k))
  }

  function AttemptFrom(w: World, good: seq<Proxy>, target: nat, k: nat): Attempt
  {
    var proxy := Pick(Drawn(w, good, target, k), w.choice(k));
    if proxy.None? then NoProxy else Tried(proxy.value, w.reply(k, proxy.value))
  }

  /** The pool after the k-th attempt: without the proxy, if it failed. */
  function PoolAfter(w: World, good: seq<Proxy>, target: nat, k: nat): seq<Proxy>
  {
    var drawn := Drawn(w, good, target, k);
    var attempt := AttemptFrom(w, good, target, k);
    if attempt.NoProxy? || Succeeds(attempt) then drawn else Evict(drawn, attempt.proxy)
  }

  predicate Succeeds(a: Attempt) {
    a.Tried? && a.reply.Page?
  }

  /** The rotation as the fetch sees it: from the pool before the k-th attempt, the attempt and the pool
      after it. */
  datatype Rotation = Rotation(attempt: (seq<Proxy>, nat) -> Attempt, after: (seq<Proxy>, nat) -> seq<Proxy>)

  function RotationOf(w: World, target: nat): Rotation {
    Rotation((good: seq<Proxy>, k: nat) => AttemptFrom(w, good, target, k),
             (good: seq<Proxy>, k: nat) => PoolAfter(w, good, target, k))
  }

  /** What one attempt leaves for the next: the pool, and the last reply there has been. */
  datatype State = State(good: seq<Proxy>, last: Option<Reply>)

  function Advance(rot: Rotation, s: State, k: nat): State {
    var attempt := rot.attempt(s.good, k);
    State(rot.after(s.good, k), if attempt.Tried? then Some(attempt.reply) else s.last)
  }

  /** Before the n-th attempt: the pool, and the reply to the last attempt that got a proxy. */
  function Before(rot: Rotation, good: seq<Proxy>, n: nat): State {
    if n == 0 then State(good, None) else Advance(rot, Before(rot, good, n - 1), n - 1)
  }

  /** The n-th attempt. */
  function AttemptAt(rot: Rotation, good: seq<Proxy>, n: nat): Attempt {
    rot.attempt(Before(rot, good, n).good, n)
  }

  /** A fetch without a page: blocked only on a 403 or 429 from the last attempt that had a proxy. */
  function Verdict(last: Option<Reply>): Fetched {
    if last.Some? && last.value.StatusError? && IsBlock(last.value.code) then Blocked(last.value.code) else NoHtml
  }

  /** The loop body up to the reply: draw a proxy, topping up an empty pool, and evict it if it fails. */
  method TryOnce(w: World, k: nat, pool: ProxyPool) returns (attempt: Attempt)
    modifies pool
    ensures attempt == AttemptFrom(w, old(pool.good), pool.targetSize, k)
    ensures pool.good == PoolAfter(w, old(pool.good), pool.targetSize, k)
  {
    var proxy := pool.GetProxy(w.scrape(k), w.choice(k));
    if proxy.None? { return NoProxy; }
    var reply := w.reply(k, proxy.value);
    if !reply.Page? { pool.ReportFailure(proxy.value); }
    return Tried(proxy.value, reply);
  }

  function StatusOf(reply: Option<Reply>): Option<int> {
    if reply.Some? && reply.value.StatusError? then Some(reply.value.code) else None
  }

  /** The attempts from the k-th on: the result, the number of attempts made, and the pool at the end. */
  function FetchFrom(rot: Rotation, s: State, k: nat, limit: nat): (Fetched, nat, seq<Proxy>)
    decreases limit - k
  {
    if k >= limit then (Verdict(s.last), k, s.good)
    else
      var attempt := rot.attempt(s.good, k);
      if Succeeds(attempt) then (Html(attempt.reply.html), k + 1, rot.after(s.good, k))
      else FetchFrom(rot, Advance(rot, s, k), k + 1, limit)
  }

  method FetchDetailHtml(w: World, pool: ProxyPool, maxAttempts: nat) returns (result: Fetched, tried: nat)
    modifies pool
    ensures (result, tried, pool.good)
         == FetchFrom(RotationOf(w, pool.targetSize), State(old(pool.good), None), 0, maxAttempts)
  {
    var lastStatusCode: Option<int> := None;
    ghost var last: Option<Reply> := None;
    ghost var rot := RotationOf(w, pool.targetSize);
    ghost var outcome := FetchFrom(rot, State(pool.good, None), 0, maxAttempts);
    tried := 0;
    while tried < maxAttempts
      invariant 0 <= tried <= maxAttempts
      invariant lastStatusCode == StatusOf(last)
      invariant FetchFrom(rot, State(pool.good, last), tried, maxAttempts) == outcome
    {
      var attempt := TryOnce(w, tried, pool);
      tried := tried + 1;
      if attempt.NoProxy? { continue; }
      last := Some(attempt.reply);
      match attempt.reply {
        case StatusError(code) => lastStatusCode := Some(code);
        case TransportError => lastStatusCode := None;
        case Page(html) => return Html(html), tried;
      }
    }
    if lastStatusCode.Some? && IsBlock(lastStatusCode.value) { return Blocked(lastStatusCode.value), tried; }
    return NoHtml, tried;
  }

  /** Of the first n attempts, the m-th is the last that had a proxy. */
  ghost predicate LastTried(rot: Rotation, good: seq<Proxy>, n: nat, m: nat) {
    && m < n && AttemptAt(rot, good, m).Tried?
    && forall k: nat :: m < k < n ==> AttemptAt(rot, good, k).NoProxy?
  }

  /** How a fetch ends: the first page wins; with none, after the last attempt, it is blocked exactly
      when the last attempt that had a proxy at all ended in a 403 or 429. */
  ghost predicate Outcome(rot: Rotation, good: seq<Proxy>, limit: nat, result: Fetched, tried: nat) {
    && 1 <= tried <= limit
    && (forall m: nat :: m < tried - 1 ==> !Succeeds(AttemptAt(rot, good, m)))
    && var final := AttemptAt(rot, good, tried - 1);
       if final.Tried? && final.reply.Page? then result == Html(final.reply.html)
       else
         && tried == limit
         && (forall m: nat :: LastTried(rot, good, limit, m) ==>
               var reply := AttemptAt(rot, good, m).reply;
               result == if reply.StatusError? && reply.code in {403, 429} then Blocked(reply.code) else NoHtml)
         && ((forall m: nat :: !LastTried(rot, good, limit, m)) ==> result == NoHtml)
  }

  /** The last reply there has been is that of the last attempt that had a proxy. */
  lemma {:induction false} LastReply(rot: Rotation, good: seq<Proxy>, n: nat)
    ensures Before(rot, good, n).last.None? ==> forall m: nat :: !LastTried(rot, good, n, m)
    ensures Before(rot, good, n).last.Some? ==>
              exists m: nat :: LastTried(rot, good, n, m) && AttemptAt(rot, good, m).reply == Before(rot, good, n).last.value
  {
    if n > 0 {
      LastReply(rot, good, n - 1);
      if AttemptAt(rot, good, n - 1).Tried? {
        assert LastTried(rot, good, n, n - 1);
      } else {
        forall m: nat
          ensures LastTried(rot, good, n, m) <==> LastTried(rot, good, n - 1, m)
        {
        }
      }
    }
  }

  /** There is only one such attempt. */
  lemma VerdictOfLast(rot: Rotation, good: seq<Proxy>, n: nat, m: nat)
    requires LastTried(rot, good, n, m)
    ensures Before(rot, good, n).last == Some(AttemptAt(rot, good, m).reply)
  {
    LastReply(rot, good, n);
  }

  /** Every fetch ends so, and the pool is what the attempts made have left of it. */
  lemma FetchOutcome(rot: Rotation, good: seq<Proxy>, limit: nat)
    requires limit >= 1
    ensures var (result, tried, pool) := FetchFrom(rot, State(good, None), 0, limit);
            Outcome(rot, good, limit, result, tried) && pool == Before(rot, good, tried).good
  {
    FetchFromOutcome(rot, good, 0, limit);
  }

  /** With no page, after the last attempt. */
  lemma OutcomeWithoutPage(rot: Rotation, good: seq<Proxy>, limit: nat)
    requires limit >= 1 && forall m: nat :: m < limit ==> !Succeeds(AttemptAt(rot, good, m))
    ensures Outcome(rot, good, limit, Verdict(Before(rot, good, limit).last), limit)
  {
    LastReply(rot, good, limit);
    forall m: nat | LastTried(rot, good, limit, m)
      ensures Before(rot, good, limit).last == Some(AttemptAt(rot, good, m).reply)
    {
      VerdictOfLast(rot, good, limit, m);
    }
    assert !Succeeds(AttemptAt(rot, good, limit - 1));
  }

  lemma {:induction false} FetchFromOutcome(rot: Rotation, good: seq<Proxy>, k: nat, limit: nat)
    requires k < limit
    requires forall m: nat :: m < k ==> !Succeeds(AttemptAt(rot, good, m))
    ensures var (result, tried, pool) := FetchFrom(rot, Before(rot, good, k), k, limit);
            Outcome(rot, good, limit, result, tried) && pool == Before(rot, good, tried).good
    decreases limit - k
  {
    assert Before(rot, good, k + 1) == Advance(rot, Before(rot, good, k), k);
    if !Succeeds(AttemptAt(rot, good, k)) {
      if k + 1 < limit { FetchFromOutcome(rot, good, k + 1, limit); } else { OutcomeWithoutPage(rot, good, limit); }
    }
  }

  // ---------------------------------------------------------------- what the rotation achieves

  lemma PoolAfterHealthy(w: World, good: seq<Proxy>, target: nat, k: nat)
    requires Healthy(good, target)
    ensures Healthy(PoolAfter(w, good, target, k), target)
    ensures var attempt := AttemptFrom(w, good, target, k);
            attempt.Tried? && !Succeeds(attempt) ==> attempt.proxy !in PoolAfter(w, good, target, k)
  {
    StockedHealthy(good, target, w.scrape(k));
    var attempt := AttemptFrom(w, good, target, k);
    if attempt.Tried? { EvictKeepsHealthy(Drawn(w, good, target, k), attempt.proxy, target); }
  }

  /** An attempt on a pool that is not empty adds nothing to it. */
  lemma WarmAttemptOnlyEvicts(w: World, good: seq<Proxy>, target: nat, k: nat, p: Proxy)
    requires good != [] && p !in good
    ensures p !in PoolAfter(w, good, target, k)
    ensures AttemptFrom(w, good, target, k) != NoProxy && AttemptFrom(w, good, target, k).proxy != p
  {
    var attempt := AttemptFrom(w, good, target, k);
    assert Drawn(w, good, target, k) == good;
    if attempt.Tried? { EvictMembers(good, attempt.proxy); }
  }

  /** A failed attempt takes its proxy out of a healthy pool and leaves it healthy. */
  ghost predicate Evicts(rot: Rotation, target: nat) {
    forall good: seq<Proxy>, k: nat :: Healthy(good, target) ==>
      && Healthy(rot.after(good, k), target)
      && (rot.attempt(good, k).Tried? && !Succeeds(rot.attempt(good, k)) ==> rot.attempt(good, k).proxy !in rot.after(good, k))
  }

  /** While the pool is not empty nothing new comes into it, and a proxy is drawn from it. */
  ghost predicate DrawsFromPool(rot: Rotation) {
    forall good: seq<Proxy>, k: nat, p: Proxy :: good != [] && p !in good ==>
      && p !in rot.after(good, k)
      && rot.attempt(good, k) != NoProxy
      && rot.attempt(good, k).proxy != p
  }

  lemma RotationOfPool(w: World, target: nat)
    ensures Evicts(RotationOf(w, target), target) && DrawsFromPool(RotationOf(w, target))
  {
    var rot := RotationOf(w, target);
    forall good: seq<Proxy>, k: nat | Healthy(good, target)
      ensures Healthy(rot.after(good, k), target)
      ensures rot.attempt(good, k).Tried? && !Succeeds(rot.attempt(good, k)) ==> rot.attempt(good, k).proxy !in rot.after(good, k)
    {
      PoolAfterHealthy(w, good, target, k);
    }
    forall good: seq<Proxy>, k: nat, p: Proxy | good != [] && p !in good
      ensures p !in rot.after(good, k) && rot.attempt(good, k) != NoProxy && rot.attempt(good, k).proxy != p
    {
      WarmAttemptOnlyEvicts(w, good, target, k, p);
    }
  }

  lemma {:induction false} StaysHealthy(rot: Rotation, target: nat, good: seq<Proxy>, n: nat)
    requires Evicts(rot, target) && Healthy(good, target)
    ensures Healthy(Before(rot, good, n).good, target)
  {
    if n > 0 { StaysHealthy(rot, target, good, n - 1); }
  }

  /** The pool has not run dry between the k-th and the n-th attempt. */
  ghost predicate StaysWarm(rot: Rotation, good: seq<Proxy>, k: nat, n: nat) {
    forall m: nat :: k < m <= n ==> Before(rot, good, m).good != []
  }

  /** A proxy that failed stays out of the pool as long as the pool does not run dry. */
  lemma {:induction false} FailedStaysOut(rot: Rotation, target: nat, good: seq<Proxy>, k: nat, n: nat)
    requires Evicts(rot, target) && DrawsFromPool(rot)
    requires Healthy(good, target) && k < n && StaysWarm(rot, good, k, n)
    requires AttemptAt(rot, good, k).Tried? && !Succeeds(AttemptAt(rot, good, k))
    ensures AttemptAt(rot, good, k).proxy !in Before(rot, good, n).good
    decreases n
  {
    if n - 1 == k {
      StaysHealthy(rot, target, good, k);
    } else {
      FailedStaysOut(rot, target, good, k, n - 1);
      assert Before(rot, good, n - 1).good != [];
    }
  }

  /** So no attempt goes through a proxy that has failed before in the same fetch, unless the pool ran
      dry and the proxy was scraped afresh. */
  lemma AttemptsRotate(w: World, good: seq<Proxy>, target: nat, k: nat, n: nat)
    requires Healthy(good, target) && k < n && StaysWarm(RotationOf(w, target), good, k, n)
    requires var first := AttemptAt(RotationOf(w, target), good, k); first.Tried? && !Succeeds(first)
    ensures var first, later := AttemptAt(RotationOf(w, target), good, k), AttemptAt(RotationOf(w, target), good, n);
            later.Tried? && later.proxy != first.proxy
  {
    RotationOfPool(w, target);
    LaterDiffers(RotationOf(w, target), target, good, k, n);
  }

  lemma LaterDiffers(rot: Rotation, target: nat, good: seq<Proxy>, k: nat, n: nat)
    requires Evicts(rot, target) && DrawsFromPool(rot)
    requires Healthy(good, target) && k < n && StaysWarm(rot, good, k, n)
    requires AttemptAt(rot, good, k).Tried? && !Succeeds(AttemptAt(rot, good, k))
    ensures AttemptAt(rot, good, n).Tried? && AttemptAt(rot, good, n).proxy != AttemptAt(rot, good, k).proxy
  {
    FailedStaysOut(rot, target, good, k, n);
    assert Before(rot, good, n).good != [];
  }

  /** The proxy failed in one of the first n attempts. */
  ghost predicate FailedBefore(rot: Rotation, good: seq<Proxy>, n: nat, p: Proxy) {
    exists m: nat :: m < n && AttemptAt(rot, good, m).Tried? && !Succeeds(AttemptAt(rot, good, m))
                     && AttemptAt(rot, good, m).proxy == p
  }

  /** An attempt on a healthy pool that is not empty takes out its own proxy, if it fails, and no other. */
  lemma WarmAttempt(w: World, good: seq<Proxy>, target: nat, k: nat)
    requires good != [] && Healthy(good, target)
    ensures var attempt, after := AttemptFrom(w, good, target, k), PoolAfter(w, good, target, k);
            && attempt.Tried? && Healthy(after, target)
            && forall p :: p in after <==> p in good && (Succeeds(attempt) || p != attempt.proxy)
  {
    var attempt, after := AttemptFrom(w, good, target, k), PoolAfter(w, good, target, k);
    assert Drawn(w, good, target, k) == good;
    if !Succeeds(attempt) {
      EvictLeavesOthers(good, attempt.proxy);
      EvictKeepsHealthy(good, attempt.proxy, target);
    }
  }

  /** The same of a whole rotation. */
  ghost predicate TakesOutFailures(rot: Rotation, target: nat) {
    forall good: seq<Proxy>, k: nat :: good != [] && Healthy(good, target) ==>
      && Healthy(rot.after(good, k), target)
      && TakesOutOwn(good, rot.attempt(good, k), rot.after(good, k))
  }

  ghost predicate TakesOutOwn(good: seq<Proxy>, attempt: Attempt, after: seq<Proxy>) {
    attempt.Tried? && forall p :: p in after <==> p in good && (Succeeds(attempt) || p != attempt.proxy)
  }

  lemma FailedBeforeSnoc(rot: Rotation, good: seq<Proxy>, n: nat, p: Proxy)
    requires n > 0
    ensures var attempt := AttemptAt(rot, good, n - 1);
            FailedBefore(rot, good, n, p) <==>
              FailedBefore(rot, good, n - 1, p) || (attempt.Tried? && !Succeeds(attempt) && attempt.proxy == p)
  {
  }

  lemma {:induction false} FailuresLeave(rot: Rotation, good: seq<Proxy>, target: nat, n: nat)
    requires TakesOutFailures(rot, target) && Healthy(good, target)
    requires forall m: nat :: m < n ==> Before(rot, good, m).good != []
    ensures Healthy(Before(rot, good, n).good, target)
    ensures forall p :: p in Before(rot, good, n).good <==> p in good && !FailedBefore(rot, good, n, p)
  {
    if n > 0 {
      var pool := Before(rot, good, n - 1).good;
      FailuresLeave(rot, good, target, n - 1);
      assert TakesOutOwn(pool, rot.attempt(pool, n - 1), rot.after(pool, n - 1));
      forall p
        ensures p in Before(rot, good, n).good <==> p in good && !FailedBefore(rot, good, n, p)
      {
        FailedBeforeSnoc(rot, good, n, p);
      }
    }
  }

  /** A fetch takes exactly the proxies that failed it out of the pool, as long as that does not run dry:
      one that brought a page back stays. */
  lemma FetchTakesOutFailures(w: World, good: seq<Proxy>, target: nat, n: nat)
    requires Healthy(good, target)
    requires forall m: nat :: m < n ==> Before(RotationOf(w, target), good, m).good != []
    ensures forall p :: p in Before(RotationOf(w, target), good, n).good <==>
              p in good && !FailedBefore(RotationOf(w, target), good, n, p)
  {
    var rot := RotationOf(w, target);
    forall pool: seq<Proxy>, k: nat | pool != [] && Healthy(pool, target)
      ensures Healthy(rot.after(pool, k), target) && TakesOutOwn(pool, rot.attempt(pool, k), rot.after(pool, k))
    {
      WarmAttempt(w, pool, target, k);
    }
    FailuresLeave(rot, good, target, n);
  }
}
