/**
 * The proxy pool (app/connectors/proxy_pool.py): its critical sections, and its methods as one
 * caller runs them.
 */
module ProxyPools {
  import opened Options
  import opened Sequences

  type Proxy = string

  /** `_good.remove(proxy)` when present: the first occurrence goes. */
  function Evict(good: seq<Proxy>, proxy: Proxy): seq<Proxy> {
    if good == [] then []
    else if good[0] == proxy then good[1..]
    else [good[0]] + Evict(good[1..], proxy)
  }

  /** The admission section of `top_up`: a duplicate or one too many is turned away. */
  function Admit(good: seq<Proxy>, candidate: Proxy, target: nat): seq<Proxy> {
    if candidate !in good && |good| < target then good + [candidate] else good
  }

  /** The pool between critical sections. */
  ghost predicate Healthy(good: seq<Proxy>, target: nat) {
    Distinct(good) && |good| <= target
  }

  lemma AdmitKeepsHealthy(good: seq<Proxy>, candidate: Proxy, target: nat)
    requires Healthy(good, target)
    ensures Healthy(Admit(good, candidate, target), target)
  {
  }

  lemma {:induction false} EvictMembers(good: seq<Proxy>, proxy: Proxy)
    ensures multiset(Evict(good, proxy)) == multiset(good) - multiset{proxy}
    ensures |Evict(good, proxy)| == |good| - (if proxy in good then 1 else 0)
    ensures forall p :: p in Evict(good, proxy) ==> p in good
  {
    if good != [] {
      var rest := good[1..];
      assert good == [good[0]] + rest;
      if good[0] != proxy {
        EvictMembers(rest, proxy);
        assert multiset(Evict(good, proxy)) == multiset{good[0]} + multiset(Evict(rest, proxy));
      } else {
        assert multiset(good) == multiset{proxy} + multiset(rest);
      }
    }
  }

  /** An eviction takes out exactly the one proxy: with no duplicates, none of it is left. */
  lemma {:induction false} EvictRemoves(good: seq<Proxy>, proxy: Proxy)
    requires Distinct(good)
    ensures Distinct(Evict(good, proxy)) && proxy !in Evict(good, proxy)
  {
    if good != [] {
      var rest := good[1..];
      assert forall j :: 0 <= j < |rest| ==> rest[j] == good[j + 1];
      EvictMembers(rest, proxy);
      if good[0] != proxy {
        EvictRemoves(rest, proxy);
        DistinctCons(good[0], Evict(rest, proxy));
      }
    }
  }

  /** Whichever proxies are left. */
  lemma EvictLeavesOthers(good: seq<Proxy>, proxy: Proxy)
    requires Distinct(good)
    ensures forall p :: p in Evict(good, proxy) <==> p in good && p != proxy
  {
    EvictMembers(good, proxy);
    EvictRemoves(good, proxy);
    forall p
      ensures p in Evict(good, proxy) <==> p in good && p != proxy
    {
      assert p in Evict(good, proxy) <==> p in multiset(Evict(good, proxy));
      assert p in good <==> p in multiset(good);
    }
  }

  /** `top_up` run without interference from its n-th attempt on: the pool, and how many were admitted. */
  function TopUpFrom(good: seq<Proxy>, target: nat, scrape: nat -> Option<Proxy>, n: nat, budget: int): (seq<Proxy>, nat)
    decreases budget - n
  {
    if n >= budget || |good| >= target then (good, 0)
    else
      var good' := if scrape(n).Some? then Admit(good, scrape(n).value, target) else good;
      var (final, admitted) := TopUpFrom(good', target, scrape, n + 1, budget);
      (final, admitted + |good'| - |good|)
  }

  /** Alone, a top-up keeps the pool healthy, only adds proxies that were scraped, counts what it
      adds, and stops short of the target only when every attempt has been spent. */
  lemma {:induction false} TopUpAlone(good: seq<Proxy>, target: nat, scrape: nat -> Option<Proxy>, n: nat, budget: int)
    requires Healthy(good, target)
    ensures var (final, admitted) := TopUpFrom(good, target, scrape, n, budget);
            && Healthy(final, target)
            && good <= final && |final| == |good| + admitted
            && (forall p :: p in final ==> p in good || exists k: nat :: n <= k < budget && scrape(k) == Some(p))
            && (|final| < target ==>
                  forall k: nat :: n <= k < budget && scrape(k).Some? ==> scrape(k).value in final)
    decreases budget - n
  {
    if n < budget && |good| < target {
      var good' := if scrape(n).Some? then Admit(good, scrape(n).value, target) else good;
      if scrape(n).Some? { AdmitKeepsHealthy(good, scrape(n).value, target); }
      TopUpAlone(good', target, scrape, n + 1, budget);
      if scrape(n).Some? {
        var i :| 0 <= i < |good'| && good'[i] == scrape(n).value;
        assert TopUpFrom(good, target, scrape, n, budget).0[i] == scrape(n).value;
      }
    }
  }

  /** The pool a `get_proxy` chooses from: topped up if it was empty. */
  function Stocked(good: seq<Proxy>, target: nat, scrape: nat -> Option<Proxy>): seq<Proxy> {
    if good != [] then good else TopUpFrom([], target, scrape, 0, target * 4).0
  }

  /** A member of the pool if it has any. `choice` stands for the random choice: an index, or the last
      one if it is past the end. */
  function Pick(good: seq<Proxy>, choice: nat): (proxy: Option<Proxy>)
    ensures proxy.None? <==> good == []
    ensures proxy.Some? ==> proxy.value in good
    ensures choice < |good| ==> proxy == Some(good[choice])
  {
    if good == [] then None else Some(good[if choice < |good| then choice else |good| - 1])
  }

  lemma StockedHealthy(good: seq<Proxy>, target: nat, scrape: nat -> Option<Proxy>)
    requires Healthy(good, target)
    ensures Healthy(Stocked(good, target, scrape), target)
  {
    TopUpAlone([], target, scrape, 0, target * 4);
  }

  lemma EvictKeepsHealthy(good: seq<Proxy>, proxy: Proxy, target: nat)
    requires Healthy(good, target)
    ensures Healthy(Evict(good, proxy), target) && proxy !in Evict(good, proxy)
  {
    EvictRemoves(good, proxy);
    EvictMembers(good, proxy);
  }

  class ProxyPool {
    const targetSize: nat
    var good: seq<Proxy>

    constructor (targetSize: nat)
      ensures this.targetSize == targetSize && good == []
    {
      this.targetSize := targetSize;
      good := [];
    }

    method ReportFailure(proxy: Proxy)
      modifies this
      ensures good == Evict(old(good), proxy)
    {
      var i := 0;
      while i < |good| && good[i] != proxy
        invariant 0 <= i <= |good|
        invariant good == old(good)
        invariant Evict(good, proxy) == good[..i] + Evict(good[i..], proxy)
      {
        assert good[i..][1..] == good[i + 1..];
        assert good[..i] + [good[i]] == good[..i + 1];
        assert good[..i] + ([good[i]] + Evict(good[i + 1..], proxy)) == (good[..i] + [good[i]]) + Evict(good[i + 1..], proxy);
        i := i + 1;
      }
      if i < |good| {
        assert good[i..][1..] == good[i + 1..];
        good := good[..i] + good[i + 1..];
      } else {
        assert good[i..] == [] && good[..i] == good;
      }
    }

    /** `top_up`. `scrape` gives the outcome of each attempt. */
    method TopUp(scrape: nat -> Option<Proxy>, maxAttempts: Option<int>) returns (admitted: nat)
      modifies this
      ensures (good, admitted) == TopUpFrom(old(good), targetSize, scrape, 0, GetOr(maxAttempts, targetSize * 4))
    {
      var budget := if maxAttempts.Some? then maxAttempts.value else targetSize * 4;
      admitted := 0;
      var attempts := 0;
      while attempts < budget
        invariant 0 <= attempts
        invariant var rest := TopUpFrom(good, targetSize, scrape, attempts, budget);
                  (rest.0, admitted + rest.1) == TopUpFrom(old(good), targetSize, scrape, 0, budget)
        decreases budget - attempts
      {
        if |good| >= targetSize { break; }
        var candidate := scrape(attempts);
        attempts := attempts + 1;
        if candidate.None? { continue; }
        if candidate.value !in good && |good| < targetSize {
          good := good + [candidate.value];
          admitted := admitted + 1;
        }
      }
    }

    /** `random.choice` of a non-empty list. */
    function RandomChoice(choice: nat): Proxy
      requires good != []
      reads this
    {
      good[if choice < |good| then choice else |good| - 1]
    }

    /** `get_proxy`. */
    method GetProxy(scrape: nat -> Option<Proxy>, choice: nat) returns (proxy: Option<Proxy>)
      modifies this
      ensures good == Stocked(old(good), targetSize, scrape)
      ensures proxy == Pick(good, choice)
    {
      if |good| > 0 { return Some(RandomChoice(choice)); }
      var _ := TopUp(scrape, None);
      if |good| > 0 { return Some(RandomChoice(choice)); }
      return None;
    }
  }
}
