/**
 * Browser fingerprints (app/connectors/fingerprint.py): drawing without replacement from a
 * reshuffled bag, with a repair at cycle boundaries.
 */
module Fingerprints {
  import opened Options
  import opened Sequences

  // ---------------------------------------------------------------- the bag

  ghost predicate Permutes<T>(a: seq<T>, b: seq<T>) {
    multiset(a) == multiset(b)
  }

  function Swapped<T>(s: seq<T>, i: nat, j: nat): (r: seq<T>)
    requires i < |s| && j < |s|
    ensures |r| == |s| && r[i] == s[j] && r[j] == s[i]
  {
    s[i := s[j]][j := s[i]]
  }

  lemma SwapPermutes<T>(s: seq<T>, i: nat, j: nat)
    requires i < |s| && j < |s|
    ensures multiset(Swapped(s, i, j)) == multiset(s)
  {
  }

  lemma PermutationLength<T>(a: seq<T>, b: seq<T>)
    requires Permutes(a, b)
    ensures |a| == |b|
  {
    assert |multiset(a)| == |a| && |multiset(b)| == |b|;
  }

  /** A fresh cycle: the shuffled combos, with first and last exchanged when the next draw would
      repeat the previous one. */
  function Refill<T(==)>(shuffled: seq<T>, last: Option<T>): seq<T>
    requires shuffled != []
  {
    var n := |shuffled| - 1;
    if last == Some(shuffled[n]) then Swapped(shuffled, 0, n) else shuffled
  }

  /** The pool's fields, together with everything drawn so far. */
  datatype Pool<T> = Pool(bag: seq<T>, last: Option<T>, drawn: seq<T>)

  /** The bag a draw takes from. */
  function NextBag<T(==)>(p: Pool<T>, shuffled: seq<T>): (bag: seq<T>)
    requires shuffled != []
    ensures bag != []
  {
    if p.bag == [] then Refill(shuffled, p.last) else p.bag
  }

  /** One draw. `shuffled` is what the shuffle would produce; it is used only when the bag is empty. */
  function Draw<T(==)>(p: Pool<T>, shuffled: seq<T>): Pool<T>
    requires shuffled != []
  {
    var bag := NextBag(p, shuffled);
    var combo := bag[|bag| - 1];
    Pool(bag[..|bag| - 1], Some(combo), p.drawn + [combo])
  }

  /** The pool after one draw per listed shuffle. */
  function After<T(==)>(shuffles: seq<seq<T>>): Pool<T>
    requires forall i :: 0 <= i < |shuffles| ==> shuffles[i] != []
    decreases |shuffles|
  {
    if shuffles == [] then Pool([], None, [])
    else Draw(After(shuffles[..|shuffles| - 1]), shuffles[|shuffles| - 1])
  }

  /** `FingerprintPool`, for any list of combos. */
  class FingerprintPool<T(==)> {
    const combos: seq<T>
    var bag: seq<T>
    var last: Option<T>
    ghost var drawn: seq<T>

    constructor (combos: seq<T>)
      ensures this.combos == combos
      ensures State() == Pool([], None, [])
    {
      this.combos := combos;
      bag, last, drawn := [], None, [];
    }

    ghost function State(): Pool<T>
      reads this
    {
      Pool(bag, last, drawn)
    }

    /** `_next_combo`. `shuffled` stands for the random shuffle's outcome: any rearrangement. */
    method NextCombo(shuffled: seq<T>) returns (combo: T)
      requires combos != [] && Permutes(shuffled, combos)
      modifies this
      ensures shuffled != []
      ensures State() == Draw(old(State()), shuffled)
      ensures last == Some(combo) && drawn == old(drawn) + [combo]
    {
      PermutationLength(shuffled, combos);
      if |bag| == 0 {
        bag := shuffled;
        var n := |bag| - 1;
        if last == Some(bag[n]) {
          var first, final := bag[0], bag[n];
          bag := bag[0 := final][n := first];
        }
        assert bag == Refill(shuffled, old(last));
      }
      combo := bag[|bag| - 1];
      bag := bag[..|bag| - 1];
      last := Some(combo);
      drawn := drawn + [combo];
    }
  }

  // ---------------------------------------------------------------- every sequence of draws

  ghost predicate ValidShuffles<T>(combos: seq<T>, shuffles: seq<seq<T>>) {
    forall i :: 0 <= i < |shuffles| ==> shuffles[i] != [] && Permutes(shuffles[i], combos)
  }

  /** The draws cut into consecutive cycles of n, leaving out an unfinished one. */
  function Cycles<T>(drawn: seq<T>, n: nat): seq<seq<T>>
    requires n >= 1
    decreases |drawn|
  {
    if |drawn| < n then [] else [drawn[..n]] + Cycles(drawn[n..], n)
  }

  /** The unfinished cycle. */
  function Unfinished<T>(drawn: seq<T>, n: nat): seq<T>
    requires n >= 1
    decreases |drawn|
  {
    if |drawn| < n then drawn else Unfinished(drawn[n..], n)
  }

  lemma FirstCycle<T>(drawn: seq<T>, n: nat)
    requires 1 <= n <= |drawn|
    ensures Cycles(drawn, n) == [drawn[..n]] + Cycles(drawn[n..], n)
  {
  }

  lemma {:induction false} UnfinishedEnd<T>(drawn: seq<T>, n: nat)
    requires n >= 1
    ensures |Unfinished(drawn, n)| < n
    ensures Unfinished(drawn, n) != [] ==>
              drawn != [] && Unfinished(drawn, n)[|Unfinished(drawn, n)| - 1] == drawn[|drawn| - 1]
    decreases |drawn|
  {
    if |drawn| >= n { UnfinishedEnd(drawn[n..], n); }
  }

  /** The draw after which a first cycle is complete. */
  lemma OneCycle<T>(all: seq<T>, n: nat)
    requires n >= 1 && |all| == n
    ensures Cycles(all, n) == [all] && Unfinished(all, n) == []
  {
    FirstCycle(all, n);
    assert all[..n] == all && all[n..] == [];
  }

  lemma {:induction false} CyclesSnoc<T>(drawn: seq<T>, n: nat, x: T)
    requires n >= 1
    ensures var open := Unfinished(drawn, n) + [x];
            && Cycles(drawn + [x], n) == Cycles(drawn, n) + (if |open| == n then [open] else [])
            && Unfinished(drawn + [x], n) == (if |open| == n then [] else open)
    decreases |drawn|
  {
    var all := drawn + [x];
    if |all| == n {
      OneCycle(all, n);
    } else if |all| > n {
      assert all[n..] == drawn[n..] + [x] && all[..n] == drawn[..n];
      FirstCycle(drawn, n);
      FirstCycle(all, n);
      CyclesSnoc(drawn[n..], n, x);
    }
  }

  /** No draw equals the one before it. */
  ghost predicate NoRepeat<T>(drawn: seq<T>) {
    forall i :: 0 < i < |drawn| ==> drawn[i] != drawn[i - 1]
  }

  ghost predicate AllPermute<T>(cycles: seq<seq<T>>, combos: seq<T>) {
    forall k :: 0 <= k < |cycles| ==> Permutes(cycles[k], combos)
  }

  lemma AllPermuteSplit<T>(cycle: seq<T>, cycles: seq<seq<T>>, combos: seq<T>)
    requires AllPermute([cycle] + cycles, combos)
    ensures Permutes(cycle, combos) && AllPermute(cycles, combos)
  {
    var all := [cycle] + cycles;
    assert all[0] == cycle;
    forall k | 0 <= k < |cycles|
      ensures Permutes(cycles[k], combos)
    {
      assert all[k + 1] == cycles[k];
    }
  }

  lemma AllPermuteSnoc<T>(cycles: seq<seq<T>>, cycle: seq<T>, combos: seq<T>)
    requires AllPermute(cycles, combos) && Permutes(cycle, combos)
    ensures AllPermute(cycles + [cycle], combos)
  {
  }

  /** Finished cycles are permutations of the combos; the unfinished one and the bag make up one. */
  ghost predicate Invariant<T>(combos: seq<T>, p: Pool<T>)
    requires combos != []
  {
    var open := Unfinished(p.drawn, |combos|);
    && AllPermute(Cycles(p.drawn, |combos|), combos)
    && (if open == [] then p.bag == [] else Permutes(open + p.bag, combos))
    && p.last == (if p.drawn == [] then None else Some(p.drawn[|p.drawn| - 1]))
  }

  lemma RefillPermutes<T>(shuffled: seq<T>, last: Option<T>, combos: seq<T>)
    requires shuffled != [] && Permutes(shuffled, combos)
    ensures Permutes(Refill(shuffled, last), combos)
    ensures |Refill(shuffled, last)| == |combos|
  {
    PermutationLength(shuffled, combos);
    SwapPermutes(shuffled, 0, |shuffled| - 1);
  }

  /** The repair works whenever there are at least two distinct combos. */
  lemma RefillAvoids<T>(shuffled: seq<T>, last: Option<T>, combos: seq<T>)
    requires shuffled != [] && Permutes(shuffled, combos) && Distinct(combos) && |combos| >= 2
    ensures var bag := Refill(shuffled, last);
            bag != [] && last != Some(bag[|bag| - 1])
  {
    DistinctOfPermutation(shuffled, combos);
    assert shuffled[0] != shuffled[|shuffled| - 1];
  }

  /** Moving the bag's last combo to the cycle under way keeps the two together a permutation, and
      finishes the cycle exactly when it empties the bag. */
  lemma MoveOne<T>(combos: seq<T>, open: seq<T>, bag: seq<T>)
    requires bag != [] && Permutes(open + bag, combos)
    ensures var m := |bag| - 1;
            var open' := open + [bag[m]];
            && Permutes(open' + bag[..m], combos)
            && (|open'| == |combos| <==> bag[..m] == [])
            && (bag[..m] == [] ==> Permutes(open', combos))
  {
    var m := |bag| - 1;
    SplitLast(open, bag);
    PermutationLength(open + bag, combos);
    if m == 0 { assert (open + [bag[m]]) + bag[..m] == open + [bag[m]]; }
  }

  /** The bag a draw takes from makes up a cycle with the combos drawn in it so far. */
  lemma BagCompletes<T>(combos: seq<T>, p: Pool<T>, shuffled: seq<T>)
    requires combos != [] && shuffled != [] && Permutes(shuffled, combos)
    requires Invariant(combos, p)
    ensures Permutes(Unfinished(p.drawn, |combos|) + NextBag(p, shuffled), combos)
  {
    var open := Unfinished(p.drawn, |combos|);
    RefillPermutes(shuffled, p.last, combos);
    if open == [] {
      assert open + Refill(shuffled, p.last) == Refill(shuffled, p.last);
    } else {
      PermutationLength(open + p.bag, combos);
      UnfinishedEnd(p.drawn, |combos|);
    }
  }

  lemma TakeFromBag<T>(combos: seq<T>, p: Pool<T>, bag: seq<T>)
    requires combos != [] && Invariant(combos, p)
    requires bag != [] && Permutes(Unfinished(p.drawn, |combos|) + bag, combos)
    ensures var m := |bag| - 1;
            Invariant(combos, Pool(bag[..m], Some(bag[m]), p.drawn + [bag[m]]))
  {
    var n, open, combo := |combos|, Unfinished(p.drawn, |combos|), bag[|bag| - 1];
    MoveOne(combos, open, bag);
    CyclesSnoc(p.drawn, n, combo);
    if |open + [combo]| == n { AllPermuteSnoc(Cycles(p.drawn, n), open + [combo], combos); }
  }

  lemma DrawKeepsInvariant<T>(combos: seq<T>, p: Pool<T>, shuffled: seq<T>)
    requires combos != [] && shuffled != [] && Permutes(shuffled, combos)
    requires Invariant(combos, p)
    ensures Invariant(combos, Draw(p, shuffled))
  {
    BagCompletes(combos, p, shuffled);
    TakeFromBag(combos, p, NextBag(p, shuffled));
  }

  lemma SplitLast<T>(a: seq<T>, b: seq<T>)
    requires b != []
    ensures multiset((a + [b[|b| - 1]]) + b[..|b| - 1]) == multiset(a + b)
  {
    assert b == b[..|b| - 1] + [b[|b| - 1]];
  }

  lemma {:induction false} InvariantHolds<T>(combos: seq<T>, shuffles: seq<seq<T>>)
    requires combos != [] && ValidShuffles(combos, shuffles)
    ensures Invariant(combos, After(shuffles))
    ensures |After(shuffles).drawn| == |shuffles|
    decreases |shuffles|
  {
    if shuffles != [] {
      var n := |shuffles| - 1;
      InvariantHolds(combos, shuffles[..n]);
      DrawKeepsInvariant(combos, After(shuffles[..n]), shuffles[n]);
    }
  }

  /** Every aligned cycle of draws is a permutation of all the combos, whatever the shuffles. */
  lemma CyclesArePermutations<T>(combos: seq<T>, shuffles: seq<seq<T>>)
    requires combos != [] && ValidShuffles(combos, shuffles)
    ensures forall c :: c in Cycles(After(shuffles).drawn, |combos|) ==> Permutes(c, combos)
  {
    InvariantHolds(combos, shuffles);
  }

  lemma NextDiffers<T>(combos: seq<T>, p: Pool<T>, shuffled: seq<T>)
    requires |combos| >= 2 && Distinct(combos) && shuffled != [] && Permutes(shuffled, combos)
    requires Invariant(combos, p)
    ensures Draw(p, shuffled).last != p.last
  {
    if p.bag == [] {
      RefillAvoids(shuffled, p.last, combos);
    } else {
      var open := Unfinished(p.drawn, |combos|);
      UnfinishedEnd(p.drawn, |combos|);
      var all := open + p.bag;
      DistinctOfPermutation(all, combos);
      assert all[|open| - 1] != all[|all| - 1];
    }
  }

  /** No two consecutive draws are equal, within a cycle or across a reshuffle. */
  lemma {:induction false} ConsecutiveDrawsDiffer<T>(combos: seq<T>, shuffles: seq<seq<T>>)
    requires |combos| >= 2 && Distinct(combos) && ValidShuffles(combos, shuffles)
    ensures NoRepeat(After(shuffles).drawn)
    decreases |shuffles|
  {
    if shuffles != [] {
      var m := |shuffles| - 1;
      ConsecutiveDrawsDiffer(combos, shuffles[..m]);
      InvariantHolds(combos, shuffles[..m]);
      NextDiffers(combos, After(shuffles[..m]), shuffles[m]);
    }
  }

  /** With a single combo the repair cannot help: the second draw repeats the first. */
  lemma SingleComboRepeats<T>(x: T)
    ensures !NoRepeat(After([[x], [x]]).drawn)
  {
    var two: seq<seq<T>> := [[x], [x]];
    var one: seq<seq<T>> := [[x]];
    assert two[..1] == one && one[..0] == [];
    assert After(one) == Pool([], Some(x), [x]);
    assert After(two).drawn == [x] + [x];
    assert After(two).drawn[1] == After(two).drawn[0];
  }

  /** Any 2N - 1 consecutive draws contain every combo. */
  lemma WindowHoldsEveryCombo<T>(combos: seq<T>, shuffles: seq<seq<T>>, from: nat, x: T)
    requires combos != [] && ValidShuffles(combos, shuffles) && x in combos
    requires from + 2 * |combos| - 1 <= |shuffles|
    ensures |After(shuffles).drawn| == |shuffles|
    ensures x in After(shuffles).drawn[from..from + 2 * |combos| - 1]
  {
    InvariantHolds(combos, shuffles);
    WindowOfCycles(combos, After(shuffles).drawn, from, x);
  }

  lemma PeelCycle<T>(drawn: seq<T>, n: nat, combos: seq<T>)
    requires 1 <= n <= |drawn| && AllPermute(Cycles(drawn, n), combos)
    ensures Permutes(drawn[..n], combos)
    ensures AllPermute(Cycles(drawn[n..], n), combos)
  {
    FirstCycle(drawn, n);
    AllPermuteSplit(drawn[..n], Cycles(drawn[n..], n), combos);
  }

  lemma MemberOfPermutation<T>(a: seq<T>, b: seq<T>, x: T)
    requires Permutes(a, b) && x in b
    ensures x in a
  {
    assert x in multiset(b);
  }

  lemma SubWindow<T>(drawn: seq<T>, from: nat, to: nat, k: nat, n: nat, x: T)
    requires from <= k && k + n <= to <= |drawn| && x in drawn[k..k + n]
    ensures x in drawn[from..to]
  {
    var i :| 0 <= i < n && drawn[k..k + n][i] == x;
    assert drawn[from..to][k + i - from] == x;
  }

  lemma {:induction false} WindowOfCycles<T>(combos: seq<T>, drawn: seq<T>, from: nat, x: T)
    requires combos != [] && x in combos
    requires AllPermute(Cycles(drawn, |combos|), combos)
    requires from + 2 * |combos| - 1 <= |drawn|
    ensures x in drawn[from..from + 2 * |combos| - 1]
    decreases |drawn|
  {
    var n := |combos|;
    var rest := drawn[n..];
    PeelCycle(drawn, n, combos);
    if from >= n {
      WindowOfCycles(combos, rest, from - n, x);
      assert rest[from - n..from - n + 2 * n - 1] == drawn[from..from + 2 * n - 1];
    } else if from == 0 {
      MemberOfPermutation(drawn[..n], combos, x);
      SubWindow(drawn, from, from + 2 * n - 1, 0, n, x);
    } else {
      PeelCycle(rest, n, combos);
      MemberOfPermutation(rest[..n], combos, x);
      assert rest[..n] == drawn[n..n + n];
      SubWindow(drawn, from, from + 2 * n - 1, n, n, x);
    }
  }

  /** Both guarantees together, for a table of n combos. */
  lemma DrawsOf<T>(combos: seq<T>, n: nat, shuffles: seq<seq<T>>, from: nat)
    requires |combos| == n >= 2 && Distinct(combos) && ValidShuffles(combos, shuffles)
    ensures NoRepeat(After(shuffles).drawn)
    ensures |After(shuffles).drawn| == |shuffles|
    ensures from + 2 * n - 1 <= |shuffles| ==>
              forall x :: x in combos ==> x in After(shuffles).drawn[from..from + 2 * n - 1]
  {
    ConsecutiveDrawsDiffer(combos, shuffles);
    InvariantHolds(combos, shuffles);
    if from + 2 * n - 1 <= |shuffles| {
      forall x | x in combos
        ensures x in After(shuffles).drawn[from..from + 2 * n - 1]
      {
        WindowHoldsEveryCombo(combos, shuffles, from, x);
      }
    }
  }
}
