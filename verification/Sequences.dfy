/** Sequence facts shared by the other modules. */
module Sequences {

  ghost predicate Distinct<T>(s: seq<T>) {
    forall i, j :: 0 <= i < j < |s| ==> s[i] != s[j]
  }

  lemma DistinctCons<T>(x: T, s: seq<T>)
    requires Distinct(s) && x !in s
    ensures Distinct([x] + s)
  {
  }

  function Flatten<T>(ss: seq<seq<T>>): seq<T> {
    if ss == [] then [] else ss[0] + Flatten(ss[1..])
  }

  lemma {:induction false} FlattenAppend<T>(a: seq<seq<T>>, b: seq<seq<T>>)
    ensures Flatten(a + b) == Flatten(a) + Flatten(b)
  {
    if a == [] {
      assert a + b == b;
    } else {
      assert (a + b)[1..] == a[1..] + b;
      FlattenAppend(a[1..], b);
    }
  }

  lemma FlattenSnoc<T>(a: seq<seq<T>>, x: seq<T>)
    ensures Flatten(a + [x]) == Flatten(a) + x
  {
    FlattenAppend(a, [x]);
    assert [x][1..] == [];
    assert Flatten([x]) == x + Flatten<T>([]);
  }

  /** A comprehension's inner loop run for each element of its outer one. */
  function FlatMap<A, B>(f: A -> seq<B>, xs: seq<A>): seq<B> {
    if xs == [] then [] else f(xs[0]) + FlatMap(f, xs[1..])
  }

  lemma {:induction false} FlatMapAppend<A, B>(f: A -> seq<B>, a: seq<A>, b: seq<A>)
    ensures FlatMap(f, a + b) == FlatMap(f, a) + FlatMap(f, b)
  {
    if a == [] {
      assert a + b == b;
    } else {
      assert (a + b)[1..] == a[1..] + b;
      FlatMapAppend(f, a[1..], b);
    }
  }

  function Filter<T>(keep: T -> bool, s: seq<T>): seq<T> {
    if s == [] then []
    else if keep(s[0]) then [s[0]] + Filter(keep, s[1..])
    else Filter(keep, s[1..])
  }

  lemma FilterCons<T>(keep: T -> bool, x: T, s: seq<T>)
    ensures Filter(keep, [x] + s) == (if keep(x) then [x] + Filter(keep, s) else Filter(keep, s))
  {
    assert ([x] + s)[1..] == s;
  }

  lemma {:induction false} FilterAppend<T>(keep: T -> bool, a: seq<T>, b: seq<T>)
    ensures Filter(keep, a + b) == Filter(keep, a) + Filter(keep, b)
  {
    if a == [] {
      assert a + b == b;
    } else {
      FilterAppend(keep, a[1..], b);
      assert a + b == [a[0]] + (a[1..] + b);
      FilterCons(keep, a[0], a[1..] + b);
    }
  }

  lemma FilterSnoc<T>(keep: T -> bool, a: seq<T>, x: T)
    ensures Filter(keep, a + [x]) == Filter(keep, a) + (if keep(x) then [x] else [])
  {
    FilterAppend(keep, a, [x]);
    assert [x][1..] == [];
    assert Filter(keep, [x][1..]) == [];
  }

  lemma {:induction false} FilterMembers<T>(keep: T -> bool, s: seq<T>)
    ensures forall x :: x in Filter(keep, s) <==> x in s && keep(x)
    ensures |Filter(keep, s)| <= |s|
  {
    if s != [] {
      FilterMembers(keep, s[1..]);
      assert s == [s[0]] + s[1..];
    }
  }

  lemma {:induction false} FilterDistinct<T>(keep: T -> bool, s: seq<T>)
    requires Distinct(s)
    ensures Distinct(Filter(keep, s))
  {
    if s != [] {
      FilterDistinct(keep, s[1..]);
      FilterMembers(keep, s[1..]);
    }
  }

  lemma {:induction false} PigeonHole(s: seq<int>, n: nat)
    requires Distinct(s)
    requires forall i :: 0 <= i < |s| ==> 0 <= s[i] < n
    ensures |s| <= n
  {
    if s == [] { return; }
    assert 0 <= s[0] < n;
    if exists i :: 0 <= i < |s| && s[i] == n - 1 {
      var i :| 0 <= i < |s| && s[i] == n - 1;
      PigeonHole(s[..i] + s[i + 1..], n - 1);
    } else {
      PigeonHole(s, n - 1);
    }
  }

  lemma DistinctOfPermutation<T>(a: seq<T>, b: seq<T>)
    requires multiset(a) == multiset(b) && Distinct(b)
    ensures Distinct(a) && |a| == |b|
  {
    assert |multiset(a)| == |a| && |multiset(b)| == |b|;
    CountsOfDistinct(b);
    forall i, j | 0 <= i < j < |a|
      ensures a[i] != a[j]
    {
      CountTwice(a, i, j);
    }
  }

  lemma {:induction false} CountsOfDistinct<T>(s: seq<T>)
    requires Distinct(s)
    ensures forall x :: multiset(s)[x] <= 1
  {
    if s != [] {
      assert s == [s[0]] + s[1..];
      CountsOfDistinct(s[1..]);
      assert s[0] !in s[1..];
    }
  }

  lemma CountTwice<T>(s: seq<T>, i: nat, j: nat)
    requires i < j < |s|
    ensures s[i] == s[j] ==> multiset(s)[s[i]] >= 2
  {
    assert s == s[..i] + [s[i]] + s[i + 1..j] + [s[j]] + s[j + 1..];
  }

  /** Number of steps of size `p` needed to cover a distance `d`. */
  function Steps(d: nat, p: nat): (k: nat)
    requires p >= 1
  {
    if d == 0 then 0 else if d <= p then 1 else 1 + Steps(d - p, p)
  }

  /** `Steps` is division rounded up: the least k with k * p >= d. */
  lemma {:induction false} StepsIsCeiling(d: nat, p: nat)
    requires p >= 1
    ensures Steps(d, p) * p >= d
    ensures d > 0 ==> (Steps(d, p) - 1) * p < d
  {
    if d > p {
      StepsIsCeiling(d - p, p);
      var k := Steps(d - p, p);
      assert (1 + k) * p == p + k * p;
      assert (1 + k - 1) * p == p + (k - 1) * p;
    }
  }

  lemma {:induction false} StepsMonotone(d: nat, e: nat, p: nat)
    requires p >= 1 && d <= e
    ensures Steps(d, p) <= Steps(e, p)
  {
    if d > p { StepsMonotone(d - p, e - p, p); }
  }

  /** One step of size `p` saves one step, as long as anything is left. */
  lemma StepsAfterOne(d: nat, p: nat)
    requires p >= 1
    ensures Steps(d - (if p < d then p else d), p) == (if d == 0 then 0 else Steps(d, p) - 1)
  {
  }
}
