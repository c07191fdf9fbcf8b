/** Python's `sorted` with a real-valued key: the stable sort. */
module StableSort {
  import opened Sequences

  function Insert<T>(key: T -> real, x: T, s: seq<T>): seq<T> {
    if s == [] || key(x) <= key(s[0]) then [x] + s else [s[0]] + Insert(key, x, s[1..])
  }

  function SortBy<T>(key: T -> real, s: seq<T>): seq<T> {
    if s == [] then [] else Insert(key, s[0], SortBy(key, s[1..]))
  }

  ghost predicate Ascending<T>(key: T -> real, s: seq<T>) {
    forall i, j :: 0 <= i < j < |s| ==> key(s[i]) <= key(s[j])
  }

  lemma {:induction false} InsertMultiset<T>(key: T -> real, x: T, s: seq<T>)
    ensures multiset(Insert(key, x, s)) == multiset(s) + multiset{x}
    ensures forall y :: y in Insert(key, x, s) ==> y == x || y in s
  {
    if s != [] && key(x) > key(s[0]) {
      InsertMultiset(key, x, s[1..]);
      assert s == [s[0]] + s[1..];
    }
  }

  lemma AscendingCons<T>(key: T -> real, x: T, s: seq<T>)
    requires Ascending(key, s) && forall y :: y in s ==> key(x) <= key(y)
    ensures Ascending(key, [x] + s)
  {
  }

  lemma {:induction false} InsertAscending<T>(key: T -> real, x: T, s: seq<T>)
    requires Ascending(key, s)
    ensures Ascending(key, Insert(key, x, s))
  {
    if s != [] {
      forall y | y in s
        ensures key(s[0]) <= key(y)
      {
        var k :| 0 <= k < |s| && s[k] == y;
      }
      if key(x) > key(s[0]) {
        InsertAscending(key, x, s[1..]);
        InsertMultiset(key, x, s[1..]);
        assert forall y :: y in s[1..] ==> y in s;
        AscendingCons(key, s[0], Insert(key, x, s[1..]));
      } else {
        AscendingCons(key, x, s);
      }
    }
  }

  /** The result is ordered and rearranges the input. */
  lemma {:induction false} SortByAscending<T>(key: T -> real, s: seq<T>)
    ensures Ascending(key, SortBy(key, s))
    ensures multiset(SortBy(key, s)) == multiset(s)
    ensures |SortBy(key, s)| == |s|
  {
    if s != [] {
      SortByAscending(key, s[1..]);
      InsertAscending(key, s[0], SortBy(key, s[1..]));
      InsertMultiset(key, s[0], SortBy(key, s[1..]));
      assert s == [s[0]] + s[1..];
      assert |multiset(SortBy(key, s))| == |multiset(s)|;
    }
  }

  lemma {:induction false} InsertStable<T>(key: T -> real, x: T, s: seq<T>, k: real)
    requires Ascending(key, s)
    ensures Filter((y: T) => key(y) == k, Insert(key, x, s)) == (if key(x) == k then [x] else []) + Filter((y: T) => key(y) == k, s)
  {
    var keep := (y: T) => key(y) == k;
    FilterCons(keep, x, s);
    if s != [] && key(x) > key(s[0]) {
      InsertStable(key, x, s[1..], k);
      FilterCons(keep, s[0], Insert(key, x, s[1..]));
    }
  }

  /** Elements with equal keys keep their order. */
  lemma {:induction false} SortByStable<T>(key: T -> real, s: seq<T>, k: real)
    ensures Filter((y: T) => key(y) == k, SortBy(key, s)) == Filter((y: T) => key(y) == k, s)
  {
    if s != [] {
      SortByAscending(key, s[1..]);
      SortByStable(key, s[1..], k);
      InsertStable(key, s[0], SortBy(key, s[1..]), k);
    }
  }

  /** Sorting an ordered sequence changes nothing. */
  lemma {:induction false} SortByIdentity<T>(key: T -> real, s: seq<T>)
    requires Ascending(key, s)
    ensures SortBy(key, s) == s
  {
    if s != [] {
      SortByIdentity(key, s[1..]);
    }
  }

  lemma SortByMembers<T>(key: T -> real, s: seq<T>)
    ensures forall x :: x in SortBy(key, s) <==> x in s
  {
    SortByAscending(key, s);
    forall x
      ensures x in SortBy(key, s) <==> x in s
    {
      assert x in SortBy(key, s) <==> x in multiset(SortBy(key, s));
      assert x in s <==> x in multiset(s);
    }
  }
}
