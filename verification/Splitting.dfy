/**
 * Splitting a sequence wherever a relation between neighbours breaks: how a text row falls into
 * segments and a sorted list of column starts into clusters.
 */
module Splitting {
  import opened Sequences

  function SplitWhen<T>(breaks: (T, T) -> bool, s: seq<T>): (parts: seq<seq<T>>)
    ensures s != [] ==> parts != []
    decreases |s|
  {
    if s == [] then []
    else
      var n := |s| - 1;
      var parts := SplitWhen(breaks, s[..n]);
      if n == 0 || breaks(s[n - 1], s[n]) then parts + [[s[n]]]
      else parts[..|parts| - 1] + [parts[|parts| - 1] + [s[n]]]
  }

  lemma SplitSnoc<T>(breaks: (T, T) -> bool, s: seq<T>, x: T)
    ensures var parts := SplitWhen(breaks, s);
            SplitWhen(breaks, s + [x]) ==
              (if s == [] || breaks(s[|s| - 1], x) then parts + [[x]]
               else parts[..|parts| - 1] + [parts[|parts| - 1] + [x]])
  {
    var t := s + [x];
    assert t[..|t| - 1] == s && t[|t| - 1] == x;
    if s != [] { assert t[|t| - 2] == s[|s| - 1]; }
  }

  /** The parts, in order and non-empty, make up `s`, and break exactly between neighbours that break. */
  ghost predicate IsSplit<T>(breaks: (T, T) -> bool, s: seq<T>, parts: seq<seq<T>>) {
    && Flatten(parts) == s
    && (forall k :: 0 <= k < |parts| ==> parts[k] != [])
    && (forall k, i :: 0 <= k < |parts| && 0 <= i < |parts[k]| - 1 ==> !breaks(parts[k][i], parts[k][i + 1]))
    && (forall k :: 0 <= k < |parts| - 1 ==> breaks(parts[k][|parts[k]| - 1], parts[k + 1][0]))
  }

  /** A non-empty split ends where the sequence ends. */
  lemma SplitEnds<T>(breaks: (T, T) -> bool, s: seq<T>, parts: seq<seq<T>>)
    requires IsSplit(breaks, s, parts) && s != []
    ensures parts != [] && parts[|parts| - 1] != []
    ensures parts[|parts| - 1][|parts[|parts| - 1]| - 1] == s[|s| - 1]
    ensures s == Flatten(parts[..|parts| - 1]) + parts[|parts| - 1]
  {
    var n := |parts| - 1;
    assert parts == parts[..n] + [parts[n]];
    FlattenSnoc(parts[..n], parts[n]);
  }

  lemma SplitNewPart<T>(breaks: (T, T) -> bool, s: seq<T>, parts: seq<seq<T>>, x: T)
    requires IsSplit(breaks, s, parts)
    requires if s == [] then parts == [] else breaks(s[|s| - 1], x)
    ensures IsSplit(breaks, s + [x], parts + [[x]])
  {
    var parts' := parts + [[x]];
    FlattenSnoc(parts, [x]);
    if s != [] { SplitEnds(breaks, s, parts); }
    forall k | 0 <= k < |parts'| - 1
      ensures breaks(parts'[k][|parts'[k]| - 1], parts'[k + 1][0])
    {
      assert parts'[k] == parts[k];
      if k + 1 < |parts| { assert parts'[k + 1] == parts[k + 1]; }
    }
  }

  lemma SplitExtendPart<T>(breaks: (T, T) -> bool, s: seq<T>, parts: seq<seq<T>>, x: T)
    requires IsSplit(breaks, s, parts)
    requires s != [] && parts != [] && !breaks(s[|s| - 1], x)
    ensures IsSplit(breaks, s + [x], parts[..|parts| - 1] + [parts[|parts| - 1] + [x]])
  {
    var n := |parts| - 1;
    var front, last := parts[..n], parts[n];
    var parts' := front + [last + [x]];
    SplitEnds(breaks, s, parts);
    FlattenSnoc(front, last + [x]);
    assert Flatten(parts') == s + [x] by {
      assert Flatten(front) + (last + [x]) == (Flatten(front) + last) + [x];
    }
    assert forall k :: 0 <= k < n ==> parts'[k] == parts[k];
    forall k, i | 0 <= k < |parts'| && 0 <= i < |parts'[k]| - 1
      ensures !breaks(parts'[k][i], parts'[k][i + 1])
    {
      if k < n { assert !breaks(parts[k][i], parts[k][i + 1]); }
      else if i < |last| - 1 { assert !breaks(last[i], last[i + 1]); }
    }
    forall k | 0 <= k < |parts'| - 1
      ensures breaks(parts'[k][|parts'[k]| - 1], parts'[k + 1][0])
    {
      assert breaks(parts[k][|parts[k]| - 1], parts[k + 1][0]);
    }
  }

  lemma {:induction false} SplitWhenIsSplit<T>(breaks: (T, T) -> bool, s: seq<T>)
    ensures IsSplit(breaks, s, SplitWhen(breaks, s))
    decreases |s|
  {
    if s != [] {
      var n := |s| - 1;
      var parts := SplitWhen(breaks, s[..n]);
      SplitWhenIsSplit(breaks, s[..n]);
      assert s == s[..n] + [s[n]];
      if n == 0 || breaks(s[n - 1], s[n]) {
        SplitNewPart(breaks, s[..n], parts, s[n]);
      } else {
        SplitExtendPart(breaks, s[..n], parts, s[n]);
      }
    }
  }

  /** The part that holds the i-th element. */
  function PartIndex<T>(parts: seq<seq<T>>, i: nat): nat
    decreases |parts|
  {
    if parts == [] || i < |parts[0]| then 0 else 1 + PartIndex(parts[1..], i - |parts[0]|)
  }

  /** Whether two elements share a part: no break lies between them. */
  ghost predicate Unbroken<T>(breaks: (T, T) -> bool, s: seq<T>, i: nat, j: nat)
    requires i <= j < |s|
  {
    forall k :: i <= k < j ==> !breaks(s[k], s[k + 1])
  }

  lemma UnbrokenShift<T>(breaks: (T, T) -> bool, front: seq<T>, rest: seq<T>, i: nat, j: nat)
    requires i <= j < |rest|
    ensures Unbroken(breaks, rest, i, j) <==> Unbroken(breaks, front + rest, |front| + i, |front| + j)
  {
    var s, n := front + rest, |front|;
    assert forall k :: 0 <= k < |rest| ==> s[n + k] == rest[k];
    if Unbroken(breaks, rest, i, j) {
      forall k | n + i <= k < n + j
        ensures !breaks(s[k], s[k + 1])
      {
        assert !breaks(rest[k - n], rest[k - n + 1]);
        assert s[n + (k - n)] == rest[k - n] && s[n + (k - n + 1)] == rest[k - n + 1];
      }
    }
    if Unbroken(breaks, s, n + i, n + j) {
      forall k | i <= k < j
        ensures !breaks(rest[k], rest[k + 1])
      {
        assert !breaks(s[n + k], s[n + k + 1]);
        assert s[n + (k + 1)] == rest[k + 1];
      }
    }
  }

  /** Nothing breaks inside the first part, and it ends in a break. */
  lemma FirstPart<T>(breaks: (T, T) -> bool, s: seq<T>, parts: seq<seq<T>>, i: nat, j: nat)
    requires IsSplit(breaks, s, parts) && parts != [] && i <= j < |s| && i < |parts[0]|
    ensures Unbroken(breaks, s, i, j) <==> j < |parts[0]|
  {
    var n := |parts[0]|;
    assert s == parts[0] + Flatten(parts[1..]);
    assert forall k :: 0 <= k < n ==> s[k] == parts[0][k];
    if j < n {
      forall k | i <= k < j
        ensures !breaks(s[k], s[k + 1])
      {
        assert !breaks(parts[0][k], parts[0][k + 1]);
      }
    } else {
      var later := parts[1..];
      assert later != [] && Flatten(later) == later[0] + Flatten(later[1..]);
      assert s[n] == later[0][0] == parts[1][0];
      assert breaks(parts[0][n - 1], parts[0 + 1][0]);
      assert breaks(s[n - 1], s[n - 1 + 1]);
    }
  }

  lemma SplitTail<T>(breaks: (T, T) -> bool, s: seq<T>, parts: seq<seq<T>>)
    requires IsSplit(breaks, s, parts) && parts != []
    ensures IsSplit(breaks, Flatten(parts[1..]), parts[1..])
  {
    var later := parts[1..];
    forall k | 0 <= k < |later| - 1
      ensures breaks(later[k][|later[k]| - 1], later[k + 1][0])
    {
      assert breaks(parts[k + 1][|parts[k + 1]| - 1], parts[k + 1 + 1][0]);
    }
    forall k, i | 0 <= k < |later| && 0 <= i < |later[k]| - 1
      ensures !breaks(later[k][i], later[k][i + 1])
    {
      assert !breaks(parts[k + 1][i], parts[k + 1][i + 1]);
    }
  }

  /** Two elements share a part exactly when no break lies between them. */
  lemma {:induction false} SharedPartIffUnbroken<T>(breaks: (T, T) -> bool, s: seq<T>, parts: seq<seq<T>>, i: nat, j: nat)
    requires IsSplit(breaks, s, parts) && i <= j < |s|
    ensures PartIndex(parts, i) == PartIndex(parts, j) <==> Unbroken(breaks, s, i, j)
    decreases |parts|
  {
    if parts != [] {
      var n := |parts[0]|;
      if i < n {
        FirstPart(breaks, s, parts, i, j);
      } else {
        var rest := Flatten(parts[1..]);
        SplitTail(breaks, s, parts);
        SharedPartIffUnbroken(breaks, rest, parts[1..], i - n, j - n);
        UnbrokenShift(breaks, parts[0], rest, i - n, j - n);
      }
    }
  }
}
