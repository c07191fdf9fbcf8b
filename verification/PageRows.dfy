/**
 * Rows of a CV page (app/cv/text_extraction.py `_group_into_rows`): greedy grouping of words
 * by vertical position, and why no grouping needs fewer rows.
 */
module PageRows {
  import opened Options
  import opened Sequences
  import opened StableSort

  datatype Word = Word(text: string, x0: real, x1: real, top: real)

  const ROW_TOP_TOLERANCE := 3.0

  function Top(w: Word): real { w.top }
  function Left(w: Word): real { w.x0 }

  function Abs(x: real): real { if x < 0.0 then -x else x }

  predicate Near(a: Word, b: Word) {
    Abs(a.top - b.top) <= ROW_TOP_TOLERANCE
  }

  /** How many leading words are within tolerance of the anchor. */
  function LeadingNear(anchor: Word, ws: seq<Word>): (n: nat)
    ensures n <= |ws|
    ensures forall i :: 0 <= i < n ==> Near(ws[i], anchor)
    ensures n < |ws| ==> !Near(ws[n], anchor)
  {
    if ws == [] || !Near(ws[0], anchor) then 0 else 1 + LeadingNear(anchor, ws[1..])
  }

  /** Greedy groups of a list of words: each takes all it can from its first word on. */
  function Groups(ws: seq<Word>): seq<seq<Word>>
    decreases |ws|
  {
    if ws == [] then []
    else
      var n := 1 + LeadingNear(ws[0], ws[1..]);
      [ws[..n]] + Groups(ws[n..])
  }

  /** Each group read left to right. */
  function LeftToRight(groups: seq<seq<Word>>): (rows: seq<seq<Word>>)
    ensures |rows| == |groups|
    ensures forall i :: 0 <= i < |rows| ==> rows[i] == SortBy(Left, groups[i])
  {
    seq(|groups|, i requires 0 <= i < |groups| => SortBy(Left, groups[i]))
  }

  function Rows(words: seq<Word>): seq<seq<Word>> {
    LeftToRight(Groups(SortBy(Top, words)))
  }

  lemma {:induction false} LeadingNearAll(anchor: Word, a: seq<Word>, rest: seq<Word>)
    requires forall w :: w in a ==> Near(w, anchor)
    ensures LeadingNear(anchor, a + rest) == |a| + LeadingNear(anchor, rest)
  {
    if a == [] {
      assert a + rest == rest;
    } else {
      assert Near(a[0], anchor);
      assert (a + rest)[1..] == a[1..] + rest;
      LeadingNearAll(anchor, a[1..], rest);
    }
  }

  /** A finished group stands alone: the next word opens a new one. */
  lemma GroupCloses(current: seq<Word>, rest: seq<Word>)
    requires current != [] && forall w :: w in current ==> Near(w, current[0])
    requires rest == [] || !Near(rest[0], current[0])
    ensures Groups(current + rest) == [current] + Groups(rest)
  {
    var ws := current + rest;
    assert ws[1..] == current[1..] + rest;
    LeadingNearAll(current[0], current[1..], rest);
    assert ws[..|current|] == current && ws[|current|..] == rest;
  }

  lemma LeftToRightSnoc(groups: seq<seq<Word>>, g: seq<Word>)
    ensures LeftToRight(groups + [g]) == LeftToRight(groups) + [SortBy(Left, g)]
  {
  }

  /** The groups still to be closed, with `current` under way. */
  function GroupsFrom(current: seq<Word>, rest: seq<Word>): seq<seq<Word>>
    decreases |rest|
  {
    if rest == [] then (if current == [] then [] else [current])
    else if current == [] || Near(rest[0], current[0]) then GroupsFrom(current + [rest[0]], rest[1..])
    else [current] + GroupsFrom([rest[0]], rest[1..])
  }

  /** Word-at-a-time grouping is greedy grouping. */
  lemma {:induction false} GroupsFromIsGreedy(current: seq<Word>, rest: seq<Word>)
    requires forall w :: w in current ==> Near(w, current[0])
    ensures GroupsFrom(current, rest) == Groups(current + rest)
    decreases |rest|
  {
    if rest == [] {
      if current != [] { GroupCloses(current, []); }
      assert current + rest == current + [];
    } else if current == [] || Near(rest[0], current[0]) {
      assert (current + [rest[0]]) + rest[1..] == current + rest;
      GroupsFromIsGreedy(current + [rest[0]], rest[1..]);
    } else {
      assert [rest[0]] + rest[1..] == rest;
      GroupCloses(current, rest);
      GroupsFromIsGreedy([rest[0]], rest[1..]);
    }
  }

  /** The word belongs to the row under way. */
  predicate Joins(current: seq<Word>, word: Word) {
    current == [] || Near(word, current[0])
  }

  lemma GroupsFromStep(done: seq<seq<Word>>, current: seq<Word>, ws: seq<Word>, i: nat)
    requires i < |ws|
    ensures done + GroupsFrom(current, ws[i..]) ==
              (if Joins(current, ws[i]) then done + GroupsFrom(current + [ws[i]], ws[i + 1..])
               else (done + [current]) + GroupsFrom([ws[i]], ws[i + 1..]))
  {
    assert ws[i..][1..] == ws[i + 1..];
    if !Joins(current, ws[i]) {
      assert done + ([current] + GroupsFrom([ws[i]], ws[i + 1..])) == (done + [current]) + GroupsFrom([ws[i]], ws[i + 1..]);
    }
  }

  lemma GroupsFromEnd(done: seq<seq<Word>>, current: seq<Word>, ws: seq<Word>)
    ensures done + GroupsFrom(current, ws[|ws|..]) == if current == [] then done else done + [current]
  {
  }

  /** A finished row is emitted left to right. */
  method CloseRow(rows: seq<seq<Word>>, current: seq<Word>, ghost done: seq<seq<Word>>) returns (closed: seq<seq<Word>>)
    requires rows == LeftToRight(done)
    ensures closed == LeftToRight(done + [current])
  {
    LeftToRightSnoc(done, current);
    closed := rows + [SortBy(Left, current)];
  }

  /** The pass over the words ordered by top. */
  method GroupOrdered(ordered: seq<Word>) returns (rows: seq<seq<Word>>)
    ensures rows == LeftToRight(Groups(ordered))
  {
    rows := [];
    ghost var done: seq<seq<Word>> := [];
    var current: seq<Word> := [];
    var currentTop: Option<real> := None;
    var i := 0;
    while i < |ordered|
      invariant 0 <= i <= |ordered|
      invariant rows == LeftToRight(done)
      invariant done + GroupsFrom(current, ordered[i..]) == GroupsFrom([], ordered)
      invariant if current == [] then currentTop.None? else currentTop == Some(current[0].top)
    {
      var word := ordered[i];
      GroupsFromStep(done, current, ordered, i);
      if currentTop.None? || Abs(word.top - currentTop.value) <= ROW_TOP_TOLERANCE {
        current := current + [word];
        currentTop := if currentTop.None? then Some(word.top) else currentTop;
      } else {
        rows := CloseRow(rows, current, done);
        done := done + [current];
        current := [word];
        currentTop := Some(word.top);
      }
      i := i + 1;
    }
    GroupsFromEnd(done, current, ordered);
    if |current| > 0 { rows := CloseRow(rows, current, done); }
    GroupsFromIsGreedy([], ordered);
    assert [] + ordered == ordered;
  }

  /** `_group_into_rows`. */
  method GroupIntoRows(words: seq<Word>) returns (rows: seq<seq<Word>>)
    ensures rows == Rows(words)
  {
    rows := GroupOrdered(SortBy(Top, words));
  }

  // ---------------------------------------------------------------- what a row is

  ghost predicate Within(group: seq<Word>) {
    forall a, b :: a in group && b in group ==> Near(a, b)
  }

  /** The first greedy group of ordered words starts at the topmost and ends before the first far one. */
  lemma FirstGroupExtent(ws: seq<Word>)
    requires ws != [] && Ascending(Top, ws)
    ensures var n := 1 + LeadingNear(ws[0], ws[1..]);
            && (forall k :: 0 <= k < n ==> 0.0 <= ws[k].top - ws[0].top <= ROW_TOP_TOLERANCE)
            && (n < |ws| ==> ws[n].top - ws[0].top > ROW_TOP_TOLERANCE)
  {
    var n := 1 + LeadingNear(ws[0], ws[1..]);
    assert forall k :: 0 <= k < |ws| ==> Top(ws[0]) <= Top(ws[k]);
    forall k | 0 <= k < n
      ensures 0.0 <= ws[k].top - ws[0].top <= ROW_TOP_TOLERANCE
    {
      if k > 0 { assert Near(ws[1..][k - 1], ws[0]); }
    }
    if n < |ws| { assert !Near(ws[1..][n - 1], ws[0]); }
  }

  /** It is within tolerance; everything after it is farther. */
  lemma FirstGroup(ws: seq<Word>)
    requires ws != [] && Ascending(Top, ws)
    ensures var n := 1 + LeadingNear(ws[0], ws[1..]);
            && Within(ws[..n])
            && forall k :: n <= k < |ws| ==> ws[k].top - ws[0].top > ROW_TOP_TOLERANCE
  {
    var n := 1 + LeadingNear(ws[0], ws[1..]);
    FirstGroupExtent(ws);
    if n < |ws| { assert forall k :: n <= k < |ws| ==> Top(ws[n]) <= Top(ws[k]); }
  }

  lemma GroupsFirst(ws: seq<Word>)
    requires ws != []
    ensures var n := 1 + LeadingNear(ws[0], ws[1..]);
            Groups(ws) == [ws[..n]] + Groups(ws[n..])
  {
  }

  lemma TakeDrop<T>(s: seq<T>, n: nat)
    requires n <= |s|
    ensures s == s[..n] + s[n..]
  {
  }

  /** The groups make up the words, are non-empty, span at most the tolerance, and each starts more
      than the tolerance below the first word of any before it. */
  ghost predicate Shape(ws: seq<Word>, gs: seq<seq<Word>>) {
    && Flatten(gs) == ws
    && (forall i :: 0 <= i < |gs| ==> gs[i] != [] && Within(gs[i]) && gs[i][0] in ws)
    && (forall i, j :: 0 <= i < j < |gs| ==> gs[j][0].top - gs[i][0].top > ROW_TOP_TOLERANCE)
  }

  lemma ShapeCons(g: seq<Word>, ws: seq<Word>, gs: seq<seq<Word>>)
    requires Shape(ws, gs) && g != [] && Within(g)
    requires forall w :: w in ws ==> w.top - g[0].top > ROW_TOP_TOLERANCE
    ensures Shape(g + ws, [g] + gs)
  {
    var all := [g] + gs;
    assert all[1..] == gs;
    assert forall i :: 0 < i < |all| ==> all[i] == gs[i - 1];
  }

  /** What is left of ordered words is ordered. */
  lemma AscendingDrop(ws: seq<Word>, n: nat)
    requires n <= |ws| && Ascending(Top, ws)
    ensures Ascending(Top, ws[n..])
  {
    var rest := ws[n..];
    forall i, j | 0 <= i < j < |rest|
      ensures Top(rest[i]) <= Top(rest[j])
    {
      assert rest[i] == ws[n + i] && rest[j] == ws[n + j];
    }
  }

  /** Whatever holds of every word from position n on holds of every member of the rest. */
  lemma RestIsFarther(ws: seq<Word>, n: nat, top: real)
    requires n <= |ws|
    requires forall k :: n <= k < |ws| ==> ws[k].top - top > ROW_TOP_TOLERANCE
    ensures forall w :: w in ws[n..] ==> w.top - top > ROW_TOP_TOLERANCE
  {
    forall w | w in ws[n..]
      ensures w.top - top > ROW_TOP_TOLERANCE
    {
      var k :| 0 <= k < |ws[n..]| && ws[n..][k] == w;
      assert ws[n + k] == w;
    }
  }

  /** Ordered words fall into their first greedy group and the rest, which is farther down. */
  lemma FirstAndRest(ws: seq<Word>) returns (g: seq<Word>, rest: seq<Word>)
    requires ws != [] && Ascending(Top, ws)
    ensures g != [] && Within(g) && Ascending(Top, rest)
    ensures ws == g + rest && Groups(ws) == [g] + Groups(rest)
    ensures forall w :: w in rest ==> w.top - g[0].top > ROW_TOP_TOLERANCE
  {
    var n := 1 + LeadingNear(ws[0], ws[1..]);
    g, rest := ws[..n], ws[n..];
    GroupsFirst(ws);
    TakeDrop(ws, n);
    FirstGroup(ws);
    AscendingDrop(ws, n);
    RestIsFarther(ws, n, ws[0].top);
  }

  lemma {:induction false} GroupsShape(ws: seq<Word>)
    requires Ascending(Top, ws)
    ensures Shape(ws, Groups(ws))
    decreases |ws|
  {
    if ws != [] {
      var g, rest := FirstAndRest(ws);
      GroupsShape(rest);
      ShapeCons(g, rest, Groups(rest));
    }
  }

  /** Members of the parts of an ordered list, taken from left to right, ascend. */
  lemma {:induction false} PartsAscend(parts: seq<seq<Word>>, i: nat, j: nat, a: Word, b: Word)
    requires Ascending(Top, Flatten(parts)) && i < j < |parts| && a in parts[i] && b in parts[j]
    ensures a.top <= b.top
  {
    var rest := Flatten(parts[1..]);
    if i == 0 {
      FlattenMemberOf(parts[1..], j - 1, b);
      var k :| 0 <= k < |parts[0]| && parts[0][k] == a;
      var m :| 0 <= m < |rest| && rest[m] == b;
      assert (parts[0] + rest)[k] == a && (parts[0] + rest)[|parts[0]| + m] == b;
      assert Top(a) <= Top(b);
    } else {
      assert rest == (parts[0] + rest)[|parts[0]|..];
      AscendingDrop(parts[0] + rest, |parts[0]|);
      PartsAscend(parts[1..], i - 1, j - 1, a, b);
    }
  }

  lemma {:induction false} FlattenMemberOf<T>(ss: seq<seq<T>>, i: nat, x: T)
    requires i < |ss| && x in ss[i]
    ensures x in Flatten(ss)
  {
    if i > 0 { FlattenMemberOf(ss[1..], i - 1, x); }
  }

  /** Rows come top to bottom: no word of a row lies below one of a later row. */
  lemma RowsDescendThePage(words: seq<Word>, i: nat, j: nat, a: Word, b: Word)
    requires i < j < |Rows(words)| && a in Rows(words)[i] && b in Rows(words)[j]
    ensures a.top <= b.top
  {
    var groups := Groups(SortBy(Top, words));
    SortByAscending(Top, words);
    GroupsShape(SortBy(Top, words));
    SortByMembers(Left, groups[i]);
    SortByMembers(Left, groups[j]);
    PartsAscend(groups, i, j, a, b);
  }

  /** Rows lose and invent no word, are never empty, span at most the tolerance, and read left to right. */
  lemma RowsShape(words: seq<Word>)
    ensures var rows := Rows(words);
            && multiset(Flatten(rows)) == multiset(words)
            && forall i :: 0 <= i < |rows| ==> rows[i] != [] && Within(rows[i]) && Ascending(Left, rows[i])
  {
    var ordered := SortBy(Top, words);
    SortByAscending(Top, words);
    GroupsShape(ordered);
    FlattenLeftToRight(Groups(ordered));
    var rows := Rows(words);
    forall i | 0 <= i < |rows|
      ensures rows[i] != [] && Within(rows[i]) && Ascending(Left, rows[i])
    {
      SortByAscending(Left, Groups(ordered)[i]);
      SortByMembers(Left, Groups(ordered)[i]);
    }
  }

  lemma {:induction false} FlattenLeftToRight(groups: seq<seq<Word>>)
    ensures multiset(Flatten(LeftToRight(groups))) == multiset(Flatten(groups))
  {
    if groups != [] {
      var rows := LeftToRight(groups);
      assert rows[1..] == LeftToRight(groups[1..]);
      FlattenLeftToRight(groups[1..]);
      SortByAscending(Left, groups[0]);
    }
  }

  /** A family of groups of admissible extent that together hold every word. */
  ghost predicate Covers(groups: seq<seq<Word>>, words: seq<Word>) {
    && (forall g :: 0 <= g < |groups| ==> Within(groups[g]))
    && (forall w :: w in words ==> exists g :: 0 <= g < |groups| && w in groups[g])
  }

  lemma {:induction false} HomesOf(groups: seq<seq<Word>>, anchors: seq<Word>) returns (homes: seq<int>)
    requires Covers(groups, anchors)
    ensures |homes| == |anchors|
    ensures forall i :: 0 <= i < |homes| ==> 0 <= homes[i] < |groups| && anchors[i] in groups[homes[i]]
  {
    homes := [];
    if anchors != [] {
      assert anchors[0] in anchors;
      var g :| 0 <= g < |groups| && anchors[0] in groups[g];
      assert forall w :: w in anchors[1..] ==> w in anchors;
      var rest := HomesOf(groups, anchors[1..]);
      homes := [g] + rest;
    }
  }

  /** Words pairwise more than the tolerance apart need a group each. */
  lemma ApartNeedsGroupEach(groups: seq<seq<Word>>, anchors: seq<Word>)
    requires Covers(groups, anchors)
    requires forall i, j :: 0 <= i < j < |anchors| ==> anchors[j].top - anchors[i].top > ROW_TOP_TOLERANCE
    ensures |anchors| <= |groups|
  {
    var homes := HomesOf(groups, anchors);
    assert forall i, j :: 0 <= i < j < |homes| ==> !Near(anchors[i], anchors[j]);
    PigeonHole(homes, |groups|);
  }

  /** The first word of each group. */
  function Anchors(groups: seq<seq<Word>>): (anchors: seq<Word>)
    requires forall i :: 0 <= i < |groups| ==> groups[i] != []
    ensures |anchors| == |groups| && forall i :: 0 <= i < |groups| ==> anchors[i] == groups[i][0]
  {
    seq(|groups|, i requires 0 <= i < |groups| => groups[i][0])
  }

  lemma ShapeAnchors(ws: seq<Word>, gs: seq<seq<Word>>)
    requires Shape(ws, gs)
    ensures forall w :: w in Anchors(gs) ==> w in ws
    ensures forall i, j :: 0 <= i < j < |gs| ==> Anchors(gs)[j].top - Anchors(gs)[i].top > ROW_TOP_TOLERANCE
  {
  }

  /** Fewest rows: no family of groups of at most the same extent covers the words with fewer
      groups, because the rows' topmost words are pairwise more than the tolerance apart. */
  lemma FewestRows(words: seq<Word>, groups: seq<seq<Word>>)
    requires Covers(groups, words)
    ensures |Rows(words)| <= |groups|
  {
    var ordered := SortBy(Top, words);
    SortByAscending(Top, words);
    SortByMembers(Top, words);
    GroupsShape(ordered);
    ShapeAnchors(ordered, Groups(ordered));
    ApartNeedsGroupEach(groups, Anchors(Groups(ordered)));
  }

  /** The rows themselves are such a family, so their number is the minimum. */
  lemma RowsCover(words: seq<Word>)
    ensures Covers(Rows(words), words)
  {
    var rows := Rows(words);
    RowsShape(words);
    forall w | w in words
      ensures exists g :: 0 <= g < |rows| && w in rows[g]
    {
      assert w in multiset(Flatten(rows));
      FlattenMember(rows, w);
    }
  }

  lemma {:induction false} FlattenMember<T>(ss: seq<seq<T>>, x: T)
    requires x in Flatten(ss)
    ensures exists g :: 0 <= g < |ss| && x in ss[g]
  {
    if x !in ss[0] {
      FlattenMember(ss[1..], x);
      var g :| 0 <= g < |ss[1..]| && x in ss[1..][g];
      assert x in ss[g + 1];
    }
  }
}
