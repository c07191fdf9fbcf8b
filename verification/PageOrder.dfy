/** Where each line of a CV page comes from: which column it is in, and what precedes it there. */
module PageOrder {
  import opened Sequences
  import opened StableSort
  import opened PageRows
  import opened PageColumns
  import opened PageText
  import opened PageLines

  // ---------------------------------------------------------------- columns

  /** A boundary of the page lies between the left edges of the two lines. */
  ghost predicate BoundaryBetween(boundaries: seq<real>, a: Segment, b: Segment)
    requires a != [] && b != []
  {
    exists i :: 0 <= i < |boundaries| && a[0].x0 < boundaries[i] <= b[0].x0
  }

  lemma IndexLessIffBoundary(boundaries: seq<real>, a: Segment, b: Segment)
    requires Separated(boundaries) && a != [] && b != []
    ensures ColumnIndex(a[0].x0, boundaries) < ColumnIndex(b[0].x0, boundaries) <==> BoundaryBetween(boundaries, a, b)
  {
    var i := ColumnIndex(a[0].x0, boundaries);
    if i < ColumnIndex(b[0].x0, boundaries) { assert a[0].x0 < boundaries[i] <= b[0].x0; }
    if BoundaryBetween(boundaries, a, b) {
      var k :| 0 <= k < |boundaries| && a[0].x0 < boundaries[k] <= b[0].x0;
      ColumnIndexCounts(a[0].x0, boundaries, k);
      ColumnIndexCounts(b[0].x0, boundaries, k);
    }
  }

  lemma ColumnMember(words: seq<Word>, k: nat, a: Segment)
    requires words != [] && k < |ColumnsOf(words)| && a in ColumnsOf(words)[k]
    ensures a != []
    ensures Boundaries(Rows(words)) != [] ==>
              ColumnIndex(a[0].x0, Boundaries(Rows(words))) == ColumnOf(ColumnsOf(words)[k][0], Boundaries(Rows(words)))
  {
    var rows := Rows(words);
    LayoutLines(words);
    if Boundaries(rows) != [] {
      LayoutAscends(AllSegments(rows), Boundaries(rows), 0);
      assert WholeColumn(ColumnsOf(words)[k], AllSegments(rows), Boundaries(rows));
    }
  }

  /** Columns are ordered by their index. */
  lemma ColumnIndicesAscend(columns: seq<seq<Segment>>, segments: seq<Segment>, boundaries: seq<real>, k: nat, m: nat)
    requires LeftToRightColumns(columns, segments, boundaries, 0) && k < |columns| && m < |columns|
    ensures columns[k] != [] && columns[m] != []
    ensures k < m <==> ColumnOf(columns[k][0], boundaries) < ColumnOf(columns[m][0], boundaries)
  {
    assert WholeColumn(columns[k], segments, boundaries) && WholeColumn(columns[m], segments, boundaries);
    if m < k { assert ColumnOf(columns[m][0], boundaries) < ColumnOf(columns[k][0], boundaries); }
  }

  /** Without a boundary there is one column. */
  lemma SoleColumn(words: seq<Word>)
    requires Boundaries(Rows(words)) == []
    ensures |ColumnsOf(words)| == 1
  {
  }

  /** Of two lines, one comes in an earlier column exactly when a boundary lies between their left edges. */
  lemma ColumnsByLeftEdge(words: seq<Word>, k: nat, m: nat, a: Segment, b: Segment)
    requires words != [] && k < |ColumnsOf(words)| && m < |ColumnsOf(words)|
    requires a in ColumnsOf(words)[k] && b in ColumnsOf(words)[m]
    ensures a != [] && b != []
    ensures k < m <==> BoundaryBetween(Boundaries(Rows(words)), a, b)
  {
    var rows := Rows(words);
    var boundaries := Boundaries(rows);
    ColumnMember(words, k, a);
    ColumnMember(words, m, b);
    if boundaries == [] {
      SoleColumn(words);
    } else {
      LayoutAscends(AllSegments(rows), boundaries, 0);
      ColumnIndicesAscend(ColumnsOf(words), AllSegments(rows), boundaries, k, m);
      BoundariesSeparated(rows);
      IndexLessIffBoundary(boundaries, a, b);
    }
  }

  // ---------------------------------------------------------------- lines within a column

  /** What is kept of a list keeps its order. */
  lemma {:induction false} FilterInOrder<T>(keep: T -> bool, s: seq<T>, i: nat, j: nat) returns (p: nat, q: nat)
    requires i < j < |Filter(keep, s)|
    ensures p < q < |s| && s[p] == Filter(keep, s)[i] && s[q] == Filter(keep, s)[j]
  {
    if keep(s[0]) && i == 0 {
      p := 0;
      q := FilterPosition(keep, s[1..], j - 1);
      q := q + 1;
    } else {
      p, q := FilterInOrder(keep, s[1..], if keep(s[0]) then i - 1 else i, if keep(s[0]) then j - 1 else j);
      p, q := p + 1, q + 1;
    }
  }

  lemma {:induction false} FilterPosition<T>(keep: T -> bool, s: seq<T>, i: nat) returns (p: nat)
    requires i < |Filter(keep, s)|
    ensures p < |s| && s[p] == Filter(keep, s)[i]
  {
    if keep(s[0]) && i == 0 {
      p := 0;
    } else {
      p := FilterPosition(keep, s[1..], if keep(s[0]) then i - 1 else i);
      p := p + 1;
    }
  }

  /** A segment of the page: its row, and its place in it. */
  lemma {:induction false} SegmentRow(rows: seq<seq<Word>>, p: nat) returns (r: nat, k: nat)
    requires p < |AllSegments(rows)|
    ensures r < |rows| && k < |Segments(rows[r])| && AllSegments(rows)[p] == Segments(rows[r])[k]
    ensures p == |AllSegments(rows[..r])| + k
    decreases |rows|
  {
    var n := |rows| - 1;
    var front := AllSegments(rows[..n]);
    if p >= |front| {
      r, k := n, p - |front|;
    } else {
      r, k := SegmentRow(rows[..n], p);
      assert rows[..n][..r] == rows[..r];
    }
  }

  lemma {:induction false} MoreRowsMoreSegments(rows: seq<seq<Word>>, r: nat, t: nat)
    requires r < t <= |rows|
    ensures |AllSegments(rows[..r])| + |Segments(rows[r])| <= |AllSegments(rows[..t])|
    decreases t
  {
    assert rows[..t][..t - 1] == rows[..t - 1];
    if r < t - 1 { MoreRowsMoreSegments(rows, r, t - 1); }
  }

  /** The first line is a segment of an earlier row, or of the same row and left of the second. */
  ghost predicate Precedes(rows: seq<seq<Word>>, a: Segment, b: Segment) {
    exists r, t :: 0 <= r <= t < |rows| && a in Segments(rows[r]) && b in Segments(rows[t])
                   && (r == t ==> SegmentStart(a) <= SegmentStart(b))
  }

  lemma SegmentsPrecede(rows: seq<seq<Word>>, p: nat, q: nat)
    requires p < q < |AllSegments(rows)|
    requires forall r :: 0 <= r < |rows| ==> rows[r] != [] && Ascending(Left, rows[r])
    ensures Precedes(rows, AllSegments(rows)[p], AllSegments(rows)[q])
  {
    var r, k := SegmentRow(rows, p);
    var t, m := SegmentRow(rows, q);
    if t < r { MoreRowsMoreSegments(rows, t, r); }
    if r == t { SegmentStartsAscend(rows[r], k, m); }
  }

  lemma SegmentWords(row: seq<Word>, a: Segment, w: Word)
    requires a in Segments(row) && w in a
    ensures w in row
  {
    SegmentsSplitAtGaps(row);
    FlattenMembers(Segments(row), a, w);
  }

  /** Both lines are parts of one row. */
  ghost predicate ShareRow(rows: seq<seq<Word>>, a: Segment, b: Segment) {
    exists r :: 0 <= r < |rows| && a in Segments(rows[r]) && b in Segments(rows[r])
  }

  /** Lines of one column come in row order, and left to right within a row; so no word of a line lies
      below a word of a later line of the column unless both are parts of one row. */
  lemma LinesInRowOrder(words: seq<Word>, k: nat, i: nat, j: nat)
    requires words != [] && k < |ColumnsOf(words)| && i < j < |ColumnsOf(words)[k]|
    requires Boundaries(Rows(words)) != []
    ensures var a, b := ColumnsOf(words)[k][i], ColumnsOf(words)[k][j];
            && Precedes(Rows(words), a, b)
            && (ShareRow(Rows(words), a, b) || forall w, v :: w in a && v in b ==> w.top <= v.top)
  {
    var rows := Rows(words);
    var segments, boundaries := AllSegments(rows), Boundaries(rows);
    LayoutAscends(segments, boundaries, 0);
    var column := ColumnsOf(words)[k];
    assert WholeColumn(column, segments, boundaries);
    var c := ColumnOf(column[0], boundaries);
    var p, q := FilterInOrder((s: Segment) => ColumnOf(s, boundaries) == c, segments, i, j);
    RowsShape(words);
    SegmentsPrecede(rows, p, q);
    PrecedesMeansAbove(words, column[i], column[j]);
  }

  lemma PrecedesMeansAbove(words: seq<Word>, a: Segment, b: Segment)
    requires Precedes(Rows(words), a, b)
    ensures ShareRow(Rows(words), a, b) || forall w, v :: w in a && v in b ==> w.top <= v.top
  {
    var rows := Rows(words);
    var r, t :| 0 <= r <= t < |rows| && a in Segments(rows[r]) && b in Segments(rows[t]);
    if r < t {
      forall w, v | w in a && v in b
        ensures w.top <= v.top
      {
        SegmentWords(rows[r], a, w);
        SegmentWords(rows[t], b, v);
        RowsDescendThePage(words, r, t, w, v);
      }
    }
  }
}
