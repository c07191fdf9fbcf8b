/** The four constants of the page layout at work: what is near, what is a gap, what recurs. */
module PageThresholds {
  import opened StableSort
  import opened Splitting
  import opened PageRows
  import opened PageColumns

  /** Words near one another fit one group. */
  lemma OneGroupCovers(a: Word, b: Word)
    requires -3.0 <= a.top - b.top <= 3.0
    ensures Covers([[a, b]], [a, b])
  {
    forall w | w in [a, b]
      ensures exists g :: 0 <= g < 1 && w in [[a, b]][g]
    {
      assert w in [[a, b]][0];
    }
  }

  lemma OneGroupEach(a: Word, b: Word)
    ensures Covers([[a], [b]], [a, b])
  {
    forall w | w in [a, b]
      ensures exists g :: 0 <= g < 2 && w in [[a], [b]][g]
    {
      assert a in [[a], [b]][0] && b in [[a], [b]][1];
    }
  }

  /** One row holds both words only if they are near. */
  lemma SharedRow(a: Word, b: Word)
    requires |Rows([a, b])| <= 1
    ensures |Rows([a, b])| == 1 && Near(a, b)
  {
    var rows := Rows([a, b]);
    RowsShape([a, b]);
    RowsCover([a, b]);
    assert a in [a, b] && b in [a, b];
    var g :| 0 <= g < |rows| && a in rows[g];
    var h :| 0 <= h < |rows| && b in rows[h];
    assert Within(rows[0]);
  }

  /** Two words share a row exactly when their tops are at most 3 apart. */
  lemma TwoWordRows(a: Word, b: Word)
    ensures |Rows([a, b])| == if -3.0 <= a.top - b.top <= 3.0 then 1 else 2
  {
    OneGroupEach(a, b);
    FewestRows([a, b], [[a], [b]]);
    if |Rows([a, b])| <= 1 { SharedRow(a, b); }
    if -3.0 <= a.top - b.top <= 3.0 {
      OneGroupCovers(a, b);
      FewestRows([a, b], [[a, b]]);
    }
  }

  /** Two words of a row are split exactly when the gap between them is at least 10. */
  lemma TwoWordSegments(a: Word, b: Word)
    ensures Segments([a, b]) == if b.x0 - a.x1 >= 10.0 then [[a], [b]] else [[a, b]]
    ensures GapStarts([a, b]) == if b.x0 - a.x1 >= 10.0 then [b.x0] else []
  {
    assert [a] + [b] == [a, b] && [a, b][..1] == [a];
    assert GapStarts([a, b][..1]) == [];
    FirstSegment(a);
    SplitSnoc(Gap, [a], b);
  }

  /** Two starts are clustered exactly when the second is at most 12 right of the first. */
  lemma TwoStartClusters(x: real, y: real)
    ensures Clusters([x, y]) == if y - x <= 12.0 then [[x, y]] else [[x], [y]]
  {
    assert [] + [x] == [x] && [x] + [y] == [x, y];
    SplitSnoc(FarStart, [], x);
    SplitSnoc(FarStart, [x], y);
  }

  /** A start that recurs twice opens no column; three times within tolerance it does. */
  lemma ThirdStartOpensColumn(x: real, y: real, z: real)
    requires 60.0 <= x <= y <= z && y - x <= 12.0 && z - y <= 12.0
    ensures Boundaries([TwoWords(x, 0.0), TwoWords(y, 10.0)]) == []
    ensures Boundaries([TwoWords(x, 0.0), TwoWords(y, 10.0), TwoWords(z, 20.0)]) == [(x + y + z) / 3.0]
  {
    ThreeRows(x, y, z);
    var rows := [TwoWords(x, 0.0), TwoWords(y, 10.0)];
    TwoWordsSplit(x, 0.0);
    TwoWordsSplit(y, 10.0);
    assert AllGapStarts([TwoWords(x, 0.0)]) == [x] by {
      AllGapStartsSnoc([], TwoWords(x, 0.0));
      assert [] + [TwoWords(x, 0.0)] == [TwoWords(x, 0.0)];
    }
    AllGapStartsSnoc([TwoWords(x, 0.0)], TwoWords(y, 10.0));
    assert [TwoWords(x, 0.0)] + [TwoWords(y, 10.0)] == rows;
    assert AllGapStarts(rows) == [x, y];
    SortByIdentity(Identity, [x, y]);
    TwoStartClusters(x, y);
    BoundariesSeparated(rows);
    assert [[x, y]][..0] == [];
    assert Means([[x, y]]) == [];
  }
}
