/**
 * The text of a CV page (app/cv/text_extraction.py `_join_rows_by_column`,
 * `_join_rows_in_reading_order`, `_extract_page_text`).
 */
module PageText {
  import opened Sequences
  import opened StableSort
  import opened Splitting
  import opened TextTokens
  import opened PageRows
  import opened PageColumns

  type Segment = seq<Word>

  function AllSegments(rows: seq<seq<Word>>): seq<Segment>
    decreases |rows|
  {
    if rows == [] then [] else AllSegments(rows[..|rows| - 1]) + Segments(rows[|rows| - 1])
  }

  function ColumnOf(segment: Segment, boundaries: seq<real>): nat {
    ColumnIndex(SegmentStart(segment), boundaries)
  }

  /** The segments of one column, in row order and left to right within a row. */
  function Column(segments: seq<Segment>, boundaries: seq<real>, c: nat): seq<Segment> {
    Filter((s: Segment) => ColumnOf(s, boundaries) == c, segments)
  }

  /** The non-empty columns from the c-th on, in ascending order. */
  function Layout(segments: seq<Segment>, boundaries: seq<real>, c: nat): seq<seq<Segment>>
    decreases |boundaries| + 1 - c
  {
    if c > |boundaries| then []
    else if Column(segments, boundaries, c) == [] then Layout(segments, boundaries, c + 1)
    else [Column(segments, boundaries, c)] + Layout(segments, boundaries, c + 1)
  }

  function Texts(line: seq<Word>): seq<string> {
    if line == [] then [] else [line[0].text] + Texts(line[1..])
  }

  function LineText(line: seq<Word>): string { Join(" ", Texts(line)) }

  function Lines(segments: seq<seq<Word>>): seq<string>
    decreases |segments|
  {
    if segments == [] then [] else Lines(segments[..|segments| - 1]) + [LineText(segments[|segments| - 1])]
  }

  function ColumnTexts(columns: seq<seq<Segment>>): seq<string> {
    if columns == [] then [] else [Join("\n", Lines(columns[0]))] + ColumnTexts(columns[1..])
  }

  function RowsText(rows: seq<seq<Word>>): string { Join("\n", Lines(rows)) }

  function ColumnsText(rows: seq<seq<Word>>, boundaries: seq<real>): string {
    Join("\n\n", ColumnTexts(Layout(AllSegments(rows), boundaries, 0)))
  }

  /** `_extract_page_text` of the page's words. */
  function PageText(words: seq<Word>): string {
    var rows := Rows(words);
    if rows == [] then ""
    else if Boundaries(rows) == [] then RowsText(rows)
    else ColumnsText(rows, Boundaries(rows))
  }

  /** The order in which the page's words are read. */
  function ReadingOrder(words: seq<Word>): seq<Word> {
    var rows := Rows(words);
    if Boundaries(rows) == [] then Flatten(rows)
    else Flatten(Flatten(Layout(AllSegments(rows), Boundaries(rows), 0)))
  }

  // ---------------------------------------------------------------- the builder

  /** `columns` holds the lines of the segments processed so far, by column. */
  ghost predicate Bucketed(columns: map<nat, seq<string>>, done: seq<Segment>, boundaries: seq<real>) {
    forall c: nat :: (c in columns <==> Column(done, boundaries, c) != [])
                     && (c in columns ==> columns[c] == Lines(Column(done, boundaries, c)))
  }

  lemma LinesSnoc(segments: seq<Segment>, s: Segment)
    ensures Lines(segments + [s]) == Lines(segments) + [LineText(s)]
  {
    assert (segments + [s])[..|segments|] == segments;
  }

  lemma ColumnSnoc(done: seq<Segment>, s: Segment, boundaries: seq<real>, c: nat)
    ensures Column(done + [s], boundaries, c) == Column(done, boundaries, c) + (if ColumnOf(s, boundaries) == c then [s] else [])
    ensures ColumnOf(s, boundaries) == c ==>
              Lines(Column(done + [s], boundaries, c)) == Lines(Column(done, boundaries, c)) + [LineText(s)]
  {
    FilterSnoc((t: Segment) => ColumnOf(t, boundaries) == c, done, s);
    LinesSnoc(Column(done, boundaries, c), s);
  }

  lemma BucketedSnoc(columns: map<nat, seq<string>>, done: seq<Segment>, boundaries: seq<real>, s: Segment)
    requires Bucketed(columns, done, boundaries)
    ensures var c := ColumnOf(s, boundaries);
            var before := if c in columns then columns[c] else [];
            Bucketed(columns[c := before + [LineText(s)]], done + [s], boundaries)
  {
    var c0 := ColumnOf(s, boundaries);
    var before := if c0 in columns then columns[c0] else [];
    assert before == Lines(Column(done, boundaries, c0));
    var columns' := columns[c0 := before + [LineText(s)]];
    forall c: nat
      ensures (c in columns' <==> Column(done + [s], boundaries, c) != [])
              && (c in columns' ==> columns'[c] == Lines(Column(done + [s], boundaries, c)))
    {
      ColumnSnoc(done, s, boundaries, c);
      if c != c0 { assert Column(done + [s], boundaries, c) == Column(done, boundaries, c); }
    }
  }

  method BucketSegments(rows: seq<seq<Word>>, boundaries: seq<real>) returns (columns: map<nat, seq<string>>)
    requires forall i :: 0 <= i < |rows| ==> rows[i] != []
    ensures Bucketed(columns, AllSegments(rows), boundaries)
  {
    columns := map[];
    for r := 0 to |rows|
      invariant Bucketed(columns, AllSegments(rows[..r]), boundaries)
    {
      assert rows[..r + 1][..r] == rows[..r];
      var segments := RowSegments(rows[r]);
      ghost var before := AllSegments(rows[..r]);
      assert before + segments[..0] == before;
      for i := 0 to |segments|
        invariant Bucketed(columns, before + segments[..i], boundaries)
      {
        BucketedSnoc(columns, before + segments[..i], boundaries, segments[i]);
        assert before + segments[..i + 1] == (before + segments[..i]) + [segments[i]];
        var column := ColumnIndex(SegmentStart(segments[i]), boundaries);
        var lines := if column in columns then columns[column] else [];
        columns := columns[column := lines + [Join(" ", Texts(segments[i]))]];
      }
      assert segments[..|segments|] == segments;
    }
    assert rows[..|rows|] == rows;
  }

  /** `_join_rows_by_column`: bucket the segments, then emit the columns in ascending order. */
  method JoinRowsByColumn(rows: seq<seq<Word>>, boundaries: seq<real>) returns (text: string)
    requires forall i :: 0 <= i < |rows| ==> rows[i] != []
    ensures text == ColumnsText(rows, boundaries)
  {
    var columns := BucketSegments(rows, boundaries);
    ghost var segments := AllSegments(rows);
    var texts: seq<string> := [];
    var c := |boundaries| + 1;
    while c > 0
      invariant 0 <= c <= |boundaries| + 1
      invariant texts == ColumnTexts(Layout(segments, boundaries, c))
    {
      c := c - 1;
      ghost var rest := Layout(segments, boundaries, c + 1);
      if c in columns {
        assert ([Column(segments, boundaries, c)] + rest)[1..] == rest;
        texts := [Join("\n", columns[c])] + texts;
      } else {
        assert Layout(segments, boundaries, c) == rest;
      }
    }
    text := Join("\n\n", texts);
  }

  /** `_extract_page_text`. */
  method ExtractPageText(words: seq<Word>) returns (text: string)
    ensures text == PageText(words)
  {
    var rows := GroupIntoRows(words);
    RowsShape(words);
    if |rows| == 0 { return ""; }
    var boundaries := FindColumnBoundaries(rows);
    if |boundaries| == 0 { return RowsText(rows); }
    text := JoinRowsByColumn(rows, boundaries);
  }

  // ---------------------------------------------------------------- words are conserved

  lemma {:induction false} SegmentsFlatten(rows: seq<seq<Word>>)
    ensures Flatten(AllSegments(rows)) == Flatten(rows)
    decreases |rows|
  {
    if rows != [] {
      var n := |rows| - 1;
      SegmentsFlatten(rows[..n]);
      SplitWhenIsSplit(Gap, rows[n]);
      FlattenAppend(AllSegments(rows[..n]), Segments(rows[n]));
      assert rows == rows[..n] + [rows[n]];
      FlattenSnoc(rows[..n], rows[n]);
    }
  }

  function From(segments: seq<Segment>, boundaries: seq<real>, c: nat): seq<Segment> {
    Filter((s: Segment) => ColumnOf(s, boundaries) >= c, segments)
  }

  lemma FilterHead(keep: Segment -> bool, segments: seq<Segment>)
    requires segments != []
    ensures Flatten(Filter(keep, segments))
         == (if keep(segments[0]) then segments[0] else []) + Flatten(Filter(keep, segments[1..]))
  {
    if keep(segments[0]) { FlattenCons(segments[0], Filter(keep, segments[1..])); }
  }

  lemma {:induction false} ColumnPeels(segments: seq<Segment>, boundaries: seq<real>, c: nat)
    ensures multiset(Flatten(From(segments, boundaries, c)))
         == multiset(Flatten(Column(segments, boundaries, c))) + multiset(Flatten(From(segments, boundaries, c + 1)))
  {
    if segments != [] {
      ColumnPeels(segments[1..], boundaries, c);
      FilterHead((s: Segment) => ColumnOf(s, boundaries) >= c, segments);
      FilterHead((s: Segment) => ColumnOf(s, boundaries) == c, segments);
      FilterHead((s: Segment) => ColumnOf(s, boundaries) >= c + 1, segments);
    }
  }

  lemma FlattenCons<T>(s: seq<T>, ss: seq<seq<T>>)
    ensures Flatten([s] + ss) == s + Flatten(ss)
  {
    assert ([s] + ss)[1..] == ss;
  }

  lemma {:induction false} FilterNone(segments: seq<Segment>, boundaries: seq<real>, c: nat)
    requires c > |boundaries|
    ensures From(segments, boundaries, c) == []
  {
    if segments != [] { FilterNone(segments[1..], boundaries, c); }
  }

  lemma {:induction false} FilterAll(segments: seq<Segment>, boundaries: seq<real>)
    ensures From(segments, boundaries, 0) == segments
  {
    if segments != [] { FilterAll(segments[1..], boundaries); }
  }

  lemma {:induction false} LayoutConserves(segments: seq<Segment>, boundaries: seq<real>, c: nat)
    ensures multiset(Flatten(Flatten(Layout(segments, boundaries, c)))) == multiset(Flatten(From(segments, boundaries, c)))
    decreases |boundaries| + 1 - c
  {
    if c > |boundaries| {
      FilterNone(segments, boundaries, c);
    } else {
      LayoutConserves(segments, boundaries, c + 1);
      ColumnPeels(segments, boundaries, c);
      var rest := Layout(segments, boundaries, c + 1);
      var column := Column(segments, boundaries, c);
      if column == [] {
        assert Layout(segments, boundaries, c) == rest;
      } else {
        FlattenCons(column, rest);
        FlattenAppend(column, Flatten(rest));
      }
    }
  }

  /** The page is read without losing, inventing or repeating a word. */
  lemma ReadingOrderPermutes(words: seq<Word>)
    ensures multiset(ReadingOrder(words)) == multiset(words)
  {
    var rows := Rows(words);
    RowsShape(words);
    SegmentsFlatten(rows);
    LayoutConserves(AllSegments(rows), Boundaries(rows), 0);
    FilterAll(AllSegments(rows), Boundaries(rows));
  }

  /** The emitted column is one whole column of the page. */
  ghost predicate WholeColumn(column: seq<Segment>, segments: seq<Segment>, boundaries: seq<real>) {
    && column != []
    && column == Column(segments, boundaries, ColumnOf(column[0], boundaries))
    && forall s :: s in column ==> ColumnOf(s, boundaries) == ColumnOf(column[0], boundaries)
  }

  lemma ColumnIsWhole(segments: seq<Segment>, boundaries: seq<real>, c: nat)
    requires Column(segments, boundaries, c) != []
    ensures var column := Column(segments, boundaries, c);
            ColumnOf(column[0], boundaries) == c && WholeColumn(column, segments, boundaries)
  {
    FilterMembers((s: Segment) => ColumnOf(s, boundaries) == c, segments);
    assert Column(segments, boundaries, c)[0] in Column(segments, boundaries, c);
  }

  /** Whole columns, from the c-th on, by ascending index. */
  ghost predicate LeftToRightColumns(columns: seq<seq<Segment>>, segments: seq<Segment>, boundaries: seq<real>, c: nat) {
    && (forall k :: 0 <= k < |columns| ==> WholeColumn(columns[k], segments, boundaries))
    && (forall k :: 0 <= k < |columns| ==> ColumnOf(columns[k][0], boundaries) >= c)
    && (forall k, m :: 0 <= k < m < |columns| ==>
          ColumnOf(columns[k][0], boundaries) < ColumnOf(columns[m][0], boundaries))
  }

  lemma LeftToRightCons(column: seq<Segment>, rest: seq<seq<Segment>>, segments: seq<Segment>, boundaries: seq<real>, c: nat)
    requires LeftToRightColumns(rest, segments, boundaries, c + 1)
    requires WholeColumn(column, segments, boundaries) && ColumnOf(column[0], boundaries) == c
    ensures LeftToRightColumns([column] + rest, segments, boundaries, c)
  {
  }

  lemma LeftToRightWeaker(rest: seq<seq<Segment>>, segments: seq<Segment>, boundaries: seq<real>, c: nat)
    requires LeftToRightColumns(rest, segments, boundaries, c + 1)
    ensures LeftToRightColumns(rest, segments, boundaries, c)
  {
  }

  /** Columns come left to right: each emitted column is a whole column of the page, and a later one
      has the greater index. */
  lemma {:induction false} LayoutAscends(segments: seq<Segment>, boundaries: seq<real>, c: nat)
    ensures LeftToRightColumns(Layout(segments, boundaries, c), segments, boundaries, c)
    decreases |boundaries| + 1 - c
  {
    if c <= |boundaries| {
      LayoutAscends(segments, boundaries, c + 1);
      var column, rest := Column(segments, boundaries, c), Layout(segments, boundaries, c + 1);
      if column != [] {
        ColumnIsWhole(segments, boundaries, c);
        LeftToRightCons(column, rest, segments, boundaries, c);
        assert Layout(segments, boundaries, c) == [column] + rest;
      } else {
        LeftToRightWeaker(rest, segments, boundaries, c);
      }
    }
  }

  // ---------------------------------------------------------------- reading the text back

  /** The whitespace the layout is written with. */
  predicate IsSpace(ch: char) { ch == ' ' || ch == '\n' }

  lemma {:induction false} TextsAppend(a: seq<Word>, b: seq<Word>)
    ensures Texts(a + b) == Texts(a) + Texts(b)
  {
    if a == [] {
      assert a + b == b;
    } else {
      assert (a + b)[1..] == a[1..] + b;
      TextsAppend(a[1..], b);
    }
  }

  lemma {:induction false} TextsMembers(ws: seq<Word>)
    ensures forall t :: t in Texts(ws) ==> exists w :: w in ws && w.text == t
  {
    if ws != [] {
      TextsMembers(ws[1..]);
      assert Texts(ws) == [ws[0].text] + Texts(ws[1..]);
      forall t | t in Texts(ws)
        ensures exists w :: w in ws && w.text == t
      {
        if t == ws[0].text {
          assert ws[0] in ws;
        } else {
          var w :| w in ws[1..] && w.text == t;
          assert w in ws;
        }
      }
    }
  }

  /** The words' texts are non-empty and hold no whitespace, as a PDF word extractor yields them. */
  ghost predicate SolidWords(ws: seq<Word>) {
    forall w :: w in ws ==> Solid(IsSpace, w.text)
  }

  lemma LineReadsBack(line: seq<Word>)
    requires SolidWords(line)
    ensures Tokens(IsSpace, LineText(line)) == Texts(line)
  {
    TextsMembers(line);
    JoinRoundTrip(IsSpace, " ", Texts(line));
  }

  lemma {:induction false} TokensOfAllAppend(a: seq<string>, b: seq<string>)
    ensures TokensOfAll(IsSpace, a + b) == TokensOfAll(IsSpace, a) + TokensOfAll(IsSpace, b)
  {
    if a == [] {
      assert a + b == b;
    } else {
      assert (a + b)[1..] == a[1..] + b;
      TokensOfAllAppend(a[1..], b);
    }
  }

  lemma {:induction false} LinesReadBack(lines: seq<seq<Word>>)
    requires SolidWords(Flatten(lines))
    ensures Tokens(IsSpace, Join("\n", Lines(lines))) == Texts(Flatten(lines))
    ensures TokensOfAll(IsSpace, Lines(lines)) == Texts(Flatten(lines))
    decreases |lines|
  {
    TokensOfJoin(IsSpace, "\n", Lines(lines));
    if lines != [] {
      var n := |lines| - 1;
      assert lines == lines[..n] + [lines[n]];
      FlattenSnoc(lines[..n], lines[n]);
      LinesReadBack(lines[..n]);
      LineReadsBack(lines[n]);
      TextsAppend(Flatten(lines[..n]), lines[n]);
      TokensOfAllAppend(Lines(lines[..n]), [LineText(lines[n])]);
      OneText(LineText(lines[n]));
    }
  }

  lemma OneText(s: string)
    ensures TokensOfAll(IsSpace, [s]) == Tokens(IsSpace, s)
  {
    assert [s][1..] == [];
    assert TokensOfAll(IsSpace, [s][1..]) == [];
  }

  lemma {:induction false} ColumnsReadBack(columns: seq<seq<Segment>>)
    requires SolidWords(Flatten(Flatten(columns)))
    ensures TokensOfAll(IsSpace, ColumnTexts(columns)) == Texts(Flatten(Flatten(columns)))
  {
    if columns != [] {
      FlattenAppend(columns[0], Flatten(columns[1..]));
      LinesReadBack(columns[0]);
      ColumnsReadBack(columns[1..]);
      TextsAppend(Flatten(columns[0]), Flatten(Flatten(columns[1..])));
    }
  }

  /** Reading the page text back: splitting it on whitespace yields the texts of all the page's
      words, in reading order. */
  lemma PageTextReadsBack(words: seq<Word>)
    requires SolidWords(words)
    ensures Tokens(IsSpace, PageText(words)) == Texts(ReadingOrder(words))
    ensures multiset(ReadingOrder(words)) == multiset(words)
  {
    ReadingOrderPermutes(words);
    var order := ReadingOrder(words);
    assert SolidWords(order) by {
      forall w | w in order ensures Solid(IsSpace, w.text) {
        assert w in multiset(order);
      }
    }
    var rows := Rows(words);
    if Boundaries(rows) == [] {
      LinesReadBack(rows);
    } else {
      var columns := Layout(AllSegments(rows), Boundaries(rows), 0);
      ColumnsReadBack(columns);
      TokensOfJoin(IsSpace, "\n\n", ColumnTexts(columns));
    }
    if rows == [] { NoRowsNoBoundaries(); }
  }

  lemma NoRowsNoBoundaries()
    ensures Boundaries([]) == []
  {
    assert AllGapStarts([]) == [];
    assert SortBy(Identity, []) == [];
    assert Clusters([]) == [];
    assert Means([]) == [];
  }
}
