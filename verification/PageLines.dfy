/**
 * Reading the text of a CV page back: lines, columns and words are where the separators say.
 */
module PageLines {
  import opened Sequences
  import opened TextTokens
  import opened PageRows
  import opened PageColumns
  import opened PageText

  /** Python's `split` at a single separator: the pieces around each occurrence, empty ones included. */
  function Pieces<T(==)>(sep: T, s: seq<T>): (ps: seq<seq<T>>)
    ensures ps != []
  {
    if s == [] then [[]]
    else
      var rest := Pieces(sep, s[1..]);
      if s[0] == sep then [[]] + rest else [[s[0]] + rest[0]] + rest[1..]
  }

  /** The parts with one separator between neighbours. */
  function Between<T>(sep: T, parts: seq<seq<T>>): seq<T> {
    if parts == [] then [] else if |parts| == 1 then parts[0] else parts[0] + [sep] + Between(sep, parts[1..])
  }

  lemma {:induction false} PiecesOfFirst<T>(sep: T, part: seq<T>, rest: seq<T>)
    requires sep !in part
    ensures Pieces(sep, part) == [part]
    ensures Pieces(sep, part + [sep] + rest) == [part] + Pieces(sep, rest)
  {
    if part == [] {
      assert part + [sep] + rest == [sep] + rest;
      assert ([sep] + rest)[1..] == rest;
    } else {
      PiecesOfFirst(sep, part[1..], rest);
      assert (part + [sep] + rest)[1..] == part[1..] + [sep] + rest;
      assert [part[0]] + part[1..] == part;
    }
  }

  /** Splitting gives back what was put together, if no part holds the separator. */
  lemma {:induction false} PiecesOfBetween<T>(sep: T, parts: seq<seq<T>>)
    requires parts != [] && forall p :: p in parts ==> sep !in p
    ensures Pieces(sep, Between(sep, parts)) == parts
  {
    assert parts[0] in parts;
    if |parts| == 1 {
      PiecesOfFirst(sep, parts[0], []);
    } else {
      assert forall p :: p in parts[1..] ==> p in parts;
      PiecesOfBetween(sep, parts[1..]);
      PiecesOfFirst(sep, parts[0], Between(sep, parts[1..]));
    }
  }

  lemma {:induction false} JoinIsBetween(c: char, parts: seq<string>)
    ensures Join([c], parts) == Between(c, parts)
  {
    if |parts| > 1 { JoinIsBetween(c, parts[1..]); }
  }

  // ---------------------------------------------------------------- reading

  /** The words of each line. */
  function WordsOf(lines: seq<string>): (r: seq<seq<string>>)
    ensures |r| == |lines| && forall i :: 0 <= i < |lines| ==> r[i] == Pieces(' ', lines[i])
  {
    seq(|lines|, i requires 0 <= i < |lines| => Pieces(' ', lines[i]))
  }

  /** A text read as columns of lines of words: an empty line ends a column, a newline a line, a blank
      a word. */
  function Read(text: string): (r: seq<seq<seq<string>>>)
  {
    var columns := Pieces("", Pieces('\n', text));
    seq(|columns|, k requires 0 <= k < |columns| => WordsOf(columns[k]))
  }

  /** The page as laid out: its columns of lines, one column if it has no boundary. */
  function ColumnsOf(words: seq<Word>): seq<seq<seq<Word>>> {
    var rows := Rows(words);
    if Boundaries(rows) == [] then [rows] else Layout(AllSegments(rows), Boundaries(rows), 0)
  }

  function TextsOf(lines: seq<seq<Word>>): (r: seq<seq<string>>)
    ensures |r| == |lines| && forall i :: 0 <= i < |lines| ==> r[i] == Texts(lines[i])
  {
    seq(|lines|, i requires 0 <= i < |lines| => Texts(lines[i]))
  }

  function ColumnTextsOf(columns: seq<seq<seq<Word>>>): (r: seq<seq<seq<string>>>)
    ensures |r| == |columns| && forall k :: 0 <= k < |columns| ==> r[k] == TextsOf(columns[k])
  {
    seq(|columns|, k requires 0 <= k < |columns| => TextsOf(columns[k]))
  }

  // ---------------------------------------------------------------- lines

  /** A line of words: at least one, each non-empty and without whitespace. */
  ghost predicate SolidLine(line: seq<Word>) {
    line != [] && SolidWords(line)
  }

  ghost predicate SolidLines(lines: seq<seq<Word>>) {
    forall line :: line in lines ==> SolidLine(line)
  }

  /** Such a line's text is not empty, holds no newline, and splits at blanks into its words. */
  lemma LineReads(line: seq<Word>)
    requires SolidLine(line)
    ensures LineText(line) != "" && '\n' !in LineText(line)
    ensures Pieces(' ', LineText(line)) == Texts(line)
  {
    var ts := Texts(line);
    TextsMembers(line);
    assert Solid(IsSpace, line[0].text);
    forall t | t in ts
      ensures Solid(IsSpace, t) && ' ' !in t && '\n' !in t
    {
      assert IsSpace(' ') && IsSpace('\n');
    }
    JoinIsBetween(' ', ts);
    PiecesOfBetween(' ', ts);
    BetweenChars(' ', ts, '\n');
  }

  lemma {:induction false} BetweenChars(sep: char, parts: seq<string>, c: char)
    requires c != sep && forall p :: p in parts ==> c !in p
    ensures c !in Between(sep, parts)
    ensures parts != [] && parts[0] != "" ==> Between(sep, parts) != ""
  {
    if parts != [] {
      assert parts[0] in parts;
      if |parts| > 1 {
        assert forall p :: p in parts[1..] ==> p in parts;
        BetweenChars(sep, parts[1..], c);
      }
    }
  }

  lemma {:induction false} LinesAt(lines: seq<seq<Word>>)
    ensures |Lines(lines)| == |lines| && forall i :: 0 <= i < |lines| ==> Lines(lines)[i] == LineText(lines[i])
    decreases |lines|
  {
    if lines != [] { LinesAt(lines[..|lines| - 1]); }
  }

  /** No line holds a newline. */
  ghost predicate NoNewlines(lines: seq<string>) {
    forall l :: l in lines ==> '\n' !in l
  }

  /** A column's lines are non-empty texts without newlines, and read back as its words. */
  lemma ColumnReads(column: seq<seq<Word>>)
    requires SolidLines(column)
    ensures "" !in Lines(column) && NoNewlines(Lines(column))
    ensures WordsOf(Lines(column)) == TextsOf(column)
  {
    LinesAt(column);
    forall i | 0 <= i < |column|
      ensures Lines(column)[i] != "" && '\n' !in Lines(column)[i] && WordsOf(Lines(column))[i] == TextsOf(column)[i]
    {
      assert column[i] in column;
      LineReads(column[i]);
    }
  }

  // ---------------------------------------------------------------- columns

  function AllLines(columns: seq<seq<seq<Word>>>): (r: seq<seq<string>>)
    ensures |r| == |columns| && forall k :: 0 <= k < |columns| ==> r[k] == Lines(columns[k])
  {
    seq(|columns|, k requires 0 <= k < |columns| => Lines(columns[k]))
  }

  lemma {:induction false} JoinAppend(a: seq<string>, b: seq<string>)
    requires a != [] && b != []
    ensures Join("\n", a) + "\n" + Join("\n", b) == Join("\n", a + b)
  {
    if |a| == 1 {
      assert (a + b)[1..] == b;
    } else {
      assert (a + b)[1..] == a[1..] + b;
      JoinAppend(a[1..], b);
    }
  }

  /** A column's text put in front of later lines, with an empty line between. */
  lemma ColumnInFront(lines: seq<string>, later: seq<string>)
    requires lines != [] && later != []
    ensures Join("\n", lines) + "\n\n" + Join("\n", later) == Join("\n", lines + [""] + later)
  {
    var tail := [""] + later;
    JoinAppend([""], later);
    JoinAppend(lines, tail);
    assert lines + tail == lines + [""] + later;
    assert Join("\n", tail) == "" + "\n" + Join("\n", later);
    BlankLine(Join("\n", lines), Join("\n", later));
  }

  lemma BlankLine(a: string, b: string)
    ensures a + "\n\n" + b == a + "\n" + ("" + "\n" + b)
  {
  }

  lemma JoinStep(sep: string, first: string, later: seq<string>)
    requires later != []
    ensures Join(sep, [first] + later) == first + sep + Join(sep, later)
  {
    assert ([first] + later)[1..] == later;
  }

  /** Columns with an empty line between them: the same text, written as lines. */
  lemma {:induction false} ColumnsAreLines(columns: seq<seq<seq<Word>>>)
    requires columns != [] && forall k :: 0 <= k < |columns| ==> columns[k] != []
    ensures Between("", AllLines(columns)) != []
    ensures Join("\n\n", ColumnTexts(columns)) == Join("\n", Between("", AllLines(columns)))
  {
    var lines, rest := Lines(columns[0]), columns[1..];
    LinesAt(columns[0]);
    if |columns| == 1 {
      assert ColumnTexts(columns) == [Join("\n", lines)];
    } else {
      var later := Between("", AllLines(rest));
      assert AllLines(columns)[1..] == AllLines(rest);
      ColumnsAreLines(rest);
      ColumnInFront(lines, later);
      assert ColumnTexts(columns) == [Join("\n", lines)] + ColumnTexts(rest);
      JoinStep("\n\n", Join("\n", lines), ColumnTexts(rest));
    }
  }

  lemma {:induction false} BetweenLines(parts: seq<seq<string>>)
    requires forall p :: p in parts ==> NoNewlines(p)
    ensures NoNewlines(Between("", parts))
  {
    if parts != [] {
      assert parts[0] in parts;
      assert NoNewlines(parts[0]);
      assert forall p :: p in parts[1..] ==> p in parts;
      BetweenLines(parts[1..]);
    }
  }

  /** The lines of columns of solid lines: no empty one within a column, no newline in any. */
  lemma LinesOfColumns(columns: seq<seq<seq<Word>>>)
    requires forall k :: 0 <= k < |columns| ==> SolidLines(columns[k])
    ensures forall p :: p in AllLines(columns) ==> "" !in p && NoNewlines(p)
    ensures forall k :: 0 <= k < |columns| ==> WordsOf(AllLines(columns)[k]) == ColumnTextsOf(columns)[k]
  {
    forall k | 0 <= k < |columns|
      ensures "" !in AllLines(columns)[k] && NoNewlines(AllLines(columns)[k])
      ensures WordsOf(AllLines(columns)[k]) == ColumnTextsOf(columns)[k]
    {
      ColumnReads(columns[k]);
    }
  }

  /** Columns of solid lines, written with empty lines between, read back as they are. */
  lemma ColumnsRead(columns: seq<seq<seq<Word>>>)
    requires columns != [] && forall k :: 0 <= k < |columns| ==> columns[k] != [] && SolidLines(columns[k])
    ensures Read(Join("\n\n", ColumnTexts(columns))) == ColumnTextsOf(columns)
  {
    var lines := Between("", AllLines(columns));
    LinesOfColumns(columns);
    ColumnsAreLines(columns);
    BetweenLines(AllLines(columns));
    JoinIsBetween('\n', lines);
    PiecesOfBetween('\n', lines);
    PiecesOfBetween("", AllLines(columns));
    ReadsAs(Join("\n", lines), AllLines(columns), ColumnTextsOf(columns));
  }

  /** What a text reads as, given its columns of lines. */
  lemma ReadsAs(text: string, columns: seq<seq<string>>, texts: seq<seq<seq<string>>>)
    requires Pieces("", Pieces('\n', text)) == columns && |texts| == |columns|
    requires forall k :: 0 <= k < |columns| ==> WordsOf(columns[k]) == texts[k]
    ensures Read(text) == texts
  {
  }

  // ---------------------------------------------------------------- the page

  lemma {:induction false} FlattenMembers<T>(ss: seq<seq<T>>, s: seq<T>, x: T)
    requires s in ss && x in s
    ensures x in Flatten(ss)
  {
    if s != ss[0] { FlattenMembers(ss[1..], s, x); }
  }

  lemma {:induction false} SegmentsNonEmpty(rows: seq<seq<Word>>)
    ensures [] !in AllSegments(rows)
    decreases |rows|
  {
    if rows != [] {
      SegmentsNonEmpty(rows[..|rows| - 1]);
      SegmentsSplitAtGaps(rows[|rows| - 1]);
    }
  }

  /** Every column of the layout is non-empty, and so is every line of it. */
  lemma LayoutLines(words: seq<Word>)
    requires words != []
    ensures ColumnsOf(words) != []
    ensures forall k :: 0 <= k < |ColumnsOf(words)| ==> ColumnsOf(words)[k] != [] && [] !in ColumnsOf(words)[k]
  {
    var rows := Rows(words);
    var segments, boundaries := AllSegments(rows), Boundaries(rows);
    RowsShape(words);
    if boundaries != [] {
      LayoutAscends(segments, boundaries, 0);
      SegmentsNonEmpty(rows);
      ReadingOrderPermutes(words);
      var columns := Layout(segments, boundaries, 0);
      assert multiset(Flatten(Flatten(columns))) == multiset(words) != multiset{};
      forall k | 0 <= k < |columns|
        ensures columns[k] != [] && [] !in columns[k]
      {
        assert WholeColumn(columns[k], segments, boundaries);
        var c := ColumnOf(columns[k][0], boundaries);
        FilterMembers((s: Segment) => ColumnOf(s, boundaries) == c, segments);
      }
    }
  }

  lemma LayoutSolid(words: seq<Word>)
    requires words != [] && SolidWords(words)
    ensures forall k :: 0 <= k < |ColumnsOf(words)| ==> SolidLines(ColumnsOf(words)[k])
  {
    var columns := ColumnsOf(words);
    LayoutLines(words);
    ReadingOrderPermutes(words);
    OneColumn(Rows(words));
    forall k | 0 <= k < |columns|
      ensures SolidLines(columns[k])
    {
      forall line, w: Word | line in columns[k] && w in line
        ensures Solid(IsSpace, w.text)
      {
        FlattenMembers(columns[k], line, w);
        assert columns[k] in columns;
        LineOfLayout(columns, columns[k], line, w);
        assert w in multiset(ReadingOrder(words));
      }
    }
  }

  lemma OneColumn(rows: seq<seq<Word>>)
    ensures Flatten(Flatten([rows])) == Flatten(rows)
  {
    assert [rows][1..] == [];
    assert Flatten([rows]) == rows + Flatten<seq<Word>>([]);
    assert rows + [] == rows;
  }

  lemma LineOfLayout(columns: seq<seq<seq<Word>>>, column: seq<seq<Word>>, line: seq<Word>, w: Word)
    requires column in columns && line in column && w in line
    ensures w in Flatten(Flatten(columns))
  {
    FlattenMembers(columns, column, line);
    FlattenMembers(Flatten(columns), line, w);
  }

  lemma OneColumnText(rows: seq<seq<Word>>)
    ensures Join("\n\n", ColumnTexts([rows])) == RowsText(rows)
  {
    assert [rows][1..] == [];
    assert ColumnTexts([rows]) == [Join("\n", Lines(rows))];
  }

  /** The text of a page determines its layout: read at newlines, empty lines and blanks, it gives back
      each emitted column, each of its lines, and each of their words, in order; an empty page has no text. */
  lemma PageTextReads(words: seq<Word>)
    requires SolidWords(words)
    ensures words == [] ==> PageText.PageText(words) == ""
    ensures words != [] ==> Read(PageText.PageText(words)) == ColumnTextsOf(ColumnsOf(words))
  {
    if words != [] {
      LayoutLines(words);
      LayoutSolid(words);
      ColumnsRead(ColumnsOf(words));
      OneColumnText(Rows(words));
    }
  }
}
