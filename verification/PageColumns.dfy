/**
 * Columns of a CV page (app/cv/text_extraction.py `_row_segments`, `_find_column_boundaries`,
 * `_column_index`): segments of a row, clusters of column starts, boundaries between columns.
 */
module PageColumns {
  import opened Sequences
  import opened StableSort
  import opened Splitting
  import opened PageRows

  const COLUMN_GAP_THRESHOLD := 10.0
  const COLUMN_CLUSTER_TOLERANCE := 12.0
  const MIN_ROWS_FOR_COLUMN := 3

  predicate Gap(previous: Word, word: Word) {
    word.x0 - previous.x1 >= COLUMN_GAP_THRESHOLD
  }

  predicate FarStart(previous: real, start: real) {
    start - previous > COLUMN_CLUSTER_TOLERANCE
  }

  function Identity(x: real): real { x }

  function Segments(row: seq<Word>): seq<seq<Word>> {
    SplitWhen(Gap, row)
  }

  /** One more word: a gap first opens a new segment, then the word joins the last one. */
  function AddWord(segments: seq<seq<Word>>, gap: bool, word: Word): (r: seq<seq<Word>>)
    requires segments != []
    ensures r != []
  {
    var started := if gap then segments + [[]] else segments;
    started[..|started| - 1] + [started[|started| - 1] + [word]]
  }

  lemma AddWordSplits(row: seq<Word>, i: nat)
    requires 0 < i < |row|
    ensures Segments(row[..i]) != []
    ensures Segments(row[..i + 1]) == AddWord(Segments(row[..i]), Gap(row[i - 1], row[i]), row[i])
  {
    var segments := Segments(row[..i]);
    assert row[..i + 1] == row[..i] + [row[i]];
    assert row[..i][i - 1] == row[i - 1];
    SplitSnoc(Gap, row[..i], row[i]);
    assert (segments + [[]])[..|segments|] == segments;
    assert [] + [row[i]] == [row[i]];
  }

  /** `_row_segments`; the source indexes `row[0]`, so the row is not empty. */
  method RowSegments(row: seq<Word>) returns (segments: seq<seq<Word>>)
    requires row != []
    ensures segments == Segments(row)
  {
    segments := [[row[0]]];
    assert row[..1] == [row[0]];
    FirstSegment(row[0]);
    var i := 1;
    while i < |row|
      invariant 1 <= i <= |row|
      invariant segments == Segments(row[..i])
    {
      AddWordSplits(row, i);
      var gap := row[i].x0 - row[i - 1].x1 >= COLUMN_GAP_THRESHOLD;
      if gap {
        segments := segments + [[]];
      }
      segments := segments[..|segments| - 1] + [segments[|segments| - 1] + [row[i]]];
      i := i + 1;
    }
    assert row[..i] == row;
  }

  /** The left edges that follow a gap in one row. */
  function GapStarts(row: seq<Word>): seq<real>
    decreases |row|
  {
    if |row| < 2 then []
    else
      var n := |row| - 1;
      if Gap(row[n - 1], row[n]) then GapStarts(row[..n]) + [row[n].x0] else GapStarts(row[..n])
  }

  function AllGapStarts(rows: seq<seq<Word>>): seq<real>
    decreases |rows|
  {
    if rows == [] then [] else AllGapStarts(rows[..|rows| - 1]) + GapStarts(rows[|rows| - 1])
  }

  function Clusters(starts: seq<real>): seq<seq<real>> {
    SplitWhen(FarStart, starts)
  }

  function Sum(c: seq<real>): real
    decreases |c|
  {
    if c == [] then 0.0 else Sum(c[..|c| - 1]) + c[|c| - 1]
  }

  function Mean(c: seq<real>): real
    requires c != []
  {
    Sum(c) / (|c| as real)
  }

  /** The means of the clusters that recur often enough. */
  function Means(clusters: seq<seq<real>>): seq<real>
    decreases |clusters|
  {
    if clusters == [] then []
    else
      var last := clusters[|clusters| - 1];
      var means := Means(clusters[..|clusters| - 1]);
      if |last| >= MIN_ROWS_FOR_COLUMN then means + [Mean(last)] else means
  }

  function Boundaries(rows: seq<seq<Word>>): seq<real> {
    SortBy(Identity, Means(Clusters(SortBy(Identity, AllGapStarts(rows)))))
  }

  lemma GapStartsStep(row: seq<Word>, i: nat)
    requires 0 < i < |row|
    ensures GapStarts(row[..i + 1]) == GapStarts(row[..i]) + (if Gap(row[i - 1], row[i]) then [row[i].x0] else [])
  {
    assert row[..i + 1][..i] == row[..i];
  }

  /** The inner generator of `column_starts`, over one row. */
  method RowStarts(row: seq<Word>) returns (starts: seq<real>)
    ensures starts == GapStarts(row)
  {
    starts := [];
    if row == [] { return; }
    var i := 1;
    while i < |row|
      invariant 1 <= i <= |row|
      invariant starts == GapStarts(row[..i])
    {
      GapStartsStep(row, i);
      if row[i].x0 - row[i - 1].x1 >= COLUMN_GAP_THRESHOLD {
        starts := starts + [row[i].x0];
      }
      i := i + 1;
    }
    assert row[..i] == row;
  }

  method GatherStarts(rows: seq<seq<Word>>) returns (starts: seq<real>)
    ensures starts == AllGapStarts(rows)
  {
    starts := [];
    for r := 0 to |rows|
      invariant starts == AllGapStarts(rows[..r])
    {
      assert rows[..r + 1][..r] == rows[..r];
      var rowStarts := RowStarts(rows[r]);
      starts := starts + rowStarts;
    }
    assert rows[..|rows|] == rows;
  }

  /** The last cluster ends with the given start. */
  predicate EndsWith(clusters: seq<seq<real>>, start: real) {
    clusters != [] &&
    var last := clusters[|clusters| - 1];
    last != [] && last[|last| - 1] == start
  }

  /** One more start: it joins the last cluster or opens a new one. */
  function AddStart(clusters: seq<seq<real>>, joins: bool, start: real): (r: seq<seq<real>>)
    requires joins ==> clusters != []
    ensures EndsWith(r, start)
  {
    if joins then clusters[..|clusters| - 1] + [clusters[|clusters| - 1] + [start]]
    else clusters + [[start]]
  }

  lemma AddStartClusters(starts: seq<real>, i: nat)
    requires i < |starts|
    ensures var joins := i > 0 && !FarStart(starts[i - 1], starts[i]);
            && (joins ==> Clusters(starts[..i]) != [])
            && Clusters(starts[..i + 1]) == AddStart(Clusters(starts[..i]), joins, starts[i])
  {
    assert starts[..i + 1] == starts[..i] + [starts[i]];
    SplitSnoc(FarStart, starts[..i], starts[i]);
    if i > 0 { assert starts[..i][i - 1] == starts[i - 1]; }
  }

  /** The loop body of the clustering. */
  method PlaceStart(clusters: seq<seq<real>>, start: real, ghost previous: real) returns (grown: seq<seq<real>>)
    requires clusters != [] ==> EndsWith(clusters, previous)
    ensures grown == AddStart(clusters, clusters != [] && !FarStart(previous, start), start)
  {
    var last := |clusters| - 1;
    if |clusters| > 0 && start - clusters[last][|clusters[last]| - 1] <= COLUMN_CLUSTER_TOLERANCE {
      return clusters[..last] + [clusters[last] + [start]];
    }
    return clusters + [[start]];
  }

  method ClusterStarts(starts: seq<real>) returns (clusters: seq<seq<real>>)
    ensures clusters == Clusters(starts)
  {
    clusters := [];
    for i := 0 to |starts|
      invariant clusters == Clusters(starts[..i])
      invariant if i == 0 then clusters == [] else EndsWith(clusters, starts[i - 1])
    {
      AddStartClusters(starts, i);
      clusters := PlaceStart(clusters, starts[i], if i > 0 then starts[i - 1] else 0.0);
    }
    assert starts[..|starts|] == starts;
  }

  method Average(cluster: seq<real>) returns (mean: real)
    requires cluster != []
    ensures mean == Mean(cluster)
  {
    var sum := 0.0;
    for i := 0 to |cluster|
      invariant sum == Sum(cluster[..i])
    {
      assert cluster[..i + 1][..i] == cluster[..i];
      sum := sum + cluster[i];
    }
    assert cluster[..|cluster|] == cluster;
    mean := sum / (|cluster| as real);
  }

  /** `_find_column_boundaries`. */
  method FindColumnBoundaries(rows: seq<seq<Word>>) returns (boundaries: seq<real>)
    ensures boundaries == Boundaries(rows)
  {
    var starts := GatherStarts(rows);
    var clusters := ClusterStarts(SortBy(Identity, starts));
    var means := [];
    for i := 0 to |clusters|
      invariant means == Means(clusters[..i])
    {
      assert clusters[..i + 1][..i] == clusters[..i];
      if |clusters[i]| >= MIN_ROWS_FOR_COLUMN {
        var mean := Average(clusters[i]);
        means := means + [mean];
      }
    }
    assert clusters[..|clusters|] == clusters;
    boundaries := SortBy(Identity, means);
  }

  // ---------------------------------------------------------------- segments

  /** Segments partition a row left to right, with gaps exactly between them. */
  lemma SegmentsSplitAtGaps(row: seq<Word>)
    ensures IsSplit(Gap, row, Segments(row))
  {
    SplitWhenIsSplit(Gap, row);
  }

  function SegmentStart(segment: seq<Word>): real {
    if segment == [] then 0.0 else segment[0].x0
  }

  /** The starts that boundaries are computed from are the left edges of the segments after the
      first: the two passes over a row agree on where it breaks. */
  lemma {:induction false} GapStartsAreSegmentStarts(row: seq<Word>)
    requires row != []
    ensures |Segments(row)| == |GapStarts(row)| + 1
    ensures forall k :: 0 < k < |Segments(row)| ==> SegmentStart(Segments(row)[k]) == GapStarts(row)[k - 1]
    ensures SegmentStart(Segments(row)[0]) == row[0].x0
    decreases |row|
  {
    var n := |row| - 1;
    if n == 0 {
      assert row == [row[0]];
      FirstSegment(row[0]);
    } else {
      SegmentsStep(row);
      GapStartsAreSegmentStarts(row[..n]);
      assert row[..n][0] == row[0];
    }
  }

  /** One more word moves no segment's start, and starts a segment exactly after a gap. */
  predicate KeepsStarts(before: seq<seq<Word>>, after: seq<seq<Word>>, gap: bool, word: Word) {
    && |after| == |before| + (if gap then 1 else 0)
    && (forall k :: 0 <= k < |before| ==> SegmentStart(after[k]) == SegmentStart(before[k]))
    && (gap ==> SegmentStart(after[|before|]) == word.x0)
  }

  lemma AddWordKeepsStarts(segments: seq<seq<Word>>, gap: bool, word: Word)
    requires segments != [] && segments[|segments| - 1] != []
    ensures KeepsStarts(segments, AddWord(segments, gap, word), gap, word)
  {
    var after := AddWord(segments, gap, word);
    if gap {
      var started := segments + [[]];
      assert started[..|segments|] == segments;
      assert after == segments + [started[|segments|] + [word]];
    } else {
      assert forall k :: 0 <= k < |segments| - 1 ==> after[k] == segments[k];
    }
  }

  lemma LastSegmentHoldsAWord(row: seq<Word>)
    requires row != []
    ensures Segments(row) != [] && Segments(row)[|Segments(row)| - 1] != []
  {
    SplitWhenIsSplit(Gap, row);
  }

  lemma FirstSegment(word: Word)
    ensures Segments([word]) == [[word]]
  {
    assert [] + [word] == [word];
    SplitSnoc(Gap, [], word);
  }

  /** One more word either opens a segment or joins the last one, whose start it does not move. */
  lemma SegmentsStep(row: seq<Word>)
    requires |row| > 1
    ensures var n := |row| - 1;
            KeepsStarts(Segments(row[..n]), Segments(row), Gap(row[n - 1], row[n]), row[n])
  {
    var n := |row| - 1;
    LastSegmentHoldsAWord(row[..n]);
    AddWordSplits(row, n);
    assert row[..n + 1] == row;
    AddWordKeepsStarts(Segments(row[..n]), Gap(row[n - 1], row[n]), row[n]);
  }

  // ---------------------------------------------------------------- clusters

  /** Two starts are connected when a chain of starts joins them, each within tolerance of the next. */
  ghost predicate Connected(starts: seq<real>, i: nat, j: nat) {
    exists path: seq<nat> :: IsPath(starts, path, i, j)
  }

  ghost predicate IsPath(starts: seq<real>, path: seq<nat>, i: nat, j: nat) {
    && path != [] && path[0] == i && path[|path| - 1] == j
    && (forall k :: 0 <= k < |path| ==> path[k] < |starts|)
    && (forall k :: 0 <= k < |path| - 1 ==> Abs(starts[path[k + 1]] - starts[path[k]]) <= COLUMN_CLUSTER_TOLERANCE)
  }

  /** Starts on either side of a break are farther apart than the tolerance. */
  lemma AcrossBreak(starts: seq<real>, i: nat, k: nat, j: nat)
    requires Ascending(Identity, starts)
    requires i <= k && k + 1 < |starts| && FarStart(starts[k], starts[k + 1]) && j < |starts|
    ensures j > k ==> Abs(starts[j] - starts[i]) > COLUMN_CLUSTER_TOLERANCE
  {
    assert i < k ==> Identity(starts[i]) <= Identity(starts[k]);
    assert k + 1 < j ==> Identity(starts[k + 1]) <= Identity(starts[j]);
  }

  /** A path cannot jump a break. */
  lemma {:induction false} PathStaysLeft(starts: seq<real>, path: seq<nat>, i: nat, j: nat, k: nat)
    requires Ascending(Identity, starts)
    requires IsPath(starts, path, i, j)
    requires i <= k && k + 1 < |starts| && FarStart(starts[k], starts[k + 1])
    ensures j <= k
    decreases |path|
  {
    if |path| > 1 {
      var next := path[1];
      assert Abs(starts[path[0 + 1]] - starts[path[0]]) <= COLUMN_CLUSTER_TOLERANCE;
      AcrossBreak(starts, i, k, next);
      var rest := path[1..];
      forall m | 0 <= m < |rest| - 1
        ensures Abs(starts[rest[m + 1]] - starts[rest[m]]) <= COLUMN_CLUSTER_TOLERANCE
      {
        assert rest[m] == path[m + 1] && rest[m + 1] == path[m + 1 + 1];
      }
      assert IsPath(starts, rest, next, j);
      PathStaysLeft(starts, rest, next, j, k);
    }
  }

  lemma {:induction false} UnbrokenIsConnected(starts: seq<real>, i: nat, j: nat)
    requires Ascending(Identity, starts)
    requires i <= j < |starts| && Unbroken(FarStart, starts, i, j)
    ensures Connected(starts, i, j)
    decreases j - i
  {
    if i == j {
      assert IsPath(starts, [i], i, j);
    } else {
      UnbrokenIsConnected(starts, i, j - 1);
      var path :| IsPath(starts, path, i, j - 1);
      assert !FarStart(starts[j - 1], starts[j - 1 + 1]);
      assert Identity(starts[j - 1]) <= Identity(starts[j]);
      PathExtends(starts, path, i, j - 1, j);
    }
  }

  lemma PathExtends(starts: seq<real>, path: seq<nat>, i: nat, j: nat, next: nat)
    requires IsPath(starts, path, i, j) && next < |starts|
    requires Abs(starts[next] - starts[j]) <= COLUMN_CLUSTER_TOLERANCE
    ensures Connected(starts, i, next)
  {
    var longer := path + [next];
    forall k | 0 <= k < |longer| - 1
      ensures Abs(starts[longer[k + 1]] - starts[longer[k]]) <= COLUMN_CLUSTER_TOLERANCE
    {
      assert longer[k] == path[k];
      if k + 1 < |path| { assert longer[k + 1] == path[k + 1]; }
    }
    assert IsPath(starts, longer, i, next);
  }

  /** Clusters are exactly the connected components of "within tolerance": two starts share a
      cluster if and only if a chain of starts connects them. */
  lemma ClustersAreComponents(starts: seq<real>, i: nat, j: nat)
    requires Ascending(Identity, starts) && i <= j < |starts|
    ensures PartIndex(Clusters(starts), i) == PartIndex(Clusters(starts), j) <==> Connected(starts, i, j)
  {
    SplitWhenIsSplit(FarStart, starts);
    SharedPartIffUnbroken(FarStart, starts, Clusters(starts), i, j);
    if Unbroken(FarStart, starts, i, j) {
      UnbrokenIsConnected(starts, i, j);
    } else if Connected(starts, i, j) {
      var path :| IsPath(starts, path, i, j);
      var k :| i <= k < j && FarStart(starts[k], starts[k + 1]);
      PathStaysLeft(starts, path, i, j, k);
    }
  }

  // ---------------------------------------------------------------- boundaries

  lemma {:induction false} SumBounds(c: seq<real>, lo: real, hi: real)
    requires forall i :: 0 <= i < |c| ==> lo <= c[i] <= hi
    ensures lo * (|c| as real) <= Sum(c) <= hi * (|c| as real)
    decreases |c|
  {
    if c != [] {
      var n := |c| - 1;
      SumBounds(c[..n], lo, hi);
      assert |c| as real == (n as real) + 1.0;
      assert lo * ((n as real) + 1.0) == lo * (n as real) + lo;
      assert hi * ((n as real) + 1.0) == hi * (n as real) + hi;
    }
  }

  lemma ScaleOrder(a: real, b: real, n: real)
    requires n > 0.0
    ensures a * n <= b * n ==> a <= b
  {
    if a > b { Positive(a - b, n); }
  }

  lemma Positive(a: real, n: real)
    requires a > 0.0 && n > 0.0
    ensures a * n > 0.0
  {
  }

  lemma DivideBounds(s: real, n: real, lo: real, hi: real)
    requires n > 0.0 && lo * n <= s <= hi * n
    ensures lo <= s / n <= hi
  {
    assert (s / n) * n == s;
    ScaleOrder(lo, s / n, n);
    ScaleOrder(s / n, hi, n);
  }

  /** A mean lies between the least and the greatest member. */
  lemma MeanBetween(c: seq<real>)
    requires c != [] && Ascending(Identity, c)
    ensures c[0] <= Mean(c) <= c[|c| - 1]
  {
    forall i | 0 <= i < |c|
      ensures c[0] <= c[i] <= c[|c| - 1]
    {
      assert i > 0 ==> Identity(c[0]) <= Identity(c[i]);
      assert i < |c| - 1 ==> Identity(c[i]) <= Identity(c[|c| - 1]);
    }
    SumBounds(c, c[0], c[|c| - 1]);
    DivideBounds(Sum(c), |c| as real, c[0], c[|c| - 1]);
  }

  /** Ascending, and each member more than the tolerance above the one before. */
  ghost predicate Separated(bs: seq<real>) {
    forall i, j :: 0 <= i < j < |bs| ==> bs[j] - bs[i] > COLUMN_CLUSTER_TOLERANCE
  }

  lemma AscendingHalves(a: seq<real>, b: seq<real>)
    requires Ascending(Identity, a + b)
    ensures Ascending(Identity, a) && Ascending(Identity, b)
    ensures a != [] && b != [] ==> a[|a| - 1] <= b[0]
  {
    var s := a + b;
    forall i, j | 0 <= i < j < |a| ensures Identity(a[i]) <= Identity(a[j]) {
      assert s[i] == a[i] && s[j] == a[j];
    }
    forall i, j | 0 <= i < j < |b| ensures Identity(b[i]) <= Identity(b[j]) {
      assert s[|a| + i] == b[i] && s[|a| + j] == b[j];
    }
    if a != [] && b != [] { assert Identity(s[|a| - 1]) <= Identity(s[|a|]); }
  }

  /** A split without its last part splits what is before it. */
  lemma SplitFront(breaks: (real, real) -> bool, s: seq<real>, parts: seq<seq<real>>)
    requires IsSplit(breaks, s, parts) && parts != []
    ensures var n := |parts| - 1;
            && IsSplit(breaks, Flatten(parts[..n]), parts[..n])
            && s == Flatten(parts[..n]) + parts[n]
            && (n > 0 ==> Flatten(parts[..n]) != [] && parts[n] != []
                          && breaks(Flatten(parts[..n])[|Flatten(parts[..n])| - 1], parts[n][0]))
  {
    var n := |parts| - 1;
    assert parts == parts[..n] + [parts[n]];
    FlattenSnoc(parts[..n], parts[n]);
    if n > 0 {
      assert parts[..n][0] != [];
      assert Flatten(parts[..n]) == parts[..n][0] + Flatten(parts[..n][1..]);
      SplitEnds(breaks, Flatten(parts[..n]), parts[..n]);
      assert breaks(parts[n - 1][|parts[n - 1]| - 1], parts[n - 1 + 1][0]);
    }
  }

  /** The last cluster of ordered starts lies wholly beyond a break after the ones before it. */
  lemma LastCluster(starts: seq<real>, clusters: seq<seq<real>>)
    requires Ascending(Identity, starts) && IsSplit(FarStart, starts, clusters) && clusters != []
    ensures var n := |clusters| - 1;
            var lo, last := Flatten(clusters[..n]), clusters[n];
            && IsSplit(FarStart, lo, clusters[..n]) && Ascending(Identity, lo)
            && last != [] && Ascending(Identity, last)
            && starts != [] && starts[|starts| - 1] == last[|last| - 1]
            && (lo != [] ==> last[0] - lo[|lo| - 1] > COLUMN_CLUSTER_TOLERANCE)
  {
    var n := |clusters| - 1;
    SplitFront(FarStart, starts, clusters);
    AscendingHalves(Flatten(clusters[..n]), clusters[n]);
    if n == 0 { assert clusters[..n] == []; }
  }

  /** Separated, and nowhere above the given bound. */
  ghost predicate SeparatedBelow(bs: seq<real>, starts: seq<real>) {
    Separated(bs) && (bs != [] ==> starts != [] && bs[|bs| - 1] <= starts[|starts| - 1])
  }

  lemma {:induction false} MeansSeparated(starts: seq<real>, clusters: seq<seq<real>>)
    requires Ascending(Identity, starts) && IsSplit(FarStart, starts, clusters)
    ensures SeparatedBelow(Means(clusters), starts)
    decreases |clusters|
  {
    if clusters != [] {
      var n := |clusters| - 1;
      var lo, last := Flatten(clusters[..n]), clusters[n];
      LastCluster(starts, clusters);
      MeansSeparated(lo, clusters[..n]);
      MeanBetween(last);
      var before := Means(clusters[..n]);
      assert before != [] ==> before[|before| - 1] <= lo[|lo| - 1] < last[0];
      assert last[0] <= Mean(last) <= starts[|starts| - 1];
      SeparatedSnocIfFar(before, Mean(last));
    }
  }

  lemma SeparatedSnocIfFar(bs: seq<real>, b: real)
    requires Separated(bs)
    ensures (bs != [] ==> b - bs[|bs| - 1] > COLUMN_CLUSTER_TOLERANCE) ==> Separated(bs + [b])
  {
  }

  /** Boundaries come out ascending and more than the cluster tolerance apart, so the source's
      final sort changes nothing. */
  lemma BoundariesSeparated(rows: seq<seq<Word>>)
    ensures Separated(Boundaries(rows))
    ensures Boundaries(rows) == Means(Clusters(SortBy(Identity, AllGapStarts(rows))))
  {
    var starts := SortBy(Identity, AllGapStarts(rows));
    SortByAscending(Identity, AllGapStarts(rows));
    SplitWhenIsSplit(FarStart, starts);
    MeansSeparated(starts, Clusters(starts));
    SortByIdentity(Identity, Means(Clusters(starts)));
  }

  // ---------------------------------------------------------------- column index

  function ColumnIndex(x: real, boundaries: seq<real>): (index: nat)
    ensures index <= |boundaries|
    ensures forall i :: 0 <= i < index ==> boundaries[i] <= x
    ensures index < |boundaries| ==> x < boundaries[index]
  {
    if boundaries == [] || x < boundaries[0] then 0 else 1 + ColumnIndex(x, boundaries[1..])
  }

  /** Farther right never means an earlier column. */
  lemma ColumnIndexMonotone(x: real, y: real, boundaries: seq<real>)
    requires x <= y
    ensures ColumnIndex(x, boundaries) <= ColumnIndex(y, boundaries)
  {
  }

  /** On separated boundaries the index is exactly the number of boundaries at or left of x. */
  lemma ColumnIndexCounts(x: real, boundaries: seq<real>, i: nat)
    requires Separated(boundaries) && i < |boundaries|
    ensures boundaries[i] <= x <==> i < ColumnIndex(x, boundaries)
  {
    var k := ColumnIndex(x, boundaries);
    if i > k { assert boundaries[i] - boundaries[k] > COLUMN_CLUSTER_TOLERANCE; }
  }

  lemma {:induction false} PartMember(parts: seq<seq<real>>, c: nat, x: real)
    requires c < |parts| && x in parts[c]
    ensures x in Flatten(parts)
  {
    if c > 0 { PartMember(parts[1..], c - 1, x); }
  }

  lemma LeastAndGreatest(s: seq<real>, x: real)
    requires Ascending(Identity, s) && x in s
    ensures s[0] <= x <= s[|s| - 1]
  {
    var i :| 0 <= i < |s| && s[i] == x;
    assert i > 0 ==> Identity(s[0]) <= Identity(s[i]);
    assert i < |s| - 1 ==> Identity(s[i]) <= Identity(s[|s| - 1]);
  }

  /** The k-th boundary is the cluster's mean; those before it are left of x and those after it right. */
  ghost predicate OwnBoundary(bs: seq<real>, k: nat, cluster: seq<real>, x: real) {
    && cluster != [] && k < |bs| && bs[k] == Mean(cluster)
    && (forall i :: 0 <= i < k ==> bs[i] < x)
    && (forall i :: k < i < |bs| ==> x < bs[i])
  }

  /** A start of the last cluster lies right of every earlier boundary. */
  lemma EarlierBoundariesLeft(starts: seq<real>, clusters: seq<seq<real>>, x: real)
    requires Ascending(Identity, starts) && IsSplit(FarStart, starts, clusters)
    requires clusters != [] && x in clusters[|clusters| - 1]
    ensures var before := Means(clusters[..|clusters| - 1]);
            forall i :: 0 <= i < |before| ==> before[i] < x
  {
    var n := |clusters| - 1;
    var lo, before := Flatten(clusters[..n]), Means(clusters[..n]);
    LastCluster(starts, clusters);
    MeansSeparated(lo, clusters[..n]);
    LeastAndGreatest(clusters[n], x);
    forall i | 0 <= i < |before|
      ensures before[i] < x
    {
      assert i < |before| - 1 ==> before[|before| - 1] - before[i] > COLUMN_CLUSTER_TOLERANCE;
    }
  }

  /** A start of an earlier cluster lies left of the last cluster's mean. */
  lemma LastMeanRight(starts: seq<real>, clusters: seq<seq<real>>, c: nat, x: real)
    requires Ascending(Identity, starts) && IsSplit(FarStart, starts, clusters)
    requires c < |clusters| - 1 && x in clusters[c]
    ensures clusters[|clusters| - 1] != [] && x < Mean(clusters[|clusters| - 1])
  {
    var n := |clusters| - 1;
    LastCluster(starts, clusters);
    assert clusters[..n][c] == clusters[c];
    PartMember(clusters[..n], c, x);
    LeastAndGreatest(Flatten(clusters[..n]), x);
    MeanBetween(clusters[n]);
  }

  lemma OwnBoundarySnoc(bs: seq<real>, k: nat, cluster: seq<real>, x: real, b: real)
    requires OwnBoundary(bs, k, cluster, x) && x < b
    ensures OwnBoundary(bs + [b], k, cluster, x)
  {
  }

  lemma {:induction false} StartsBetweenBoundaries(starts: seq<real>, clusters: seq<seq<real>>, c: nat, x: real)
    requires Ascending(Identity, starts) && IsSplit(FarStart, starts, clusters)
    requires c < |clusters| && |clusters[c]| >= MIN_ROWS_FOR_COLUMN && x in clusters[c]
    ensures OwnBoundary(Means(clusters), |Means(clusters[..c])|, clusters[c], x)
    decreases |clusters|
  {
    var n := |clusters| - 1;
    if c == n {
      EarlierBoundariesLeft(starts, clusters, x);
    } else {
      assert clusters[..n][..c] == clusters[..c] && clusters[..n][c] == clusters[c];
      LastMeanRight(starts, clusters, c, x);
      SplitFrontOrdered(starts, clusters);
      StartsBetweenBoundaries(Flatten(clusters[..n]), clusters[..n], c, x);
      OwnBoundarySnoc(Means(clusters[..n]), |Means(clusters[..c])|, clusters[c], x, Mean(clusters[n]));
    }
  }

  lemma SplitFrontOrdered(starts: seq<real>, clusters: seq<seq<real>>)
    requires Ascending(Identity, starts) && IsSplit(FarStart, starts, clusters) && clusters != []
    ensures var front := clusters[..|clusters| - 1];
            IsSplit(FarStart, Flatten(front), front) && Ascending(Identity, Flatten(front))
  {
    LastCluster(starts, clusters);
  }

  /** The start of a recurring column is indexed into that column exactly when it is at or right of
      the mean of its cluster, and otherwise into the column before it; nowhere else. */
  lemma StartLandsInItsColumn(rows: seq<seq<Word>>, c: nat, x: real)
    requires var clusters := Clusters(SortBy(Identity, AllGapStarts(rows)));
             c < |clusters| && |clusters[c]| >= MIN_ROWS_FOR_COLUMN && x in clusters[c]
    ensures var clusters := Clusters(SortBy(Identity, AllGapStarts(rows)));
            var k := |Means(clusters[..c])|;
            && k < |Boundaries(rows)| && Boundaries(rows)[k] == Mean(clusters[c])
            && ColumnIndex(x, Boundaries(rows)) == (if x >= Mean(clusters[c]) then k + 1 else k)
  {
    var starts := SortBy(Identity, AllGapStarts(rows));
    var clusters := Clusters(starts);
    BoundariesSeparated(rows);
    SortByAscending(Identity, AllGapStarts(rows));
    SplitWhenIsSplit(FarStart, starts);
    StartsBetweenBoundaries(starts, clusters, c, x);
    IndexAtOwnBoundary(Boundaries(rows), |Means(clusters[..c])|, clusters[c], x);
  }

  lemma IndexAtOwnBoundary(bs: seq<real>, k: nat, cluster: seq<real>, x: real)
    requires OwnBoundary(bs, k, cluster, x)
    ensures ColumnIndex(x, bs) == (if x >= bs[k] then k + 1 else k)
  {
    var index := ColumnIndex(x, bs);
    assert index < |bs| ==> x < bs[index];
    assert index > k ==> bs[k] <= x;
    assert k + 1 < |bs| ==> x < bs[k + 1];
  }

  lemma ThreeStarts(x: real, y: real, z: real)
    requires !FarStart(x, y) && !FarStart(y, z)
    ensures Clusters([x, y, z]) == [[x, y, z]]
    ensures Mean([x, y, z]) == (x + y + z) / 3.0
  {
    var one, two := [x], [x, y];
    assert [] + [x] == one && one + [y] == two && two + [z] == [x, y, z];
    SplitSnoc(FarStart, [], x);
    SplitSnoc(FarStart, one, y);
    SplitSnoc(FarStart, two, z);
    SumSnoc([], x);
    SumSnoc(one, y);
    SumSnoc(two, z);
  }

  /** A row of two words, the second starting a column at `start`. */
  function TwoWords(start: real, top: real): seq<Word> {
    [Word("left", 0.0, 50.0, top), Word("right", start, start + 20.0, top)]
  }

  lemma TwoWordsSplit(start: real, top: real)
    requires start >= 60.0
    ensures GapStarts(TwoWords(start, top)) == [start]
    ensures Segments(TwoWords(start, top)) == [[TwoWords(start, top)[0]], [TwoWords(start, top)[1]]]
  {
    var row := TwoWords(start, top);
    assert row[..1] == [row[0]] && row == [row[0]] + [row[1]];
    assert GapStarts(row[..1]) == [];
    FirstSegment(row[0]);
    SplitSnoc(Gap, [row[0]], row[1]);
  }

  lemma AllGapStartsSnoc(rows: seq<seq<Word>>, row: seq<Word>)
    ensures AllGapStarts(rows + [row]) == AllGapStarts(rows) + GapStarts(row)
  {
    assert (rows + [row])[..|rows|] == rows;
  }

  lemma ThreeRowStarts(a: seq<Word>, b: seq<Word>, c: seq<Word>)
    ensures AllGapStarts([a, b, c]) == GapStarts(a) + GapStarts(b) + GapStarts(c)
  {
    assert AllGapStarts([a]) == GapStarts(a) by {
      AllGapStartsSnoc([], a);
      assert [] + [a] == [a];
    }
    assert AllGapStarts([a, b]) == GapStarts(a) + GapStarts(b) by {
      AllGapStartsSnoc([a], b);
      assert [a] + [b] == [a, b];
    }
    AllGapStartsSnoc([a, b], c);
    assert [a, b] + [c] == [a, b, c];
  }

  lemma OneMean(cluster: seq<real>)
    requires |cluster| >= MIN_ROWS_FOR_COLUMN
    ensures Means([cluster]) == [Mean(cluster)]
  {
    assert [cluster][..0] == [];
  }

  lemma ThreeRows(x: real, y: real, z: real)
    requires 60.0 <= x <= y <= z && !FarStart(x, y) && !FarStart(y, z)
    ensures Boundaries([TwoWords(x, 0.0), TwoWords(y, 10.0), TwoWords(z, 20.0)]) == [(x + y + z) / 3.0]
  {
    TwoWordsSplit(x, 0.0);
    TwoWordsSplit(y, 10.0);
    TwoWordsSplit(z, 20.0);
    ThreeRowStarts(TwoWords(x, 0.0), TwoWords(y, 10.0), TwoWords(z, 20.0));
    var starts := [x, y, z];
    assert [x] + [y] + [z] == starts;
    SortByIdentity(Identity, starts);
    ThreeStarts(x, y, z);
    OneMean(starts);
    BoundariesSeparated([TwoWords(x, 0.0), TwoWords(y, 10.0), TwoWords(z, 20.0)]);
  }

  /** For instance on a page of three rows whose second column starts at 100, 100 and 103, the one
      boundary is at 101: the first two rows' right-hand segments are put into the left column,
      the third row's into the right one. */
  lemma StartLeftOfItsColumn()
    ensures var rows := [TwoWords(100.0, 0.0), TwoWords(100.0, 10.0), TwoWords(103.0, 20.0)];
            && Boundaries(rows) == [101.0]
            && (forall r :: 0 <= r < 3 ==> |Segments(rows[r])| == 2)
            && ColumnIndex(SegmentStart(Segments(rows[0])[1]), Boundaries(rows)) == 0
            && ColumnIndex(SegmentStart(Segments(rows[1])[1]), Boundaries(rows)) == 0
            && ColumnIndex(SegmentStart(Segments(rows[2])[1]), Boundaries(rows)) == 1
  {
    ThreeRows(100.0, 100.0, 103.0);
    TwoWordsSplit(100.0, 0.0);
    TwoWordsSplit(100.0, 10.0);
    TwoWordsSplit(103.0, 20.0);
    assert ColumnIndex(103.0, [101.0]) == 1;
  }

  lemma SumSnoc(c: seq<real>, x: real)
    ensures Sum(c + [x]) == Sum(c) + x
  {
    assert (c + [x])[..|c|] == c;
  }

  /** Within a row the segments' column indices never decrease. */
  lemma SegmentColumnsAscend(row: seq<Word>, boundaries: seq<real>, k: nat, m: nat)
    requires row != [] && Ascending(Left, row)
    requires k <= m < |Segments(row)|
    ensures ColumnIndex(SegmentStart(Segments(row)[k]), boundaries) <= ColumnIndex(SegmentStart(Segments(row)[m]), boundaries)
  {
    SegmentStartsAscend(row, k, m);
    ColumnIndexMonotone(SegmentStart(Segments(row)[k]), SegmentStart(Segments(row)[m]), boundaries);
  }

  lemma {:induction false} SegmentStartsAscend(row: seq<Word>, k: nat, m: nat)
    requires row != [] && Ascending(Left, row)
    requires k <= m < |Segments(row)|
    ensures SegmentStart(Segments(row)[k]) <= SegmentStart(Segments(row)[m])
    ensures SegmentStart(Segments(row)[m]) <= row[|row| - 1].x0
    decreases |row|
  {
    var n := |row| - 1;
    if n == 0 {
      assert row == [row[0]];
      FirstSegment(row[0]);
    } else {
      SegmentsStep(row);
      assert Left(row[n - 1]) <= Left(row[n]);
      var before := Segments(row[..n]);
      if m < |before| {
        SegmentStartsAscend(row[..n], k, m);
      } else if k < |before| {
        SegmentStartsAscend(row[..n], k, k);
      }
    }
  }
}
