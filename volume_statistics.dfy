/**
 * Per-region statistics of a segmented label volume: the distinct labels in
 * ascending order, the number of voxels holding each, the optional conversion
 * of counts to physical volume, the join against the region lookup table, and
 * the stable sort of the resulting rows.
 */
module VolumeStatistics {
  import opened Wrappers
  import opened Text
  import opened RegionCatalog

  // ---------------------------------------------------------------------------
  // Label volumes

  function Product(shape: seq<nat>): nat {
    if shape == [] then 1 else shape[0] * Product(shape[1..])
  }

  /** An n-dimensional array of region labels: its shape and its voxels, flattened. */
  datatype LabelArray = LabelArray(shape: seq<nat>, voxels: seq<int>)

  /** A label array with one voxel per cell of its shape. */
  type LabelStack = a: LabelArray | |a.voxels| == Product(a.shape) witness LabelArray([], [0])

  /** The number of voxels holding the given label. */
  function Count(voxels: seq<int>, region: int): (n: nat)
    ensures n <= |voxels|
    ensures n > 0 <==> region in voxels
  {
    if voxels == [] then 0
    else Count(voxels[..|voxels| - 1], region) + (if voxels[|voxels| - 1] == region then 1 else 0)
  }

  /** The positions of the voxels holding the given label. */
  function Positions(voxels: seq<int>, region: int): set<int> {
    set i | 0 <= i < |voxels| && voxels[i] == region
  }

  /** Count is the number of positions holding the label. */
  lemma {:induction false} CountIsPositions(voxels: seq<int>, region: int)
    ensures Count(voxels, region) == |Positions(voxels, region)|
  {
    if voxels != [] {
      var n := |voxels| - 1;
      var init := voxels[..n];
      CountIsPositions(init, region);
      assert n !in Positions(init, region);
      if voxels[n] == region {
        assert Positions(voxels, region) == Positions(init, region) + {n};
      } else {
        assert Positions(voxels, region) == Positions(init, region);
      }
    }
  }

  // ---------------------------------------------------------------------------
  // Distinct labels in ascending order

  predicate StrictlyIncreasing(s: seq<int>) {
    forall i, j :: 0 <= i < j < |s| ==> s[i] < s[j]
  }

  /** s with x inserted in its place, unless x is already there. */
  function InsertSorted(s: seq<int>, x: int): (r: seq<int>)
    requires StrictlyIncreasing(s)
    ensures StrictlyIncreasing(r)
    ensures forall y :: y in r <==> y in s || y == x
  {
    if s == [] then [x]
    else if x < s[0] then [x] + s
    else if x == s[0] then s
    else
      var rest := InsertSorted(s[1..], x);
      assert forall y :: y in rest ==> s[0] < y;
      ConsIncreasing(s[0], rest);
      [s[0]] + rest
  }

  /** np.unique of the voxels: every label present, once, ascending. */
  function UniqueLabels(voxels: seq<int>): (r: seq<int>)
    ensures StrictlyIncreasing(r)
    ensures forall x :: x in r <==> x in voxels
  {
    if voxels == [] then []
    else
      var n := |voxels| - 1;
      var r := InsertSorted(UniqueLabels(voxels[..n]), voxels[n]);
      assert forall x :: x in voxels <==> x in voxels[..n] || x == voxels[n] by {
        assert voxels == voxels[..n] + [voxels[n]];
      }
      r
  }

  /** Two ascending sequences without repeats that hold the same elements are equal. */
  lemma {:induction false} StrictlyIncreasingUnique(a: seq<int>, b: seq<int>)
    requires StrictlyIncreasing(a) && StrictlyIncreasing(b)
    requires forall x :: x in a <==> x in b
    ensures a == b
  {
    if a != [] {
      assert a[0] in a;
      var j :| 0 <= j < |b| && b[j] == a[0];
    }
    if b != [] {
      assert b[0] in b;
      var j :| 0 <= j < |a| && a[j] == b[0];
    }
    if a != [] && b != [] {
      assert a[0] == b[0];
      forall x ensures x in a[1..] <==> x in b[1..] {
        if x in a[1..] {
          var i :| 0 <= i < |a[1..]| && a[1..][i] == x;
          assert a[i + 1] == x && x != a[0];
          assert x in a && x in b;
          var j :| 0 <= j < |b| && b[j] == x;
          assert b[1..][j - 1] == x;
        }
        if x in b[1..] {
          var i :| 0 <= i < |b[1..]| && b[1..][i] == x;
          assert b[i + 1] == x && x != b[0];
          assert x in b && x in a;
          var j :| 0 <= j < |a| && a[j] == x;
          assert a[1..][j - 1] == x;
        }
      }
      StrictlyIncreasingUnique(a[1..], b[1..]);
    }
  }

  lemma ConsIncreasing(x: int, s: seq<int>)
    requires StrictlyIncreasing(s) && forall y :: y in s ==> x < y
    ensures StrictlyIncreasing([x] + s)
  {
    forall i, j | 0 <= i < j < |[x] + s| ensures ([x] + s)[i] < ([x] + s)[j] {
      assert ([x] + s)[j] == s[j - 1];
      if i > 0 {
        assert ([x] + s)[i] == s[i - 1];
      } else {
        assert s[j - 1] in s;
      }
    }
  }

  /** labels[labels != 0] */
  function DropZero(labels: seq<int>): (r: seq<int>)
    ensures forall x :: x in r <==> x in labels && x != 0
    ensures StrictlyIncreasing(labels) ==> StrictlyIncreasing(r)
  {
    if labels == [] then []
    else
      var rest := DropZero(labels[1..]);
      assert StrictlyIncreasing(labels) ==> forall x :: x in rest ==> labels[0] < x by {
        if StrictlyIncreasing(labels) {
          forall x | x in rest ensures labels[0] < x {
            var i :| 0 <= i < |labels[1..]| && labels[1..][i] == x;
            assert labels[i + 1] == x;
          }
        }
      }
      if labels[0] == 0 then rest
      else
        assert StrictlyIncreasing(labels) ==> StrictlyIncreasing([labels[0]] + rest) by {
          if StrictlyIncreasing(labels) { ConsIncreasing(labels[0], rest); }
        }
        [labels[0]] + rest
  }

  /** The labels that get a row: all of them, or all but 0. */
  function KeptLabels(voxels: seq<int>, includeZero: bool): (r: seq<int>)
    ensures StrictlyIncreasing(r)
    ensures forall x :: x in r <==> x in voxels && (includeZero || x != 0)
  {
    var labels := UniqueLabels(voxels);
    if includeZero then labels else DropZero(labels)
  }

  // ---------------------------------------------------------------------------
  // Rows

  /** A voxel count, or a physical volume once a voxel scale is known. */
  datatype Measure = Voxels(count: nat) | Volume(size: real)

  datatype Row = Row(regionId: int, regionLabel: string, measure: Measure)

  /** The physical size (sx, sy, sz) of one voxel. */
  type VoxelScale = (real, real, real)

  /** The physical volume of one voxel, sx * sy * sz. */
  function VoxelVolume(scale: VoxelScale): real {
    scale.0 * scale.1 * scale.2
  }

  /** The physical volume of count voxels. */
  function ScaledVolume(count: nat, scale: VoxelScale): real {
    count as real * VoxelVolume(scale)
  }

  function MeasureOf(count: nat, scale: Option<VoxelScale>): Measure {
    match scale
    case None => Voxels(count)
    case Some(s) => Volume(ScaledVolume(count, s))
  }

  function RegionRow(voxels: seq<int>, lut: map<int, string>, scale: Option<VoxelScale>, id: int): Row {
    Row(id, LookupName(lut, id), MeasureOf(Count(voxels, id), scale))
  }

  /** The table before sorting: one row per kept region, in ascending region order. */
  function LabelRows(voxels: seq<int>, lut: map<int, string>, scale: Option<VoxelScale>, includeZero: bool): seq<Row> {
    var labels := KeptLabels(voxels, includeZero);
    seq(|labels|, i requires 0 <= i < |labels| => RegionRow(voxels, lut, scale, labels[i]))
  }

  predicate IdsIncreasing(rows: seq<Row>) {
    forall i, j :: 0 <= i < j < |rows| ==> rows[i].regionId < rows[j].regionId
  }

  // ---------------------------------------------------------------------------
  // Stable sorting

  datatype SortKey = RegionId | MeasureKey

  /** A sort column and a direction. */
  datatype Order = Order(key: SortKey, ascending: bool)

  /** The sort_by argument: "region_id" or "measure"; None for anything else. */
  function ParseSortKey(sortBy: string): (k: Option<SortKey>)
    ensures k.Some? <==> sortBy == "region_id" || sortBy == "measure"
    ensures k == Some(RegionId) <==> sortBy == "region_id"
  {
    if sortBy == "region_id" then Some(RegionId)
    else if sortBy == "measure" then Some(MeasureKey)
    else None
  }

  function MeasureValue(m: Measure): real {
    match m
    case Voxels(n) => n as real
    case Volume(v) => v
  }

  function KeyValue(row: Row, key: SortKey): real {
    match key
    case RegionId => row.regionId as real
    case MeasureKey => MeasureValue(row.measure)
  }

  /**
   * The value a row is placed by, smallest first: its key, negated for a
   * descending sort. A stable descending sort keeps equal keys in their
   * original order, as a stable ascending sort on the negated key does.
   */
  function Rank(row: Row, order: Order): real {
    if order.ascending then KeyValue(row, order.key) else -KeyValue(row, order.key)
  }

  /** The rank of an order as a function on rows: the key pandas sorts by. */
  function RankOf(order: Order): Row -> real {
    row => Rank(row, order)
  }

  predicate SortedBy(rows: seq<Row>, key: Row -> real) {
    forall i, j :: 0 <= i < j < |rows| ==> key(rows[i]) <= key(rows[j])
  }

  /** Merging two runs; on equal ranks the row of the first run goes first. */
  function MergeRuns(a: seq<Row>, b: seq<Row>, key: Row -> real): seq<Row>
    decreases |a| + |b|
  {
    if a == [] then b
    else if b == [] then a
    else if key(a[0]) <= key(b[0]) then [a[0]] + MergeRuns(a[1..], b, key)
    else [b[0]] + MergeRuns(a, b[1..], key)
  }

  /** Stable merge sort (kind="mergesort"). */
  function MergeSort(rows: seq<Row>, key: Row -> real): seq<Row>
    decreases |rows|
  {
    if |rows| <= 1 then rows
    else
      var m := |rows| / 2;
      MergeRuns(MergeSort(rows[..m], key), MergeSort(rows[m..], key), key)
  }

  lemma ConsPermutation(x: Row, xs: seq<Row>, r: seq<Row>, other: seq<Row>)
    requires multiset(r) == multiset(xs) + multiset(other)
    ensures multiset([x] + r) == multiset([x] + xs) + multiset(other)
  {
  }

  /** Merging loses and adds no row. */
  lemma {:induction false} MergeRunsPermutation(a: seq<Row>, b: seq<Row>, key: Row -> real)
    ensures multiset(MergeRuns(a, b, key)) == multiset(a) + multiset(b)
    decreases |a| + |b|
  {
    if a != [] && b != [] {
      if key(a[0]) <= key(b[0]) {
        MergeRunsPermutation(a[1..], b, key);
        ConsPermutation(a[0], a[1..], MergeRuns(a[1..], b, key), b);
        assert [a[0]] + a[1..] == a;
      } else {
        MergeRunsPermutation(a, b[1..], key);
        ConsPermutation(b[0], b[1..], MergeRuns(a, b[1..], key), a);
        assert [b[0]] + b[1..] == b;
      }
    }
  }

  lemma SplitMultiset(rows: seq<Row>, m: int)
    requires 0 <= m <= |rows|
    ensures multiset(rows) == multiset(rows[..m]) + multiset(rows[m..])
  {
    assert rows[..m] + rows[m..] == rows;
  }

  /** The sorted rows are a permutation of the input. */
  lemma {:induction false} MergeSortPermutation(rows: seq<Row>, key: Row -> real)
    ensures multiset(MergeSort(rows, key)) == multiset(rows)
    decreases |rows|
  {
    if |rows| > 1 {
      var m := |rows| / 2;
      MergeSortSplit(rows, key);
      MergeSortPermutation(rows[..m], key);
      MergeSortPermutation(rows[m..], key);
      MergeRunsPermutation(MergeSort(rows[..m], key), MergeSort(rows[m..], key), key);
      SplitMultiset(rows, m);
    }
  }

  /** Every row of rows ranks at least v. */
  predicate RanksAtLeast(rows: seq<Row>, key: Row -> real, v: real) {
    forall i :: 0 <= i < |rows| ==> v <= key(rows[i])
  }

  lemma {:induction false} MergeRanksAtLeast(a: seq<Row>, b: seq<Row>, key: Row -> real, v: real)
    requires RanksAtLeast(a, key, v) && RanksAtLeast(b, key, v)
    ensures RanksAtLeast(MergeRuns(a, b, key), key, v)
    decreases |a| + |b|
  {
    if a != [] && b != [] {
      if key(a[0]) <= key(b[0]) {
        MergeRanksAtLeast(a[1..], b, key, v);
      } else {
        MergeRanksAtLeast(a, b[1..], key, v);
      }
    }
  }

  lemma SortedCons(x: Row, s: seq<Row>, key: Row -> real)
    requires SortedBy(s, key) && RanksAtLeast(s, key, key(x))
    ensures SortedBy([x] + s, key)
  {
  }

  lemma {:induction false} MergeSorted(a: seq<Row>, b: seq<Row>, key: Row -> real)
    requires SortedBy(a, key) && SortedBy(b, key)
    ensures SortedBy(MergeRuns(a, b, key), key)
    decreases |a| + |b|
  {
    if a != [] && b != [] {
      if key(a[0]) <= key(b[0]) {
        MergeSorted(a[1..], b, key);
        MergeRanksAtLeast(a[1..], b, key, key(a[0]));
        SortedCons(a[0], MergeRuns(a[1..], b, key), key);
      } else {
        MergeSorted(a, b[1..], key);
        MergeRanksAtLeast(a, b[1..], key, key(b[0]));
        SortedCons(b[0], MergeRuns(a, b[1..], key), key);
      }
    }
  }

  /** The sorted rows are in order of rank. */
  lemma {:induction false} MergeSortSorted(rows: seq<Row>, key: Row -> real)
    ensures SortedBy(MergeSort(rows, key), key)
    decreases |rows|
  {
    if |rows| > 1 {
      var m := |rows| / 2;
      MergeSortSorted(rows[..m], key);
      MergeSortSorted(rows[m..], key);
      MergeSorted(MergeSort(rows[..m], key), MergeSort(rows[m..], key), key);
    }
  }

  /** The rows of rank k, in their order in rows. */
  function WithRank(rows: seq<Row>, key: Row -> real, k: real): seq<Row> {
    if rows == [] then []
    else (if key(rows[0]) == k then [rows[0]] else []) + WithRank(rows[1..], key, k)
  }

  lemma {:induction false} WithRankConcat(a: seq<Row>, b: seq<Row>, key: Row -> real, k: real)
    ensures WithRank(a + b, key, k) == WithRank(a, key, k) + WithRank(b, key, k)
  {
    if a != [] {
      assert (a + b)[0] == a[0];
      assert (a + b)[1..] == a[1..] + b;
      WithRankConcat(a[1..], b, key, k);
      var head := if key(a[0]) == k then [a[0]] else [];
      calc {
        WithRank(a + b, key, k);
        head + WithRank(a[1..] + b, key, k);
        head + (WithRank(a[1..], key, k) + WithRank(b, key, k));
        (head + WithRank(a[1..], key, k)) + WithRank(b, key, k);
      }
    } else {
      assert a + b == b;
    }
  }

  lemma {:induction false} WithRankNone(a: seq<Row>, key: Row -> real, k: real)
    requires forall i :: 0 <= i < |a| ==> key(a[i]) != k
    ensures WithRank(a, key, k) == []
  {
    if a != [] {
      WithRankNone(a[1..], key, k);
    }
  }

  /** The rows of rank k of a row followed by more rows. */
  lemma WithRankCons(x: Row, m: seq<Row>, key: Row -> real, k: real)
    ensures WithRank([x] + m, key, k) == (if key(x) == k then [x] else []) + WithRank(m, key, k)
  {
    assert ([x] + m)[1..] == m;
  }

  /** One merge step that takes the head of the first run keeps the rows of rank k in order. */
  lemma MergeStepFirst(a: seq<Row>, b: seq<Row>, key: Row -> real, k: real)
    requires a != [] && b != [] && key(a[0]) <= key(b[0])
    requires WithRank(MergeRuns(a[1..], b, key), key, k) == WithRank(a[1..], key, k) + WithRank(b, key, k)
    ensures WithRank(MergeRuns(a, b, key), key, k) == WithRank(a, key, k) + WithRank(b, key, k)
  {
    var m := MergeRuns(a[1..], b, key);
    assert MergeRuns(a, b, key) == [a[0]] + m;
    WithRankCons(a[0], m, key, k);
  }

  /** A sorted run whose head ranks above k holds no row of rank k. */
  lemma WithRankBelow(a: seq<Row>, key: Row -> real, k: real)
    requires a != [] && SortedBy(a, key) && k < key(a[0])
    ensures WithRank(a, key, k) == []
  {
    forall i | 0 <= i < |a|
      ensures key(a[i]) != k
    {
      if i > 0 {
        assert key(a[0]) <= key(a[i]);
      }
    }
    WithRankNone(a, key, k);
  }

  /**
   * One merge step that takes the head of the second run. When the head has
   * rank k, the first run holds no row of rank k, so none is overtaken.
   */
  lemma MergeStepSecond(a: seq<Row>, b: seq<Row>, key: Row -> real, k: real)
    requires a != [] && b != [] && key(b[0]) < key(a[0])
    requires key(b[0]) == k ==> WithRank(a, key, k) == []
    requires WithRank(MergeRuns(a, b[1..], key), key, k) == WithRank(a, key, k) + WithRank(b[1..], key, k)
    ensures WithRank(MergeRuns(a, b, key), key, k) == WithRank(a, key, k) + WithRank(b, key, k)
  {
    var m := MergeRuns(a, b[1..], key);
    assert MergeRuns(a, b, key) == [b[0]] + m;
    WithRankCons(b[0], m, key, k);
  }

  lemma {:induction false} MergeStable(a: seq<Row>, b: seq<Row>, key: Row -> real, k: real)
    requires SortedBy(a, key)
    ensures WithRank(MergeRuns(a, b, key), key, k) == WithRank(a, key, k) + WithRank(b, key, k)
    decreases |a| + |b|
  {
    if a != [] && b != [] {
      if key(a[0]) <= key(b[0]) {
        MergeStable(a[1..], b, key, k);
        MergeStepFirst(a, b, key, k);
      } else {
        MergeStable(a, b[1..], key, k);
        if key(b[0]) == k {
          WithRankBelow(a, key, k);
        }
        MergeStepSecond(a, b, key, k);
      }
    }
  }

  /** Stability: the rows of each rank keep their relative order. */
  lemma {:induction false} MergeSortStable(rows: seq<Row>, key: Row -> real, k: real)
    ensures WithRank(MergeSort(rows, key), key, k) == WithRank(rows, key, k)
    decreases |rows|
  {
    if |rows| > 1 {
      var m := |rows| / 2;
      MergeSortStable(rows[..m], key, k);
      MergeSortStable(rows[m..], key, k);
      MergeSortSorted(rows[..m], key);
      MergeStable(MergeSort(rows[..m], key), MergeSort(rows[m..], key), key, k);
      WithRankConcat(rows[..m], rows[m..], key, k);
      assert rows[..m] + rows[m..] == rows;
    }
  }

  lemma {:induction false} MergeOfSorted(a: seq<Row>, b: seq<Row>, key: Row -> real)
    requires SortedBy(a + b, key)
    ensures MergeRuns(a, b, key) == a + b
    decreases |a| + |b|
  {
    if a != [] && b != [] {
      assert (a + b)[0] == a[0] && (a + b)[|a|] == b[0];
      assert (a + b)[1..] == a[1..] + b;
      MergeOfSorted(a[1..], b, key);
    }
  }

  /** Sorting rows that are already in order changes nothing. */
  lemma {:induction false} MergeSortOfSorted(rows: seq<Row>, key: Row -> real)
    requires SortedBy(rows, key)
    ensures MergeSort(rows, key) == rows
    decreases |rows|
  {
    if |rows| > 1 {
      var m := |rows| / 2;
      assert rows[..m] + rows[m..] == rows;
      MergeSortOfSorted(rows[..m], key);
      MergeSortOfSorted(rows[m..], key);
      MergeOfSorted(rows[..m], rows[m..], key);
    }
  }

  /** The number of rows for region id. */
  function IdCount(rows: seq<Row>, id: int): nat {
    if rows == [] then 0 else (if rows[0].regionId == id then 1 else 0) + IdCount(rows[1..], id)
  }

  lemma {:induction false} IdCountConcat(a: seq<Row>, b: seq<Row>, id: int)
    ensures IdCount(a + b, id) == IdCount(a, id) + IdCount(b, id)
  {
    if a != [] {
      assert (a + b)[0] == a[0];
      assert (a + b)[1..] == a[1..] + b;
      IdCountConcat(a[1..], b, id);
    } else {
      assert a + b == b;
    }
  }

  lemma {:induction false} IdCountMerge(a: seq<Row>, b: seq<Row>, key: Row -> real, id: int)
    ensures IdCount(MergeRuns(a, b, key), id) == IdCount(a, id) + IdCount(b, id)
    decreases |a| + |b|
  {
    if a != [] && b != [] {
      if key(a[0]) <= key(b[0]) {
        IdCountMerge(a[1..], b, key, id);
      } else {
        IdCountMerge(a, b[1..], key, id);
        IdCountConcat([b[0]], b[1..], id);
        assert [b[0]] + b[1..] == b;
      }
    }
  }

  /** One step of the sort: a longer input is split at its middle, each half sorted, then merged. */
  lemma MergeSortSplit(rows: seq<Row>, key: Row -> real)
    requires |rows| > 1
    ensures MergeSort(rows, key) == MergeRuns(MergeSort(rows[..|rows| / 2], key), MergeSort(rows[|rows| / 2..], key), key)
    ensures rows[..|rows| / 2] + rows[|rows| / 2..] == rows
  {
  }

  /** Sorting keeps the number of rows of every region. */
  lemma {:induction false} MergeSortIdCount(rows: seq<Row>, key: Row -> real, id: int)
    ensures IdCount(MergeSort(rows, key), id) == IdCount(rows, id)
    decreases |rows|
  {
    if |rows| > 1 {
      var m := |rows| / 2;
      var left, right := rows[..m], rows[m..];
      MergeSortSplit(rows, key);
      MergeSortIdCount(left, key, id);
      MergeSortIdCount(right, key, id);
      IdCountMerge(MergeSort(left, key), MergeSort(right, key), key, id);
      IdCountConcat(left, right, id);
    }
  }

  /** In rows with increasing ids every id occurs at most once, and exactly once when present. */
  lemma {:induction false} IdCountIncreasing(rows: seq<Row>, id: int)
    requires IdsIncreasing(rows)
    ensures IdCount(rows, id) == if exists i :: 0 <= i < |rows| && rows[i].regionId == id then 1 else 0
  {
    if rows != [] {
      var rest := rows[1..];
      IdCountIncreasing(rest, id);
      assert forall i :: 0 <= i < |rest| ==> rest[i] == rows[i + 1];
      if rows[0].regionId == id {
        assert forall i :: 0 <= i < |rest| ==> rest[i].regionId != id;
      } else if exists i :: 0 <= i < |rows| && rows[i].regionId == id {
        var i :| 0 <= i < |rows| && rows[i].regionId == id;
        assert rest[i - 1].regionId == id;
      }
    }
  }

  // ---------------------------------------------------------------------------
  // The table

  /** What compute_volumes tabulates, sorted in the given order. */
  function VolumesTable(voxels: seq<int>, lut: map<int, string>, scale: Option<VoxelScale>,
                        includeZero: bool, order: Order): seq<Row> {
    MergeSort(LabelRows(voxels, lut, scale, includeZero), RankOf(order))
  }

  lemma LabelRowsIncreasing(voxels: seq<int>, lut: map<int, string>, scale: Option<VoxelScale>, includeZero: bool)
    ensures IdsIncreasing(LabelRows(voxels, lut, scale, includeZero))
  {
    var labels := KeptLabels(voxels, includeZero);
    assert StrictlyIncreasing(labels);
  }

  /** Every kept region of the volume has exactly one row, and no other region has one. */
  lemma TableRegions(voxels: seq<int>, lut: map<int, string>, scale: Option<VoxelScale>,
                     includeZero: bool, order: Order, id: int)
    ensures IdCount(VolumesTable(voxels, lut, scale, includeZero, order), id) ==
      if id in voxels && (includeZero || id != 0) then 1 else 0
  {
    var rows := LabelRows(voxels, lut, scale, includeZero);
    var labels := KeptLabels(voxels, includeZero);
    MergeSortIdCount(rows, RankOf(order), id);
    LabelRowsIncreasing(voxels, lut, scale, includeZero);
    IdCountIncreasing(rows, id);
    if id in voxels && (includeZero || id != 0) {
      var i :| 0 <= i < |labels| && labels[i] == id;
      assert rows[i].regionId == id;
    }
  }

  /** Every row of the table is the row of one of the kept labels. */
  lemma TableRowIsLabelRow(voxels: seq<int>, lut: map<int, string>, scale: Option<VoxelScale>,
                           includeZero: bool, order: Order, i: int)
    requires 0 <= i < |VolumesTable(voxels, lut, scale, includeZero, order)|
    ensures var row := VolumesTable(voxels, lut, scale, includeZero, order)[i];
      row.regionId in KeptLabels(voxels, includeZero) && row == RegionRow(voxels, lut, scale, row.regionId)
  {
    var rows := LabelRows(voxels, lut, scale, includeZero);
    var table := VolumesTable(voxels, lut, scale, includeZero, order);
    MergeSortPermutation(rows, RankOf(order));
    assert table[i] in multiset(table);
    assert table[i] in rows;
    var j :| 0 <= j < |rows| && rows[j] == table[i];
    assert KeptLabels(voxels, includeZero)[j] in KeptLabels(voxels, includeZero);
  }

  lemma MeasureOfCases(count: nat, scale: Option<VoxelScale>, m: Measure)
    requires m == MeasureOf(count, scale)
    ensures scale.None? ==> m == Voxels(count)
    ensures scale.Some? ==> m == Volume(ScaledVolume(count, scale.value))
  {
  }

  /**
   * Every row is for a kept label of the volume, names its region from the
   * table, else "Region <id>", and measures it as its voxel count, times the
   * voxel volume once a scale is set.
   */
  lemma TableRowContents(voxels: seq<int>, lut: map<int, string>, scale: Option<VoxelScale>,
                         includeZero: bool, order: Order, i: int)
    requires 0 <= i < |VolumesTable(voxels, lut, scale, includeZero, order)|
    ensures var row := VolumesTable(voxels, lut, scale, includeZero, order)[i];
      && row.regionId in voxels && (includeZero || row.regionId != 0)
      && row.regionLabel == (if row.regionId in lut then lut[row.regionId] else "Region " + IntToString(row.regionId))
    ensures var row := VolumesTable(voxels, lut, scale, includeZero, order)[i];
      scale.None? ==> row.measure == Voxels(Count(voxels, row.regionId))
    ensures var row := VolumesTable(voxels, lut, scale, includeZero, order)[i];
      scale.Some? ==> row.measure == Volume(ScaledVolume(Count(voxels, row.regionId), scale.value))
  {
    TableRowIsLabelRow(voxels, lut, scale, includeZero, order, i);
    var row := VolumesTable(voxels, lut, scale, includeZero, order)[i];
    MeasureOfCases(Count(voxels, row.regionId), scale, row.measure);
  }

  /** The table is sorted in the requested order and is a permutation of the region-ordered rows. */
  lemma TableSorted(voxels: seq<int>, lut: map<int, string>, scale: Option<VoxelScale>,
                    includeZero: bool, order: Order)
    ensures SortedBy(VolumesTable(voxels, lut, scale, includeZero, order), RankOf(order))
    ensures multiset(VolumesTable(voxels, lut, scale, includeZero, order)) ==
      multiset(LabelRows(voxels, lut, scale, includeZero))
    ensures forall k :: (WithRank(VolumesTable(voxels, lut, scale, includeZero, order), RankOf(order), k) ==
      WithRank(LabelRows(voxels, lut, scale, includeZero), RankOf(order), k))
  {
    var rows := LabelRows(voxels, lut, scale, includeZero);
    MergeSortSorted(rows, RankOf(order));
    MergeSortPermutation(rows, RankOf(order));
    forall k ensures WithRank(MergeSort(rows, RankOf(order)), RankOf(order), k) == WithRank(rows, RankOf(order), k) {
      MergeSortStable(rows, RankOf(order), k);
    }
  }

  /** A row of rank k sits in the rank-k subsequence at the count of rank-k rows before it. */
  lemma WithRankAt(t: seq<Row>, key: Row -> real, k: real, j: int)
    requires 0 <= j < |t| && key(t[j]) == k
    ensures |WithRank(t[..j], key, k)| < |WithRank(t, key, k)|
    ensures WithRank(t, key, k)[|WithRank(t[..j], key, k)|] == t[j]
  {
    var before := t[..j];
    var after := t[j..];
    assert before + after == t;
    WithRankConcat(before, after, key, k);
    assert after[0] == t[j];
    assert WithRank(after, key, k) == [t[j]] + WithRank(after[1..], key, k);
  }

  /** Of two rows of rank k, the earlier one has fewer rank-k rows before it. */
  lemma WithRankOrder(t: seq<Row>, key: Row -> real, k: real, i: int, j: int)
    requires 0 <= i < j < |t| && key(t[i]) == k
    ensures |WithRank(t[..i], key, k)| < |WithRank(t[..j], key, k)|
  {
    WithRankAt(t[..j], key, k, i);
    assert t[..j][..i] == t[..i];
  }



  lemma {:induction false} WithRankMembers(s: seq<Row>, key: Row -> real, k: real)
    ensures forall x :: x in WithRank(s, key, k) ==> x in s
  {
    if s != [] {
      WithRankMembers(s[1..], key, k);
      assert forall x :: x in s[1..] ==> x in s;
    }
  }

  lemma {:induction false} WithRankIncreasing(s: seq<Row>, key: Row -> real, k: real)
    requires IdsIncreasing(s)
    ensures IdsIncreasing(WithRank(s, key, k))
  {
    if s != [] {
      var w := WithRank(s[1..], key, k);
      WithRankIncreasing(s[1..], key, k);
      WithRankMembers(s[1..], key, k);
      if key(s[0]) == k {
        forall p, q | 0 <= p < q < |[s[0]] + w|
          ensures ([s[0]] + w)[p].regionId < ([s[0]] + w)[q].regionId
        {
          assert ([s[0]] + w)[q] == w[q - 1];
          if p == 0 {
            assert w[q - 1] in s[1..];
            var j :| 0 <= j < |s[1..]| && s[1..][j] == w[q - 1];
            assert s[j + 1] == w[q - 1];
          } else {
            assert ([s[0]] + w)[p] == w[p - 1];
          }
        }
      } else {
        assert WithRank(s, key, k) == w;
      }
    }
  }

  /** The sort column itself: ascending or descending as asked, between any two rows. */
  lemma TableColumnOrder(voxels: seq<int>, lut: map<int, string>, scale: Option<VoxelScale>,
                         includeZero: bool, order: Order, i: int, j: int)
    requires 0 <= i < j < |VolumesTable(voxels, lut, scale, includeZero, order)|
    ensures order.ascending ==>
      KeyValue(VolumesTable(voxels, lut, scale, includeZero, order)[i], order.key) <=
      KeyValue(VolumesTable(voxels, lut, scale, includeZero, order)[j], order.key)
    ensures !order.ascending ==>
      KeyValue(VolumesTable(voxels, lut, scale, includeZero, order)[i], order.key) >=
      KeyValue(VolumesTable(voxels, lut, scale, includeZero, order)[j], order.key)
  {
    var table := VolumesTable(voxels, lut, scale, includeZero, order);
    TableSorted(voxels, lut, scale, includeZero, order);
    assert RankOf(order)(table[i]) <= RankOf(order)(table[j]);
  }

  /** Rows that tie on the sort key stay in ascending region-id order (the sort is stable). */
  lemma TableTiesAscending(voxels: seq<int>, lut: map<int, string>, scale: Option<VoxelScale>,
                           includeZero: bool, order: Order, i: int, j: int)
    requires 0 <= i < j < |VolumesTable(voxels, lut, scale, includeZero, order)|
    requires Rank(VolumesTable(voxels, lut, scale, includeZero, order)[i], order) ==
             Rank(VolumesTable(voxels, lut, scale, includeZero, order)[j], order)
    ensures VolumesTable(voxels, lut, scale, includeZero, order)[i].regionId <
            VolumesTable(voxels, lut, scale, includeZero, order)[j].regionId
  {
    var rows := LabelRows(voxels, lut, scale, includeZero);
    var table := VolumesTable(voxels, lut, scale, includeZero, order);
    var k := Rank(table[i], order);
    WithRankAt(table, RankOf(order), k, i);
    WithRankAt(table, RankOf(order), k, j);
    WithRankOrder(table, RankOf(order), k, i, j);
    MergeSortStable(rows, RankOf(order), k);
    LabelRowsIncreasing(voxels, lut, scale, includeZero);
    WithRankIncreasing(rows, RankOf(order), k);
  }

  /** The default order, region_id ascending, leaves the rows in strictly increasing id order. */
  lemma TableDefaultOrder(voxels: seq<int>, lut: map<int, string>, scale: Option<VoxelScale>, includeZero: bool)
    ensures VolumesTable(voxels, lut, scale, includeZero, Order(RegionId, true)) == LabelRows(voxels, lut, scale, includeZero)
    ensures IdsIncreasing(VolumesTable(voxels, lut, scale, includeZero, Order(RegionId, true)))
  {
    var rows := LabelRows(voxels, lut, scale, includeZero);
    LabelRowsIncreasing(voxels, lut, scale, includeZero);
    assert SortedBy(rows, RankOf(Order(RegionId, true)));
    MergeSortOfSorted(rows, RankOf(Order(RegionId, true)));
  }

  lemma LabelRowsMembers(voxels: seq<int>, lut: map<int, string>, scale: Option<VoxelScale>, includeZero: bool, r: Row)
    ensures r in LabelRows(voxels, lut, scale, includeZero) <==>
      r.regionId in voxels && (includeZero || r.regionId != 0) && r == RegionRow(voxels, lut, scale, r.regionId)
  {
    var labels := KeptLabels(voxels, includeZero);
    var rows := LabelRows(voxels, lut, scale, includeZero);
    if r.regionId in voxels && (includeZero || r.regionId != 0) && r == RegionRow(voxels, lut, scale, r.regionId) {
      var j :| 0 <= j < |labels| && labels[j] == r.regionId;
      assert rows[j] == r;
    }
    if r in rows {
      var j :| 0 <= j < |rows| && rows[j] == r;
      assert labels[j] in labels;
    }
  }

  lemma TableMembers(voxels: seq<int>, lut: map<int, string>, scale: Option<VoxelScale>,
                     includeZero: bool, order: Order, r: Row)
    ensures r in VolumesTable(voxels, lut, scale, includeZero, order) <==> r in LabelRows(voxels, lut, scale, includeZero)
  {
    var table := VolumesTable(voxels, lut, scale, includeZero, order);
    MergeSortPermutation(LabelRows(voxels, lut, scale, includeZero), RankOf(order));
    assert r in table <==> r in multiset(table);
  }

  /** Leaving label 0 out removes exactly its row and keeps every other row as it was. */
  lemma TableWithoutZero(voxels: seq<int>, lut: map<int, string>, scale: Option<VoxelScale>, order: Order, r: Row)
    ensures r in VolumesTable(voxels, lut, scale, false, order) <==>
      r in VolumesTable(voxels, lut, scale, true, order) && r.regionId != 0
  {
    TableMembers(voxels, lut, scale, false, order, r);
    TableMembers(voxels, lut, scale, true, order, r);
    LabelRowsMembers(voxels, lut, scale, false, r);
    LabelRowsMembers(voxels, lut, scale, true, r);
  }

  // ---------------------------------------------------------------------------
  // A worked example

  /** A 2 x 2 x 2 volume: regions 1 and 2 hold three voxels each, two voxels are background. */
  const ExampleVoxels: seq<int> := [1, 1, 2, 2, 0, 0, 1, 2]

  lemma ExampleLabels()
    ensures KeptLabels(ExampleVoxels, false) == [1, 2]
  {
    assert forall x :: x in KeptLabels(ExampleVoxels, false) <==> x in [1, 2];
    StrictlyIncreasingUnique(KeptLabels(ExampleVoxels, false), [1, 2]);
  }

  lemma ExampleCounts()
    ensures Count(ExampleVoxels, 1) == 3 && Count(ExampleVoxels, 2) == 3
  {
    var v := ExampleVoxels;
    assert v[..1] == [1];
    assert Count(v[..1], 1) == 1 && Count(v[..1], 2) == 0;
    assert v[..2] == [1, 1];
    assert v[..2][..1] == v[..1];
    assert Count(v[..2], 1) == 2 && Count(v[..2], 2) == 0;
    assert v[..3] == [1, 1, 2];
    assert v[..3][..2] == v[..2];
    assert Count(v[..3], 1) == 2 && Count(v[..3], 2) == 1;
    assert v[..4] == [1, 1, 2, 2];
    assert v[..4][..3] == v[..3];
    assert Count(v[..4], 1) == 2 && Count(v[..4], 2) == 2;
    assert v[..5] == [1, 1, 2, 2, 0];
    assert v[..5][..4] == v[..4];
    assert Count(v[..5], 1) == 2 && Count(v[..5], 2) == 2;
    assert v[..6] == [1, 1, 2, 2, 0, 0];
    assert v[..6][..5] == v[..5];
    assert Count(v[..6], 1) == 2 && Count(v[..6], 2) == 2;
    assert v[..7] == [1, 1, 2, 2, 0, 0, 1];
    assert v[..7][..6] == v[..6];
    assert Count(v[..7], 1) == 3 && Count(v[..7], 2) == 2;
    assert v[..7] == v[..|v| - 1];
    assert Count(v, 1) == 3 && Count(v, 2) == 3;
  }

  /**
   * The default table of the example leaves 0 out and has one row per region,
   * in id order, with the voxel counts; a scale of (2, 1, 1) doubles each measure.
   */
  lemma ExampleTable(lut: map<int, string>, scale: Option<VoxelScale>)
    requires scale == None || scale == Some((2.0, 1.0, 1.0))
    ensures scale.None? ==> (VolumesTable(ExampleVoxels, lut, scale, false, Order(RegionId, true)) ==
      [Row(1, LookupName(lut, 1), Voxels(3)), Row(2, LookupName(lut, 2), Voxels(3))])
    ensures scale.Some? ==> (VolumesTable(ExampleVoxels, lut, scale, false, Order(RegionId, true)) ==
      [Row(1, LookupName(lut, 1), Volume(6.0)), Row(2, LookupName(lut, 2), Volume(6.0))])
  {
    ExampleLabels();
    ExampleCounts();
    assert ScaledVolume(3, (2.0, 1.0, 1.0)) == 6.0;
    TableDefaultOrder(ExampleVoxels, lut, scale, false);
    var rows := LabelRows(ExampleVoxels, lut, scale, false);
    assert |rows| == 2;
    assert rows[0] == RegionRow(ExampleVoxels, lut, scale, 1);
    assert rows[1] == RegionRow(ExampleVoxels, lut, scale, 2);
  }
}
