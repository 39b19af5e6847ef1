/** Day 15: beacon exclusion zone. Each sensor reaches every point no
    farther (in Manhattan distance) than its closest beacon; on one row a
    sensor's reach is an interval, and the intervals of all sensors are
    merged by a sweep over them in sorted order. */
module Beacons {
  import opened Common

  datatype Vector2 = Vector2(x: int, y: int)

  function Distance(a: Vector2, b: Vector2): nat
  {
    Abs(a.x - b.x) + Abs(a.y - b.y)
  }

  // ---------------------------------------------------------------------
  // Ranges

  /** A closed interval of x positions on one row. */
  datatype Range = Range(min: int, max: int)

  /** `Range::from_center_and_dist`: the interval of half-width `dist`
      around `center`. */
  function FromCenterAndDist(center: int, dist: int): (r: Range)
    ensures r.min + r.max == 2 * center
    ensures r.max - r.min == 2 * dist
  {
    Range(center - dist, center + dist)
  }

  datatype Ordering = Less | Equal | Greater

  function CmpInt(a: int, b: int): Ordering
  {
    if a < b then Less else if a == b then Equal else Greater
  }

  /** `Ord for Range`: by `min`, then by `max`. */
  function Cmp(a: Range, b: Range): (o: Ordering)
    ensures o == Equal <==> a == b
    ensures o == Less <==> a.min < b.min || (a.min == b.min && a.max < b.max)
  {
    var minCmp := CmpInt(a.min, b.min);
    if minCmp == Equal then CmpInt(a.max, b.max) else minCmp
  }

  predicate LessEq(a: Range, b: Range)
  {
    Cmp(a, b) != Greater
  }

  /** The ordering is total: antisymmetric and transitive. */
  lemma CmpIsTotalOrder(a: Range, b: Range, c: Range)
    ensures Cmp(b, a) == (match Cmp(a, b) case Less => Greater case Equal => Equal case Greater => Less)
    ensures LessEq(a, b) && LessEq(b, c) ==> LessEq(a, c)
    ensures LessEq(a, b) || LessEq(b, a)
  {
  }

  // ---------------------------------------------------------------------
  // Sensors

  datatype SensorWithBeacon = SensorWithBeacon(sensor: Vector2, beacon: Vector2)

  /** `manhattan_distance`: the sensor's reach. */
  function ManhattanDistance(s: SensorWithBeacon): (d: nat)
    ensures d == 0 <==> s.sensor == s.beacon
    ensures d == Distance(s.sensor, s.beacon)
  {
    var diffX := s.sensor.x - s.beacon.x;
    var diffY := s.sensor.y - s.beacon.y;
    Abs(diffX) + Abs(diffY)
  }

  /** `range_on_row`: the part of row `y` the sensor reaches, if any. */
  function RangeOnRow(s: SensorWithBeacon, y: int): (r: Option<Range>)
    ensures r.Some? <==> Abs(s.sensor.y - y) <= ManhattanDistance(s)
  {
    var dist := Abs(s.sensor.y - y) - ManhattanDistance(s);
    if dist <= 0 then Some(FromCenterAndDist(s.sensor.x, Abs(dist))) else None
  }

  /** The range on a row holds exactly the points of that row the sensor
      reaches. */
  lemma RangeOnRowCovers(s: SensorWithBeacon, y: int, x: int)
    ensures (RangeOnRow(s, y).Some? && RangeOnRow(s, y).value.min <= x <= RangeOnRow(s, y).value.max)
      <==> Distance(s.sensor, Vector2(x, y)) <= ManhattanDistance(s)
  {
  }

  /** The diamond of a sensor at (0, 3) with its beacon at (0, 0): rows
      0 to 6 hold the intervals [0, 0], [-1, 1], ..., [-3, 3], ...,
      [0, 0], and no other row is reached. */
  lemma DiamondRows(s: SensorWithBeacon, y: int)
    requires s == SensorWithBeacon(Vector2(0, 3), Vector2(0, 0))
    ensures 0 <= y <= 6 ==> RangeOnRow(s, y) == Some(Range(-(3 - Abs(3 - y)), 3 - Abs(3 - y)))
    ensures (y < 0 || y > 6) ==> RangeOnRow(s, y) == None
  {
    assert ManhattanDistance(s) == 3;
  }

  lemma FarSensorMissesRow(s: SensorWithBeacon)
    requires s == SensorWithBeacon(Vector2(17, 20), Vector2(21, 22))
    ensures RangeOnRow(s, 10) == None
  {
    assert ManhattanDistance(s) == 6;
  }

  // ---------------------------------------------------------------------
  // Merging the ranges of one row

  /** The `filter_map` over the sensors: the ranges of those that reach
      the row, in sensor order. */
  function RangesOnRow(sensors: seq<SensorWithBeacon>, row: int): (rs: seq<Range>)
    ensures |rs| <= |sensors|
  {
    if sensors == [] then []
    else
      var rest := RangesOnRow(sensors[..|sensors| - 1], row);
      match RangeOnRow(sensors[|sensors| - 1], row)
      case None => rest
      case Some(r) => rest + [r]
  }

  predicate Sorted(rs: seq<Range>)
  {
    forall i, j :: 0 <= i < j < |rs| ==> LessEq(rs[i], rs[j])
  }

  /** Inserts a range into a sorted list. */
  function Insert(r: Range, rs: seq<Range>): (out: seq<Range>)
    requires Sorted(rs)
    ensures Sorted(out)
    ensures multiset(out) == multiset(rs) + multiset{r}
    ensures forall k :: 0 <= k < |out| ==> out[k] == r || out[k] in rs
  {
    if rs == [] || LessEq(r, rs[0]) then [r] + rs
    else
      var tail := Insert(r, rs[1..]);
      InsertBehindHead(r, rs, tail);
      [rs[0]] + tail
  }

  lemma InsertBehindHead(r: Range, rs: seq<Range>, tail: seq<Range>)
    requires Sorted(rs) && rs != [] && !LessEq(r, rs[0])
    requires Sorted(tail)
    requires forall k :: 0 <= k < |tail| ==> tail[k] == r || tail[k] in rs[1..]
    ensures Sorted([rs[0]] + tail)
    ensures multiset(rs) + multiset{r} == multiset([rs[0]]) + multiset(rs[1..]) + multiset{r}
  {
    assert rs == [rs[0]] + rs[1..];
    assert forall y :: y in rs[1..] ==> LessEq(rs[0], y);
  }

  /** `sort_unstable`: the ranges in ascending order. The order is total
      and only equal ranges compare `Equal`, so the sorted list is the
      same whatever the algorithm. */
  function SortRanges(rs: seq<Range>): (out: seq<Range>)
    ensures Sorted(out)
    ensures multiset(out) == multiset(rs)
  {
    if rs == [] then []
    else
      assert rs == rs[..|rs| - 1] + [rs[|rs| - 1]];
      Insert(rs[|rs| - 1], SortRanges(rs[..|rs| - 1]))
  }

  /** The integers `lo <= k < hi`. */
  function Interval(lo: int, hi: int): (s: set<int>)
    ensures forall k :: k in s <==> lo <= k < hi
    ensures |s| == if hi > lo then hi - lo else 0
    decreases hi - lo
  {
    if hi <= lo then {}
    else
      var init := Interval(lo, hi - 1);
      assert hi - 1 !in init;
      init + {hi - 1}
  }

  /** The unit cells [k, k + 1] covered by the ranges: each range
      [min, max] covers `max - min` of them. */
  function Cells(rs: seq<Range>): set<int>
  {
    if rs == [] then {}
    else Cells(rs[..|rs| - 1]) + Interval(rs[|rs| - 1].min, rs[|rs| - 1].max)
  }

  lemma {:induction false} CellsMember(rs: seq<Range>, k: int)
    ensures k in Cells(rs) <==> exists r :: r in rs && r.min <= k < r.max
  {
    if rs != [] {
      var init := rs[..|rs| - 1];
      CellsMember(init, k);
      assert rs == init + [rs[|rs| - 1]];
      if exists r :: r in rs && r.min <= k < r.max {
        var r :| r in rs && r.min <= k < r.max;
        if r != rs[|rs| - 1] {
          assert r in init;
        }
      }
    }
  }

  /** The cells depend only on which ranges there are, not their order. */
  lemma CellsOfPermutation(a: seq<Range>, b: seq<Range>)
    requires multiset(a) == multiset(b)
    ensures Cells(a) == Cells(b)
  {
    forall k
      ensures k in Cells(a) <==> k in Cells(b)
    {
      CellsMember(a, k);
      CellsMember(b, k);
      forall r
        ensures r in a <==> r in b
      {
        assert r in a <==> r in multiset(a);
        assert r in b <==> r in multiset(b);
      }
    }
  }

  function Max(a: int, b: int): int
  {
    if a >= b then a else b
  }

  /** One step of the sweep: a range whose start is already inside the
      swept part adds only the cells beyond the running maximum. */
  lemma SweepStep(prefix: seq<Range>, r: Range, prevMax: int)
    requires forall k :: k in Cells(prefix) ==> k < prevMax
    requires forall k :: r.min <= k < prevMax ==> k in Cells(prefix)
    ensures |Cells(prefix + [r])| == |Cells(prefix)| + Max(r.max - Max(r.min, prevMax), 0)
    ensures forall k :: k in Cells(prefix + [r]) ==> k < Max(r.max, prevMax)
    ensures forall k :: r.min <= k < Max(r.max, prevMax) ==> k in Cells(prefix + [r])
  {
    var before := Cells(prefix);
    var added := Interval(Max(r.min, prevMax), r.max);
    assert (prefix + [r])[..|prefix|] == prefix;
    assert Cells(prefix + [r]) == before + Interval(r.min, r.max);
    AddedBeyond(before, r, prevMax);
    DisjointUnionSize(before, added);
  }

  /** Past the swept part only the cells beyond the running maximum are
      new. */
  lemma AddedBeyond(before: set<int>, r: Range, prevMax: int)
    requires forall k :: k in before ==> k < prevMax
    requires forall k :: r.min <= k < prevMax ==> k in before
    ensures before + Interval(r.min, r.max) == before + Interval(Max(r.min, prevMax), r.max)
    ensures before * Interval(Max(r.min, prevMax), r.max) == {}
  {
  }

  lemma DisjointUnionSize(a: set<int>, b: set<int>)
    requires a * b == {}
    ensures |a + b| == |a| + |b|
  {
    assert |a * b| == 0;
  }

  /** What the sweep knows after the first `i` sorted ranges: the count
      is the number of cells they cover, all of them lie below the
      running maximum, and everything from the next range's start up to
      the running maximum is covered. */
  predicate Swept(ranges: seq<Range>, i: nat, count: nat, prevMax: int)
    requires i <= |ranges|
  {
    && count == |Cells(ranges[..i])|
    && (forall k :: k in Cells(ranges[..i]) ==> k < prevMax)
    && (i < |ranges| ==> forall k :: ranges[i].min <= k < prevMax ==> k in Cells(ranges[..i]))
  }

  lemma SweepAdvance(ranges: seq<Range>, i: nat, count: nat, prevMax: int)
    requires i < |ranges| && Swept(ranges, i, count, prevMax)
    requires i + 1 < |ranges| ==> ranges[i].min <= ranges[i + 1].min
    ensures Swept(ranges, i + 1, count + Max(ranges[i].max - Max(ranges[i].min, prevMax), 0), Max(ranges[i].max, prevMax))
  {
    SweepStep(ranges[..i], ranges[i], prevMax);
    assert ranges[..i + 1] == ranges[..i] + [ranges[i]];
  }

  /** The sweep over sorted ranges counts the cells they cover. */
  method Sweep(ranges: seq<Range>) returns (count: nat)
    requires Sorted(ranges)
    ensures count == |Cells(ranges)|
  {
    if |ranges| == 0 {
      return 0;
    }
    count := 0;
    var prevMax := ranges[0].min - 1;
    assert ranges[..0] == [];
    for i := 0 to |ranges|
      invariant Swept(ranges, i, count, prevMax)
    {
      if i + 1 < |ranges| {
        assert LessEq(ranges[i], ranges[i + 1]);
      }
      SweepAdvance(ranges, i, count, prevMax);
      count := count + Max(ranges[i].max - Max(ranges[i].min, prevMax), 0);
      prevMax := Max(ranges[i].max, prevMax);
    }
    assert ranges[..|ranges|] == ranges;
  }

  /** `count_known_locations`: sorts the ranges of the row, then sweeps
      them in order, adding to the count the part of each range beyond
      the running maximum. The count is the number of unit cells the
      ranges cover, whatever the order of the sensors. */
  method CountKnownLocations(sensors: seq<SensorWithBeacon>, row: int) returns (count: nat)
    ensures count == |Cells(RangesOnRow(sensors, row))|
  {
    var unsorted := RangesOnRow(sensors, row);
    var ranges := SortRanges(unsorted);
    CellsOfPermutation(unsorted, ranges);
    count := Sweep(ranges);
  }

  // ---------------------------------------------------------------------
  // What the count means

  predicate Reaches(s: SensorWithBeacon, p: Vector2)
  {
    Distance(s.sensor, p) <= ManhattanDistance(s)
  }

  /** One sensor reaches both ends of the unit cell [k, k + 1] of the row. */
  predicate CoversCell(s: SensorWithBeacon, row: int, k: int)
  {
    Reaches(s, Vector2(k, row)) && Reaches(s, Vector2(k + 1, row))
  }

  lemma CoversCellInRange(s: SensorWithBeacon, row: int, k: int)
    ensures CoversCell(s, row, k) <==> RangeOnRow(s, row).Some? && RangeOnRow(s, row).value.min <= k < RangeOnRow(s, row).value.max
  {
    RangeOnRowCovers(s, row, k);
    RangeOnRowCovers(s, row, k + 1);
  }

  /** What `count_known_locations` counts: the x such that one sensor
      reaches both (x, row) and (x + 1, row). */
  lemma {:induction false} CellsOfRangesOnRow(sensors: seq<SensorWithBeacon>, row: int, k: int)
    ensures k in Cells(RangesOnRow(sensors, row)) <==> exists i :: 0 <= i < |sensors| && CoversCell(sensors[i], row, k)
  {
    if sensors != [] {
      var init := sensors[..|sensors| - 1];
      var last := sensors[|sensors| - 1];
      CellsOfRangesOnRow(init, row, k);
      CoversCellInRange(last, row, k);
      var rest := RangesOnRow(init, row);
      if RangeOnRow(last, row).Some? {
        var r := RangeOnRow(last, row).value;
        assert (rest + [r])[..|rest|] == rest;
        assert Cells(RangesOnRow(sensors, row)) == Cells(rest) + Interval(r.min, r.max);
      }
      ExistsInPrefix(sensors, init, row, k);
    }
  }

  lemma ExistsInPrefix(sensors: seq<SensorWithBeacon>, init: seq<SensorWithBeacon>, row: int, k: int)
    requires sensors != [] && init == sensors[..|sensors| - 1]
    ensures (exists i :: 0 <= i < |sensors| && CoversCell(sensors[i], row, k)) <==>
      (exists i :: 0 <= i < |init| && CoversCell(init[i], row, k)) || CoversCell(sensors[|sensors| - 1], row, k)
  {
    if exists i :: 0 <= i < |sensors| && CoversCell(sensors[i], row, k) {
      var i :| 0 <= i < |sensors| && CoversCell(sensors[i], row, k);
      if i < |init| {
        assert init[i] == sensors[i];
      }
    }
    if exists i :: 0 <= i < |init| && CoversCell(init[i], row, k) {
      var i :| 0 <= i < |init| && CoversCell(init[i], row, k);
      assert sensors[i] == init[i];
    }
  }

  // ---------------------------------------------------------------------
  // Counting positions rather than cells

  /** The closed range [min, max] as the half-open [min, max + 1), so
      that its cells are its points. */
  function Widen(rs: seq<Range>): (out: seq<Range>)
    ensures |out| == |rs|
    ensures forall i :: 0 <= i < |rs| ==> out[i] == Range(rs[i].min, rs[i].max + 1)
  {
    if rs == [] then []
    else Widen(rs[..|rs| - 1]) + [Range(rs[|rs| - 1].min, rs[|rs| - 1].max + 1)]
  }

  /** The x positions of the beacons that lie on the row. */
  function BeaconsOnRow(sensors: seq<SensorWithBeacon>, row: int): set<int>
  {
    if sensors == [] then {}
    else
      var b := sensors[|sensors| - 1].beacon;
      BeaconsOnRow(sensors[..|sensors| - 1], row) + (if b.y == row then {b.x} else {})
  }

  lemma {:induction false} BeaconsOnRowMembers(sensors: seq<SensorWithBeacon>, row: int, x: int)
    ensures x in BeaconsOnRow(sensors, row) <==> exists i :: 0 <= i < |sensors| && sensors[i].beacon == Vector2(x, row)
  {
    if sensors != [] {
      var init := sensors[..|sensors| - 1];
      BeaconsOnRowMembers(init, row, x);
      if exists i :: 0 <= i < |sensors| && sensors[i].beacon == Vector2(x, row) {
        var i :| 0 <= i < |sensors| && sensors[i].beacon == Vector2(x, row);
        if i < |init| {
          assert init[i] == sensors[i];
        }
      }
      if exists i :: 0 <= i < |init| && init[i].beacon == Vector2(x, row) {
        var i :| 0 <= i < |init| && init[i].beacon == Vector2(x, row);
        assert sensors[i] == init[i];
      }
    }
  }

  lemma ReachesInRange(s: SensorWithBeacon, row: int, x: int)
    ensures Reaches(s, Vector2(x, row)) <==> RangeOnRow(s, row).Some? && RangeOnRow(s, row).value.min <= x < RangeOnRow(s, row).value.max + 1
  {
    RangeOnRowCovers(s, row, x);
  }

  lemma ExistsReachInPrefix(sensors: seq<SensorWithBeacon>, init: seq<SensorWithBeacon>, p: Vector2)
    requires sensors != [] && init == sensors[..|sensors| - 1]
    ensures (exists i :: 0 <= i < |sensors| && Reaches(sensors[i], p)) <==>
      (exists i :: 0 <= i < |init| && Reaches(init[i], p)) || Reaches(sensors[|sensors| - 1], p)
  {
    if exists i :: 0 <= i < |sensors| && Reaches(sensors[i], p) {
      var i :| 0 <= i < |sensors| && Reaches(sensors[i], p);
      if i < |init| {
        assert init[i] == sensors[i];
      }
    }
    if exists i :: 0 <= i < |init| && Reaches(init[i], p) {
      var i :| 0 <= i < |init| && Reaches(init[i], p);
      assert sensors[i] == init[i];
    }
  }

  lemma WidenAppend(rest: seq<Range>, r: Range)
    ensures Cells(Widen(rest + [r])) == Cells(Widen(rest)) + Interval(r.min, r.max + 1)
  {
    var w := Widen(rest + [r]);
    assert (rest + [r])[..|rest|] == rest;
    assert w[..|rest|] == Widen(rest);
  }

  /** The points of the widened ranges are the points of the row some
      sensor reaches. */
  lemma {:induction false} PointsOfRangesOnRow(sensors: seq<SensorWithBeacon>, row: int, x: int)
    ensures x in Cells(Widen(RangesOnRow(sensors, row))) <==> exists i :: 0 <= i < |sensors| && Reaches(sensors[i], Vector2(x, row))
  {
    if sensors != [] {
      var init := sensors[..|sensors| - 1];
      var last := sensors[|sensors| - 1];
      PointsOfRangesOnRow(init, row, x);
      ReachesInRange(last, row, x);
      var rest := RangesOnRow(init, row);
      if RangeOnRow(last, row).Some? {
        WidenAppend(rest, RangeOnRow(last, row).value);
      }
      ExistsReachInPrefix(sensors, init, Vector2(x, row));
    }
  }

  /** The positions of the row where no beacon can be: reached by some
      sensor, and not a known beacon. */
  function NoBeaconPositions(sensors: seq<SensorWithBeacon>, row: int): set<int>
  {
    Cells(Widen(RangesOnRow(sensors, row))) - BeaconsOnRow(sensors, row)
  }

  lemma NoBeaconPositionsMeaning(sensors: seq<SensorWithBeacon>, row: int, x: int)
    ensures x in NoBeaconPositions(sensors, row) <==>
      (exists i :: 0 <= i < |sensors| && Reaches(sensors[i], Vector2(x, row)))
      && (forall i :: 0 <= i < |sensors| ==> sensors[i].beacon != Vector2(x, row))
  {
    PointsOfRangesOnRow(sensors, row, x);
    BeaconsOnRowMembers(sensors, row, x);
  }

  /** Every known beacon is reached by its own sensor, so the beacons on
      the row are among the reached positions. */
  lemma BeaconsAreReached(sensors: seq<SensorWithBeacon>, row: int)
    ensures BeaconsOnRow(sensors, row) <= Cells(Widen(RangesOnRow(sensors, row)))
  {
    forall x | x in BeaconsOnRow(sensors, row)
      ensures x in Cells(Widen(RangesOnRow(sensors, row)))
    {
      BeaconsOnRowMembers(sensors, row, x);
      var i :| 0 <= i < |sensors| && sensors[i].beacon == Vector2(x, row);
      assert Reaches(sensors[i], Vector2(x, row));
      PointsOfRangesOnRow(sensors, row, x);
    }
  }

  lemma NoBeaconPositionsSize(sensors: seq<SensorWithBeacon>, row: int)
    ensures |NoBeaconPositions(sensors, row)| == |Cells(Widen(RangesOnRow(sensors, row)))| - |BeaconsOnRow(sensors, row)|
  {
    var covered := Cells(Widen(RangesOnRow(sensors, row)));
    var beacons := BeaconsOnRow(sensors, row);
    BeaconsAreReached(sensors, row);
    assert covered == (covered - beacons) + beacons;
  }

  /** The evident intent of `count_known_locations`: the number of
      positions on the row where a beacon cannot be. Each range is
      widened to count its points, and the known beacons on the row are
      taken off. */
  method CountKnownLocationsFixed(sensors: seq<SensorWithBeacon>, row: int) returns (count: nat)
    ensures count == |NoBeaconPositions(sensors, row)|
  {
    var widened := Widen(RangesOnRow(sensors, row));
    var ranges := SortRanges(widened);
    CellsOfPermutation(widened, ranges);
    var points := Sweep(ranges);
    var beacons := BeaconsOnRow(sensors, row);
    NoBeaconPositionsSize(sensors, row);
    count := points - |beacons|;
  }

  /** A sensor at (0, 0) whose beacon is at (0, 1) rules out the three
      positions -1, 0 and 1 of row 0, none of them a beacon; the cells
      count finds two. */
  lemma CellsMissAPosition(sensors: seq<SensorWithBeacon>)
    requires sensors == [SensorWithBeacon(Vector2(0, 0), Vector2(0, 1))]
    ensures |Cells(RangesOnRow(sensors, 0))| == 2
    ensures |NoBeaconPositions(sensors, 0)| == 3
  {
    ExampleRowRanges(sensors);
    CellsOfOne(Range(-1, 1));
    assert Widen([Range(-1, 1)]) == [Range(-1, 2)];
    CellsOfOne(Range(-1, 2));
    assert BeaconsOnRow(sensors, 0) == BeaconsOnRow(sensors[..0], 0);
  }

  lemma ExampleRowRanges(sensors: seq<SensorWithBeacon>)
    requires sensors == [SensorWithBeacon(Vector2(0, 0), Vector2(0, 1))]
    ensures RangesOnRow(sensors, 0) == [Range(-1, 1)]
  {
    assert sensors[..0] == [];
    assert RangeOnRow(sensors[0], 0) == Some(Range(-1, 1));
  }

  lemma CellsOfOne(r: Range)
    ensures Cells([r]) == Interval(r.min, r.max)
  {
    assert [r][..0] == [];
  }
}
