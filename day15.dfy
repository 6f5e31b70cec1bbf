/** Day 15: sensors that each know their closest beacon, and the places on
    the map where a beacon cannot be. */
module Day15 {
  import opened Wrappers
  import opened Text
  import Arith

  datatype Point = Point(x: int, y: int)

  /** `Point::dist`: the Manhattan distance. */
  function Dist(a: Point, b: Point): nat {
    Arith.Abs(a.x - b.x) + Arith.Abs(a.y - b.y)
  }

  /** The distance is symmetric, zero exactly between equal points, and
      obeys the triangle inequality. */
  lemma DistMetric(a: Point, b: Point, c: Point)
    ensures Dist(a, b) == Dist(b, a)
    ensures Dist(a, b) == 0 <==> a == b
    ensures Dist(a, c) <= Dist(a, b) + Dist(b, c)
  {
  }

  /** A sensor and the beacon closest to it. */
  datatype SensorData = SensorData(sensor: Point, beacon: Point)

  /** How far the sensor sees: no beacon is closer than its own. */
  function Radius(sd: SensorData): nat {
    Dist(sd.sensor, sd.beacon)
  }

  /** The point is within the sensor's radius, so no other beacon can be
      there. */
  predicate Covers(sd: SensorData, p: Point) {
    Dist(sd.sensor, p) <= Radius(sd)
  }

  /** `SensorData::p1_excludes`: the point is within the sensor's radius and
      is not the sensor's own beacon. */
  predicate P1Excludes(sd: SensorData, p: Point) {
    sd.beacon != p && Covers(sd, p)
  }

  /** `SensorData::excluded_xs_for_y`: the inclusive range of x that row `y`
      shares with the sensor's diamond, empty (`lo > hi`) when the row is
      out of reach. */
  function ExcludedXs(sd: SensorData, y: int): (r: (int, int)) {
    var slack := Radius(sd) - Dist(sd.sensor, Point(sd.sensor.x, y));
    (sd.sensor.x - slack, sd.sensor.x + slack)
  }

  /** `x` lies in the excluded range of row `y` exactly when the point is
      within the sensor's radius. */
  lemma ExcludedXsExact(sd: SensorData, y: int, x: int)
    ensures ExcludedXs(sd, y).0 <= x <= ExcludedXs(sd, y).1 <==> Covers(sd, Point(x, y))
  {
  }

  /** The ranges of the sensor at (8,7) whose beacon is at (2,10), rows -2
      to 8. */
  lemma ExcludedXsExample()
    ensures var sd := SensorData(Point(8, 7), Point(2, 10));
      && ExcludedXs(sd, -2) == (8, 8) && ExcludedXs(sd, -1) == (7, 9)
      && ExcludedXs(sd, 0) == (6, 10) && ExcludedXs(sd, 1) == (5, 11)
      && ExcludedXs(sd, 2) == (4, 12) && ExcludedXs(sd, 3) == (3, 13)
      && ExcludedXs(sd, 4) == (2, 14) && ExcludedXs(sd, 5) == (1, 15)
      && ExcludedXs(sd, 6) == (0, 16) && ExcludedXs(sd, 7) == (-1, 17)
      && ExcludedXs(sd, 8) == (0, 16)
  {
  }

  // Parsing

  /** `Point::from_str`: `x=…, y=…` (a missing piece or a malformed number
      is a panic, `None`). */
  function ParsePoint(s: string): (r: Option<Point>) {
    match SplitOnce(s, ", ")
    case None => None
    case Some((xs, ys)) =>
      var xd, yd := StripPrefix(xs, "x="), StripPrefix(ys, "y=");
      if xd.None? || yd.None? then None
      else
        match (ParseInt(xd.value), ParseInt(yd.value))
        case (Some(x), Some(y)) => Some(Point(x, y))
        case _ => None
  }

  /** `SensorData::from_str`: `Sensor at <point>: closest beacon is at
      <point>`. */
  function ParseSensor(s: string): (r: Option<SensorData>) {
    match StripPrefix(s, "Sensor at ")
    case None => None
    case Some(rest) =>
      match SplitOnce(rest, ": closest beacon is at ")
      case None => None
      case Some((sensor, beacon)) =>
        match (ParsePoint(sensor), ParsePoint(beacon))
        case (Some(sp), Some(bp)) => Some(SensorData(sp, bp))
        case _ => None
  }

  /** A point written as the puzzle writes it. */
  function PointText(p: Point): string {
    "x=" + IntToString(p.x) + ", y=" + IntToString(p.y)
  }

  /** A sensor line written as the puzzle writes it. */
  function SensorText(sd: SensorData): string {
    "Sensor at " + PointText(sd.sensor) + ": closest beacon is at " + PointText(sd.beacon)
  }

  lemma IntToStringPlain(i: int)
    ensures ',' !in IntToString(i) && ':' !in IntToString(i)
  {
    var s := IntToString(i);
    if i < 0 {
      assert s == "-" + NatToString(-i);
      assert AllDigits(NatToString(-i));
    } else {
      assert AllDigits(s);
    }
  }

  /** A written point parses back to itself. */
  lemma PointRoundTrip(p: Point)
    ensures ParsePoint(PointText(p)) == Some(p)
  {
    var xs := "x=" + IntToString(p.x);
    var ys := "y=" + IntToString(p.y);
    IntToStringPlain(p.x);
    assert PointText(p) == xs + ", " + ys;
    SplitOnceAfter(xs, ", ", ys);
    assert StripPrefix(xs, "x=") == Some(IntToString(p.x));
    assert StripPrefix(ys, "y=") == Some(IntToString(p.y));
    ParseIntToString(p.x);
    ParseIntToString(p.y);
  }

  /** A written sensor line parses back to itself. */
  lemma SensorRoundTrip(sd: SensorData)
    ensures ParseSensor(SensorText(sd)) == Some(sd)
  {
    var a := PointText(sd.sensor);
    var b := PointText(sd.beacon);
    var sep := ": closest beacon is at ";
    IntToStringPlain(sd.sensor.x);
    IntToStringPlain(sd.sensor.y);
    assert ':' !in a by {
      assert a == "x=" + IntToString(sd.sensor.x) + ", y=" + IntToString(sd.sensor.y);
    }
    assert SensorText(sd) == "Sensor at " + (a + sep + b);
    assert StripPrefix(SensorText(sd), "Sensor at ") == Some(a + sep + b);
    SplitOnceAfter(a, sep, b);
    PointRoundTrip(sd.sensor);
    PointRoundTrip(sd.beacon);
  }

  /** `s.trim().parse()`: one input line as a sensor. */
  function ParseLine(line: string): Option<SensorData> {
    ParseSensor(Trim(line))
  }

  /** Every line parsed as a sensor, or `None` when a line is malformed. */
  function ParseLines(lines: seq<string>): (r: Option<seq<SensorData>>)
    ensures r.Some? ==> |r.value| == |lines|
    ensures r.Some? ==> forall k :: 0 <= k < |lines| ==> ParseLine(lines[k]) == Some(r.value[k])
  {
    Collect(seq(|lines|, k requires 0 <= k < |lines| => ParseLine(lines[k])))
  }

  /** The puzzle input: one sensor per line. */
  function ScanSensors(input: string): (r: Option<seq<SensorData>>)
    ensures r.Some? ==> |r.value| == |Lines(input)|
  {
    ParseLines(Lines(input))
  }

  lemma SensorTextEnds(sd: SensorData)
    ensures SensorText(sd) != [] && !IsWhitespace(SensorText(sd)[0])
    ensures !IsWhitespace(SensorText(sd)[|SensorText(sd)| - 1]) && '\n' !in SensorText(sd)
  {
    PointTextEnds(sd.beacon);
    LastOfConcat("Sensor at " + PointText(sd.sensor) + ": closest beacon is at ", PointText(sd.beacon));
    SensorTextOneLine(sd);
  }

  lemma PointTextEnds(p: Point)
    ensures !IsWhitespace(PointText(p)[|PointText(p)| - 1])
  {
    var y := IntToString(p.y);
    LastOfConcat("x=" + IntToString(p.x) + ", y=", y);
    if p.y < 0 {
      NatToStringEnd(-p.y);
      LastOfConcat("-", NatToString(-p.y));
    } else {
      NatToStringEnd(p.y);
    }
  }

  lemma LastOfConcat(a: string, b: string)
    requires b != []
    ensures (a + b)[|a + b| - 1] == b[|b| - 1]
  {
  }

  lemma SensorTextOneLine(sd: SensorData)
    ensures '\n' !in SensorText(sd)
  {
    IntToStringAvoids(sd.sensor.x, '\n');
    IntToStringAvoids(sd.sensor.y, '\n');
    IntToStringAvoids(sd.beacon.x, '\n');
    IntToStringAvoids(sd.beacon.y, '\n');
    assert '\n' !in PointText(sd.sensor) && '\n' !in PointText(sd.beacon);
  }

  /** A written sensor line is one line, and trimming it changes nothing. */
  lemma LineRoundTrip(sd: SensorData)
    ensures '\n' !in SensorText(sd) && ParseLine(SensorText(sd)) == Some(sd)
  {
    SensorTextEnds(sd);
    TrimUnchanged(SensorText(sd));
    SensorRoundTrip(sd);
  }

  /** The written sensor lines of `data`. */
  function SensorTexts(data: seq<SensorData>): (r: seq<string>)
    ensures |r| == |data| && forall k :: 0 <= k < |data| ==> r[k] == SensorText(data[k])
  {
    seq(|data|, k requires 0 <= k < |data| => SensorText(data[k]))
  }

  /** A written puzzle input, one sensor per line, parses back to its
      sensors. */
  lemma InputRoundTrip(data: seq<SensorData>)
    requires |data| >= 1
    ensures ScanSensors(Join(SensorTexts(data), "\n")) == Some(data)
  {
    var lines := SensorTexts(data);
    TextsAreLines(data);
    forall k | 0 <= k < |lines|
      ensures ParseLine(lines[k]) == Some(data[k])
    {
      LineRoundTrip(data[k]);
    }
    ParseLinesAll(lines, data);
  }

  /** The written lines are split back into the same lines. */
  lemma TextsAreLines(data: seq<SensorData>)
    requires |data| >= 1
    ensures Lines(Join(SensorTexts(data), "\n")) == SensorTexts(data)
  {
    var lines := SensorTexts(data);
    TextsAvoidNewline(data);
    LinesOfJoin(lines);
  }

  lemma TextsAvoidNewline(data: seq<SensorData>)
    requires |data| >= 1
    ensures forall k :: 0 <= k < |data| ==> '\n' !in SensorTexts(data)[k]
    ensures SensorTexts(data)[|data| - 1] != []
  {
    forall k | 0 <= k < |data|
      ensures '\n' !in SensorTexts(data)[k]
    {
      SensorTextEnds(data[k]);
    }
  }

  lemma ParseLinesAll(lines: seq<string>, data: seq<SensorData>)
    requires |lines| == |data|
    requires forall k :: 0 <= k < |lines| ==> ParseLine(lines[k]) == Some(data[k])
    ensures ParseLines(lines) == Some(data)
  {
    var r := ParseLines(lines);
    assert r.Some?;
    assert r.value == data;
  }

  // Part 1: how many places on one row cannot hold a beacon

  /** Some sensor rules the point out as a place for a beacon. */
  predicate Excluded(data: seq<SensorData>, p: Point) {
    exists i :: 0 <= i < |data| && P1Excludes(data[i], p)
  }

  /** `data.iter().find(|sd| sd.p1_excludes(p))`: the first sensor that rules
      the point out. */
  function FindExcluding(data: seq<SensorData>, p: Point): (r: Option<nat>)
    ensures r.Some? <==> Excluded(data, p)
    ensures r.Some? ==> r.value < |data| && P1Excludes(data[r.value], p)
    ensures r.Some? ==> forall i :: 0 <= i < r.value ==> !P1Excludes(data[i], p)
  {
    if data == [] then None
    else if P1Excludes(data[0], p) then Some(0)
    else
      match FindExcluding(data[1..], p)
      case None => None
      case Some(i) => Some(i + 1)
  }

  /** The excluded x on row `y` between `lo` and `hi` inclusive. */
  ghost function RowExcluded(data: seq<SensorData>, y: int, lo: int, hi: int): set<int> {
    set x | lo <= x <= hi && Excluded(data, Point(x, y))
  }

  /** Growing the range by one column adds that column when it is
      excluded. */
  lemma RowExcludedSnoc(data: seq<SensorData>, y: int, lo: int, x: int)
    requires lo <= x
    ensures x !in RowExcluded(data, y, lo, x - 1)
    ensures RowExcluded(data, y, lo, x)
      == RowExcluded(data, y, lo, x - 1) + (if Excluded(data, Point(x, y)) then {x} else {})
  {
  }

  /** The loop `for x in minx..=maxx` of `p1::solve`: the number of excluded
      places on row `y` between `minx` and `maxx`. */
  method CountExcluded(data: seq<SensorData>, y: int, minx: int, maxx: int) returns (count: nat)
    ensures count == |RowExcluded(data, y, minx, maxx)|
  {
    count := 0;
    var x := minx;
    while x <= maxx
      invariant minx <= x && (x <= maxx + 1 || x == minx)
      invariant count == |RowExcluded(data, y, minx, x - 1)|
    {
      RowExcludedSnoc(data, y, minx, x);
      if FindExcluding(data, Point(x, y)).Some? {
        count := count + 1;
      }
      x := x + 1;
    }
    assert RowExcluded(data, y, minx, x - 1) == RowExcluded(data, y, minx, maxx);
  }

  /** The least element of a non-empty sequence. */
  function Min(s: seq<int>): (m: int)
    requires |s| >= 1
    ensures m in s && forall k :: 0 <= k < |s| ==> m <= s[k]
  {
    if |s| == 1 then s[0]
    else
      var rest := Min(s[1..]);
      assert forall k :: 1 <= k < |s| ==> s[k] == s[1..][k - 1];
      if s[0] <= rest then s[0] else rest
  }

  /** The greatest element of a non-empty sequence. */
  function Max(s: seq<int>): (m: int)
    requires |s| >= 1
    ensures m in s && forall k :: 0 <= k < |s| ==> s[k] <= m
  {
    if |s| == 1 then s[0]
    else
      var rest := Max(s[1..]);
      assert forall k :: 1 <= k < |s| ==> s[k] == s[1..][k - 1];
      if s[0] >= rest then s[0] else rest
  }

  /** The scan range `p1::solve` computes: from the least `sensor.x -
      beacon.x` to the greatest `sensor.x + beacon.x`. */
  function AsWrittenBounds(data: seq<SensorData>): (r: (int, int))
    requires |data| >= 1
    ensures forall k :: 0 <= k < |data| ==> r.0 <= data[k].sensor.x - data[k].beacon.x
    ensures forall k :: 0 <= k < |data| ==> data[k].sensor.x + data[k].beacon.x <= r.1
  {
    var lows := seq(|data|, k requires 0 <= k < |data| => data[k].sensor.x - data[k].beacon.x);
    var highs := seq(|data|, k requires 0 <= k < |data| => data[k].sensor.x + data[k].beacon.x);
    assert forall k :: 0 <= k < |data| ==> lows[k] == data[k].sensor.x - data[k].beacon.x;
    assert forall k :: 0 <= k < |data| ==> highs[k] == data[k].sensor.x + data[k].beacon.x;
    (Min(lows), Max(highs))
  }

  /** The scan range that reaches every sensor's diamond: from the least
      `sensor.x - radius` to the greatest `sensor.x + radius`. */
  function Bounds(data: seq<SensorData>): (r: (int, int))
    requires |data| >= 1
    ensures forall k :: 0 <= k < |data| ==> r.0 <= data[k].sensor.x - Radius(data[k])
    ensures forall k :: 0 <= k < |data| ==> data[k].sensor.x + Radius(data[k]) <= r.1
    ensures exists k :: 0 <= k < |data| && r.0 == data[k].sensor.x - Radius(data[k])
    ensures exists k :: 0 <= k < |data| && r.1 == data[k].sensor.x + Radius(data[k])
  {
    var lows := seq(|data|, k requires 0 <= k < |data| => data[k].sensor.x - Radius(data[k]));
    var highs := seq(|data|, k requires 0 <= k < |data| => data[k].sensor.x + Radius(data[k]));
    assert forall k :: 0 <= k < |data| ==> lows[k] == data[k].sensor.x - Radius(data[k]);
    assert forall k :: 0 <= k < |data| ==> highs[k] == data[k].sensor.x + Radius(data[k]);
    var m := Min(lows);
    var k :| 0 <= k < |lows| && lows[k] == m;
    var n := Max(highs);
    var j :| 0 <= j < |highs| && highs[j] == n;
    (m, n)
  }

  /** Every excluded place of every row lies within `Bounds`, so counting
      there counts the whole row. */
  lemma ExcludedInBounds(data: seq<SensorData>, p: Point)
    requires Excluded(data, p)
    ensures |data| >= 1 && Bounds(data).0 <= p.x <= Bounds(data).1
  {
    var i :| 0 <= i < |data| && P1Excludes(data[i], p);
    assert Bounds(data).0 <= data[i].sensor.x - Radius(data[i]);
    assert data[i].sensor.x + Radius(data[i]) <= Bounds(data).1;
  }

  /** `p1::solve` as written: counts the excluded places of row `y` within
      `AsWrittenBounds`; a malformed line or an empty input (no minimum) is
      a panic, `None`. */
  method SolveP1AsWritten(input: string, y: int) returns (r: Option<nat>)
    ensures r.Some? <==> ScanSensors(input).Some? && ScanSensors(input).value != []
    ensures r.Some? ==> var data := ScanSensors(input).value;
      r.value == |RowExcluded(data, y, AsWrittenBounds(data).0, AsWrittenBounds(data).1)|
  {
    var data := ScanSensors(input);
    if data.None? || data.value == [] {
      return None;
    }
    var (minx, maxx) := AsWrittenBounds(data.value);
    var count := CountExcluded(data.value, y, minx, maxx);
    return Some(count);
  }

  /** `p1::solve` with the scan range corrected to `Bounds`: the number of
      places on row `y` where no beacon can be. */
  method SolveP1(input: string, y: int) returns (r: Option<nat>)
    ensures r.Some? <==> ScanSensors(input).Some? && ScanSensors(input).value != []
    ensures r.Some? ==> var data := ScanSensors(input).value;
      && r.value == |RowExcluded(data, y, Bounds(data).0, Bounds(data).1)|
      && forall x :: Excluded(data, Point(x, y)) <==> x in RowExcluded(data, y, Bounds(data).0, Bounds(data).1)
  {
    var data := ScanSensors(input);
    if data.None? || data.value == [] {
      return None;
    }
    var (minx, maxx) := Bounds(data.value);
    var count := CountExcluded(data.value, y, minx, maxx);
    forall x | Excluded(data.value, Point(x, y))
      ensures minx <= x <= maxx
    {
      ExcludedInBounds(data.value, Point(x, y));
    }
    return Some(count);
  }

  /** The sensor at x=-100 whose beacon is at x=-101, both on row 0. */
  const Stray := SensorData(Point(-100, 0), Point(-101, 0))

  lemma StrayNumbers()
    ensures IntToString(-100) == "-100" && IntToString(-101) == "-101" && IntToString(0) == "0"
  {
    assert NatToString(10) == "10";
  }

  /** The one-line input describing `Stray` parses to it. */
  lemma StrayInput()
    ensures ScanSensors("Sensor at x=-100, y=0: closest beacon is at x=-101, y=0") == Some([Stray])
  {
    StrayText();
    InputRoundTrip([Stray]);
    assert SensorTexts([Stray]) == [SensorText(Stray)];
    JoinOne(SensorText(Stray), "\n");
  }

  lemma JoinOne(line: string, sep: string)
    ensures Join([line], sep) == line
  {
  }

  lemma StrayPoints()
    ensures PointText(Stray.sensor) == "x=-100, y=0" && PointText(Stray.beacon) == "x=-101, y=0"
  {
    StrayNumbers();
  }

  lemma StrayText()
    ensures SensorText(Stray) == "Sensor at x=-100, y=0: closest beacon is at x=-101, y=0"
  {
    StrayPoints();
    StrayHead();
    assert SensorText(Stray) == "Sensor at x=-100, y=0: closest beacon is at " + "x=-101, y=0";
  }

  lemma StrayHead()
    ensures "Sensor at " + "x=-100, y=0" + ": closest beacon is at "
      == "Sensor at x=-100, y=0: closest beacon is at "
  {
    assert "Sensor at " + "x=-100, y=0" == "Sensor at x=-100, y=0";
  }

  /** On that input the as-written scan range is empty, so row 0 counts no
      place, while x=-100 and x=-99 are both excluded there. */
  lemma StrayMissed()
    ensures AsWrittenBounds([Stray]) == (1, -201)
    ensures RowExcluded([Stray], 0, 1, -201) == {}
    ensures Bounds([Stray]) == (-101, -99)
    ensures |RowExcluded([Stray], 0, -101, -99)| == 2
  {
    var data := [Stray];
    assert Radius(Stray) == 1;
    StrayRow();
  }

  lemma StrayRow()
    ensures RowExcluded([Stray], 0, -101, -99) == {-100, -99}
  {
    var row := RowExcluded([Stray], 0, -101, -99);
    forall x
      ensures x in row <==> x in {-100, -99}
    {
      if -101 <= x <= -99 {
        StrayExcludes(x);
      }
    }
  }

  /** Only the beacon's own place is left open in the sensor's range on
      row 0. */
  lemma StrayExcludes(x: int)
    requires -101 <= x <= -99
    ensures Excluded([Stray], Point(x, 0)) <==> x != -101
  {
    var data := [Stray];
    assert data[0] == Stray;
    assert Excluded(data, Point(x, 0)) <==> P1Excludes(data[0], Point(x, 0));
  }

  // Part 2: the one place in the square that no sensor covers

  /** Some sensor's diamond holds the point. */
  predicate Covered(data: seq<SensorData>, p: Point) {
    exists i :: 0 <= i < |data| && Covers(data[i], p)
  }

  predicate SortedByX(data: seq<SensorData>) {
    forall i, j :: 0 <= i < j < |data| ==> data[i].sensor.x <= data[j].sensor.x
  }

  /** `sd` inserted into a list sorted by sensor x, after every sensor with
      the same or a smaller x. */
  function InsertByX(sd: SensorData, sorted: seq<SensorData>): (r: seq<SensorData>)
    requires SortedByX(sorted)
    ensures SortedByX(r) && multiset(r) == multiset(sorted) + multiset{sd}
    ensures |r| == |sorted| + 1 && (r[0] == sd || (sorted != [] && r[0] == sorted[0]))
  {
    if sorted == [] then [sd]
    else if sd.sensor.x < sorted[0].sensor.x then [sd] + sorted
    else
      var rest := InsertByX(sd, sorted[1..]);
      assert sorted == [sorted[0]] + sorted[1..];
      SortedCons(sorted[0], rest);
      [sorted[0]] + rest
  }

  lemma SortedCons(first: SensorData, rest: seq<SensorData>)
    requires SortedByX(rest) && (rest == [] || first.sensor.x <= rest[0].sensor.x)
    ensures SortedByX([first] + rest)
  {
    var r := [first] + rest;
    forall i, j | 0 <= i < j < |r|
      ensures r[i].sensor.x <= r[j].sensor.x
    {
      if i == 0 && j > 1 {
        assert rest[0].sensor.x <= rest[j - 1].sensor.x;
      }
    }
  }

  /** `data.sort_by(|l, r| l.sensor.x.cmp(&r.sensor.x))`: a sort by sensor
      x. Unlike the stable `sort_by`, sensors with equal x may end up in a
      different order; nothing that follows depends on that order. */
  function SortByX(data: seq<SensorData>): (r: seq<SensorData>)
    ensures SortedByX(r) && multiset(r) == multiset(data)
  {
    if data == [] then []
    else
      assert data == [data[0]] + data[1..];
      InsertByX(data[0], SortByX(data[1..]))
  }

  /** Sorting keeps the sensors, so it covers the same points. */
  lemma CoveredPermutation(data: seq<SensorData>, sorted: seq<SensorData>, p: Point)
    requires multiset(sorted) == multiset(data)
    ensures Covered(sorted, p) <==> Covered(data, p)
  {
    if Covered(data, p) {
      var i :| 0 <= i < |data| && Covers(data[i], p);
      assert data[i] in multiset(sorted);
      var j :| 0 <= j < |sorted| && sorted[j] == data[i];
    }
    if Covered(sorted, p) {
      var i :| 0 <= i < |sorted| && Covers(sorted[i], p);
      assert sorted[i] in multiset(data);
      var j :| 0 <= j < |data| && data[j] == sorted[i];
    }
  }

  /** `excluded_xs.contains(&x)`. */
  predicate InRange(r: (int, int), x: int) {
    r.0 <= x <= r.1
  }

  /** Jumping past the range of a later sensor never lands in the range of
      an earlier sensor that did not hold the starting point: the range
      ending further right would have to start further left too. */
  lemma JumpStaysOut(a: SensorData, b: SensorData, y: int, x: int)
    requires a.sensor.x <= b.sensor.x
    requires !InRange(ExcludedXs(a, y), x) && InRange(ExcludedXs(b, y), x)
    ensures !InRange(ExcludedXs(a, y), ExcludedXs(b, y).1 + 1)
  {
  }

  /** The inner loop of `p2::solve` for row `y`: `x` starts at 0 and jumps
      past every range that holds it, sensors taken in order of x, stopping
      once it passes `max`. The result is the least x from 0 on that no
      sensor covers, or some x beyond `max` when none up to `max` is free. */
  method ScanRow(sorted: seq<SensorData>, y: int, max: int) returns (x: int)
    requires SortedByX(sorted)
    ensures x >= 0
    ensures forall z :: 0 <= z < x ==> Covered(sorted, Point(z, y))
    ensures x <= max ==> !Covered(sorted, Point(x, y))
  {
    x := 0;
    var i := 0;
    while i < |sorted|
      invariant 0 <= i <= |sorted| && x >= 0
      invariant forall z :: 0 <= z < x ==> Covered(sorted, Point(z, y))
      invariant forall k :: 0 <= k < i ==> !InRange(ExcludedXs(sorted[k], y), x)
    {
      var excluded := ExcludedXs(sorted[i], y);
      if InRange(excluded, x) {
        var next := excluded.1 + 1;
        forall k | 0 <= k < i
          ensures !InRange(ExcludedXs(sorted[k], y), next)
        {
          JumpStaysOut(sorted[k], sorted[i], y, x);
        }
        forall z | 0 <= z < next
          ensures Covered(sorted, Point(z, y))
        {
          if z >= x {
            ExcludedXsExact(sorted[i], y, z);
          }
        }
        x := next;
      }
      if x > max {
        return;
      }
      i := i + 1;
    }
    forall k | 0 <= k < |sorted|
      ensures !Covers(sorted[k], Point(x, y))
    {
      ExcludedXsExact(sorted[k], y, x);
    }
  }

  /** Every point of the square from (0,0) to (`max`,`max`) on rows before
      `y` is covered. */
  ghost predicate RowsCovered(data: seq<SensorData>, max: int, y: int) {
    forall p: Point :: 0 <= p.y < y && 0 <= p.x <= max ==> Covered(data, p)
  }

  /** `p` is the first uncovered point of the square in row-major order. */
  ghost predicate FirstGap(data: seq<SensorData>, max: int, p: Point) {
    && 0 <= p.x <= max && 0 <= p.y <= max
    && !Covered(data, p)
    && RowsCovered(data, max, p.y)
    && forall z :: 0 <= z < p.x ==> Covered(data, Point(z, p.y))
  }

  /** There is at most one first gap. */
  lemma FirstGapUnique(data: seq<SensorData>, max: int, p: Point, q: Point)
    requires FirstGap(data, max, p) && FirstGap(data, max, q)
    ensures p == q
  {
    if p.y < q.y {
      assert false;
    } else if q.y < p.y {
      assert false;
    } else if p.x < q.x {
      assert false;
    } else if q.x < p.x {
      assert false;
    }
  }

  /** The tuning frequency of a point. */
  function Frequency(p: Point): int {
    p.x * 4000000 + p.y
  }

  /** The row loop of `p2::solve`: the first row with a free x up to `max`
      gives that point; `None` stands for the panic when every point of the
      square is covered. */
  method FindGap(data: seq<SensorData>, max: int) returns (r: Option<Point>)
    ensures r.Some? ==> FirstGap(data, max, r.value)
    ensures r.None? ==> RowsCovered(data, max, max + 1)
  {
    var sorted := SortByX(data);
    var y := 0;
    while y <= max
      invariant y >= 0 && (y <= max + 1 || y == 0)
      invariant RowsCovered(data, max, y)
    {
      var x := ScanRow(sorted, y, max);
      CoveredPermutation(data, sorted, Point(x, y));
      if x <= max {
        forall z | 0 <= z < x
          ensures Covered(data, Point(z, y))
        {
          CoveredPermutation(data, sorted, Point(z, y));
        }
        return Some(Point(x, y));
      }
      forall p: Point | 0 <= p.y < y + 1 && 0 <= p.x <= max
        ensures Covered(data, p)
      {
        if p.y == y {
          assert Covered(sorted, Point(p.x, y));
          CoveredPermutation(data, sorted, p);
        }
      }
      y := y + 1;
    }
    return None;
  }

  /** `p2::solve`: the tuning frequency of the first uncovered point of the
      square; `None` when a line is malformed or when the whole square is
      covered (the panic "Not found"). */
  method SolveP2(input: string, max: int) returns (r: Option<int>)
    ensures ScanSensors(input).None? ==> r.None?
    ensures ScanSensors(input).Some? && r.None? ==> RowsCovered(ScanSensors(input).value, max, max + 1)
    ensures r.Some? ==> exists p :: FirstGap(ScanSensors(input).value, max, p) && r.value == Frequency(p)
  {
    var data := ScanSensors(input);
    if data.None? {
      return None;
    }
    var gap := FindGap(data.value, max);
    if gap.None? {
      return None;
    }
    return Some(Frequency(gap.value));
  }
}
