/** The column-major quadrant scan (mapPoints) and the region count (doInBackground). */
module Counter {
  import opened Digits
  import opened Bounds
  import opened Grid
  import opened Quadrants
  import opened Connectivity
  import opened Tally
  import opened Columns

  /** The threshold the application asks about. */
  const ProblemSum := 25

  /** p is admissible, on the scan path of quadrant and within maxPoint on both axes. */
  predicate InScan(quadrant: Quadrant, maxSum: int, maxPoint: int, p: Point)
  {
    Admissible(maxSum, p) && Covers(quadrant, p) && Abs(p.0) <= maxPoint && Abs(p.1) <= maxPoint
  }

  /** The keys added since before are all on the scan path and admissible. */
  predicate Grew(quadrant: Quadrant, maxSum: int, maxPoint: int, before: set<Point>, keys: set<Point>)
  {
    before <= keys && forall p :: p in keys - before ==> InScan(quadrant, maxSum, maxPoint, p)
  }

  /** Every key is reachable from the origin under threshold t. */
  ghost predicate AllReachable(t: int, keys: set<Point>)
  {
    forall p :: p in keys ==> Reachable(t, p)
  }

  /** Every point of keys lies on the scan path of quadrant i and is reachable under threshold t. */
  ghost predicate FoundIn(i: int, t: int, keys: set<Point>)
  {
    0 <= i < |Table| && forall p :: p in keys ==> Covers(Table[i], p) && Reachable(t, p)
  }

  /**
   * Each found[i] is the key set a complete scan of quadrant i from an empty map ends with,
   * as traces[i] records it. Its instances are only needed where a trace is looked at.
   */
  ghost predicate ScansRecorded(maxSum: int, maxPoint: int, found: seq<set<Point>>, traces: seq<ScanTrace>)
  {
    && |traces| == |found| <= |Table|
    && forall i {:trigger traces[i]} :: 0 <= i < |found| ==> Scanned(Table[i], maxSum, maxPoint, true, {}, found[i], traces[i])
  }

  /**
   * mapPoints: walk one quadrant column by column, inserting every admissible point that
   * passes the connectivity test, and return how many were inserted. A column is abandoned
   * once more than SkipThreshold inadmissible points have been met since the last insertion
   * (a count that is not reset between columns). trace records where each column stopped.
   */
  method MapPoints(quadrant: Quadrant, maxSum: int, maxPoint: int, points: PointMap?) returns (total: int, ghost trace: ScanTrace)
    requires Valid(quadrant)
    modifies points
    ensures Scanned(quadrant, maxSum, maxPoint, points != null, old(Keys(points)), Keys(points), trace)
    ensures total == |Keys(points)| - |old(Keys(points))|
    ensures Grew(quadrant, maxSum, maxPoint, old(Keys(points)), Keys(points))
    ensures AxisWithin(maxSum, maxPoint) && AllReachable(maxSum, old(Keys(points))) ==> AllReachable(maxSum, Keys(points))
  {
    ghost var before := Keys(points);
    ghost var live := points != null;
    ghost var stops: map<int, int> := map[];
    ghost var runs: map<int, int> := map[];
    var validCount: int;
    var invalidCount := 0;
    total := 0;
    var x := quadrant.xStart;
    ScanStart(quadrant, maxSum, maxPoint, live, before);
    while Abs(x) <= maxPoint
      invariant ScanSoFar(quadrant, maxSum, maxPoint, live, before, Keys(points), stops, runs, x)
      invariant x == quadrant.xStart ==> invalidCount == 0
      invariant x != quadrant.xStart ==>
                  x - quadrant.xIncrement in runs && x - quadrant.xIncrement in stops
                  && invalidCount == RunBefore(quadrant, maxSum, x - quadrant.xIncrement, runs[x - quadrant.xIncrement],
                                               Keys(points) - before, stops[x - quadrant.xIncrement])
      invariant total == |Keys(points)| - |before|
      invariant points == null ==> Keys(points) == before
      decreases maxPoint - Abs(x)
    {
      ghost var mid, run := Keys(points), invalidCount;
      ghost var stop;
      validCount, invalidCount, stop := ScanColumn(quadrant, maxSum, maxPoint, x, invalidCount, points);
      ScanStep(quadrant, maxSum, maxPoint, live, before, mid, Keys(points), stops, runs, x, run, stop);
      stops, runs := stops[x := stop], runs[x := run];
      total := total + validCount;
      x := x + quadrant.xIncrement;
    }
    trace := ScanTrace(stops, runs, x);
    if live {
      ScanLinked(quadrant, maxSum, maxPoint, before, Keys(points), trace);
      if AxisWithin(maxSum, maxPoint) && AllReachable(maxSum, before) {
        ScanReachable(quadrant, maxSum, maxPoint, before, Keys(points), trace);
      }
    }
  }

  /**
   * The inner loop of mapPoints for column x: step y outward from the quadrant's start,
   * insert each admissible point that passes the connectivity test, and stop early once
   * invalidCount, carried over from earlier columns, exceeds SkipThreshold. stop is the y
   * at which the column ended.
   */
  method ScanColumn(quadrant: Quadrant, maxSum: int, maxPoint: int, x: int, invalidIn: int, points: PointMap?)
      returns (validCount: int, invalidCount: int, ghost stop: int)
    requires Valid(quadrant) && OnRay(quadrant.xStart, quadrant.xIncrement, x) && Abs(x) <= maxPoint
    modifies points
    ensures validCount == |Keys(points)| - |old(Keys(points))|
    ensures old(Keys(points)) <= Keys(points)
    ensures forall p :: p in Keys(points) - old(Keys(points)) ==>
              p.0 == x && Before(quadrant.yStart, quadrant.yIncrement, p.1, stop)
    ensures ColumnScanned(quadrant, maxSum, maxPoint, points != null, x, invalidIn, stop, old(Keys(points)), Keys(points))
    ensures invalidCount == RunBefore(quadrant, maxSum, x, invalidIn, Keys(points) - old(Keys(points)), stop)
  {
    ghost var entry := Keys(points);
    ghost var live := points != null;
    validCount := 0;
    invalidCount := invalidIn;
    var y := quadrant.yStart;
    stop := y;
    ColumnStart(quadrant, maxSum, maxPoint, live, x, invalidIn, entry);
    ghost var broke := false;
    while Abs(y) <= maxPoint
      invariant ColumnSoFar(quadrant, maxSum, maxPoint, live, x, invalidIn, y, entry, Keys(points))
      invariant invalidCount == RunBefore(quadrant, maxSum, x, invalidIn, Keys(points) - entry, y)
      invariant validCount == |Keys(points)| - |entry|
      decreases maxPoint - Abs(y)
    {
      var exceeded;
      validCount, invalidCount, exceeded := VisitPoint(quadrant, maxSum, maxPoint, x, y, validCount, invalidCount, points, invalidIn, entry);
      if exceeded {
        stop := y + quadrant.yIncrement;
        broke := true;
        assert InColumn(quadrant, x, stop, Keys(points) - entry);
        break;
      }
      y := y + quadrant.yIncrement;
    }
    if !broke {
      stop := y;
      ColumnEnd(quadrant, maxSum, maxPoint, live, x, invalidIn, y, entry, Keys(points));
    }
    assert entry == old(Keys(points));
  }

  /**
   * The body of the inner loop at (x, y): an admissible point is put when pointConnected
   * accepts it, which resets the run of inadmissible points; an inadmissible point extends
   * the run, and exceeded reports that the run has just passed SkipThreshold, where the
   * column breaks off. entry and invalidIn are the keys and the run the column started with.
   */
  method VisitPoint(quadrant: Quadrant, maxSum: int, maxPoint: int, x: int, y: int, validCount: int, invalidCount: int,
                    points: PointMap?, ghost invalidIn: int, ghost entry: set<Point>)
      returns (validOut: int, invalidOut: int, exceeded: bool)
    requires UnitSteps(quadrant) && Abs(y) <= maxPoint
    requires ColumnSoFar(quadrant, maxSum, maxPoint, points != null, x, invalidIn, y, entry, Keys(points))
    requires invalidCount == RunBefore(quadrant, maxSum, x, invalidIn, Keys(points) - entry, y)
    requires validCount == |Keys(points)| - |entry|
    modifies points
    ensures exceeded <==> !Admissible(maxSum, (x, y)) && invalidOut > SkipThreshold
    ensures !exceeded ==> ColumnSoFar(quadrant, maxSum, maxPoint, points != null, x, invalidIn, y + quadrant.yIncrement, entry, Keys(points))
    ensures exceeded ==> ColumnScanned(quadrant, maxSum, maxPoint, points != null, x, invalidIn, y + quadrant.yIncrement, entry, Keys(points))
    ensures exceeded ==> Keys(points) == old(Keys(points))
    ensures invalidOut == RunBefore(quadrant, maxSum, x, invalidIn, Keys(points) - entry, y + quadrant.yIncrement)
    ensures validOut == |Keys(points)| - |entry|
  {
    ghost var live := points != null;
    ghost var cur := Keys(points);
    validOut, invalidOut, exceeded := validCount, invalidCount, false;
    var score := PointSum(x, y);
    if score <= maxSum {
      var added := AddIfConnected(quadrant, x, y, points);
      ColumnVisitAdmissible(quadrant, maxSum, maxPoint, live, x, invalidIn, y, entry, cur, Keys(points), added);
      if added {
        validOut := validCount + 1;
        invalidOut := 0;
      }
    } else {
      invalidOut := invalidCount + 1;
      ColumnVisitInadmissible(quadrant, maxSum, maxPoint, live, x, invalidIn, y, entry, cur);
      exceeded := invalidOut > SkipThreshold;
    }
  }

  /** The accepting branch of the inner loop: put (x, y) when pointConnected says so. */
  method AddIfConnected(quadrant: Quadrant, x: int, y: int, points: PointMap?) returns (added: bool)
    modifies points
    ensures added == old(PointConnected(x, y, quadrant.xIncrement, quadrant.yIncrement, points))
    ensures added <==> points != null && (x, y) !in old(Keys(points)) && Links(quadrant, (x, y), old(Keys(points)))
    ensures Keys(points) == if added then old(Keys(points)) + {(x, y)} else old(Keys(points))
  {
    added := PointConnected(x, y, quadrant.xIncrement, quadrant.yIncrement, points);
    if added {
      points.Put((x, y));
    }
  }

  /**
   * A key a whole scan added was decided at its visit: it lies on the scan path within
   * maxPoint, it is admissible, and it passed the local test against the keys the scan ends with.
   */
  lemma ScanAdded(q: Quadrant, maxSum: int, maxPoint: int, before: set<Point>, keys: set<Point>, trace: ScanTrace, p: Point)
    requires Valid(q) && Scanned(q, maxSum, maxPoint, true, before, keys, trace) && p in keys - before
    ensures InScan(q, maxSum, maxPoint, p) && Links(q, p, keys)
  {
    assert ColumnDone(q, maxSum, maxPoint, true, before, keys, trace.stops, trace.runs, p.0);
    assert Passed(q, maxSum, maxPoint, true, p.0, p.1, before, keys);
  }

  /** The keys added since before are all on the scan path and passed the local test against keys. */
  ghost predicate LocallyLinked(q: Quadrant, maxSum: int, maxPoint: int, before: set<Point>, keys: set<Point>)
  {
    before <= keys && forall p :: p in keys - before ==> InScan(q, maxSum, maxPoint, p) && Links(q, p, keys)
  }

  /** A whole scan only adds keys, each on the scan path, admissible and passing the local test. */
  lemma ScanLinked(q: Quadrant, maxSum: int, maxPoint: int, before: set<Point>, keys: set<Point>, trace: ScanTrace)
    requires Valid(q) && Scanned(q, maxSum, maxPoint, true, before, keys, trace)
    ensures LocallyLinked(q, maxSum, maxPoint, before, keys)
    ensures Grew(q, maxSum, maxPoint, before, keys)
  {
    forall p | p in keys - before
      ensures InScan(q, maxSum, maxPoint, p) && Links(q, p, keys)
    {
      ScanAdded(q, maxSum, maxPoint, before, keys, trace, p);
    }
  }

  /**
   * Why the local test is sound, by induction along the scan order: an added key has a key
   * one step back along its row or column, which the scan visited earlier, or lies one step
   * off an axis, so it is reachable when the keys the scan started from were.
   */
  lemma {:induction false} LinkedReachable(q: Quadrant, t: int, L: int, before: set<Point>, keys: set<Point>, p: Point)
    requires Valid(q) && AxisWithin(t, L) && AllReachable(t, before)
    requires LocallyLinked(q, t, L, before, keys) && p in keys
    ensures Reachable(t, p)
    decreases Abs(p.0 - q.xStart), Abs(p.1 - q.yStart)
  {
    if p !in before {
      var back, down := (p.0 - q.xIncrement, p.1), (p.0, p.1 - q.yIncrement);
      if back in keys - before {
        LinkedReachable(q, t, L, before, keys, back);
      }
      if down in keys - before {
        LinkedReachable(q, t, L, before, keys, down);
      }
      AcceptedReachable(t, L, q, p.0, p.1, keys);
    }
  }

  /** A whole scan from reachable keys, with the axes admissible out to maxPoint, adds only reachable keys. */
  lemma ScanReachable(q: Quadrant, t: int, L: int, before: set<Point>, keys: set<Point>, trace: ScanTrace)
    requires Valid(q) && AxisWithin(t, L) && AllReachable(t, before)
    requires Scanned(q, t, L, true, before, keys, trace)
    ensures AllReachable(t, keys)
  {
    ScanLinked(q, t, L, before, keys, trace);
    forall p | p in keys
      ensures Reachable(t, p)
    {
      LinkedReachable(q, t, L, before, keys, p);
    }
  }

  /**
   * Why the local test is sound, one point at a time: with the axes admissible out to L, a
   * point of the quadrant's scan within L that passes the test is reachable as soon as the
   * keys one step back along its row and column are.
   */
  lemma AcceptedReachable(t: int, L: int, quadrant: Quadrant, x: int, y: int, keys: set<Point>)
    requires Valid(quadrant) && AxisWithin(t, L) && InScan(quadrant, t, L, (x, y))
    requires Links(quadrant, (x, y), keys)
    requires (x - quadrant.xIncrement, y) in keys ==> Reachable(t, (x - quadrant.xIncrement, y))
    requires (x, y - quadrant.yIncrement) in keys ==> Reachable(t, (x, y - quadrant.yIncrement))
    ensures Reachable(t, (x, y))
  {
    var back, down := (x - quadrant.xIncrement, y), (x, y - quadrant.yIncrement);
    if back in keys {
      ReachableStep(t, back, (x, y));
    } else if down in keys {
      ReachableStep(t, down, (x, y));
    } else if x - quadrant.xIncrement == 0 {
      StepOffAxis(t, L, y, (x, y));
    } else {
      StepOffAxis(t, L, x, (x, y));
    }
  }

  /** An admissible point one step off an axis, beside an axis point within L, is reachable. */
  lemma StepOffAxis(t: int, L: int, v: int, p: Point)
    requires AxisWithin(t, L) && Abs(v) <= L && Admissible(t, p)
    requires Adjacent((0, v), p) || Adjacent((v, 0), p)
    ensures Reachable(t, p)
  {
    AxisReachable(t, L, v);
    if Adjacent((0, v), p) {
      ReachableStep(t, (0, v), p);
    } else {
      ReachableStep(t, (v, 0), p);
    }
  }

  /**
   * At a threshold of 0 or below a scan finds nothing: only the origin scores 0, and no
   * quadrant's scan path contains it.
   */
  lemma NothingAtOrBelowZero(maxSum: int, maxPoint: int, i: int, keys: set<Point>)
    requires maxSum <= 0 && 0 <= i < |Table|
    requires Grew(Table[i], maxSum, maxPoint, {}, keys)
    ensures keys == {}
  {
    TablePartition(Origin);
    forall p | p in keys
      ensures false
    {
      assert p in keys - {};
      ScoreZeroOnlyAtOrigin(p.0, p.1);
    }
  }

  /**
   * A scan of quadrant i from an empty map, bounded by pointLimit, finds only points of that
   * quadrant that are reachable from the origin, and none when the threshold is 0 or below.
   */
  lemma ScanFindsReachable(maxSum: int, maxPoint: int, i: int, keys: set<Point>)
    requires IsAxisBound(Abs(maxSum), maxPoint) && 0 <= i < |Table|
    requires Grew(Table[i], maxSum, maxPoint, {}, keys)
    requires AxisWithin(maxSum, maxPoint) && AllReachable(maxSum, {}) ==> AllReachable(maxSum, keys)
    ensures forall p :: p in keys ==> Covers(Table[i], p) && Reachable(maxSum, p)
    ensures forall p :: Reachable(maxSum, p) ==> Abs(p.0) <= maxPoint && Abs(p.1) <= maxPoint
    ensures maxSum <= 0 ==> keys == {}
  {
    ReachableInsideBox(maxSum, maxPoint);
    if maxSum <= 0 {
      NothingAtOrBelowZero(maxSum, maxPoint, i, keys);
    } else {
      assert AxisWithin(maxSum, maxPoint);
      forall p | p in keys
        ensures Covers(Table[i], p)
      {
        assert p in keys - {};
      }
    }
  }

  /**
   * The two points of the problem statement: (59, 79) scores 30 and is out of bounds at the
   * application's threshold, (-5, -7) scores 12 and is within it.
   */
  lemma DocumentedPoints()
    ensures !Admissible(ProblemSum, (59, 79))
    ensures Admissible(ProblemSum, (-5, -7))
  {
    ScoreExamples();
  }

  /**
   * One scan of doInBackground: clear the map, then run mapPoints on quadrant i. The scan
   * finds only reachable points of that quadrant, none at a threshold of 0 or below, and
   * for quadrant 1 at a non-negative threshold at least the maxPoint points of its first row.
   */
  method ScanQuadrant(points: PointMap, i: int, maxSum: int, maxPoint: int) returns (count: int, ghost trace: ScanTrace)
    requires 0 <= i < |Table| && IsAxisBound(Abs(maxSum), maxPoint)
    modifies points
    ensures count == |points.keys|
    ensures Scanned(Table[i], maxSum, maxPoint, true, {}, points.keys, trace)
    ensures FoundIn(i, maxSum, points.keys)
    ensures maxSum <= 0 ==> points.keys == {}
    ensures i == 0 && maxSum >= 0 ==> count >= maxPoint
  {
    TableValid();
    points.Clear();
    count, trace := MapPoints(Table[i], maxSum, maxPoint, points);
    ScanFindsReachable(maxSum, maxPoint, i, points.keys);
    if i == 0 && maxSum >= 0 {
      FirstRowFound(maxSum, maxPoint, points.keys, trace);
    }
  }

  /**
   * The shortcut branch of doInBackground: clear the map, scan quadrant 1 once and count it
   * four times, which counts the distinct points of its four quarter-turned copies. found
   * and traces hold that one scan's keys and trace, in the shape the other branch returns.
   */
  method CountByShortcut(points: PointMap, maxSum: int, maxPoint: int)
      returns (total: int, ghost found: seq<set<Point>>, ghost traces: seq<ScanTrace>)
    requires IsAxisBound(Abs(maxSum), maxPoint)
    modifies points
    ensures |found| == 1 && total == 4 * |found[0]| && total + 1 == |{Origin} + Orbit(found[0])|
    ensures ScansRecorded(maxSum, maxPoint, found, traces)
    ensures forall i :: 0 <= i < |found| ==> FoundIn(i, maxSum, found[i])
    ensures maxSum <= 0 ==> total == 0
    ensures maxSum >= 0 ==> |found[0]| >= maxPoint
    ensures maxSum >= 0 ==> forall p :: p in {Origin} + Orbit(found[0]) ==> Reachable(maxSum, p)
  {
    var count, trace := ScanQuadrant(points, 0, maxSum, maxPoint);
    total := count * 4;
    var keys := points.keys;
    OptimizedCountIsDistinct(keys);
    OptimizedRegionReachable(maxSum, keys);
    found, traces := [keys], [trace];
    RecordedOnce(maxSum, maxPoint, keys, trace);
  }

  /** The record of a single scan of quadrant 1, as a one-element sequence of scans. */
  lemma RecordedOnce(maxSum: int, maxPoint: int, keys: set<Point>, trace: ScanTrace)
    requires Scanned(Table[0], maxSum, maxPoint, true, {}, keys, trace)
    requires FoundIn(0, maxSum, keys)
    ensures ScansRecorded(maxSum, maxPoint, [keys], [trace])
    ensures forall i :: 0 <= i < |[keys]| ==> FoundIn(i, maxSum, [keys][i])
  {
  }

  /**
   * The reference branch of doInBackground: clear the map and scan each of the four
   * quadrants in table order, adding up their counts.
   */
  method CountEachQuadrant(points: PointMap, maxSum: int, maxPoint: int)
      returns (total: int, ghost found: seq<set<Point>>, ghost traces: seq<ScanTrace>)
    requires IsAxisBound(Abs(maxSum), maxPoint)
    modifies points
    ensures |found| == |Table| && total == TotalSize(found)
    ensures ScansRecorded(maxSum, maxPoint, found, traces)
    ensures forall i :: 0 <= i < |Table| ==> FoundIn(i, maxSum, found[i])
    ensures total + 1 == |{Origin} + UnionAll(found)|
    ensures maxSum <= 0 ==> total == 0
    ensures maxSum >= 0 ==> |found[0]| >= maxPoint
  {
    total := 0;
    found, traces := [], [];
    for i := 0 to |Table|
      invariant |found| == i && |traces| == i
      invariant total == TotalSize(found)
      invariant ScansRecorded(maxSum, maxPoint, found, traces)
      invariant forall j :: 0 <= j < i ==> FoundIn(j, maxSum, found[j])
      invariant maxSum <= 0 ==> total == 0
      invariant i > 0 && maxSum >= 0 ==> |found[0]| >= maxPoint
    {
      var count, trace := ScanQuadrant(points, i, maxSum, maxPoint);
      total := total + count;
      assert (found + [points.keys])[..i] == found;
      found, traces := found + [points.keys], traces + [trace];
    }
    ReferenceCountIsDistinct(found);
  }

  /**
   * doInBackground for one threshold: 1 for the origin, plus either four times the count
   * of quadrant 1 (optimize) or the counts of all four quadrants, the map cleared before
   * each scan. found holds the map's keys after each scan, in table order, traces how each
   * scan went, and bound is the pointLimit both loops run to.
   */
  method CountPoints(maxSum: int, optimize: bool)
      returns (pointTotal: int, ghost found: seq<set<Point>>, ghost traces: seq<ScanTrace>, ghost bound: int)
    ensures pointTotal >= 1
    ensures optimize ==> |found| == 1 && pointTotal == 1 + 4 * |found[0]|
    ensures !optimize ==> |found| == |Table| && pointTotal == 1 + TotalSize(found)
    ensures IsAxisBound(Abs(maxSum), bound)
    ensures forall p :: Reachable(maxSum, p) ==> Abs(p.0) <= bound && Abs(p.1) <= bound
    ensures ScansRecorded(maxSum, bound, found, traces)
    ensures forall i :: 0 <= i < |found| ==> FoundIn(i, maxSum, found[i])
    ensures maxSum <= 0 ==> pointTotal == 1
    ensures maxSum >= 0 ==> |found[0]| >= bound
    ensures optimize && maxSum >= 0 ==> pointTotal >= 1 + 4 * bound
    ensures optimize ==> pointTotal == |{Origin} + Orbit(found[0])|
    ensures optimize && maxSum >= 0 ==> forall p :: p in {Origin} + Orbit(found[0]) ==> Reachable(maxSum, p)
    ensures !optimize ==> pointTotal == |{Origin} + UnionAll(found)|
  {
    var points := new PointMap();
    pointTotal := 1;
    var maxPoint := PointLimit(maxSum);
    bound := maxPoint;
    ReachableInsideBox(maxSum, bound);
    if optimize {
      var total;
      total, found, traces := CountByShortcut(points, maxSum, maxPoint);
      pointTotal := pointTotal + total;
    } else {
      var total;
      total, found, traces := CountEachQuadrant(points, maxSum, maxPoint);
      pointTotal := pointTotal + total;
    }
  }
}
