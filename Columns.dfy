/**
 * What the column-major scan of mapPoints decides, point by point, stated on the keys it
 * ends with: which visited points become keys, where each column stops and why, and the run
 * of inadmissible points the early exit counts.
 */
module Columns {
  import opened Digits
  import opened Bounds
  import opened Grid
  import opened Quadrants

  /** Inadmissible points tolerated in a run before the rest of a column is skipped. */
  const SkipThreshold := 99

  /** The local test of pointConnected for p against keys, leaving out its check that p is new. */
  predicate Links(q: Quadrant, p: Point, keys: set<Point>)
  {
    || (q.xIncrement != 0 && (p.0 - q.xIncrement, p.1) in keys)
    || (q.yIncrement != 0 && (p.0, p.1 - q.yIncrement) in keys)
    || (p.0 - q.xIncrement == 0 && (0, p.1) !in keys)
    || (p.1 - q.yIncrement == 0 && (p.0, 0) !in keys)
  }

  /**
   * The decision at a visited point p, stated on the keys the scan ends with: p is a key
   * exactly when it already was one, or it is admissible and passes the local test.
   */
  predicate Decided(q: Quadrant, maxSum: int, p: Point, before: set<Point>, keys: set<Point>)
  {
    p in keys <==> p in before || (Admissible(maxSum, p) && Links(q, p, keys))
  }

  /**
   * The run of inadmissible points counted once the scan of column x has passed y, when the
   * column was entered with run and the scan inserted the points of added: an insertion
   * resets it, an inadmissible point adds one, any other point leaves it.
   */
  function RunAfter(q: Quadrant, maxSum: int, x: int, run: int, added: set<Point>, y: int): int
    decreases Abs(y - q.yStart)
  {
    if !IsStep(q.yIncrement) || !OnRay(q.yStart, q.yIncrement, y) then run
    else
      var prior := if y == q.yStart then run else RunAfter(q, maxSum, x, run, added, y - q.yIncrement);
      if (x, y) in added then 0 else if Admissible(maxSum, (x, y)) then prior else prior + 1
  }

  /** The run counted when the scan of column x reaches y. */
  function RunBefore(q: Quadrant, maxSum: int, x: int, run: int, added: set<Point>, y: int): int
  {
    if y == q.yStart then run else RunAfter(q, maxSum, x, run, added, y - q.yIncrement)
  }

  /** Key sets a and b differ at most in column c. */
  ghost predicate AgreeOff(c: int, a: set<Point>, b: set<Point>)
  {
    forall r: Point :: r.0 != c ==> (r in a <==> r in b)
  }

  /** The keys in added all lie in column x, before the scan of that column reaches next. */
  ghost predicate InColumn(q: Quadrant, x: int, next: int, added: set<Point>)
  {
    forall p :: p in added ==> p.0 == x && Before(q.yStart, q.yIncrement, p.1, next)
  }

  /** The scan passed (x, y): y was within maxPoint and, when there is a map, (x, y) was decided by the local test. */
  ghost predicate Passed(q: Quadrant, maxSum: int, maxPoint: int, live: bool, x: int, y: int,
                         before: set<Point>, keys: set<Point>)
  {
    Abs(y) <= maxPoint && (live ==> Decided(q, maxSum, (x, y), before, keys))
  }

  /** (x, y) did not end its column: it is admissible, or the run after it is still within SkipThreshold. */
  predicate Kept(q: Quadrant, maxSum: int, x: int, run: int, added: set<Point>, y: int)
  {
    Admissible(maxSum, (x, y)) || RunAfter(q, maxSum, x, run, added, y) <= SkipThreshold
  }

  /**
   * Why the scan of column x stopped at stop: stop is past maxPoint, or the point just before
   * it was inadmissible and took the run over SkipThreshold.
   */
  predicate Stopped(q: Quadrant, maxSum: int, maxPoint: int, x: int, run: int, added: set<Point>, stop: int)
  {
    || Abs(stop) > maxPoint
    || (&& stop != q.yStart
        && !Admissible(maxSum, (x, stop - q.yIncrement))
        && RunBefore(q, maxSum, x, run, added, stop) > SkipThreshold)
  }

  /**
   * The scan of column x, entered with keys before and run count run, has passed every y
   * before next without ending the column, and the keys it added are points it passed.
   */
  ghost predicate ColumnSoFar(q: Quadrant, maxSum: int, maxPoint: int, live: bool, x: int, run: int, next: int,
                              before: set<Point>, keys: set<Point>)
  {
    && OnRay(q.yStart, q.yIncrement, next)
    && before <= keys
    && InColumn(q, x, next, keys - before)
    && (forall y {:trigger Passed(q, maxSum, maxPoint, live, x, y, before, keys)} {:trigger Kept(q, maxSum, x, run, keys - before, y)} ::
          Before(q.yStart, q.yIncrement, y, next) ==>
            Passed(q, maxSum, maxPoint, live, x, y, before, keys) && Kept(q, maxSum, x, run, keys - before, y))
  }

  /**
   * The scan of column x, entered with keys before and run count run, stopped at stop: it
   * passed every y before stop, none but the last ended the column, and Stopped says why it ended.
   */
  ghost predicate ColumnScanned(q: Quadrant, maxSum: int, maxPoint: int, live: bool, x: int, run: int, stop: int,
                                before: set<Point>, keys: set<Point>)
  {
    && OnRay(q.yStart, q.yIncrement, stop)
    && (forall y {:trigger Passed(q, maxSum, maxPoint, live, x, y, before, keys)} ::
          Before(q.yStart, q.yIncrement, y, stop) ==> Passed(q, maxSum, maxPoint, live, x, y, before, keys))
    && (forall y :: Before(q.yStart, q.yIncrement, y, stop - q.yIncrement) ==> Kept(q, maxSum, x, run, keys - before, y))
    && Stopped(q, maxSum, maxPoint, x, run, keys - before, stop)
  }

  /** The run up to y depends only on which points of column x up to y were inserted. */
  lemma {:induction false} RunAfterAgree(q: Quadrant, maxSum: int, x: int, run: int, a: set<Point>, b: set<Point>, y: int)
    requires forall v :: Before(q.yStart, q.yIncrement, v, y + q.yIncrement) ==> ((x, v) in a <==> (x, v) in b)
    ensures RunAfter(q, maxSum, x, run, a, y) == RunAfter(q, maxSum, x, run, b, y)
    decreases Abs(y - q.yStart)
  {
    if IsStep(q.yIncrement) && OnRay(q.yStart, q.yIncrement, y) {
      assert Before(q.yStart, q.yIncrement, y, y + q.yIncrement);
      if y != q.yStart {
        RunAfterAgree(q, maxSum, x, run, a, b, y - q.yIncrement);
      }
    }
  }

  /** The run when the scan reaches y depends only on the points of column x before y. */
  lemma RunBeforeAgree(q: Quadrant, maxSum: int, x: int, run: int, a: set<Point>, b: set<Point>, y: int)
    requires forall v :: Before(q.yStart, q.yIncrement, v, y) ==> ((x, v) in a <==> (x, v) in b)
    ensures RunBefore(q, maxSum, x, run, a, y) == RunBefore(q, maxSum, x, run, b, y)
  {
    if y != q.yStart {
      RunAfterAgree(q, maxSum, x, run, a, b, y - q.yIncrement);
    }
  }

  /** The local test at p looks only at p's column, the column behind it and column 0 when that is the one behind. */
  lemma LinksFrame(q: Quadrant, p: Point, c: int, a: set<Point>, b: set<Point>)
    requires AgreeOff(c, a, b) && q.xIncrement != 0 && p.0 != c && p.0 - q.xIncrement != c
    ensures Links(q, p, a) <==> Links(q, p, b)
    ensures p in a <==> p in b
  {
    assert (p.0 - q.xIncrement, p.1) in a <==> (p.0 - q.xIncrement, p.1) in b;
    assert (p.0, p.1 - q.yIncrement) in a <==> (p.0, p.1 - q.yIncrement) in b;
    assert (p.0, 0) in a <==> (p.0, 0) in b;
    assert p.0 - q.xIncrement == 0 ==> ((0, p.1) in a <==> (0, p.1) in b);
  }

  /** Adding a point of p's column other than the one just behind p leaves the local test at p unchanged. */
  lemma LinksAdd(q: Quadrant, p: Point, r: Point, keys: set<Point>)
    requires UnitSteps(q) && r.0 == p.0 && r.1 != p.1 - q.yIncrement
    ensures Links(q, p, keys + {r}) <==> Links(q, p, keys)
  {
  }

  /** The empty column: nothing passed yet. */
  lemma ColumnStart(q: Quadrant, maxSum: int, maxPoint: int, live: bool, x: int, run: int, keys: set<Point>)
    requires UnitSteps(q)
    ensures ColumnSoFar(q, maxSum, maxPoint, live, x, run, q.yStart, keys, keys)
  {
  }

  /** A visit to (x, y) that adds at most (x, y) itself keeps what was decided before y. */
  lemma VisitKeepsEarlier(q: Quadrant, maxSum: int, maxPoint: int, live: bool, x: int, run: int, y: int, v: int,
                          before: set<Point>, cur: set<Point>, keys: set<Point>)
    requires UnitSteps(q) && Before(q.yStart, q.yIncrement, v, y)
    requires before <= cur && InColumn(q, x, y, cur - before)
    requires Passed(q, maxSum, maxPoint, live, x, v, before, cur) && Kept(q, maxSum, x, run, cur - before, v)
    requires keys == cur || keys == cur + {(x, y)}
    ensures Passed(q, maxSum, maxPoint, live, x, v, before, keys) && Kept(q, maxSum, x, run, keys - before, v)
  {
    if keys != cur {
      LinksAdd(q, (x, v), (x, y), cur);
    }
    RunAfterAgree(q, maxSum, x, run, keys - before, cur - before, v);
  }

  /**
   * Visiting an admissible (x, y): it becomes a key exactly when there is a map, (x, y) is new
   * and it passes the local test; an insertion resets the run, and nothing passed earlier changes.
   */
  lemma ColumnVisitAdmissible(q: Quadrant, maxSum: int, maxPoint: int, live: bool, x: int, run: int, y: int,
                              before: set<Point>, cur: set<Point>, keys: set<Point>, added: bool)
    requires UnitSteps(q) && ColumnSoFar(q, maxSum, maxPoint, live, x, run, y, before, cur)
    requires Abs(y) <= maxPoint && Admissible(maxSum, (x, y))
    requires added <==> live && (x, y) !in cur && Links(q, (x, y), cur)
    requires keys == if added then cur + {(x, y)} else cur
    ensures ColumnSoFar(q, maxSum, maxPoint, live, x, run, y + q.yIncrement, before, keys)
    ensures RunBefore(q, maxSum, x, run, keys - before, y + q.yIncrement)
            == if added then 0 else RunBefore(q, maxSum, x, run, cur - before, y)
  {
    var next := y + q.yIncrement;
    assert (x, y) !in cur - before;
    forall v | Before(q.yStart, q.yIncrement, v, y)
      ensures Passed(q, maxSum, maxPoint, live, x, v, before, keys) && Kept(q, maxSum, x, run, keys - before, v)
    {
      VisitKeepsEarlier(q, maxSum, maxPoint, live, x, run, y, v, before, cur, keys);
    }
    if added {
      LinksAdd(q, (x, y), (x, y), cur);
    }
    assert Passed(q, maxSum, maxPoint, live, x, y, before, keys);
    forall v | Before(q.yStart, q.yIncrement, v, next)
      ensures Passed(q, maxSum, maxPoint, live, x, v, before, keys) && Kept(q, maxSum, x, run, keys - before, v)
    {
      if v != y {
        assert Before(q.yStart, q.yIncrement, v, y);
      }
    }
    RunBeforeAgree(q, maxSum, x, run, keys - before, cur - before, y);
  }

  /**
   * Visiting an inadmissible (x, y): it is not a key and the run grows by one; the column
   * goes on while the run stays within SkipThreshold and ends at the next point otherwise.
   */
  lemma ColumnVisitInadmissible(q: Quadrant, maxSum: int, maxPoint: int, live: bool, x: int, run: int, y: int,
                                before: set<Point>, keys: set<Point>)
    requires UnitSteps(q) && ColumnSoFar(q, maxSum, maxPoint, live, x, run, y, before, keys)
    requires Abs(y) <= maxPoint && !Admissible(maxSum, (x, y))
    ensures RunBefore(q, maxSum, x, run, keys - before, y + q.yIncrement) == RunBefore(q, maxSum, x, run, keys - before, y) + 1
    ensures RunBefore(q, maxSum, x, run, keys - before, y + q.yIncrement) <= SkipThreshold ==>
              ColumnSoFar(q, maxSum, maxPoint, live, x, run, y + q.yIncrement, before, keys)
    ensures RunBefore(q, maxSum, x, run, keys - before, y + q.yIncrement) > SkipThreshold ==>
              ColumnScanned(q, maxSum, maxPoint, live, x, run, y + q.yIncrement, before, keys)
  {
    var next := y + q.yIncrement;
    assert (x, y) !in keys - before;
    assert Passed(q, maxSum, maxPoint, live, x, y, before, keys);
    assert next - q.yIncrement == y;
    forall v | Before(q.yStart, q.yIncrement, v, next)
      ensures Passed(q, maxSum, maxPoint, live, x, v, before, keys)
      ensures v != y ==> Kept(q, maxSum, x, run, keys - before, v)
    {
      if v != y {
        assert Before(q.yStart, q.yIncrement, v, y);
      }
    }
  }

  /** A column whose scan has run past maxPoint is finished. */
  lemma ColumnEnd(q: Quadrant, maxSum: int, maxPoint: int, live: bool, x: int, run: int, y: int,
                  before: set<Point>, keys: set<Point>)
    requires UnitSteps(q) && ColumnSoFar(q, maxSum, maxPoint, live, x, run, y, before, keys) && Abs(y) > maxPoint
    ensures ColumnScanned(q, maxSum, maxPoint, live, x, run, y, before, keys)
  {
    forall v | Before(q.yStart, q.yIncrement, v, y)
      ensures Passed(q, maxSum, maxPoint, live, x, v, before, keys)
    {
      assert Passed(q, maxSum, maxPoint, live, x, v, before, keys);
    }
    forall v | Before(q.yStart, q.yIncrement, v, y - q.yIncrement)
      ensures Kept(q, maxSum, x, run, keys - before, v)
    {
      assert Before(q.yStart, q.yIncrement, v, y);
    }
  }

  /** A finished column keeps its record when keys change only in another column it does not look at. */
  lemma ColumnScannedFrame(q: Quadrant, maxSum: int, maxPoint: int, live: bool, x: int, run: int, stop: int,
                           before: set<Point>, a: set<Point>, b: set<Point>, c: int)
    requires UnitSteps(q) && ColumnScanned(q, maxSum, maxPoint, live, x, run, stop, before, a)
    requires AgreeOff(c, a, b) && x != c && x - q.xIncrement != c
    ensures ColumnScanned(q, maxSum, maxPoint, live, x, run, stop, before, b)
  {
    assert forall v :: (x, v) in a - before <==> (x, v) in b - before;
    forall y | Before(q.yStart, q.yIncrement, y, stop)
      ensures Passed(q, maxSum, maxPoint, live, x, y, before, b)
    {
      assert Passed(q, maxSum, maxPoint, live, x, y, before, a);
      LinksFrame(q, (x, y), c, a, b);
    }
    forall y | Before(q.yStart, q.yIncrement, y, stop - q.yIncrement)
      ensures Kept(q, maxSum, x, run, b - before, y)
    {
      assert Kept(q, maxSum, x, run, a - before, y);
      RunAfterAgree(q, maxSum, x, run, a - before, b - before, y);
    }
    RunBeforeAgree(q, maxSum, x, run, a - before, b - before, stop);
  }

  /** A finished column keeps its record when restated from a starting map that agrees on column x. */
  lemma ColumnScannedRebase(q: Quadrant, maxSum: int, maxPoint: int, live: bool, x: int, run: int, stop: int,
                            mid: set<Point>, before: set<Point>, keys: set<Point>)
    requires ColumnScanned(q, maxSum, maxPoint, live, x, run, stop, mid, keys)
    requires forall v :: (x, v) in mid <==> (x, v) in before
    ensures ColumnScanned(q, maxSum, maxPoint, live, x, run, stop, before, keys)
  {
    assert forall v :: (x, v) in keys - mid <==> (x, v) in keys - before;
    forall y | Before(q.yStart, q.yIncrement, y, stop)
      ensures Passed(q, maxSum, maxPoint, live, x, y, before, keys)
    {
      assert Passed(q, maxSum, maxPoint, live, x, y, mid, keys);
    }
    forall y | Before(q.yStart, q.yIncrement, y, stop - q.yIncrement)
      ensures Kept(q, maxSum, x, run, keys - before, y)
    {
      assert Kept(q, maxSum, x, run, keys - mid, y);
      RunAfterAgree(q, maxSum, x, run, keys - mid, keys - before, y);
    }
    RunBeforeAgree(q, maxSum, x, run, keys - mid, keys - before, stop);
  }

  /** Where each column's scan stopped, the run it was entered with, and the first column not scanned. */
  datatype ScanTrace = ScanTrace(stops: map<int, int>, runs: map<int, int>, next: int)

  /** Every key added lies in a column before next, before the point where that column stopped. */
  ghost predicate KeysPlaced(q: Quadrant, before: set<Point>, keys: set<Point>, stops: map<int, int>, next: int)
  {
    && before <= keys
    && forall p :: p in keys - before ==>
         && Before(q.xStart, q.xIncrement, p.0, next) && p.0 in stops
         && Before(q.yStart, q.yIncrement, p.1, stops[p.0])
  }

  /** Column x lies within maxPoint and was scanned as ColumnScanned says, stopping at stops[x]. */
  ghost predicate ColumnDone(q: Quadrant, maxSum: int, maxPoint: int, live: bool, before: set<Point>, keys: set<Point>,
                             stops: map<int, int>, runs: map<int, int>, x: int)
  {
    && Abs(x) <= maxPoint && x in stops && x in runs
    && ColumnScanned(q, maxSum, maxPoint, live, x, runs[x], stops[x], before, keys)
  }

  /** Every column before next is done. */
  ghost predicate ColumnsDone(q: Quadrant, maxSum: int, maxPoint: int, live: bool, before: set<Point>, keys: set<Point>,
                              stops: map<int, int>, runs: map<int, int>, next: int)
  {
    forall x {:trigger ColumnDone(q, maxSum, maxPoint, live, before, keys, stops, runs, x)} ::
      Before(q.xStart, q.xIncrement, x, next) ==> ColumnDone(q, maxSum, maxPoint, live, before, keys, stops, runs, x)
  }

  /** Column x + xIncrement was entered with the run column x left when it stopped. */
  ghost predicate ChainLink(q: Quadrant, maxSum: int, added: set<Point>, stops: map<int, int>, runs: map<int, int>, x: int)
  {
    && x in runs && x in stops && x + q.xIncrement in runs
    && runs[x + q.xIncrement] == RunBefore(q, maxSum, x, runs[x], added, stops[x])
  }

  /** The first column was entered with run 0, and each later one with the run its predecessor left. */
  ghost predicate RunsChained(q: Quadrant, maxSum: int, before: set<Point>, keys: set<Point>,
                              stops: map<int, int>, runs: map<int, int>, next: int)
  {
    && (next != q.xStart ==> q.xStart in runs && runs[q.xStart] == 0)
    && forall x :: Before(q.xStart, q.xIncrement, x, next - q.xIncrement) ==> ChainLink(q, maxSum, keys - before, stops, runs, x)
  }

  /** The scan of q from keys before has covered the columns before next, as the three parts say. */
  ghost predicate ScanSoFar(q: Quadrant, maxSum: int, maxPoint: int, live: bool, before: set<Point>, keys: set<Point>,
                            stops: map<int, int>, runs: map<int, int>, next: int)
  {
    && OnRay(q.xStart, q.xIncrement, next)
    && KeysPlaced(q, before, keys, stops, next)
    && ColumnsDone(q, maxSum, maxPoint, live, before, keys, stops, runs, next)
    && RunsChained(q, maxSum, before, keys, stops, runs, next)
  }

  /**
   * A whole mapPoints scan of q, from keys before to keys, as trace records it: every column
   * from the first to the last within maxPoint was scanned, and trace.next is the first beyond.
   */
  ghost predicate Scanned(q: Quadrant, maxSum: int, maxPoint: int, live: bool, before: set<Point>, keys: set<Point>,
                          trace: ScanTrace)
  {
    Abs(trace.next) > maxPoint && ScanSoFar(q, maxSum, maxPoint, live, before, keys, trace.stops, trace.runs, trace.next)
  }

  /** Before the first column nothing is scanned. */
  lemma ScanStart(q: Quadrant, maxSum: int, maxPoint: int, live: bool, keys: set<Point>)
    requires UnitSteps(q)
    ensures ScanSoFar(q, maxSum, maxPoint, live, keys, keys, map[], map[], q.xStart)
  {
  }

  /** Adding column x's keys places them in column x, before its stop. */
  lemma ScanStepPlaced(q: Quadrant, before: set<Point>, mid: set<Point>, keys: set<Point>,
                       stops: map<int, int>, x: int, stop: int)
    requires UnitSteps(q) && OnRay(q.xStart, q.xIncrement, x)
    requires KeysPlaced(q, before, mid, stops, x)
    requires mid <= keys && forall p :: p in keys - mid ==> p.0 == x && Before(q.yStart, q.yIncrement, p.1, stop)
    ensures KeysPlaced(q, before, keys, stops[x := stop], x + q.xIncrement)
  {
    forall p | p in keys - before
      ensures Before(q.xStart, q.xIncrement, p.0, x + q.xIncrement) && p.0 in stops[x := stop]
      ensures Before(q.yStart, q.yIncrement, p.1, stops[x := stop][p.0])
    {
      if p !in mid {
        assert p in keys - mid;
      } else {
        assert p in mid - before;
      }
    }
  }

  /** Column x joins the finished columns, and the earlier ones keep their records. */
  lemma ScanStepColumns(q: Quadrant, maxSum: int, maxPoint: int, live: bool, before: set<Point>, mid: set<Point>,
                        keys: set<Point>, stops: map<int, int>, runs: map<int, int>, x: int, run: int, stop: int)
    requires UnitSteps(q) && OnRay(q.xStart, q.xIncrement, x) && Abs(x) <= maxPoint
    requires KeysPlaced(q, before, mid, stops, x)
    requires ColumnsDone(q, maxSum, maxPoint, live, before, mid, stops, runs, x)
    requires mid <= keys && forall p :: p in keys - mid ==> p.0 == x
    requires ColumnScanned(q, maxSum, maxPoint, live, x, run, stop, mid, keys)
    ensures ColumnsDone(q, maxSum, maxPoint, live, before, keys, stops[x := stop], runs[x := run], x + q.xIncrement)
  {
    assert AgreeOff(x, mid, keys);
    forall v
      ensures (x, v) in mid <==> (x, v) in before
    {
      assert (x, v) !in mid - before;
    }
    ColumnScannedRebase(q, maxSum, maxPoint, live, x, run, stop, mid, before, keys);
    var stops', runs' := stops[x := stop], runs[x := run];
    assert ColumnDone(q, maxSum, maxPoint, live, before, keys, stops', runs', x);
    forall x' | Before(q.xStart, q.xIncrement, x', x)
      ensures ColumnDone(q, maxSum, maxPoint, live, before, keys, stops', runs', x')
    {
      assert ColumnDone(q, maxSum, maxPoint, live, before, mid, stops, runs, x');
      ColumnScannedFrame(q, maxSum, maxPoint, live, x', runs[x'], stops[x'], before, mid, keys, x);
    }
    forall x' | Before(q.xStart, q.xIncrement, x', x + q.xIncrement)
      ensures ColumnDone(q, maxSum, maxPoint, live, before, keys, stops', runs', x')
    {
      if x' != x {
        assert Before(q.xStart, q.xIncrement, x', x);
      }
    }
  }

  /** Column x was entered with the run its predecessor left, and earlier links of the chain stay. */
  lemma ScanStepRuns(q: Quadrant, maxSum: int, before: set<Point>, mid: set<Point>, keys: set<Point>,
                     stops: map<int, int>, runs: map<int, int>, x: int, run: int, stop: int)
    requires UnitSteps(q) && OnRay(q.xStart, q.xIncrement, x)
    requires RunsChained(q, maxSum, before, mid, stops, runs, x)
    requires x == q.xStart ==> run == 0
    requires x != q.xStart ==>
               x - q.xIncrement in runs && x - q.xIncrement in stops
               && run == RunBefore(q, maxSum, x - q.xIncrement, runs[x - q.xIncrement], mid - before, stops[x - q.xIncrement])
    requires mid <= keys && forall p :: p in keys - mid ==> p.0 == x
    ensures RunsChained(q, maxSum, before, keys, stops[x := stop], runs[x := run], x + q.xIncrement)
  {
    var stops', runs' := stops[x := stop], runs[x := run];
    forall x' | Before(q.xStart, q.xIncrement, x', x)
      ensures ChainLink(q, maxSum, keys - before, stops', runs', x')
    {
      assert forall v :: (x', v) in mid - before <==> (x', v) in keys - before;
      if x' + q.xIncrement == x {
        RunBeforeAgree(q, maxSum, x', runs[x'], mid - before, keys - before, stops[x']);
      } else {
        assert Before(q.xStart, q.xIncrement, x', x - q.xIncrement);
        assert ChainLink(q, maxSum, mid - before, stops, runs, x');
        RunBeforeAgree(q, maxSum, x', runs[x'], mid - before, keys - before, stops[x']);
      }
    }
  }

  /** Scanning column x extends the record of the scan by that column. */
  lemma ScanStep(q: Quadrant, maxSum: int, maxPoint: int, live: bool, before: set<Point>, mid: set<Point>, keys: set<Point>,
                 stops: map<int, int>, runs: map<int, int>, x: int, run: int, stop: int)
    requires UnitSteps(q) && Abs(x) <= maxPoint
    requires ScanSoFar(q, maxSum, maxPoint, live, before, mid, stops, runs, x)
    requires x == q.xStart ==> run == 0
    requires x != q.xStart ==>
               x - q.xIncrement in runs && x - q.xIncrement in stops
               && run == RunBefore(q, maxSum, x - q.xIncrement, runs[x - q.xIncrement], mid - before, stops[x - q.xIncrement])
    requires mid <= keys && forall p :: p in keys - mid ==> p.0 == x && Before(q.yStart, q.yIncrement, p.1, stop)
    requires ColumnScanned(q, maxSum, maxPoint, live, x, run, stop, mid, keys)
    ensures ScanSoFar(q, maxSum, maxPoint, live, before, keys, stops[x := stop], runs[x := run], x + q.xIncrement)
    ensures RunBefore(q, maxSum, x, run, keys - mid, stop) == RunBefore(q, maxSum, x, run, keys - before, stop)
  {
    ScanStepPlaced(q, before, mid, keys, stops, x, stop);
    ScanStepColumns(q, maxSum, maxPoint, live, before, mid, keys, stops, runs, x, run, stop);
    ScanStepRuns(q, maxSum, before, mid, keys, stops, runs, x, run, stop);
    forall v
      ensures (x, v) in keys - mid <==> (x, v) in keys - before
    {
      assert (x, v) !in mid - before;
    }
    RunBeforeAgree(q, maxSum, x, run, keys - mid, keys - before, stop);
  }

  /** The points (1, 0) to (L, 0) of the first row. */
  function FirstRow(L: int): (r: set<Point>)
    ensures forall p :: p in r <==> 1 <= p.0 <= L && p.1 == 0
  {
    set k | 1 <= k <= L :: (k, 0)
  }

  /** The first row out to L has L points. */
  lemma {:induction false} FirstRowSize(L: nat)
    ensures |FirstRow(L)| == L
  {
    if L > 0 {
      FirstRowSize(L - 1);
      assert FirstRow(L) == FirstRow(L - 1) + {(L, 0)};
    }
  }

  /**
   * The early exit never costs quadrant 1 its first row: (k, 0) for 1 <= k <= L is the first
   * point its column visits, is admissible under the axis bound, and follows (k - 1, 0) or,
   * for k = 1, the free axis point (0, 0).
   */
  lemma {:induction false} FirstRowPointFound(t: int, L: int, keys: set<Point>, trace: ScanTrace, k: int)
    requires IsAxisBound(t, L) && 1 <= k <= L
    requires Scanned(Table[0], t, L, true, {}, keys, trace)
    ensures (k, 0) in keys
    decreases k
  {
    var q := Table[0];
    assert Before(q.xStart, q.xIncrement, k, trace.next);
    assert ColumnDone(q, t, L, true, {}, keys, trace.stops, trace.runs, k);
    var stop := trace.stops[k];
    assert Before(q.yStart, q.yIncrement, 0, stop);
    assert Passed(q, t, L, true, k, 0, {}, keys);
    assert AxisAdmissible(t, k);
    assert Admissible(t, (k, 0));
    if k > 1 {
      FirstRowPointFound(t, L, keys, trace, k - 1);
    } else {
      assert (0, 0) !in keys - {};
    }
  }

  /** A scan of quadrant 1 from an empty map, bounded by the axis bound, finds at least its first row. */
  lemma FirstRowFound(t: int, L: int, keys: set<Point>, trace: ScanTrace)
    requires IsAxisBound(t, L)
    requires Scanned(Table[0], t, L, true, {}, keys, trace)
    ensures FirstRow(L) <= keys
    ensures |keys| >= L
  {
    forall p | p in FirstRow(L)
      ensures p in keys
    {
      FirstRowPointFound(t, L, keys, trace, p.0);
    }
    FirstRowSize(L);
    assert keys == FirstRow(L) + (keys - FirstRow(L));
  }
}
