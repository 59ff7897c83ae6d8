# WalkTheMonkey lattice-point counter — Dafny model

This project models the counting core of `src/com/main/Main.java`.

A monkey starts at the origin of the integer grid and moves one unit left, right, up or down. A point (x, y) is accessible when the decimal digits of |x| and |y| together add up to at most a threshold (25 in the application). The program counts the accessible points as follows:

- it bounds the search per axis with `pointLimit`;
- it scans a quadrant column by column (`mapPoints`), accepting an admissible point when the local test `pointConnected` links it to a point already accepted or to an axis;
- it adds 1 for the origin, and then either 4 times the quadrant-1 count (the symmetry shortcut) or the counts of all four quadrants, clearing the map before each scan.

Modules, one file each:

- `Digits`: the digit sum `sum(int)` as a loop proved against the recursive `DigitSum`, and the point score `sum(int, int)`.
- `Bounds`: `pointLimit` as a loop proved to return the unique axis bound, with the three documented values.
- `Grid`: points, admissibility, and reachability from the origin by unit steps through admissible points (the monkey's walk). It proves that reachability is invariant under a quarter turn, and that every reachable point lies inside the box that `pointLimit` gives.
- `Quadrants`: the immutable `Quadrant` descriptor and the fixed table of four. The four scan paths partition the plane minus the origin, and each is the previous one turned a quarter.
- `Connectivity`: the point map, as a class whose key set the scan updates in place, and `pointConnected`.
- `Columns`: what the column-major scan decides, stated on the keys it ends with. For each visited point it states whether the point became a key. For each column it states where the scan stopped and why: past `maxPoint`, or the run of inadmissible points went over 99. It also states which run each column was entered with.
- `Counter`: `mapPoints` (outer loop, inner loop, loop body and accepting branch), proved against the `Columns` record, and the orchestration in `doInBackground`.
- `Tally`: why both totals count distinct points. Scans of different quadrants never overlap and never contain the origin, and the four quarter-turn copies of a quadrant-1 set are disjoint and the same size.

What is proved about the scan:
- `mapPoints` ends in exactly the state the column-by-column record describes.
  - Every column from the first to the last within `maxPoint` was scanned.
  - In each column, every visited point became a key exactly when it already was one, or it is admissible and passes the local test of `pointConnected`.
  - Each column stopped past `maxPoint`, or right after the inadmissible point that took the run over 99. No earlier point of the column ended it.
  - The first column was entered with a run of 0, and each later column with the run the previous one left.
- The returned count is exactly the number of keys added, and the map only grows.
- Every point the scan inserts is admissible, lies on the quadrant's scan path and is within `maxPoint` on both axes.
- Every point it inserts is reachable from the origin. This follows from the record by induction along the scan order, because each local decision is sound.
- From an empty map at a non-negative threshold, the scan of quadrant 1 finds at least the whole first row (1, 0) to (`maxPoint`, 0), so its count is at least `maxPoint`.

What is proved about the orchestration:
- The reference total equals the number of distinct points found, plus the origin.
- The shortcut total is the number of distinct points in the origin plus the four rotated copies of the quadrant-1 result.
- All the points counted either way are reachable.
- Every reachable point lies within `pointLimit` on both axes, so the bound itself loses no point.

Nothing here claims that the scan finds every reachable point: the skip heuristic is not proved safe, so no claim is made about the headline count.

The model follows the code on two points a reader might expect otherwise:
- The run of inadmissible points behind the early exit is not reset at the start of each column (`src/com/main/Main.java:208`, `:219`). Only an acceptance resets it, so a run carries over from one column into the next.
- A negative threshold is not an error. `pointLimit` works on `|value|` and the scan compares scores with the signed threshold, so any threshold of 0 or below yields a total of 1.

## Model

| member | source | states |
|---|---|---|
| Digits.DigitSum | src/com/main/Main.java:132-144 | The reference digit sum is never larger than its argument and is 0 exactly for 0. |
| Digits.Sum | src/com/main/Main.java:132-144 | The `%10` / `/10` loop over `Math.abs(value)` returns the digit sum of `|value|`, so the result is non-negative and 0 for 0. |
| Digits.DigitSumOfNegation | src/com/main/Main.java:135 | Because the loop runs on the absolute value, `sum(-v) == sum(v)`. |
| Digits.PointSum | src/com/main/Main.java:153-155 | The score of (x, y) is the digit sum of `|x|` plus that of `|y|`. |
| Digits.ScoreZeroOnlyAtOrigin | src/com/main/Main.java:153-155 | A point scores 0 exactly when it is the origin. |
| Digits.ScoreSymmetric | src/com/main/Main.java:17-22 | The score is unchanged by reflecting either coordinate and by swapping the coordinates. |
| Digits.ScoreExamples | src/com/main/Main.java:20-22 | (59, 79) scores 30 and (-5, -7) scores 12, as the problem statement says. |
| Bounds.PointLimit | src/com/main/Main.java:247-256 | The loop stops, and returns an L >= 0 such that every k in 1..L has digit sum at most `|value|` while L + 1 exceeds it. |
| Bounds.RepunitDigitSum | src/com/main/Main.java:251-253 | The number written with k ones has digit sum k, so the `pointLimit` loop always reaches a number past any threshold. |
| Bounds.AxisBoundUnique | src/com/main/Main.java:234-245 | At most one L satisfies the stopping rule, so the result of `pointLimit` is determined by its input. |
| Bounds.AxisBoundOf5 | src/com/main/Main.java:240 | The bound for 5 is exactly 5. |
| Bounds.AxisBoundOf10 | src/com/main/Main.java:241 | The bound for 10 is exactly 28. |
| Bounds.AxisBoundOf25 | src/com/main/Main.java:242 | The bound for 25 is exactly 898. |
| Grid.ReachableIsAdmissible | src/com/main/Main.java:17-20 | The monkey only stands on admissible points. |
| Grid.OriginReachable | src/com/main/Main.java:22-23 | The walk starts at the origin, which is reachable for any non-negative threshold. |
| Grid.ReachableStep | src/com/main/Main.java:17-19 | A unit move from a reachable point to an admissible point reaches it. |
| Grid.AxisReachable | src/com/main/Main.java:158-160 | Under the axis bound, every axis point out to the bound is reachable, which is what lets the test treat the axes as connected. |
| Grid.RotatePreserves | src/com/main/Main.java:17-20 | A quarter turn keeps admissibility and keeps unit moves unit moves. |
| Grid.RotateReachableIn | src/com/main/Main.java:30-32 | Points reachable in n moves stay reachable in n moves after a quarter turn. |
| Grid.RotateReachable | src/com/main/Main.java:30-32 | The reachable region is invariant under a quarter turn, the symmetry the shortcut relies on. |
| Grid.ReachableInBound | src/com/main/Main.java:247-256 | By induction on the number of moves: a point reachable in n moves lies within the axis bound of `|t|` on both axes, because a move out of that box would land on a coordinate whose digit sum alone exceeds the threshold. |
| Grid.ReachableInsideBox | src/com/main/Main.java:247-256 | Every reachable point lies within the axis bound of `|t|` on both axes, so a scan bounded by `pointLimit` cannot miss a point for lack of room. |
| Quadrants.TableValid | src/com/main/Main.java:42-52 | There are four descriptors, each starting within 1 of the origin and stepping one unit away from it on both axes. |
| Quadrants.TablePartition | src/com/main/Main.java:42-52 | The origin lies on no quadrant's scan path, and every other point lies on exactly one, so the origin must be added once by hand. |
| Quadrants.TableRotation | src/com/main/Main.java:47-52 | Each quadrant's scan path is the previous quadrant's turned a quarter about the origin. |
| Connectivity.PointMap.constructor | src/com/main/Main.java:265 | A new map has no keys. |
| Connectivity.PointMap.Put | src/com/main/Main.java:217 | `put` adds exactly that key and changes nothing else. |
| Connectivity.PointMap.Clear | src/com/main/Main.java:272 | `clear` leaves no keys. |
| Connectivity.PointConnected | src/com/main/Main.java:170-190 | False for a null map and for a point already present. Otherwise true exactly when the point one step back along the row is present (non-zero x offset), or the point one step back along the column is present (non-zero y offset), or the point is one step off the y axis and (0, y) is absent, or one step off the x axis and (x, 0) is absent. It only reads the map. |
| Connectivity.ConnectedHasSupport | src/com/main/Main.java:157-169 | With unit offsets, a positive answer means the point has a neighbour that is already accepted or that lies on an axis. |
| Columns.ColumnVisitAdmissible | src/com/main/Main.java:215-221 | Visiting an admissible point extends the column record: it becomes a key exactly when there is a map, it is new and it passes the local test, an insertion resets the run to 0, and nothing decided earlier in the column changes. |
| Columns.ColumnVisitInadmissible | src/com/main/Main.java:222-225 | Visiting an inadmissible point adds one to the run; the column goes on while the run stays within 99 and is finished, stopping at the next point, once it is over. |
| Columns.ColumnEnd | src/com/main/Main.java:214 | A column whose scan has run past `maxPoint` is finished, with the stop past `maxPoint`. |
| Columns.ColumnScannedFrame | src/com/main/Main.java:175-185 | A finished column keeps its record when later columns change the keys, since the local test looks only at its own column, the one behind it and the axes. |
| Columns.ScanStep | src/com/main/Main.java:212-229 | Scanning one more column extends the scan record by that column, with the run it was entered with and where it stopped; the earlier columns keep their records. |
| Columns.FirstRowPointFound | src/com/main/Main.java:212-225 | In a scan of quadrant 1 from an empty map bounded by the axis bound, each (k, 0) with 1 <= k <= the bound becomes a key: it is the first point its column visits, it is admissible, and it follows (k - 1, 0) or the axis. |
| Columns.FirstRowFound | src/com/main/Main.java:212-225 | Such a scan finds the whole first row (1, 0) to (L, 0), so it finds at least L points. |
| Counter.MapPoints | src/com/main/Main.java:206-232 | The new key set is the one `Scanned` describes for the returned trace: every column from the first to the last within `maxPoint` was scanned; in each, every visited point is a key exactly when it was one or is admissible and passes the local test; each column stopped past `maxPoint` or right after the point that took the run over 99, and no earlier; the first column was entered with run 0 and each later one with the run its predecessor left. The result is the number of keys added; no key is removed; every added key is admissible, on the scan path and within `maxPoint`; and when the axes are admissible out to `maxPoint` and the old keys are reachable, all keys are reachable. |
| Counter.ScanColumn | src/com/main/Main.java:214-226 | The inner loop for column x, entered with the run carried from earlier columns: the new key set is the one `ColumnScanned` describes. Every point before the returned stop was visited and decided as `pointConnected` and the score test decide it. No earlier point ended the column, and the stop is past `maxPoint` or right after the point that took the run over 99. The keys added are in column x before the stop, their number is the returned count, and the returned run is the run at the stop. |
| Counter.VisitPoint | src/com/main/Main.java:215-225 | One step of the inner loop at (x, y): the column record is extended by (x, y), the run becomes 0 on an insertion, grows by one at an inadmissible point and stays otherwise, and the column ends exactly when (x, y) is inadmissible and the run is now over 99, with the keys unchanged. |
| Counter.AddIfConnected | src/com/main/Main.java:216-220 | The point is put exactly when `pointConnected` accepts it, which is exactly when there is a map, the point is new and it passes the local test; otherwise the keys are unchanged. |
| Counter.AcceptedReachable | src/com/main/Main.java:175-186 | The local test is sound for one point: with the axes admissible out to L, an admissible point of the scan within L that passes the test is reachable as soon as its keys one step back along the row and the column are. |
| Counter.StepOffAxis | src/com/main/Main.java:181-185 | An admissible point one step off an axis, beside an axis point within the axis bound, is reachable; this is why the test may treat the axes as already connected. |
| Counter.ScanAdded | src/com/main/Main.java:214-221 | A key a whole scan added was decided at its visit: it is admissible, on the scan path, within `maxPoint`, and passes the local test against the final keys. |
| Counter.ScanLinked | src/com/main/Main.java:206-232 | A whole scan only adds keys, each admissible, on the scan path, within `maxPoint` and passing the local test against the final keys. |
| Counter.LinkedReachable | src/com/main/Main.java:170-190 | By induction along the scan order, each key of a scan whose added keys all pass the local test is reachable when the starting keys were. |
| Counter.ScanReachable | src/com/main/Main.java:206-232 | A whole scan from reachable keys, with the axes admissible out to `maxPoint`, ends with only reachable keys. |
| Counter.NothingAtOrBelowZero | src/com/main/Main.java:215 | At a threshold of 0 or below a scan accepts nothing, since only the origin scores 0 and no scan path contains it. |
| Counter.ScanFindsReachable | src/com/main/Main.java:269-278 | A scan from a cleared map bounded by `pointLimit` finds only points of its quadrant that are reachable from the origin, and none at a threshold of 0 or below; every reachable point lies within that bound. |
| Counter.DocumentedPoints | src/com/main/Main.java:20-22 | At the application's threshold 25, (59, 79) is inaccessible and (-5, -7) is accessible. |
| Counter.ScanQuadrant | src/com/main/Main.java:272-273 | Clearing the map and scanning quadrant i leaves exactly the keys of a complete scan from an empty map, as `Scanned` describes, with the count equal to their number. They are reachable points of quadrant i, there are none at a threshold of 0 or below, and for quadrant 1 at a non-negative threshold there are at least `maxPoint` of them. |
| Counter.CountByShortcut | src/com/main/Main.java:271-274 | The shortcut branch: its total is 4 times the size of the one complete scan of quadrant 1, which is the number of distinct points in the four turned copies. All of them are reachable, at a non-negative threshold the scan finds at least `maxPoint` points, and at a threshold of 0 or below it finds none. |
| Counter.CountEachQuadrant | src/com/main/Main.java:275-280 | The reference branch: four complete scans, one per quadrant in table order, each from a cleared map. Each finds reachable points of its own quadrant, and the total is their combined size, which is the number of distinct points found. The total is 0 at a threshold of 0 or below, and at a non-negative threshold the quadrant-1 scan finds at least `maxPoint` points. |
| Counter.CountPoints | src/com/main/Main.java:264-283 | `found` holds the key sets of complete scans, one per quadrant scanned, each as `Scanned` describes and each made of reachable points of its quadrant. Every reachable point lies within the bound used. The total is at least 1 and is exactly 1 at a threshold of 0 or below. At a non-negative threshold the quadrant-1 scan finds at least the bound's number of points. The shortcut total is 1 + 4 × the quadrant-1 count, which is the number of distinct points in the origin plus the four turned copies of that scan, all of them reachable, so at a non-negative threshold it is at least 1 + 4 × the bound. The reference total is 1 + the four counts, which is the number of distinct points found plus the origin. |
| Tally.DisjointScans | src/com/main/Main.java:42-52 | Sets found on the scan paths of different quadrants never share a point or contain the origin, so their sizes add up to the size of their union. |
| Tally.RotateSetSize | src/com/main/Main.java:30-32 | A quarter turn of a set of points keeps its size. |
| Tally.OrbitSize | src/com/main/Main.java:30-32 | A quadrant-1 set and its three turned copies are disjoint, miss the origin, and together have 4 times its size. |
| Tally.OrbitReachable | src/com/main/Main.java:30-32 | The turned copies of reachable points are reachable. |
| Tally.ReferenceCountIsDistinct | src/com/main/Main.java:275-279 | 1 plus the sum of the four quadrant counts is the number of distinct points found plus the origin. |
| Tally.OptimizedCountIsDistinct | src/com/main/Main.java:271-274 | 1 plus 4 times the quadrant-1 count is the number of distinct points in the origin and the four turned copies of the quadrant-1 result. |
| Tally.OptimizedRegionReachable | src/com/main/Main.java:271-274 | When the quadrant-1 result is reachable, so is every point the shortcut counts. |

## Left out

- The Android activity, the progress dialog, rendering the result and `onPostExecute` (`onCreate`, `onClick`): these are user interface.
- The `AsyncTask` background execution: `CountPoints` is the body of `doInBackground` as a plain method that returns the total instead of writing the `mPointTotal` field.
- The varargs loop over several thresholds: `CountPoints` takes one threshold. Only the last total survives the loop anyway, because `mPointTotal` is reset to 1 for each threshold.
- `OPTIMIZE` is a compile-time constant in the program. It is the `optimize` parameter of `CountPoints`, so that both paths are modelled.
- `Quadrant.name`, the getters and `toString`: they are cosmetic. The descriptor is a datatype whose fields are read directly.
- Java 32-bit wrap-around and `Math.abs(Integer.MIN_VALUE)`: all arithmetic is on unbounded integers.
- The map is a set of points, because only key membership is ever used. `android.graphics.Point` is a pair of integers compared by value.
- `containsKey` is not a method of its own: `PointConnected` tests membership in the key set directly.
- The inner loop of `mapPoints`, its body and the accepting branch are the separate methods `ScanColumn`, `VisitPoint` and `AddIfConnected`. They behave as the nested loop does, including the run counter carried across columns.
- The scan is not proved exhaustive. The record above says exactly which visited points become keys and where each column stops, but not that every reachable point is visited. The skip threshold of 99 is an unproven heuristic, and the local test looks only one step back along the scan, so a point reachable only by a path that turns back towards an axis need not be found. So the model states neither the count 1033841, nor that the four quadrants give equal counts, nor that the result equals a flood fill of the reachable region.
- Counter.CountPoints: the two paths are not proved to give the same total, since that would need equal quadrant counts.
