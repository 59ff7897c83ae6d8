/** How the per-quadrant counts add up to a count of distinct points. */
module Tally {
  import opened Grid
  import opened Quadrants

  /** Sum of the sizes of the sets, in order. */
  function TotalSize(sets: seq<set<Point>>): nat
  {
    if sets == [] then 0 else TotalSize(sets[..|sets| - 1]) + |sets[|sets| - 1]|
  }

  /** Union of the sets. */
  function UnionAll(sets: seq<set<Point>>): set<Point>
  {
    if sets == [] then {} else UnionAll(sets[..|sets| - 1]) + sets[|sets| - 1]
  }

  /** A point of the union lies in one of the sets. */
  lemma {:induction false} UnionAllMember(sets: seq<set<Point>>, p: Point)
    requires p in UnionAll(sets)
    ensures exists i :: 0 <= i < |sets| && p in sets[i]
  {
    var n := |sets|;
    if p !in sets[n - 1] {
      var init := sets[..n - 1];
      UnionAllMember(init, p);
      var i :| 0 <= i < |init| && p in init[i];
      assert sets[i] == init[i];
    }
  }

  /** The i-th set holds only points on the scan path of quadrant i of the table. */
  predicate OnPaths(sets: seq<set<Point>>)
  {
    |sets| <= |Table| && forall i :: 0 <= i < |sets| ==> forall p :: p in sets[i] ==> Covers(Table[i], p)
  }

  /**
   * Scans of different quadrants never find the same point, and none finds the origin:
   * adding their counts counts distinct points.
   */
  lemma {:induction false} DisjointScans(sets: seq<set<Point>>)
    requires OnPaths(sets)
    ensures |UnionAll(sets)| == TotalSize(sets)
    ensures Origin !in UnionAll(sets)
  {
    if sets != [] {
      var n := |sets|;
      var init, last := sets[..n - 1], sets[n - 1];
      assert forall i :: 0 <= i < |init| ==> init[i] == sets[i];
      DisjointScans(init);
      assert Origin !in last by {
        TablePartition(Origin);
      }
      assert UnionAll(init) * last == {} by {
        forall p | p in UnionAll(init) && p in last
          ensures false
        {
          UnionAllMember(init, p);
          var i :| 0 <= i < n - 1 && p in init[i];
          TablePartition(p);
        }
      }
    }
  }

  /** Every point of s turned a quarter about the origin. */
  function RotateSet(s: set<Point>): (r: set<Point>)
    ensures forall p :: p in s ==> Rotate(p) in r
  {
    set p | p in s :: Rotate(p)
  }

  /** A quarter turn is one-to-one, so it keeps the size of a set. */
  lemma {:induction false} RotateSetSize(s: set<Point>)
    ensures |RotateSet(s)| == |s|
    decreases |s|
  {
    if s != {} {
      var x :| x in s;
      var rest := s - {x};
      RotateSetSize(rest);
      assert RotateSet(s) == RotateSet(rest) + {Rotate(x)};
    }
  }

  /** s and its three quarter-turn copies. */
  function Orbit(s: set<Point>): set<Point>
  {
    s + RotateSet(s) + RotateSet(RotateSet(s)) + RotateSet(RotateSet(RotateSet(s)))
  }

  /** Turning the points of quadrant i a quarter gives points of quadrant i + 1. */
  lemma RotateOnPath(s: set<Point>, i: int)
    requires 0 <= i < |Table| - 1 && forall p :: p in s ==> Covers(Table[i], p)
    ensures forall p :: p in RotateSet(s) ==> Covers(Table[i + 1], p)
  {
    forall p | p in RotateSet(s)
      ensures Covers(Table[i + 1], p)
    {
      var q :| q in s && p == Rotate(q);
      TableRotation(q);
    }
  }

  /** Union and total size of four sets, written out. */
  lemma UnionOfFour(a: set<Point>, b: set<Point>, c: set<Point>, d: set<Point>)
    ensures UnionAll([a, b, c, d]) == a + b + c + d
    ensures TotalSize([a, b, c, d]) == |a| + |b| + |c| + |d|
  {
    assert [a][..0] == [];
    assert UnionAll([a]) == a && TotalSize([a]) == |a|;
    assert [a, b][..1] == [a];
    assert UnionAll([a, b]) == a + b && TotalSize([a, b]) == |a| + |b|;
    assert [a, b, c][..2] == [a, b];
    assert UnionAll([a, b, c]) == a + b + c;
    assert [a, b, c, d][..3] == [a, b, c];
  }

  /** The four turned copies of a quadrant-1 set lie on quadrants 1 to 4 in turn. */
  lemma OrbitOnPaths(s: set<Point>)
    requires forall p :: p in s ==> Covers(Table[0], p)
    ensures OnPaths([s, RotateSet(s), RotateSet(RotateSet(s)), RotateSet(RotateSet(RotateSet(s)))])
  {
    var s1 := RotateSet(s);
    var s2 := RotateSet(s1);
    var s3 := RotateSet(s2);
    RotateOnPath(s, 0);
    RotateOnPath(s1, 1);
    RotateOnPath(s2, 2);
    forall i | 0 <= i < 4
      ensures forall p :: p in [s, s1, s2, s3][i] ==> Covers(Table[i], p)
    {
    }
  }

  /**
   * The symmetry fast path: the four turned copies of what the quadrant-1 scan found are
   * distinct points, none of them the origin, so 4 times the count is their number.
   */
  lemma OrbitSize(s: set<Point>)
    requires forall p :: p in s ==> Covers(Table[0], p)
    ensures |Orbit(s)| == 4 * |s|
    ensures Origin !in Orbit(s)
  {
    var s1 := RotateSet(s);
    var s2 := RotateSet(s1);
    var s3 := RotateSet(s2);
    OrbitOnPaths(s);
    DisjointScans([s, s1, s2, s3]);
    UnionOfFour(s, s1, s2, s3);
    RotateSetSize(s);
    RotateSetSize(s1);
    RotateSetSize(s2);
  }

  /** The turned copies of reachable points are reachable. */
  lemma OrbitReachable(t: int, s: set<Point>)
    requires forall p :: p in s ==> Reachable(t, p)
    ensures forall p :: p in Orbit(s) ==> Reachable(t, p)
  {
    forall p | p in RotateSet(s)
      ensures Reachable(t, p)
    {
      var q :| q in s && p == Rotate(q);
      RotateReachable(t, q);
    }
    forall p | p in RotateSet(RotateSet(s))
      ensures Reachable(t, p)
    {
      var q :| q in RotateSet(s) && p == Rotate(q);
      RotateReachable(t, q);
    }
    forall p | p in RotateSet(RotateSet(RotateSet(s)))
      ensures Reachable(t, p)
    {
      var q :| q in RotateSet(RotateSet(s)) && p == Rotate(q);
      RotateReachable(t, q);
    }
  }

  /** The reference path's total, 1 plus the four counts, is the number of distinct points found with the origin. */
  lemma ReferenceCountIsDistinct(sets: seq<set<Point>>)
    requires OnPaths(sets)
    ensures 1 + TotalSize(sets) == |{Origin} + UnionAll(sets)|
  {
    DisjointScans(sets);
    assert {Origin} * UnionAll(sets) == {};
  }

  /**
   * The fast path's total, 1 plus 4 times the quadrant-1 count, is the number of distinct
   * points in the origin and the four turned copies of the quadrant-1 scan.
   */
  lemma OptimizedCountIsDistinct(s: set<Point>)
    requires forall p :: p in s ==> Covers(Table[0], p)
    ensures 1 + 4 * |s| == |{Origin} + Orbit(s)|
  {
    OrbitSize(s);
    assert {Origin} * Orbit(s) == {};
  }

  /** The points the fast path counts are all reachable when the scanned ones are. */
  lemma OptimizedRegionReachable(t: int, s: set<Point>)
    requires forall p :: p in s ==> Reachable(t, p)
    ensures t >= 0 ==> forall p :: p in {Origin} + Orbit(s) ==> Reachable(t, p)
  {
    OrbitReachable(t, s);
    if t >= 0 {
      OriginReachable(t);
    }
  }
}
