/** The map of accepted points and the local connectivity test (pointConnected). */
module Connectivity {
  import opened Grid

  /** The Map<Point, Boolean> of one quadrant scan; only its key set is ever consulted (containsKey is `in keys`). */
  class PointMap {
    var keys: set<Point>

    /** new HashMap(): no keys. */
    constructor ()
      ensures keys == {}
    {
      keys := {};
    }

    /** map.put(p, true): p becomes a key, nothing else changes. */
    method Put(p: Point)
      modifies this
      ensures keys == old(keys) + {p}
    {
      keys := keys + {p};
    }

    /** map.clear(): no keys remain. */
    method Clear()
      modifies this
      ensures keys == {}
    {
      keys := {};
    }
  }

  /** The keys of a possibly null map; a null map has none. */
  function Keys(points: PointMap?): set<Point>
    reads points
  {
    if points == null then {} else points.keys
  }

  /**
   * pointConnected: (x, y) is new and adjoins, one step back along the scan, an accepted
   * point, or adjoins an axis whose point is not in the map. A null map connects nothing.
   */
  function PointConnected(x: int, y: int, xOffset: int, yOffset: int, points: PointMap?): (r: bool)
    reads points
    ensures points == null ==> !r
    ensures r ==> (x, y) !in Keys(points)
    ensures points != null ==>
      (r <==> (x, y) !in points.keys
              && (|| (xOffset != 0 && (x - xOffset, y) in points.keys)
                  || (yOffset != 0 && (x, y - yOffset) in points.keys)
                  || (x - xOffset == 0 && (0, y) !in points.keys)
                  || (y - yOffset == 0 && (x, 0) !in points.keys)))
  {
    if points == null then false
    else if (x, y) in points.keys then false
    else if xOffset != 0 && (x - xOffset, y) in points.keys then true
    else if yOffset != 0 && (x, y - yOffset) in points.keys then true
    else if x - xOffset == 0 && (0, y) !in points.keys then true
    else if y - yOffset == 0 && (x, 0) !in points.keys then true
    else false
  }

  /**
   * What a positive answer means for unit offsets: (x, y) has a neighbour that is already
   * accepted, or that lies on an axis in the same row or column.
   */
  lemma ConnectedHasSupport(x: int, y: int, xOffset: int, yOffset: int, points: PointMap?)
    requires (xOffset == 1 || xOffset == -1) && (yOffset == 1 || yOffset == -1)
    requires PointConnected(x, y, xOffset, yOffset, points)
    ensures exists n :: Adjacent(n, (x, y)) && (n in Keys(points) || n == (0, y) || n == (x, 0))
  {
    if (x - xOffset, y) in Keys(points) || x - xOffset == 0 {
      assert Adjacent((x - xOffset, y), (x, y));
    } else {
      assert Adjacent((x, y - yOffset), (x, y));
    }
  }
}
