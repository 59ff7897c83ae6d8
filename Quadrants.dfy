/** The immutable quadrant descriptors and the fixed table of four. */
module Quadrants {
  import opened Grid

  /** Where a quadrant's column-major scan starts and which way it steps (the name is left out). */
  datatype Quadrant = Quadrant(xStart: int, yStart: int, xIncrement: int, yIncrement: int)

  /** Quadrants 1 to 4, each starting next to the origin and stepping away from it. */
  const Table: seq<Quadrant> := [
    Quadrant(1, 0, 1, 1),
    Quadrant(0, 1, -1, 1),
    Quadrant(-1, 0, -1, -1),
    Quadrant(0, -1, 1, -1)
  ]

  /** A unit step along one axis. */
  predicate IsStep(d: int)
  {
    d == 1 || d == -1
  }

  /** Starting at start and stepping by d never moves back towards 0. */
  predicate Outward(start: int, d: int)
  {
    -1 <= start <= 1 && (d > 0 ==> start >= 0) && (d < 0 ==> start <= 0)
  }

  /** Both coordinates advance by unit steps. */
  predicate UnitSteps(q: Quadrant)
  {
    IsStep(q.xIncrement) && IsStep(q.yIncrement)
  }

  /** A descriptor the scan can walk: unit steps, starting within 1 of the origin, moving away. */
  predicate Valid(q: Quadrant)
  {
    UnitSteps(q) && Outward(q.xStart, q.xIncrement) && Outward(q.yStart, q.yIncrement)
  }

  /** v is reached from start by zero or more steps of d. */
  predicate OnRay(start: int, d: int, v: int)
  {
    if d > 0 then start <= v else if d < 0 then v <= start else v == start
  }

  /** v is passed by the walk from start in steps of d before the walk reaches stop. */
  predicate Before(start: int, d: int, v: int, stop: int)
  {
    OnRay(start, d, v) && OnRay(v + d, d, stop)
  }

  /** p lies on the scan path of q: both coordinates on their rays. */
  predicate Covers(q: Quadrant, p: Point)
  {
    OnRay(q.xStart, q.xIncrement, p.0) && OnRay(q.yStart, q.yIncrement, p.1)
  }

  /** Every entry of the table is a descriptor the scan can walk. */
  lemma TableValid()
    ensures |Table| == 4
    ensures forall i :: 0 <= i < |Table| ==> Valid(Table[i])
  {
  }

  /**
   * The four scan paths split the plane without the origin: the origin lies on none,
   * every other point on exactly one. This is why the origin is added once by hand.
   */
  lemma TablePartition(p: Point)
    ensures p == Origin ==> forall i :: 0 <= i < |Table| ==> !Covers(Table[i], p)
    ensures p != Origin ==> exists i :: 0 <= i < |Table| && Covers(Table[i], p)
    ensures forall i, j :: 0 <= i < j < |Table| ==> !(Covers(Table[i], p) && Covers(Table[j], p))
  {
    if p != Origin {
      if p.0 >= 1 && p.1 >= 0 {
        assert Covers(Table[0], p);
      } else if p.0 <= 0 && p.1 >= 1 {
        assert Covers(Table[1], p);
      } else if p.0 <= -1 && p.1 <= 0 {
        assert Covers(Table[2], p);
      } else {
        assert Covers(Table[3], p);
      }
    }
  }

  /** Each quadrant of the table is the previous one turned a quarter about the origin. */
  lemma TableRotation(p: Point)
    ensures forall i :: 0 <= i < |Table| - 1 ==> (Covers(Table[i], p) <==> Covers(Table[i + 1], Rotate(p)))
  {
  }
}
