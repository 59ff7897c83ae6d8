/** Lattice points, admissibility and reachability from the origin by unit steps. */
module Grid {
  import opened Digits
  import opened Bounds

  /** android.graphics.Point as a value: equal exactly when both coordinates are. */
  type Point = (int, int)

  const Origin: Point := (0, 0)

  /** A point whose score does not exceed the threshold t. */
  predicate Admissible(t: int, p: Point)
  {
    Score(p) <= t
  }

  /** One step left, right, up or down. */
  predicate Adjacent(p: Point, q: Point)
  {
    (p.0 == q.0 && (p.1 - q.1 == 1 || q.1 - p.1 == 1)) || (p.1 == q.1 && (p.0 - q.0 == 1 || q.0 - p.0 == 1))
  }

  /**
   * p is admissible and is the origin or an admissible neighbour of a point reachable in
   * n - 1 steps: the points reachable from the origin in at most n unit steps.
   */
  ghost predicate ReachableIn(t: int, p: Point, n: nat)
    decreases n
  {
    Admissible(t, p) && (p == Origin || (n > 0 && exists q :: Adjacent(q, p) && ReachableIn(t, q, n - 1)))
  }

  /** p can be reached from the origin without leaving the admissible region. */
  ghost predicate Reachable(t: int, p: Point)
  {
    exists n: nat :: ReachableIn(t, p, n)
  }

  /** Every reachable point is itself admissible. */
  lemma ReachableIsAdmissible(t: int, p: Point)
    requires Reachable(t, p)
    ensures Admissible(t, p)
  {
  }

  /** The origin is reachable whenever the threshold is non-negative. */
  lemma OriginReachable(t: int)
    requires t >= 0
    ensures Reachable(t, Origin)
  {
    assert ReachableIn(t, Origin, 0);
  }

  /** An admissible neighbour of a reachable point is reachable. */
  lemma ReachableStep(t: int, q: Point, p: Point)
    requires Reachable(t, q) && Adjacent(q, p) && Admissible(t, p)
    ensures Reachable(t, p)
  {
    var n: nat :| ReachableIn(t, q, n);
    assert ReachableIn(t, p, n + 1);
  }

  /**
   * Under an axis bound L for t, every point of either axis within distance L of the origin
   * is reachable along that axis.
   */
  lemma {:induction false} AxisReachable(t: int, L: int, v: int)
    requires AxisWithin(t, L) && Abs(v) <= L
    ensures Reachable(t, (0, v)) && Reachable(t, (v, 0))
    decreases Abs(v)
  {
    if v == 0 {
      OriginReachable(t);
    } else {
      var u := if v > 0 then v - 1 else v + 1;
      assert AxisAdmissible(t, Abs(v));
      assert Reachable(t, (0, v)) by {
        AxisReachable(t, L, u);
        ReachableStep(t, (0, u), (0, v));
      }
      assert Reachable(t, (v, 0)) by {
        AxisReachable(t, L, u);
        ReachableStep(t, (u, 0), (v, 0));
      }
    }
  }

  /** A quarter turn about the origin: (x, y) goes to (-y, x). */
  function Rotate(p: Point): Point
  {
    (-p.1, p.0)
  }

  /** A quarter turn keeps admissibility and adjacency. */
  lemma RotatePreserves(t: int, p: Point, q: Point)
    ensures Admissible(t, Rotate(p)) <==> Admissible(t, p)
    ensures Adjacent(p, q) ==> Adjacent(Rotate(p), Rotate(q))
  {
    assert Abs(-p.1) == Abs(p.1);
  }

  /** A quarter turn keeps reachability in n steps. */
  lemma {:induction false} RotateReachableIn(t: int, p: Point, n: nat)
    requires ReachableIn(t, p, n)
    ensures ReachableIn(t, Rotate(p), n)
    decreases n
  {
    if p == Origin {
      RotatePreserves(t, p, p);
    } else {
      var q :| Adjacent(q, p) && ReachableIn(t, q, n - 1);
      RotateReachableIn(t, q, n - 1);
      RotateStep(t, q, p, n);
    }
  }

  /** The turned copy of a unit move onto an admissible point is a unit move onto an admissible point. */
  lemma RotateStep(t: int, q: Point, p: Point, n: nat)
    requires n > 0 && ReachableIn(t, Rotate(q), n - 1) && Adjacent(q, p) && Admissible(t, p)
    ensures ReachableIn(t, Rotate(p), n)
  {
    RotatePreserves(t, p, p);
    RotatePreserves(t, q, p);
    ReachableInStep(t, Rotate(q), Rotate(p), n);
  }

  /** A unit move to an admissible point extends a walk of n - 1 moves to one of n moves. */
  lemma ReachableInStep(t: int, q: Point, p: Point, n: nat)
    requires n > 0 && ReachableIn(t, q, n - 1) && Adjacent(q, p) && Admissible(t, p)
    ensures ReachableIn(t, p, n)
  {
  }

  /** The reachable region is invariant under a quarter turn. */
  lemma RotateReachable(t: int, p: Point)
    requires Reachable(t, p)
    ensures Reachable(t, Rotate(p))
  {
    var n: nat :| ReachableIn(t, p, n);
    RotateReachableIn(t, p, n);
  }

  /**
   * The walk never leaves the box of side L about the origin when L is the axis bound of |t|:
   * a point one further out on either axis already has a digit sum above t.
   */
  lemma {:induction false} ReachableInBound(t: int, L: int, p: Point, n: nat)
    requires IsAxisBound(Abs(t), L) && ReachableIn(t, p, n)
    ensures Abs(p.0) <= L && Abs(p.1) <= L
    decreases n
  {
    if p != Origin {
      var q :| Adjacent(q, p) && ReachableIn(t, q, n - 1);
      ReachableInBound(t, L, q, n - 1);
      BoxStep(t, L, q, p);
    }
  }

  /** A unit move from inside the box of side L to an admissible point stays inside it. */
  lemma BoxStep(t: int, L: int, q: Point, p: Point)
    requires IsAxisBound(Abs(t), L) && Admissible(t, p) && Adjacent(q, p)
    requires Abs(q.0) <= L && Abs(q.1) <= L
    ensures Abs(p.0) <= L && Abs(p.1) <= L
  {
    assert DigitSum(Abs(p.0)) <= Abs(t) && DigitSum(Abs(p.1)) <= Abs(t);
  }

  /** Every reachable point lies within the axis bound of |t| on both axes, so bounding the scan by it loses none. */
  lemma ReachableInsideBox(t: int, L: int)
    requires IsAxisBound(Abs(t), L)
    ensures forall p :: Reachable(t, p) ==> Abs(p.0) <= L && Abs(p.1) <= L
  {
    forall p | Reachable(t, p)
      ensures Abs(p.0) <= L && Abs(p.1) <= L
    {
      var n: nat :| ReachableIn(t, p, n);
      ReachableInBound(t, L, p, n);
    }
  }
}
