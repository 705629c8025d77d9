/** Linear interpolation along an edge: the specification that
    IsoSurfacer.ComputeEdgeIntersection is proved against, and what it means. */
module Interpolation {
  import opened Mesh

  /** The interpolation factor `x = (level - v2) / (v1 - v2)` for end point
      values `v1` (first) and `v2` (second); only defined when they differ. */
  function Factor(v1: real, v2: real, level: real): real
    requires v1 != v2
  {
    (level - v2) / (v1 - v2)
  }

  /** The point `x * p1 + (1 - x) * p2`. */
  function Interpolate(x: real, p1: Point, p2: Point): Point
  {
    Point(x * p1.x + (1.0 - x) * p2.x,
          x * p1.y + (1.0 - x) * p2.y,
          x * p1.z + (1.0 - x) * p2.z)
  }

  /** Each coordinate of the interpolated point is the same blend of the end
      points' coordinates. */
  lemma InterpolateCoord(x: real, p1: Point, p2: Point, k: nat)
    requires k < 3
    ensures Coord(Interpolate(x, p1, p2), k) == x * Coord(p1, k) + (1.0 - x) * Coord(p2, k)
  {
  }

  /** The factor is exact at the end points: a first end point at the level
      gives factor 1 and the first position, a second end point at the level
      gives factor 0 and the second position. */
  lemma FactorAtEndpoints(v1: real, v2: real, level: real, p1: Point, p2: Point)
    requires v1 != v2
    ensures v1 == level ==> Factor(v1, v2, level) == 1.0 && Interpolate(Factor(v1, v2, level), p1, p2) == p1
    ensures v2 == level ==> Factor(v1, v2, level) == 0.0 && Interpolate(Factor(v1, v2, level), p1, p2) == p2
  {
  }

  /** The interpolated point is where the scalar, interpolated linearly along
      the edge with the same factor, equals the level. */
  lemma FactorHitsLevel(v1: real, v2: real, level: real)
    requires v1 != v2
    ensures Factor(v1, v2, level) * v1 + (1.0 - Factor(v1, v2, level)) * v2 == level
  {
  }

  /** When the level lies between the end point values (with the classifier's
      tie-break), the factor lies in [0, 1]: the point is on the edge. */
  lemma FactorInUnitInterval(v1: real, v2: real, level: real)
    requires (v1 < level <= v2) || (v2 < level <= v1)
    ensures 0.0 <= Factor(v1, v2, level) <= 1.0
  {
    var x := Factor(v1, v2, level);
    assert x * (v1 - v2) == level - v2;
    if v1 < level {
      assert v1 - v2 < 0.0;
      assert level - v2 <= 0.0;
      assert level - v2 >= v1 - v2;
    } else {
      assert v1 - v2 > 0.0;
      assert level - v2 > 0.0;
      assert level - v2 <= v1 - v2;
    }
  }

  /** Signs and bounds of a quotient `n / d`, one case each. */
  lemma QuotientAboveOne(n: real, d: real)
    requires 0.0 < d < n
    ensures n / d > 1.0
  {
  }

  lemma QuotientNegative(n: real, d: real)
    requires d < 0.0 < n
    ensures n / d < 0.0
  {
  }

  lemma QuotientNonPositive(n: real, d: real)
    requires n <= 0.0 < d
    ensures n / d <= 0.0
  {
  }

  lemma QuotientAtLeastOne(n: real, d: real)
    requires n <= d < 0.0
    ensures n / d >= 1.0
  {
  }

  /** When both end point values are on the same side of the level and
      differ, the factor lies outside the open interval (0, 1): the point is
      extrapolated beyond the edge, or is one of its end points. */
  lemma FactorOutsideUnitInterval(v1: real, v2: real, level: real)
    requires v1 != v2
    requires (v1 < level && v2 < level) || (v1 >= level && v2 >= level)
    ensures Factor(v1, v2, level) <= 0.0 || Factor(v1, v2, level) >= 1.0
  {
    var n, d := level - v2, v1 - v2;
    if v1 < level && v2 < level {
      if v1 > v2 {
        QuotientAboveOne(n, d);
      } else {
        QuotientNegative(n, d);
      }
    } else {
      if v1 > v2 {
        QuotientNonPositive(n, d);
      } else {
        QuotientAtLeastOne(n, d);
      }
    }
  }
}
