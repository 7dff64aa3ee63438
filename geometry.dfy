/** Plane geometry used by the tracing engines: points with exact rational
    coordinates and SQUARED distances. The engines only ever compare a
    distance with a positive tolerance, and for d >= 0 and tol > 0,
    sqrt(d) < tol holds exactly when d < tol * tol, so no square root is
    needed. */
module Geometry {

  datatype Point = Point(x: real, y: real)

  /** `sqr` */
  function Sqr(a: real): (r: real)
    ensures r >= 0.0
  {
    a * a
  }

  /** The product of two numbers of the same strict sign is positive. */
  lemma ProductPositive(s: real, a: real, b: real)
    requires s == a * b
    requires (0.0 < a && 0.0 < b) || (a < 0.0 && b < 0.0)
    ensures 0.0 < s
  {
    if 0.0 < a {
      assert 0.0 < a * b;
    } else {
      assert 0.0 < a * b;
    }
  }

  lemma SquarePositive(a: real)
    requires a != 0.0
    ensures Sqr(a) > 0.0
  {
    ProductPositive(Sqr(a), a, a);
  }

  /** `distSquared` (and the square of `distance` in the simpler engine). */
  function DistSq(p: Point, q: Point): (r: real)
    ensures r >= 0.0
    ensures p == q ==> r == 0.0
  {
    Sqr(p.x - q.x) + Sqr(p.y - q.y)
  }

  /** Only a point is at distance zero from itself. */
  lemma DistSqZero(p: Point, q: Point)
    requires DistSq(p, q) == 0.0
    ensures p == q
  {
    if p.x != q.x {
      SquarePositive(p.x - q.x);
    }
    if p.y != q.y {
      SquarePositive(p.y - q.y);
    }
  }

  lemma DistSqSymmetric(p: Point, q: Point)
    ensures DistSq(p, q) == DistSq(q, p)
  {
    assert Sqr(p.x - q.x) == Sqr(q.x - p.x);
    assert Sqr(p.y - q.y) == Sqr(q.y - p.y);
  }

  /** `Math.max(0, Math.min(1, t))` */
  function Clamp01(t: real): (r: real)
    ensures 0.0 <= r <= 1.0
    ensures 0.0 <= t <= 1.0 ==> r == t
    ensures t < 0.0 ==> r == 0.0
    ensures t > 1.0 ==> r == 1.0
  {
    if t < 0.0 then 0.0 else if t > 1.0 then 1.0 else t
  }

  /** The point at parameter t along the segment from v to w. */
  function Lerp(v: Point, w: Point, t: real): Point
  {
    Point(v.x + t * (w.x - v.x), v.y + t * (w.y - v.y))
  }

  /** Dot product of p - v with w - v. */
  function Dot(p: Point, v: Point, w: Point): real
  {
    (p.x - v.x) * (w.x - v.x) + (p.y - v.y) * (w.y - v.y)
  }

  /** The square of `distanceToLineSegment(p, v, w)`: the distance from p
      to the projection of p onto the line through v and w, with the
      projection parameter clamped to [0, 1]; a degenerate segment
      (v == w) measures the plain distance to v. */
  function SegmentDistSq(p: Point, v: Point, w: Point): (r: real)
    ensures r >= 0.0
    ensures v == w ==> r == DistSq(p, v)
  {
    var l2 := DistSq(v, w);
    if l2 == 0.0 then DistSq(p, v)
    else DistSq(p, Lerp(v, w, Clamp01(Dot(p, v, w) / l2)))
  }

  /** Squared distance from p to the point at parameter t, as a quadratic in t. */
  lemma LerpDistSq(p: Point, v: Point, w: Point, t: real)
    ensures DistSq(p, Lerp(v, w, t)) == DistSq(p, v) - 2.0 * t * Dot(p, v, w) + t * t * DistSq(v, w)
  {
    var dx, dy := w.x - v.x, w.y - v.y;
    var px, py := p.x - v.x, p.y - v.y;
    calc {
      DistSq(p, Lerp(v, w, t));
      (px - t * dx) * (px - t * dx) + (py - t * dy) * (py - t * dy);
      px * px + py * py - 2.0 * t * (px * dx + py * dy) + t * t * (dx * dx + dy * dy);
    }
  }

  /** The quadratic s(t) = d0 - 2ta + t*t*l2 of LerpDistSq, taken at the
      clamped minimiser t, is at most s(0) = d0 and s(1) = d1. */
  lemma ClampedQuadraticBound(s: real, d0: real, d1: real, a: real, l2: real, t: real)
    requires l2 > 0.0
    requires t == Clamp01(a / l2)
    requires s == d0 - 2.0 * t * a + t * t * l2
    requires d1 == d0 - 2.0 * 1.0 * a + 1.0 * 1.0 * l2
    ensures s <= d0 && s <= d1
  {
    if a / l2 < 0.0 {
      assert a < 0.0;
    } else if a / l2 > 1.0 {
      assert a > l2;
    } else {
      assert a == t * l2;
      assert t * a >= 0.0 by {
        assert t * a == (t * t) * l2;
        assert t * t >= 0.0;
      }
      assert s == d0 - t * a;
      assert d1 - s == l2 * ((1.0 - t) * (1.0 - t));
      assert (1.0 - t) * (1.0 - t) >= 0.0;
    }
  }

  /** The clamped projection is never farther from p than either endpoint. */
  lemma SegmentDistAtMostEndpoints(p: Point, v: Point, w: Point)
    ensures SegmentDistSq(p, v, w) <= DistSq(p, v)
    ensures SegmentDistSq(p, v, w) <= DistSq(p, w)
  {
    var l2 := DistSq(v, w);
    if l2 == 0.0 {
      DistSqZero(v, w);
    } else {
      var a := Dot(p, v, w);
      var t := Clamp01(a / l2);
      LerpDistSq(p, v, w, t);
      LerpDistSq(p, v, w, 1.0);
      assert Lerp(v, w, 1.0) == w;
      ClampedQuadraticBound(SegmentDistSq(p, v, w), DistSq(p, v), DistSq(p, w), a, l2, t);
    }
  }

  /** Distance from p to the segment (v, w) is zero when p is its end point. */
  lemma SegmentDistAtEndpoint(v: Point, w: Point)
    ensures SegmentDistSq(w, v, w) == 0.0
  {
    SegmentDistAtMostEndpoints(w, v, w);
  }
}
