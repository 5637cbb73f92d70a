/**
 * The geometry helpers of src/shared/utils.js (src/utils.js repeats them line
 * for line).  Coordinates are reals.  Math.sqrt cannot be computed on exact
 * reals, so the members that need it take the host's square root as a
 * parameter, constrained by IsSqrt.
 */
module Geometry {

  /** `sqrt` behaves as a square root on the non-negative reals. */
  ghost predicate IsSqrt(sqrt: real -> real) {
    forall x :: 0.0 <= x ==> 0.0 <= sqrt(x) && sqrt(x) * sqrt(x) == x
  }

  datatype Vec = Vec(x: real, y: real)

  /** Math.max and Math.min. */
  function Max(a: real, b: real): real { if a >= b then a else b }
  function Min(a: real, b: real): real { if a <= b then a else b }

  function SquaredDistance(x1: real, y1: real, x2: real, y2: real): real {
    (x2 - x1) * (x2 - x1) + (y2 - y1) * (y2 - y1)
  }

  // Small facts of real arithmetic, stated one at a time so that the solver
  // does not have to find them inside larger proofs.

  lemma MulPositive(a: real, b: real)
    requires 0.0 < a && 0.0 < b
    ensures 0.0 < a * b
  {
  }

  lemma MulNonNegative(a: real, b: real)
    requires 0.0 <= a && 0.0 <= b
    ensures 0.0 <= a * b
  {
  }

  lemma MulMonotone(c: real, x: real, y: real)
    requires 0.0 <= c && x <= y
    ensures c * x <= c * y
  {
    MulNonNegative(c, y - x);
    assert c * (y - x) == c * y - c * x;
  }

  lemma SquareNonNegative(a: real)
    ensures 0.0 <= a * a
  {
    if a < 0.0 { MulPositive(-a, -a); assert a * a == (-a) * (-a); }
    else { MulNonNegative(a, a); }
  }

  lemma SquareMonotone(a: real, b: real)
    requires 0.0 <= a < b
    ensures a * a < b * b
  {
    assert b * b - a * a == (b - a) * (b + a);
    MulPositive(b - a, b + a);
  }

  lemma SquareMonotoneWeak(a: real, b: real)
    requires 0.0 <= a <= b
    ensures a * a <= b * b
  {
    if a < b { SquareMonotone(a, b); }
  }

  /** The square root of r * r is r itself, for a non-negative r. */
  lemma SqrtOfSquare(sqrt: real -> real, r: real)
    requires IsSqrt(sqrt) && 0.0 <= r
    ensures sqrt(r * r) == r
  {
    SquareNonNegative(r);
    var s := sqrt(r * r);
    assert 0.0 <= s && s * s == r * r;
    if s < r { SquareMonotone(s, r); }
    if r < s { SquareMonotone(r, s); }
  }

  /** Utils.distance: the Euclidean distance between two points. */
  function Distance(sqrt: real -> real, x1: real, y1: real, x2: real, y2: real): (d: real)
    requires IsSqrt(sqrt)
    ensures 0.0 <= d && d * d == SquaredDistance(x1, y1, x2, y2)
  {
    SquareNonNegative(x2 - x1);
    SquareNonNegative(y2 - y1);
    sqrt(SquaredDistance(x1, y1, x2, y2))
  }

  lemma DistanceSymmetric(sqrt: real -> real, x1: real, y1: real, x2: real, y2: real)
    requires IsSqrt(sqrt)
    ensures Distance(sqrt, x1, y1, x2, y2) == Distance(sqrt, x2, y2, x1, y1)
  {
    assert SquaredDistance(x1, y1, x2, y2) == SquaredDistance(x2, y2, x1, y1);
  }

  lemma DistanceToSelf(sqrt: real -> real, x: real, y: real)
    requires IsSqrt(sqrt)
    ensures Distance(sqrt, x, y, x, y) == 0.0
  {
    SqrtOfSquare(sqrt, 0.0);
  }

  /**
   * Utils.circleCollision: the distance between the centres is strictly below
   * the sum of the radii, which is the same as comparing squares when that
   * sum is positive.
   */
  function CircleCollision(sqrt: real -> real, x1: real, y1: real, r1: real,
                           x2: real, y2: real, r2: real): (hit: bool)
    requires IsSqrt(sqrt)
    ensures hit <==> 0.0 < r1 + r2 &&
                     SquaredDistance(x1, y1, x2, y2) < (r1 + r2) * (r1 + r2)
  {
    var d := Distance(sqrt, x1, y1, x2, y2);
    var s := r1 + r2;
    if 0.0 < s && d < s then
      SquareMonotone(d, s);
      true
    else if 0.0 < s then
      SquareMonotoneWeak(s, d);
      false
    else
      false
  }

  lemma CircleCollisionSymmetric(sqrt: real -> real, x1: real, y1: real, r1: real,
                                 x2: real, y2: real, r2: real)
    requires IsSqrt(sqrt)
    ensures CircleCollision(sqrt, x1, y1, r1, x2, y2, r2) ==
            CircleCollision(sqrt, x2, y2, r2, x1, y1, r1)
  {
    assert SquaredDistance(x1, y1, x2, y2) == SquaredDistance(x2, y2, x1, y1);
  }

  /** Circles that exactly touch do not collide: the test is strict. */
  lemma CircleCollisionStrictAtContact(sqrt: real -> real, x: real, y: real, r1: real, r2: real)
    requires IsSqrt(sqrt) && 0.0 <= r1 && 0.0 <= r2
    ensures !CircleCollision(sqrt, x, y, r1, x + r1 + r2, y, r2)
  {
    assert SquaredDistance(x, y, x + r1 + r2, y) == (r1 + r2) * (r1 + r2);
  }

  /** Utils.pointRectCollision: inclusive on all four edges. */
  function PointRectCollision(px: real, py: real, rx: real, ry: real, rw: real, rh: real): (inside: bool)
    ensures 0.0 <= rw && 0.0 <= rh ==>
              (inside <==> Clamp(px, rx, rx + rw) == px && Clamp(py, ry, ry + rh) == py)
  {
    px >= rx && px <= rx + rw && py >= ry && py <= ry + rh
  }

  lemma PointRectInclusiveEdges(rx: real, ry: real, rw: real, rh: real)
    requires 0.0 <= rw && 0.0 <= rh
    ensures PointRectCollision(rx, ry, rx, ry, rw, rh)
    ensures PointRectCollision(rx + rw, ry, rx, ry, rw, rh)
    ensures PointRectCollision(rx, ry + rh, rx, ry, rw, rh)
    ensures PointRectCollision(rx + rw, ry + rh, rx, ry, rw, rh)
  {
  }

  /** Utils.circleRectCollision: the nearest point of the rectangle is strictly inside the circle. */
  function CircleRectCollision(cx: real, cy: real, radius: real,
                               rx: real, ry: real, rw: real, rh: real): (hit: bool)
    ensures 0.0 < radius && PointRectCollision(cx, cy, rx, ry, rw, rh) ==> hit
  {
    var closestX := Max(rx, Min(cx, rx + rw));
    var closestY := Max(ry, Min(cy, ry + rh));
    var distanceX := cx - closestX;
    var distanceY := cy - closestY;
    var distanceSquared := distanceX * distanceX + distanceY * distanceY;
    SquareNonNegative(distanceX);
    SquareNonNegative(distanceY);
    if 0.0 < radius && PointRectCollision(cx, cy, rx, ry, rw, rh) then
      CentreIsNearest(cx, closestX, cy, closestY, radius);
      distanceSquared < radius * radius
    else
      distanceSquared < radius * radius
  }

  /** When the nearest point is the centre itself, it is strictly inside any circle of positive radius. */
  lemma CentreIsNearest(cx: real, qx: real, cy: real, qy: real, radius: real)
    requires qx == cx && qy == cy && 0.0 < radius
    ensures (cx - qx) * (cx - qx) + (cy - qy) * (cy - qy) < radius * radius
  {
    SquareMonotone(cx - qx, radius);
  }

  /** Along one axis the clamped coordinate is the nearest point of [lo, hi]. */
  lemma ClampIsNearest(c: real, lo: real, hi: real, p: real)
    requires lo <= p <= hi
    ensures (c - Max(lo, Min(c, hi))) * (c - Max(lo, Min(c, hi))) <= (c - p) * (c - p)
  {
    var q := Max(lo, Min(c, hi));
    if c < lo {
      SquareMonotoneWeak(q - c, p - c);
      assert (c - q) * (c - q) == (q - c) * (q - c);
      assert (c - p) * (c - p) == (p - c) * (p - c);
    } else if c > hi {
      SquareMonotoneWeak(c - q, c - p);
    } else {
      SquareNonNegative(c - p);
    }
  }

  /** No point of the rectangle is nearer to the centre than the clamped one. */
  lemma NearestPointOfRect(cx: real, cy: real, rx: real, ry: real, rw: real, rh: real,
                           px: real, py: real)
    requires PointRectCollision(px, py, rx, ry, rw, rh)
    ensures SquaredDistance(cx, cy, Max(rx, Min(cx, rx + rw)), Max(ry, Min(cy, ry + rh)))
            <= SquaredDistance(cx, cy, px, py)
  {
    var qx := Max(rx, Min(cx, rx + rw));
    var qy := Max(ry, Min(cy, ry + rh));
    ClampIsNearest(cx, rx, rx + rw, px);
    ClampIsNearest(cy, ry, ry + rh, py);
    assert SquaredDistance(cx, cy, qx, qy) == (cx - qx) * (cx - qx) + (cy - qy) * (cy - qy);
    assert SquaredDistance(cx, cy, px, py) == (cx - px) * (cx - px) + (cy - py) * (cy - py);
  }

  /**
   * For a rectangle of non-negative size, circleRectCollision holds exactly
   * when some point of the closed rectangle lies strictly inside the circle.
   */
  lemma CircleRectMeansNearPoint(cx: real, cy: real, radius: real,
                                 rx: real, ry: real, rw: real, rh: real)
    requires 0.0 <= rw && 0.0 <= rh
    ensures CircleRectCollision(cx, cy, radius, rx, ry, rw, rh) <==>
            exists px, py :: PointRectCollision(px, py, rx, ry, rw, rh) &&
                             SquaredDistance(cx, cy, px, py) < radius * radius
  {
    var qx := Max(rx, Min(cx, rx + rw));
    var qy := Max(ry, Min(cy, ry + rh));
    var dq := SquaredDistance(cx, cy, qx, qy);
    assert dq == (cx - qx) * (cx - qx) + (cy - qy) * (cy - qy);
    assert CircleRectCollision(cx, cy, radius, rx, ry, rw, rh) == (dq < radius * radius);
    if dq < radius * radius {
      assert PointRectCollision(qx, qy, rx, ry, rw, rh);
    } else {
      forall px, py | PointRectCollision(px, py, rx, ry, rw, rh)
        ensures !(SquaredDistance(cx, cy, px, py) < radius * radius)
      {
        NearestPointOfRect(cx, cy, rx, ry, rw, rh, px, py);
      }
    }
  }

  /** Utils.clamp, written as Math.max(min, Math.min(max, value)). */
  function Clamp(value: real, min: real, max: real): (r: real)
    ensures min <= max ==> min <= r <= max
    ensures min <= value <= max ==> r == value
    ensures max < min ==> r == min
    ensures r == value || r == min || r == max
  {
    Max(min, Min(max, value))
  }

  /** Utils.lerp */
  function Lerp(start: real, end: real, t: real): (r: real)
    ensures t == 0.0 ==> r == start
    ensures t == 1.0 ==> r == end
    ensures 0.0 <= t <= 1.0 ==> Min(start, end) <= r <= Max(start, end)
  {
    LerpBetween(start, end, t);
    start + (end - start) * t
  }

  lemma LerpBetween(start: real, end: real, t: real)
    ensures 0.0 <= t <= 1.0 ==>
              Min(start, end) <= start + (end - start) * t <= Max(start, end)
  {
    if 0.0 <= t <= 1.0 {
      ScaledDifference(start, end, t);
    }
  }

  /** A fraction t in [0, 1] of a difference lies between 0 and that difference. */
  lemma ScaledDifference(start: real, end: real, t: real)
    requires 0.0 <= t <= 1.0
    ensures start <= end ==> 0.0 <= (end - start) * t <= end - start
    ensures end < start ==> end - start <= (end - start) * t <= 0.0
  {
    if start <= end {
      MulNonNegative(end - start, t);
      MulNonNegative(end - start, 1.0 - t);
    } else {
      MulNonNegative(start - end, t);
      MulNonNegative(start - end, 1.0 - t);
    }
  }

  /**
   * Utils.normalize: the zero vector stays zero; any other vector is divided
   * by its positive length sqrt(x * x + y * y), so it keeps its direction.
   */
  function Normalize(sqrt: real -> real, x: real, y: real): (r: Vec)
    requires IsSqrt(sqrt)
    ensures x == 0.0 && y == 0.0 ==> r == Vec(0.0, 0.0)
    ensures !(x == 0.0 && y == 0.0) ==>
              0.0 < sqrt(x * x + y * y) &&
              r.x * sqrt(x * x + y * y) == x && r.y * sqrt(x * x + y * y) == y
  {
    SquareNonNegative(x);
    SquareNonNegative(y);
    var length := sqrt(x * x + y * y);
    ZeroVectorLength(sqrt, x, y);
    NonZeroVectorLength(sqrt, x, y);
    if length == 0.0 then
      Vec(0.0, 0.0)
    else
      QuotientTimes(x, length);
      QuotientTimes(y, length);
      Vec(x / length, y / length)
  }

  lemma ZeroVectorLength(sqrt: real -> real, x: real, y: real)
    requires IsSqrt(sqrt)
    ensures x == 0.0 && y == 0.0 ==> sqrt(x * x + y * y) == 0.0
  {
    SqrtOfSquare(sqrt, 0.0);
  }

  lemma NonZeroVectorLength(sqrt: real -> real, x: real, y: real)
    requires IsSqrt(sqrt)
    ensures !(x == 0.0 && y == 0.0) ==> 0.0 < sqrt(x * x + y * y)
  {
    if x < 0.0 || 0.0 < x || y < 0.0 || 0.0 < y {
      NonZeroHasLength(x, y);
      RootOfSquaresPositive(sqrt, x, y);
    }
  }

  lemma SquarePositive(a: real)
    requires a < 0.0 || 0.0 < a
    ensures 0.0 < a * a
  {
    if a < 0.0 { MulPositive(-a, -a); assert a * a == (-a) * (-a); } else { MulPositive(a, a); }
  }

  lemma NonZeroHasLength(x: real, y: real)
    requires x < 0.0 || 0.0 < x || y < 0.0 || 0.0 < y
    ensures 0.0 < x * x + y * y
  {
    SquareNonNegative(x);
    SquareNonNegative(y);
    if x < 0.0 || 0.0 < x { SquarePositive(x); } else { SquarePositive(y); }
  }

  /** The root of a positive number is positive. */
  lemma SqrtPositive(sqrt: real -> real, s: real)
    requires IsSqrt(sqrt) && 0.0 < s
    ensures 0.0 < sqrt(s)
  {
  }

  /** SqrtPositive for a sum of squares, reached by instantiating a quantifier. */
  lemma RootOfSquaresPositive(sqrt: real -> real, x: real, y: real)
    requires IsSqrt(sqrt) && 0.0 < x * x + y * y
    ensures 0.0 < sqrt(x * x + y * y)
  {
    SqrtPositiveEverywhere(sqrt);
  }

  lemma SqrtPositiveEverywhere(sqrt: real -> real)
    requires IsSqrt(sqrt)
    ensures forall s :: 0.0 < s ==> 0.0 < sqrt(s)
  {
    forall s | 0.0 < s
      ensures 0.0 < sqrt(s)
    {
      SqrtPositive(sqrt, s);
    }
  }

  lemma QuotientTimes(x: real, len: real)
    requires len != 0.0
    ensures (x / len) * len == x
  {
  }
}
