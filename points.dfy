/** Two-input weights: each iterate of a weight history is a point of the plane. */
module Points {

  datatype Point = Point(x: real, y: real)

  /** Squared Euclidean distance, `np.linalg.norm(p - q) ** 2`. */
  function DistSq(p: Point, q: Point): (d: real)
    ensures d >= 0.0
    ensures p == q ==> d == 0.0
  {
    (p.x - q.x) * (p.x - q.x) + (p.y - q.y) * (p.y - q.y)
  }

  /** Comparing the squared distance with `bound * bound` decides the same
      question as comparing the distance itself with `bound`: `dist` is any
      non-negative square root of the squared distance. */
  lemma DistanceExceedsIffSquareExceeds(p: Point, q: Point, dist: real, bound: real)
    requires dist >= 0.0 && dist * dist == DistSq(p, q) && bound >= 0.0
    ensures dist > bound <==> DistSq(p, q) > bound * bound
  {
    if dist > bound {
      assert (dist - bound) * dist > 0.0;
      assert (dist - bound) * bound >= 0.0;
      assert dist * dist > bound * bound;
    } else {
      assert (bound - dist) * dist >= 0.0;
      assert (bound - dist) * bound >= 0.0;
      assert dist * dist <= bound * bound;
    }
  }
}
