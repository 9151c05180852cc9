/** The first-order approximations drawn by `compare_2d3d` and
    `show_stationary`: a tangent line for a one-input function and a tangent
    plane for a two-input one, built from a value and a derivative supplied
    by the caller. */
module Tangent {
  import opened Numeric
  import opened Points

  /** Line 71: `h(w) = g(p) + g'(p) * (w - p)`. */
  function TangentLine(gVal: real, slope: real, pt: real, w: real): (h: real)
    ensures w == pt ==> h == gVal
    ensures slope == 0.0 ==> h == gVal
  {
    gVal + slope * (w - pt)
  }

  /** The line rises by the supplied derivative per unit step. */
  lemma TangentLineSlope(gVal: real, slope: real, pt: real, u: real, v: real)
    ensures TangentLine(gVal, slope, pt, v) - TangentLine(gVal, slope, pt, u) == slope * (v - u)
  {
  }

  /** Lines 68-71 and 275-278: the approximation sampled at
      `linspace(p - radius, p + radius, n)`. Its end samples sit at
      `g(p) -/+ g'(p) * radius`, and with a zero slope (a stationary point,
      line 278) every sample is `g(p)`. */
  function TangentSamples(gVal: real, slope: real, pt: real, radius: real, n: nat): (hs: seq<real>)
    ensures |hs| == n
    ensures n >= 1 ==> hs[0] == gVal - slope * radius
    ensures n >= 2 ==> hs[n - 1] == gVal + slope * radius
    ensures slope == 0.0 ==> forall i :: 0 <= i < n ==> hs[i] == gVal
  {
    var ws := Linspace(pt - radius, pt + radius, n);
    TangentLineEnds(gVal, slope, pt, radius);
    seq(n, i requires 0 <= i < n => TangentLine(gVal, slope, pt, ws[i]))
  }

  lemma TangentLineEnds(gVal: real, slope: real, pt: real, radius: real)
    ensures TangentLine(gVal, slope, pt, pt - radius) == gVal - slope * radius
    ensures TangentLine(gVal, slope, pt, pt + radius) == gVal + slope * radius
  {
    assert (pt - radius) - pt == -radius;
    assert slope * (-radius) == -(slope * radius);
  }

  /** Line 121: `h(w) = g(p) + (w0 - p0) * d0 + (w1 - p1) * d1` for the
      gradient `d` at `p`. */
  function TangentPlane(gVal: real, grad: Point, pt: Point, w: Point): (h: real)
    ensures w == pt ==> h == gVal
  {
    gVal + (w.x - pt.x) * grad.x + (w.y - pt.y) * grad.y
  }

  /** Line 122 evaluates the plane on the grid translated by `p`: at grid
      offset `(u, v)` its height is `g(p) + d0 * u + d1 * v`. */
  lemma TangentPlaneOnShiftedGrid(gVal: real, grad: Point, pt: Point, u: real, v: real)
    ensures TangentPlane(gVal, grad, pt, Point(pt.x + u, pt.y + v)) == gVal + grad.x * u + grad.y * v
  {
  }

  /** Along either axis through `p` the tangent plane is the tangent line
      with that axis' partial derivative as slope. */
  lemma TangentPlaneAlongAxes(gVal: real, grad: Point, pt: Point, t: real)
    ensures TangentPlane(gVal, grad, pt, Point(t, pt.y)) == TangentLine(gVal, grad.x, pt.x, t)
    ensures TangentPlane(gVal, grad, pt, Point(pt.x, t)) == TangentLine(gVal, grad.y, pt.y, t)
  {
  }
}
