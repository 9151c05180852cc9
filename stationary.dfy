/** The stationary-point scan of `show_stationary`: the derivative is sampled
    densely, each adjacent pair of samples is examined, and the indices it
    flags are deduplicated and sorted. */
module Stationary {
  import opened Numeric

  /** `10**-5`, the near-zero tolerance of the scan. */
  const Tolerance: real := 0.00001

  /** The first test of the scan: the sample's sign is zero or the sample is within the tolerance of zero. */
  predicate NearZero(x: real)
  {
    Sign(x) == 0 || Abs(x) < Tolerance
  }

  /** The sign-change test on the pair `(k, k + 1)`: both signs nonzero and
      `|sign(g[k]) + sign(g[k + 1])| < 2`. */
  predicate SignFlip(g: seq<real>, k: int)
    requires 0 <= k < |g| - 1
  {
    Sign(g[k]) != 0 && Sign(g[k + 1]) != 0 && IntAbs(Sign(g[k]) + Sign(g[k + 1])) < 2
  }

  /** The indices flagged once the pairs `(i, i + 1)` with `i < done` have been
      examined: `k` by its own tests as the left member of a pair, or `k` as
      the right member of a pair because its sign is zero. */
  predicate FlaggedBefore(g: seq<real>, done: int, k: int)
    requires 0 <= done && (done == 0 || done <= |g| - 1)
  {
    (0 <= k < done && (NearZero(g[k]) || SignFlip(g, k)))
    || (1 <= k <= done && Sign(g[k]) == 0)
  }

  /** Index `k` is reported as stationary by the scan over all pairs. */
  predicate IsStationary(g: seq<real>, k: int)
  {
    (0 <= k < |g| - 1 && (NearZero(g[k]) || SignFlip(g, k)))
    || (1 <= k < |g| && Sign(g[k]) == 0)
  }

  /** The scan of lines 241-262: append flagged indices pair by pair, then
      `np.unique`. The result is strictly increasing, in range, and holds
      exactly the stationary indices; the last sample is kept only when it is
      exactly zero and has a left neighbour. */
  method StationaryIndices(g: seq<real>) returns (ind: seq<int>)
    ensures IncreasingInts(ind)
    ensures forall j :: 0 <= j < |ind| ==> 0 <= ind[j] < |g|
    ensures forall k :: k in ind <==> IsStationary(g, k)
    ensures |g| > 0 ==> (|g| - 1 in ind <==> |g| >= 2 && g[|g| - 1] == 0.0)
  {
    var raw: seq<int> := [];
    var i := 0;
    while i < |g| - 1
      invariant 0 <= i && (i == 0 || i <= |g| - 1)
      invariant forall k :: k in raw <==> FlaggedBefore(g, i, k)
    {
      var pt1 := Sign(g[i]);
      var pt2 := Sign(g[i + 1]);
      if pt1 == 0 || Abs(g[i]) < Tolerance {
        raw := raw + [i];
      }
      if pt2 == 0 {
        raw := raw + [i + 1];
      }
      var gap := IntAbs(pt1 + pt2);
      if gap < 2 && pt1 != 0 && pt2 != 0 {
        raw := raw + [i];
      }
      i := i + 1;
    }
    ind := UniqueIndices(raw);
    assert forall k :: IsStationary(g, k) <==> FlaggedBefore(g, i, k);
    forall j | 0 <= j < |ind| ensures 0 <= ind[j] < |g| {
      assert ind[j] in ind;
    }
  }

  /** A zero or a sign change between two adjacent samples is always caught,
      at one of the two indices. */
  lemma CrossingCaught(g: seq<real>, i: int)
    requires 0 <= i < |g| - 1
    requires (g[i] <= 0.0 <= g[i + 1]) || (g[i + 1] <= 0.0 <= g[i])
    ensures IsStationary(g, i) || IsStationary(g, i + 1)
  {
  }

  /** Dropping the first sample shifts every stationary index down by one. */
  lemma StationaryShift(g: seq<real>, k: int)
    requires |g| >= 1 && IsStationary(g[1..], k)
    ensures IsStationary(g, k + 1)
  {
    assert g[1..][k] == g[k + 1];
    if 0 <= k < |g| - 2 {
      assert g[1..][k + 1] == g[k + 2];
    }
  }

  /** A sampled derivative that starts and ends with opposite signs has a
      reported stationary index strictly before its last sample. */
  lemma {:induction false} SignChangeFound(g: seq<real>)
    requires |g| >= 2
    requires (g[0] < 0.0 && g[|g| - 1] > 0.0) || (g[0] > 0.0 && g[|g| - 1] < 0.0)
    ensures exists k :: 0 <= k < |g| - 1 && IsStationary(g, k)
  {
    if |g| == 2 {
      assert SignFlip(g, 0);
      assert IsStationary(g, 0);
    } else if g[1] == 0.0 {
      assert IsStationary(g, 1);
    } else if Sign(g[1]) != Sign(g[0]) {
      assert SignFlip(g, 0);
      assert IsStationary(g, 0);
    } else {
      var t := g[1..];
      assert t[0] == g[1] && t[|t| - 1] == g[|g| - 1];
      SignChangeFound(t);
      var k :| 0 <= k < |t| - 1 && IsStationary(t, k);
      StationaryShift(g, k);
      assert IsStationary(g, k + 1);
    }
  }
}
