/** The Python and numpy primitives the helpers rely on, over exact reals: `abs`,
    `np.sign`, `min`/`max` of a sequence, `np.linspace` and `np.unique`. */
module Numeric {

  function Abs(x: real): (r: real)
    ensures r >= 0.0 && (r == x || r == -x)
  {
    if x < 0.0 then -x else x
  }

  function IntAbs(x: int): (r: int)
    ensures r >= 0 && (r == x || r == -x)
  {
    if x < 0 then -x else x
  }

  /** `np.sign`: -1, 0 or 1 according to the sign of `x` (NaN is not modelled). */
  function Sign(x: real): (s: int)
    ensures -1 <= s <= 1
    ensures s == 0 <==> x == 0.0
    ensures s == 1 <==> x > 0.0
  {
    if x > 0.0 then 1 else if x < 0.0 then -1 else 0
  }

  function MinInt(a: int, b: int): (m: int)
    ensures m <= a && m <= b && (m == a || m == b)
  {
    if a <= b then a else b
  }

  function MinReal(a: real, b: real): (m: real)
    ensures m <= a && m <= b && (m == a || m == b)
  {
    if a <= b then a else b
  }

  function MaxReal(a: real, b: real): (m: real)
    ensures m >= a && m >= b && (m == a || m == b)
  {
    if a <= b then b else a
  }

  /** `x` lies in the closed interval spanned by `a` and `b`, in either order. */
  predicate Between(x: real, a: real, b: real)
  {
    MinReal(a, b) <= x <= MaxReal(a, b)
  }

  /** Python's `min` over a non-empty sequence: a lower bound that is attained. */
  function SeqMin(s: seq<real>): (m: real)
    requires |s| > 0
    ensures forall i :: 0 <= i < |s| ==> m <= s[i]
    ensures m in s
  {
    if |s| == 1 then s[0]
    else
      var rest := SeqMin(s[1..]);
      if s[0] <= rest then s[0] else rest
  }

  /** Python's `max` over a non-empty sequence: an upper bound that is attained. */
  function SeqMax(s: seq<real>): (m: real)
    requires |s| > 0
    ensures forall i :: 0 <= i < |s| ==> s[i] <= m
    ensures m in s
  {
    if |s| == 1 then s[0]
    else
      var rest := SeqMax(s[1..]);
      if s[0] >= rest then s[0] else rest
  }

  /** Position `k` of `n` evenly spaced points, as a fraction of the whole span. */
  function Fraction(k: nat, n: nat): (t: real)
    requires k < n
    ensures 0.0 <= t <= 1.0
    ensures k == 0 ==> t == 0.0
    ensures n >= 2 && k == n - 1 ==> t == 1.0
  {
    if n == 1 then 0.0 else (k as real) / ((n - 1) as real)
  }

  /** The point a fraction `t` of the way from `a` to `b`. */
  function Lerp(a: real, b: real, t: real): (r: real)
    requires 0.0 <= t <= 1.0
    ensures Between(r, a, b)
    ensures t == 0.0 ==> r == a
    ensures t == 1.0 ==> r == b
  {
    LerpBounds(a, b, t);
    a + t * (b - a)
  }

  lemma LerpBounds(a: real, b: real, t: real)
    requires 0.0 <= t <= 1.0
    ensures Between(a + t * (b - a), a, b)
    ensures t == 0.0 ==> a + t * (b - a) == a
  {
    var d := b - a;
    var p := t * d;
    ProductBounds(t, d);
    assert a + t * (b - a) == a + p;
    if d >= 0.0 {
      assert p <= d;
    } else {
      ProductNonnegative(1.0 - t, -d);
      assert (1.0 - t) * (-d) == p - d;
      assert d <= p;
    }
    if a <= b {
      assert MinReal(a, b) == a && MaxReal(a, b) == b;
    } else {
      assert MinReal(a, b) == b && MaxReal(a, b) == a;
    }
  }

  lemma ProductBounds(t: real, d: real)
    requires 0.0 <= t <= 1.0
    ensures d >= 0.0 ==> 0.0 <= t * d <= d
    ensures d < 0.0 ==> d <= t * d <= 0.0
  {
    if d >= 0.0 {
      ProductNonnegative(t, d);
      ProductNonnegative(1.0 - t, d);
      assert d - t * d == (1.0 - t) * d;
    } else {
      ProductNonnegative(t, -d);
      ProductNonnegative(1.0 - t, -d);
      assert t * (-d) == -(t * d);
      assert (1.0 - t) * (-d) == t * d - d;
    }
  }

  lemma ProductNonnegative(x: real, y: real)
    requires x >= 0.0 && y >= 0.0
    ensures x * y >= 0.0
  {
  }

  /** `np.linspace(a, b, n)`: `n` evenly spaced samples from `a` to `b`
      inclusive; with `n == 1` the single sample is `a`. */
  function Linspace(a: real, b: real, n: nat): (r: seq<real>)
    ensures |r| == n
    ensures n >= 1 ==> r[0] == a
    ensures n >= 2 ==> r[n - 1] == b
    ensures forall k :: 0 <= k < n ==> Between(r[k], a, b)
  {
    seq(n, k requires 0 <= k < n => Lerp(a, b, Fraction(k, n)))
  }

  lemma QuotientNonnegative(x: real, d: real)
    requires x >= 0.0 && d > 0.0
    ensures x / d >= 0.0
  {
  }

  /** With `a <= b` the samples of `np.linspace` never decrease. */
  lemma LinspaceNondecreasing(a: real, b: real, n: nat, i: nat, j: nat)
    requires a <= b && i <= j < n
    ensures Linspace(a, b, n)[i] <= Linspace(a, b, n)[j]
  {
    var ti, tj := Fraction(i, n), Fraction(j, n);
    if n > 1 {
      assert tj - ti == ((j - i) as real) / ((n - 1) as real);
      QuotientNonnegative((j - i) as real, (n - 1) as real);
    }
    LerpNondecreasing(a, b, ti, tj);
  }

  lemma LerpNondecreasing(a: real, b: real, s: real, t: real)
    requires a <= b && 0.0 <= s <= t <= 1.0
    ensures Lerp(a, b, s) <= Lerp(a, b, t)
  {
    ProductBounds(t - s, b - a);
    assert Lerp(a, b, t) - Lerp(a, b, s) == (t - s) * (b - a);
  }

  predicate Increasing(s: seq<real>)
  {
    forall i, j :: 0 <= i < j < |s| ==> s[i] < s[j]
  }

  predicate IncreasingInts(s: seq<int>)
  {
    forall i, j :: 0 <= i < j < |s| ==> s[i] < s[j]
  }

  /** Inserting `x` into a strictly increasing sequence, keeping it strictly
      increasing and free of duplicates. */
  function InsertLevel(x: real, s: seq<real>): (r: seq<real>)
    requires Increasing(s)
    ensures Increasing(r)
    ensures forall y :: y in r <==> y == x || y in s
    ensures |r| <= |s| + 1
  {
    if s == [] then [x]
    else if x < s[0] then [x] + s
    else if x == s[0] then s
    else
      var rest := InsertLevel(x, s[1..]);
      assert forall k :: 0 <= k < |rest| ==> s[0] < rest[k] by {
        forall k | 0 <= k < |rest| ensures s[0] < rest[k] {
          assert rest[k] in rest;
        }
      }
      [s[0]] + rest
  }

  /** `np.unique` on reals: the distinct values of `s`, sorted. */
  function UniqueLevels(s: seq<real>): (r: seq<real>)
    ensures Increasing(r)
    ensures forall y :: y in r <==> y in s
    ensures |r| <= |s|
  {
    if s == [] then []
    else
      var r := InsertLevel(s[|s| - 1], UniqueLevels(s[..|s| - 1]));
      assert forall y :: y in s <==> y == s[|s| - 1] || y in s[..|s| - 1] by {
        assert s == s[..|s| - 1] + [s[|s| - 1]];
      }
      r
  }

  /** The same insertion on integer indices. */
  function InsertIndex(x: int, s: seq<int>): (r: seq<int>)
    requires IncreasingInts(s)
    ensures IncreasingInts(r)
    ensures forall y :: y in r <==> y == x || y in s
    ensures |r| <= |s| + 1
  {
    if s == [] then [x]
    else if x < s[0] then [x] + s
    else if x == s[0] then s
    else
      var rest := InsertIndex(x, s[1..]);
      assert forall k :: 0 <= k < |rest| ==> s[0] < rest[k] by {
        forall k | 0 <= k < |rest| ensures s[0] < rest[k] {
          assert rest[k] in rest;
        }
      }
      [s[0]] + rest
  }

  /** `np.unique` on integer indices: the distinct values of `s`, sorted. */
  function UniqueIndices(s: seq<int>): (r: seq<int>)
    ensures IncreasingInts(r)
    ensures forall y :: y in r <==> y in s
    ensures |r| <= |s|
  {
    if s == [] then []
    else
      var r := InsertIndex(s[|s| - 1], UniqueIndices(s[..|s| - 1]));
      assert forall y :: y in s <==> y == s[|s| - 1] || y in s[..|s| - 1] by {
        assert s == s[..|s| - 1] + [s[|s| - 1]];
      }
      r
  }
}
