/** Contour-level selection of `Visualizer.draw_contour_plot`: from the
    sampled field's minimum and maximum it builds a first band of levels,
    then keeps refining the band between the minimum and the second-lowest
    level while a level budget lasts. */
module ContourLevels {
  import opened Numeric

  /** `numper`: how many levels each `np.linspace` call contributes at most. */
  const PerPass: int := 4

  /** The two ways the source fails: `np.linspace` is handed a negative
      sample count (a `ValueError`), or the loop reads `levels[1]` of a
      one-element array (an `IndexError`). */
  datatype LevelError = NegativeSampleCount | SecondLevelMissing

  datatype LevelOutcome = Chosen(levels: seq<real>) | Failed(error: LevelError)

  /** One pass of the refining loop (lines 410-412): merge
      `linspace(levelmin, levels[1], min(budget, 4))` into the levels. It keeps
      every old level, adds only values between `levelmin` and `levels[1]`,
      and adds at most `min(budget, 4)` of them. */
  function Pass(levels: seq<real>, levelmin: real, budget: int): (r: seq<real>)
    requires |levels| >= 2 && budget > 0
    ensures Increasing(r)
    ensures forall v :: v in r <==> v in levels || v in Linspace(levelmin, levels[1], MinInt(budget, PerPass))
    ensures forall v :: v in levels ==> v in r
    ensures forall v :: v in r && v !in levels ==> Between(v, levelmin, levels[1])
    ensures |r| <= |levels| + MinInt(budget, PerPass)
  {
    var added := Linspace(levelmin, levels[1], MinInt(budget, PerPass));
    var r := UniqueLevels(added + levels);
    assert forall v :: v in r && v !in levels ==> v in added;
    r
  }

  /** Fewer than two levels holding the minimum, the maximum and
      `cutoff = max - min` force the field to be constantly zero. */
  lemma SingleLevelMeansZeroField(levels: seq<real>, levelmin: real, levelmax: real)
    requires |levels| < 2
    requires levelmin in levels && levelmax in levels && levelmax - levelmin in levels
    ensures levelmin == 0.0 && levelmax == 0.0
  {
  }

  /** On a constantly zero field every level is zero, so there is only one. */
  lemma ZeroFieldHasSingleLevel(levels: seq<real>, levelmin: real, levelmax: real)
    requires Increasing(levels)
    requires Within(levels, MinReal(levelmin, levelmax - levelmin), MaxReal(levelmax, levelmax - levelmin))
    ensures |levels| >= 2 ==> !(levelmin == 0.0 && levelmax == 0.0)
  {
    if |levels| >= 2 {
      assert levels[0] < levels[1];
    }
  }

  /** Every level lies in `[bottom, top]`. */
  predicate Within(levels: seq<real>, bottom: real, top: real)
  {
    forall i :: 0 <= i < |levels| ==> bottom <= levels[i] <= top
  }

  /** The levels chosen before the loop (lines 397-407), for a field with
      minimum `levelmin <= levelmax` and `remaining >= 0` contours left:
      the distinct values of `linspace(cutoff, levelmax, 4)` and
      `linspace(levelmin, cutoff, min(remaining, 4))`, sorted, where
      `cutoff = levelmax - levelmin`. */
  function FirstLevels(levelmin: real, levelmax: real, remaining: int): (r: seq<real>)
    requires levelmin <= levelmax && remaining >= 0
    ensures Increasing(r)
    ensures forall v :: v in r <==>
      v in Linspace(levelmax - levelmin, levelmax, PerPass) ||
      v in Linspace(levelmin, levelmax - levelmin, MinInt(remaining, PerPass))
    ensures |r| <= PerPass + MinInt(remaining, PerPass)
  {
    var cutoff := (levelmax - levelmin) * 1.0;
    var levels1 := Linspace(cutoff, levelmax, PerPass);
    var levels2 := Linspace(levelmin, cutoff, MinInt(remaining, PerPass));
    UniqueLevels(levels1 + levels2)
  }

  /** The first levels hold the maximum and `cutoff`, and the minimum when
      any contours remain. */
  lemma FirstLevelsHold(levelmin: real, levelmax: real, remaining: int)
    requires levelmin <= levelmax && remaining >= 0
    ensures levelmax in FirstLevels(levelmin, levelmax, remaining)
    ensures levelmax - levelmin in FirstLevels(levelmin, levelmax, remaining)
    ensures remaining > 0 ==> levelmin in FirstLevels(levelmin, levelmax, remaining)
  {
    var levels1 := Linspace(levelmax - levelmin, levelmax, PerPass);
    var levels2 := Linspace(levelmin, levelmax - levelmin, MinInt(remaining, PerPass));
    assert levels1[0] in levels1 && levels1[PerPass - 1] in levels1;
    assert remaining > 0 ==> levels2[0] in levels2;
  }

  /** The first levels lie within `[min(levelmin, cutoff), max(levelmax, cutoff)]`. */
  lemma FirstLevelsWithin(levelmin: real, levelmax: real, remaining: int)
    requires levelmin <= levelmax && remaining >= 0
    ensures Within(FirstLevels(levelmin, levelmax, remaining),
                   MinReal(levelmin, levelmax - levelmin), MaxReal(levelmax, levelmax - levelmin))
  {
    var cutoff := levelmax - levelmin;
    var bottom, top := MinReal(levelmin, cutoff), MaxReal(levelmax, cutoff);
    LinspaceWithin(cutoff, levelmax, PerPass, bottom, top);
    LinspaceWithin(levelmin, cutoff, MinInt(remaining, PerPass), bottom, top);
    UnionWithin(FirstLevels(levelmin, levelmax, remaining),
                Linspace(cutoff, levelmax, PerPass), Linspace(levelmin, cutoff, MinInt(remaining, PerPass)),
                bottom, top);
  }

  /** Values drawn from two sequences within bounds are within them too. */
  lemma UnionWithin(r: seq<real>, s1: seq<real>, s2: seq<real>, bottom: real, top: real)
    requires forall v :: v in r ==> v in s1 || v in s2
    requires Within(s1, bottom, top) && Within(s2, bottom, top)
    ensures Within(r, bottom, top)
  {
    forall i | 0 <= i < |r| ensures bottom <= r[i] <= top {
      assert r[i] in r;
      if r[i] in s1 {
        var k :| 0 <= k < |s1| && s1[k] == r[i];
      } else {
        var k :| 0 <= k < |s2| && s2[k] == r[i];
      }
    }
  }

  lemma LinspaceWithin(a: real, b: real, n: nat, bottom: real, top: real)
    requires bottom <= a <= top && bottom <= b <= top
    ensures Within(Linspace(a, b, n), bottom, top)
  {
  }

  /** A pass keeps the levels within bounds that already hold `levelmin`. */
  lemma PassWithin(levels: seq<real>, levelmin: real, budget: int, bottom: real, top: real)
    requires |levels| >= 2 && budget > 0
    requires Within(levels, bottom, top) && bottom <= levelmin <= top
    ensures Within(Pass(levels, levelmin, budget), bottom, top)
  {
    var r := Pass(levels, levelmin, budget);
    forall i | 0 <= i < |r| ensures bottom <= r[i] <= top {
      assert r[i] in r;
      if r[i] !in levels {
        assert Between(r[i], levelmin, levels[1]);
      } else {
        var j :| 0 <= j < |levels| && levels[j] == r[i];
      }
    }
  }

  /** The shape of a finished level set for a field spanning `[lo, hi]`:
      every level lies between `min(lo, hi - lo)` and `max(hi, hi - lo)`,
      the last level is that upper bound, and it is the sampled maximum
      exactly when the sampled minimum is non-negative. */
  predicate TopLevel(levels: seq<real>, lo: real, hi: real)
  {
    && |levels| > 0
    && Within(levels, MinReal(lo, hi - lo), MaxReal(hi, hi - lo))
    && levels[|levels| - 1] == MaxReal(hi, hi - lo)
    && (levels[|levels| - 1] == hi <==> lo >= 0.0)
  }

  lemma TopLevelReached(levels: seq<real>, lo: real, hi: real)
    requires Increasing(levels) && hi in levels && hi - lo in levels
    requires Within(levels, MinReal(lo, hi - lo), MaxReal(hi, hi - lo))
    ensures TopLevel(levels, lo, hi)
  {
    var top := MaxReal(hi, hi - lo);
    assert top in levels;
  }

  /** What the refining loop of lines 409-413 yields from `levels` with
      `budget` contours left: each pass merges in the samples of `Pass` and
      spends 4 of the budget, and a pass that finds fewer than two levels
      fails reading `levels[1]`. The loop only ever adds levels, and it
      fails only when it runs at all. */
  function Refined(levels: seq<real>, levelmin: real, budget: int): (out: LevelOutcome)
    ensures out.Chosen? ==> forall v :: v in levels ==> v in out.levels
    ensures out.Failed? ==> budget > 0 && out.error == SecondLevelMissing
    ensures budget <= 0 ==> out == Chosen(levels)
    decreases budget
  {
    if budget <= 0 then Chosen(levels)
    else if |levels| < 2 then Failed(SecondLevelMissing)
    else Refined(Pass(levels, levelmin, budget), levelmin, budget - PerPass)
  }

  /** Levels as lines 397-407 leave them for the loop, with `budget`
      contours left: strictly increasing, holding the maximum and `cutoff`,
      and the minimum while contours remain, all within the bounds. */
  predicate Started(levels: seq<real>, levelmin: real, levelmax: real, budget: int)
  {
    && levelmin <= levelmax
    && Increasing(levels)
    && levelmax in levels && levelmax - levelmin in levels
    && (budget > 0 ==> levelmin in levels)
    && Within(levels, MinReal(levelmin, levelmax - levelmin), MaxReal(levelmax, levelmax - levelmin))
  }

  /** A pass leaves the levels started for the remaining budget. */
  lemma PassStarted(levels: seq<real>, levelmin: real, levelmax: real, budget: int)
    requires Started(levels, levelmin, levelmax, budget) && budget > 0 && |levels| >= 2
    ensures Started(Pass(levels, levelmin, budget), levelmin, levelmax, budget - PerPass)
  {
    PassWithin(levels, levelmin, budget, MinReal(levelmin, levelmax - levelmin), MaxReal(levelmax, levelmax - levelmin));
  }

  /** The loop of lines 409-413 fails, on its first pass, exactly when it
      runs at all on a constantly zero field. */
  lemma {:induction false} RefinedFails(levels: seq<real>, levelmin: real, levelmax: real, budget: int)
    requires Started(levels, levelmin, levelmax, budget)
    ensures Refined(levels, levelmin, budget).Failed? <==> budget > 0 && levelmin == 0.0 && levelmax == 0.0
    decreases budget
  {
    if budget > 0 {
      if |levels| < 2 {
        SingleLevelMeansZeroField(levels, levelmin, levelmax);
      } else {
        ZeroFieldHasSingleLevel(levels, levelmin, levelmax);
        PassStarted(levels, levelmin, levelmax, budget);
        RefinedFails(Pass(levels, levelmin, budget), levelmin, levelmax, budget - PerPass);
      }
    }
  }

  /** When the loop of lines 409-413 succeeds, its levels stay strictly
      increasing, hold the maximum, end at the top level, and grow by no
      more than the budget. */
  lemma {:induction false} RefinedShape(levels: seq<real>, levelmin: real, levelmax: real, budget: int)
    requires Started(levels, levelmin, levelmax, budget)
    ensures Refined(levels, levelmin, budget).Chosen? ==>
      var r := Refined(levels, levelmin, budget).levels;
      && Increasing(r)
      && |r| <= |levels| + (if budget > 0 then budget else 0)
      && levelmax in r
      && TopLevel(r, levelmin, levelmax)
    decreases budget
  {
    if budget <= 0 {
      TopLevelReached(levels, levelmin, levelmax);
    } else if |levels| >= 2 {
      PassStarted(levels, levelmin, levelmax, budget);
      RefinedShape(Pass(levels, levelmin, budget), levelmin, levelmax, budget - PerPass);
    }
  }

  /** The refining loop of lines 409-413, started on `levels0` with
      `budget` contours left (`num_contours` after its second decrement):
      it yields exactly `Refined`, and keeps every starting level. */
  method RefineLevels(levels0: seq<real>, levelmin: real, budget: int)
    returns (out: LevelOutcome)
    ensures out == Refined(levels0, levelmin, budget)
    ensures out.Chosen? ==> forall v :: v in levels0 ==> v in out.levels
  {
    var levels := levels0;
    var remaining := budget;
    while remaining > 0
      invariant Refined(levels, levelmin, remaining) == Refined(levels0, levelmin, budget)
    {
      if |levels| < 2 {
        return Failed(SecondLevelMissing);
      }
      levels := Pass(levels, levelmin, remaining);
      remaining := remaining - PerPass;
    }
    return Chosen(levels);
  }

  /** The level selection of lines 397-413 on the sampled values `funcVals`
      with a requested count `numContours`: the first levels, then the
      refining loop.
      It fails exactly when the count is below 4 (negative `linspace` count)
      or when the loop runs on a field that is constantly zero (one level
      only). Otherwise the levels are strictly increasing, at most
      `numContours` many, contain every first level (so the sampled
      maximum, and the minimum when the count exceeds 4), stay within the
      span of the minimum, the maximum and `cutoff = max - min`, and end at
      the larger of the maximum and `cutoff`; so the top level is the
      sampled maximum exactly when the sampled minimum is non-negative. */
  method SelectLevels(funcVals: seq<real>, numContours: int) returns (out: LevelOutcome)
    requires |funcVals| > 0
    ensures out == Failed(NegativeSampleCount) <==> numContours < PerPass
    ensures numContours >= PerPass ==>
      out == Refined(FirstLevels(SeqMin(funcVals), SeqMax(funcVals), numContours - PerPass),
                     SeqMin(funcVals), numContours - 2 * PerPass)
    ensures out == Failed(SecondLevelMissing) <==>
      numContours > 2 * PerPass && SeqMin(funcVals) == 0.0 && SeqMax(funcVals) == 0.0
    ensures out.Chosen? ==> Increasing(out.levels) && 0 < |out.levels| <= numContours
    ensures out.Chosen? ==>
      forall v :: v in FirstLevels(SeqMin(funcVals), SeqMax(funcVals), numContours - PerPass) ==> v in out.levels
    ensures out.Chosen? ==> SeqMax(funcVals) in out.levels
    ensures out.Chosen? && numContours > PerPass ==> SeqMin(funcVals) in out.levels
    ensures out.Chosen? ==> TopLevel(out.levels, SeqMin(funcVals), SeqMax(funcVals))
  {
    var levelmin := SeqMin(funcVals);
    var levelmax := SeqMax(funcVals);
    assert levelmin <= funcVals[0] <= levelmax;
    var remaining := numContours - PerPass;
    if MinInt(remaining, PerPass) < 0 {
      return Failed(NegativeSampleCount);
    }
    var levels := FirstLevels(levelmin, levelmax, remaining);
    FirstLevelsHold(levelmin, levelmax, remaining);
    FirstLevelsWithin(levelmin, levelmax, remaining);
    remaining := remaining - PerPass;
    RefinedFails(levels, levelmin, levelmax, remaining);
    RefinedShape(levels, levelmin, levelmax, remaining);
    out := RefineLevels(levels, levelmin, remaining);
  }
}
