# First-order-methods plotting helpers: the computations behind the pictures

`section_3_2_helpers.py` draws three kinds of teaching figures for gradient-based
optimisation: a one-input function beside a two-input one, each with its tangent
line or tangent plane (`compare_2d3d`); three functions with their derivatives and
the detected stationary points (`show_stationary`); and a contour plot of a
two-input function with an optimiser's weight history drawn over it
(`Visualizer`). Almost all of the file is plotting calls. This project models the
computations those calls are fed, over exact reals. Sampled function values and
derivative values are inputs here.

- **Stationary-point scan** (`Stationary`). The sampled derivative is turned into
  signs. Every adjacent pair is examined and flagged indices are appended to a
  list, which is then deduplicated and sorted (`np.unique`). The method
  `StationaryIndices` keeps the loop. Its contract says the result is strictly
  increasing, in range, and holds exactly the indices the closed-form predicate
  `IsStationary` describes. A lemma shows that a derivative which starts and
  ends with opposite signs always yields a detected index.
- **Contour levels** (`ContourLevels`). This covers the first band
  `linspace(cutoff, levelmax, 4)`, the second `linspace(levelmin, cutoff, ·)`,
  and the refining `while` loop that spends the budget 4 at a time. The two ways
  the code crashes are modelled as outcomes:
  - a count below 4 gives `linspace` a negative sample count;
  - when `num_contours > 8` the refining loop runs, and on a constantly zero
    field there is only a single level, so the loop's `levels[1]` read fails.
    With `num_contours` from 4 to 8 the loop does not run, and the single
    level `[0]` is returned.
- **Path colours** (`PathColors`). This is the spectrum of `make_colorspec`,
  including Python 3's round-half-to-even in `round(len/2)`.
- **Viewing window** (`ViewWindow`). This covers the default ±3.1 window, the
  per-side keyword overrides, and the box around the weight history widened by
  25% of its span.
- **Weight path** (`WeightPath`). Each iterate gets a marker. A connector is
  drawn between iterates `j-1` and `j` when `j > 0`, `arrows` holds and the
  distance exceeds 0.1. The model compares squared distances; `Points` proves
  this is the same test.
- **Tangents** (`Tangent`). This covers the tangent line, the constant tangent
  at a stationary point, and the tangent plane.

`Numeric` holds the shared Python and numpy primitives: `abs`, `sign`, `min`/`max`,
`linspace` and `unique`. `np.unique` appears twice, once on real levels and once
on integer indices, because Dafny has no ordering over a type parameter. Python's
truthiness and numpy's floating-point rounding are not modelled.

### Behaviour of the code worth knowing

- `cutoff = (levelmax - levelmin) * 1` (line 400) is the span of the field.
  The first band runs from `cutoff` to the maximum, so the top level is
  `max(levelmax, levelmax - levelmin)`. That is the sampled maximum exactly
  when the sampled minimum is non-negative; `SelectLevels` states this. Each
  refining pass samples from `levelmin` up to the second-lowest level, so
  the passes add levels near the minimum.
- The spectrum runs "from green (start) to red (stop)", as the comment at
  line 426 says. The green column is the red column upside down
  (`np.flipud`, line 435). Red is a ramp from 0 over the first `round(n/2)`
  rows and 1 after them. Green is therefore 1 over the first rows and
  ramps down to 0 over the last ones.
- With a one-entry history, `round(1/2) == 0`, so the ramp is empty and the
  only row is `(1, 1, 0)`.
- `view_by_weights` takes effect when the key is present: line 350 sets the
  flag to `True` whatever value is passed.

## Model

| member | source | states |
|---|---|---|
| `Numeric.Abs` | notes/3_First_order_methods/chapter_3_library/section_3_2_helpers.py:251 | `abs` on a sample is non-negative and is the sample or its negation |
| `Numeric.IntAbs` | notes/3_First_order_methods/chapter_3_library/section_3_2_helpers.py:257 | `abs` on a sum of signs is non-negative and is the sum or its negation |
| `Numeric.MinInt` | notes/3_First_order_methods/chapter_3_library/section_3_2_helpers.py:406 | `min(num_contours, numper)` is at most either argument and equals one of them |
| `Numeric.Sign` | notes/3_First_order_methods/chapter_3_library/section_3_2_helpers.py:242 | the sign is -1, 0 or 1; it is 0 exactly for a zero sample and 1 exactly for a positive one |
| `Numeric.SeqMin` | notes/3_First_order_methods/chapter_3_library/section_3_2_helpers.py:397 | the minimum is a lower bound of every sample and is itself one of the samples |
| `Numeric.SeqMax` | notes/3_First_order_methods/chapter_3_library/section_3_2_helpers.py:398 | the maximum is an upper bound of every sample and is itself one of the samples |
| `Numeric.Linspace` | notes/3_First_order_methods/chapter_3_library/section_3_2_helpers.py:402 | `linspace(a, b, n)` has n samples; the first is a, the last (n ≥ 2) is b, and every sample lies between a and b |
| `Numeric.LinspaceNondecreasing` | notes/3_First_order_methods/chapter_3_library/section_3_2_helpers.py:429 | with a ≤ b the samples never decrease along the sequence |
| `Numeric.UniqueLevels` | notes/3_First_order_methods/chapter_3_library/section_3_2_helpers.py:407 | `np.unique` on levels: strictly increasing, the same values as the input, no longer than it |
| `Numeric.UniqueIndices` | notes/3_First_order_methods/chapter_3_library/section_3_2_helpers.py:262 | `np.unique` on indices: strictly increasing, the same values as the input, no longer than it |
| `Stationary.StationaryIndices` | notes/3_First_order_methods/chapter_3_library/section_3_2_helpers.py:241-262 | the scan returns strictly increasing indices below the sample count, and an index is returned iff it is stationary: near zero (sign 0 or within 1e-5) or a nonzero sign flip as the left member of a pair, or sign 0 as the right member; the last sample is kept iff it is exactly 0 and has a left neighbour |
| `Stationary.CrossingCaught` | notes/3_First_order_methods/chapter_3_library/section_3_2_helpers.py:250-259 | a zero or a sign change between adjacent samples is flagged at one of the two indices |
| `Stationary.SignChangeFound` | notes/3_First_order_methods/chapter_3_library/section_3_2_helpers.py:244-259 | a derivative whose first and last samples have opposite signs has a stationary index before the last sample |
| `ContourLevels.Pass` | notes/3_First_order_methods/chapter_3_library/section_3_2_helpers.py:410-412 | one refining pass yields, strictly increasing, exactly the old levels together with the samples `linspace(levelmin, levels[1], min(budget, 4))`; so it keeps every level, adds only values between `levelmin` and `levels[1]`, and adds at most min(budget, 4) |
| `ContourLevels.FirstLevels` | notes/3_First_order_methods/chapter_3_library/section_3_2_helpers.py:399-407 | the first levels are, strictly increasing, exactly the samples of `linspace(cutoff, max, 4)` and `linspace(min, cutoff, min(remaining, 4))` with `cutoff = max - min`; there are at most 4 + min(remaining, 4) |
| `ContourLevels.FirstLevelsHold` | notes/3_First_order_methods/chapter_3_library/section_3_2_helpers.py:399-407 | the first levels hold the maximum and `cutoff`, and the minimum when any contours remain |
| `ContourLevels.FirstLevelsWithin` | notes/3_First_order_methods/chapter_3_library/section_3_2_helpers.py:399-407 | every first level lies within [min(min, cutoff), max(max, cutoff)] |
| `ContourLevels.Refined` | notes/3_First_order_methods/chapter_3_library/section_3_2_helpers.py:409-413 | the outcome of the refining loop: a successful run keeps every starting level, and a failure (`levels[1]` missing) happens only when the loop runs at all |
| `ContourLevels.RefinedFails` | notes/3_First_order_methods/chapter_3_library/section_3_2_helpers.py:409-413 | from the levels lines 397-407 leave, the loop fails iff it runs (budget > 0) on a constantly zero field |
| `ContourLevels.RefinedShape` | notes/3_First_order_methods/chapter_3_library/section_3_2_helpers.py:409-413 | from those levels, a successful loop leaves levels that are strictly increasing, hold the maximum, end at the top bound max(max, max - min) (the maximum iff min ≥ 0), and grow by at most the budget |
| `ContourLevels.RefineLevels` | notes/3_First_order_methods/chapter_3_library/section_3_2_helpers.py:409-413 | the `while` loop yields exactly the outcome `Refined` of its starting levels and budget, and on success keeps every starting level |
| `ContourLevels.SelectLevels` | notes/3_First_order_methods/chapter_3_library/section_3_2_helpers.py:397-413 | fails with a negative `linspace` count iff `num_contours < 4`, and with a missing second level iff `num_contours > 8` on a constantly zero field; otherwise the outcome is exactly `Refined` of the first levels with the budget `num_contours - 8`, and the levels are strictly increasing, between 1 and `num_contours` many, contain every first level (so the sampled maximum, and the minimum when `num_contours > 4`), lie within the bounds, end at max(max, max - min), and end at the sampled maximum iff the minimum is ≥ 0 |
| `PathColors.HalfRounded` | notes/3_First_order_methods/chapter_3_library/section_3_2_helpers.py:429 | `round(n/2)` is at most n and within one half of n/2, and a tie goes to the even neighbour |
| `PathColors.RedColumn` | notes/3_First_order_methods/chapter_3_library/section_3_2_helpers.py:429-433 | the column has one entry per history entry |
| `PathColors.ColorSpec` | notes/3_First_order_methods/chapter_3_library/section_3_2_helpers.py:427-437 | the spectrum has exactly one RGB row per history entry |
| `PathColors.RedColumnRamp` | notes/3_First_order_methods/chapter_3_library/section_3_2_helpers.py:429-433 | red lies in [0, 1], is 1 from row `round(n/2)` on, starts the ramp at 0, and never decreases |
| `PathColors.ColorSpecShape` | notes/3_First_order_methods/chapter_3_library/section_3_2_helpers.py:433-436 | every row has blue 0 and red from the ramp column; green of row i is red of row n-1-i (flipud) |
| `PathColors.ColorSpecEnds` | notes/3_First_order_methods/chapter_3_library/section_3_2_helpers.py:429-436 | with two or more entries the first row is (0, 1, 0) and the last (1, 0, 0); a single entry is (1, 1, 0) |
| `PathColors.ColorSpecMonotone` | notes/3_First_order_methods/chapter_3_library/section_3_2_helpers.py:429-435 | along the path red never decreases and green never increases |
| `ViewWindow.WidenedRange` | notes/3_First_order_methods/chapter_3_library/section_3_2_helpers.py:353-357 | the widened axis range contains every coordinate, and both margins equal 25% of the span between the smallest and largest coordinate |
| `ViewWindow.WeightsWindow` | notes/3_First_order_methods/chapter_3_library/section_3_2_helpers.py:353-363 | the window contains every iterate, xmin ≤ v[0] ≤ xmax and ymin ≤ v[1] ≤ ymax, and each axis is that coordinate's widened range |
| `ViewWindow.SetupWindow` | notes/3_First_order_methods/chapter_3_library/section_3_2_helpers.py:332-363 | with the `view_by_weights` key the window is exactly `WeightsWindow` of the history (both axes widened by 25% of their span) and contains every iterate; without it each side is its keyword value, else -3.1 or 3.1 |
| `Points.DistSq` | notes/3_First_order_methods/chapter_3_library/section_3_2_helpers.py:461 | the squared distance is non-negative and 0 between equal points |
| `Points.DistanceExceedsIffSquareExceeds` | notes/3_First_order_methods/chapter_3_library/section_3_2_helpers.py:466 | for any non-negative square root of the squared distance, it exceeds a bound iff the squared distance exceeds the bound squared (so `> 0.01` is the `norm > 0.1` test) |
| `WeightPath.JoinedIndices` | notes/3_First_order_methods/chapter_3_library/section_3_2_helpers.py:449-466 | the iterates that get a connector are strictly increasing, lie in 1..n-1, and are exactly those with j > 0, `arrows` and squared distance to iterate j-1 above 0.01 |
| `WeightPath.NoArrowsNoConnectors` | notes/3_First_order_methods/chapter_3_library/section_3_2_helpers.py:444-466 | with `arrows` false no connector is drawn |
| `WeightPath.ConnectorsAt` | notes/3_First_order_methods/chapter_3_library/section_3_2_helpers.py:456-476 | there is one connector per chosen iterate, in order, from iterate j-1 to j in the colour of iterate j |
| `WeightPath.MarkersOf` | notes/3_First_order_methods/chapter_3_library/section_3_2_helpers.py:449-453 | there is one marker per iterate, at the iterate, in its spectrum colour |
| `WeightPath.DrawPath` | notes/3_First_order_methods/chapter_3_library/section_3_2_helpers.py:449-476 | the loop produces exactly the markers and exactly the connectors of the joined iterates, in path order |
| `WeightPath.DrawWeightPath` | notes/3_First_order_methods/chapter_3_library/section_3_2_helpers.py:440-476 | drawing the path with the spectrum of `make_colorspec` gives those markers and connectors |
| `Tangent.TangentLine` | notes/3_First_order_methods/chapter_3_library/section_3_2_helpers.py:71 | the tangent line passes through (p, g(p)) and is constant g(p) when the slope is 0 |
| `Tangent.TangentLineSlope` | notes/3_First_order_methods/chapter_3_library/section_3_2_helpers.py:71 | the line rises by the supplied derivative per unit step |
| `Tangent.TangentSamples` | notes/3_First_order_methods/chapter_3_library/section_3_2_helpers.py:275-278 | sampling the tangent on `linspace(p - r, p + r, n)` gives n values ending at g(p) ∓ g'(p)·r; with slope 0 (a stationary point) every sample is g(p) |
| `Tangent.TangentPlane` | notes/3_First_order_methods/chapter_3_library/section_3_2_helpers.py:121 | the tangent plane passes through (p, g(p)) |
| `Tangent.TangentPlaneOnShiftedGrid` | notes/3_First_order_methods/chapter_3_library/section_3_2_helpers.py:121-122 | on the grid translated by p, the height at offset (u, v) is g(p) + d0·u + d1·v |
| `Tangent.TangentPlaneAlongAxes` | notes/3_First_order_methods/chapter_3_library/section_3_2_helpers.py:121 | along each axis through p the plane is the tangent line whose slope is that partial derivative |

## Left out

- Every matplotlib call is left out: figures, grid specs, subplots, scatter,
  plot, contour, contourf, surfaces, labels, axis limits (lines 50-51, 82,
  168-175, 220-234) and `plt.show`. These are rendering side effects with no
  result.
- Autograd's `compute_grad`, and evaluating the caller's functions on grids,
  are left out. Derivative and function samples are inputs.
- Meshgrid reshaping and concatenation (lines 101-132, 383-393) are left out.
  They are array layout.
- Floating point is left out: values are exact reals. `linspace` rounding,
  `np.sign` on NaN and overflow are not modelled.
- The marker edge width `2*sqrt(1/(j+1))` (line 453) is left out because it
  needs `sqrt`. The arrow `alpha` (line 463) is left out because it divides by
  zero for equal iterates and is unused.
- The `self.edgecolor` side channel (line 318) is left out. It only passes a
  colour name to a plotting call.
- `two_input_contour_plot` (lines 293-325) is left out. It only arranges one or
  two panels and calls the modelled pieces.
- Which levels are handed to `contour` (`levels[1:]`) and which to `contourf`
  (line 416-417) is left out. It is a plotting argument.
- `ViewWindow.SetupWindow`: a missing `weight_history` keyword raises
  `KeyError` in the source, but the model always has one. An empty history,
  which makes `min` raise, is excluded by the precondition.
- `ContourLevels.SelectLevels`: requires a non-empty sample. The grid it comes
  from always has 400×400 points.
- The defaults `num_contours = 20` (lines 344-346) and `arrows = True`
  (lines 444-446) are not modelled as defaults: `SelectLevels` and
  `DrawWeightPath` take the count and the flag as plain parameters, and a
  call without the keyword corresponds to passing 20 or `true`.
- Level selection is deterministic, so calling it twice gives the same levels.
  No lemma is needed for that.
