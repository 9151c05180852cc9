/** The viewing window of `Visualizer.contour_plot_setup`: fixed defaults,
    overridden per side by keyword, or derived from the weight history. */
module ViewWindow {
  import opened Numeric
  import opened Points

  datatype Window = Window(xmin: real, xmax: real, ymin: real, ymax: real)

  datatype Option<T> = None | Some(value: T)

  /** The keyword options the window depends on. `viewByWeights` records
      only whether the `view_by_weights` key is present: its value is never
      read (line 350 sets the flag to `True` regardless). */
  datatype WindowOptions = WindowOptions(
    xmin: Option<real>, xmax: Option<real>, ymin: Option<real>, ymax: Option<real>,
    viewByWeights: bool, weightHistory: seq<Point>)

  /** The default half-width of the window, 3.1, on every side. */
  const DefaultExtent: real := 3.1

  /** The fraction of the weights' span added on each side. */
  const Margin: real := 0.25

  function Xs(hist: seq<Point>): (xs: seq<real>)
    ensures |xs| == |hist| && forall i :: 0 <= i < |hist| ==> xs[i] == hist[i].x
  {
    seq(|hist|, i requires 0 <= i < |hist| => hist[i].x)
  }

  function Ys(hist: seq<Point>): (ys: seq<real>)
    ensures |ys| == |hist| && forall i :: 0 <= i < |hist| ==> ys[i] == hist[i].y
  {
    seq(|hist|, i requires 0 <= i < |hist| => hist[i].y)
  }

  function OrDefault(o: Option<real>, d: real): real
  {
    if o.Some? then o.value else d
  }

  datatype Range = Range(lo: real, hi: real)

  /** One axis of lines 353-363: the smallest and largest coordinate, each
      pushed outwards by a quarter of their distance. The range contains
      every coordinate and its two margins are equal, a quarter of the span
      between the extreme coordinates (which `SeqMin`/`SeqMax` attain). */
  function WidenedRange(vals: seq<real>): (r: Range)
    requires |vals| > 0
    ensures forall i :: 0 <= i < |vals| ==> r.lo <= vals[i] <= r.hi
    ensures SeqMin(vals) - r.lo == r.hi - SeqMax(vals) == Margin * (SeqMax(vals) - SeqMin(vals))
  {
    var lo, hi := SeqMin(vals), SeqMax(vals);
    assert lo <= vals[0] <= hi;
    var gap := (hi - lo) * Margin;
    Range(lo - gap, hi + gap)
  }

  /** Lines 353-363: the bounding box of the weight history widened on each
      side by a quarter of its span; it contains every iterate. */
  function WeightsWindow(hist: seq<Point>): (w: Window)
    requires |hist| > 0
    ensures forall i :: 0 <= i < |hist| ==>
      w.xmin <= hist[i].x <= w.xmax && w.ymin <= hist[i].y <= w.ymax
    ensures Range(w.xmin, w.xmax) == WidenedRange(Xs(hist))
    ensures Range(w.ymin, w.ymax) == WidenedRange(Ys(hist))
  {
    var x, y := WidenedRange(Xs(hist)), WidenedRange(Ys(hist));
    Window(x.lo, x.hi, y.lo, y.hi)
  }

  /** Lines 332-363: with the `view_by_weights` key the window is the
      widened bounding box of the weight history; without it each side is its keyword value or 3.1 in
      magnitude. */
  function SetupWindow(opts: WindowOptions): (w: Window)
    requires opts.viewByWeights ==> |opts.weightHistory| > 0
    ensures opts.viewByWeights ==> w == WeightsWindow(opts.weightHistory)
    ensures opts.viewByWeights ==> forall i :: 0 <= i < |opts.weightHistory| ==>
      var p := opts.weightHistory[i];
      w.xmin <= p.x <= w.xmax && w.ymin <= p.y <= w.ymax
    ensures !opts.viewByWeights ==>
      && (opts.xmin.None? ==> w.xmin == -DefaultExtent) && (opts.xmin.Some? ==> w.xmin == opts.xmin.value)
      && (opts.xmax.None? ==> w.xmax == DefaultExtent) && (opts.xmax.Some? ==> w.xmax == opts.xmax.value)
      && (opts.ymin.None? ==> w.ymin == -DefaultExtent) && (opts.ymin.Some? ==> w.ymin == opts.ymin.value)
      && (opts.ymax.None? ==> w.ymax == DefaultExtent) && (opts.ymax.Some? ==> w.ymax == opts.ymax.value)
  {
    if opts.viewByWeights then WeightsWindow(opts.weightHistory)
    else Window(OrDefault(opts.xmin, -DefaultExtent), OrDefault(opts.xmax, DefaultExtent),
                OrDefault(opts.ymin, -DefaultExtent), OrDefault(opts.ymax, DefaultExtent))
  }
}
