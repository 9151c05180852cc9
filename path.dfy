/** The path overlay of `Visualizer.draw_weight_path`: a marker per iterate
    and a connector from each iterate to the next when they are far enough
    apart and arrows are enabled. */
module WeightPath {
  import opened Numeric
  import opened Points
  import opened PathColors

  /** `head_length`: connectors are drawn only between iterates farther apart than this. */
  const HeadLength: real := 0.1

  datatype Marker = Marker(at: Point, color: Rgb)

  datatype Connector = Connector(from: Point, to: Point, color: Rgb)

  /** Line 456 and line 466: iterate `j` is joined to iterate `j - 1` when
      `j > 0`, `arrows` holds and their distance exceeds the head length,
      tested on squared distances. */
  predicate Joined(hist: seq<Point>, arrows: bool, j: int)
    requires 0 <= j < |hist|
  {
    j > 0 && arrows && DistSq(hist[j - 1], hist[j]) > HeadLength * HeadLength
  }

  /** The iterates among the first `n` that get a connector, in order. */
  function JoinedIndices(hist: seq<Point>, arrows: bool, n: nat): (r: seq<int>)
    requires n <= |hist|
    ensures IncreasingInts(r)
    ensures forall k :: 0 <= k < |r| ==> 0 < r[k] < n
    ensures forall j :: j in r <==> 0 <= j < n && Joined(hist, arrows, j)
  {
    if n == 0 then []
    else
      var r := JoinedIndices(hist, arrows, n - 1);
      if Joined(hist, arrows, n - 1) then r + [n - 1] else r
  }

  /** With arrows switched off no connector is drawn. */
  lemma NoArrowsNoConnectors(hist: seq<Point>)
    ensures JoinedIndices(hist, false, |hist|) == []
  {
    if JoinedIndices(hist, false, |hist|) != [] {
      assert JoinedIndices(hist, false, |hist|)[0] in JoinedIndices(hist, false, |hist|);
    }
  }

  /** The connector drawn for iterate `j` (lines 457-476): from iterate
      `j - 1` to iterate `j`, in the colour of iterate `j`. */
  function ConnectorAt(hist: seq<Point>, colors: seq<Rgb>, j: int): Connector
    requires |colors| == |hist| && 0 < j < |hist|
  {
    Connector(hist[j - 1], hist[j], colors[j])
  }

  /** The connectors drawn for the iterates `idx`, in that order. */
  function ConnectorsAt(hist: seq<Point>, colors: seq<Rgb>, idx: seq<int>): (cs: seq<Connector>)
    requires |colors| == |hist|
    requires forall k :: 0 <= k < |idx| ==> 0 < idx[k] < |hist|
    ensures |cs| == |idx|
    ensures forall k :: 0 <= k < |idx| ==> cs[k] == ConnectorAt(hist, colors, idx[k])
  {
    if idx == [] then []
    else ConnectorsAt(hist, colors, idx[..|idx| - 1]) + [ConnectorAt(hist, colors, idx[|idx| - 1])]
  }

  /** The markers of lines 449-453: one per iterate, in its spectrum colour. */
  function MarkersOf(hist: seq<Point>, colors: seq<Rgb>): (ms: seq<Marker>)
    requires |colors| == |hist|
    ensures |ms| == |hist|
    ensures forall j :: 0 <= j < |hist| ==> ms[j].at == hist[j] && ms[j].color == colors[j]
  {
    seq(|hist|, j requires 0 <= j < |hist| => Marker(hist[j], colors[j]))
  }

  /** Examining iterate `j` extends the connectors by its own one exactly when it is joined. */
  lemma ConnectorStep(hist: seq<Point>, colors: seq<Rgb>, arrows: bool, j: nat)
    requires |colors| == |hist| && j < |hist|
    ensures Joined(hist, arrows, j) ==>
      ConnectorsAt(hist, colors, JoinedIndices(hist, arrows, j + 1))
      == ConnectorsAt(hist, colors, JoinedIndices(hist, arrows, j)) + [ConnectorAt(hist, colors, j)]
    ensures !Joined(hist, arrows, j) ==>
      ConnectorsAt(hist, colors, JoinedIndices(hist, arrows, j + 1))
      == ConnectorsAt(hist, colors, JoinedIndices(hist, arrows, j))
  {
    var idx := JoinedIndices(hist, arrows, j);
    if Joined(hist, arrows, j) {
      assert JoinedIndices(hist, arrows, j + 1) == idx + [j];
      assert (idx + [j])[..|idx|] == idx;
    }
  }

  /** Examining iterate `j` extends the markers by its own one. */
  lemma MarkersStep(hist: seq<Point>, colors: seq<Rgb>, j: nat)
    requires |colors| == |hist| && j < |hist|
    ensures MarkersOf(hist, colors)[..j + 1] == MarkersOf(hist, colors)[..j] + [Marker(hist[j], colors[j])]
  {
    var ms := MarkersOf(hist, colors);
    assert ms[..j + 1] == ms[..j] + [ms[j]];
  }

  /** The loop of lines 449-476 with the colours `colors` already made:
      the markers, and the connectors of exactly the joined iterates, in
      path order. */
  method DrawPath(hist: seq<Point>, colors: seq<Rgb>, arrows: bool)
    returns (markers: seq<Marker>, connectors: seq<Connector>)
    requires |colors| == |hist|
    ensures markers == MarkersOf(hist, colors)
    ensures connectors == ConnectorsAt(hist, colors, JoinedIndices(hist, arrows, |hist|))
  {
    markers, connectors := [], [];
    var j := 0;
    while j < |hist|
      invariant 0 <= j <= |hist|
      invariant markers == MarkersOf(hist, colors)[..j]
      invariant connectors == ConnectorsAt(hist, colors, JoinedIndices(hist, arrows, j))
    {
      MarkersStep(hist, colors, j);
      markers := markers + [Marker(hist[j], colors[j])];
      ConnectorStep(hist, colors, arrows, j);
      if j > 0 {
        var pt1, pt2 := hist[j - 1], hist[j];
        if DistSq(pt1, pt2) > HeadLength * HeadLength && arrows {
          connectors := connectors + [Connector(pt1, pt2, colors[j])];
        }
      }
      j := j + 1;
    }
    assert MarkersOf(hist, colors)[..|hist|] == MarkersOf(hist, colors);
  }

  /** `draw_weight_path` (lines 440-476): the spectrum of lines 427-437, then
      the drawing loop. */
  method DrawWeightPath(hist: seq<Point>, arrows: bool)
    returns (markers: seq<Marker>, connectors: seq<Connector>)
    ensures markers == MarkersOf(hist, ColorSpec(hist))
    ensures connectors == ConnectorsAt(hist, ColorSpec(hist), JoinedIndices(hist, arrows, |hist|))
  {
    var colorspec := ColorSpec(hist);
    markers, connectors := DrawPath(hist, colorspec, arrows);
  }
}
