/** The colour spectrum of `Visualizer.make_colorspec`: one RGB triple per
    weight-history entry, from green at the start to red at the end. */
module PathColors {
  import opened Numeric

  datatype Rgb = Rgb(red: real, green: real, blue: real)

  /** Python 3's `round(n / 2)`, which rounds a tie to the even neighbour. */
  function HalfRounded(n: nat): (h: nat)
    ensures h <= n
    ensures 2 * h == n || 2 * h == n - 1 || 2 * h == n + 1
    ensures n % 2 == 1 ==> h % 2 == 0
  {
    if n % 2 == 0 || (n / 2) % 2 == 0 then n / 2 else n / 2 + 1
  }

  /** The red column `s` of lines 429-433: a `linspace(0, 1, ·)` ramp over the
      first `round(n / 2)` rows, then ones. */
  function RedColumn(n: nat): (s: seq<real>)
    ensures |s| == n
  {
    var h := HalfRounded(n);
    Linspace(0.0, 1.0, h) + seq(n - h, _ => 1.0)
  }

  /** Lines 435-436: red is the column, green the column upside down
      (`np.flipud`), blue zero. */
  function ColorSpec<T>(wHist: seq<T>): (c: seq<Rgb>)
    ensures |c| == |wHist|
  {
    var n := |wHist|;
    var s := RedColumn(n);
    seq(n, i requires 0 <= i < n => Rgb(s[i], s[n - 1 - i], 0.0))
  }

  /** The red column lies in `[0, 1]`; its first `round(n / 2)` rows are
      `linspace(0, 1, round(n / 2))`, a ramp from 0 that reaches 1 when it
      has two or more rows; it is 1 from row `round(n / 2)` on, and it never
      decreases. */
  lemma RedColumnRamp(n: nat)
    ensures forall i :: 0 <= i < n ==> 0.0 <= RedColumn(n)[i] <= 1.0
    ensures forall i :: 0 <= i < HalfRounded(n) ==> RedColumn(n)[i] == Linspace(0.0, 1.0, HalfRounded(n))[i]
    ensures forall i :: HalfRounded(n) <= i < n ==> RedColumn(n)[i] == 1.0
    ensures HalfRounded(n) >= 1 ==> RedColumn(n)[0] == 0.0
    ensures HalfRounded(n) >= 2 ==> RedColumn(n)[HalfRounded(n) - 1] == 1.0
    ensures forall i, j :: 0 <= i <= j < n ==> RedColumn(n)[i] <= RedColumn(n)[j]
  {
    var h, s := HalfRounded(n), RedColumn(n);
    var ramp := Linspace(0.0, 1.0, h);
    assert forall i :: 0 <= i < h ==> s[i] == ramp[i];
    assert forall i :: h <= i < n ==> s[i] == 1.0;
    forall i, j | 0 <= i <= j < n ensures s[i] <= s[j] {
      if j < h {
        LinspaceNondecreasing(0.0, 1.0, h, i, j);
      }
    }
  }

  /** The spectrum has one row per entry, blue is always 0, red follows the
      ramp, and green is the red column read from the bottom up. */
  lemma ColorSpecShape<T>(wHist: seq<T>)
    ensures |ColorSpec(wHist)| == |wHist|
    ensures forall i :: 0 <= i < |wHist| ==>
      && ColorSpec(wHist)[i].blue == 0.0
      && ColorSpec(wHist)[i].red == RedColumn(|wHist|)[i]
      && ColorSpec(wHist)[i].green == ColorSpec(wHist)[|wHist| - 1 - i].red
  {
  }

  /** For a history of two or more entries the path starts pure green and
      ends pure red; a single entry is coloured `(1, 1, 0)`. */
  lemma ColorSpecEnds<T>(wHist: seq<T>)
    ensures |wHist| >= 2 ==> ColorSpec(wHist)[0] == Rgb(0.0, 1.0, 0.0)
    ensures |wHist| >= 2 ==> ColorSpec(wHist)[|wHist| - 1] == Rgb(1.0, 0.0, 0.0)
    ensures |wHist| == 1 ==> ColorSpec(wHist)[0] == Rgb(1.0, 1.0, 0.0)
  {
    var n := |wHist|;
    RedColumnRamp(n);
  }

  /** Red never decreases and green never increases along the path. */
  lemma ColorSpecMonotone<T>(wHist: seq<T>, i: int, j: int)
    requires 0 <= i <= j < |wHist|
    ensures ColorSpec(wHist)[i].red <= ColorSpec(wHist)[j].red
    ensures ColorSpec(wHist)[i].green >= ColorSpec(wHist)[j].green
  {
    RedColumnRamp(|wHist|);
    var n := |wHist|;
    assert RedColumn(n)[n - 1 - j] <= RedColumn(n)[n - 1 - i];
  }
}
