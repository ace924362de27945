/**
 * Integration of chromatogram peaks: the automatic search for integration
 * bounds around a peak, manual integration between two picked x values, and
 * the area under a fitted peak.
 */
module Integration {
  import opened Arrays
  import opened Wrappers
  import Utils
  import Fitting

  /** Height below which the outward walk stops: peak * (1 - width_percent / 100). */
  function Threshold(peakHeight: real, widthPercent: real): real
  {
    peakHeight * (1.0 - widthPercent / 100.0)
  }

  /** Step size below which the walk treats the trace as flat: sensitivity * peak. */
  function FlatTolerance(peakHeight: real, sensitivity: real): real
  {
    sensitivity * peakHeight
  }

  /** Size of the step between samples k and k + 1. */
  function Step(y: seq<real>, k: nat): real
    requires k + 1 < |y|
  {
    Abs(y[k] - y[k + 1])
  }

  /** First loop: walk left from i while the value is above the threshold. */
  function WalkLeftAbove(y: seq<real>, i: nat, threshold: real): (j: nat)
    requires i < |y|
    ensures j <= i
    decreases i
  {
    if i > 0 && y[i] > threshold then WalkLeftAbove(y, i - 1, threshold) else i
  }

  /** The left walk stops at the edge or at a value at or below the threshold, passing only values above it. */
  lemma {:induction false} WalkLeftAboveStops(y: seq<real>, i: nat, threshold: real)
    requires i < |y|
    ensures var j := WalkLeftAbove(y, i, threshold);
            (j == 0 || y[j] <= threshold) && forall k :: j < k <= i ==> y[k] > threshold
    decreases i
  {
    if i > 0 && y[i] > threshold {
      WalkLeftAboveStops(y, i - 1, threshold);
    }
  }

  /** Second loop: keep walking left while the step to the left neighbour is below the tolerance. */
  function WalkLeftFlat(y: seq<real>, i: nat, tolerance: real): (j: nat)
    requires i < |y|
    ensures j <= i
    decreases i
  {
    if i > 0 && Abs(y[i] - y[i - 1]) < tolerance then WalkLeftFlat(y, i - 1, tolerance) else i
  }

  /** The left flat walk stops at the edge or before a step of at least the tolerance, passing only smaller steps. */
  lemma {:induction false} WalkLeftFlatStops(y: seq<real>, i: nat, tolerance: real)
    requires i < |y|
    ensures var j := WalkLeftFlat(y, i, tolerance);
            (j == 0 || Step(y, j - 1) >= tolerance) && forall k :: j <= k < i ==> Step(y, k) < tolerance
    decreases i
  {
    if i > 0 && Abs(y[i] - y[i - 1]) < tolerance {
      WalkLeftFlatStops(y, i - 1, tolerance);
    }
  }

  /** Third loop: walk right from i while the value is above the threshold. */
  function WalkRightAbove(y: seq<real>, i: nat, threshold: real): (j: nat)
    requires i < |y|
    ensures i <= j < |y|
    decreases |y| - i
  {
    if i < |y| - 1 && y[i] > threshold then WalkRightAbove(y, i + 1, threshold) else i
  }

  /** The right walk stops at the edge or at a value at or below the threshold, passing only values above it. */
  lemma {:induction false} WalkRightAboveStops(y: seq<real>, i: nat, threshold: real)
    requires i < |y|
    ensures var j := WalkRightAbove(y, i, threshold);
            (j == |y| - 1 || y[j] <= threshold) && forall k :: i <= k < j ==> y[k] > threshold
    decreases |y| - i
  {
    if i < |y| - 1 && y[i] > threshold {
      WalkRightAboveStops(y, i + 1, threshold);
    }
  }

  /** Fourth loop: keep walking right while the step to the right neighbour is below the tolerance. */
  function WalkRightFlat(y: seq<real>, i: nat, tolerance: real): (j: nat)
    requires i < |y|
    ensures i <= j < |y|
    decreases |y| - i
  {
    if i < |y| - 1 && Abs(y[i] - y[i + 1]) < tolerance then WalkRightFlat(y, i + 1, tolerance) else i
  }

  /** The right flat walk stops at the edge or before a step of at least the tolerance, passing only smaller steps. */
  lemma {:induction false} WalkRightFlatStops(y: seq<real>, i: nat, tolerance: real)
    requires i < |y|
    ensures var j := WalkRightFlat(y, i, tolerance);
            (j == |y| - 1 || Step(y, j) >= tolerance) && forall k :: i <= k < j ==> Step(y, k) < tolerance
    decreases |y| - i
  {
    if i < |y| - 1 && Abs(y[i] - y[i + 1]) < tolerance {
      WalkRightFlatStops(y, i + 1, tolerance);
    }
  }

  /** Bounds reached by the four walks, before padding. */
  function WalkedBounds(y: seq<real>, peak: nat, widthPercent: real, sensitivity: real): (b: (nat, nat))
    requires peak < |y|
    ensures b.0 <= peak <= b.1 < |y|
  {
    var threshold := Threshold(y[peak], widthPercent);
    var tolerance := FlatTolerance(y[peak], sensitivity);
    (WalkLeftFlat(y, WalkLeftAbove(y, peak, threshold), tolerance),
     WalkRightFlat(y, WalkRightAbove(y, peak, threshold), tolerance))
  }

  /** Samples of padding added on each side of the walked bounds. */
  const Padding: nat := 3

  /**
   * The bounds `find_integration_bounds` returns: the walked bounds moved three
   * samples outward and clamped to [0, len - 1].
   */
  function IntegrationBounds(y: seq<real>, peak: nat, widthPercent: real, sensitivity: real): (b: (nat, nat))
    requires peak < |y|
    ensures b.0 <= peak <= b.1 < |y|
    ensures b.0 == MaxInt(0, WalkedBounds(y, peak, widthPercent, sensitivity).0 - Padding)
    ensures b.1 == MinInt(|y| - 1, WalkedBounds(y, peak, widthPercent, sensitivity).1 + Padding)
  {
    var (l, r) := WalkedBounds(y, peak, widthPercent, sensitivity);
    (MaxInt(0, l - Padding), MinInt(|y| - 1, r + Padding))
  }

  /**
   * Before padding, each side either sits at the array edge or at a value at
   * or below the threshold, and everything strictly between it and the peak is
   * above the threshold or part of the flat extension.
   */
  lemma WalkedBoundsStop(y: seq<real>, peak: nat, widthPercent: real, sensitivity: real)
    requires peak < |y|
    ensures var (l, r) := WalkedBounds(y, peak, widthPercent, sensitivity);
            var tolerance := FlatTolerance(y[peak], sensitivity);
            (l == 0 || Step(y, l - 1) >= tolerance) &&
            (r == |y| - 1 || Step(y, r) >= tolerance)
    ensures var threshold := Threshold(y[peak], widthPercent);
            var l0 := WalkLeftAbove(y, peak, threshold);
            var r0 := WalkRightAbove(y, peak, threshold);
            (l0 == 0 || y[l0] <= threshold) && (r0 == |y| - 1 || y[r0] <= threshold) &&
            WalkedBounds(y, peak, widthPercent, sensitivity).0 <= l0 &&
            r0 <= WalkedBounds(y, peak, widthPercent, sensitivity).1
  {
    var threshold := Threshold(y[peak], widthPercent);
    var tolerance := FlatTolerance(y[peak], sensitivity);
    WalkLeftAboveStops(y, peak, threshold);
    WalkRightAboveStops(y, peak, threshold);
    WalkLeftFlatStops(y, WalkLeftAbove(y, peak, threshold), tolerance);
    WalkRightFlatStops(y, WalkRightAbove(y, peak, threshold), tolerance);
  }

  /**
   * `find_integration_bounds`: the four while loops and the clamped padding.
   * A peak index past the trace makes `y_data[peak_idx]` raise IndexError,
   * modelled as None. (`x` is accepted and unused, as in the source.)
   */
  method FindIntegrationBounds(x: seq<real>, y: seq<real>, peak: nat, widthPercent: real, sensitivity: real)
    returns (bounds: Option<(nat, nat)>)
    ensures bounds.None? <==> peak >= |y|
    ensures bounds.Some? ==> peak < |y| && 0 <= bounds.value.0 <= peak <= bounds.value.1 <= |y| - 1
    ensures bounds.Some? ==> bounds.value == IntegrationBounds(y, peak, widthPercent, sensitivity)
  {
    if peak >= |y| {
      return None;
    }
    var peakHeight := y[peak];
    var threshold := Threshold(peakHeight, widthPercent);
    var tolerance := FlatTolerance(peakHeight, sensitivity);

    var left := peak;
    while left > 0 && y[left] > threshold
      invariant left <= peak
      invariant WalkLeftAbove(y, left, threshold) == WalkLeftAbove(y, peak, threshold)
    {
      left := left - 1;
    }
    assert left == WalkLeftAbove(y, peak, threshold);
    ghost var leftAbove := left;
    while left > 0 && Abs(y[left] - y[left - 1]) < tolerance
      invariant left <= leftAbove
      invariant WalkLeftFlat(y, left, tolerance) == WalkLeftFlat(y, leftAbove, tolerance)
    {
      left := left - 1;
    }
    assert left == WalkLeftFlat(y, leftAbove, tolerance);

    var right := peak;
    while right < |y| - 1 && y[right] > threshold
      invariant peak <= right < |y|
      invariant WalkRightAbove(y, right, threshold) == WalkRightAbove(y, peak, threshold)
    {
      right := right + 1;
    }
    assert right == WalkRightAbove(y, peak, threshold);
    ghost var rightAbove := right;
    while right < |y| - 1 && Abs(y[right] - y[right + 1]) < tolerance
      invariant rightAbove <= right < |y|
      invariant WalkRightFlat(y, right, tolerance) == WalkRightFlat(y, rightAbove, tolerance)
    {
      right := right + 1;
    }
    assert right == WalkRightFlat(y, rightAbove, tolerance);
    assert (left, right) == WalkedBounds(y, peak, widthPercent, sensitivity);

    left := if left >= 3 then left - 3 else 0;
    right := if right + 3 <= |y| - 1 then right + 3 else |y| - 1;
    bounds := Some((left, right));
  }

  /** Indices, area and baseline of a manual integration. */
  datatype ManualResult = ManualResult(startIdx: nat, endIdx: nat, area: real)

  /**
   * Straight baseline between y[s] and y[e] sampled at the n points of a region
   * (`np.linspace(y[s], y[e], n)`).
   */
  function Baseline(y: seq<real>, s: nat, e: nat, n: nat): (b: seq<real>)
    requires s < |y| && e < |y|
    ensures |b| == n
  {
    Linspace(y[s], y[e], n)
  }

  /**
   * End-INCLUSIVE area of `manual_integration`: the trapezoid area of
   * y[s..e] minus the straight baseline between its two end samples. Both
   * arrays are sliced with the same bounds, so only e must lie in each.
   */
  function InclusiveArea(x: seq<real>, y: seq<real>, s: nat, e: nat): real
    requires s <= e && e < |x| && e < |y|
  {
    Utils.Trapezoid(Sub(y[s..e + 1], Baseline(y, s, e, e - s + 1)), x[s..e + 1])
  }

  /** The inclusive baseline meets the curve at both end samples. */
  lemma InclusiveBaselineMeetsEnds(y: seq<real>, s: nat, e: nat)
    requires s <= e < |y|
    ensures Baseline(y, s, e, e - s + 1)[0] == y[s]
    ensures Baseline(y, s, e, e - s + 1)[e - s] == y[e]
  {
  }

  /**
   * A region whose samples lie on the straight line between its end samples
   * (in particular a constant region, or a single sample) has area 0.
   */
  lemma InclusiveAreaOfChordIsZero(x: seq<real>, y: seq<real>, s: nat, e: nat)
    requires s <= e && e < |x| && e < |y|
    requires forall k :: s <= k <= e ==> y[k] == Baseline(y, s, e, e - s + 1)[k - s]
    ensures InclusiveArea(x, y, s, e) == 0.0
  {
    var d := Sub(y[s..e + 1], Baseline(y, s, e, e - s + 1));
    forall k | 0 <= k < |d| ensures d[k] == 0.0 {
      assert y[s..e + 1][k] == y[s + k];
    }
    Utils.TrapezoidZero(d, x[s..e + 1]);
  }

  /** A region over which y is constant has area 0. */
  lemma InclusiveAreaOfConstantIsZero(x: seq<real>, y: seq<real>, s: nat, e: nat)
    requires s <= e && e < |x| && e < |y|
    requires forall k :: s <= k <= e ==> y[k] == y[s]
    ensures InclusiveArea(x, y, s, e) == 0.0
  {
    forall k | s <= k <= e ensures y[k] == Baseline(y, s, e, e - s + 1)[k - s] {
      LinspaceConstant(y[s], e - s + 1, k - s);
    }
    InclusiveAreaOfChordIsZero(x, y, s, e);
  }

  /** The signed area is the area under the curve minus the area under the baseline. */
  lemma InclusiveAreaIsDifference(x: seq<real>, y: seq<real>, s: nat, e: nat)
    requires s <= e && e < |x| && e < |y|
    ensures InclusiveArea(x, y, s, e)
         == Utils.Trapezoid(y[s..e + 1], x[s..e + 1]) - Utils.Trapezoid(Baseline(y, s, e, e - s + 1), x[s..e + 1])
  {
    Utils.TrapezoidSub(y[s..e + 1], Baseline(y, s, e, e - s + 1), x[s..e + 1]);
  }

  /**
   * `manual_integration`: each target maps to the first index of the nearest
   * x value, the two are ordered, and the inclusive area is computed.
   * `np.argmin` of an empty array raises ValueError, and `y_data[end_idx]`
   * past a shorter y raises IndexError; both are modelled as None.
   */
  function ManualIntegration(x: seq<real>, y: seq<real>, startX: real, endX: real): (r: Option<ManualResult>)
    ensures r.None? <==> |x| == 0 || NearestIndex(x, startX) >= |y| || NearestIndex(x, endX) >= |y|
    ensures r.Some? ==> r.value.startIdx <= r.value.endIdx && r.value.endIdx < |x| && r.value.endIdx < |y|
    ensures r.Some? ==> r.value.area == InclusiveArea(x, y, r.value.startIdx, r.value.endIdx)
    ensures r.Some? ==>
      var a, b := NearestIndex(x, startX), NearestIndex(x, endX);
      (r.value.startIdx, r.value.endIdx) == (if a <= b then (a, b) else (b, a))
  {
    if |x| == 0 then None
    else
      var startIdx := NearestIndex(x, startX);
      var endIdx := NearestIndex(x, endX);
      var (s, e) := if startIdx > endIdx then (endIdx, startIdx) else (startIdx, endIdx);
      if e >= |y| then None
      else Some(ManualResult(s, e, InclusiveArea(x, y, s, e)))
  }

  /** Picking the two targets in either order gives the same integration. */
  lemma ManualIntegrationSymmetric(x: seq<real>, y: seq<real>, a: real, b: real)
    ensures ManualIntegration(x, y, a, b) == ManualIntegration(x, y, b, a)
  {
  }

  /** When both targets pick the same sample the area is 0. */
  lemma ManualIntegrationSamePoint(x: seq<real>, y: seq<real>, a: real, b: real)
    requires |x| > 0
    requires NearestIndex(x, a) == NearestIndex(x, b)
    ensures ManualIntegration(x, y, a, b).Some? ==> ManualIntegration(x, y, a, b).value.area == 0.0
  {
  }

  /** `integrate_fitted_peak`: the trapezoid area of the fitted curve. */
  function IntegrateFittedPeak(fit: Fitting.FitRecord): real
    requires |fit.yFit| == |fit.xFit|
  {
    Utils.Trapezoid(fit.yFit, fit.xFit)
  }

  /** Integrating a fresh fit reproduces the area the fit recorded. */
  lemma IntegrateFittedPeakMatchesFit(x: seq<real>, y: seq<real>, peak: nat,
                                      curveFit: Fitting.CurveFit, ln: real -> real, exp: real -> real)
    requires Fitting.FitMecozziToPeak(x, y, peak, curveFit, ln, exp).Ok?
    ensures var fit := Fitting.FitMecozziToPeak(x, y, peak, curveFit, ln, exp).value;
            |fit.yFit| == |fit.xFit| && IntegrateFittedPeak(fit) == fit.area
  {
  }
}
