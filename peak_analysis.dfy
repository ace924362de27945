/**
 * Filtering guards, peak detection thresholds, automatic integration of a
 * list of peaks and the end-exclusive integration area of a region.
 *
 * The Savitzky-Golay filter, the Gaussian filter and `find_peaks` are library
 * code: they are parameters here, and only the logic around them is modelled.
 */
module PeakAnalysis {
  import opened Arrays
  import opened Wrappers
  import Utils
  import Integration

  /** A Savitzky-Golay filter (data, odd window, polynomial order); None when it raises. */
  type SavGol = (seq<real>, int, int) -> Option<seq<real>>

  /** A Gaussian filter (data, sigma). */
  type Gauss = (seq<real>, real) -> seq<real>

  /** The arguments `detect_peaks` hands to `find_peaks`. */
  datatype PeakCriteria = PeakCriteria(height: real, distance: int, prominence: real, width: int)

  /** `find_peaks`: the indices of the peaks that meet the criteria. */
  type FindPeaks = (seq<real>, PeakCriteria) -> seq<nat>

  /** An even window is bumped to the next odd value; an odd one is kept. */
  function OddWindow(window: int): (r: int)
    ensures r % 2 == 1
    ensures window <= r <= window + 1
    ensures window % 2 == 1 ==> r == window
  {
    if window % 2 == 0 then window + 1 else window
  }

  /**
   * `apply_savitzky_golay`: the filter runs, with an odd window, only on data
   * longer than that window; shorter data come back unchanged.
   */
  function ApplySavitzkyGolay(data: seq<real>, window: int, polyOrder: int, savgol: SavGol): (r: Option<seq<real>>)
    ensures |data| <= OddWindow(window) ==> r == Some(data)
    ensures |data| > OddWindow(window) ==>
              exists w :: w % 2 == 1 && window <= w <= window + 1 && w < |data| && r == savgol(data, w, polyOrder)
  {
    var w := OddWindow(window);
    if |data| > w then savgol(data, w, polyOrder) else Some(data)
  }

  /** `apply_gaussian_smooth`: the filter runs only for a positive sigma. */
  function ApplyGaussianSmooth(data: seq<real>, sigma: real, gauss: Gauss): (r: seq<real>)
    ensures sigma <= 0.0 ==> r == data
    ensures sigma > 0.0 ==> r == gauss(data, sigma)
  {
    if sigma > 0.0 then gauss(data, sigma) else data
  }

  /** A relative height threshold converted to an absolute one over [lo, hi]. */
  function AbsHeight(heightThreshold: real, lo: real, hi: real): (h: real)
    ensures 0.0 <= heightThreshold <= 1.0 && lo <= hi ==> lo <= h <= hi
    ensures heightThreshold == 0.0 ==> h == lo
    ensures heightThreshold == 1.0 ==> h == hi
  {
    var h := heightThreshold * (hi - lo) + lo;
    assert 0.0 <= heightThreshold <= 1.0 && lo <= hi ==> 0.0 <= heightThreshold * (hi - lo) <= hi - lo by {
      if 0.0 <= heightThreshold <= 1.0 && lo <= hi {
        MulNonNegative(heightThreshold, hi - lo);
        MulNonNegative(1.0 - heightThreshold, hi - lo);
      }
    }
    h
  }

  /** Prominence scaled by the data range, in percent; unscaled for an empty range. */
  function AdaptiveProminence(prominence: real, dataRange: real): (p: real)
    ensures dataRange > 0.0 ==> p * 100.0 == prominence * dataRange
    ensures dataRange <= 0.0 ==> p == prominence
  {
    if dataRange > 0.0 then prominence * (dataRange / 100.0) else prominence
  }

  /** A trace whose values are all equal. */
  predicate Flat(data: seq<real>)
  {
    forall i :: 0 <= i < |data| ==> data[i] == data[0]
  }

  /** A non-empty trace is flat exactly when its maximum equals its minimum. */
  lemma FlatIffNoRange(data: seq<real>)
    requires |data| > 0
    ensures Flat(data) <==> Max(data) == Min(data)
  {
    if Max(data) == Min(data) {
      forall i | 0 <= i < |data| ensures data[i] == data[0] {
        assert Min(data) <= data[i] <= Max(data);
        assert Min(data) <= data[0] <= Max(data);
      }
    }
  }

  /**
   * `detect_peaks`: no peaks for empty or flat data; otherwise `find_peaks`
   * with a height in [min, max] (for a threshold in [0, 1]) and a prominence
   * scaled by the range. The source's defaults are prominence = 10 and
   * width = 3.
   */
  function DetectPeaks(data: seq<real>, heightThreshold: real, distance: int, prominence: real, width: int,
                       findPeaks: FindPeaks): (r: seq<nat>)
    ensures |data| == 0 || Flat(data) ==> r == []
    ensures |data| > 0 && !Flat(data) ==>
              var lo, hi := Min(data), Max(data);
              lo < hi &&
              r == findPeaks(data, PeakCriteria(AbsHeight(heightThreshold, lo, hi), distance,
                                                AdaptiveProminence(prominence, hi - lo), width))
  {
    if |data| == 0 then []
    else
      var dataRange := Max(data) - Min(data);
      FlatIffNoRange(data);
      if dataRange == 0.0 then []
      else
        var absHeight := AbsHeight(heightThreshold, Min(data), Max(data));
        var adaptiveProminence := AdaptiveProminence(prominence, dataRange);
        findPeaks(data, PeakCriteria(absHeight, distance, adaptiveProminence, width))
  }

  /**
   * `auto_integrate_peaks`: one (left, right) pair per peak, in peak order, each
   * computed by the same four walks and padding as `find_integration_bounds`.
   * A peak index past the trace raises IndexError, modelled as None.
   */
  method AutoIntegratePeaks(distances: seq<real>, intensities: seq<real>, peakIndices: seq<nat>,
                            widthPercent: real, sensitivity: real)
    returns (integrations: Option<seq<(nat, nat)>>)
    ensures integrations.None? <==> exists k :: 0 <= k < |peakIndices| && peakIndices[k] >= |intensities|
    ensures integrations.Some? ==> |integrations.value| == |peakIndices|
    ensures integrations.Some? ==> forall k :: 0 <= k < |peakIndices| ==>
              integrations.value[k].0 <= peakIndices[k] <= integrations.value[k].1 < |intensities|
    ensures integrations.Some? ==> forall k :: 0 <= k < |peakIndices| ==>
              integrations.value[k] == Integration.IntegrationBounds(intensities, peakIndices[k], widthPercent, sensitivity)
  {
    var result := [];
    for n := 0 to |peakIndices|
      invariant |result| == n
      invariant forall k :: 0 <= k < n ==> peakIndices[k] < |intensities|
      invariant forall k :: 0 <= k < n ==>
                  result[k] == Integration.IntegrationBounds(intensities, peakIndices[k], widthPercent, sensitivity)
    {
      var pair := IntegratePeak(intensities, peakIndices[n], widthPercent, sensitivity);
      if pair.None? {
        return None;
      }
      result := result + [pair.value];
    }
    integrations := Some(result);
  }

  /**
   * The body of the loop in `auto_integrate_peaks` for one peak; reading the
   * peak's height past the trace raises IndexError, modelled as None.
   */
  method IntegratePeak(intensities: seq<real>, peakIdx: nat, widthPercent: real, sensitivity: real)
    returns (pair: Option<(nat, nat)>)
    ensures pair.None? <==> peakIdx >= |intensities|
    ensures pair.Some? ==> pair.value == Integration.IntegrationBounds(intensities, peakIdx, widthPercent, sensitivity)
  {
    if peakIdx >= |intensities| {
      return None;
    }
    var peakHeight := intensities[peakIdx];
    var threshold := Integration.Threshold(peakHeight, widthPercent);
    var tolerance := Integration.FlatTolerance(peakHeight, sensitivity);

    var leftIdx := peakIdx;
    while leftIdx > 0 && intensities[leftIdx] > threshold
      invariant leftIdx <= peakIdx
      invariant Integration.WalkLeftAbove(intensities, leftIdx, threshold)
             == Integration.WalkLeftAbove(intensities, peakIdx, threshold)
    {
      leftIdx := leftIdx - 1;
    }
    ghost var leftAbove := leftIdx;
    while leftIdx > 0 && Abs(intensities[leftIdx] - intensities[leftIdx - 1]) < tolerance
      invariant leftIdx <= leftAbove
      invariant Integration.WalkLeftFlat(intensities, leftIdx, tolerance)
             == Integration.WalkLeftFlat(intensities, leftAbove, tolerance)
    {
      leftIdx := leftIdx - 1;
    }

    var rightIdx := peakIdx;
    while rightIdx < |intensities| - 1 && intensities[rightIdx] > threshold
      invariant peakIdx <= rightIdx < |intensities|
      invariant Integration.WalkRightAbove(intensities, rightIdx, threshold)
             == Integration.WalkRightAbove(intensities, peakIdx, threshold)
    {
      rightIdx := rightIdx + 1;
    }
    ghost var rightAbove := rightIdx;
    while rightIdx < |intensities| - 1 && Abs(intensities[rightIdx] - intensities[rightIdx + 1]) < tolerance
      invariant rightAbove <= rightIdx < |intensities|
      invariant Integration.WalkRightFlat(intensities, rightIdx, tolerance)
             == Integration.WalkRightFlat(intensities, rightAbove, tolerance)
    {
      rightIdx := rightIdx + 1;
    }
    assert (leftIdx, rightIdx) == Integration.WalkedBounds(intensities, peakIdx, widthPercent, sensitivity);

    leftIdx := if leftIdx >= 3 then leftIdx - 3 else 0;
    rightIdx := if rightIdx + 3 <= |intensities| - 1 then rightIdx + 3 else |intensities| - 1;
    pair := Some((leftIdx, rightIdx));
  }

  /**
   * End-EXCLUSIVE area of `calculate_integration_area`: the region is the slice
   * [start, end), but the baseline runs from y[start] to y[end], one sample past
   * the region. An index outside the intensities raises IndexError, and an x
   * slice cut shorter than the y slice (end past the distances) makes the
   * subtraction raise ValueError; both are modelled as None.
   */
  function CalculateIntegrationArea(distances: seq<real>, intensities: seq<real>, startIdx: nat, endIdx: nat): (r: Option<real>)
    ensures r.None? <==> startIdx >= |intensities| || endIdx >= |intensities|
                         || (startIdx < endIdx && |distances| < endIdx)
    ensures r.Some? ==> r.value == ExclusiveArea(distances, intensities, startIdx, endIdx)
  {
    if startIdx >= |intensities| || endIdx >= |intensities| then None
    else if startIdx < endIdx && |distances| < endIdx then None
    else Some(ExclusiveArea(distances, intensities, startIdx, endIdx))
  }

  /**
   * The area of `calculate_integration_area` once both indices are known to be
   * valid and the two slices have the same length.
   */
  function ExclusiveArea(x: seq<real>, y: seq<real>, s: nat, e: nat): real
    requires s < |y| && e < |y| && (e <= s || e <= |x|)
  {
    var xRange := Slice(x, s, e);
    var yRange := Slice(y, s, e);
    Utils.Trapezoid(Sub(yRange, Linspace(y[s], y[e], |xRange|)), xRange)
  }

  /** A region with start >= end, or of a single sample, has area 0. */
  lemma ExclusiveAreaOfEmptyRegion(x: seq<real>, y: seq<real>, s: nat, e: nat)
    requires s < |y| && e < |y| && (e <= s || e <= |x|)
    requires e <= s + 1
    ensures ExclusiveArea(x, y, s, e) == 0.0
  {
  }

  /**
   * The exclusive baseline starts at y[start] but ends at y[end], which lies
   * outside the integrated slice: the baseline's last point sits under sample
   * end - 1 with the value of sample end.
   */
  lemma ExclusiveBaselineEnds(y: seq<real>, s: nat, e: nat)
    requires s + 2 <= e < |y|
    ensures |Slice(y, s, e)| == e - s
    ensures Linspace(y[s], y[e], e - s)[0] == y[s]
    ensures Linspace(y[s], y[e], e - s)[e - s - 1] == y[e]
  {
  }

  /**
   * On the region as the exclusive convention sees it, the exclusive area is
   * the inclusive area of [start, end - 1] whenever y[end - 1] == y[end]: the
   * two baselines then coincide.
   */
  lemma ExclusiveMatchesInclusiveOnFlatEnd(x: seq<real>, y: seq<real>, s: nat, e: nat)
    requires s < e < |y| && e <= |x|
    requires y[e - 1] == y[e]
    ensures ExclusiveArea(x, y, s, e) == Integration.InclusiveArea(x, y, s, e - 1)
  {
    assert Slice(y, s, e) == y[s..e - 1 + 1];
    assert Slice(x, s, e) == x[s..e - 1 + 1];
  }

  /**
   * The two end conventions give different areas for the same indices: on
   * x = [0, 1, 2], y = [0, 1, 0] between indices 0 and 2 the exclusive area is
   * 0.5 and the inclusive one 1.0.
   */
  lemma ConventionsDiffer()
    ensures ExclusiveArea([0.0, 1.0, 2.0], [0.0, 1.0, 0.0], 0, 2) == 0.5
    ensures Integration.InclusiveArea([0.0, 1.0, 2.0], [0.0, 1.0, 0.0], 0, 2) == 1.0
  {
    var x, y := [0.0, 1.0, 2.0], [0.0, 1.0, 0.0];
    assert Slice(x, 0, 2) == [0.0, 1.0];
    assert Slice(y, 0, 2) == [0.0, 1.0];
    assert Linspace(0.0, 0.0, 2) == [0.0, 0.0];
    assert Linspace(0.0, 0.0, 3) == [0.0, 0.0, 0.0] by {
      LinspaceConstant(0.0, 3, 1);
    }
    assert Sub([0.0, 1.0], [0.0, 0.0]) == [0.0, 1.0];
    assert Sub([0.0, 1.0, 0.0], [0.0, 0.0, 0.0]) == [0.0, 1.0, 0.0];
    assert Utils.Trapezoid([1.0], [1.0]) == 0.0;
    assert Utils.Trapezoid([1.0, 0.0], [1.0, 2.0]) == 0.5 by {
      assert [1.0, 0.0][1..] == [0.0];
      assert [1.0, 2.0][1..] == [2.0];
    }
    assert Utils.Trapezoid([0.0, 1.0], [0.0, 1.0]) == 0.5 by {
      assert [0.0, 1.0][1..] == [1.0];
    }
    assert Utils.Trapezoid([0.0, 1.0, 0.0], [0.0, 1.0, 2.0]) == 1.0 by {
      assert [0.0, 1.0, 0.0][1..] == [1.0, 0.0];
      assert [0.0, 1.0, 2.0][1..] == [1.0, 2.0];
    }
  }
}
