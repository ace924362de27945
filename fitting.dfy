/**
 * Mecozzi asymmetric peak model and the bounded fit of it around one peak.
 * The natural logarithm, the exponential and `scipy.optimize.curve_fit` are
 * parameters of the operations that use them.
 */
module Fitting {
  import opened Arrays
  import opened Wrappers
  import Utils

  /** (height, center, hwhm, asym), the order `curve_fit` works in. */
  datatype Params = Params(height: real, center: real, hwhm: real, asym: real)

  /** The dictionary a fit produces; records re-read from a file carry no `peak_idx`. */
  datatype FitRecord = FitRecord(
    peakIdx: Option<int>, params: Params, xFit: seq<real>, yFit: seq<real>, area: real)

  /** `ValueError("Failed to fit Mecozzi function: ...")` */
  datatype FitError = FitError

  /** `curve_fit(mecozzi_a, xs, ys, p0, bounds=(lower, upper))`; None when it raises. */
  type CurveFit = (seq<real>, seq<real>, Params, Params, Params) -> Option<Params>

  /**
   * Quotient a / b; a zero divisor gives inf or NaN in numpy, which the model
   * does not represent and replaces by 0.
   */
  function Quot(a: real, b: real): real
  {
    if b == 0.0 then 0.0 else a / b
  }

  /** The model's normalised offset u = 2a(x - c) / (w(4 - a^2)). */
  function U(x: real, p: Params): real
  {
    Quot(2.0 * p.asym * (x - p.center), p.hwhm * (4.0 - p.asym * p.asym))
  }

  /**
   * `mecozzi_f` at one x: h * exp((4/a^2 - 1) * (ln(1 + u) - u)). The asym
   * values that reach it are numpy floats, so a = 0 divides by zero and
   * yields NaN rather than raising; the model has no NaN and gives 0 here,
   * as `Quot` does for every zero divisor.
   */
  function MecozziF(x: real, p: Params, ln: real -> real, exp: real -> real): real
  {
    if p.asym == 0.0 then 0.0
    else
      var k := 4.0 / (p.asym * p.asym) - 1.0;
      var u := U(x, p);
      p.height * exp(k * (ln(1.0 + u) - u))
  }

  /** The cutoff of `mecozzi_a`: c - w(4 - a^2) / (2a). */
  function Cutoff(p: Params): real
  {
    p.center - Quot(p.hwhm * (4.0 - p.asym * p.asym), 2.0 * p.asym)
  }

  /** `mecozzi_a` at one x: the model where x >= cutoff, 0 below it. */
  function MecozziAt(x: real, p: Params, ln: real -> real, exp: real -> real): real
  {
    if x >= Cutoff(p) then MecozziF(x, p, ln, exp) else 0.0
  }

  /** `mecozzi_a` over an array of x values. */
  function MecozziCurve(xs: seq<real>, p: Params, ln: real -> real, exp: real -> real): (ys: seq<real>)
    ensures |ys| == |xs|
  {
    seq(|xs|, i requires 0 <= i < |xs| => MecozziAt(xs[i], p, ln, exp))
  }

  /**
   * `mecozzi_a`: a zero-filled array of the same length as x, into which the
   * model values are written at every index at or above the cutoff.
   */
  method MecozziA(xs: seq<real>, p: Params, ln: real -> real, exp: real -> real) returns (ys: seq<real>)
    ensures |ys| == |xs|
    ensures forall i :: 0 <= i < |xs| && xs[i] < Cutoff(p) ==> ys[i] == 0.0
    ensures forall i :: 0 <= i < |xs| && xs[i] >= Cutoff(p) ==> ys[i] == MecozziF(xs[i], p, ln, exp)
  {
    var result := new real[|xs|](_ => 0.0);
    var cutoff := Cutoff(p);
    var i := 0;
    while i < |xs|
      invariant 0 <= i <= |xs|
      invariant forall k :: 0 <= k < i && xs[k] >= cutoff ==> result[k] == MecozziF(xs[k], p, ln, exp)
      invariant forall k :: 0 <= k < |xs| && (k >= i || xs[k] < cutoff) ==> result[k] == 0.0
    {
      if xs[i] >= cutoff {
        result[i] := MecozziF(xs[i], p, ln, exp);
      }
      i := i + 1;
    }
    ys := result[..];
  }

  /**
   * At its centre the model equals its height: u = 0 there, so both the
   * logarithmic and the linear term vanish (given ln 1 = 0 and exp 0 = 1).
   */
  lemma MecozziAtCenter(p: Params, ln: real -> real, exp: real -> real)
    requires ln(1.0) == 0.0 && exp(0.0) == 1.0
    requires p.asym != 0.0
    ensures MecozziF(p.center, p, ln, exp) == p.height
  {
    assert U(p.center, p) == 0.0;
    var k := 4.0 / (p.asym * p.asym) - 1.0;
    assert k * (ln(1.0 + 0.0) - 0.0) == 0.0;
  }

  /** For 0 < a < 2 and w > 0 the centre lies above the cutoff, so `mecozzi_a` also reaches the height there. */
  lemma MecozziACenterIsHeight(p: Params, ln: real -> real, exp: real -> real)
    requires ln(1.0) == 0.0 && exp(0.0) == 1.0
    requires 0.0 < p.asym < 2.0 && p.hwhm > 0.0
    ensures Cutoff(p) < p.center
    ensures MecozziAt(p.center, p, ln, exp) == p.height
  {
    var a := p.asym;
    assert 4.0 - a * a > 0.0 by {
      MulPositive(2.0 - a, a);
      assert (2.0 - a) * a == 2.0 * a - a * a;
    }
    MulPositive(p.hwhm, 4.0 - a * a);
    DivPositive(p.hwhm * (4.0 - a * a), 2.0 * a);
    MecozziAtCenter(p, ln, exp);
  }

  lemma MulPositive(a: real, b: real)
    requires a > 0.0 && b > 0.0
    ensures a * b > 0.0
  {
  }

  lemma MulPositiveNegative(a: real, b: real)
    requires a > 0.0 && b < 0.0
    ensures a * b < 0.0
  {
  }

  lemma DivPositive(a: real, b: real)
    requires a > 0.0 && b > 0.0
    ensures a / b > 0.0
  {
  }

  lemma DivLowerBound(t: real, d: real)
    requires d > 0.0 && t >= -d
    ensures t / d >= -1.0
  {
    assert (t / d) * d == t;
  }

  lemma DivNegativeUpperBound(t: real, d: real)
    requires d < 0.0 && t >= -d
    ensures t / d <= -1.0
  {
    assert (t / d) * d == t;
  }

  /**
   * For 0 < a < 2 and w > 0 every x the cutoff keeps has 1 + u >= 0: the
   * guard keeps the logarithm's argument out of the negative range.
   */
  lemma CutoffGuardsLogDomain(x: real, p: Params)
    requires 0.0 < p.asym < 2.0 && p.hwhm > 0.0
    requires x >= Cutoff(p)
    ensures 1.0 + U(x, p) >= 0.0
  {
    var a, w := p.asym, p.hwhm;
    assert 4.0 - a * a > 0.0 by {
      MulPositive(2.0 - a, a);
      assert (2.0 - a) * a == 2.0 * a - a * a;
    }
    var d := w * (4.0 - a * a);
    MulPositive(w, 4.0 - a * a);
    assert Cutoff(p) == p.center - d / (2.0 * a);
    assert x - p.center >= -(d / (2.0 * a));
    assert 2.0 * a * (x - p.center) >= -d by {
      assert 2.0 * a * (d / (2.0 * a)) == d;
    }
    assert U(x, p) == (2.0 * a * (x - p.center)) / d;
    DivLowerBound(2.0 * a * (x - p.center), d);
  }

  /**
   * For a > 2 (allowed by the fit's bounds, up to 10) and w > 0 the cutoff
   * keeps exactly the other side: every kept x has 1 + u <= 0.
   */
  lemma CutoffInvertedAboveTwo(x: real, p: Params)
    requires p.asym > 2.0 && p.hwhm > 0.0
    requires x >= Cutoff(p)
    ensures 1.0 + U(x, p) <= 0.0
  {
    var a, w := p.asym, p.hwhm;
    assert a * a > 4.0 by {
      assert a * a > 2.0 * 2.0;
    }
    var d := w * (4.0 - a * a);
    MulPositiveNegative(w, 4.0 - a * a);
    assert Cutoff(p) == p.center - d / (2.0 * a);
    assert 2.0 * a * (x - p.center) >= -d by {
      assert 2.0 * a * (d / (2.0 * a)) == d;
    }
    assert U(x, p) == (2.0 * a * (x - p.center)) / d;
    DivNegativeUpperBound(2.0 * a * (x - p.center), d);
  }

  /** Points on each side of the peak taken into the fit. */
  const Window: nat := 50

  /**
   * The fit window: start = max(0, peak - 50), end = min(n - 1, peak + 50); the
   * segment is the end-exclusive slice [start, end).
   */
  function FitWindow(n: nat, peak: nat): (w: (nat, nat))
    requires peak < n
    ensures w.0 <= peak <= w.1 <= n - 1
    ensures w.1 - w.0 <= 2 * Window
    ensures w.0 == 0 || w.0 == peak - Window
    ensures w.1 == n - 1 || w.1 == peak + Window
  {
    (MaxInt(0, peak - Window), MinInt(n - 1, peak + Window))
  }

  /** With at least two samples the window is never empty. */
  lemma FitWindowNonEmpty(n: nat, peak: nat)
    requires peak < n && n >= 2
    ensures FitWindow(n, peak).0 < FitWindow(n, peak).1
  {
  }

  /** The starting point (h0, c0, 20, 1.0) handed to `curve_fit`. */
  function InitialGuess(x: seq<real>, y: seq<real>, peak: nat, ySeg: seq<real>): Params
    requires peak < |x| && peak < |y| && |ySeg| > 0
  {
    Params(y[peak] - Min(ySeg), x[peak], 20.0, 1.0)
  }

  /** Lower bounds (0, x_seg[0], 0, 0.1). */
  function LowerBounds(xSeg: seq<real>): Params
    requires |xSeg| > 0
  {
    Params(0.0, xSeg[0], 0.0, 0.1)
  }

  /** Upper bounds (2 h0, x_seg[-1], 100, 10). */
  function UpperBounds(h0: real, xSeg: seq<real>): Params
    requires |xSeg| > 0
  {
    Params(2.0 * h0, xSeg[|xSeg| - 1], 100.0, 10.0)
  }

  /** The end-exclusive slice of s that the fit window selects. */
  function Segment(s: seq<real>, n: nat, peak: nat): (seg: seq<real>)
    requires peak < n == |s|
    ensures |seg| == FitWindow(n, peak).1 - FitWindow(n, peak).0
    ensures forall k :: 0 <= k < |seg| ==> seg[k] == s[FitWindow(n, peak).0 + k]
  {
    s[FitWindow(n, peak).0..FitWindow(n, peak).1]
  }

  /**
   * `y_data[start:end]` for the window computed from the length of x: numpy
   * clamps the slice to y, so a shorter y gives a shorter segment.
   */
  function YSegment(x: seq<real>, y: seq<real>, peak: nat): (seg: seq<real>)
    requires peak < |x|
    ensures |y| == |x| ==> seg == Segment(y, |x|, peak)
    ensures peak < |y| ==> (|seg| > 0 <==> |x| >= 2)
    ensures peak < |y| && peak < |x| - 1 ==>
              peak - FitWindow(|x|, peak).0 < |seg| && seg[peak - FitWindow(|x|, peak).0] == y[peak]
  {
    Slice(y, FitWindow(|x|, peak).0, FitWindow(|x|, peak).1)
  }

  /** What `curve_fit` is called with for this peak (the y segment is non-empty). */
  function FitCall(x: seq<real>, y: seq<real>, peak: nat, curveFit: CurveFit): Option<Params>
    requires peak < |x| && peak < |y| && |x| >= 2
  {
    var xSeg, ySeg := Segment(x, |x|, peak), YSegment(x, y, peak);
    var guess := InitialGuess(x, y, peak, ySeg);
    curveFit(xSeg, ySeg, guess, LowerBounds(xSeg), UpperBounds(guess.height, xSeg))
  }

  /**
   * `fit_mecozzi_to_peak`. A peak index past either array makes the indexing
   * of `y_data` or `x_data` raise IndexError; an empty y segment (a
   * one-sample x) makes `np.min` raise; a raising `curve_fit` is re-raised as
   * ValueError. A success carries the peak index, 500 x values spanning the
   * x segment, the model evaluated there and the trapezoid area under it.
   */
  function FitMecozziToPeak(x: seq<real>, y: seq<real>, peak: nat,
                            curveFit: CurveFit, ln: real -> real, exp: real -> real): (r: Result<FitRecord, FitError>)
    ensures r.Err? <==> peak >= |x| || peak >= |y| || |x| == 1 || FitCall(x, y, peak, curveFit).None?
    ensures r.Ok? ==> peak < |x| && peak < |y| && |x| >= 2
    ensures r.Ok? ==> r.value.peakIdx == Some(peak) && r.value.params == FitCall(x, y, peak, curveFit).value
    ensures r.Ok? ==> |r.value.xFit| == 500 && |r.value.yFit| == 500
    ensures r.Ok? ==> r.value.xFit[0] == x[FitWindow(|x|, peak).0]
    ensures r.Ok? ==> r.value.xFit[499] == x[FitWindow(|x|, peak).1 - 1]
    ensures r.Ok? ==> r.value.yFit == MecozziCurve(r.value.xFit, r.value.params, ln, exp)
    ensures r.Ok? ==> r.value.area == Utils.Trapezoid(r.value.yFit, r.value.xFit)
  {
    if peak >= |y| || peak >= |x| then Err(FitError)
    else
      var ySeg := YSegment(x, y, peak);
      if |ySeg| == 0 then Err(FitError)
      else
        FitWindowNonEmpty(|x|, peak);
        var xSeg := Segment(x, |x|, peak);
        var guess := InitialGuess(x, y, peak, ySeg);
        match curveFit(xSeg, ySeg, guess, LowerBounds(xSeg), UpperBounds(guess.height, xSeg))
        case None => Err(FitError)
        case Some(popt) =>
          var xFit := Linspace(xSeg[0], xSeg[|xSeg| - 1], 500);
          var yFit := MecozziCurve(xFit, popt, ln, exp);
          Ok(FitRecord(Some(peak), popt, xFit, yFit, Utils.Trapezoid(yFit, xFit)))
  }

  /**
   * When the peak is the last sample the end-exclusive segment leaves it out:
   * on an increasing axis the initial centre x[peak] lies above the upper
   * centre bound x_seg[-1], so the starting point is outside the bounds.
   */
  lemma LastPeakOutsideWindow(x: seq<real>, y: seq<real>, peak: nat)
    requires |x| >= 2 && peak == |x| - 1 && peak < |y|
    requires StrictlyIncreasing(x)
    ensures FitWindow(|x|, peak).1 == peak
    ensures InitialGuess(x, y, peak, YSegment(x, y, peak)).center
         > UpperBounds(0.0, Segment(x, |x|, peak)).center
  {
    FitWindowNonEmpty(|x|, peak);
  }

  /**
   * On an increasing axis the initial centre lies within the centre bounds
   * exactly when the peak is not the last sample.
   */
  lemma InitialCenterFeasible(x: seq<real>, peak: nat)
    requires |x| >= 2 && peak < |x|
    requires StrictlyIncreasing(x)
    ensures |Segment(x, |x|, peak)| > 0
    ensures (LowerBounds(Segment(x, |x|, peak)).center <= x[peak] <= UpperBounds(0.0, Segment(x, |x|, peak)).center)
            <==> peak < |x| - 1
  {
    FitWindowNonEmpty(|x|, peak);
    var (s, e) := FitWindow(|x|, peak);
    if peak < |x| - 1 {
      assert e - 1 >= peak;
      assert x[s] <= x[peak] <= x[e - 1];
    }
  }

  /**
   * The initial height y[peak] - min(segment) is never negative while the peak
   * lies inside its segment, i.e. whenever it is not the last sample.
   */
  lemma InitialHeightNonNegative(x: seq<real>, y: seq<real>, peak: nat)
    requires peak < |x| - 1 && peak < |y|
    ensures |YSegment(x, y, peak)| > 0
    ensures InitialGuess(x, y, peak, YSegment(x, y, peak)).height >= 0.0
  {
    var seg := YSegment(x, y, peak);
    assert seg[peak - FitWindow(|x|, peak).0] == y[peak];
  }
}
