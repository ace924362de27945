/**
 * Extraction of an intensity profile from an image along a user-drawn path:
 * arc length and sample count, then a band of pixels sampled across each
 * segment, averaged, and resampled to one value per path point.
 *
 * `sqrt`, `int(round(.))` and the coordinate interpolation `np.interp` are
 * parameters: their floating-point behaviour is not modelled.
 */
module ImageProcessing {
  import opened Arrays
  import opened Wrappers

  datatype Point = Point(x: real, y: real)

  /** A grey-scale (2-D) or colour (3-D) image, stored row by row as numpy does. */
  datatype Image =
    | Gray(width: nat, gray: seq<seq<real>>)
    | Color(width: nat, color: seq<seq<seq<real>>>)
  {
    /** `image.shape[0]`. */
    function Height(): nat
    {
      if Gray? then |gray| else |color|
    }

    /** Every row has `width` pixels, and every colour pixel has at least one channel. */
    predicate WellFormed()
    {
      match this
      case Gray(w, rows) => forall r :: 0 <= r < |rows| ==> |rows[r]| == w
      case Color(w, rows) =>
        forall r :: 0 <= r < |rows| ==> |rows[r]| == w && forall c :: 0 <= c < w ==> |rows[r][c]| > 0
    }
  }

  type Sqrt = real -> real
  /** `int(round(v))`. */
  type Round = real -> int
  /** `np.interp(t, xp, fp)` for one query point. */
  type Interp = (real, seq<real>, seq<real>) -> real

  /** The pixel at column px of row py (0 <= px < width, 0 <= py < height). */
  predicate InBounds(img: Image, px: int, py: int)
  {
    0 <= px < img.width && 0 <= py < img.Height()
  }

  /** The intensity of a pixel: its value, or the mean of its channels for a colour image. */
  function PixelValue(img: Image, px: int, py: int): real
    requires img.WellFormed() && InBounds(img, px, py)
  {
    match img
    case Gray(_, rows) => rows[py][px]
    case Color(_, rows) => Mean(rows[py][px])
  }

  /** First offset of `range(-band_width // 2, band_width // 2 + 1)`: the minus binds first. */
  function OffsetLo(bandWidth: int): int
  {
    (-bandWidth) / 2
  }

  /** End (exclusive) of the offset range. */
  function OffsetHi(bandWidth: int): int
  {
    bandWidth / 2 + 1
  }

  /**
   * The offset range has band_width + 1 offsets: centred for an even width,
   * and one further on the negative side for an odd width.
   */
  lemma OffsetRange(bandWidth: nat)
    ensures OffsetHi(bandWidth) - OffsetLo(bandWidth) == bandWidth + 1
    ensures bandWidth % 2 == 0 ==> OffsetLo(bandWidth) == -(OffsetHi(bandWidth) - 1)
    ensures bandWidth % 2 == 1 ==>
              OffsetLo(bandWidth) == -(bandWidth + 1) / 2 && OffsetHi(bandWidth) - 1 == (bandWidth - 1) / 2
  {
  }

  /** The pixel sampled at a given offset along the unit normal (nx, ny) from c. */
  function SamplePixel(c: Point, offset: int, nx: real, ny: real, round: Round): (int, int)
  {
    (round(c.x + (offset as real) * nx), round(c.y + (offset as real) * ny))
  }

  /** The values of the in-bounds pixels at offsets lo .. hi - 1, in offset order. */
  function Retained(img: Image, c: Point, nx: real, ny: real, lo: int, hi: int, round: Round): (vs: seq<real>)
    requires img.WellFormed()
    ensures |vs| <= if hi <= lo then 0 else hi - lo
    decreases hi - lo
  {
    if hi <= lo then []
    else
      var (px, py) := SamplePixel(c, hi - 1, nx, ny, round);
      Retained(img, c, nx, ny, lo, hi - 1, round) + (if InBounds(img, px, py) then [PixelValue(img, px, py)] else [])
  }

  /** dx² + dy². */
  function SquaredNorm(dx: real, dy: real): real
  {
    dx * dx + dy * dy
  }

  /** Length of the segment from p1 to p2. */
  function SegmentLength(p1: Point, p2: Point, sqrt: Sqrt): real
  {
    sqrt(SquaredNorm(p2.x - p1.x, p2.y - p1.y))
  }

  /** The retained values across a segment of positive length. */
  function SegmentRetained(img: Image, p1: Point, p2: Point, bandWidth: int, sqrt: Sqrt, round: Round): seq<real>
    requires img.WellFormed() && SegmentLength(p1, p2, sqrt) > 0.0
  {
    var length := SegmentLength(p1, p2, sqrt);
    var nx, ny := -(p2.y - p1.y) / length, (p2.x - p1.x) / length;
    Retained(img, p1, nx, ny, OffsetLo(bandWidth), OffsetHi(bandWidth), round)
  }

  /**
   * The value one segment contributes: nothing for a segment of length 0,
   * otherwise the mean of the retained pixels, or 0 when none was in bounds.
   */
  function SegmentValue(img: Image, p1: Point, p2: Point, bandWidth: int, sqrt: Sqrt, round: Round): (r: Option<real>)
    requires img.WellFormed()
    ensures r.None? <==> SegmentLength(p1, p2, sqrt) <= 0.0
  {
    if SegmentLength(p1, p2, sqrt) > 0.0 then
      var vs := SegmentRetained(img, p1, p2, bandWidth, sqrt, round);
      Some(if |vs| > 0 then Mean(vs) else 0.0)
    else None
  }

  /**
   * A segment of positive length contributes 0 when no pixel was in bounds,
   * and otherwise a value between the smallest and largest retained pixel.
   */
  lemma SegmentValueBetween(img: Image, p1: Point, p2: Point, bandWidth: int, sqrt: Sqrt, round: Round)
    requires img.WellFormed() && SegmentLength(p1, p2, sqrt) > 0.0
    ensures var r := SegmentValue(img, p1, p2, bandWidth, sqrt, round);
            var vs := SegmentRetained(img, p1, p2, bandWidth, sqrt, round);
            r.Some? && (|vs| == 0 ==> r.value == 0.0) && (|vs| > 0 ==> Min(vs) <= r.value <= Max(vs))
  {
    var vs := SegmentRetained(img, p1, p2, bandWidth, sqrt, round);
    if |vs| > 0 {
      MeanBounds(vs, Min(vs), Max(vs));
    }
  }

  /** Number of segments of a path: `len(points) - 1`, and none for an empty path. */
  function SegmentCount(pts: seq<Point>): nat
  {
    if |pts| == 0 then 0 else |pts| - 1
  }

  /** The values of the first n segments, skipping segments of length 0. */
  function RawValues(img: Image, pts: seq<Point>, bandWidth: int, sqrt: Sqrt, round: Round, n: nat): (raw: seq<real>)
    requires img.WellFormed() && n <= SegmentCount(pts)
    ensures |raw| <= n
  {
    if n == 0 then []
    else RawValues(img, pts, bandWidth, sqrt, round, n - 1) + Contributed(SegmentValue(img, pts[n - 1], pts[n], bandWidth, sqrt, round))
  }

  /** Processing one more segment appends its contribution. */
  lemma RawValuesStep(img: Image, pts: seq<Point>, bandWidth: int, sqrt: Sqrt, round: Round, n: nat)
    requires img.WellFormed() && n + 1 <= SegmentCount(pts)
    ensures RawValues(img, pts, bandWidth, sqrt, round, n + 1)
         == RawValues(img, pts, bandWidth, sqrt, round, n) + Contributed(SegmentValue(img, pts[n], pts[n + 1], bandWidth, sqrt, round))
  {
  }

  /** What one segment appends to the raw values: its value, or nothing. */
  function Contributed(value: Option<real>): seq<real>
  {
    match value
    case None => []
    case Some(v) => [v]
  }

  /** No raw value at all exactly when every segment has length 0. */
  lemma {:induction false} RawValuesEmptyIffAllDegenerate(img: Image, pts: seq<Point>, bandWidth: int,
                                                          sqrt: Sqrt, round: Round, n: nat)
    requires img.WellFormed() && n <= SegmentCount(pts)
    ensures |RawValues(img, pts, bandWidth, sqrt, round, n)| == 0
            <==> forall i :: 0 <= i < n ==> SegmentLength(pts[i], pts[i + 1], sqrt) <= 0.0
  {
    if n > 0 {
      RawValuesEmptyIffAllDegenerate(img, pts, bandWidth, sqrt, round, n - 1);
    }
  }

  /**
   * `np.interp(t, arange(len(raw)), raw)`: linear interpolation between the
   * neighbouring samples, clamped to the first and last sample outside [0, len - 1].
   */
  function InterpAtIndex(raw: seq<real>, t: real): (v: real)
    requires |raw| > 0
    ensures Min(raw) <= v <= Max(raw)
  {
    var last := |raw| - 1;
    if t <= 0.0 then raw[0]
    else if t >= last as real then raw[last]
    else
      var k := t.Floor;
      var f := t - k as real;
      assert 0 <= k < last;
      InterpBetweenSamples(raw, k, f);
      Lerp(raw[k], raw[k + 1], f)
  }

  /** Interpolating between two neighbouring samples stays within the range of all samples. */
  lemma InterpBetweenSamples(raw: seq<real>, k: nat, f: real)
    requires k + 1 < |raw| && 0.0 <= f <= 1.0
    ensures Min(raw) <= Lerp(raw[k], raw[k + 1], f) <= Max(raw)
  {
    var lo, hi := Min(raw), Max(raw);
    assert lo <= raw[k] <= hi && lo <= raw[k + 1] <= hi;
    BetweenBounds(raw[k], raw[k + 1], f, lo, hi);
  }

  /** The point a fraction f of the way from a to b. */
  function Lerp(a: real, b: real, f: real): real
  {
    a + f * (b - a)
  }

  /** Scaling by a fraction moves a value toward 0 without passing it. */
  lemma ScaleFraction(f: real, e: real)
    requires 0.0 <= f <= 1.0
    ensures e >= 0.0 ==> 0.0 <= f * e <= e
    ensures e <= 0.0 ==> e <= f * e <= 0.0
  {
    if e >= 0.0 {
      MulNonNegative(f, e);
      MulNonNegative(1.0 - f, e);
    } else {
      MulNonNegative(f, -e);
      MulNonNegative(1.0 - f, -e);
    }
  }

  /** A point between two values inside [lo, hi] stays inside [lo, hi]. */
  lemma BetweenBounds(a: real, b: real, f: real, lo: real, hi: real)
    requires 0.0 <= f <= 1.0 && lo <= a <= hi && lo <= b <= hi
    ensures lo <= Lerp(a, b, f) <= hi
  {
    var e := b - a;
    var p := f * e;
    ScaleFraction(f, e);
    assert Lerp(a, b, f) == a + p;
    if a <= b {
      assert 0.0 <= p <= e;
    } else {
      assert e <= p <= 0.0;
    }
  }

  /** At a whole index the interpolation returns that sample. */
  lemma InterpAtKnot(raw: seq<real>, k: nat)
    requires k < |raw|
    ensures InterpAtIndex(raw, k as real) == raw[k]
  {
  }

  /**
   * Resampling to m values: `np.linspace(0, len(raw) - 1, m)` interpolated
   * into the raw values.
   */
  function Resample(raw: seq<real>, m: nat): (r: seq<real>)
    requires |raw| > 0
    ensures |r| == m
    ensures forall j :: 0 <= j < m ==> Min(raw) <= r[j] <= Max(raw)
  {
    var idx := Linspace(0.0, (|raw| - 1) as real, m);
    seq(m, j requires 0 <= j < m => InterpAtIndex(raw, idx[j]))
  }

  /** The resampled values start at the first raw value and end at the last one. */
  lemma ResampleEnds(raw: seq<real>, m: nat)
    requires |raw| > 0
    ensures m >= 1 ==> Resample(raw, m)[0] == raw[0]
    ensures m >= 2 ==> Resample(raw, m)[m - 1] == raw[|raw| - 1]
  {
  }

  /** `sample_band`: the raw values resampled to one per point, or nothing when no segment counted. */
  function SampleBandSpec(img: Image, pts: seq<Point>, bandWidth: int, sqrt: Sqrt, round: Round): seq<real>
    requires img.WellFormed()
  {
    var raw := RawValues(img, pts, bandWidth, sqrt, round, SegmentCount(pts));
    if |raw| > 0 then Resample(raw, |pts|) else []
  }

  /**
   * One pass of the outer loop of `sample_band`: the band across the segment
   * from p1 to p2, sampled offset by offset and averaged.
   */
  method SampleSegment(img: Image, p1: Point, p2: Point, bandWidth: int, sqrt: Sqrt, round: Round)
    returns (value: Option<real>)
    requires img.WellFormed()
    ensures value == SegmentValue(img, p1, p2, bandWidth, sqrt, round)
  {
    var dx, dy := p2.x - p1.x, p2.y - p1.y;
    var length := sqrt(SquaredNorm(dx, dy));
    if length > 0.0 {
      var nx, ny := -dy / length, dx / length;
      var values: seq<real> := [];
      var lo, hi := OffsetLo(bandWidth), OffsetHi(bandWidth);
      var offset := lo;
      while offset < hi
        invariant lo <= offset && (offset == lo || offset <= hi)
        invariant values == Retained(img, p1, nx, ny, lo, offset, round)
      {
        var (xSample, ySample) := SamplePixel(p1, offset, nx, ny, round);
        if 0 <= xSample < img.width && 0 <= ySample < img.Height() {
          values := values + [PixelValue(img, xSample, ySample)];
        }
        offset := offset + 1;
      }
      assert values == SegmentRetained(img, p1, p2, bandWidth, sqrt, round);
      if |values| > 0 {
        value := Some(Mean(values));
      } else {
        value := Some(0.0);
      }
    } else {
      value := None;
    }
  }

  /**
   * `sample_band`: for each segment of positive length the in-bounds pixels
   * across it are collected and averaged; the series is then resampled.
   */
  method SampleBand(img: Image, pts: seq<Point>, bandWidth: int, sqrt: Sqrt, round: Round)
    returns (intensities: seq<real>)
    requires img.WellFormed()
    ensures intensities == SampleBandSpec(img, pts, bandWidth, sqrt, round)
  {
    var raw: seq<real> := [];
    var i := 0;
    while i + 1 < |pts|
      invariant i <= SegmentCount(pts)
      invariant raw == RawValues(img, pts, bandWidth, sqrt, round, i)
    {
      var value := SampleSegment(img, pts[i], pts[i + 1], bandWidth, sqrt, round);
      if value.Some? {
        raw := raw + [value.value];
      }
      RawValuesStep(img, pts, bandWidth, sqrt, round, i);
      i := i + 1;
    }
    assert i == SegmentCount(pts);
    if |raw| > 0 {
      intensities := Resample(raw, |pts|);
    } else {
      intensities := raw;
    }
  }

  /**
   * The sampled band has one value per point, or none at all exactly when
   * every segment has length 0; its values stay within the raw values' range
   * and its ends are the first and last raw values.
   */
  lemma SampleBandShape(img: Image, pts: seq<Point>, bandWidth: int, sqrt: Sqrt, round: Round)
    requires img.WellFormed()
    ensures var r := SampleBandSpec(img, pts, bandWidth, sqrt, round);
            (|r| == 0 <==> forall i :: 0 <= i < SegmentCount(pts) ==> SegmentLength(pts[i], pts[i + 1], sqrt) <= 0.0) &&
            (|r| == 0 || |r| == |pts|)
    ensures var r := SampleBandSpec(img, pts, bandWidth, sqrt, round);
            var raw := RawValues(img, pts, bandWidth, sqrt, round, SegmentCount(pts));
            |raw| > 0 ==> |pts| >= 2 && r[0] == raw[0] && r[|pts| - 1] == raw[|raw| - 1] &&
                          forall j :: 0 <= j < |r| ==> Min(raw) <= r[j] <= Max(raw)
  {
    var raw := RawValues(img, pts, bandWidth, sqrt, round, SegmentCount(pts));
    RawValuesEmptyIffAllDegenerate(img, pts, bandWidth, sqrt, round, SegmentCount(pts));
    if |raw| > 0 {
      ResampleEnds(raw, |pts|);
    }
  }

  /** Lengths of the path's segments. */
  function SegmentLengths(pts: seq<Point>, sqrt: Sqrt): (r: seq<real>)
    ensures |r| == SegmentCount(pts)
  {
    seq(SegmentCount(pts), i requires 0 <= i < SegmentCount(pts) => SegmentLength(pts[i], pts[i + 1], sqrt))
  }

  /** `np.concatenate(([0], np.cumsum(lengths)))`. */
  function CumulativeDistances(lengths: seq<real>): (c: seq<real>)
    ensures |c| == |lengths| + 1
  {
    seq(|lengths| + 1, i requires 0 <= i <= |lengths| => Sum(lengths[..i]))
  }

  /**
   * The cumulative distance starts at 0, grows by one segment length per
   * point, and ends at the total length.
   */
  lemma CumulativeDistancesSteps(lengths: seq<real>)
    ensures CumulativeDistances(lengths)[0] == 0.0
    ensures forall i :: 0 <= i < |lengths| ==>
              CumulativeDistances(lengths)[i + 1] == CumulativeDistances(lengths)[i] + lengths[i]
    ensures CumulativeDistances(lengths)[|lengths|] == Sum(lengths)
  {
    forall i | 0 <= i < |lengths|
      ensures CumulativeDistances(lengths)[i + 1] == CumulativeDistances(lengths)[i] + lengths[i]
    {
      assert lengths[..i + 1][..i] == lengths[..i];
    }
    assert lengths[..|lengths|] == lengths;
  }

  /** With non-negative segment lengths the cumulative distance never decreases. */
  lemma {:induction false} CumulativeDistancesMonotone(lengths: seq<real>, i: nat, j: nat)
    requires forall k :: 0 <= k < |lengths| ==> lengths[k] >= 0.0
    requires i <= j <= |lengths|
    ensures CumulativeDistances(lengths)[i] <= CumulativeDistances(lengths)[j]
    decreases j - i
  {
    if i < j {
      CumulativeDistancesSteps(lengths);
      CumulativeDistancesMonotone(lengths, i, j - 1);
    }
  }

  /** `int(v)`: truncation toward zero. */
  function Trunc(v: real): (r: int)
    ensures v >= 0.0 ==> r >= 0 && r as real <= v < r as real + 1.0
    ensures v < 0.0 ==> r <= 0 && r as real - 1.0 < v <= r as real
  {
    if v >= 0.0 then v.Floor else -((-v).Floor)
  }

  /** `min(1000, max(500, int(total_dist / 2)))`. */
  function NumSamples(totalDist: real): (n: int)
    ensures 500 <= n <= 1000
    ensures 500 <= Trunc(totalDist / 2.0) <= 1000 ==> n == Trunc(totalDist / 2.0)
  {
    MinInt(1000, MaxInt(500, Trunc(totalDist / 2.0)))
  }

  /** Distances along the path and the intensity sampled at each. */
  datatype Profile = Profile(distances: seq<real>, intensities: seq<real>)

  /** Path points interpolated at the given distances. */
  function InterpolatedPoints(pts: seq<Point>, cumulative: seq<real>, distances: seq<real>, interp: Interp): (r: seq<Point>)
    ensures |r| == |distances|
  {
    var xs := seq(|pts|, i requires 0 <= i < |pts| => pts[i].x);
    var ys := seq(|pts|, i requires 0 <= i < |pts| => pts[i].y);
    seq(|distances|, j requires 0 <= j < |distances| =>
      Point(interp(distances[j], cumulative, xs), interp(distances[j], cumulative, ys)))
  }

  /**
   * `extract_profile`: evenly spaced distances from 0 to the path length and
   * the band sampled at the path points interpolated there. An empty path
   * has no coordinate column and raises, modelled as None.
   */
  function ExtractProfile(img: Image, pts: seq<Point>, bandWidth: int, sqrt: Sqrt, round: Round, interp: Interp)
    : (r: Option<Profile>)
    requires img.WellFormed()
    ensures r.None? <==> |pts| == 0
    ensures r.Some? ==>
              var d := r.value.distances;
              500 <= |d| <= 1000 && d[0] == 0.0 && d[|d| - 1] == Sum(SegmentLengths(pts, sqrt)) &&
              (|r.value.intensities| == 0 || |r.value.intensities| == |d|)
  {
    if |pts| == 0 then None
    else
      var cumulative := CumulativeDistances(SegmentLengths(pts, sqrt));
      var totalDist := cumulative[|cumulative| - 1];
      CumulativeDistancesSteps(SegmentLengths(pts, sqrt));
      var evenDistances := Linspace(0.0, totalDist, NumSamples(totalDist));
      var samplePoints := InterpolatedPoints(pts, cumulative, evenDistances, interp);
      SampleBandShape(img, samplePoints, bandWidth, sqrt, round);
      Some(Profile(evenDistances, SampleBandSpec(img, samplePoints, bandWidth, sqrt, round)))
  }

  /**
   * A path of total length 0 (for instance a single point) gives 500 zero
   * distances and no intensities at all, since every resampled segment is
   * degenerate.
   */
  lemma ZeroLengthPath(img: Image, pts: seq<Point>, bandWidth: int, sqrt: Sqrt, round: Round, interp: Interp)
    requires img.WellFormed() && |pts| > 0
    requires Sum(SegmentLengths(pts, sqrt)) == 0.0
    requires sqrt(0.0) == 0.0
    ensures ExtractProfile(img, pts, bandWidth, sqrt, round, interp).value.distances == Linspace(0.0, 0.0, 500)
    ensures ExtractProfile(img, pts, bandWidth, sqrt, round, interp).value.intensities == []
  {
    var cumulative := CumulativeDistances(SegmentLengths(pts, sqrt));
    CumulativeDistancesSteps(SegmentLengths(pts, sqrt));
    var even := Linspace(0.0, 0.0, 500);
    var samplePoints := InterpolatedPoints(pts, cumulative, even, interp);
    forall i | 0 <= i < SegmentCount(samplePoints)
      ensures SegmentLength(samplePoints[i], samplePoints[i + 1], sqrt) <= 0.0
    {
      LinspaceConstant(0.0, 500, i);
      LinspaceConstant(0.0, 500, i + 1);
      assert samplePoints[i] == samplePoints[i + 1];
    }
    RawValuesEmptyIffAllDegenerate(img, samplePoints, bandWidth, sqrt, round, SegmentCount(samplePoints));
  }

  /**
   * A path of positive length gives strictly increasing distances, so every
   * sample is found again by its distance.
   */
  lemma PositiveLengthPathIncreases(img: Image, pts: seq<Point>, bandWidth: int, sqrt: Sqrt, round: Round, interp: Interp)
    requires img.WellFormed() && |pts| > 0
    requires Sum(SegmentLengths(pts, sqrt)) > 0.0
    ensures StrictlyIncreasing(ExtractProfile(img, pts, bandWidth, sqrt, round, interp).value.distances)
  {
    CumulativeDistancesSteps(SegmentLengths(pts, sqrt));
    var total := Sum(SegmentLengths(pts, sqrt));
    LinspaceIsStrictlyIncreasing(0.0, total, NumSamples(total));
  }
}
