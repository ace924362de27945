/**
 * Shared numeric rule and constants of the analyzer: the composite trapezoidal
 * rule behind every area, and the colour palettes used to draw profile lines.
 */
module Utils {
  import opened Arrays
  import opened Wrappers

  /**
   * `calculate_area(y, x)`, i.e. `scipy.integrate.trapezoid(y, x)`:
   * the sum over consecutive pairs of (x[i+1] - x[i]) * (y[i] + y[i+1]) / 2.
   * Arrays of length 0 or 1 have area 0.
   */
  function Trapezoid(y: seq<real>, x: seq<real>): real
    requires |y| == |x|
  {
    if |y| < 2 then 0.0
    else (x[1] - x[0]) * (y[0] + y[1]) / 2.0 + Trapezoid(y[1..], x[1..])
  }

  /** Fewer than two samples enclose no area. */
  lemma TrapezoidShort(y: seq<real>, x: seq<real>)
    requires |y| == |x| && |y| < 2
    ensures Trapezoid(y, x) == 0.0
  {
  }

  /** An all-zero curve has area exactly 0, whatever the sample positions. */
  lemma {:induction false} TrapezoidZero(y: seq<real>, x: seq<real>)
    requires |y| == |x|
    requires forall i :: 0 <= i < |y| ==> y[i] == 0.0
    ensures Trapezoid(y, x) == 0.0
  {
    if |y| >= 2 {
      TrapezoidZero(y[1..], x[1..]);
    }
  }

  /** Negating the curve negates the area, so signed areas can be negative. */
  lemma TrapezoidNegate(y: seq<real>, x: seq<real>)
    requires |y| == |x|
    ensures Trapezoid(Scale(-1.0, y), x) == -Trapezoid(y, x)
  {
    var zero := seq(|y|, i => 0.0);
    TrapezoidZero(zero, x);
    TrapezoidSub(zero, y, x);
    assert Scale(-1.0, y) == Sub(zero, y);
  }

  /** The rule is additive in y: the area above a baseline is area minus baseline area. */
  lemma {:induction false} TrapezoidSub(y: seq<real>, b: seq<real>, x: seq<real>)
    requires |y| == |x| && |b| == |x|
    ensures Trapezoid(Sub(y, b), x) == Trapezoid(y, x) - Trapezoid(b, x)
  {
    if |y| >= 2 {
      TrapezoidSub(y[1..], b[1..], x[1..]);
      assert forall i :: 0 <= i < |y| - 1 ==> Sub(y, b)[1..][i] == Sub(y[1..], b[1..])[i];
      assert Sub(y, b)[1..] == Sub(y[1..], b[1..]);
      var d := x[1] - x[0];
      assert d * ((y[0] - b[0]) + (y[1] - b[1])) / 2.0
          == d * (y[0] + y[1]) / 2.0 - d * (b[0] + b[1]) / 2.0;
    }
  }

  /** A constant curve c has area c times the covered span. */
  lemma {:induction false} TrapezoidConstant(c: real, y: seq<real>, x: seq<real>)
    requires |y| == |x| && |y| >= 1
    requires forall i :: 0 <= i < |y| ==> y[i] == c
    ensures Trapezoid(y, x) == c * (x[|x| - 1] - x[0])
  {
    if |y| >= 2 {
      TrapezoidConstant(c, y[1..], x[1..]);
      assert (x[1] - x[0]) * (c + c) / 2.0 == c * (x[1] - x[0]);
    }
  }

  /** One palette of `COLORS`: the keys of the source's per-style dictionary. */
  datatype Palette = Palette(
    primary: string,
    secondary: seq<string>,
    accent: string,
    fit: string,
    background: string,
    text: string,
    axis: string,
    grid: string,
    highlight: string,
    selection: string,
    annotation: string)

  const LightPalette: Palette := Palette(
    "#4D4D4D",
    ["#8C564B", "#1F77B4", "#2CA02C", "#9467BD", "#E377C2"],
    "#D62728", "#E69F00", "#FFFFFF", "#262626", "#4D4D4D", "#E6E6E6",
    "#56B4E9", "#F0E442", "#F0E442")

  const DarkPalette: Palette := Palette(
    "#E0E0E0",
    ["#FF9E9E", "#9ECAE1", "#A1D99B", "#C5B0D5", "#F7B6D2"],
    "#FF5252", "#FFB74D", "#2B3E50", "#FFFFFF", "#E0E0E0", "#4D5D6C",
    "#29B6F6", "#FFEE58", "#FFEE58")

  /** `COLORS`, keyed by theme style. */
  const Colors: map<string, Palette> := map["light" := LightPalette, "dark" := DarkPalette]

  /**
   * `get_color_for_line(index, style)`: line 0 gets the primary colour, every
   * other index cycles through the secondary list (Python's `%`, which for a
   * positive divisor agrees with Dafny's). The source's default style is
   * 'light'. An unknown style raises `KeyError`, modelled as None.
   */
  function ColorForLine(index: int, style: string): (r: Option<string>)
    ensures r.Some? <==> style in Colors
  {
    if style !in Colors then None
    else
      var p := Colors[style];
      if index == 0 then Some(p.primary)
      else Some(p.secondary[(index - 1) % |p.secondary|])
  }

  /** Both palettes have five secondary colours, none equal to their primary colour. */
  lemma PalettesShape()
    ensures Colors.Keys == {"light", "dark"}
    ensures forall s :: s in Colors ==> |Colors[s].secondary| == 5 && Colors[s].primary !in Colors[s].secondary
  {
  }

  /** Index 0 draws in the primary colour of the style. */
  lemma FirstLineIsPrimary(style: string)
    requires style in Colors
    ensures ColorForLine(0, style) == Some(Colors[style].primary)
  {
  }

  /**
   * Every index other than 0 draws in a secondary colour: the choice repeats
   * with period 5 from index 1 on and never coincides with the primary colour.
   */
  lemma {:induction false} OtherLinesCycleSecondary(index: int, style: string)
    requires style in Colors && index != 0
    ensures ColorForLine(index, style).Some?
    ensures ColorForLine(index, style).value in Colors[style].secondary
    ensures ColorForLine(index, style).value != Colors[style].primary
    ensures index >= 1 ==> ColorForLine(index + 5, style) == ColorForLine(index, style)
  {
    PalettesShape();
    var p := Colors[style];
    assert (index + 5 - 1) % 5 == (index - 1) % 5;
  }
}
