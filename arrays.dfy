/**
 * The numpy vocabulary the analysis code is written in, on sequences of reals:
 * absolute value, `linspace`, sums and means, minimum and maximum, element-wise
 * subtraction and Python's clamping slice.
 */
module Arrays {

  function Abs(r: real): (a: real)
    ensures a >= 0.0 && (a == r || a == -r)
  {
    if r < 0.0 then -r else r
  }

  function MinInt(a: int, b: int): int { if a <= b then a else b }

  function MaxInt(a: int, b: int): int { if a >= b then a else b }

  /**
   * `np.linspace(start, stop, n)`: n evenly spaced values; numpy writes `stop`
   * itself into the last slot.
   */
  function Linspace(start: real, stop: real, n: nat): (r: seq<real>)
    ensures |r| == n
    ensures n >= 1 ==> r[0] == start
    ensures n >= 2 ==> r[n - 1] == stop
  {
    if n == 0 then []
    else if n == 1 then [start]
    else
      seq(n, i requires 0 <= i < n =>
        if i == n - 1 then stop else start + (i as real) * ((stop - start) / ((n - 1) as real)))
  }

  /** Every point of an ascending `linspace` lies between its ends, in order. */
  lemma LinspaceMonotone(start: real, stop: real, n: nat, i: nat, j: nat)
    requires start <= stop && i <= j < n
    ensures start <= Linspace(start, stop, n)[i] <= Linspace(start, stop, n)[j] <= stop
  {
    LinspaceOrder(start, stop, n, 0, i);
    LinspaceOrder(start, stop, n, i, j);
    LinspaceOrder(start, stop, n, j, n - 1);
  }

  /** Later points of an ascending `linspace` are no smaller. */
  lemma {:induction false} LinspaceOrder(start: real, stop: real, n: nat, i: nat, j: nat)
    requires start <= stop && i <= j < n
    ensures Linspace(start, stop, n)[i] <= Linspace(start, stop, n)[j]
    decreases j - i
  {
    if i < j {
      LinspaceStep(start, stop, n, j - 1);
      LinspaceOrder(start, stop, n, i, j - 1);
    }
  }

  /** Consecutive points of an ascending `linspace` do not decrease. */
  lemma LinspaceStep(start: real, stop: real, n: nat, k: nat)
    requires start <= stop && k + 1 < n
    ensures Linspace(start, stop, n)[k] <= Linspace(start, stop, n)[k + 1]
  {
    var m := (n - 1) as real;
    var step := (stop - start) / m;
    assert step >= 0.0;
    if k + 1 == n - 1 {
      assert m * step == stop - start;
      MulMonotone(k as real, m, step);
    } else {
      assert ((k + 1) as real) * step == (k as real) * step + step;
    }
  }

  /** With distinct ends, consecutive `linspace` points are strictly increasing. */
  lemma LinspaceStrictlyIncreasing(start: real, stop: real, n: nat, i: nat)
    requires start < stop && i + 1 < n
    ensures Linspace(start, stop, n)[i] < Linspace(start, stop, n)[i + 1]
  {
    var step := (stop - start) / ((n - 1) as real);
    assert step > 0.0;
    assert ((n - 1) as real) * step == stop - start;
    assert (i as real) * step < ((i + 1) as real) * step;
    if i + 1 < n - 1 {
      assert ((i + 1) as real) * step <= ((n - 1) as real) * step;
    }
  }

  /** With distinct ascending ends, the whole `linspace` is strictly increasing. */
  lemma LinspaceIsStrictlyIncreasing(start: real, stop: real, n: nat)
    requires start < stop
    ensures StrictlyIncreasing(Linspace(start, stop, n))
  {
    var r := Linspace(start, stop, n);
    forall i, j | 0 <= i < j < n
      ensures r[i] < r[j]
    {
      LinspaceStrictlyIncreasing(start, stop, n, i);
      LinspaceOrder(start, stop, n, i + 1, j);
    }
  }

  /** When both ends are the same value c, every point is c. */
  lemma LinspaceConstant(c: real, n: nat, i: nat)
    requires i < n
    ensures Linspace(c, c, n)[i] == c
  {
  }

  /** Multiplying by a non-negative factor keeps the order. */
  lemma MulMonotone(a: real, b: real, c: real)
    requires a <= b && c >= 0.0
    ensures a * c <= b * c
  {
    assert b * c - a * c == (b - a) * c;
    MulNonNegative(b - a, c);
  }

  /** The product of two non-negative reals is non-negative. */
  lemma MulNonNegative(a: real, b: real)
    requires a >= 0.0 && b >= 0.0
    ensures a * b >= 0.0
  {
  }

  /** Sum, accumulated from the front as a loop that appends would. */
  function Sum(s: seq<real>): real
  {
    if s == [] then 0.0 else Sum(s[..|s| - 1]) + s[|s| - 1]
  }

  /** `np.mean` of a non-empty sequence. */
  function Mean(s: seq<real>): real
    requires |s| > 0
  {
    Sum(s) / (|s| as real)
  }

  lemma {:induction false} SumBounds(s: seq<real>, lo: real, hi: real)
    requires forall i :: 0 <= i < |s| ==> lo <= s[i] <= hi
    ensures (|s| as real) * lo <= Sum(s) <= (|s| as real) * hi
  {
    if s != [] {
      SumBounds(s[..|s| - 1], lo, hi);
    }
  }

  /** A mean lies between any lower and upper bound of the averaged values. */
  lemma MeanBounds(s: seq<real>, lo: real, hi: real)
    requires |s| > 0
    requires forall i :: 0 <= i < |s| ==> lo <= s[i] <= hi
    ensures lo <= Mean(s) <= hi
  {
    SumBounds(s, lo, hi);
    var n := |s| as real;
    assert n * lo <= Sum(s) <= n * hi;
    assert Mean(s) * n == Sum(s);
  }

  /** `np.max` of a non-empty sequence. */
  function Max(s: seq<real>): (m: real)
    requires |s| > 0
    ensures m in s
    ensures forall i :: 0 <= i < |s| ==> s[i] <= m
  {
    if |s| == 1 then s[0]
    else
      var rest := Max(s[..|s| - 1]);
      assert forall i :: 0 <= i < |s| - 1 ==> s[..|s| - 1][i] == s[i];
      if s[|s| - 1] > rest then s[|s| - 1] else rest
  }

  /** `np.min` of a non-empty sequence. */
  function Min(s: seq<real>): (m: real)
    requires |s| > 0
    ensures m in s
    ensures forall i :: 0 <= i < |s| ==> m <= s[i]
  {
    if |s| == 1 then s[0]
    else
      var rest := Min(s[..|s| - 1]);
      assert forall i :: 0 <= i < |s| - 1 ==> s[..|s| - 1][i] == s[i];
      if s[|s| - 1] < rest then s[|s| - 1] else rest
  }

  /** Element-wise `a - b`. */
  function Sub(a: seq<real>, b: seq<real>): (r: seq<real>)
    requires |a| == |b|
    ensures |r| == |a|
    ensures forall i :: 0 <= i < |a| ==> r[i] == a[i] - b[i]
  {
    seq(|a|, i requires 0 <= i < |a| => a[i] - b[i])
  }

  /** Element-wise `c * a`. */
  function Scale(c: real, a: seq<real>): (r: seq<real>)
    ensures |r| == |a|
    ensures forall i :: 0 <= i < |a| ==> r[i] == c * a[i]
  {
    seq(|a|, i requires 0 <= i < |a| => c * a[i])
  }

  /** Python's `s[a:b]` for non-negative bounds: clamped to the length, empty when a >= b. */
  function Slice<T>(s: seq<T>, a: nat, b: nat): (r: seq<T>)
    ensures a <= b <= |s| ==> r == s[a..b]
    ensures b <= a ==> r == []
  {
    var lo := if a <= |s| then a else |s|;
    var hi := if b <= |s| then b else |s|;
    if lo < hi then s[lo..hi] else []
  }

  /**
   * `np.argmin(np.abs(x - t))`: the FIRST index whose value is nearest to t.
   */
  function NearestIndex(x: seq<real>, t: real): (i: nat)
    requires |x| > 0
    ensures i < |x|
    ensures forall k :: 0 <= k < |x| ==> Abs(x[i] - t) <= Abs(x[k] - t)
    ensures forall k :: 0 <= k < i ==> Abs(x[k] - t) > Abs(x[i] - t)
  {
    if |x| == 1 then 0
    else
      var j := NearestIndex(x[..|x| - 1], t);
      assert forall k :: 0 <= k < |x| - 1 ==> x[..|x| - 1][k] == x[k];
      if Abs(x[|x| - 1] - t) < Abs(x[j] - t) then |x| - 1 else j
  }

  /** Looking up a value that occurs only once finds exactly its index. */
  lemma NearestIndexOfMember(x: seq<real>, i: nat)
    requires i < |x|
    requires forall k :: 0 <= k < |x| && k != i ==> x[k] != x[i]
    ensures NearestIndex(x, x[i]) == i
  {
    var j := NearestIndex(x, x[i]);
    assert Abs(x[j] - x[i]) <= Abs(x[i] - x[i]) == 0.0;
  }

  /** A strictly increasing sequence never repeats a value. */
  predicate StrictlyIncreasing(x: seq<real>)
  {
    forall i, j :: 0 <= i < j < |x| ==> x[i] < x[j]
  }
}
