/**
 * The columns `save_data` writes for the line of a chromatogram tab and the
 * way `open_data` reads them back. Column headers are a datatype: the text of
 * a header (`Peak_3_Height`, `Integration_2_Start`, ...) and the CSV encoding
 * of the numbers are not modelled.
 */
module ChromatogramColumns {
  import opened Arrays
  import opened Wrappers
  import Utils
  import Fitting
  import PeakAnalysis

  /** One entry of `results_data`: the profile and its filtered version. */
  datatype LineData = LineData(distances: seq<real>, rawIntensities: seq<real>, filtered: seq<real>, color: string)

  /** The column headers the tab writes; `n` is the 1-based number of a peak, integration or fit. */
  datatype ColumnName =
    | Distance | RawIntensity | FilteredIntensity | PeaksMarker
    | PeakPosition(n: nat) | PeakHeight(n: nat)
    | IntegrationMask(n: nat) | IntegrationStart(n: nat) | IntegrationEnd(n: nat) | IntegrationArea(n: nat)
    | FitCurve(n: nat) | FitHeight(n: nat) | FitCenter(n: nat) | FitHwhm(n: nat) | FitAsymmetry(n: nat) | FitArea(n: nat)

  datatype Column = Column(name: ColumnName, values: seq<real>)

  /** A data frame: its columns in order. */
  type Table = seq<Column>

  predicate IsPeakName(n: ColumnName)
  {
    n.PeaksMarker? || n.PeakPosition? || n.PeakHeight?
  }

  predicate IsIntegrationName(n: ColumnName)
  {
    n.IntegrationMask? || n.IntegrationStart? || n.IntegrationEnd? || n.IntegrationArea?
  }

  predicate IsFitName(n: ColumnName)
  {
    n.FitCurve? || n.FitHeight? || n.FitCenter? || n.FitHwhm? || n.FitAsymmetry? || n.FitArea?
  }

  /** `df[name]`: the first column with that header. */
  function Lookup(table: Table, name: ColumnName): Option<seq<real>>
  {
    if table == [] then None
    else if table[0].name == name then Some(table[0].values)
    else Lookup(table[1..], name)
  }

  /** A header that no column carries is not found, and one that some column carries is. */
  lemma {:induction false} LookupAbsent(table: Table, name: ColumnName)
    ensures Lookup(table, name).None? <==> forall i :: 0 <= i < |table| ==> table[i].name != name
  {
    if table != [] {
      LookupAbsent(table[1..], name);
      assert forall i :: 1 <= i < |table| ==> table[1..][i - 1] == table[i];
    }
  }

  /** A column found in a table whose columns all have n rows has n rows. */
  lemma {:induction false} LookupRows(table: Table, name: ColumnName, n: nat)
    requires AllRows(table, n)
    ensures Lookup(table, name).Some? ==> |Lookup(table, name).value| == n
  {
    if table != [] && table[0].name != name {
      LookupRows(table[1..], name, n);
    }
  }

  /** The first column carrying a header is the one found. */
  lemma {:induction false} LookupAt(table: Table, i: nat, name: ColumnName)
    requires i < |table| && table[i].name == name
    requires forall j :: 0 <= j < i ==> table[j].name != name
    ensures Lookup(table, name) == Some(table[i].values)
  {
    if i > 0 {
      assert forall j :: 0 <= j < i - 1 ==> table[1..][j] == table[j + 1];
      LookupAt(table[1..], i - 1, name);
    }
  }

  /** Looking up in a concatenation looks in the first part, then in the second. */
  lemma {:induction false} LookupAppend(a: Table, b: Table, name: ColumnName)
    ensures Lookup(a + b, name) == if Lookup(a, name).Some? then Lookup(a, name) else Lookup(b, name)
  {
    if a == [] {
      assert a + b == b;
    } else {
      assert (a + b)[1..] == a[1..] + b;
      LookupAppend(a[1..], b, name);
    }
  }

  /** A header absent from the front of a table is found in the block that follows it. */
  lemma LookupInLast(front: Table, block: Table, i: nat, name: ColumnName)
    requires i < |block| && block[i].name == name
    requires forall j :: 0 <= j < i ==> block[j].name != name
    requires forall j :: 0 <= j < |front| ==> front[j].name != name
    ensures Lookup(front + block, name) == Some(block[i].values)
  {
    LookupAppend(front, block, name);
    LookupAbsent(front, name);
    LookupAt(block, i, name);
  }

  /** No column of t is an integration column. */
  predicate NoIntegrationNames(t: Table)
  {
    forall i :: 0 <= i < |t| ==> !IsIntegrationName(t[i].name)
  }

  /** In a saved table's layout, an integration header is found in the integration part. */
  lemma LookupInIntegrationPart(b: Table, pp: Table, ic: Table, fc: Table, name: ColumnName)
    requires NoIntegrationNames(b) && NoIntegrationNames(pp) && IsIntegrationName(name)
    requires Lookup(ic, name).Some?
    ensures Lookup(b + (pp + (ic + fc)), name) == Lookup(ic, name)
  {
    LookupAbsent(b, name);
    LookupAbsent(pp, name);
    LookupAppend(ic, fc, name);
    LookupAppend(pp, ic + fc, name);
    LookupAppend(b, pp + (ic + fc), name);
  }

  lemma SplitLast<T>(s: seq<T>)
    requires s != []
    ensures s == s[..|s| - 1] + [s[|s| - 1]]
  {
  }

  /** A scalar stored as a column: pandas repeats it on every row. */
  function Const(v: real, n: nat): (r: seq<real>)
    ensures |r| == n && forall i :: 0 <= i < n ==> r[i] == v
  {
    seq(n, _ => v)
  }

  /** The `Peaks` column: the filtered value at each peak index, 0 elsewhere. */
  function Marker(peaks: seq<nat>, f: seq<real>): (m: seq<real>)
    ensures |m| == |f|
    ensures forall i :: 0 <= i < |f| ==> m[i] == if i in peaks then f[i] else 0.0
  {
    seq(|f|, i requires 0 <= i < |f| => if i in peaks then f[i] else 0.0)
  }

  /** The `Integration_<k>` column: 1 on the end-exclusive range [s, e), 0 elsewhere. */
  function Mask(s: nat, e: nat, n: nat): (m: seq<real>)
    ensures |m| == n
    ensures forall i :: 0 <= i < n ==> m[i] == if s <= i < e then 1.0 else 0.0
  {
    seq(n, i requires 0 <= i < n => if s <= i < e then 1.0 else 0.0)
  }

  /** Every column of t has n rows. */
  predicate AllRows(t: Table, n: nat)
  {
    forall i :: 0 <= i < |t| ==> |t[i].values| == n
  }

  lemma AllRowsAppend(a: Table, b: Table, n: nat)
    requires AllRows(a, n) && AllRows(b, n)
    ensures AllRows(a + b, n)
  {
  }

  /** Position and height of each peak, two columns per peak. */
  function PeakColumns(peaks: seq<nat>, d: seq<real>, f: seq<real>): (cols: Table)
    requires |d| == |f| && forall k :: 0 <= k < |peaks| ==> peaks[k] < |f|
    ensures |cols| == 2 * |peaks| && AllRows(cols, |d|)
    ensures forall i :: 0 <= i < |cols| ==> cols[i].name.PeakPosition? || cols[i].name.PeakHeight?
  {
    if peaks == [] then []
    else
      var m := |peaks|;
      var p := peaks[m - 1];
      PeakColumns(peaks[..m - 1], d, f) + [Column(PeakPosition(m), Const(d[p], |d|)), Column(PeakHeight(m), Const(f[p], |d|))]
  }

  /** The `Peaks` marker column and the per-peak columns, present when the line has a peak entry. */
  function PeakPart(peaks: Option<seq<nat>>, d: seq<real>, f: seq<real>): (cols: Table)
    requires |d| == |f| && (peaks.Some? ==> forall k :: 0 <= k < |peaks.value| ==> peaks.value[k] < |f|)
    ensures AllRows(cols, |d|) && forall i :: 0 <= i < |cols| ==> IsPeakName(cols[i].name)
  {
    match peaks
    case None => []
    case Some(p) => [Column(PeaksMarker, Marker(p, f))] + PeakColumns(p, d, f)
  }

  /** Start and end indices that address an array of length n. */
  predicate IndicesBelow(ints: seq<(nat, nat)>, n: nat)
  {
    forall j :: 0 <= j < |ints| ==> ints[j].0 < n && ints[j].1 < n
  }

  /** The end-exclusive area of each integration, as `save_data` computes it. */
  function IntegrationAreas(ints: seq<(nat, nat)>, d: seq<real>, f: seq<real>): (areas: seq<real>)
    requires |d| == |f| && IndicesBelow(ints, |d|)
    ensures |areas| == |ints|
  {
    seq(|ints|, k requires 0 <= k < |ints| => PeakAnalysis.ExclusiveArea(d, f, ints[k].0, ints[k].1))
  }

  /** The four columns of integration number k over [s, e) with the given area. */
  function IntegrationBlock(k: nat, s: nat, e: nat, d: seq<real>, area: real): (cols: Table)
    requires s < |d| && e < |d|
    ensures |cols| == 4 && AllRows(cols, |d|)
  {
    var n := |d|;
    [Column(IntegrationMask(k), Mask(s, e, n)), Column(IntegrationStart(k), Const(d[s], n)),
     Column(IntegrationEnd(k), Const(d[e], n)), Column(IntegrationArea(k), Const(area, n))]
  }

  /** Mask, start, end and area of each integration, four columns per integration. */
  function IntegrationColumns(ints: seq<(nat, nat)>, areas: seq<real>, d: seq<real>): (cols: Table)
    requires |areas| == |ints| && IndicesBelow(ints, |d|)
    ensures |cols| == 4 * |ints| && AllRows(cols, |d|)
    ensures forall i :: 0 <= i < |cols| ==> IsIntegrationName(cols[i].name) && 1 <= cols[i].name.n <= |ints|
  {
    if ints == [] then []
    else
      var m := |ints|;
      IntegrationColumns(ints[..m - 1], areas[..m - 1], d) + IntegrationBlock(m, ints[m - 1].0, ints[m - 1].1, d, areas[m - 1])
  }

  /** The six columns of fit number k: its curve over the distances, its parameters and its area. */
  function FitBlock(k: nat, r: Fitting.FitRecord, curve: seq<real>): (cols: Table)
    ensures |cols| == 6 && AllRows(cols, |curve|)
  {
    var n := |curve|;
    [Column(FitCurve(k), curve),
     Column(FitHeight(k), Const(r.params.height, n)), Column(FitCenter(k), Const(r.params.center, n)),
     Column(FitHwhm(k), Const(r.params.hwhm, n)), Column(FitAsymmetry(k), Const(r.params.asym, n)),
     Column(FitArea(k), Const(r.area, n))]
  }

  /** The columns of every fit, the curve resampled on the distances. */
  function FitColumns(fits: seq<Fitting.FitRecord>, d: seq<real>, ln: real -> real, exp: real -> real): (cols: Table)
    ensures |cols| == 6 * |fits| && AllRows(cols, |d|)
    ensures forall i :: 0 <= i < |cols| ==> IsFitName(cols[i].name) && 1 <= cols[i].name.n <= |fits|
  {
    if fits == [] then []
    else
      var m := |fits|;
      FitColumns(fits[..m - 1], d, ln, exp) + FitBlock(m, fits[m - 1], Fitting.MecozziCurve(d, fits[m - 1].params, ln, exp))
  }

  /** The profile columns every saved table starts with. */
  function BaseColumns(line: LineData): (cols: Table)
    requires SameLength(line)
    ensures |cols| == 3 && AllRows(cols, |line.distances|)
  {
    [Column(Distance, line.distances), Column(RawIntensity, line.rawIntensities), Column(FilteredIntensity, line.filtered)]
  }

  /** Arrays of one line that pandas can put in one frame. */
  predicate SameLength(line: LineData)
  {
    |line.rawIntensities| == |line.distances| && |line.filtered| == |line.distances|
  }

  /** Indices stored with a line that address its arrays. */
  predicate IndicesFit(line: LineData, peaks: Option<seq<nat>>, ints: seq<(nat, nat)>)
  {
    (peaks.Some? ==> forall k :: 0 <= k < |peaks.value| ==> peaks.value[k] < |line.filtered|) &&
    IndicesBelow(ints, |line.distances|)
  }

  /** The integration columns followed by the fit columns. */
  function SavedTail(line: LineData, ints: seq<(nat, nat)>, fits: seq<Fitting.FitRecord>,
                     ln: real -> real, exp: real -> real): (t: Table)
    requires SameLength(line) && IndicesBelow(ints, |line.distances|)
    ensures AllRows(t, |line.distances|)
    ensures forall i :: 0 <= i < |t| ==> IsIntegrationName(t[i].name) || IsFitName(t[i].name)
  {
    var d := line.distances;
    var ic, fc := IntegrationColumns(ints, IntegrationAreas(ints, d, line.filtered), d), FitColumns(fits, d, ln, exp);
    AllRowsAppend(ic, fc, |d|);
    ic + fc
  }

  /** Everything saved after the profile columns. */
  function SavedRest(line: LineData, peaks: Option<seq<nat>>, ints: seq<(nat, nat)>, fits: seq<Fitting.FitRecord>,
                     ln: real -> real, exp: real -> real): (t: Table)
    requires SameLength(line) && IndicesFit(line, peaks, ints)
    ensures AllRows(t, |line.distances|)
  {
    var pp, tail := PeakPart(peaks, line.distances, line.filtered), SavedTail(line, ints, fits, ln, exp);
    AllRowsAppend(pp, tail, |line.distances|);
    pp + tail
  }

  /** The columns of a saved line: profile, peaks, integrations, fits, in that order. */
  function Saved(line: LineData, peaks: Option<seq<nat>>, ints: seq<(nat, nat)>, fits: seq<Fitting.FitRecord>,
                 ln: real -> real, exp: real -> real): (t: Table)
    requires SameLength(line) && IndicesFit(line, peaks, ints)
    ensures Rectangular(t) && Rows(t) == |line.distances|
  {
    var b, rest := BaseColumns(line), SavedRest(line, peaks, ints, fits, ln, exp);
    AllRowsAppend(b, rest, |line.distances|);
    b + rest
  }

  /**
   * `save_data`: the table written for a line, its peaks (if it has a peak
   * entry), its integrations and its fits. Arrays of different lengths make
   * pandas refuse to build the frame, and a peak or integration index past
   * the arrays raises IndexError; the error dialog is modelled as None.
   */
  function SaveTable(line: LineData, peaks: Option<seq<nat>>, ints: seq<(nat, nat)>, fits: seq<Fitting.FitRecord>,
                     ln: real -> real, exp: real -> real): (r: Option<Table>)
    ensures r.None? <==> !SameLength(line) || !IndicesFit(line, peaks, ints)
    ensures r.Some? ==> Rectangular(r.value) && Rows(r.value) == |line.distances|
  {
    if SameLength(line) && IndicesFit(line, peaks, ints) then Some(Saved(line, peaks, ints, fits, ln, exp)) else None
  }

  /** Number of rows of a table. */
  function Rows(table: Table): nat
  {
    if table == [] then 0 else |table[0].values|
  }

  /** Every column has the same number of rows, as in any data frame. */
  predicate Rectangular(table: Table)
  {
    AllRows(table, Rows(table))
  }

  /** A data frame with at least one row, whose `iloc[0]` exists. */
  predicate HasRows(table: Table)
  {
    Rectangular(table) && Rows(table) > 0
  }

  /** Indices in strictly increasing order, as `np.where` and `find_peaks` produce them. */
  predicate Increasing(s: seq<nat>)
  {
    forall i, j :: 0 <= i < j < |s| ==> s[i] < s[j]
  }

  /** `np.where(v > 0)[0]`: the indices of the positive entries, in increasing order. */
  function PositiveIndices(v: seq<real>): (r: seq<nat>)
    ensures Increasing(r)
    ensures forall k :: 0 <= k < |r| ==> r[k] < |v|
    ensures forall i :: 0 <= i < |v| ==> (v[i] > 0.0 <==> i in r)
  {
    if v == [] then []
    else
      var m := |v| - 1;
      var r := PositiveIndices(v[..m]);
      assert forall i :: 0 <= i < m ==> v[..m][i] == v[i];
      r + (if v[m] > 0.0 then [m] else [])
  }

  lemma HeadIsMember(s: seq<nat>)
    ensures s != [] ==> s[0] in s
  {
  }

  /** Two increasing index sequences with the same members are equal. */
  lemma {:induction false} IncreasingSameMembers(a: seq<nat>, b: seq<nat>)
    requires Increasing(a) && Increasing(b)
    requires forall x :: x in a <==> x in b
    ensures a == b
    decreases |a|
  {
    if a == [] || b == [] {
      HeadIsMember(a);
      HeadIsMember(b);
    } else {
      assert a[0] in b;
      assert b[0] in a;
      assert a[0] == b[0];
      forall x ensures x in a[1..] <==> x in b[1..] {
        if x in a[1..] {
          assert x in b && x != b[0];
        }
        if x in b[1..] {
          assert x in a && x != a[0];
        }
      }
      IncreasingSameMembers(a[1..], b[1..]);
      assert a == [a[0]] + a[1..];
      assert b == [b[0]] + b[1..];
    }
  }

  /**
   * The integration a column header yields: an `Integration_<k>_Start` header
   * whose `_End` column exists gives the first nearest distances to the first
   * values of both columns; every other header gives nothing.
   */
  function IntegrationFrom(table: Table, name: ColumnName, d: seq<real>): seq<(nat, nat)>
    requires HasRows(table) && |d| > 0
  {
    match name
    case IntegrationStart(k) =>
      LookupRows(table, name, Rows(table));
      LookupRows(table, IntegrationEnd(k), Rows(table));
      (match (Lookup(table, name), Lookup(table, IntegrationEnd(k)))
       case (Some(sv), Some(ev)) => [(NearestIndex(d, sv[0]), NearestIndex(d, ev[0]))]
       case _ => [])
    case _ => []
  }

  /** What the headers of `cols` yield one by one, concatenated in column order. */
  function Collect<T>(cols: Table, read: ColumnName --> seq<T>): seq<T>
    requires forall n :: read.requires(n)
  {
    if cols == [] then []
    else Collect(cols[..|cols| - 1], read) + read(cols[|cols| - 1].name)
  }

  /** Collecting over two runs of columns is collecting over each. */
  lemma {:induction false} CollectAppend<T>(a: Table, b: Table, read: ColumnName --> seq<T>)
    requires forall n :: read.requires(n)
    ensures Collect(a + b, read) == Collect(a, read) + Collect(b, read)
    decreases |b|
  {
    if b == [] {
      assert a + b == a;
    } else {
      assert (a + b)[..|a + b| - 1] == a + b[..|b| - 1];
      CollectAppend(a, b[..|b| - 1], read);
    }
  }

  /** Headers that each yield nothing yield nothing together. */
  lemma {:induction false} CollectNone<T>(cols: Table, read: ColumnName --> seq<T>)
    requires forall n :: read.requires(n)
    requires forall j :: 0 <= j < |cols| ==> read(cols[j].name) == []
    ensures Collect(cols, read) == []
    decreases |cols|
  {
    if cols != [] {
      CollectNone(cols[..|cols| - 1], read);
    }
  }

  /** When every header but one yields nothing, the run yields what that one does. */
  lemma {:induction false} CollectOnly<T>(cols: Table, i: nat, read: ColumnName --> seq<T>)
    requires forall n :: read.requires(n)
    requires i < |cols|
    requires forall j :: 0 <= j < |cols| && j != i ==> read(cols[j].name) == []
    ensures Collect(cols, read) == read(cols[i].name)
    decreases |cols|
  {
    var m := |cols| - 1;
    if i == m {
      CollectNone(cols[..m], read);
    } else {
      CollectOnly(cols[..m], i, read);
    }
  }

  /** `IntegrationFrom` as a reader of headers. */
  function IntegrationReader(table: Table, d: seq<real>): (read: ColumnName --> seq<(nat, nat)>)
    requires HasRows(table) && |d| > 0
    ensures forall n :: read.requires(n)
  {
    n requires HasRows(table) && |d| > 0 => IntegrationFrom(table, n, d)
  }

  /** The integrations read for the headers of `cols`, in column order. */
  function LoadIntegrations(table: Table, cols: Table, d: seq<real>): seq<(nat, nat)>
    requires HasRows(table) && |d| > 0
  {
    Collect(cols, IntegrationReader(table, d))
  }

  lemma LoadIntegrationsAppend(table: Table, a: Table, b: Table, d: seq<real>)
    requires HasRows(table) && |d| > 0
    ensures LoadIntegrations(table, a + b, d) == LoadIntegrations(table, a, d) + LoadIntegrations(table, b, d)
  {
    CollectAppend(a, b, IntegrationReader(table, d));
  }

  /** Columns that are not integration starts yield no integration. */
  lemma LoadIntegrationsNone(table: Table, cols: Table, d: seq<real>)
    requires HasRows(table) && |d| > 0
    requires forall i :: 0 <= i < |cols| ==> !cols[i].name.IntegrationStart?
    ensures LoadIntegrations(table, cols, d) == []
  {
    CollectNone(cols, IntegrationReader(table, d));
  }

  /** A fit as `open_data` rebuilds it from its parameters and area; the peak index is not stored. */
  function ReloadedFit(p: Fitting.Params, area: real, ln: real -> real, exp: real -> real): (r: Fitting.FitRecord)
    ensures r.peakIdx.None? && r.params == p && r.area == area && |r.xFit| == 500 && |r.yFit| == 500
    ensures r.xFit[0] == p.center - 5.0 * p.hwhm && r.xFit[499] == p.center + 5.0 * p.hwhm
  {
    var xFit := Linspace(p.center - 5.0 * p.hwhm, p.center + 5.0 * p.hwhm, 500);
    Fitting.FitRecord(None, p, xFit, Fitting.MecozziCurve(xFit, p, ln, exp), area)
  }

  /** The area of a fit whose file has no area column: the trapezoid area of the rebuilt curve. */
  function RecomputedArea(p: Fitting.Params, ln: real -> real, exp: real -> real): real
  {
    var xFit := Linspace(p.center - 5.0 * p.hwhm, p.center + 5.0 * p.hwhm, 500);
    Utils.Trapezoid(Fitting.MecozziCurve(xFit, p, ln, exp), xFit)
  }

  /**
   * The fit a column header yields: a `Fit_<k>_Height` header whose centre,
   * HWHM and asymmetry columns exist gives a fit rebuilt from the first
   * values, with the stored area or, without one, the recomputed area.
   */
  function FitFrom(table: Table, name: ColumnName, ln: real -> real, exp: real -> real): seq<Fitting.FitRecord>
    requires HasRows(table)
  {
    match name
    case FitHeight(k) =>
      LookupRows(table, name, Rows(table));
      LookupRows(table, FitCenter(k), Rows(table));
      LookupRows(table, FitHwhm(k), Rows(table));
      LookupRows(table, FitAsymmetry(k), Rows(table));
      LookupRows(table, FitArea(k), Rows(table));
      (match (Lookup(table, name), Lookup(table, FitCenter(k)), Lookup(table, FitHwhm(k)), Lookup(table, FitAsymmetry(k)))
       case (Some(hs), Some(cs), Some(ws), Some(asyms)) =>
         var p := Fitting.Params(hs[0], cs[0], ws[0], asyms[0]);
         var area := match Lookup(table, FitArea(k))
                     case Some(v) => v[0]
                     case None => RecomputedArea(p, ln, exp);
         [ReloadedFit(p, area, ln, exp)]
       case _ => [])
    case _ => []
  }

  /** `FitFrom` as a reader of headers. */
  function FitReader(table: Table, ln: real -> real, exp: real -> real): (read: ColumnName --> seq<Fitting.FitRecord>)
    requires HasRows(table)
    ensures forall n :: read.requires(n)
  {
    n requires HasRows(table) => FitFrom(table, n, ln, exp)
  }

  /** The fits read for the headers of `cols`, in column order. */
  function LoadFits(table: Table, cols: Table, ln: real -> real, exp: real -> real): seq<Fitting.FitRecord>
    requires HasRows(table)
  {
    Collect(cols, FitReader(table, ln, exp))
  }

  lemma LoadFitsAppend(table: Table, a: Table, b: Table, ln: real -> real, exp: real -> real)
    requires HasRows(table)
    ensures LoadFits(table, a + b, ln, exp) == LoadFits(table, a, ln, exp) + LoadFits(table, b, ln, exp)
  {
    CollectAppend(a, b, FitReader(table, ln, exp));
  }

  /** Columns that are not fit heights yield no fit. */
  lemma LoadFitsNone(table: Table, cols: Table, ln: real -> real, exp: real -> real)
    requires HasRows(table)
    requires forall i :: 0 <= i < |cols| ==> !cols[i].name.FitHeight?
    ensures LoadFits(table, cols, ln, exp) == []
  {
    CollectNone(cols, FitReader(table, ln, exp));
  }

  /** What `open_data` puts in the tab. */
  datatype Loaded = Loaded(line: LineData, peaks: Option<seq<nat>>, integrations: seq<(nat, nat)>,
                           fits: seq<Fitting.FitRecord>)

  /**
   * `open_data`: a table without a `Distance` or `Filtered_Intensity` column is
   * refused (None). Otherwise the line is rebuilt (raw intensities default to
   * the filtered ones), the peaks are the rows with a positive marker (kept
   * only if there is at least one), and integrations and fits are read in
   * column order. In a table without rows the first `iloc[0]` raises, which
   * leaves the tab with the new line, its peaks, and no integrations or fits.
   */
  function Load(table: Table, color: string, ln: real -> real, exp: real -> real): (r: Option<Loaded>)
    requires Rectangular(table)
    ensures r.None? <==> Lookup(table, Distance).None? || Lookup(table, FilteredIntensity).None?
    ensures r.Some? ==> r.value.line.distances == Lookup(table, Distance).value &&
                        r.value.line.filtered == Lookup(table, FilteredIntensity).value &&
                        r.value.line.color == color
    ensures r.Some? && r.value.peaks.Some? ==> |r.value.peaks.value| > 0 && Increasing(r.value.peaks.value)
    ensures r.Some? && Rows(table) == 0 ==> r.value.integrations == [] && r.value.fits == []
  {
    match (Lookup(table, Distance), Lookup(table, FilteredIntensity))
    case (Some(d), Some(f)) =>
      var raw := match Lookup(table, RawIntensity) case Some(v) => v case None => f;
      var line := LineData(d, raw, f, color);
      var peaks := match Lookup(table, PeaksMarker)
                   case None => None
                   case Some(m) => var idx := PositiveIndices(m); if |idx| > 0 then Some(idx) else None;
      if Rows(table) == 0 then Some(Loaded(line, peaks, [], []))
      else
        LookupRows(table, Distance, Rows(table));
        Some(Loaded(line, peaks, LoadIntegrations(table, table, d), LoadFits(table, table, ln, exp)))
    case _ => None
  }


  /** The positive entries of a marker column are the peaks at which the filtered value is positive. */
  lemma MarkerPositiveIndices(peaks: seq<nat>, f: seq<real>)
    ensures forall i :: i in PositiveIndices(Marker(peaks, f)) <==> (i in peaks && 0 <= i < |f| && f[i] > 0.0)
  {
    var m := Marker(peaks, f);
    var idx := PositiveIndices(m);
    forall i ensures i in idx <==> (i in peaks && 0 <= i < |f| && f[i] > 0.0) {
      if i in idx {
        var k :| 0 <= k < |idx| && idx[k] == i;
      }
    }
  }

  /** The profile columns of a saved table hold the line's arrays. */
  lemma SavedProfile(line: LineData, peaks: Option<seq<nat>>, ints: seq<(nat, nat)>, fits: seq<Fitting.FitRecord>,
                     ln: real -> real, exp: real -> real)
    requires SameLength(line) && IndicesFit(line, peaks, ints)
    ensures var t := Saved(line, peaks, ints, fits, ln, exp);
            Lookup(t, Distance) == Some(line.distances) &&
            Lookup(t, RawIntensity) == Some(line.rawIntensities) &&
            Lookup(t, FilteredIntensity) == Some(line.filtered)
  {
    var b, rest := BaseColumns(line), SavedRest(line, peaks, ints, fits, ln, exp);
    LookupAt(b, 0, Distance);
    LookupAt(b, 1, RawIntensity);
    LookupAt(b, 2, FilteredIntensity);
    LookupAppend(b, rest, Distance);
    LookupAppend(b, rest, RawIntensity);
    LookupAppend(b, rest, FilteredIntensity);
  }

  /** A saved table has a marker column exactly when the line had a peak entry. */
  lemma SavedMarker(line: LineData, peaks: Option<seq<nat>>, ints: seq<(nat, nat)>, fits: seq<Fitting.FitRecord>,
                    ln: real -> real, exp: real -> real)
    requires SameLength(line) && IndicesFit(line, peaks, ints)
    ensures var t := Saved(line, peaks, ints, fits, ln, exp);
            Lookup(t, PeaksMarker) == if peaks.Some? then Some(Marker(peaks.value, line.filtered)) else None
  {
    var b, rest := BaseColumns(line), SavedRest(line, peaks, ints, fits, ln, exp);
    LookupAbsent(b, PeaksMarker);
    LookupAppend(b, rest, PeaksMarker);
    RestMarker(line, peaks, ints, fits, ln, exp);
  }

  /** After the profile columns, the marker column comes first, and only with a peak entry. */
  lemma RestMarker(line: LineData, peaks: Option<seq<nat>>, ints: seq<(nat, nat)>, fits: seq<Fitting.FitRecord>,
                   ln: real -> real, exp: real -> real)
    requires SameLength(line) && IndicesFit(line, peaks, ints)
    ensures Lookup(SavedRest(line, peaks, ints, fits, ln, exp), PeaksMarker) ==
            if peaks.Some? then Some(Marker(peaks.value, line.filtered)) else None
  {
    var pp, tail := PeakPart(peaks, line.distances, line.filtered), SavedTail(line, ints, fits, ln, exp);
    LookupAbsent(tail, PeaksMarker);
    if peaks.Some? {
      LookupAt(pp, 0, PeaksMarker);
    }
    LookupAppend(pp, tail, PeaksMarker);
  }

  /** Saving a line and opening the file gives the line back. */
  lemma SaveLoadLine(line: LineData, peaks: Option<seq<nat>>, ints: seq<(nat, nat)>, fits: seq<Fitting.FitRecord>,
                     ln: real -> real, exp: real -> real)
    requires SameLength(line) && IndicesFit(line, peaks, ints)
    ensures var r := Load(Saved(line, peaks, ints, fits, ln, exp), line.color, ln, exp);
            r.Some? && r.value.line == line
  {
    SavedProfile(line, peaks, ints, fits, ln, exp);
  }

  /**
   * The peaks read back are exactly the saved peaks at which the filtered
   * intensity is positive; a line saved without a peak entry, or whose peaks
   * all sit at non-positive values, comes back without one.
   */
  lemma SaveLoadPeakMembers(line: LineData, peaks: Option<seq<nat>>, ints: seq<(nat, nat)>, fits: seq<Fitting.FitRecord>,
                            ln: real -> real, exp: real -> real)
    requires SameLength(line) && IndicesFit(line, peaks, ints)
    ensures var r := Load(Saved(line, peaks, ints, fits, ln, exp), line.color, ln, exp);
            r.Some? &&
            forall i :: (r.value.peaks.Some? && i in r.value.peaks.value) <==>
                        (peaks.Some? && i in peaks.value && 0 <= i < |line.filtered| && line.filtered[i] > 0.0)
  {
    var t := Saved(line, peaks, ints, fits, ln, exp);
    SavedProfile(line, peaks, ints, fits, ln, exp);
    SavedMarker(line, peaks, ints, fits, ln, exp);
    LoadedPeaks(t, line.color, ln, exp);
    if peaks.Some? {
      MarkerPositiveIndices(peaks.value, line.filtered);
    }
  }

  /** Opening a table reads as peaks the positive entries of its marker column, if it has one. */
  lemma LoadedPeaks(table: Table, color: string, ln: real -> real, exp: real -> real)
    requires Rectangular(table) && Load(table, color, ln, exp).Some?
    ensures var r := Load(table, color, ln, exp);
            forall i :: (r.value.peaks.Some? && i in r.value.peaks.value) <==>
                        (Lookup(table, PeaksMarker).Some? && i in PositiveIndices(Lookup(table, PeaksMarker).value))
  {
    if Lookup(table, PeaksMarker).Some? {
      HeadIsMember(PositiveIndices(Lookup(table, PeaksMarker).value));
    }
  }

  /** Increasing peaks that all sit at positive filtered values survive saving and opening unchanged. */
  lemma SaveLoadPeaks(line: LineData, peaks: seq<nat>, ints: seq<(nat, nat)>, fits: seq<Fitting.FitRecord>,
                      ln: real -> real, exp: real -> real)
    requires SameLength(line) && IndicesFit(line, Some(peaks), ints)
    requires |peaks| > 0 && Increasing(peaks) && forall k :: 0 <= k < |peaks| ==> line.filtered[peaks[k]] > 0.0
    ensures var r := Load(Saved(line, Some(peaks), ints, fits, ln, exp), line.color, ln, exp);
            r.Some? && r.value.peaks == Some(peaks)
  {
    SaveLoadPeakMembers(line, Some(peaks), ints, fits, ln, exp);
    var r := Load(Saved(line, Some(peaks), ints, fits, ln, exp), line.color, ln, exp);
    HeadIsMember(peaks);
    assert peaks[0] in peaks;
    assert r.value.peaks.Some?;
    forall i ensures i in r.value.peaks.value <==> i in peaks {
      if i in peaks {
        var k :| 0 <= k < |peaks| && peaks[k] == i;
      }
    }
    IncreasingSameMembers(r.value.peaks.value, peaks);
  }

  /** Integration k of a run of integration columns can be found by its start and end headers. */
  lemma {:induction false} IntegrationColumnsLookup(ints: seq<(nat, nat)>, areas: seq<real>, d: seq<real>, k: nat)
    requires |areas| == |ints| && IndicesBelow(ints, |d|)
    requires 1 <= k <= |ints|
    ensures Lookup(IntegrationColumns(ints, areas, d), IntegrationStart(k)) == Some(Const(d[ints[k - 1].0], |d|))
    ensures Lookup(IntegrationColumns(ints, areas, d), IntegrationEnd(k)) == Some(Const(d[ints[k - 1].1], |d|))
    decreases |ints|
  {
    var m := |ints|;
    if k < m {
      var block := IntegrationBlock(m, ints[m - 1].0, ints[m - 1].1, d, areas[m - 1]);
      LookupAppend(IntegrationColumns(ints[..m - 1], areas[..m - 1], d), block, IntegrationStart(k));
      LookupAppend(IntegrationColumns(ints[..m - 1], areas[..m - 1], d), block, IntegrationEnd(k));
      IntegrationColumnsLookup(ints[..m - 1], areas[..m - 1], d, k);
    } else {
      LastIntegrationLookup(ints, areas, d);
    }
  }

  /** The bounds of the last integration are found in its own block, the earlier blocks holding other numbers. */
  lemma LastIntegrationLookup(ints: seq<(nat, nat)>, areas: seq<real>, d: seq<real>)
    requires |areas| == |ints| && IndicesBelow(ints, |d|) && ints != []
    ensures var m := |ints|;
            Lookup(IntegrationColumns(ints, areas, d), IntegrationStart(m)) == Some(Const(d[ints[m - 1].0], |d|)) &&
            Lookup(IntegrationColumns(ints, areas, d), IntegrationEnd(m)) == Some(Const(d[ints[m - 1].1], |d|))
  {
    LastIntegrationColumn(ints, areas, d, 1);
    LastIntegrationColumn(ints, areas, d, 2);
  }

  /** A column of the last integration block is found in that block. */
  lemma LastIntegrationColumn(ints: seq<(nat, nat)>, areas: seq<real>, d: seq<real>, i: nat)
    requires |areas| == |ints| && IndicesBelow(ints, |d|) && ints != [] && i < 4
    ensures var m := |ints|;
            var block := IntegrationBlock(m, ints[m - 1].0, ints[m - 1].1, d, areas[m - 1]);
            Lookup(IntegrationColumns(ints, areas, d), block[i].name) == Some(block[i].values)
  {
    var m := |ints|;
    var front := IntegrationColumns(ints[..m - 1], areas[..m - 1], d);
    var block := IntegrationBlock(m, ints[m - 1].0, ints[m - 1].1, d, areas[m - 1]);
    LookupInLast(front, block, i, block[i].name);
  }

  /** With strictly increasing distances, the nearest distance to d[i] is d[i] itself. */
  lemma NearestOfIncreasing(d: seq<real>, i: nat)
    requires i < |d| && StrictlyIncreasing(d)
    ensures NearestIndex(d, d[i]) == i
  {
    forall k | 0 <= k < |d| && k != i ensures d[k] != d[i] {
      if k < i {
        assert d[k] < d[i];
      } else {
        assert d[i] < d[k];
      }
    }
    NearestIndexOfMember(d, i);
  }

  /** Integrations whose start and end columns can be found in the table. */
  predicate BoundsListed(table: Table, ints: seq<(nat, nat)>, d: seq<real>)
    requires IndicesBelow(ints, |d|)
  {
    forall k :: 1 <= k <= |ints| ==>
      Lookup(table, IntegrationStart(k)) == Some(Const(d[ints[k - 1].0], |d|)) &&
      Lookup(table, IntegrationEnd(k)) == Some(Const(d[ints[k - 1].1], |d|))
  }

  /** The headers of one integration read back as that integration. */
  lemma LoadIntegrationBlock(table: Table, k: nat, s: nat, e: nat, d: seq<real>, area: real)
    requires s < |d| && e < |d|
    requires NearestIndex(d, d[s]) == s && NearestIndex(d, d[e]) == e
    requires HasRows(table)
    requires Lookup(table, IntegrationStart(k)) == Some(Const(d[s], |d|))
    requires Lookup(table, IntegrationEnd(k)) == Some(Const(d[e], |d|))
    ensures LoadIntegrations(table, IntegrationBlock(k, s, e, d, area), d) == [(s, e)]
  {
    var block := IntegrationBlock(k, s, e, d, area);
    IntegrationBlockReads(table, k, s, e, d, area);
    CollectOnly(block, 1, IntegrationReader(table, d));
  }

  /** Of the four headers of an integration, all but the start read as nothing. */
  lemma IntegrationBlockReads(table: Table, k: nat, s: nat, e: nat, d: seq<real>, area: real)
    requires s < |d| && e < |d| && HasRows(table)
    ensures var block := IntegrationBlock(k, s, e, d, area);
            forall j :: 0 <= j < 4 && j != 1 ==> IntegrationReader(table, d)(block[j].name) == []
  {
  }

  /** Reading one more integration block extends what the earlier blocks read. */
  lemma LoadIntegrationColumnsStep(table: Table, ints: seq<(nat, nat)>, areas: seq<real>, d: seq<real>)
    requires |areas| == |ints| && |d| > 0 && StrictlyIncreasing(d) && IndicesBelow(ints, |d|)
    requires HasRows(table) && ints != []
    requires var (s, e) := ints[|ints| - 1];
             Lookup(table, IntegrationStart(|ints|)) == Some(Const(d[s], |d|)) &&
             Lookup(table, IntegrationEnd(|ints|)) == Some(Const(d[e], |d|))
    requires LoadIntegrations(table, IntegrationColumns(ints[..|ints| - 1], areas[..|ints| - 1], d), d) == ints[..|ints| - 1]
    ensures LoadIntegrations(table, IntegrationColumns(ints, areas, d), d) == ints
  {
    var m := |ints|;
    SplitLast(ints);
    var s, e := ints[m - 1].0, ints[m - 1].1;
    var front, block := IntegrationColumns(ints[..m - 1], areas[..m - 1], d), IntegrationBlock(m, s, e, d, areas[m - 1]);
    NearestOfIncreasing(d, s);
    NearestOfIncreasing(d, e);
    LoadIntegrationBlock(table, m, s, e, d, areas[m - 1]);
    LoadIntegrationsAppend(table, front, block, d);
  }

  /** Reading a run of integration columns gives the saved integrations, when distances are distinct. */
  lemma {:induction false} LoadIntegrationColumns(table: Table, ints: seq<(nat, nat)>, areas: seq<real>, d: seq<real>)
    requires |areas| == |ints| && |d| > 0 && StrictlyIncreasing(d) && IndicesBelow(ints, |d|)
    requires HasRows(table) && BoundsListed(table, ints, d)
    ensures LoadIntegrations(table, IntegrationColumns(ints, areas, d), d) == ints
    decreases |ints|
  {
    if ints != [] {
      var m := |ints|;
      assert BoundsListed(table, ints[..m - 1], d);
      assert Lookup(table, IntegrationStart(m)) == Some(Const(d[ints[m - 1].0], |d|));
      assert Lookup(table, IntegrationEnd(m)) == Some(Const(d[ints[m - 1].1], |d|));
      LoadIntegrationColumns(table, ints[..m - 1], areas[..m - 1], d);
      LoadIntegrationColumnsStep(table, ints, areas, d);
    }
  }

  /** A saved table is its profile, peak, integration and fit parts, in that order. */
  lemma SavedLayout(line: LineData, peaks: Option<seq<nat>>, ints: seq<(nat, nat)>, fits: seq<Fitting.FitRecord>,
                    ln: real -> real, exp: real -> real)
    requires SameLength(line) && IndicesFit(line, peaks, ints)
    ensures var d := line.distances;
            Saved(line, peaks, ints, fits, ln, exp) ==
            BaseColumns(line) + (PeakPart(peaks, d, line.filtered) +
            (IntegrationColumns(ints, IntegrationAreas(ints, d, line.filtered), d) + FitColumns(fits, d, ln, exp)))
  {
  }

  /** In a saved table's layout, only the integration part yields integrations. */
  lemma LoadIntegrationPart(table: Table, b: Table, pp: Table, ic: Table, fc: Table, d: seq<real>)
    requires HasRows(table) && |d| > 0
    requires NoIntegrationNames(b) && NoIntegrationNames(pp) && NoIntegrationNames(fc)
    ensures LoadIntegrations(table, b + (pp + (ic + fc)), d) == LoadIntegrations(table, ic, d)
  {
    LoadIntegrationsNone(table, b, d);
    LoadIntegrationsNone(table, pp, d);
    LoadIntegrationsNone(table, fc, d);
    LoadIntegrationsAppend(table, ic, fc, d);
    LoadIntegrationsAppend(table, pp, ic + fc, d);
    LoadIntegrationsAppend(table, b, pp + (ic + fc), d);
  }

  /**
   * A table laid out as a saved table, whose integration part holds the
   * integrations over strictly increasing distances, reads them back.
   */
  lemma IntegrationsOfLayout(t: Table, b: Table, pp: Table, ic: Table, fc: Table,
                             ints: seq<(nat, nat)>, areas: seq<real>, d: seq<real>)
    requires |areas| == |ints| && |d| > 0 && StrictlyIncreasing(d) && IndicesBelow(ints, |d|)
    requires t == b + (pp + (ic + fc)) && HasRows(t) && ic == IntegrationColumns(ints, areas, d)
    requires NoIntegrationNames(b) && NoIntegrationNames(pp) && NoIntegrationNames(fc)
    ensures LoadIntegrations(t, t, d) == ints
  {
    forall k | 1 <= k <= |ints|
      ensures Lookup(t, IntegrationStart(k)) == Some(Const(d[ints[k - 1].0], |d|))
      ensures Lookup(t, IntegrationEnd(k)) == Some(Const(d[ints[k - 1].1], |d|))
    {
      IntegrationColumnsLookup(ints, areas, d, k);
      LookupInIntegrationPart(b, pp, ic, fc, IntegrationStart(k));
      LookupInIntegrationPart(b, pp, ic, fc, IntegrationEnd(k));
    }
    LoadIntegrationColumns(t, ints, areas, d);
    LoadIntegrationPart(t, b, pp, ic, fc, d);
  }

  /** Integrations read from a table address its distance array. */
  lemma {:induction false} LoadIntegrationsBelow(table: Table, cols: Table, d: seq<real>)
    requires HasRows(table) && |d| > 0
    ensures IndicesBelow(LoadIntegrations(table, cols, d), |d|)
    decreases |cols|
  {
    if cols != [] {
      LoadIntegrationsBelow(table, cols[..|cols| - 1], d);
    }
  }

  /**
   * What `open_data` reads can be saved again: the line's arrays have one
   * length, the peaks address the filtered values and the integrations the
   * distances.
   */
  lemma LoadedSavable(table: Table, color: string, ln: real -> real, exp: real -> real)
    requires Rectangular(table) && Load(table, color, ln, exp).Some?
    ensures var l := Load(table, color, ln, exp).value;
            SameLength(l.line) && IndicesFit(l.line, l.peaks, l.integrations)
  {
    var n := Rows(table);
    LookupRows(table, Distance, n);
    LookupRows(table, RawIntensity, n);
    LookupRows(table, FilteredIntensity, n);
    LookupRows(table, PeaksMarker, n);
    if n > 0 {
      LoadIntegrationsBelow(table, table, Lookup(table, Distance).value);
    }
  }

  /** Only the integration part of a saved table holds integration columns. */
  lemma SavedIntegrationNames(line: LineData, peaks: Option<seq<nat>>, fits: seq<Fitting.FitRecord>,
                              ln: real -> real, exp: real -> real)
    requires SameLength(line) && IndicesFit(line, peaks, [])
    ensures NoIntegrationNames(BaseColumns(line))
    ensures NoIntegrationNames(PeakPart(peaks, line.distances, line.filtered))
    ensures NoIntegrationNames(FitColumns(fits, line.distances, ln, exp))
  {
  }

  /** Reading the integrations of a saved table with strictly increasing distances gives them back. */
  lemma SavedIntegrationsRead(line: LineData, peaks: Option<seq<nat>>, ints: seq<(nat, nat)>, fits: seq<Fitting.FitRecord>,
                              ln: real -> real, exp: real -> real)
    requires SameLength(line) && IndicesFit(line, peaks, ints)
    requires |line.distances| > 0 && StrictlyIncreasing(line.distances)
    ensures HasRows(Saved(line, peaks, ints, fits, ln, exp))
    ensures var t := Saved(line, peaks, ints, fits, ln, exp);
            LoadIntegrations(t, t, line.distances) == ints
  {
    var d := line.distances;
    var areas := IntegrationAreas(ints, d, line.filtered);
    var b, pp := BaseColumns(line), PeakPart(peaks, d, line.filtered);
    var ic, fc := IntegrationColumns(ints, areas, d), FitColumns(fits, d, ln, exp);
    SavedLayout(line, peaks, ints, fits, ln, exp);
    SavedIntegrationNames(line, peaks, fits, ln, exp);
    IntegrationsOfLayout(Saved(line, peaks, ints, fits, ln, exp), b, pp, ic, fc, ints, areas, d);
  }

  /** Saving and opening a line with strictly increasing distances gives its integrations back. */
  lemma SaveLoadIntegrations(line: LineData, peaks: Option<seq<nat>>, ints: seq<(nat, nat)>, fits: seq<Fitting.FitRecord>,
                             ln: real -> real, exp: real -> real)
    requires SameLength(line) && IndicesFit(line, peaks, ints)
    requires |line.distances| > 0 && StrictlyIncreasing(line.distances)
    ensures var r := Load(Saved(line, peaks, ints, fits, ln, exp), line.color, ln, exp);
            r.Some? && r.value.integrations == ints
  {
    SavedProfile(line, peaks, ints, fits, ln, exp);
    SavedIntegrationsRead(line, peaks, ints, fits, ln, exp);
  }

  /**
   * The integrations of a line whose distances are evenly spaced from 0 to a
   * positive path length, as every extracted profile of positive length is,
   * come back unchanged.
   */
  lemma SaveLoadIntegrationsEvenDistances(line: LineData, peaks: Option<seq<nat>>, ints: seq<(nat, nat)>,
                                          fits: seq<Fitting.FitRecord>, ln: real -> real, exp: real -> real, total: real)
    requires SameLength(line) && IndicesFit(line, peaks, ints)
    requires |line.distances| > 0 && total > 0.0 && line.distances == Linspace(0.0, total, |line.distances|)
    ensures var r := Load(Saved(line, peaks, ints, fits, ln, exp), line.color, ln, exp);
            r.Some? && r.value.integrations == ints
  {
    LinspaceIsStrictlyIncreasing(0.0, total, |line.distances|);
    SaveLoadIntegrations(line, peaks, ints, fits, ln, exp);
  }

  /** The header of parameter j of fit k: height, centre, HWHM, asymmetry, area. */
  function FitFieldName(j: nat, k: nat): (name: ColumnName)
    requires j < 5
    ensures IsFitName(name) && !name.FitHeight? <==> j > 0
  {
    [FitHeight(k), FitCenter(k), FitHwhm(k), FitAsymmetry(k), FitArea(k)][j]
  }

  /** Parameter j of a fit, in the order of the fit's columns. */
  function FitField(r: Fitting.FitRecord, j: nat): real
    requires j < 5
  {
    [r.params.height, r.params.center, r.params.hwhm, r.params.asym, r.area][j]
  }

  /** Column j + 1 of one fit's block holds parameter j under its header. */
  lemma FitBlockColumn(k: nat, r: Fitting.FitRecord, curve: seq<real>, j: nat)
    requires j < 5
    ensures FitBlock(k, r, curve)[j + 1] == Column(FitFieldName(j, k), Const(FitField(r, j), |curve|))
  {
  }

  /** Each parameter column of fit k of a run of fit columns can be found by its header. */
  lemma {:induction false} FitColumnsLookup(fits: seq<Fitting.FitRecord>, d: seq<real>, ln: real -> real, exp: real -> real,
                                            k: nat, j: nat)
    requires 1 <= k <= |fits| && j < 5
    ensures Lookup(FitColumns(fits, d, ln, exp), FitFieldName(j, k)) == Some(Const(FitField(fits[k - 1], j), |d|))
    decreases |fits|
  {
    var m := |fits|;
    if k < m {
      var front := FitColumns(fits[..m - 1], d, ln, exp);
      var block := FitBlock(m, fits[m - 1], Fitting.MecozziCurve(d, fits[m - 1].params, ln, exp));
      LookupAppend(front, block, FitFieldName(j, k));
      FitColumnsLookup(fits[..m - 1], d, ln, exp, k, j);
    } else {
      LastFitLookup(fits, d, ln, exp, j);
    }
  }

  /** The parameters of the last fit are found in its own block, the earlier blocks holding other numbers. */
  lemma LastFitLookup(fits: seq<Fitting.FitRecord>, d: seq<real>, ln: real -> real, exp: real -> real, j: nat)
    requires fits != [] && j < 5
    ensures Lookup(FitColumns(fits, d, ln, exp), FitFieldName(j, |fits|)) == Some(Const(FitField(fits[|fits| - 1], j), |d|))
  {
    var m := |fits|;
    var curve := Fitting.MecozziCurve(d, fits[m - 1].params, ln, exp);
    LastFitColumn(fits, d, ln, exp, j + 1);
    FitBlockColumn(m, fits[m - 1], curve, j);
  }

  /** A column of the last fit block is found in that block. */
  lemma LastFitColumn(fits: seq<Fitting.FitRecord>, d: seq<real>, ln: real -> real, exp: real -> real, i: nat)
    requires fits != [] && i < 6
    ensures var m := |fits|;
            var block := FitBlock(m, fits[m - 1], Fitting.MecozziCurve(d, fits[m - 1].params, ln, exp));
            Lookup(FitColumns(fits, d, ln, exp), block[i].name) == Some(block[i].values)
  {
    var m := |fits|;
    var front := FitColumns(fits[..m - 1], d, ln, exp);
    var block := FitBlock(m, fits[m - 1], Fitting.MecozziCurve(d, fits[m - 1].params, ln, exp));
    LookupInLast(front, block, i, block[i].name);
  }

  /** Fits whose parameter columns, n rows each, can be found in the table. */
  predicate FitsListed(table: Table, fits: seq<Fitting.FitRecord>, n: nat)
  {
    forall k, j :: 1 <= k <= |fits| && 0 <= j < 5 ==>
      Lookup(table, FitFieldName(j, k)) == Some(Const(FitField(fits[k - 1], j), n))
  }

  /** The fits `open_data` rebuilds from saved fits: same parameters and area, curve resampled, peak index lost. */
  function ReloadedFits(fits: seq<Fitting.FitRecord>, ln: real -> real, exp: real -> real): (r: seq<Fitting.FitRecord>)
    ensures |r| == |fits|
    ensures forall i :: 0 <= i < |fits| ==> r[i].params == fits[i].params && r[i].area == fits[i].area && r[i].peakIdx.None?
  {
    seq(|fits|, i requires 0 <= i < |fits| => ReloadedFit(fits[i].params, fits[i].area, ln, exp))
  }

  lemma ReloadedFitsLast(fits: seq<Fitting.FitRecord>, ln: real -> real, exp: real -> real)
    requires fits != []
    ensures var m := |fits|;
            ReloadedFits(fits, ln, exp) ==
            ReloadedFits(fits[..m - 1], ln, exp) + [ReloadedFit(fits[m - 1].params, fits[m - 1].area, ln, exp)]
  {
  }

  /** The height header of a fit whose parameter columns can be found yields that fit, rebuilt. */
  lemma FitFromHeight(table: Table, k: nat, r: Fitting.FitRecord, n: nat, ln: real -> real, exp: real -> real)
    requires HasRows(table) && n > 0
    requires forall j :: 0 <= j < 5 ==> Lookup(table, FitFieldName(j, k)) == Some(Const(FitField(r, j), n))
    ensures FitFrom(table, FitHeight(k), ln, exp) == [ReloadedFit(r.params, r.area, ln, exp)]
  {
    assert Lookup(table, FitFieldName(0, k)) == Some(Const(FitField(r, 0), n));
    assert Lookup(table, FitFieldName(1, k)) == Some(Const(FitField(r, 1), n));
    assert Lookup(table, FitFieldName(2, k)) == Some(Const(FitField(r, 2), n));
    assert Lookup(table, FitFieldName(3, k)) == Some(Const(FitField(r, 3), n));
    assert Lookup(table, FitFieldName(4, k)) == Some(Const(FitField(r, 4), n));
  }

  /** The headers of one fit read back as that fit, rebuilt. */
  lemma LoadFitBlock(table: Table, k: nat, r: Fitting.FitRecord, curve: seq<real>, ln: real -> real, exp: real -> real)
    requires HasRows(table)
    requires FitFrom(table, FitHeight(k), ln, exp) == [ReloadedFit(r.params, r.area, ln, exp)]
    ensures LoadFits(table, FitBlock(k, r, curve), ln, exp) == [ReloadedFit(r.params, r.area, ln, exp)]
  {
    var block := FitBlock(k, r, curve);
    FitBlockReads(table, k, r, curve, ln, exp);
    CollectOnly(block, 1, FitReader(table, ln, exp));
  }

  /** Of the six headers of a fit, all but the height read as nothing. */
  lemma FitBlockReads(table: Table, k: nat, r: Fitting.FitRecord, curve: seq<real>, ln: real -> real, exp: real -> real)
    requires HasRows(table)
    ensures var block := FitBlock(k, r, curve);
            forall j :: 0 <= j < 6 && j != 1 ==> FitReader(table, ln, exp)(block[j].name) == []
  {
  }

  /** Reading one more fit block extends what the earlier blocks read. */
  lemma LoadFitColumnsStep(table: Table, fits: seq<Fitting.FitRecord>, d: seq<real>, ln: real -> real, exp: real -> real)
    requires HasRows(table) && fits != []
    requires var r := fits[|fits| - 1]; FitFrom(table, FitHeight(|fits|), ln, exp) == [ReloadedFit(r.params, r.area, ln, exp)]
    requires LoadFits(table, FitColumns(fits[..|fits| - 1], d, ln, exp), ln, exp) == ReloadedFits(fits[..|fits| - 1], ln, exp)
    ensures LoadFits(table, FitColumns(fits, d, ln, exp), ln, exp) == ReloadedFits(fits, ln, exp)
  {
    var m := |fits|;
    var r := fits[m - 1];
    var curve := Fitting.MecozziCurve(d, r.params, ln, exp);
    var front, block := FitColumns(fits[..m - 1], d, ln, exp), FitBlock(m, r, curve);
    assert FitColumns(fits, d, ln, exp) == front + block;
    LoadFitBlock(table, m, r, curve, ln, exp);
    LoadFitsAppend(table, front, block, ln, exp);
    ReloadedFitsLast(fits, ln, exp);
  }

  /** Reading a run of fit columns gives the saved fits, rebuilt. */
  lemma {:induction false} LoadFitColumns(table: Table, fits: seq<Fitting.FitRecord>, d: seq<real>, ln: real -> real, exp: real -> real)
    requires |d| > 0 && HasRows(table) && FitsListed(table, fits, |d|)
    ensures LoadFits(table, FitColumns(fits, d, ln, exp), ln, exp) == ReloadedFits(fits, ln, exp)
    decreases |fits|
  {
    if fits != [] {
      var m := |fits|;
      assert FitsListed(table, fits[..m - 1], |d|);
      LoadFitColumns(table, fits[..m - 1], d, ln, exp);
      FitFromHeight(table, m, fits[m - 1], |d|, ln, exp);
      LoadFitColumnsStep(table, fits, d, ln, exp);
    }
  }

  /** No column of t is a fit column. */
  predicate NoFitNames(t: Table)
  {
    forall i :: 0 <= i < |t| ==> !IsFitName(t[i].name)
  }

  /** In a saved table's layout, a fit header is found in the fit part. */
  lemma LookupInFitPart(b: Table, pp: Table, ic: Table, fc: Table, name: ColumnName)
    requires NoFitNames(b) && NoFitNames(pp) && NoFitNames(ic) && IsFitName(name)
    ensures Lookup(b + (pp + (ic + fc)), name) == Lookup(fc, name)
  {
    LookupAbsent(b, name);
    LookupAbsent(pp, name);
    LookupAbsent(ic, name);
    LookupAppend(ic, fc, name);
    LookupAppend(pp, ic + fc, name);
    LookupAppend(b, pp + (ic + fc), name);
  }

  /** In a saved table's layout, only the fit part yields fits. */
  lemma LoadFitPart(table: Table, b: Table, pp: Table, ic: Table, fc: Table, ln: real -> real, exp: real -> real)
    requires HasRows(table)
    requires NoFitNames(b) && NoFitNames(pp) && NoFitNames(ic)
    ensures LoadFits(table, b + (pp + (ic + fc)), ln, exp) == LoadFits(table, fc, ln, exp)
  {
    LoadFitsNone(table, b, ln, exp);
    LoadFitsNone(table, pp, ln, exp);
    LoadFitsNone(table, ic, ln, exp);
    LoadFitsAppend(table, ic, fc, ln, exp);
    LoadFitsAppend(table, pp, ic + fc, ln, exp);
    LoadFitsAppend(table, b, pp + (ic + fc), ln, exp);
  }

  /** A table laid out as a saved table reads back the fits of its fit part, rebuilt. */
  lemma FitsOfLayout(t: Table, b: Table, pp: Table, ic: Table, fc: Table,
                     fits: seq<Fitting.FitRecord>, d: seq<real>, ln: real -> real, exp: real -> real)
    requires |d| > 0 && t == b + (pp + (ic + fc)) && HasRows(t) && fc == FitColumns(fits, d, ln, exp)
    requires NoFitNames(b) && NoFitNames(pp) && NoFitNames(ic)
    ensures LoadFits(t, t, ln, exp) == ReloadedFits(fits, ln, exp)
  {
    forall k, j | 1 <= k <= |fits| && 0 <= j < 5
      ensures Lookup(t, FitFieldName(j, k)) == Some(Const(FitField(fits[k - 1], j), |d|))
    {
      FitColumnsLookup(fits, d, ln, exp, k, j);
      LookupInFitPart(b, pp, ic, fc, FitFieldName(j, k));
    }
    LoadFitColumns(t, fits, d, ln, exp);
    LoadFitPart(t, b, pp, ic, fc, ln, exp);
  }

  /** Only the fit part of a saved table holds fit columns. */
  lemma SavedFitNames(line: LineData, peaks: Option<seq<nat>>, ints: seq<(nat, nat)>)
    requires SameLength(line) && IndicesFit(line, peaks, ints)
    ensures NoFitNames(BaseColumns(line))
    ensures NoFitNames(PeakPart(peaks, line.distances, line.filtered))
    ensures NoFitNames(IntegrationColumns(ints, IntegrationAreas(ints, line.distances, line.filtered), line.distances))
  {
  }

  /** Reading the fits of a saved table with rows gives them back, rebuilt. */
  lemma SavedFitsRead(line: LineData, peaks: Option<seq<nat>>, ints: seq<(nat, nat)>, fits: seq<Fitting.FitRecord>,
                      ln: real -> real, exp: real -> real)
    requires SameLength(line) && IndicesFit(line, peaks, ints) && |line.distances| > 0
    ensures HasRows(Saved(line, peaks, ints, fits, ln, exp))
    ensures var t := Saved(line, peaks, ints, fits, ln, exp);
            LoadFits(t, t, ln, exp) == ReloadedFits(fits, ln, exp)
  {
    var d := line.distances;
    var b, pp := BaseColumns(line), PeakPart(peaks, d, line.filtered);
    var ic, fc := IntegrationColumns(ints, IntegrationAreas(ints, d, line.filtered), d), FitColumns(fits, d, ln, exp);
    SavedLayout(line, peaks, ints, fits, ln, exp);
    SavedFitNames(line, peaks, ints);
    FitsOfLayout(Saved(line, peaks, ints, fits, ln, exp), b, pp, ic, fc, fits, d, ln, exp);
  }

  /**
   * Saving and opening a line with at least one row gives its fits back with
   * the same parameters and areas; the peak index is lost and the curve is
   * resampled around the centre.
   */
  lemma SaveLoadFits(line: LineData, peaks: Option<seq<nat>>, ints: seq<(nat, nat)>, fits: seq<Fitting.FitRecord>,
                     ln: real -> real, exp: real -> real)
    requires SameLength(line) && IndicesFit(line, peaks, ints) && |line.distances| > 0
    ensures var r := Load(Saved(line, peaks, ints, fits, ln, exp), line.color, ln, exp);
            r.Some? && r.value.fits == ReloadedFits(fits, ln, exp)
  {
    SavedProfile(line, peaks, ints, fits, ln, exp);
    SavedFitsRead(line, peaks, ints, fits, ln, exp);
  }

  /** A file without rows loses its integrations and fits: the first `iloc[0]` raises. */
  lemma SaveLoadEmptyLine(line: LineData, peaks: Option<seq<nat>>, ints: seq<(nat, nat)>, fits: seq<Fitting.FitRecord>,
                          ln: real -> real, exp: real -> real)
    requires SameLength(line) && IndicesFit(line, peaks, ints) && |line.distances| == 0
    ensures var r := Load(Saved(line, peaks, ints, fits, ln, exp), line.color, ln, exp);
            r.Some? && r.value.line == line && r.value.integrations == [] && r.value.fits == []
  {
    SavedProfile(line, peaks, ints, fits, ln, exp);
  }
}
